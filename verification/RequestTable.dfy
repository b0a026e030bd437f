/**
 The interrupt table (rlm/dispatch.go): one actor owns the active id, the cancel
 functions of live requests and the parked interrupts.  `After` folds the commands
 it has processed; `WellFormed` says which command histories a kernel produces when
 request ids are not reused (KernelInterrupts proves that it produces only those).
 */
module RequestTable {
  import opened Prelude

  /** A context made by context.WithCancel; its cancel function is named by the same number. */
  type Ctx = nat

  datatype Cmd =
    | Register(id: Id, ctx: Ctx)
    | Activate(id: Id)
    | Deactivate(id: Id)
    | Interrupt(id: Id)

  datatype Reply = Reply(cancel: Option<Ctx>, parked: bool)

  /** `cancelled` collects the contexts whose cancel function the table has called. */
  datatype Table = Table(
    active: Id, cancels: map<Id, Ctx>, parked: set<Id>, parkNext: bool, cancelled: set<Ctx>)

  const FRESH := Table("", map[], {}, false, {})

  /** What an activate command is answered with, before it changes the table. */
  function Answer(t: Table, id: Id): Reply {
    Reply(if id in t.cancels then Some(t.cancels[id]) else None, id in t.parked || t.parkNext)
  }

  function Handle(t: Table, c: Cmd): Table {
    match c
    case Register(id, ctx) => t.(cancels := t.cancels[id := ctx])
    case Activate(id) => t.(active := id, parked := t.parked - {id}, parkNext := false)
    case Deactivate(id) => t.(active := "", cancels := t.cancels - {id})
    case Interrupt(id) =>
      if id != "" then
        if id in t.cancels then t.(cancelled := t.cancelled + {t.cancels[id]}) else t.(parked := t.parked + {id})
      else if t.active != "" then
        if t.active in t.cancels then t.(cancelled := t.cancelled + {t.cancels[t.active]}) else t
      else
        t.(parkNext := true)
  }

  /** The table after a whole command history. */
  function After(h: seq<Cmd>): Table {
    if h == [] then FRESH else Handle(After(Front(h)), Last(h))
  }

  /** The answers to the activate commands of `cmds`, processed after `h`. */
  function Answers(h: seq<Cmd>, cmds: seq<Cmd>): seq<Reply> {
    if cmds == [] then []
    else
      Answers(h, Front(cmds)) +
      if Last(cmds).Activate? then [Answer(After(h + Front(cmds)), Last(cmds).id)] else []
  }

  /** The actor itself. */
  class TableActor {
    var activeID: Id
    var cancels: map<Id, Ctx>
    var parked: set<Id>
    var parkNext: bool
    var cancelled: set<Ctx>
    ghost var history: seq<Cmd>

    ghost predicate Valid()
      reads this
    {
      Table(activeID, cancels, parked, parkNext, cancelled) == After(history)
    }

    constructor ()
      ensures Valid() && history == []
    {
      activeID, cancels, parked, parkNext, cancelled, history := "", map[], {}, false, {}, [];
    }

    /** One pass of the loop over the command channel; an activate command is answered. */
    method Process(c: Cmd) returns (replies: seq<Reply>)
      requires Valid()
      modifies this
      ensures Valid() && history == old(history) + [c]
      ensures replies == if c.Activate? then [Answer(After(old(history)), c.id)] else []
    {
      replies := [];
      match c {
        case Register(id, ctx) =>
          cancels := cancels[id := ctx];
        case Activate(id) =>
          activeID := id;
          var p := id in parked || parkNext;
          parked := parked - {id};
          parkNext := false;
          replies := [Reply(if id in cancels then Some(cancels[id]) else None, p)];
        case Deactivate(id) =>
          activeID := "";
          cancels := cancels - {id};
        case Interrupt(id) =>
          if id != "" {
            if id in cancels {
              cancelled := cancelled + {cancels[id]};
            } else {
              parked := parked + {id};
            }
          } else if activeID != "" {
            if activeID in cancels {
              cancelled := cancelled + {cancels[activeID]};
            }
          } else {
            parkNext := true;
          }
      }
      assert Front(history + [c]) == history;
      history := history + [c];
    }

    /** The loop over the command channel, for any batch of commands found in it. */
    method Run(cmds: seq<Cmd>) returns (replies: seq<Reply>)
      requires Valid()
      modifies this
      ensures Valid() && history == old(history) + cmds
      ensures replies == Answers(old(history), cmds)
    {
      replies := [];
      for n := 0 to |cmds|
        invariant Valid() && history == old(history) + cmds[..n]
        invariant replies == Answers(old(history), cmds[..n])
      {
        assert Front(cmds[..n + 1]) == cmds[..n] && Last(cmds[..n + 1]) == cmds[n];
        var r := Process(cmds[n]);
        replies := replies + r;
      }
      assert cmds[..|cmds|] == cmds;
    }
  }

  // ----- Histories ------------------------------------------------------------------

  /** The request running after `h`, read off the history alone. */
  function ActiveId(h: seq<Cmd>): Id {
    if h == [] then ""
    else match Last(h)
      case Activate(id) => id
      case Deactivate(_) => ""
      case _ => ActiveId(Front(h))
  }

  /** The context `id` was last registered with. */
  function CtxOf(h: seq<Cmd>, id: Id): Option<Ctx> {
    if h == [] then None
    else if Last(h).Register? && Last(h).id == id then Some(Last(h).ctx)
    else CtxOf(Front(h), id)
  }

  ghost predicate Allowed(h: seq<Cmd>, c: Cmd) {
    match c
    case Register(id, ctx) => id != "" && CtxOf(h, id).None? && forall y :: CtxOf(h, y) != Some(ctx)
    case Activate(id) => ActiveId(h) == "" && CtxOf(h, id).Some? && Activate(id) !in h
    case Deactivate(id) => id != "" && ActiveId(h) == id
    case Interrupt(_) => true
  }

  /** Ids and contexts are registered once, a request is activated once, after its
      registration and while nothing runs, and only the running one is deactivated. */
  ghost predicate WellFormed(h: seq<Cmd>) {
    h == [] || (WellFormed(Front(h)) && Allowed(Front(h), Last(h)))
  }

  // ----- The history specification ----------------------------------------------------

  /** (a) an interrupt names x before x is deactivated. */
  ghost predicate HitByName(h: seq<Cmd>, x: Id) {
    exists i :: 0 <= i < |h| && h[i] == Interrupt(x) && Deactivate(x) !in h[..i]
  }

  /** (b) an id-less interrupt arrives while x runs. */
  ghost predicate HitWhileActive(h: seq<Cmd>, x: Id) {
    exists i :: 0 <= i < |h| && h[i] == Interrupt("") && ActiveId(h[..i]) == x
  }

  /** An id-less interrupt came while nothing ran, and nothing was activated since. */
  ghost predicate Waiting(h: seq<Cmd>) {
    exists i :: WaitsSince(h, i)
  }

  ghost predicate WaitsSince(h: seq<Cmd>, i: int) {
    && 0 <= i < |h|
    && h[i] == Interrupt("")
    && ActiveId(h[..i]) == ""
    && forall k :: i < k < |h| ==> !h[k].Activate?
  }

  /** (c) x is the next one activated after such an interrupt. */
  ghost predicate HitBeforeNext(h: seq<Cmd>, x: Id) {
    exists j :: 0 <= j < |h| && h[j] == Activate(x) && Waiting(h[..j])
  }

  /** What the code does: the table calls x's cancel function, or answers x's activation
      with `parked`, upon which the executor calls it. */
  ghost predicate Interrupted(h: seq<Cmd>, x: Id) {
    CtxCancelled(h, x) || ToldParked(h, x)
  }

  ghost predicate CtxCancelled(h: seq<Cmd>, x: Id) {
    CtxOf(h, x).Some? && CtxOf(h, x).value in After(h).cancelled
  }

  ghost predicate ToldParked(h: seq<Cmd>, x: Id) {
    exists j :: 0 <= j < |h| && h[j] == Activate(x) && Answer(After(h[..j]), x).parked
  }

  // ----- One more command ---------------------------------------------------------------

  lemma Snoc(h: seq<Cmd>, c: Cmd)
    ensures Front(h + [c]) == h && Last(h + [c]) == c
    ensures After(h + [c]) == Handle(After(h), c)
  {
  }

  lemma SpecSnoc(h: seq<Cmd>, c: Cmd, x: Id)
    ensures HitByName(h + [c], x) <==> HitByName(h, x) || (c == Interrupt(x) && Deactivate(x) !in h)
    ensures HitWhileActive(h + [c], x) <==> HitWhileActive(h, x) || (c == Interrupt("") && ActiveId(h) == x)
    ensures HitBeforeNext(h + [c], x) <==> HitBeforeNext(h, x) || (c == Activate(x) && Waiting(h))
    ensures ToldParked(h + [c], x) <==> ToldParked(h, x) || (c == Activate(x) && Answer(After(h), x).parked)
  {
    var g := h + [c];
    assert forall i :: 0 <= i <= |h| ==> g[..i] == h[..i];
    assert h[..|h|] == h && g[|h|] == c;
    assert forall i :: 0 <= i < |h| ==> g[i] == h[i];
  }

  lemma WaitingSnoc(h: seq<Cmd>, c: Cmd)
    ensures Waiting(h + [c]) <==> !c.Activate? && (Waiting(h) || (c == Interrupt("") && ActiveId(h) == ""))
  {
    var g := h + [c];
    assert g[|h|] == c && g[..|h|] == h;
    forall i | 0 <= i < |h| ensures WaitsSince(g, i) <==> WaitsSince(h, i) && !c.Activate? {
      assert g[..i] == h[..i] && g[i] == h[i];
      if WaitsSince(g, i) {
        assert forall k :: i < k < |h| ==> h[k] == g[k];
      }
    }
    if c == Interrupt("") && ActiveId(h) == "" {
      assert WaitsSince(g, |h|);
    }
    if i :| WaitsSince(h, i) && !c.Activate? {
      assert WaitsSince(g, i);
    }
  }

  // ----- What the table holds after a well-formed history -------------------------------

  /** The table agrees with the history it processed. */
  ghost predicate Tracks(h: seq<Cmd>) {
    var t := After(h);
    && t.active == ActiveId(h)
    && (t.parkNext <==> Waiting(h))
    && (forall x :: x in t.cancels <==> CtxOf(h, x).Some? && Deactivate(x) !in h)
    && (forall x :: x in t.cancels ==> CtxOf(h, x) == Some(t.cancels[x]))
  }

  ghost predicate CancelsOnlyRegistered(h: seq<Cmd>) {
    forall c :: c in After(h).cancelled ==> HasOwner(h, c)
  }

  ghost predicate HasOwner(h: seq<Cmd>, c: Ctx) {
    exists x :: CtxOf(h, x) == Some(c)
  }

  /** Facts about a well-formed history itself. */
  ghost predicate Orderly(h: seq<Cmd>) {
    && (forall x, y :: CtxOf(h, x).Some? && CtxOf(h, x) == CtxOf(h, y) ==> x == y)
    && (forall x :: Activate(x) in h ==> CtxOf(h, x).Some?)
    && (forall x :: Deactivate(x) in h ==> Activate(x) in h && ActiveId(h) != x)
    && (forall x :: Activate(x) in h && Deactivate(x) !in h ==> ActiveId(h) == x)
    && (ActiveId(h) != "" ==> Activate(ActiveId(h)) in h)
    && CtxOf(h, "").None?
  }

  lemma CtxSnoc(h: seq<Cmd>, c: Cmd)
    ensures forall x :: CtxOf(h + [c], x) == if c.Register? && c.id == x then Some(c.ctx) else CtxOf(h, x)
    ensures ActiveId(h + [c]) == match c { case Activate(id) => id case Deactivate(_) => "" case _ => ActiveId(h) }
    ensures forall d :: d in h + [c] <==> d in h || d == c
  {
    Snoc(h, c);
  }

  lemma {:induction false} OrderlyAlways(h: seq<Cmd>)
    requires WellFormed(h)
    ensures Orderly(h)
  {
    if h == [] {
    } else {
      var p, c := Front(h), Last(h);
      assert h == p + [c];
      OrderlyAlways(p);
      CtxSnoc(p, c);
    }
  }

  lemma {:induction false} TableTracksHistory(h: seq<Cmd>)
    requires WellFormed(h)
    ensures Tracks(h)
  {
    if h == [] {
    } else {
      var p, c := Front(h), Last(h);
      assert h == p + [c];
      TableTracksHistory(p);
      OrderlyAlways(p);
      TrackStep(p, c);
    }
  }

  lemma TrackStep(p: seq<Cmd>, c: Cmd)
    requires Tracks(p) && Orderly(p) && Allowed(p, c)
    ensures Tracks(p + [c])
  {
    Snoc(p, c);
    TrackMode(p, After(p), c);
    forall x ensures Live(p + [c], Handle(After(p), c), x) {
      TrackLive(p, c, x);
    }
    AllLive(p + [c], Handle(After(p), c));
  }

  lemma TrackMode(p: seq<Cmd>, t: Table, c: Cmd)
    requires t.active == ActiveId(p) && (t.parkNext <==> Waiting(p))
    ensures Handle(t, c).active == ActiveId(p + [c]) && (Handle(t, c).parkNext <==> Waiting(p + [c]))
  {
    CtxSnoc(p, c);
    WaitingSnoc(p, c);
  }

  lemma AllLive(h: seq<Cmd>, t: Table)
    requires forall x :: Live(h, t, x)
    ensures forall x :: x in t.cancels <==> CtxOf(h, x).Some? && Deactivate(x) !in h
    ensures forall x :: x in t.cancels ==> CtxOf(h, x) == Some(t.cancels[x])
  {
    forall x
      ensures x in t.cancels <==> CtxOf(h, x).Some? && Deactivate(x) !in h
      ensures x in t.cancels ==> CtxOf(h, x) == Some(t.cancels[x])
    {
      assert Live(h, t, x);
    }
  }

  /** Whose cancel function the table holds, for one id. */
  ghost predicate Live(h: seq<Cmd>, t: Table, x: Id) {
    && (x in t.cancels <==> CtxOf(h, x).Some? && Deactivate(x) !in h)
    && (x in t.cancels ==> CtxOf(h, x) == Some(t.cancels[x]))
  }

  lemma TrackLive(p: seq<Cmd>, c: Cmd, x: Id)
    requires Live(p, After(p), x) && Orderly(p) && Allowed(p, c)
    ensures Live(p + [c], Handle(After(p), c), x)
  {
    CtxSnoc(p, c);
    assert Deactivate(x) in p + [c] <==> Deactivate(x) in p || c == Deactivate(x);
  }

  lemma {:induction false} CancelledHaveOwners(h: seq<Cmd>)
    requires WellFormed(h)
    ensures CancelsOnlyRegistered(h)
  {
    if h == [] {
    } else {
      var p, c := Front(h), Last(h);
      assert h == p + [c];
      CancelledHaveOwners(p);
      TableTracksHistory(p);
      CtxSnoc(p, c);
      Snoc(p, c);
      forall k | k in After(h).cancelled ensures HasOwner(h, k) {
        var x := if k in After(p).cancelled then OwnerOf(p, k) else if c.id != "" then c.id else After(p).active;
        assert CtxOf(h, x) == Some(k);
      }
    }
  }

  ghost function OwnerOf(h: seq<Cmd>, c: Ctx): (x: Id)
    requires HasOwner(h, c)
    ensures CtxOf(h, x) == Some(c)
  {
    var x :| CtxOf(h, x) == Some(c);
    x
  }

  // ----- Delivery ------------------------------------------------------------------------

  lemma {:induction false} ActiveWasActivated(h: seq<Cmd>)
    ensures ActiveId(h) != "" ==> Activate(ActiveId(h)) in h
  {
    if h == [] {
    } else {
      ActiveWasActivated(Front(h));
      assert forall d :: d in Front(h) ==> d in h;
    }
  }

  /** Until x is activated an interrupt that names it is kept: as a parked entry before x is
      registered, in x's cancelled context after. */
  lemma {:induction false} KeptUntilActivation(h: seq<Cmd>, x: Id)
    requires WellFormed(h) && x != "" && Activate(x) !in h
    ensures x in After(h).parked || CtxCancelled(h, x) <==> Interrupt(x) in h
  {
    if h == [] {
    } else {
      var p, c := Front(h), Last(h);
      assert h == p + [c];
      CtxSnoc(p, c);
      Snoc(p, c);
      KeptUntilActivation(p, x);
      OrderlyAlways(p);
      TableTracksHistory(p);
      CancelledHaveOwners(p);
    }
  }

  lemma NotHitBeforeActivation(h: seq<Cmd>, x: Id)
    requires WellFormed(h) && x != "" && Activate(x) !in h
    ensures HitByName(h, x) <==> Interrupt(x) in h
    ensures !HitWhileActive(h, x) && !HitBeforeNext(h, x) && !ToldParked(h, x)
  {
    OrderlyAlways(h);
    forall i | 0 <= i < |h| ensures Deactivate(x) !in h[..i] && ActiveId(h[..i]) != x {
      ActiveWasActivated(h[..i]);
    }
    if Interrupt(x) in h {
      var i :| 0 <= i < |h| && h[i] == Interrupt(x);
      assert Deactivate(x) !in h[..i];
    }
  }

  /** The specification, for a request that was activated. */
  ghost predicate MeantFor(h: seq<Cmd>, x: Id) {
    HitByName(h, x) || HitWhileActive(h, x) || HitBeforeNext(h, x)
  }

  lemma DeliveryAtActivation(p: seq<Cmd>, x: Id)
    requires WellFormed(p + [Activate(x)]) && Activate(x) !in p
    ensures Interrupted(p + [Activate(x)], x) <==> MeantFor(p + [Activate(x)], x)
  {
    var c := Activate(x);
    Snoc(p, c);
    CtxSnoc(p, c);
    SpecSnoc(p, c, x);
    OrderlyAlways(p);
    TableTracksHistory(p);
    KeptUntilActivation(p, x);
    NotHitBeforeActivation(p, x);
  }

  /** The command c is an interrupt for x, which runs or is still to run. */
  ghost predicate Strikes(p: seq<Cmd>, c: Cmd, x: Id) {
    (c == Interrupt(x) && Deactivate(x) !in p) || (c == Interrupt("") && ActiveId(p) == x)
  }

  /** Once x was activated, only such a command changes whether it is interrupted. */
  lemma InterruptedSnoc(p: seq<Cmd>, c: Cmd, x: Id)
    requires WellFormed(p + [c]) && Activate(x) in p && Orderly(p) && Tracks(p) && CancelsOnlyRegistered(p)
    ensures Interrupted(p + [c], x) <==> Interrupted(p, x) || Strikes(p, c, x)
  {
    Snoc(p, c);
    CtxSnoc(p, c);
    SpecSnoc(p, c, x);
  }

  lemma MeantSnoc(p: seq<Cmd>, c: Cmd, x: Id)
    requires WellFormed(p + [c]) && Activate(x) in p
    ensures MeantFor(p + [c], x) <==> MeantFor(p, x) || Strikes(p, c, x)
  {
    Snoc(p, c);
    SpecSnoc(p, c, x);
  }

  lemma DeliveryAfterActivation(p: seq<Cmd>, c: Cmd, x: Id)
    requires WellFormed(p + [c]) && Activate(x) in p
    requires Interrupted(p, x) <==> MeantFor(p, x)
    ensures Interrupted(p + [c], x) <==> MeantFor(p + [c], x)
  {
    Snoc(p, c);
    OrderlyAlways(p);
    TableTracksHistory(p);
    CancelledHaveOwners(p);
    InterruptedSnoc(p, c, x);
    MeantSnoc(p, c, x);
  }

  /** A request's context is cancelled by an interrupt exactly when the history holds (a) an
      interrupt naming it before its end, (b) an id-less one during its run, or (c) an id-less
      one while nothing ran, this request being the next to run. */
  lemma {:induction false} InterruptDelivery(h: seq<Cmd>, x: Id)
    requires WellFormed(h) && Activate(x) in h
    ensures Interrupted(h, x) <==> HitByName(h, x) || HitWhileActive(h, x) || HitBeforeNext(h, x)
  {
    var p, c := Front(h), Last(h);
    assert h == p + [c];
    if Activate(x) in p {
      InterruptDelivery(p, x);
      DeliveryAfterActivation(p, c, x);
    } else {
      DeliveryAtActivation(p, x);
    }
  }

  /** An interrupt that names x came at i, when x was not live, and x was not activated since. */
  ghost predicate ParkedSince(h: seq<Cmd>, x: Id, i: int) {
    && 0 <= i < |h| && h[i] == Interrupt(x) && x !in After(h[..i]).cancels
    && forall k :: i < k < |h| ==> h[k] != Activate(x)
  }

  /** For every history: x has a parked interrupt if and only if such a one came; activation clears it. */
  lemma {:induction false} ParkedIff(h: seq<Cmd>, x: Id)
    requires x != ""
    ensures x in After(h).parked <==> exists i :: ParkedSince(h, x, i)
  {
    if h == [] {
    } else {
      var p, c := Front(h), Last(h);
      assert h == p + [c];
      ParkedIff(p, x);
      ParkedSnoc(p, c, x);
      Snoc(p, c);
    }
  }

  lemma ParkedSnoc(p: seq<Cmd>, c: Cmd, x: Id)
    ensures (exists i :: ParkedSince(p + [c], x, i)) <==>
      c != Activate(x) && ((exists i :: ParkedSince(p, x, i)) || (c == Interrupt(x) && x !in After(p).cancels))
  {
    var g := p + [c];
    assert g[|p|] == c && g[..|p|] == p;
    forall i | 0 <= i < |p| ensures ParkedSince(g, x, i) <==> ParkedSince(p, x, i) && c != Activate(x) {
      assert g[..i] == p[..i] && g[i] == p[i];
      if ParkedSince(g, x, i) {
        assert forall k :: i < k < |p| ==> p[k] == g[k];
      }
    }
    if c == Interrupt(x) && x !in After(p).cancels {
      assert ParkedSince(g, x, |p|);
    }
    if i :| ParkedSince(p, x, i) && c != Activate(x) {
      assert ParkedSince(g, x, i);
    }
  }

  // ----- Isolation -------------------------------------------------------------------------

  /** The history with every interrupt naming x taken out. */
  function Without(h: seq<Cmd>, x: Id): seq<Cmd> {
    if h == [] then []
    else Without(Front(h), x) + if Last(h) == Interrupt(x) then [] else [Last(h)]
  }

  /** t and u differ at most in x's parked entry and in the cancellation of contexts in `own`. */
  ghost predicate AgreeBut(t: Table, u: Table, x: Id, own: set<Ctx>) {
    && t.active == u.active && t.cancels == u.cancels && t.parkNext == u.parkNext
    && (forall y :: y != x ==> (y in t.parked <==> y in u.parked))
    && u.cancelled <= t.cancelled <= u.cancelled + own
  }

  /** The contexts x was ever registered with. */
  function OwnCtxs(h: seq<Cmd>, x: Id): set<Ctx> {
    set i | 0 <= i < |h| && h[i].Register? && h[i].id == x :: h[i].ctx
  }

  lemma {:induction false} LiveCtxIsOwn(h: seq<Cmd>, x: Id)
    ensures x in After(h).cancels ==> After(h).cancels[x] in OwnCtxs(h, x)
  {
    if h == [] {
    } else {
      var p, c := Front(h), Last(h);
      assert h == p + [c];
      LiveCtxIsOwn(p, x);
      assert OwnCtxs(p, x) <= OwnCtxs(h, x);
      assert c.Register? && c.id == x ==> h[|p|].ctx in OwnCtxs(h, x);
    }
  }

  lemma AgreeStep(t: Table, u: Table, x: Id, own: set<Ctx>, c: Cmd)
    requires AgreeBut(t, u, x, own) && x != "" && (x in t.cancels ==> t.cancels[x] in own)
    ensures AgreeBut(Handle(t, c), if c == Interrupt(x) then u else Handle(u, c), x, own)
  {
  }

  lemma AgreeWiden(t: Table, u: Table, x: Id, own: set<Ctx>, more: set<Ctx>)
    requires AgreeBut(t, u, x, own) && own <= more
    ensures AgreeBut(t, u, x, more)
  {
  }

  lemma OwnGrows(h: seq<Cmd>, x: Id)
    requires h != []
    ensures OwnCtxs(Front(h), x) <= OwnCtxs(h, x)
  {
    forall c | c in OwnCtxs(Front(h), x) ensures c in OwnCtxs(h, x) {
      var i :| 0 <= i < |h| - 1 && Front(h)[i].Register? && Front(h)[i].id == x && Front(h)[i].ctx == c;
      assert h[i] == Front(h)[i];
    }
  }

  /** Interrupts that name x change nothing but x's own parked entry and contexts registered
      for x: no other request, running, queued or still to come, can tell, and every other
      activation is answered alike. Holds of every history. */
  lemma {:induction false} InterruptIsolation(h: seq<Cmd>, x: Id)
    requires x != ""
    ensures AgreeBut(After(h), After(Without(h, x)), x, OwnCtxs(h, x))
    ensures forall y :: y != x ==> Answer(After(h), y) == Answer(After(Without(h, x)), y)
  {
    if h == [] {
    } else {
      InterruptIsolation(Front(h), x);
      IsolationStep(h, x);
    }
    AnswersAgree(After(h), After(Without(h, x)), x, OwnCtxs(h, x));
  }

  lemma AnswersAgree(t: Table, u: Table, x: Id, own: set<Ctx>)
    requires AgreeBut(t, u, x, own)
    ensures forall y :: y != x ==> Answer(t, y) == Answer(u, y)
  {
  }

  lemma IsolationStep(h: seq<Cmd>, x: Id)
    requires x != "" && h != []
    requires AgreeBut(After(Front(h)), After(Without(Front(h), x)), x, OwnCtxs(Front(h), x))
    ensures AgreeBut(After(h), After(Without(h, x)), x, OwnCtxs(h, x))
  {
    var p, c := Front(h), Last(h);
    var q := Without(p, x);
    OwnGrows(h, x);
    AgreeWiden(After(p), After(q), x, OwnCtxs(p, x), OwnCtxs(h, x));
    LiveCtxIsOwn(p, x);
    AgreeStep(After(p), After(q), x, OwnCtxs(h, x), c);
    Snoc(q, c);
    JoinsNothing(q);
  }

  lemma {:induction false} CtxWithout(h: seq<Cmd>, x: Id, y: Id)
    ensures CtxOf(Without(h, x), y) == CtxOf(h, y)
  {
    if h == [] {
    } else {
      CtxWithout(Front(h), x, y);
      CtxSnoc(Without(Front(h), x), Last(h));
      JoinsNothing(Without(Front(h), x));
    }
  }

  lemma {:induction false} ToldWithout(h: seq<Cmd>, x: Id, y: Id)
    requires x != "" && y != x
    ensures ToldParked(Without(h, x), y) <==> ToldParked(h, y)
  {
    if h == [] {
    } else {
      var p, c := Front(h), Last(h);
      assert h == p + [c];
      ToldWithout(p, x, y);
      InterruptIsolation(p, x);
      SpecSnoc(p, c, y);
      SpecSnoc(Without(p, x), c, y);
      JoinsNothing(Without(p, x));
    }
  }

  lemma {:induction false} OwnIsLatest(h: seq<Cmd>, x: Id)
    requires WellFormed(h)
    ensures forall c :: c in OwnCtxs(h, x) ==> CtxOf(h, x) == Some(c)
  {
    if h == [] {
    } else {
      var p, c := Front(h), Last(h);
      assert h == p + [c];
      OwnIsLatest(p, x);
      CtxSnoc(p, c);
      forall k | k in OwnCtxs(h, x) ensures CtxOf(h, x) == Some(k) {
        var i :| 0 <= i < |h| && h[i].Register? && h[i].id == x && h[i].ctx == k;
        assert i < |p| ==> p[i] == h[i] && k in OwnCtxs(p, x);
      }
    }
  }

  /** So in a well-formed history, whether any other request is interrupted does not depend on the
      interrupts that name x: neither its cancelled context nor what its activation is told. */
  lemma OthersUntouched(h: seq<Cmd>, x: Id, y: Id)
    requires WellFormed(h) && x != "" && y != x
    ensures CtxCancelled(h, y) <==> CtxCancelled(Without(h, x), y)
    ensures Interrupted(h, y) <==> Interrupted(Without(h, x), y)
  {
    InterruptIsolation(h, x);
    CtxWithout(h, x, y);
    ToldWithout(h, x, y);
    OwnIsLatest(h, x);
    OrderlyAlways(h);
  }

  /** After x's registration an interrupt naming x cancels x's context, unless x has ended: only
      then is it parked, and x is never activated again, so it stays parked for ever. */
  lemma LateInterrupt(h: seq<Cmd>, x: Id, more: seq<Cmd>)
    requires WellFormed(h + [Interrupt(x)] + more) && CtxOf(h, x).Some?
    ensures if Deactivate(x) in h
            then After(h + [Interrupt(x)]) == After(h).(parked := After(h).parked + {x})
                 && Activate(x) !in more
            else CtxCancelled(h + [Interrupt(x)], x)
                 && After(h + [Interrupt(x)]).parked == After(h).parked
  {
    var c := Interrupt(x);
    Snoc(h, c);
    CtxSnoc(h, c);
    PrefixWellFormed(h + [c], more);
    OrderlyAlways(h);
    TableTracksHistory(h);
    if Deactivate(x) in h {
      assert Activate(x) in h + [c];
      ActivatedOnce(h + [c], more, x);
    }
  }

  lemma {:induction false} PrefixWellFormed(h: seq<Cmd>, more: seq<Cmd>)
    requires WellFormed(h + more)
    ensures WellFormed(h)
    decreases |more|
  {
    if more == [] {
      assert h + more == h;
    } else {
      assert Front(h + more) == h + Front(more);
      PrefixWellFormed(h, Front(more));
    }
  }

  /** A registered id keeps its context. */
  lemma {:induction false} CtxStable(h: seq<Cmd>, more: seq<Cmd>, x: Id)
    requires WellFormed(h + more) && CtxOf(h, x).Some?
    ensures CtxOf(h + more, x) == CtxOf(h, x)
    decreases |more|
  {
    if more == [] {
      assert h + more == h;
    } else {
      assert Front(h + more) == h + Front(more) && Last(h + more) == Last(more);
      CtxStable(h, Front(more), x);
    }
  }

  lemma ActivatedHasCtx(h: seq<Cmd>, more: seq<Cmd>, x: Id)
    requires WellFormed(h + more) && Activate(x) in h
    ensures WellFormed(h) && CtxOf(h, x).Some? && CtxOf(h, x) == CtxOf(h + more, x)
  {
    PrefixWellFormed(h, more);
    OrderlyAlways(h);
    CtxStable(h, more, x);
  }

  lemma {:induction false} ActivatedOnce(h: seq<Cmd>, more: seq<Cmd>, x: Id)
    requires WellFormed(h + more) && Activate(x) in h
    ensures Activate(x) !in more
    decreases |more|
  {
    if more == [] {
    } else {
      assert Front(h + more) == h + Front(more) && Last(h + more) == Last(more);
      ActivatedOnce(h, Front(more), x);
      assert Activate(x) in h + Front(more);
    }
  }

  lemma {:induction false} LiveCtxIsLatest(h: seq<Cmd>, x: Id)
    requires x in After(h).cancels
    ensures CtxOf(h, x) == Some(After(h).cancels[x])
  {
    if h == [] || (Last(h).Register? && Last(h).id == x) {
    } else {
      LiveCtxIsLatest(Front(h), x);
    }
  }

  /** With no assumption on ids: an interrupt that names x while x is live newly cancels a context if and
      only if it is the one x was last registered with. */
  lemma InterruptReachesLatest(h: seq<Cmd>, x: Id, c: Ctx)
    requires x != "" && x in After(h).cancels && c !in After(h).cancelled
    ensures c in After(h + [Interrupt(x)]).cancelled <==> CtxOf(h, x) == Some(c)
  {
    Snoc(h, Interrupt(x));
    LiveCtxIsLatest(h, x);
  }

  /** Ids must not be reused: registering x twice loses the first context's cancel function,
      so an interrupt naming x no longer reaches the request that carries it. */
  lemma ReusedIdLosesInterrupt()
    ensures After([Register("x", 0), Register("x", 1), Interrupt("x")]).cancelled == {1}
  {
    var a, b, c: Cmd := Register("x", 0), Register("x", 1), Interrupt("x");
    Snoc([], a);
    Snoc([a], b);
    Snoc([a, b], c);
    assert [] + [a] == [a] && [a] + [b] == [a, b] && [a, b] + [c] == [a, b, c];
  }
}
