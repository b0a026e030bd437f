/**
 What becomes of an Execute whose context ends: it interrupts its own request, the interrupt reaches the
 table, and the call reports the interruption.
 */
module HostInterrupts {
  import opened Prelude
  import opened Frames
  import opened Host
  import opened HostCalls
  import opened HostShutdown
  import opened HostPaths
  import A = KernelAccounts
  import C = KernelCells
  import G = KernelGoRuns
  import I = KernelInterrupts
  import K = Kernel
  import O = KernelOrder
  import P = KernelPaths
  import T = RequestTable
  import W = KernelWire

  // ----- The interrupt is sent -----------------------------------------------------------------------------

  /** The call's request is among the lines, and its interrupt behind it. */
  ghost predicate CutAt(lines: seq<Frame>, id: Id, i: nat, j: nat) {
    i < j < |lines| && lines[i] == Request(Execute, id) && lines[j] == Frame.Interrupt(id)
  }

  ghost predicate Cut(lines: seq<Frame>, id: Id) {
    exists i, j :: CutAt(lines, id, i, j)
  }

  /** A call that is cut short has sent its interrupt behind its request; nobody else has sent one; and every
      request is an execute. */
  ghost predicate CutsOk(c: Client) {
    && (forall id :: id in c.calls && c.calls[id].stage.Interrupting? ==> Cut(c.lines, id))
    && (forall j :: 0 <= j < |c.lines| && c.lines[j].Interrupt? ==>
          c.lines[j].id in c.calls && (c.calls[c.lines[j].id].stage.Interrupting? || c.calls[c.lines[j].id].stage.Returned?))
    && (forall i :: 0 <= i < |c.lines| && c.lines[i].Request? ==> c.lines[i].ask == Execute)
  }

  lemma CutStays(lines: seq<Frame>, more: seq<Frame>, id: Id)
    requires Cut(lines, id)
    ensures Cut(lines + more, id)
  {
    var i, j :| CutAt(lines, id, i, j);
    assert CutAt(lines + more, id, i, j);
  }

  /** A line that is no interrupt, or that of a call which is just being cut short. */
  lemma LineStep(c: Client, d: Client, more: seq<Frame>)
    requires CutsOk(c) && d.lines == c.lines + more && |more| <= 1 && c.calls.Keys <= d.calls.Keys
    requires forall id :: id in c.calls && c.calls[id].stage.Interrupting? ==> d.calls[id].stage.Interrupting? || d.calls[id].stage.Returned?
    requires forall id :: id in c.calls && c.calls[id].stage.Returned? ==> d.calls[id].stage.Returned?
    requires forall id :: id in d.calls && d.calls[id].stage.Interrupting? ==>
      (id in c.calls && c.calls[id].stage.Interrupting?) || Cut(d.lines, id)
    requires more != [] ==> (more[0].Request? ==> more[0].ask == Execute)
    requires more != [] && more[0].Interrupt? ==> more[0].id in d.calls && d.calls[more[0].id].stage.Interrupting?
    ensures CutsOk(d)
  {
    forall id | id in d.calls && d.calls[id].stage.Interrupting? ensures Cut(d.lines, id) {
      if id in c.calls && c.calls[id].stage.Interrupting? {
        CutStays(c.lines, more, id);
      }
    }
    forall j | 0 <= j < |d.lines| ensures d.lines[j] == if j < |c.lines| then c.lines[j] else more[0] {
    }
  }

  lemma CutShortStep(s: Sys, id: Id)
    requires HostCalls.Inv(s) && CutsOk(s.c) && Enabled(s, CutShort(id))
    ensures CutsOk(Apply(s, CutShort(id)).c)
  {
    var d, lines := Apply(s, CutShort(id)).c, s.c.lines;
    assert O.AskedBefore(lines, |lines|, id);
    var i :| 0 <= i < |lines| && lines[i].Request? && lines[i].id == id;
    assert d.lines == lines + [Frame.Interrupt(id)];
    assert CutAt(d.lines, id, i, |lines|);
    LineStep(s.c, d, [Frame.Interrupt(id)]);
  }

  lemma EventStep(s: Sys)
    requires CutsOk(s.c) && Enabled(s, ReadEvent)
    ensures CutsOk(Apply(s, ReadEvent).c)
  {
    var e := s.k.wire.out[s.c.read];
    LineStep(s.c, Apply(s, ReadEvent).c, if e.kind == HostRequest && e.id.Some? then [HostReply(e.id.value)] else []);
  }

  lemma CutsStep(s: Sys, a: Step)
    requires HostCalls.Inv(s) && CutsOk(s.c) && Enabled(s, a)
    ensures CutsOk(Apply(s, a).c)
  {
    match a
    case CutShort(id) => CutShortStep(s, id);
    case ReadEvent => EventStep(s);
    case Ask(id) => LineStep(s.c, Apply(s, a).c, [Request(Execute, id)]);
    case Shutdown => LineStep(s.c, Apply(s, a).c, [Frame.Shutdown("")]);
    case _ => QuietStep(s, a);
  }

  lemma QuietStep(s: Sys, a: Step)
    requires CutsOk(s.c) && HostCalls.Shape(s.c) && Enabled(s, a)
    requires !a.CutShort? && !a.ReadEvent? && !a.Ask? && !a.Shutdown?
    ensures CutsOk(Apply(s, a).c)
  {
    JoinsNothing(s.c.lines);
    LineStep(s.c, Apply(s, a).c, []);
  }

  lemma {:induction false} ReachedCuts(steps: seq<Step>, s: Sys)
    requires Reached(steps) == Some(s)
    ensures CutsOk(s.c)
  {
    if steps == [] {
    } else {
      var p := Reached(Front(steps)).value;
      ReachedCuts(Front(steps), p);
      ReachedSys(Front(steps), p);
      CutsStep(p, Last(steps));
    }
  }

  /** In every reachable state a call that is cut short has sent its interrupt, behind its request; and
      interrupts are sent by such calls alone. */
  lemma CutShortInterrupts(s: Sys, id: Id)
    requires Reachable(s)
    ensures id in s.c.calls && s.c.calls[id].stage.Interrupting? ==> exists i, j :: CutAt(s.c.lines, id, i, j)
    ensures Frame.Interrupt(id) in s.c.lines ==> id in s.c.calls && (s.c.calls[id].stage.Interrupting? || s.c.calls[id].stage.Returned?)
  {
    var steps :| Reached(steps) == Some(s);
    ReachedCuts(steps, s);
  }

  // ----- It cancels the call's own context -----------------------------------------------------------------

  lemma {:induction false} CancelStays(h: seq<T.Cmd>, more: seq<T.Cmd>, x: Id)
    requires T.WellFormed(h + more) && T.CtxCancelled(h, x)
    ensures T.CtxCancelled(h + more, x)
    decreases |more|
  {
    if more == [] {
      JoinsNothing(h);
    } else {
      assert Front(h + more) == h + Front(more) && Last(h + more) == Last(more);
      CancelStays(h, Front(more), x);
      T.CtxStable(h, more, x);
      T.CtxStable(h, Front(more), x);
    }
  }

  /** An interrupt that the table has come to before its target's end, and behind its registration. */
  lemma CancelsThere(h: seq<T.Cmd>, j: nat, x: Id)
    requires T.WellFormed(h) && j < |h| && h[j] == T.Interrupt(x) && T.Deactivate(x) !in h[..j] && T.CtxOf(h[..j], x).Some?
    ensures T.CtxCancelled(h, x)
  {
    var p, c, more := h[..j], h[j], h[j + 1..];
    assert h == p + [c] + more;
    T.LateInterrupt(p, x, more);
    CancelStays(p + [c], more, x);
  }

  /** In every reachable state: once the table has come to the interrupt of a call, before the request's end,
      the request's own context is cancelled, unless the request was refused. */
  lemma CutShortCancels(s: Sys, id: Id, j: nat)
    requires Reachable(s) && id != ""
    requires j < |K.Processed(s.k.table)| && K.Processed(s.k.table)[j] == T.Interrupt(id)
    requires T.Deactivate(id) !in K.Processed(s.k.table)[..j]
    ensures T.CtxCancelled(K.Processed(s.k.table), id) || O.TurnedAway(s.k.stdin, s.k.reader, s.k.queue, id)
  {
    ReachableSys(s);
    ClientDiscipline(s);
    var ks :| K.Reached(ks) == Some(s.k);
    O.ReachedOrderInv(ks, s.k);
    I.ReachableInterruptInv(s.k);
    BehindCancels(s.k, id, j);
  }

  lemma BehindCancels(k: K.State, id: Id, j: nat)
    requires O.Behind(k.stdin, k.reader, k.queue, k.table.sent) && T.WellFormed(k.table.sent) && k.table.handled <= |k.table.sent|
    requires j < |K.Processed(k.table)| && K.Processed(k.table)[j] == T.Interrupt(id) && id != ""
    requires T.Deactivate(id) !in K.Processed(k.table)[..j]
    ensures T.CtxCancelled(K.Processed(k.table), id) || O.TurnedAway(k.stdin, k.reader, k.queue, id)
  {
    var h := K.Processed(k.table);
    assert k.table.sent[j] == h[j] && k.table.sent[..j] == h[..j];
    if T.CtxOf(h[..j], id).Some? {
      assert k.table.sent == h + k.table.sent[k.table.handled..];
      T.PrefixWellFormed(h, k.table.sent[k.table.handled..]);
      CancelsThere(h, j, id);
    }
  }

  /** The interrupt gets there: by writing lines, reading them and handling them alone, while the executor
      does not move. */
  lemma CutShortArrives(steps: seq<Step>, s: Sys, id: Id) returns (more: seq<Step>, t: Sys)
    requires Reached(steps) == Some(s) && id in s.c.calls && s.c.calls[id].stage.Asked? && !s.k.stdin.eof && !s.k.reader.Ended?
    ensures Reached(steps + [CutShort(id)] + more) == Some(t) && Onward(more)
    ensures T.Interrupt(id) in K.Processed(t.k.table) && t.k.exec == s.k.exec
  {
    ExtendSys(steps, s, CutShort(id));
    var u := Apply(s, CutShort(id));
    assert u.c.lines[|s.c.lines|] == Frame.Interrupt(id);
    more, u := AllRead(steps + [CutShort(id)], u);
    assert Reachable(u);
    ReachableSys(u);
    assert u.k.stdin.fed[..u.k.stdin.taken] == u.k.stdin.fed;
    W.ReadIsSent(u.k, id);
    A.ReachableInv(u.k);
    var handles, k := P.TableAllPath(u.k);
    more, t := NoOutsideJoin(steps + [CutShort(id)], u, more, handles, k);
  }

  // ----- The call reports it -----------------------------------------------------------------------------------

  /** The runs of the system whose kernel has the Go evaluator. */
  ghost function GoReached(steps: seq<Step>): Option<Sys> {
    if steps == [] then Some(INIT)
    else match GoReached(Front(steps))
      case None => None
      case Some(s) =>
        if Enabled(s, Last(steps)) && (Last(steps).Inside? ==> G.GoEnabled(s.k, Last(steps).a)) then Some(Apply(s, Last(steps)))
        else None
  }

  lemma {:induction false} GoIsReached(steps: seq<Step>, s: Sys) returns (ks: seq<K.Step>)
    requires GoReached(steps) == Some(s)
    ensures Reached(steps) == Some(s) && G.GoReached(ks) == Some(s.k)
  {
    if steps == [] {
      ks := [];
    } else {
      var p, a := GoReached(Front(steps)).value, Last(steps);
      ks := GoIsReached(Front(steps), p);
      ks := GoStep(ks, p, a);
    }
  }

  lemma GoStep(ks: seq<K.Step>, p: Sys, a: Step) returns (more: seq<K.Step>)
    requires G.GoReached(ks) == Some(p.k) && Enabled(p, a) && (a.Inside? ==> G.GoEnabled(p.k, a.a))
    ensures G.GoReached(more) == Some(Apply(p, a).k)
  {
    more := ks;
    if a.Inside? || a.Pump? {
      var b := if a.Inside? then a.a else K.Outside(K.Feed(p.c.lines[p.c.pumped]));
      more := ks + [b];
      assert Front(more) == ks && Last(more) == b;
    }
  }

  lemma {:induction false} NoResultIsEmpty(w: seq<Event>, id: Id)
    requires C.NoResult(w, id) && id != ""
    ensures LastResult(w, id) == ""
  {
    if w == [] {
    } else {
      assert forall k :: 0 <= k < |w| - 1 ==> Front(w)[k] == w[k];
      NoResultIsEmpty(Front(w), id);
    }
  }

  lemma {:induction false} ErrorIsSome(w: seq<Event>, id: Id, k: nat)
    requires k < |w| && w[k].kind == Error && w[k].id == Some(id)
    ensures LastError(w, id).Some?
  {
    if k == |w| - 1 {
    } else {
      ErrorIsSome(Front(w), id, k);
    }
  }

  /** With the Go evaluator, a call whose interrupt the table came to before its request was activated
      returns an error and no result, whatever its code does. */
  lemma CutShortReturnsError(steps: seq<Step>, s: Sys, id: Id, i: nat)
    requires GoReached(steps) == Some(s) && !s.c.gone
    requires id in s.c.calls && s.c.calls[id].stage.Returned?
    requires i < |s.k.queue.accepted| && s.k.queue.accepted[i].id == id && G.Early(s.k, i)
    ensures s.c.calls[id].report.result == "" && s.c.calls[id].report.err.Some?
  {
    var ks := GoIsReached(steps, s);
    assert Reachable(s);
    ReachableSys(s);
    ClientDiscipline(s);
    var d := ExecuteReturnsItsOutput(s, id);
    G.EarlyInterruptFails(ks, s.k, i, d);
    var w := s.k.wire.out[..d];
    assert C.NoResult(w, id);
    NoResultIsEmpty(w, id);
    var j :| 0 <= j < d && s.k.wire.out[j].kind == Error && s.k.wire.out[j].id == Some(id);
    ErrorIsSome(w, id, j);
  }

  /** An interrupt that was there at activation is such a one. */
  lemma NamedEarly(k: K.State, i: nat, j: nat)
    requires i < |k.queue.accepted| && I.Delivered(k.queue, k.exec, i) && k.queue.accepted[i].ask == Ask.Execute
    requires j < |K.Processed(k.table)| && K.Processed(k.table)[j] == T.Activate(k.queue.accepted[i].id)
    requires T.Interrupt(k.queue.accepted[i].id) in K.Processed(k.table)[..j]
    ensures G.Early(k, i)
  {
  }

  /** So is the interrupt of a call that was cut short, when the table came to it first. */
  lemma CutShortEarly(steps: seq<Step>, s: Sys, id: Id, i: nat, j: nat)
    requires GoReached(steps) == Some(s) && !s.c.gone && id in s.c.calls && s.c.calls[id].stage.Returned?
    requires i < |s.k.queue.accepted| && s.k.queue.accepted[i].id == id && s.k.queue.accepted[i].ask == Ask.Execute
    requires I.Delivered(s.k.queue, s.k.exec, i) && j < |K.Processed(s.k.table)|
    requires K.Processed(s.k.table)[j] == T.Activate(id) && T.Interrupt(id) in K.Processed(s.k.table)[..j]
    ensures s.c.calls[id].report.result == "" && s.c.calls[id].report.err.Some?
  {
    NamedEarly(s.k, i, j);
    CutShortReturnsError(steps, s, id, i);
  }
}
