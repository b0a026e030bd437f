/**
 Calls over the bridge as a transition system: calls, writer, host, reader and registry take
 turns in any order.
 */
module BridgeCalls {
  import opened Prelude
  import opened Bridge

  datatype Stage =
    | Shipping              // registered, host_request not yet written
    | Waiting
    | Answered(r: Reply)    // Call has returned a reply
    | GivenUp               // Call has returned an error

  datatype Call = Call(stage: Stage, ch: Chan)

  /** The registry's command channel. */
  datatype Commands = Commands(sent: seq<Cmd>, handled: nat)

  /** Ids of host_request frames written, replies the host has put on stdin, and how many of them
      the reader has routed.  `guessed` records that some reply named an id not on the wire. */
  datatype Outside = Outside(wire: set<Id>, inbox: seq<(Id, Reply)>, routed: nat, guessed: bool)

  datatype State = State(calls: map<Id, Call>, made: nat, cmds: Commands, host: Outside)

  const INIT := State(map[], 0, Commands([], 0), Outside({}, [], 0, false))

  datatype Step =
    | Start(id: Id)                  // Call, with a fresh id: registers its channel
    | Ship(id: Id)                   // the host_request frame is written
    | ShipFails(id: Id)              // it cannot be: the call is dropped
    | Receive(id: Id)
    | GiveUp(id: Id)                 // the call's context ends: it is dropped
    | HostSends(id: Id, r: Reply)
    | Route                          // dispatch hands the next reply to Resolve
    | RegistryGo

  function Processed(c: Commands): seq<Cmd> {
    if c.handled <= |c.sent| then c.sent[..c.handled] else c.sent
  }

  /** What has been sent on the call's channel. */
  function Inbox(s: State, id: Id): seq<Reply>
    requires id in s.calls
  {
    Got(After(Processed(s.cmds)), s.calls[id].ch)
  }

  predicate Enabled(s: State, a: Step) {
    match a
    case Start(id) => id !in s.calls
    case Ship(id) => id in s.calls && s.calls[id].stage == Shipping
    case ShipFails(id) => id in s.calls && s.calls[id].stage == Shipping
    case Receive(id) => id in s.calls && s.calls[id].stage == Waiting && Inbox(s, id) != []
    case GiveUp(id) => id in s.calls && s.calls[id].stage == Waiting
    case HostSends(_, _) => true
    case Route => s.host.routed < |s.host.inbox|
    case RegistryGo => s.cmds.handled < |s.cmds.sent|
  }

  function Send(c: Commands, d: Cmd): Commands {
    c.(sent := c.sent + [d])
  }

  function Move(s: State, id: Id, stage: Stage): map<Id, Call>
    requires id in s.calls
  {
    s.calls[id := s.calls[id].(stage := stage)]
  }

  function Apply(s: State, a: Step): State
    requires Enabled(s, a)
  {
    match a
    case Start(id) =>
      s.(calls := s.calls[id := Call(Shipping, s.made)], made := s.made + 1, cmds := Send(s.cmds, Register(id, s.made)))
    case Ship(id) => s.(calls := Move(s, id, Waiting), host := s.host.(wire := s.host.wire + {id}))
    case ShipFails(id) => s.(calls := Move(s, id, GivenUp), cmds := Send(s.cmds, Drop(id)))
    case Receive(id) => s.(calls := Move(s, id, Answered(Inbox(s, id)[0])))
    case GiveUp(id) => s.(calls := Move(s, id, GivenUp), cmds := Send(s.cmds, Drop(id)))
    case HostSends(id, r) =>
      s.(host := s.host.(inbox := s.host.inbox + [(id, r)], guessed := s.host.guessed || id !in s.host.wire))
    case Route =>
      var m := s.host.inbox[s.host.routed];
      s.(host := s.host.(routed := s.host.routed + 1), cmds := Send(s.cmds, Resolve(m.0, m.1)))
    case RegistryGo => s.(cmds := s.cmds.(handled := s.cmds.handled + 1))
  }

  function Reached(steps: seq<Step>): Option<State> {
    if steps == [] then Some(INIT)
    else match Reached(Front(steps))
      case None => None
      case Some(s) => if Enabled(s, Last(steps)) then Some(Apply(s, Last(steps))) else None
  }

  ghost predicate Reachable(s: State) {
    exists steps :: Reached(steps) == Some(s)
  }

  // ----- Invariant -----------------------------------------------------------------------------------

  /** Every call is registered under its own channel, and drops are those of calls given up. */
  ghost predicate Commanded(calls: map<Id, Call>, made: nat, h: seq<Cmd>) {
    && WellFormed(h)
    && (forall id :: id in calls <==> ChanOf(h, id).Some?)
    && (forall id :: id in calls ==> ChanOf(h, id) == Some(calls[id].ch) && calls[id].ch < made)
    && (forall id :: Drop(id) in h <==> id in calls && calls[id].stage.GivenUp?)
  }

  /** A call that returned a reply returned the one in its channel. */
  ghost predicate Returned(calls: map<Id, Call>, c: Commands) {
    && c.handled <= |c.sent|
    && Kept(calls, After(Processed(c)))
  }

  ghost predicate Kept(calls: map<Id, Call>, g: Registry) {
    forall id :: id in calls && calls[id].stage.Answered? ==> Got(g, calls[id].ch) == [calls[id].stage.r]
  }

  /** Replies in the channel were sent by the host; if it answers only what it saw, they come behind
      the registration they answer. */
  ghost predicate Routed(s: State) {
    && s.host.routed <= |s.host.inbox|
    && (forall id :: id in s.host.wire ==> id in s.calls)
    && (!s.host.guessed ==> forall k :: 0 <= k < |s.host.inbox| ==> s.host.inbox[k].0 in s.host.wire)
    && (forall j :: 0 <= j < |s.cmds.sent| && s.cmds.sent[j].Resolve? ==>
          && (s.cmds.sent[j].id, s.cmds.sent[j].r) in s.host.inbox
          && (!s.host.guessed ==> ChanOf(s.cmds.sent[..j], s.cmds.sent[j].id).Some?))
  }

  ghost predicate Inv(s: State) {
    Commanded(s.calls, s.made, s.cmds.sent) && Returned(s.calls, s.cmds) && Routed(s)
  }

  lemma CommandedStep(s: State, a: Step)
    requires Enabled(s, a) && Commanded(s.calls, s.made, s.cmds.sent)
    ensures var t := Apply(s, a); Commanded(t.calls, t.made, t.cmds.sent)
  {
    var t := Apply(s, a);
    if t.cmds.sent != s.cmds.sent {
      var c := Last(t.cmds.sent);
      assert t.cmds.sent == s.cmds.sent + [c];
      Snoc(s.cmds.sent, c);
    }
  }

  lemma RegistryReturned(s: State)
    requires Enabled(s, RegistryGo) && WellFormed(s.cmds.sent) && Returned(s.calls, s.cmds)
    ensures Returned(s.calls, Apply(s, RegistryGo).cmds)
  {
    var h, c, more := Processed(s.cmds), s.cmds.sent[s.cmds.handled], s.cmds.sent[s.cmds.handled + 1..];
    assert s.cmds.sent == (h + [c]) + more && Processed(Apply(s, RegistryGo).cmds) == h + [c];
    PrefixWellFormed(h + [c], more);
    forall id | id in s.calls && s.calls[id].stage.Answered? ensures Got(After(h + [c]), s.calls[id].ch) == [s.calls[id].stage.r] {
      RepliesStay(h, [c], s.calls[id].ch);
    }
  }

  lemma ReturnedStep(s: State, a: Step)
    requires Enabled(s, a) && WellFormed(s.cmds.sent) && Returned(s.calls, s.cmds)
    ensures Returned(Apply(s, a).calls, Apply(s, a).cmds)
  {
    if a == RegistryGo {
      RegistryReturned(s);
    } else {
      SentGrows(s, a);
      if a.Receive? {
        OneInbox(s, a.id);
      }
      CallsKept(s, a, After(Processed(s.cmds)));
    }
  }

  lemma SentGrows(s: State, a: Step)
    requires Enabled(s, a) && a != RegistryGo && s.cmds.handled <= |s.cmds.sent|
    ensures Apply(s, a).cmds.handled <= |Apply(s, a).cmds.sent| && Processed(Apply(s, a).cmds) == Processed(s.cmds)
  {
  }

  lemma OneInbox(s: State, id: Id)
    requires WellFormed(s.cmds.sent) && s.cmds.handled <= |s.cmds.sent| && id in s.calls
    ensures |Inbox(s, id)| <= 1
  {
    var h, more := Processed(s.cmds), s.cmds.sent[s.cmds.handled..];
    assert s.cmds.sent == h + more;
    PrefixWellFormed(h, more);
    RegistryExact(h);
  }

  lemma CallsKept(s: State, a: Step, g: Registry)
    requires Enabled(s, a) && Kept(s.calls, g) && g == After(Processed(s.cmds))
    requires a.Receive? ==> |Inbox(s, a.id)| <= 1
    ensures Kept(Apply(s, a).calls, g)
  {
  }

  lemma RoutedStep(s: State, a: Step)
    requires Enabled(s, a) && Routed(s) && Commanded(s.calls, s.made, s.cmds.sent)
    ensures Routed(Apply(s, a))
  {
    var t := Apply(s, a);
    assert forall j :: 0 <= j <= |s.cmds.sent| ==> t.cmds.sent[..j] == s.cmds.sent[..j];
    assert forall m :: m in s.host.inbox ==> m in t.host.inbox;
  }

  lemma {:induction false} ReachedInv(steps: seq<Step>, s: State)
    requires Reached(steps) == Some(s)
    ensures Inv(s)
  {
    if steps == [] {
    } else {
      var p, a := Reached(Front(steps)).value, Last(steps);
      ReachedInv(Front(steps), p);
      CommandedStep(p, a);
      ReturnedStep(p, a);
      RoutedStep(p, a);
    }
  }

  /** What the registry has processed is well formed and agrees with the calls. */
  lemma ProcessedFacts(s: State)
    requires Reachable(s)
    ensures Inv(s)
    ensures var h := Processed(s.cmds);
      WellFormed(h) && OneEach(h) && Exact(h) && OwnReplies(h) &&
      (forall id :: ChanOf(h, id).Some? ==> id in s.calls && ChanOf(h, id) == Some(s.calls[id].ch))
  {
    var steps :| Reached(steps) == Some(s);
    ReachedInv(steps, s);
    PrefixFacts(s.calls, s.made, s.cmds.sent, s.cmds.handled);
  }

  lemma PrefixFacts(calls: map<Id, Call>, made: nat, sent: seq<Cmd>, n: nat)
    requires Commanded(calls, made, sent) && n <= |sent|
    ensures var h := sent[..n];
      WellFormed(h) && OneEach(h) && Exact(h) && OwnReplies(h) &&
      (forall id :: ChanOf(h, id).Some? ==> id in calls && ChanOf(h, id) == Some(calls[id].ch))
  {
    var h, more := sent[..n], sent[n..];
    assert sent == h + more;
    PrefixWellFormed(h, more);
    RegistryExact(h);
    forall id | ChanOf(h, id).Some? ensures id in calls && ChanOf(h, id) == Some(calls[id].ch) {
      assert ChanOf(sent, id) == ChanOf(h, id);
    }
  }

  // ----- One call ----------------------------------------------------------------------------------------

  lemma Extend(steps: seq<Step>, s: State, a: Step) returns (longer: seq<Step>, t: State)
    requires Reached(steps) == Some(s) && Enabled(s, a)
    ensures Reached(longer) == Some(t) && t == Apply(s, a)
  {
    longer, t := steps + [a], Apply(s, a);
    assert Front(longer) == steps && Last(longer) == a;
  }

  /** A call goes out, is answered, and returns the answer. */
  lemma RoundTrip(id: Id, r: Reply) returns (steps: seq<Step>, s: State)
    ensures Reached(steps) == Some(s) && id in s.calls && s.calls[id].stage == Answered(r)
  {
    steps, s := Extend([], INIT, Start(id));
    steps, s := Extend(steps, s, Ship(id));
    steps, s := Extend(steps, s, HostSends(id, r));
    steps, s := Extend(steps, s, Route);
    steps, s := Extend(steps, s, RegistryGo);
    steps, s := Extend(steps, s, RegistryGo);
    var h := [Register(id, 0)];
    assert Processed(s.cmds) == h + [Resolve(id, r)];
    Snoc([], Register(id, 0));
    assert [] + [Register(id, 0)] == h;
    Snoc(h, Resolve(id, r));
    steps, s := Extend(steps, s, Receive(id));
  }

  /** A call that cannot be shipped, or whose context ends, leaves nothing pending. */
  lemma GivesUp(id: Id, shipped: bool) returns (steps: seq<Step>, s: State)
    ensures Reached(steps) == Some(s) && id in s.calls && s.calls[id].stage == GivenUp
    ensures After(Processed(s.cmds)).pending == map[]
  {
    steps, s := Extend([], INIT, Start(id));
    if shipped {
      steps, s := Extend(steps, s, Ship(id));
      steps, s := Extend(steps, s, GiveUp(id));
    } else {
      steps, s := Extend(steps, s, ShipFails(id));
    }
    steps, s := Extend(steps, s, RegistryGo);
    steps, s := Extend(steps, s, RegistryGo);
    assert Reachable(s) && Processed(s.cmds) == s.cmds.sent;
    QuiescentIsEmpty(s);
  }

  // ----- What this gives ---------------------------------------------------------------------------------

  /** No reply is crossed, whatever the host sends: a call that returns a reply returns one the host
      sent for that call's own id. */
  lemma RepliesAreNotCrossed(s: State, id: Id)
    requires Reachable(s) && id in s.calls && s.calls[id].stage.Answered?
    ensures (id, s.calls[id].stage.r) in s.host.inbox
  {
    ProcessedFacts(s);
    OwnerIs(s, Processed(s.cmds), id);
    CameIn(s, id, s.calls[id].stage.r);
  }

  /** What is in a call's channel was sent to the call. */
  lemma OwnerIs(s: State, h: seq<Cmd>, id: Id)
    requires Commanded(s.calls, s.made, s.cmds.sent) && OwnReplies(h) && id in s.calls && Got(After(h), s.calls[id].ch) != []
    requires forall x :: ChanOf(h, x).Some? ==> x in s.calls && ChanOf(h, x) == Some(s.calls[x].ch)
    ensures Resolve(id, Got(After(h), s.calls[id].ch)[0]) in h
  {
    RegistryExact(s.cmds.sent);
    var ch := s.calls[id].ch;
    var x :| ChanOf(h, x) == Some(ch) && Resolve(x, Got(After(h), ch)[0]) in h;
    assert ChanOf(s.cmds.sent, x) == ChanOf(s.cmds.sent, id);
  }

  lemma CameIn(s: State, id: Id, r: Reply)
    requires Routed(s) && s.cmds.handled <= |s.cmds.sent| && Resolve(id, r) in Processed(s.cmds)
    ensures (id, r) in s.host.inbox
  {
    var h := Processed(s.cmds);
    var j :| 0 <= j < |h| && h[j] == Resolve(id, r);
    assert s.cmds.sent[j] == h[j];
  }

  /** The registry never blocks, whatever the host sends: a channel is sent to at most once. */
  lemma RegistryNeverBlocks(s: State, ch: Chan)
    requires Reachable(s)
    ensures |Got(After(Processed(s.cmds)), ch)| <= 1
  {
    ProcessedFacts(s);
  }

  /** Nothing leaks: a pending id belongs to a call that has not returned, or to one that gave up and
      whose drop is still in the channel. */
  lemma PendingIsLive(s: State, id: Id)
    requires Reachable(s) && id in After(Processed(s.cmds)).pending
    ensures id in s.calls && !s.calls[id].stage.Answered?
    ensures s.cmds.handled <= |s.cmds.sent|
    ensures s.calls[id].stage.GivenUp? ==> Drop(id) in s.cmds.sent[s.cmds.handled..]
  {
    ProcessedFacts(s);
    Later(s.cmds, Drop(id));
  }

  lemma Later(c: Commands, d: Cmd)
    requires c.handled <= |c.sent|
    ensures d in c.sent ==> d in Processed(c) || d in c.sent[c.handled..]
  {
    assert c.sent == Processed(c) + c.sent[c.handled..];
  }

  lemma QuiescentIsEmpty(s: State)
    requires Reachable(s) && s.cmds.handled == |s.cmds.sent|
    requires forall id :: id in s.calls ==> s.calls[id].stage.Answered? || s.calls[id].stage.GivenUp?
    ensures After(Processed(s.cmds)).pending == map[]
  {
    forall id | id in After(Processed(s.cmds)).pending ensures false {
      PendingIsLive(s, id);
    }
  }

  /** With a host that answers only ids it saw on the wire, no reply is lost: the first one for a call
      finds the call registered, and unless the call was dropped before it, it is in the call's
      channel for good once the registry has come to it. */
  lemma NoReplyIsLost(s: State, j: nat)
    requires Reachable(s) && !s.host.guessed
    requires j < |Processed(s.cmds)| && Processed(s.cmds)[j].Resolve?
    requires var h, id := Processed(s.cmds), Processed(s.cmds)[j].id;
      Drop(id) !in h[..j] && forall i :: 0 <= i < j ==> !(h[i].Resolve? && h[i].id == id)
    ensures Processed(s.cmds)[j].id in s.calls
    ensures Inbox(s, Processed(s.cmds)[j].id) == [Processed(s.cmds)[j].r]
  {
    ProcessedFacts(s);
    var h := Processed(s.cmds);
    RegisteredBefore(s, j);
    FirstReplyIsKept(h, j);
  }

  /** A reply from such a host stands behind the registration of the call it answers. */
  lemma RegisteredBefore(s: State, j: nat)
    requires Inv(s) && !s.host.guessed && WellFormed(Processed(s.cmds))
    requires j < |Processed(s.cmds)| && Processed(s.cmds)[j].Resolve?
    ensures var h := Processed(s.cmds);
      ChanOf(h[..j], h[j].id).Some? && ChanOf(h, h[j].id) == ChanOf(h[..j], h[j].id)
  {
    var h := Processed(s.cmds);
    assert s.cmds.sent[j] == h[j] && s.cmds.sent[..j] == h[..j];
    assert h == h[..j] + h[j..];
    PrefixWellFormed(h[..j], h[j..]);
  }
}
