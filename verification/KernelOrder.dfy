/**
 What the kernel owes its client: events carry ids of requests it has read, and an interrupt
 sent after a request is processed after that request's registration.
 */
module KernelOrder {
  import opened Prelude
  import opened Frames
  import opened Kernel
  import opened KernelAccounts
  import opened KernelInterrupts
  import T = RequestTable

  // ----- Attribution ------------------------------------------------------------------------------

  /** A frame with this id, owed a done event, has been read. */
  ghost predicate WasRead(i: Stdin, x: Id) {
    exists n :: 0 <= n < i.taken && n < |i.fed| && Asks(i.fed[n]) && i.fed[n].id == x
  }

  ghost predicate Attributed(i: Stdin, w: Wire) {
    forall k :: 0 <= k < |w.out| && w.out[k].kind != HostRequest && w.out[k].id.Some? ==> WasRead(i, w.out[k].id.value)
  }

  lemma WorkWasRead(i: Stdin, w: Work)
    requires WorkOf(i, w)
    ensures WasRead(i, w.id)
  {
    assert Asks(i.fed[w.n]);
  }

  lemma StillRead(i: Stdin, j: Stdin)
    requires i.taken <= j.taken && i.taken <= |i.fed| <= |j.fed| && i.fed == j.fed[..|i.fed|]
    ensures forall x :: WasRead(i, x) ==> WasRead(j, x)
  {
    forall x | WasRead(i, x) ensures WasRead(j, x) {
      var n :| 0 <= n < i.taken && n < |i.fed| && Asks(i.fed[n]) && i.fed[n].id == x;
      assert j.fed[n] == i.fed[n];
    }
  }

  lemma AttributedStep(s: State, a: Step)
    requires Enabled(s, a) && Shape(s) && Attributed(s.stdin, s.wire)
    ensures Attributed(Apply(s, a).stdin, Apply(s, a).wire)
  {
    var t := Apply(s, a);
    StillRead(s.stdin, t.stdin);
    match a
    case Outside(Background(e)) =>
      if e.kind == Stdout {
        var i :| 0 <= i < s.queue.started && i < |s.queue.accepted| && e.id == Some(s.queue.accepted[i].id);
        WorkWasRead(s.stdin, s.queue.accepted[i]);
      }
    case Outside(_) =>
    case Read(Take(f)) =>
      if Asks(f) {
        assert t.stdin.fed[s.stdin.taken] == f;
      }
    case Read(RefuseError) => assert Asks(s.stdin.fed[s.reader.n]);
    case Read(RefuseDone) => assert Asks(s.stdin.fed[s.reader.n]);
    case Read(_) =>
    case Run(Emit) => WorkWasRead(s.stdin, s.queue.accepted[s.queue.started - 1]);
    case Run(_) =>
    case TableGo =>
  }

  // ----- Interrupts behind their request --------------------------------------------------------------

  /** The client's discipline: it interrupts only requests it has sent. */
  ghost predicate AsksFirst(fed: seq<Frame>) {
    forall m :: 0 <= m < |fed| && fed[m].Interrupt? && fed[m].id != "" ==> AskedBefore(fed, m, fed[m].id)
  }

  ghost predicate AskedBefore(fed: seq<Frame>, m: nat, x: Id) {
    exists n :: 0 <= n < m && n < |fed| && fed[n].Request? && fed[n].id == x
  }

  /** x was read as a request, and came to nothing: it is neither in hand nor in the queue. */
  ghost predicate TurnedAway(i: Stdin, r: Reader, q: Queue, x: Id) {
    && AskedBefore(i.fed, i.taken, x)
    && (Holding(r) && 0 < i.taken <= |i.fed| && i.fed[i.taken - 1].Request? ==> i.fed[i.taken - 1].id != x)
    && forall k :: 0 <= k < |q.accepted| ==> q.accepted[k].id != x
  }

  /** In the table's channel an interrupt that names a request follows its registration, unless the
      request was refused or dropped. */
  ghost predicate Behind(i: Stdin, r: Reader, q: Queue, h: seq<T.Cmd>) {
    forall j :: 0 <= j < |h| && h[j].Interrupt? && h[j].id != "" ==>
      T.CtxOf(h[..j], h[j].id).Some? || TurnedAway(i, r, q, h[j].id)
  }

  lemma StillAway(s: State, a: Step, x: Id)
    requires Enabled(s, a) && Shape(s) && UniqueIds(Apply(s, a).stdin.fed)
    requires TurnedAway(s.stdin, s.reader, s.queue, x)
    ensures var t := Apply(s, a); TurnedAway(t.stdin, t.reader, t.queue, x)
  {
    var t := Apply(s, a);
    var n :| 0 <= n < s.stdin.taken && n < |s.stdin.fed| && s.stdin.fed[n].Request? && s.stdin.fed[n].id == x;
    assert t.stdin.fed[n] == s.stdin.fed[n];
    if a.Read? && a.r.Take? {
      assert Asks(a.r.f) ==> t.stdin.fed[s.stdin.taken].id != x;
    }
  }

  lemma SendBehind(s: State, t: State, c: T.Cmd)
    requires Behind(s.stdin, s.reader, s.queue, s.table.sent) && t.table.sent == s.table.sent + [c]
    requires forall x :: TurnedAway(s.stdin, s.reader, s.queue, x) ==> TurnedAway(t.stdin, t.reader, t.queue, x)
    requires c.Interrupt? && c.id != "" ==>
      T.CtxOf(s.table.sent, c.id).Some? || TurnedAway(t.stdin, t.reader, t.queue, c.id)
    ensures Behind(t.stdin, t.reader, t.queue, t.table.sent)
  {
    assert t.table.sent[..|s.table.sent|] == s.table.sent;
    assert forall j :: 0 <= j < |s.table.sent| ==> t.table.sent[..j] == s.table.sent[..j];
  }

  lemma BehindStep(s: State, a: Step)
    requires Enabled(s, a) && Shape(s) && Channelled(s) && UniqueIds(Apply(s, a).stdin.fed) && AsksFirst(s.stdin.fed)
    requires Behind(s.stdin, s.reader, s.queue, s.table.sent)
    ensures var t := Apply(s, a); Behind(t.stdin, t.reader, t.queue, t.table.sent)
  {
    var t := Apply(s, a);
    forall x | TurnedAway(s.stdin, s.reader, s.queue, x) ensures TurnedAway(t.stdin, t.reader, t.queue, x) {
      StillAway(s, a, x);
    }
    if t.table.sent != s.table.sent {
      if a.Read? && a.r.Take? && a.r.f.Interrupt? && a.r.f.id != "" {
        var x := a.r.f.id;
        var n :| 0 <= n < s.stdin.taken && s.stdin.fed[n].Request? && s.stdin.fed[n].id == x;
        assert AskedBefore(t.stdin.fed, t.stdin.taken, x);
        assert T.CtxOf(s.table.sent, x).Some? || TurnedAway(t.stdin, t.reader, t.queue, x);
      }
      SendBehind(s, t, Last(t.table.sent));
    }
  }

  ghost predicate OrderInv(s: State) {
    && Attributed(s.stdin, s.wire)
    && (UniqueIds(s.stdin.fed) && AsksFirst(s.stdin.fed) ==> Behind(s.stdin, s.reader, s.queue, s.table.sent))
  }

  lemma ClientPrefix(fed: seq<Frame>, more: seq<Frame>)
    requires UniqueIds(fed + more)
    ensures UniqueIds(fed)
    ensures AsksFirst(fed + more) ==> AsksFirst(fed)
  {
    var g := fed + more;
    assert forall n :: 0 <= n < |fed| ==> g[n] == fed[n];
    if AsksFirst(g) {
      forall m | 0 <= m < |fed| && fed[m].Interrupt? && fed[m].id != "" ensures AskedBefore(fed, m, fed[m].id) {
        assert AskedBefore(g, m, g[m].id);
      }
    }
  }

  lemma OrderStep(s: State, a: Step)
    requires Enabled(s, a) && Shape(s) && OrderInv(s) && InterruptInv(s)
    requires UniqueIds(Apply(s, a).stdin.fed) && AsksFirst(Apply(s, a).stdin.fed)
    ensures var t := Apply(s, a); Behind(t.stdin, t.reader, t.queue, t.table.sent)
  {
    var was, now := s.stdin.fed, Apply(s, a).stdin.fed;
    assert now == was + now[|was|..];
    ClientPrefix(was, now[|was|..]);
    BehindStep(s, a);
  }

  lemma {:induction false} ReachedOrderInv(steps: seq<Step>, s: State)
    requires Reached(steps) == Some(s)
    ensures OrderInv(s)
  {
    if steps == [] {
    } else {
      var p, a := Reached(Front(steps)).value, Last(steps);
      ReachedOrderInv(Front(steps), p);
      ReachedInv(Front(steps), p);
      AttributedStep(p, a);
      if UniqueIds(s.stdin.fed) && AsksFirst(s.stdin.fed) {
        ReachedInterruptInv(Front(steps), p);
        OrderStep(p, a);
      }
    }
  }

  // ----- For ever ---------------------------------------------------------------------------------------

  /** Nothing sent to the table from here on, in any continuation, activates x. */
  ghost predicate NeverAgain(s: State, x: Id) {
    forall more, t :: Follow(s, more) == Some(t) && UniqueIds(t.stdin.fed) ==>
      s.table.handled <= |t.table.sent| && T.Activate(x) !in t.table.sent[s.table.handled..]
  }

  /** What a continuation keeps. */
  ghost predicate Extends(s: State, t: State) {
    && |s.stdin.fed| <= |t.stdin.fed| && s.stdin.fed == t.stdin.fed[..|s.stdin.fed|]
    && |s.table.sent| <= |t.table.sent| && s.table.sent == t.table.sent[..|s.table.sent|]
  }

  lemma ExtendsStep(s: State, a: Step)
    requires Enabled(s, a)
    ensures Extends(s, Apply(s, a))
  {
  }

  lemma ExtendsTwice(s: State, t: State, u: State)
    requires Extends(s, t) && Extends(t, u)
    ensures Extends(s, u)
  {
  }

  lemma {:induction false} Continues(s: State, more: seq<Step>, t: State)
    requires Follow(s, more) == Some(t)
    ensures Extends(s, t)
  {
    if more == [] {
    } else {
      var u := Follow(s, Front(more)).value;
      Continues(s, Front(more), u);
      ExtendsStep(u, Last(more));
      ExtendsTwice(s, u, t);
    }
  }

  lemma UniqueBefore(s: State, t: State)
    requires Extends(s, t) && UniqueIds(t.stdin.fed)
    ensures UniqueIds(s.stdin.fed)
  {
    assert forall n :: 0 <= n < |s.stdin.fed| ==> t.stdin.fed[n] == s.stdin.fed[n];
  }

  /** A request turned away stays so. */
  lemma {:induction false} AwayForEver(s: State, more: seq<Step>, t: State, x: Id)
    requires Inv(s) && Follow(s, more) == Some(t) && UniqueIds(t.stdin.fed)
    requires TurnedAway(s.stdin, s.reader, s.queue, x)
    ensures Inv(t) && TurnedAway(t.stdin, t.reader, t.queue, x)
  {
    if more == [] {
    } else {
      var u, a := Follow(s, Front(more)).value, Last(more);
      ExtendsStep(u, a);
      UniqueBefore(u, t);
      AwayForEver(s, Front(more), u, x);
      StepKeepsInv(u, a);
      StillAway(u, a, x);
    }
  }

  lemma AwayIsNotActivated(s: State, x: Id)
    requires Activated(s.queue, s.exec, s.table.sent) && TurnedAway(s.stdin, s.reader, s.queue, x)
    ensures T.Activate(x) !in s.table.sent
  {
  }

  lemma TurnedAwayNeverAgain(s: State, x: Id)
    requires Reachable(s) && s.table.handled <= |s.table.sent| && TurnedAway(s.stdin, s.reader, s.queue, x)
    ensures NeverAgain(s, x)
  {
    forall more, t | Follow(s, more) == Some(t) && UniqueIds(t.stdin.fed)
      ensures s.table.handled <= |t.table.sent| && T.Activate(x) !in t.table.sent[s.table.handled..]
    {
      ReachableInv(s);
      Continues(s, more, t);
      AwayForEver(s, more, t, x);
      FollowReachable(s, more, t);
      ReachableInterruptInv(t);
      AwayIsNotActivated(t, x);
    }
  }

  lemma FollowReachable(s: State, more: seq<Step>, t: State)
    requires Reachable(s) && Follow(s, more) == Some(t)
    ensures Reachable(t)
  {
    var steps :| Reached(steps) == Some(s);
    FollowJoin(INIT, steps, s, more, t);
    assert Reached(steps + more) == Some(t);
  }

  lemma EndedNeverAgain(s: State, x: Id)
    requires Reachable(s) && UniqueIds(s.stdin.fed) && s.table.handled <= |s.table.sent| && T.Deactivate(x) in Processed(s.table)
    ensures NeverAgain(s, x)
  {
    forall more, t | Follow(s, more) == Some(t) && UniqueIds(t.stdin.fed)
      ensures s.table.handled <= |t.table.sent| && T.Activate(x) !in t.table.sent[s.table.handled..]
    {
      Continues(s, more, t);
      FollowReachable(s, more, t);
      ReachableInterruptInv(t);
      EndedLater(s.table, t.table.sent, x);
    }
  }

  lemma EndedLater(now: TableLink, later: seq<T.Cmd>, x: Id)
    requires now.handled <= |now.sent| <= |later| && now.sent == later[..|now.sent|]
    requires T.WellFormed(later) && T.Deactivate(x) in Processed(now)
    ensures T.Activate(x) !in later[now.handled..]
  {
    assert Processed(now) == later[..now.handled];
    EndedIsOver(Processed(now), later[now.handled..], later, x);
  }

  lemma EndedIsOver(h: seq<T.Cmd>, more: seq<T.Cmd>, whole: seq<T.Cmd>, x: Id)
    requires whole == h + more && T.WellFormed(whole) && T.Deactivate(x) in h
    ensures T.Activate(x) !in more
  {
    T.PrefixWellFormed(h, more);
    T.OrderlyAlways(h);
    T.ActivatedOnce(h, more, x);
  }

  /** A client that interrupts only what it has asked for cannot poison a later request: by the time
      the table handles such an interrupt the request is registered and its context is cancelled, or
      it has ended, or it was refused.  Only then is the interrupt parked, under an id that is never
      activated again, however the run goes on. */
  lemma LateInterruptIsHarmless(s: State)
    requires Reachable(s) && UniqueIds(s.stdin.fed) && AsksFirst(s.stdin.fed)
    requires s.table.handled < |s.table.sent|
    requires s.table.sent[s.table.handled].Interrupt? && s.table.sent[s.table.handled].id != ""
    ensures var h, x := Processed(s.table), s.table.sent[s.table.handled].id;
      || T.CtxCancelled(h + [T.Interrupt(x)], x)
      || (T.Deactivate(x) in h && NeverAgain(s, x))
      || (TurnedAway(s.stdin, s.reader, s.queue, x) && NeverAgain(s, x))
  {
    var steps :| Reached(steps) == Some(s);
    ReachedOrderInv(steps, s);
    ReachedInterruptInv(steps, s);
    var x := s.table.sent[s.table.handled].id;
    if T.CtxOf(Processed(s.table), x).Some? {
      CutOrEnded(s.table, x);
      if T.Deactivate(x) in Processed(s.table) {
        EndedNeverAgain(s, x);
      }
    } else {
      TurnedAwayNeverAgain(s, x);
    }
  }

  lemma CutOrEnded(t: TableLink, x: Id)
    requires T.WellFormed(t.sent) && t.handled < |t.sent| && t.sent[t.handled] == T.Interrupt(x)
    requires T.CtxOf(Processed(t), x).Some?
    ensures T.CtxCancelled(Processed(t) + [T.Interrupt(x)], x) || T.Deactivate(x) in Processed(t)
  {
    var h, c, more := Processed(t), T.Interrupt(x), t.sent[t.handled + 1..];
    assert t.sent == h + [c] + more;
    T.LateInterrupt(h, x, more);
  }
}
