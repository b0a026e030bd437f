/**
 Draining: once intake is closed the executor stops in finitely many steps, what a shutdown can leave
 behind, and exactly when it leaves anything.
 */
module KernelDrain {
  import opened Prelude
  import opened Frames
  import opened Kernel
  import opened KernelAccounts
  import I = KernelInterrupts
  import O = KernelOrder

  // ----- The measure ------------------------------------------------------------------------------

  /** How much the executor still has to do: requests, those past enqueue's check included, then where
      it stands, then events. */
  function Requests(s: State): nat {
    (if s.queue.started <= |s.queue.accepted| then |s.queue.accepted| - s.queue.started else 0) +
    (if s.exec.Activating? || s.exec.Running? then 1 else 0) +
    if InEnqueue(s.reader) then 1 else 0
  }

  function Rank(x: Exec): nat {
    match x
    case Waiting => 4
    case Draining => 3
    case Activating(_) => 2
    case Running(_, _, _) => 1
    case Exited => 0
  }

  function Left(x: Exec): nat {
    if x.Running? && x.at <= |x.script| then |x.script| - x.at else 0
  }

  /** The triple (requests, rank, events left) gets smaller. */
  predicate Shrinks(s: State, t: State) {
    || Requests(t) < Requests(s)
    || (Requests(t) == Requests(s) && Rank(t.exec) < Rank(s.exec))
    || (Requests(t) == Requests(s) && Rank(t.exec) == Rank(s.exec) && Left(t.exec) < Left(s.exec))
  }

  lemma RunShrinks(s: State, x: ExecStep)
    requires ExecEnabled(s, x) && ExecShape(s.queue, s.exec)
    ensures Shrinks(s, ExecApply(s, x))
  {
  }

  lemma OtherNotRaised(s: State, a: Step)
    requires Enabled(s, a) && !a.Run? && s.gate.drain && ExecShape(s.queue, s.exec)
    ensures Apply(s, a).exec == s.exec && Requests(Apply(s, a)) <= Requests(s)
  {
  }

  /** In any run, once intake is closed every step of the executor, whichever branch its selects take,
      makes the triple (requests, rank, events left) smaller, and no other step raises it: whatever the
      interleaving, the executor takes finitely many steps. */
  lemma DrainMeasure(s: State, a: Step)
    requires Reachable(s) && s.gate.drain && Enabled(s, a)
    ensures var t := Apply(s, a);
      if a.Run? then Shrinks(s, t) else t.exec == s.exec && Requests(t) <= Requests(s)
  {
    ReachableInv(s);
    if a.Run? {
      RunShrinks(s, a.x);
    } else {
      OtherNotRaised(s, a);
    }
  }

  // ----- What is left behind ------------------------------------------------------------------------

  /** In a clean run the executor leaves only when every accepted request has been run and answered. */
  lemma LeavesNothingQueued(s: State)
    requires Reachable(s) && Clean(s) && s.exec.Exited?
    ensures s.gate.drain && s.queue.started == |s.queue.accepted|
    ensures forall w :: w in s.queue.accepted ==> exists k :: IsDone(s.wire.out, k, w.id)
  {
    ReachableInv(s);
    forall w | w in s.queue.accepted ensures exists k :: IsDone(s.wire.out, k, w.id) {
      var i :| 0 <= i < |s.queue.accepted| && s.queue.accepted[i] == w;
      assert w.n in s.wire.doneAt;
      assert IsDone(s.wire.out, s.wire.doneAt[w.n], w.id);
    }
  }

  predicate QueuedAt(q: Queue, n: nat, j: nat) {
    q.started <= j < |q.accepted| && q.accepted[j].n == n
  }

  /** The executor has exited, and the request at position n was given up or is still queued: it will
      never be answered. */
  ghost predicate Lost(x: Exec, q: Queue, n: nat) {
    x.Exited? && (n in q.dropped || exists j :: QueuedAt(q, n, j))
  }

  /** How many requests the executor has left to others: queued, given up, or in enqueue's hands. */
  function LeftOver(r: Reader, q: Queue, x: Exec): nat {
    |q.dropped| + (if InEnqueue(r) then 1 else 0) +
    if x.Exited? && q.started <= |q.accepted| then |q.accepted| - q.started else 0
  }

  /** As long as the grace has not cut the executor short, closing the drain channel finds at most one
      request in enqueue's hands, and the executor leaves nothing else. */
  ghost predicate Tight(r: Reader, g: Gate, q: Queue, x: Exec) {
    !g.late ==>
      && (x.Draining? || x.Exited? ==> g.drain)
      && (g.root ==> x.Exited?)
      && (!g.drain ==> q.dropped == {})
      && (g.drain ==> LeftOver(r, q, x) <= 1)
  }

  lemma TightStep(s: State, a: Step)
    requires Enabled(s, a) && ExecShape(s.queue, s.exec) && Tight(s.reader, s.gate, s.queue, s.exec)
    ensures var t := Apply(s, a); Tight(t.reader, t.gate, t.queue, t.exec)
  {
    match a
    case Read(r) => ReadTight(s, r);
    case _ =>
  }

  lemma ReadTight(s: State, r: ReadStep)
    requires ReadEnabled(s, r) && ExecShape(s.queue, s.exec) && Tight(s.reader, s.gate, s.queue, s.exec)
    ensures var t := ReadApply(s, r); Tight(t.reader, t.gate, t.queue, t.exec)
  {
  }

  lemma {:induction false} ReachedTight(steps: seq<Step>, s: State)
    requires Reached(steps) == Some(s)
    ensures Tight(s.reader, s.gate, s.queue, s.exec)
  {
    if steps == [] {
    } else {
      var p := Reached(Front(steps)).value;
      ReachedTight(Front(steps), p);
      ReachedInv(Front(steps), p);
      TightStep(p, Last(steps));
    }
  }

  /** In any run in which the grace does not expire first, the executor leaves at most one request
      unstarted, given up or in enqueue's hands. */
  lemma AtMostOneLeftOver(s: State)
    requires Reachable(s) && !s.gate.late && s.exec.Exited?
    ensures s.queue.started <= |s.queue.accepted|
    ensures |s.queue.dropped| + (|s.queue.accepted| - s.queue.started) + (if InEnqueue(s.reader) then 1 else 0) <= 1
  {
    var steps :| Reached(steps) == Some(s);
    ReachedTight(steps, s);
    ReachableInv(s);
  }

  /** So at most one request is lost. */
  lemma AtMostOneLost(s: State, n: nat, m: nat)
    requires Reachable(s) && !s.gate.late && Lost(s.exec, s.queue, n) && Lost(s.exec, s.queue, m)
    ensures n == m
  {
    AtMostOneLeftOver(s);
    SmallSet(s.queue.dropped, n, m);
  }

  lemma SmallSet(xs: set<nat>, n: nat, m: nat)
    ensures |xs| <= 1 && n in xs && m in xs ==> n == m
    ensures n in xs || m in xs ==> |xs| > 0
  {
    if n in xs && n != m {
      assert m in xs ==> {n, m} <= xs && |{n, m}| == 2 && |xs| == |xs - {n, m}| + 2;
    }
  }

  /** Without the assumption it is not so: a context cancelled from outside while enqueue stands
      between its check and its send lets the executor leave first, and strands the request. */
  lemma OuterCancelStrandsRequest() returns (steps: seq<Step>, s: State)
    ensures Reached(steps) == Some(s)
    ensures s.exec.Exited? && s.queue.started < |s.queue.accepted|
  {
    var f := Request(Execute, "x");
    var plan := [Outside(Feed(f)), Read(Take(f)), Read(Register), Outside(OuterCancel),
                 Run(PickDrain), Run(Leave), Read(Enqueue)];
    steps, s := [], INIT;
    while |steps| < |plan|
      invariant |steps| <= |plan| && Reached(steps) == Some(s)
      invariant match |steps|
        case 0 => s == INIT
        case 1 => s.stdin == Stdin([f], 0, false) && s.reader == Reading && s.gate == Gate(false, false, false, false) &&
          s.exec == Waiting && s.queue == Queue([], 0, {})
        case 2 => s.reader.Registering? && s.exec == Waiting && s.queue == Queue([], 0, {})
        case 3 => s.reader.Queueing? && s.exec == Waiting && s.queue == Queue([], 0, {})
        case 4 => s.reader.Queueing? && s.exec == Waiting && s.queue == Queue([], 0, {}) && s.gate.drain
        case 5 => s.reader.Queueing? && s.exec == Draining && s.queue == Queue([], 0, {})
        case 6 => s.reader.Queueing? && s.exec == Exited && s.queue == Queue([], 0, {})
        case _ => s.exec == Exited && |s.queue.accepted| == 1 && s.queue.started == 0
    {
      Extend(steps, s, plan[|steps|]);
      steps, s := steps + [plan[|steps|]], Apply(s, plan[|steps|]);
    }
  }

  // ----- Exactly when a cancellation costs a request ----------------------------------------------------

  predicate NoExpiry(more: seq<Step>) {
    Outside(GraceExpiry) !in more
  }

  /** Once the drain channel is closed no cancellation does harm any more. */
  lemma {:induction false} StaysClean(s: State, more: seq<Step>, t: State)
    requires Follow(s, more) == Some(t) && NoExpiry(more) && s.gate.drain
    ensures t.gate.drain && t.gate.cut == s.gate.cut && t.gate.late == s.gate.late
  {
    if more == [] {
    } else {
      var u := Follow(s, Front(more)).value;
      StaysClean(s, Front(more), u);
      GateStep(u, Last(more));
    }
  }

  lemma GateStep(s: State, a: Step)
    requires Enabled(s, a) && s.gate.drain && a != Outside(GraceExpiry)
    ensures var g := Apply(s, a).gate; g.drain && g.cut == s.gate.cut && g.late == s.gate.late
  {
  }

  /** A cancellation that does not find enqueue between its check and its send leaves a clean run. */
  lemma CancelIsClean(s: State, more: seq<Step>, t: State)
    requires Reachable(s) && Clean(s) && !InEnqueue(s.reader)
    requires Follow(Apply(s, Outside(OuterCancel)), more) == Some(t) && NoExpiry(more)
    ensures Reachable(t) && Clean(t) && t.gate.drain
  {
    var u := Apply(s, Outside(OuterCancel));
    StaysClean(u, more, t);
    ReachableStep(s, Outside(OuterCancel));
    O.FollowReachable(u, more, t);
  }

  /** So everything read is answered when the executor exits, unless the reader is still at it. */
  lemma CancelAnswersAll(s: State, more: seq<Step>, t: State, n: nat)
    requires Reachable(s) && Clean(s) && !InEnqueue(s.reader)
    requires Follow(Apply(s, Outside(OuterCancel)), more) == Some(t) && NoExpiry(more)
    requires t.exec.Exited? && UniqueIds(t.stdin.fed) && n < t.stdin.taken <= |t.stdin.fed| && Asks(t.stdin.fed[n])
    ensures (exists k :: IsDone(t.wire.out, k, t.stdin.fed[n].id)) <==> !(Holding(t.reader) && n == t.stdin.taken - 1)
  {
    CancelIsClean(s, more, t);
    ExactlyOneDone(t, n);
  }

  lemma ReachableStep(s: State, a: Step)
    requires Reachable(s) && Enabled(s, a)
    ensures Reachable(Apply(s, a))
  {
    var steps :| Reached(steps) == Some(s);
    Extend(steps, s, a);
  }

  lemma NoneLost(s: State, n: nat)
    requires Reachable(s) && Clean(s)
    ensures !Lost(s.exec, s.queue, n)
  {
    ReachableInv(s);
  }

  /** The steps of reader, executor and table. */
  predicate NoOutside(more: seq<Step>) {
    forall k :: 0 <= k < |more| ==> !more[k].Outside?
  }

  /** The steps of executor and table alone. */
  predicate Inner(more: seq<Step>) {
    forall k :: 0 <= k < |more| ==> more[k].Run? || more[k].TableGo?
  }

  /** What such steps leave alone. */
  predicate SameRest(s: State, t: State) {
    && t.stdin == s.stdin && t.reader == s.reader && t.gate == s.gate
    && t.queue.accepted == s.queue.accepted && t.queue.dropped == s.queue.dropped
  }

  /** Once intake is closed the executor can always get to its exit, by steps of its own and the table's. */
  lemma {:induction false} ExitPath(s: State) returns (more: seq<Step>, t: State)
    requires Reachable(s) && s.gate.drain
    ensures Follow(s, more) == Some(t) && Inner(more) && t.exec.Exited? && SameRest(s, t)
    decreases Requests(s), Rank(s.exec), Left(s.exec), |s.table.sent| - s.table.handled
  {
    if s.exec.Exited? {
      more, t := [], s;
    } else {
      var a := NextInner(s);
      var u := Apply(s, a);
      ReachableStep(s, a);
      var rest;
      rest, t := ExitPath(u);
      more := [a] + rest;
      OneThen(s, a, rest, t);
    }
  }

  lemma OneThen(s: State, a: Step, rest: seq<Step>, t: State)
    requires Enabled(s, a) && Follow(Apply(s, a), rest) == Some(t)
    ensures Follow(s, [a] + rest) == Some(t)
  {
    assert Front([a]) == [] && Last([a]) == a && Follow(s, []) == Some(s);
    FollowJoin(s, [a], Apply(s, a), rest, t);
  }

  /** A next step for it, which brings it nearer. */
  lemma NextInner(s: State) returns (a: Step)
    requires Reachable(s) && s.gate.drain && !s.exec.Exited?
    ensures Enabled(s, a) && (a.Run? || a.TableGo?) && SameRest(s, Apply(s, a))
    ensures a.Run? ==> Shrinks(s, Apply(s, a))
    ensures a.TableGo? ==>
      && Apply(s, a).exec == s.exec && Requests(Apply(s, a)) == Requests(s)
      && s.table.handled < |s.table.sent| && Apply(s, a).table.handled == s.table.handled + 1 && Apply(s, a).table.sent == s.table.sent
  {
    I.ExecutorNeverStuck(s);
    if s.table.handled < |s.table.sent| {
      a := TableGo;
    } else {
      var x :| ExecEnabled(s, x);
      a := Run(x);
      DrainMeasure(s, a);
    }
  }

  /** If enqueue has the request, it can queue it after the executor has left. */
  lemma LosesIt(s: State) returns (more: seq<Step>, t: State)
    requires Reachable(s) && s.gate.drain && InEnqueue(s.reader)
    ensures Follow(s, more) == Some(t) && NoOutside(more) && t.stdin == s.stdin && Lost(t.exec, t.queue, s.reader.w.n)
  {
    more, t := ExitPath(s);
    O.FollowReachable(s, more, t);
    ReachableInv(t);
    if t.reader.Registering? {
      more, t := OneAfter(s, more, t, Read(Register));
    }
    var j := |t.queue.accepted|;
    more, t := OneAfter(s, more, t, Read(Enqueue));
    assert QueuedAt(t.queue, s.reader.w.n, j);
  }

  lemma OneAfter(s: State, more: seq<Step>, t: State, a: Step) returns (longer: seq<Step>, u: State)
    requires Follow(s, more) == Some(t) && Enabled(t, a) && NoOutside(more) && !a.Outside?
    ensures longer == more + [a] && Follow(s, longer) == Some(u) && u == Apply(t, a) && NoOutside(longer)
  {
    longer, u := more + [a], Apply(t, a);
    assert Front(longer) == more && Last(longer) == a;
  }

  lemma OneAfterAny(s: State, more: seq<Step>, t: State, a: Step)
    requires Follow(s, more) == Some(t) && Enabled(t, a)
    ensures Follow(s, more + [a]) == Some(Apply(t, a))
  {
    assert Front(more + [a]) == more && Last(more + [a]) == a;
  }

  /** A continuation of a cancellation, without expiry of the grace, in which the request at n is lost. */
  ghost predicate LosesAfterCancel(s: State, more: seq<Step>, t: State, n: nat) {
    Follow(Apply(s, Outside(OuterCancel)), more) == Some(t) && NoExpiry(more) && Lost(t.exec, t.queue, n)
  }

  /** A cancellation of a run that is clean so far can lose a request, if the grace does not expire, if
      and only if it finds enqueue between its check and its send. */
  lemma CancelLosesIff(s: State)
    requires Reachable(s) && Clean(s)
    ensures (exists more, t, n :: LosesAfterCancel(s, more, t, n)) <==> InEnqueue(s.reader)
  {
    if InEnqueue(s.reader) {
      var u := Apply(s, Outside(OuterCancel));
      ReachableStep(s, Outside(OuterCancel));
      var more, t := LosesIt(u);
      assert LosesAfterCancel(s, more, t, s.reader.w.n);
    } else {
      forall more, t, n | LosesAfterCancel(s, more, t, n) ensures false {
        CancelIsClean(s, more, t);
        NoneLost(t, n);
      }
    }
  }
}
