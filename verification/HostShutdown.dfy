/**
 Shutting down, as the callers of Execute see it: what a shutdown answers, what it can lose, and exactly
 when it loses anything.
 */
module HostShutdown {
  import opened Prelude
  import opened Frames
  import opened Host
  import opened HostCalls
  import K = Kernel
  import A = KernelAccounts
  import D = KernelDrain

  /** After a clean shutdown, the client's own included, once the executor has exited: every call whose
      request was read can return, but for one the reader is still at. No Execute hangs. */
  lemma CleanShutdownAnswersAll(s: Sys, id: Id, n: nat)
    requires Reachable(s) && K.Clean(s.k) && s.k.exec.Exited? && !s.c.gone && s.c.read == |s.k.wire.out|
    requires n < s.k.stdin.taken <= |s.k.stdin.fed| && s.k.stdin.fed[n] == Request(Execute, id)
    ensures id in s.c.calls && (s.c.calls[id].closed <==> !(A.Holding(s.k.reader) && n == s.k.stdin.taken - 1))
  {
    ReachableSys(s);
    ClientDiscipline(s);
    assert LineOk(s.c, n);
    ExecuteIsAnsweredIff(s, id);
    A.ExactlyOneDone(s.k, n);
    A.AnsweredIff(s.k, n);
    assert A.Through(s.k, n) ==> Served(s.k, id, n);
    forall m | Served(s.k, id, m) ensures m == n {
    }
  }

  // ----- An Execute that is lost -------------------------------------------------------------------------

  /** The executor has exited, and the request at position n was given up or is still queued. */
  ghost predicate Stranded(k: K.State, id: Id, n: nat) {
    && D.Lost(k.exec, k.queue, n)
    && n < k.stdin.taken <= |k.stdin.fed| && k.stdin.fed[n].Request? && k.stdin.fed[n].id == id
  }

  lemma StrandedStep(k: K.State, b: K.Step, id: Id, n: nat)
    requires K.Enabled(k, b) && Stranded(k, id, n)
    ensures Stranded(K.Apply(k, b), id, n)
  {
    var q := K.Apply(k, b).queue;
    if j :| D.QueuedAt(k.queue, n, j) {
      assert D.QueuedAt(q, n, j);
    }
  }

  lemma {:induction false} StrandedForEver(steps: seq<Step>, s: Sys, more: seq<Step>, t: Sys, id: Id, n: nat)
    requires Reached(steps) == Some(s) && Reached(steps + more) == Some(t) && Stranded(s.k, id, n)
    ensures Stranded(t.k, id, n)
    decreases |more|
  {
    if more == [] {
      assert steps + more == steps;
    } else {
      assert Front(steps + more) == steps + Front(more) && Last(steps + more) == Last(more);
      var u, a := Reached(steps + Front(more)).value, Last(more);
      StrandedForEver(steps, s, Front(more), u, id, n);
      if a.Pump? || a.Inside? {
        StrandedStep(u.k, if a.Inside? then a.a else K.Outside(K.Feed(u.c.lines[u.c.pumped])), id, n);
      }
    }
  }

  /** A stranded Execute never returns, whatever happens later, unless its event stream ends. */
  lemma StrandedNeverReturns(steps: seq<Step>, s: Sys, more: seq<Step>, t: Sys, id: Id, n: nat)
    requires Reached(steps) == Some(s) && Reached(steps + more) == Some(t) && Stranded(s.k, id, n)
    ensures id in t.c.calls && (!t.c.gone ==> !t.c.calls[id].closed && !t.c.calls[id].stage.Returned?)
  {
    StrandedForEver(steps, s, more, t, id, n);
    assert Reachable(t);
    ReachableSys(t);
    ClientDiscipline(t);
    A.AnsweredIff(t.k, n);
    NotThrough(t.k, id, n);
    assert LineOk(t.c, n);
    SeenDone(t.k.wire.out, t.c.read, id);
  }

  lemma SeenDone(out: seq<Event>, n: nat, id: Id)
    requires n <= |out| && id != ""
    ensures FirstDone(out[..n], id) < n ==> exists k :: A.IsDone(out, k, id)
  {
    var d := FirstDone(out[..n], id);
    assert d < n ==> A.IsDone(out, d, id);
  }

  lemma NotThrough(k: K.State, id: Id, n: nat)
    requires Stranded(k, id, n)
    ensures !A.Through(k, n)
  {
  }

  lemma ExtendSys(steps: seq<Step>, s: Sys, a: Step)
    requires Reached(steps) == Some(s) && Enabled(s, a)
    ensures Reached(steps + [a]) == Some(Apply(s, a))
  {
    assert Front(steps + [a]) == steps && Last(steps + [a]) == a;
  }

  /** An Execute gets as far as being registered with the table. */
  lemma AskedAndTaken(id: Id) returns (steps: seq<Step>, s: Sys)
    requires id != ""
    ensures Reached(steps) == Some(s) && HasAsked(s.c, id) && !s.c.gone
    ensures s.k.reader == K.Queueing(K.Work(0, Execute, id)) && s.k.exec == K.Waiting && s.k.queue == K.Queue([], 0, {})
    ensures s.k.stdin.taken == 1 && s.k.stdin.fed == [Request(Execute, id)]
  {
    var f := Request(Execute, id);
    steps, s := [], INIT;
    ExtendSys(steps, s, Join(id));
    steps, s := steps + [Join(id)], Apply(s, Join(id));
    ExtendSys(steps, s, Acknowledge);
    steps, s := steps + [Acknowledge], Apply(s, Acknowledge);
    ExtendSys(steps, s, Ask(id));
    steps, s := steps + [Ask(id)], Apply(s, Ask(id));
    ExtendSys(steps, s, Pump);
    steps, s := steps + [Pump], Apply(s, Pump);
    steps, s := Inner(steps, s, K.Read(K.Take(f)));
    steps, s := Inner(steps, s, K.Read(K.ReadStep.Register));
  }

  lemma Inner(steps: seq<Step>, s: Sys, b: K.Step) returns (steps': seq<Step>, s': Sys)
    requires Reached(steps) == Some(s) && Enabled(s, Inside(b))
    ensures Reached(steps') == Some(s') && s' == Apply(s, Inside(b))
  {
    ExtendSys(steps, s, Inside(b));
    steps', s' := steps + [Inside(b)], Apply(s, Inside(b));
  }

  /** The client shuts down, and the executor leaves while enqueue holds the request. */
  lemma LeftBehind(id: Id) returns (steps: seq<Step>, s: Sys)
    requires id != ""
    ensures Reached(steps) == Some(s) && HasAsked(s.c, id) && !s.c.gone
    ensures s.k.reader == K.Queueing(K.Work(0, Execute, id)) && s.k.exec == K.Exited && s.k.queue == K.Queue([], 0, {})
    ensures s.k.gate.drain && s.k.stdin.taken == 1 && s.k.stdin.fed == [Request(Execute, id)]
  {
    steps, s := AskedAndTaken(id);
    ExtendSys(steps, s, Step.Shutdown);
    steps, s := steps + [Step.Shutdown], Apply(s, Step.Shutdown);
    steps, s := Inner(steps, s, K.Outside(K.OuterCancel));
    steps, s := Inner(steps, s, K.Run(K.PickDrain));
    steps, s := Inner(steps, s, K.Run(K.Leave));
  }

  /** KernelHost.Shutdown sends its frame and cancels the kernel's context.  If enqueue then stands
      between its check and its send, the executor leaves first, and the request is stranded in the
      queue, or given up when the root context has ended: that Execute never returns. */
  lemma ShutdownStrandsExecute(id: Id, giveUp: bool) returns (steps: seq<Step>, s: Sys)
    requires id != ""
    ensures Reached(steps) == Some(s) && Stranded(s.k, id, 0) && HasAsked(s.c, id) && !s.c.gone
    ensures giveUp <==> 0 in s.k.queue.dropped
  {
    steps, s := LeftBehind(id);
    if giveUp {
      steps, s := Inner(steps, s, K.Outside(K.StopAfterExit));
      steps, s := Inner(steps, s, K.Read(K.Abandon));
    } else {
      steps, s := Inner(steps, s, K.Read(K.Enqueue));
      assert D.QueuedAt(s.k.queue, 0, 0);
    }
  }

  // ----- Draining ----------------------------------------------------------------------------------------

  /** Whatever clients, reader and writer do meanwhile: once intake is closed every step of the executor
      brings it nearer to its exit, and no other step takes it further away. */
  lemma ShutdownDrains(s: Sys, a: Step)
    requires Reachable(s) && s.k.gate.drain && Enabled(s, a)
    ensures var t := Apply(s, a);
      if a.Inside? && a.a.Run? then D.Shrinks(s.k, t.k) else t.k.exec == s.k.exec && D.Requests(t.k) <= D.Requests(s.k)
  {
    ReachableSys(s);
    if a.Inside? {
      D.DrainMeasure(s.k, a.a);
    }
  }

  /** If the grace does not expire first, at most one Execute is stranded. */
  lemma AtMostOneStranded(s: Sys, id: Id, n: nat, id': Id, n': nat)
    requires Reachable(s) && !s.k.gate.late && Stranded(s.k, id, n) && Stranded(s.k, id', n')
    ensures n == n' && id == id'
  {
    ReachableSys(s);
    D.AtMostOneLost(s.k, n, n');
  }

  // ----- Exactly when a cancellation strands an Execute -----------------------------------------------------

  const CANCEL := Inside(K.Outside(K.OuterCancel))
  const EXPIRY := Inside(K.Outside(K.GraceExpiry))

  function Insides(more: seq<K.Step>): (all: seq<Step>)
    ensures forall a :: a in all <==> a.Inside? && a.a in more
  {
    if more == [] then [] else Insides(Front(more)) + [Inside(Last(more))]
  }

  /** A continuation of the kernel that takes in nothing is one of the system. */
  lemma {:induction false} InsidePath(steps: seq<Step>, s: Sys, more: seq<K.Step>, k: K.State)
    requires Reached(steps) == Some(s) && K.Follow(s.k, more) == Some(k) && D.NoOutside(more)
    ensures Reached(steps + Insides(more)) == Some(s.(k := k))
    decreases |more|
  {
    if more == [] {
      assert steps + [] == steps;
    } else {
      var p := K.Follow(s.k, Front(more)).value;
      assert forall i :: 0 <= i < |more| - 1 ==> Front(more)[i] == more[i];
      InsidePath(steps, s, Front(more), p);
      ExtendSys(steps + Insides(Front(more)), s.(k := p), Inside(Last(more)));
      Joins(steps, Insides(Front(more)), [Inside(Last(more))]);
    }
  }

  /** A continuation of the system is one of the kernel inside. */
  lemma {:induction false} Project(steps: seq<Step>, s: Sys, more: seq<Step>, t: Sys) returns (inner: seq<K.Step>)
    requires Reached(steps) == Some(s) && Reached(steps + more) == Some(t)
    ensures K.Follow(s.k, inner) == Some(t.k)
    ensures EXPIRY !in more ==> D.NoExpiry(inner)
    decreases |more|
  {
    if more == [] {
      assert steps + more == steps;
      inner := [];
    } else {
      assert Front(steps + more) == steps + Front(more) && Last(steps + more) == Last(more);
      var u, a := Reached(steps + Front(more)).value, Last(more);
      inner := Project(steps, s, Front(more), u);
      inner := ProjectStep(s.k, inner, u, a);
      assert EXPIRY in more <==> EXPIRY in Front(more) || a == EXPIRY;
    }
  }

  lemma ProjectStep(k: K.State, inner: seq<K.Step>, u: Sys, a: Step) returns (longer: seq<K.Step>)
    requires K.Follow(k, inner) == Some(u.k) && Enabled(u, a)
    ensures K.Follow(k, longer) == Some(Apply(u, a).k)
    ensures D.NoExpiry(inner) && a != EXPIRY ==> D.NoExpiry(longer)
  {
    longer := inner;
    if a.Inside? || a.Pump? {
      var b := if a.Inside? then a.a else K.Outside(K.Feed(u.c.lines[u.c.pumped]));
      longer := inner + [b];
      assert Front(longer) == inner && Last(longer) == b;
    }
  }

  /** A continuation of a cancellation, without expiry of the grace, in which an Execute is stranded. */
  ghost predicate StrandsAfterCancel(steps: seq<Step>, more: seq<Step>, t: Sys, id: Id, n: nat) {
    Reached(steps + [CANCEL] + more) == Some(t) && EXPIRY !in more && Stranded(t.k, id, n)
  }

  lemma CancelSys(steps: seq<Step>, s: Sys)
    requires Reached(steps) == Some(s)
    ensures Reached(steps + [CANCEL]) == Some(s.(k := K.Apply(s.k, K.Outside(K.OuterCancel))))
  {
    ExtendSys(steps, s, CANCEL);
  }

  /** What a caller of Shutdown meets.  In a run that is clean so far, the cancellation can strand an
      Execute, if the grace does not expire, if and only if it finds enqueue between its check and its
      send. */
  lemma CancelStrandsIff(steps: seq<Step>, s: Sys)
    requires Reached(steps) == Some(s) && K.Clean(s.k)
    ensures (exists more, t, id, n :: StrandsAfterCancel(steps, more, t, id, n)) <==> K.InEnqueue(s.k.reader)
  {
    if K.InEnqueue(s.k.reader) {
      CancelStrands(steps, s);
    }
    forall more, t, id, n | StrandsAfterCancel(steps, more, t, id, n) ensures K.InEnqueue(s.k.reader) {
      StrandedInEnqueue(steps, s, more, t, id, n);
    }
  }

  lemma StrandedInEnqueue(steps: seq<Step>, s: Sys, more: seq<Step>, t: Sys, id: Id, n: nat)
    requires Reached(steps) == Some(s) && K.Clean(s.k) && StrandsAfterCancel(steps, more, t, id, n)
    ensures K.InEnqueue(s.k.reader)
  {
    CancelSys(steps, s);
    var inner := Project(steps + [CANCEL], s.(k := K.Apply(s.k, K.Outside(K.OuterCancel))), more, t);
    assert Reachable(s);
    ReachableSys(s);
    assert D.LosesAfterCancel(s.k, inner, t.k, n);
    D.CancelLosesIff(s.k);
  }

  /** Otherwise every Execute whose request is read can return once the executor has exited and the wire has
      been read, but for one the reader is still at: this is the drain that Shutdown promises. */
  lemma CancelAnswersExecutes(steps: seq<Step>, s: Sys, more: seq<Step>, t: Sys, id: Id, n: nat)
    requires Reached(steps) == Some(s) && K.Clean(s.k) && !K.InEnqueue(s.k.reader)
    requires Reached(steps + [CANCEL] + more) == Some(t) && EXPIRY !in more
    requires t.k.exec.Exited? && !t.c.gone && t.c.read == |t.k.wire.out|
    requires n < t.k.stdin.taken <= |t.k.stdin.fed| && t.k.stdin.fed[n] == Request(Execute, id)
    ensures id in t.c.calls && (t.c.calls[id].closed <==> !(A.Holding(t.k.reader) && n == t.k.stdin.taken - 1))
  {
    CancelSys(steps, s);
    var inner := Project(steps + [CANCEL], s.(k := K.Apply(s.k, K.Outside(K.OuterCancel))), more, t);
    assert Reachable(s) && Reachable(t);
    ReachableSys(s);
    D.CancelIsClean(s.k, inner, t.k);
    CleanShutdownAnswersAll(t, id, n);
  }

  lemma CancelStrands(steps: seq<Step>, s: Sys)
    requires Reached(steps) == Some(s) && K.InEnqueue(s.k.reader)
    ensures exists more, t, id, n :: StrandsAfterCancel(steps, more, t, id, n)
  {
    CancelSys(steps, s);
    var u := s.(k := K.Apply(s.k, K.Outside(K.OuterCancel)));
    assert Reachable(u);
    ReachableSys(u);
    A.ReachableInv(u.k);
    var w := u.k.reader.w;
    var inner, k := D.LosesIt(u.k);
    InsidePath(steps + [CANCEL], u, inner, k);
    assert StrandsAfterCancel(steps, Insides(inner), u.(k := k), w.id, w.n);
  }

  // ----- When the event stream has ended --------------------------------------------------------------------

  /** A call whose pending the reader never registered waits for that for ever. */
  lemma {:induction false} JoiningForEver(steps: seq<Step>, s: Sys, more: seq<Step>, t: Sys, id: Id)
    requires Reached(steps) == Some(s) && Reached(steps + more) == Some(t)
    requires s.c.gone && id in s.c.calls && s.c.calls[id].stage.Joining?
    ensures t.c.gone && id in t.c.calls && t.c.calls[id].stage.Joining?
    decreases |more|
  {
    if more == [] {
      assert steps + more == steps;
    } else {
      assert Front(steps + more) == steps + Front(more) && Last(steps + more) == Last(more);
      JoiningForEver(steps, s, Front(more), Reached(steps + Front(more)).value, id);
    }
  }

  ghost predicate ReturnsLater(steps: seq<Step>, more: seq<Step>, t: Sys, id: Id) {
    Reached(steps + more) == Some(t) && id in t.c.calls && t.c.calls[id].stage.Returned?
  }

  /** After the end of the event stream a call can ever return if and only if its pending was registered
      before. */
  lemma GoneReturnsIff(steps: seq<Step>, s: Sys, id: Id)
    requires Reached(steps) == Some(s) && s.c.gone && id in s.c.calls
    ensures (exists more, t :: ReturnsLater(steps, more, t, id)) <==> !s.c.calls[id].stage.Joining?
  {
    if s.c.calls[id].stage.Joining? {
      forall more, t | Reached(steps + more) == Some(t) ensures !ReturnsLater(steps, more, t, id) {
        JoiningForEver(steps, s, more, t, id);
      }
    } else {
      RegisteredReturns(steps, s, id);
    }
  }

  lemma RegisteredReturns(steps: seq<Step>, s: Sys, id: Id)
    requires Reached(steps) == Some(s) && s.c.gone && id in s.c.calls && !s.c.calls[id].stage.Joining?
    ensures exists more, t :: ReturnsLater(steps, more, t, id)
  {
    GoneCloses(steps, s, id);
    if s.c.calls[id].stage.Joined? {
      ExtendSys(steps, s, Ask(id));
      var t := Apply(s, Ask(id));
      ExtendSys(steps + [Ask(id)], t, Return(id));
      Joins(steps, [Ask(id)], [Return(id)]);
      assert ReturnsLater(steps, [Ask(id)] + [Return(id)], Apply(t, Return(id)), id);
    } else if s.c.calls[id].stage.Returned? {
      JoinsNothing(steps);
      assert ReturnsLater(steps, [], s, id);
    } else {
      ExtendSys(steps, s, Return(id));
      assert ReturnsLater(steps, [Return(id)], Apply(s, Return(id)), id);
    }
  }

  /** The stream can end at any time, and then a registered call can return, with whatever it holds. */
  lemma EndReturns(steps: seq<Step>, s: Sys, id: Id) returns (more: seq<Step>, t: Sys)
    requires Reached(steps) == Some(s) && !s.c.gone && id in s.c.calls && !s.c.calls[id].stage.Joining?
    ensures ReturnsLater(steps, [LinesEnd] + more, t, id)
  {
    ExtendSys(steps, s, LinesEnd);
    RegisteredReturns(steps + [LinesEnd], Apply(s, LinesEnd), id);
    more, t :| ReturnsLater(steps + [LinesEnd], more, t, id);
    Joins(steps, [LinesEnd], more);
  }

  lemma GoneCloses(steps: seq<Step>, s: Sys, id: Id)
    requires Reached(steps) == Some(s) && s.c.gone && id in s.c.calls && !s.c.calls[id].stage.Joining?
    ensures s.c.calls[id].closed
  {
    assert Reachable(s);
    ReachableSys(s);
    assert CallOk(id, s.c.calls[id], s.k.wire.out[..s.c.read], id in s.c.pendings, s.c.gone);
  }
}
