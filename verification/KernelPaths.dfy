/**
 What the kernel can always do next: the reader reads on to the end of what it was given, the table
 handles all it was sent, and once the input has ended, or a shutdown frame was read, the kernel stops.
 */
module KernelPaths {
  import opened Prelude
  import opened Frames
  import opened Kernel
  import A = KernelAccounts
  import D = KernelDrain
  import O = KernelOrder

  // ----- Reading on ------------------------------------------------------------------------------------

  /** The reader's next step. */
  function NextRead(s: State): ReadStep
    requires !s.reader.Ended? && (s.reader.Reading? ==> s.stdin.taken < |s.stdin.fed|)
  {
    match s.reader
    case Reading => Take(s.stdin.fed[s.stdin.taken])
    case Registering(_) => ReadStep.Register
    case Queueing(_) => ReadStep.Enqueue
    case RefusingError(_, _) => RefuseError
    case RefusingDone(_, _) => RefuseDone
    case Closing => CloseDrain
    case Ended => EndOfInput
  }

  function StepsLeft(r: Reader): nat {
    match r
    case Registering(_) => 2
    case RefusingError(_, _) => 2
    case Queueing(_) => 1
    case RefusingDone(_, _) => 1
    case Closing => 1
    case _ => 0
  }

  predicate AllReads(more: seq<Step>) {
    forall k :: 0 <= k < |more| ==> more[k].Read?
  }

  lemma ReadOn(s: State)
    requires !s.reader.Ended? && (s.reader.Reading? ==> s.stdin.taken < |s.stdin.fed|) && s.stdin.taken <= |s.stdin.fed|
    ensures ReadEnabled(s, NextRead(s))
    ensures var t := ReadApply(s, NextRead(s));
      && !t.reader.Ended? && t.stdin.fed == s.stdin.fed && t.exec == s.exec && t.table.handled == s.table.handled
      && s.stdin.taken <= t.stdin.taken <= |t.stdin.fed|
      && (t.stdin.taken > s.stdin.taken || StepsLeft(t.reader) < StepsLeft(s.reader))
  {
  }

  /** The reader can always read on until it has taken every line and is through with the last. */
  lemma {:induction false} ReadAllPath(s: State) returns (more: seq<Step>, t: State)
    requires !s.reader.Ended? && s.stdin.taken <= |s.stdin.fed|
    ensures Follow(s, more) == Some(t) && AllReads(more)
    ensures t.reader.Reading? && t.stdin.fed == s.stdin.fed && t.stdin.taken == |t.stdin.fed|
    ensures t.exec == s.exec && t.table.handled == s.table.handled
    decreases |s.stdin.fed| - s.stdin.taken, StepsLeft(s.reader)
  {
    if s.reader.Reading? && s.stdin.taken == |s.stdin.fed| {
      more, t := [], s;
    } else {
      ReadOn(s);
      var a := Read(NextRead(s));
      var rest;
      rest, t := ReadAllPath(Apply(s, a));
      D.OneThen(s, a, rest, t);
      more := [a] + rest;
    }
  }

  predicate AllTable(more: seq<Step>) {
    forall k :: 0 <= k < |more| ==> more[k].TableGo?
  }

  /** The table can always handle everything it was sent. */
  lemma {:induction false} TableAllPath(s: State) returns (more: seq<Step>, t: State)
    requires s.table.handled <= |s.table.sent|
    ensures Follow(s, more) == Some(t) && AllTable(more)
    ensures t.table.sent == s.table.sent && t.table.handled == |s.table.sent|
    ensures t.stdin == s.stdin && t.reader == s.reader && t.exec == s.exec && t.queue == s.queue
    decreases |s.table.sent| - s.table.handled
  {
    if s.table.handled == |s.table.sent| {
      more, t := [], s;
    } else {
      var rest;
      rest, t := TableAllPath(Apply(s, TableGo));
      D.OneThen(s, TableGo, rest, t);
      more := [TableGo] + rest;
    }
  }

  // ----- Stopping --------------------------------------------------------------------------------------

  ghost predicate ShutdownRead(i: Stdin) {
    exists n :: 0 <= n < i.taken && n < |i.fed| && i.fed[n].Shutdown?
  }

  ghost predicate Begun(i: Stdin, r: Reader, g: Gate) {
    ShutdownRead(i) ==> g.drain || r.Closing?
  }

  lemma BegunStep(s: State, a: Step)
    requires Enabled(s, a) && Begun(s.stdin, s.reader, s.gate) && s.stdin.taken <= |s.stdin.fed|
    ensures var t := Apply(s, a); Begun(t.stdin, t.reader, t.gate)
  {
    var t := Apply(s, a);
    if ShutdownRead(t.stdin) && !ShutdownRead(s.stdin) {
      var n :| 0 <= n < t.stdin.taken && n < |t.stdin.fed| && t.stdin.fed[n].Shutdown?;
      assert n < |s.stdin.fed| ==> t.stdin.fed[n] == s.stdin.fed[n];
    }
  }

  lemma {:induction false} ReachedBegun(steps: seq<Step>, s: State)
    requires Reached(steps) == Some(s)
    ensures Begun(s.stdin, s.reader, s.gate)
  {
    if steps == [] {
    } else {
      var p := Reached(Front(steps)).value;
      ReachedBegun(Front(steps), p);
      A.ReachedInv(Front(steps), p);
      BegunStep(p, Last(steps));
    }
  }

  /** A shutdown frame that was read has closed the drain channel, or is just about to. */
  lemma ShutdownBegins(s: State)
    requires Reachable(s) && ShutdownRead(s.stdin)
    ensures s.gate.drain || s.reader.Closing?
  {
    var steps :| Reached(steps) == Some(s);
    ReachedBegun(steps, s);
  }

  /** The main goroutine's steps, those of beginShutdown, and those of executor and table. */
  predicate Stopping(a: Step) {
    a.Run? || a.TableGo? || a == Read(CloseDrain) || a == Outside(MainEof) || a == Outside(StopAfterExit)
  }

  predicate AllStopping(more: seq<Step>) {
    forall k :: 0 <= k < |more| ==> Stopping(more[k])
  }

  /** When the input has ended, or a shutdown frame was read, the kernel can always stop, by its own steps:
      the executor exits, in a clean run with nothing left queued, and the root context is cancelled. */
  lemma StopPath(s: State) returns (more: seq<Step>, t: State)
    requires Reachable(s) && (s.reader.Ended? || ShutdownRead(s.stdin) || s.gate.drain)
    ensures Follow(s, more) == Some(t) && AllStopping(more) && Reachable(t)
    ensures t.exec.Exited? && t.gate.drain && t.gate.root
    ensures Clean(s) ==> Clean(t) && t.queue.started == |t.queue.accepted| && t.queue.dropped == {}
  {
    var first, u := ClosePath(s);
    var inner, v := D.ExitPath(u);
    var a := Outside(StopAfterExit);
    D.OneAfterAny(u, inner, v, a);
    FollowJoin(s, first, u, inner + [a], Apply(v, a));
    more, t := first + (inner + [a]), Apply(v, a);
    O.FollowReachable(s, more, t);
    A.ReachableInv(t);
  }

  /** Closing the drain channel. */
  lemma ClosePath(s: State) returns (first: seq<Step>, u: State)
    requires Reachable(s) && (s.reader.Ended? || ShutdownRead(s.stdin) || s.gate.drain)
    ensures Follow(s, first) == Some(u) && AllStopping(first) && u.gate.drain && Reachable(u)
    ensures u.gate.cut == s.gate.cut && u.gate.late == s.gate.late
  {
    if s.gate.drain {
      first, u := [], s;
    } else if s.reader.Ended? {
      D.ReachableStep(s, Outside(MainEof));
      first, u := [Outside(MainEof)], Apply(s, Outside(MainEof));
      JustOne(s, Outside(MainEof));
    } else {
      ShutdownBegins(s);
      D.ReachableStep(s, Read(CloseDrain));
      first, u := [Read(CloseDrain)], Apply(s, Read(CloseDrain));
      JustOne(s, Read(CloseDrain));
    }
  }

  lemma JustOne(s: State, a: Step)
    requires Enabled(s, a)
    ensures Follow(s, [a]) == Some(Apply(s, a))
  {
    assert Front([a]) == [] && Last([a]) == a && Follow(s, []) == Some(s);
  }

  // ----- After the drain channel is closed -------------------------------------------------------------------

  lemma ClosedStep(s: State, a: Step)
    requires Enabled(s, a) && s.gate.drain && !InEnqueue(s.reader)
    ensures var t := Apply(s, a);
      t.gate.drain && !InEnqueue(t.reader) && t.queue.accepted == s.queue.accepted && t.queue.dropped == s.queue.dropped
  {
  }

  /** Once the drain channel is closed and enqueue is through, no request is accepted any more, nor given
      up: whatever is read is refused. */
  lemma {:induction false} NothingAcceptedLater(s: State, more: seq<Step>, t: State)
    requires Follow(s, more) == Some(t) && s.gate.drain && !InEnqueue(s.reader)
    ensures t.gate.drain && !InEnqueue(t.reader) && t.queue.accepted == s.queue.accepted && t.queue.dropped == s.queue.dropped
  {
    if more == [] {
    } else {
      var u := Follow(s, Front(more)).value;
      NothingAcceptedLater(s, Front(more), u);
      ClosedStep(u, Last(more));
    }
  }

  /** The expiry of the grace can cost any number of requests: here two that were still queued. */
  lemma GraceLosesTwo() returns (steps: seq<Step>, s: State)
    ensures Reached(steps) == Some(s) && s.exec.Exited? && s.gate.late
    ensures D.Lost(s.exec, s.queue, 0) && D.Lost(s.exec, s.queue, 1)
  {
    var f, g := Request(Execute, "x"), Request(Execute, "y");
    steps, s := Queued([], INIT, f);
    steps, s := Queued(steps, s, g);
    steps, s := Next(steps, s, Read(EndOfInput));
    steps, s := Next(steps, s, Outside(MainEof));
    steps, s := Next(steps, s, Outside(GraceExpiry));
    steps, s := Next(steps, s, Run(Stop));
    assert D.QueuedAt(s.queue, 0, 0) && D.QueuedAt(s.queue, 1, 1);
  }

  lemma Next(steps: seq<Step>, s: State, a: Step) returns (longer: seq<Step>, t: State)
    requires Reached(steps) == Some(s) && Enabled(s, a)
    ensures Reached(longer) == Some(t) && t == Apply(s, a)
  {
    A.Extend(steps, s, a);
    longer, t := steps + [a], Apply(s, a);
  }

  /** A request arrives, is read and queued. */
  lemma Queued(steps: seq<Step>, s: State, f: Frame) returns (longer: seq<Step>, t: State)
    requires Reached(steps) == Some(s) && f.Request?
    requires s.reader == Reading && !s.gate.drain && !s.stdin.eof && s.stdin.taken == |s.stdin.fed|
    ensures Reached(longer) == Some(t)
    ensures t.reader == Reading && t.gate == s.gate && t.exec == s.exec && t.stdin == Stdin(s.stdin.fed + [f], s.stdin.taken + 1, false)
    ensures t.queue == s.queue.(accepted := s.queue.accepted + [Work(s.stdin.taken, f.ask, f.id)])
  {
    longer, t := Next(steps, s, Outside(Feed(f)));
    longer, t := Next(longer, t, Read(Take(f)));
    longer, t := Next(longer, t, Read(ReadStep.Register));
    longer, t := Next(longer, t, Read(ReadStep.Enqueue));
  }
}
