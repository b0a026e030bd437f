/**
 What a caller's line brings about: the writer goroutine can always write on, the kernel reads on, and so
 Shutdown stops the kernel and the interrupt of a call that is cut short reaches the table.
 */
module HostPaths {
  import opened Prelude
  import opened Frames
  import opened Host
  import opened HostCalls
  import opened HostShutdown
  import K = Kernel
  import A = KernelAccounts
  import P = KernelPaths

  /** Lines are written, and the kernel takes steps of its own. */
  predicate Onward(more: seq<Step>) {
    forall k :: 0 <= k < |more| ==> more[k].Pump? || (more[k].Inside? && P.Stopping(more[k].a)) || (more[k].Inside? && more[k].a.Read?)
  }

  lemma OnwardJoin(a: seq<Step>, b: seq<Step>)
    requires Onward(a) && Onward(b)
    ensures Onward(a + b)
  {
  }

  lemma {:induction false} InsidesOnward(more: seq<K.Step>)
    requires forall k :: 0 <= k < |more| ==> P.Stopping(more[k]) || more[k].Read?
    ensures Onward(Insides(more))
  {
    if more == [] {
    } else {
      assert forall k :: 0 <= k < |more| - 1 ==> Front(more)[k] == more[k];
      InsidesOnward(Front(more));
    }
  }

  lemma NoOutsideJoin(steps: seq<Step>, s: Sys, done: seq<Step>, more: seq<K.Step>, k: K.State) returns (longer: seq<Step>, t: Sys)
    requires Reached(steps + done) == Some(s) && K.Follow(s.k, more) == Some(k) && Onward(done)
    requires forall i :: 0 <= i < |more| ==> P.Stopping(more[i]) || more[i].Read?
    ensures Reached(steps + longer) == Some(t) && t == s.(k := k) && Onward(longer)
  {
    KernelPath(steps + done, s, more, k);
    InsidesOnward(more);
    OnwardJoin(done, Insides(more));
    Joins(steps, done, Insides(more));
    longer, t := done + Insides(more), s.(k := k);
  }

  /** A continuation of the kernel that takes in nothing is one of the system. */
  lemma {:induction false} KernelPath(steps: seq<Step>, s: Sys, more: seq<K.Step>, k: K.State)
    requires Reached(steps) == Some(s) && K.Follow(s.k, more) == Some(k)
    requires forall i :: 0 <= i < |more| ==> P.Stopping(more[i]) || more[i].Read?
    ensures Reached(steps + Insides(more)) == Some(s.(k := k))
    decreases |more|
  {
    if more == [] {
      JoinsNothing(steps);
    } else {
      var p := K.Follow(s.k, Front(more)).value;
      assert forall i :: 0 <= i < |more| - 1 ==> Front(more)[i] == more[i];
      KernelPath(steps, s, Front(more), p);
      ExtendSys(steps + Insides(Front(more)), s.(k := p), Inside(Last(more)));
      Joins(steps, Insides(Front(more)), [Inside(Last(more))]);
    }
  }

  /** The writer goroutine can always write every line it was given, while the kernel's input is open. */
  lemma {:induction false} PumpAllPath(steps: seq<Step>, s: Sys) returns (more: seq<Step>, t: Sys)
    requires Reached(steps) == Some(s) && !s.k.stdin.eof && s.c.pumped <= |s.c.lines|
    ensures Reached(steps + more) == Some(t) && Onward(more)
    ensures t.c == s.c.(pumped := |s.c.lines|) && !t.k.stdin.eof
    ensures t.k == s.k.(stdin := t.k.stdin) && t.k.stdin.taken == s.k.stdin.taken
    decreases |s.c.lines| - s.c.pumped
  {
    if s.c.pumped == |s.c.lines| {
      JoinsNothing(steps);
      more, t := [], s;
    } else {
      ExtendSys(steps, s, Pump);
      var rest;
      rest, t := PumpAllPath(steps + [Pump], Apply(s, Pump));
      Joins(steps, [Pump], rest);
      OnwardJoin([Pump], rest);
      more := [Pump] + rest;
    }
  }

  /** Everything the client has sent is written and read. */
  lemma AllRead(steps: seq<Step>, s: Sys) returns (more: seq<Step>, t: Sys)
    requires Reached(steps) == Some(s) && !s.k.stdin.eof && !s.k.reader.Ended?
    ensures Reached(steps + more) == Some(t) && Onward(more)
    ensures t.c.lines == s.c.lines && t.k.stdin.fed == s.c.lines && t.k.stdin.taken == |t.k.stdin.fed|
    ensures t.k.reader.Reading? && t.k.exec == s.k.exec && t.k.table.handled == s.k.table.handled
  {
    assert Reachable(s);
    ReachableSys(s);
    var u;
    more, u := PumpAllPath(steps, s);
    assert Reachable(u);
    ReachableSys(u);
    A.ReachableInv(u.k);
    var path, k := P.ReadAllPath(u.k);
    more, t := NoOutsideJoin(steps, u, more, path, k);
  }

  // ----- Returning ---------------------------------------------------------------------------------------

  /** Events are read. */
  predicate AllEvents(more: seq<Step>) {
    forall k :: 0 <= k < |more| ==> more[k] == ReadEvent
  }

  /** The client's reader can always read the whole wire. */
  lemma {:induction false} ReadWirePath(steps: seq<Step>, s: Sys) returns (more: seq<Step>, t: Sys)
    requires Reached(steps) == Some(s) && !s.c.gone && s.c.read <= |s.k.wire.out|
    ensures Reached(steps + more) == Some(t) && AllEvents(more)
    ensures t.k == s.k && !t.c.gone && t.c.read == |t.k.wire.out|
    ensures forall id :: id in s.c.calls ==> id in t.c.calls && t.c.calls[id].stage == s.c.calls[id].stage
    decreases |s.k.wire.out| - s.c.read
  {
    if s.c.read == |s.k.wire.out| {
      JoinsNothing(steps);
      more, t := [], s;
    } else {
      ExtendSys(steps, s, ReadEvent);
      var rest;
      rest, t := ReadWirePath(steps + [ReadEvent], Apply(s, ReadEvent));
      Joins(steps, [ReadEvent], rest);
      more := [ReadEvent] + rest;
    }
  }

  /** A call whose request is through returns: the client reads the wire, and then it can. */
  lemma ReturnPath(steps: seq<Step>, s: Sys, id: Id, n: nat) returns (more: seq<Step>, t: Sys)
    requires Reached(steps) == Some(s) && !s.c.gone && Served(s.k, id, n)
    requires id in s.c.calls && (s.c.calls[id].stage.Asked? || s.c.calls[id].stage.Interrupting?)
    ensures Reached(steps + more + [Return(id)]) == Some(t) && AllEvents(more)
    ensures id in t.c.calls && t.c.calls[id].stage.Returned?
  {
    assert Reachable(s);
    ReachableSys(s);
    var u;
    more, u := ReadWirePath(steps, s);
    assert Reachable(u) && Served(u.k, id, n);
    ExecuteIsAnsweredIff(u, id);
    ExtendSys(steps + more, u, Return(id));
    t := Apply(u, Return(id));
  }

  /** Shutdown asks the kernel to drain and stop, and it can: by writing lines and by the kernel's own steps
      alone, with no cancellation and no expiry of the grace, it gets to where the executor has exited and
      the root context is cancelled, in a clean run with nothing left queued. */
  lemma ShutdownStops(steps: seq<Step>, s: Sys) returns (more: seq<Step>, t: Sys)
    requires Reached(steps) == Some(s) && !s.k.stdin.eof && !s.k.reader.Ended?
    ensures Reached(steps + [Step.Shutdown] + more) == Some(t) && Onward(more)
    ensures t.k.gate.drain && t.k.exec.Exited? && t.k.gate.root
    ensures K.Clean(t.k) ==> t.k.queue.started == |t.k.queue.accepted| && t.k.queue.dropped == {}
  {
    ExtendSys(steps, s, Step.Shutdown);
    var u := Apply(s, Step.Shutdown);
    more, u := AllRead(steps + [Step.Shutdown], u);
    assert u.k.stdin.fed[|s.c.lines|] == Frame.Shutdown("");
    assert P.ShutdownRead(u.k.stdin);
    assert Reachable(u);
    ReachableSys(u);
    var stops, k := P.StopPath(u.k);
    more, t := NoOutsideJoin(steps + [Step.Shutdown], u, more, stops, k);
    assert Reachable(t);
    ReachableSys(t);
    A.ReachableInv(t.k);
  }
}
