/**
 The kernel's own methods, each running from end to end without interruption: what they do is a
 path through the transition system, so every theorem about its runs covers them.  The drain loop
 of the executor terminates, whichever ready branch its selects take.
 */
module KernelActors {
  import opened Prelude
  import opened Frames
  import opened Kernel
  import I = KernelInterrupts
  import T = RequestTable

  ghost predicate LeadsTo(s: State, t: State) {
    exists steps :: Follow(s, steps) == Some(t)
  }

  lemma OneStep(s: State, t: State, a: Step)
    requires LeadsTo(s, t) && Enabled(t, a)
    ensures LeadsTo(s, Apply(t, a))
  {
    var steps :| Follow(s, steps) == Some(t);
    assert Front(steps + [a]) == steps && Last(steps + [a]) == a;
    assert Follow(s, steps + [a]) == Some(Apply(t, a));
  }

  lemma NoStep(s: State)
    ensures LeadsTo(s, s)
  {
    assert Follow(s, []) == Some(s);
  }

  /** What a method does to a reachable state leaves a reachable state. */
  lemma PathsFromReachable(s: State, t: State)
    requires Reachable(s) && LeadsTo(s, t)
    ensures Reachable(t)
  {
    var steps, path :| Reached(steps) == Some(s) && Follow(s, path) == Some(t);
    FollowJoin(INIT, steps, s, path, t);
    assert Reached(steps + path) == Some(t);
  }

  /** What one line of input puts into the work queue, the table's channel and the event stream, with
      intake closed or not. */
  function Admitted(n: nat, f: Frame, closed: bool): seq<Work> {
    if f.Request? && !closed then [Work(n, f.ask, f.id)] else []
  }

  function Commands(n: nat, f: Frame, closed: bool): seq<T.Cmd> {
    match f
    case Interrupt(id) => [T.Interrupt(id)]
    case Request(_, id) => if closed then [] else [T.Register(id, n)]
    case _ => []
  }

  function Written(f: Frame, closed: bool): seq<Event> {
    match f
    case Malformed => [ErrorEvent(None, ENAME_PROTOCOL, "")]
    case Shutdown(id) => if id == "" then [] else [DoneEvent(id, STATUS_OK)]
    case Request(_, id) =>
      if closed then [ErrorEvent(Some(id), ENAME_PROTOCOL, "shutting down"), DoneEvent(id, STATUS_ERROR)] else []
    case _ => []
  }

  class KernelProcess {
    var stdin: Stdin
    var reader: Reader
    var gate: Gate
    var queue: Queue
    var exec: Exec
    var table: TableLink
    var wire: Wire

    ghost function View(): State
      reads this
    {
      State(stdin, reader, gate, queue, exec, table, wire)
    }

    constructor ()
      ensures View() == INIT
    {
      stdin, reader, gate, queue, exec := Stdin([], 0, false), Reading, Gate(false, false, false, false), Queue([], 0, {}), Waiting;
      table, wire := TableLink([], 0, None, {}), Wire([Event(Ready, None, "", "", "", "")], map[], map[]);
    }

    /** One line of readAll, through dispatch. */
    method Dispatch()
      requires reader.Reading? && stdin.taken < |stdin.fed|
      modifies this
      ensures LeadsTo(old(View()), View()) && reader.Reading?
      ensures stdin == old(stdin).(taken := old(stdin.taken) + 1) && exec == old(exec)
      ensures var f := stdin.fed[old(stdin.taken)];
        && gate.drain == (old(gate.drain) || f.Shutdown?)
        && (|| queue.accepted == old(queue.accepted) + Admitted(old(stdin.taken), f, old(gate.drain))
            || (old(gate.root) && queue.accepted == old(queue.accepted) && old(stdin.taken) in queue.dropped))
        && table.sent == old(table.sent) + Commands(old(stdin.taken), f, old(gate.drain))
        && wire.out == old(wire.out) + Written(f, old(gate.drain))
    {
      ghost var s := View();
      NoStep(s);
      var n, f := stdin.taken, stdin.fed[stdin.taken];
      OneStep(s, s, Read(Take(f)));
      stdin := stdin.(taken := n + 1);
      match f {
        case Malformed =>
          wire := Put(wire, ErrorEvent(None, ENAME_PROTOCOL, ""));
        case Interrupt(id) =>
          table := Send(table, T.Interrupt(id));
        case HostReply(_) =>
        case Shutdown(id) =>
          if id != "" {
            wire := PutDone(wire, n, DoneEvent(id, STATUS_OK));
          }
          reader := Closing;
          BeginShutdown(s);
        case Request(ask, id) =>
          reader := if gate.drain then RefusingError(n, id) else Registering(Work(n, ask, id));
          Enqueue(s, n, ask, id);
      }
    }

    method BeginShutdown(ghost s: State)
      requires reader.Closing? && LeadsTo(s, View())
      modifies `gate, `reader
      ensures LeadsTo(s, View()) && reader.Reading? && gate == old(gate).(drain := true)
    {
      OneStep(s, View(), Read(CloseDrain));
      gate := gate.(drain := true);
      reader := Reading;
    }

    /** enqueue: refuses once intake is closed, otherwise registers first and queues then; when the root
        context has ended too, its select may give the request up. */
    method Enqueue(ghost s: State, n: nat, ask: Ask, id: Id)
      requires LeadsTo(s, View())
      requires reader == if gate.drain then RefusingError(n, id) else Registering(Work(n, ask, id))
      modifies `reader, `queue, `table, `wire
      ensures LeadsTo(s, View()) && reader.Reading?
      ensures queue.started == old(queue.started)
      ensures
        || (queue.accepted == old(queue.accepted) + Admitted(n, Request(ask, id), gate.drain) && queue.dropped == old(queue.dropped))
        || (gate.root && !gate.drain && queue.accepted == old(queue.accepted) && queue.dropped == old(queue.dropped) + {n})
      ensures table.sent == old(table.sent) + Commands(n, Request(ask, id), gate.drain)
      ensures wire.out == old(wire.out) + Written(Request(ask, id), gate.drain)
    {
      if gate.drain {
        OneStep(s, View(), Read(RefuseError));
        wire := Put(wire, ErrorEvent(Some(id), ENAME_PROTOCOL, "shutting down"));
        reader := RefusingDone(n, id);
        OneStep(s, View(), Read(RefuseDone));
        wire := PutDone(wire, n, DoneEvent(id, STATUS_ERROR));
      } else {
        var w := Work(n, ask, id);
        OneStep(s, View(), Read(Register));
        table := Send(table, T.Register(id, n));
        reader := Queueing(w);
        var rootFirst: bool := *;
        if gate.root && rootFirst {
          OneStep(s, View(), Read(Abandon));
          queue := queue.(dropped := queue.dropped + {n});
        } else {
          OneStep(s, View(), Read(ReadStep.Enqueue));
          queue := queue.(accepted := queue.accepted + [w]);
        }
      }
      reader := Reading;
    }

    /** runRequest, for a request whose cell emits `script`. */
    method RunRequest(script: seq<Event>)
      requires (exec.Waiting? || exec.Draining?) && queue.started < |queue.accepted|
      requires Script(queue.accepted[queue.started], script) && I.Answering(exec, table)
      modifies `exec, `queue, `table, `wire
      ensures LeadsTo(old(View()), View())
      ensures exec == Waiting && queue == old(queue).(started := old(queue.started) + 1)
      ensures wire.out == old(wire.out) + script && I.Answering(exec, table)
    {
      ghost var s := View();
      NoStep(s);
      var w := queue.accepted[queue.started];
      I.AnsweringStep(s, Run(Start));
      OneStep(s, s, Run(Start));
      exec, queue, table := Activating(w), queue.(started := queue.started + 1), Send(table, T.Activate(w.id));
      while table.reply.None?
        invariant exec == Activating(w) && LeadsTo(s, View()) && I.Answering(exec, table)
        invariant wire == s.wire && queue == s.queue.(started := s.queue.started + 1)
        decreases |table.sent| - table.handled
      {
        I.AnsweringStep(View(), TableGo);
        OneStep(s, View(), TableGo);
        table := Receive(table);
      }
      I.AnsweringStep(View(), Run(Reply(script)));
      OneStep(s, View(), Run(Reply(script)));
      exec, table := Running(w, script, 0), Deliver(table);
      Perform(s, w, script);
      I.AnsweringStep(View(), Run(Finish));
      OneStep(s, View(), Run(Finish));
      exec, table := Waiting, Send(table, T.Deactivate(w.id));
    }

    /** The events of the running request, one after the other. */
    method Perform(ghost s: State, w: Work, script: seq<Event>)
      requires exec == Running(w, script, 0) && LeadsTo(s, View())
      modifies `exec, `wire
      ensures exec == Running(w, script, |script|) && LeadsTo(s, View())
      ensures wire.out == old(wire.out) + script
    {
      var at := 0;
      while at < |script|
        invariant at <= |script| && exec == Running(w, script, at) && LeadsTo(s, View())
        invariant wire.out == old(wire.out) + script[..at]
      {
        OneStep(s, View(), Run(Emit));
        var e := script[at];
        assert script[..at + 1] == script[..at] + [e];
        if e.kind == Done {
          wire := PutDone(wire, w.n, e);
        } else {
          wire := Put(wire, e);
        }
        at := at + 1;
        exec := Running(w, script, at);
      }
      assert script[..|script|] == script;
    }

    /** executor, once intake is closed: each turn of its loop takes whichever ready branch it
        likes, that of the root context included when it has ended.  The loop ends, and has run the
        queued requests in order, all of them unless the root context has ended. */
    method Executor(cells: Work -> seq<Event>)
      requires exec.Waiting? && gate.drain
      requires queue.started <= |queue.accepted| && I.Answering(exec, table)
      requires forall w :: Script(w, cells(w))
      modifies `exec, `queue, `table, `wire
      ensures LeadsTo(old(View()), View())
      ensures exec.Exited? && old(queue.started) <= queue.started <= |queue.accepted|
      ensures queue == old(queue).(started := queue.started)
      ensures !gate.root ==> queue.started == |queue.accepted|
      ensures wire.out == old(wire.out) + Collect(queue.accepted[old(queue.started)..queue.started], cells)
    {
      ghost var s := View();
      NoStep(s);
      assert queue.accepted[queue.started..queue.started] == [];
      while !exec.Exited?
        invariant exec.Waiting? || exec.Draining? || exec.Exited?
        invariant Drains(s, View(), cells) && I.Answering(exec, table)
        invariant exec.Exited? ==> gate.root || queue.started == |queue.accepted|
        decreases |queue.accepted| - queue.started, if exec.Waiting? then 2 else if exec.Draining? then 1 else 0
      {
        ghost var t := View();
        Turn(cells);
        if exec.Waiting? {
          RanOneMore(s, t, View(), cells);
        } else {
          Joined(s, t, View());
        }
      }
    }

    /** One turn of executor's loop, before the drain too: when no branch is ready it waits, and otherwise
        takes whichever ready branch it likes. */
    method Turn(cells: Work -> seq<Event>)
      requires exec.Draining? || (exec.Waiting? && (queue.started < |queue.accepted| || gate.drain || gate.root))
      requires queue.started <= |queue.accepted| && I.Answering(exec, table)
      requires forall w :: Script(w, cells(w))
      modifies `exec, `queue, `table, `wire
      ensures LeadsTo(old(View()), View()) && I.Answering(exec, table)
      ensures match exec
        case Waiting =>
          && old(queue.started) < |queue.accepted| && queue == old(queue).(started := old(queue.started) + 1)
          && wire.out == old(wire.out) + cells(queue.accepted[old(queue.started)])
        case Draining => old(exec).Waiting? && gate.drain && queue == old(queue) && wire == old(wire)
        case Exited =>
          && queue == old(queue) && wire == old(wire)
          && ((old(exec).Waiting? && gate.root) || (old(exec).Draining? && queue.started == |queue.accepted|))
        case _ => false
    {
      ghost var s := View();
      NoStep(s);
      var rootFirst: bool, drainFirst: bool := *, *;
      var queued := queue.started < |queue.accepted|;
      if exec.Draining? && !queued {
        OneStep(s, s, Run(Leave));
        exec := Exited;
      } else if exec.Waiting? && gate.root && (rootFirst || (!queued && !gate.drain)) {
        OneStep(s, s, Run(Stop));
        exec := Exited;
      } else if exec.Waiting? && gate.drain && (drainFirst || !queued) {
        OneStep(s, s, Run(PickDrain));
        exec := Draining;
      } else {
        RunRequest(cells(queue.accepted[queue.started]));
      }
    }
  }

  /** Since s the executor has run the requests queued[s.started..t.started], and nothing else
      has been written. */
  ghost predicate Drains(s: State, t: State, cells: Work -> seq<Event>) {
    && LeadsTo(s, t)
    && s.queue.started <= t.queue.started <= |s.queue.accepted|
    && t.queue == s.queue.(started := t.queue.started)
    && t.wire.out == s.wire.out + Collect(s.queue.accepted[s.queue.started..t.queue.started], cells)
  }

  lemma RanOneMore(s: State, t: State, u: State, cells: Work -> seq<Event>)
    requires Drains(s, t, cells) && LeadsTo(t, u) && t.queue.started < |s.queue.accepted|
    requires u.queue == t.queue.(started := t.queue.started + 1)
    requires u.wire.out == t.wire.out + cells(t.queue.accepted[t.queue.started])
    ensures Drains(s, u, cells)
  {
    Joined(s, t, u);
    CollectOneMore(s.wire.out, s.queue.accepted, s.queue.started, t.queue.started, cells);
  }

  lemma CollectOneMore(out: seq<Event>, ws: seq<Work>, from: nat, n: nat, cells: Work -> seq<Event>)
    requires from <= n < |ws|
    ensures out + Collect(ws[from..n + 1], cells) == out + Collect(ws[from..n], cells) + cells(ws[n])
  {
    assert ws[from..n + 1] == ws[from..n] + [ws[n]];
    CollectSnoc(ws[from..n], ws[n], cells);
    Joins(out, Collect(ws[from..n], cells), cells(ws[n]));
  }

  lemma Joined(s: State, t: State, u: State)
    requires LeadsTo(s, t) && LeadsTo(t, u)
    ensures LeadsTo(s, u)
  {
    var path, more :| Follow(s, path) == Some(t) && Follow(t, more) == Some(u);
    FollowJoin(s, path, t, more, u);
  }
}
