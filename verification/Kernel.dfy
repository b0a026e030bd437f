/**
 The kernel as a transition system (rlm/repl.go, rlm/dispatch.go, rlm/executor.go).
 The reader, the executor, the table actor, the goroutine of `Run`, the one started by
 `beginShutdown` and the goroutines of cells take turns in any order, one channel
 operation a step.  A channel is the sequence of everything ever put into it and a count
 of what has been received: `fed`/`taken` on stdin, `accepted`/`started` in the work queue,
 `sent`/`handled` in the table's channel; `out` is what the writer was handed.
 */
module Kernel {
  import opened Prelude
  import opened Frames
  import T = RequestTable

  /** A queued request: its position on stdin, which also names its context, and its frame. */
  datatype Work = Work(n: nat, ask: Ask, id: Id)

  datatype Reader =
    | Reading
    | Registering(w: Work)            // enqueue saw intake open
    | Queueing(w: Work)               // the table has been sent the register command
    | RefusingError(n: nat, id: Id)   // enqueue saw intake closed
    | RefusingDone(n: nat, id: Id)
    | Closing                         // shutdown frame, about to close the drain channel
    | Ended                           // end of input

  datatype Exec =
    | Waiting                                           // in the outer select
    | Draining                                          // the outer select took the drain branch
    | Activating(w: Work)
    | Running(w: Work, script: seq<Event>, at: nat)     // script[at..] is still to be emitted
    | Exited

  datatype Stdin = Stdin(fed: seq<Frame>, taken: nat, eof: bool)

  /** `cut` records that an outside cancellation closed the drain channel while enqueue stood between
      its check and its send, `late` that the grace expired before the executor had exited. */
  datatype Gate = Gate(drain: bool, root: bool, cut: bool, late: bool)

  /** `dropped` are the positions of the requests that enqueue gave up. */
  datatype Queue = Queue(accepted: seq<Work>, started: nat, dropped: set<nat>)

  /** `byExec` are the contexts the executor cancelled for a parked interrupt. */
  datatype TableLink = TableLink(sent: seq<T.Cmd>, handled: nat, reply: Option<T.Reply>, byExec: set<T.Ctx>)

  /** `doneAt` and `owner` tie a request, by its position on stdin, to the position in `out` of
      the done event emitted for it. */
  datatype Wire = Wire(out: seq<Event>, doneAt: map<nat, nat>, owner: map<nat, nat>)

  datatype State = State(
    stdin: Stdin, reader: Reader, gate: Gate, queue: Queue, exec: Exec, table: TableLink, wire: Wire)

  const INIT := State(
    Stdin([], 0, false), Reading, Gate(false, false, false, false), Queue([], 0, {}), Waiting,
    TableLink([], 0, None, {}), Wire([Event(Ready, None, "", "", "", "")], map[], map[]))

  datatype Step =
    | Outside(o: OutsideStep)
    | Read(r: ReadStep)
    | Run(x: ExecStep)
    | TableGo

  datatype OutsideStep =
    | Feed(f: Frame)          // a line arrives on stdin
    | CloseInput
    | MainEof                 // beginShutdown, called by Run when the reader has ended
    | OuterCancel             // beginShutdown, called by Run when its context ends
    | StopAfterExit           // beginShutdown's goroutine sees the executor exit
    | GraceExpiry
    | Background(e: Event)    // a goroutine left behind by a cell, or a host call

  datatype ReadStep =
    | Take(f: Frame)          // readAll hands the next line to dispatch
    | Register                // enqueue, operation by operation
    | Enqueue
    | Abandon                 // enqueue's select takes the root context's branch
    | RefuseError
    | RefuseDone
    | CloseDrain              // beginShutdown, called by dispatch
    | EndOfInput              // at the end of stdin, or at a line that does not fit the scanner

  datatype ExecStep =
    | Start                   // either select receives from the queue
    | PickDrain               // the outer select takes the drain branch
    | Leave                   // the inner select finds the queue empty
    | Stop                    // the outer select takes the root context's branch
    | Reply(script: seq<Event>)
    | Emit
    | Finish

  /** What a request may emit: an uninterpreted run of its cell, then the outcome (runCell),
      or the one or two events of the other request types (runRequest). */
  ghost predicate Script(w: Work, evs: seq<Event>) {
    match w.ask
    case Execute =>
      exists n :: 0 <= n <= |evs| && (forall i :: 0 <= i < n ==> FromCell(evs[i], w.id)) && Outcome(evs[n..], w.id)
    case ListNames => evs == [DoneEvent(w.id, STATUS_OK)]
    case Snapshot => evs == [DoneEvent(w.id, STATUS_OK)] || evs == [DoneEvent(w.id, STATUS_ERROR)]
    case Restore => evs == [DoneEvent(w.id, STATUS_OK)] || evs == [DoneEvent(w.id, STATUS_ERROR)]
    case Unknown(name) =>
      evs == [ErrorEvent(Some(w.id), ENAME_PROTOCOL, "unknown request type " + name), DoneEvent(w.id, STATUS_ERROR)]
  }

  /** Attributed output, or a host request, which carries its own fresh id. */
  predicate FromCell(e: Event, id: Id) {
    e.kind == HostRequest || (e.kind == Stdout && e.id == Some(id))
  }

  predicate Outcome(evs: seq<Event>, id: Id) {
    || evs == [DoneEvent(id, STATUS_OK)]
    || (|evs| == 2 && evs[0].kind == Result && evs[0].id == Some(id) && evs[1] == DoneEvent(id, STATUS_OK))
    || (|evs| == 2 && evs[0].kind == Error && evs[0].id == Some(id) && evs[1] == DoneEvent(id, STATUS_ERROR))
  }

  // ----- Steps -----------------------------------------------------------------------------

  function Put(w: Wire, e: Event): Wire {
    w.(out := w.out + [e])
  }

  /** The done event of the request at position n is written. */
  function PutDone(w: Wire, n: nat, e: Event): Wire {
    Wire(w.out + [e], w.doneAt[n := |w.out|], w.owner[|w.out| := n])
  }

  function Send(t: TableLink, c: T.Cmd): TableLink {
    t.(sent := t.sent + [c])
  }

  ghost predicate OutsideEnabled(s: State, o: OutsideStep) {
    match o
    case Feed(_) => !s.stdin.eof
    case CloseInput => true
    case MainEof => s.reader.Ended?
    case OuterCancel => true
    case StopAfterExit => s.gate.drain && s.exec.Exited?
    case GraceExpiry => s.gate.drain
    case Background(e) => e.kind == HostRequest || (e.kind == Stdout && FromStarted(s.queue, e))
  }

  ghost predicate FromStarted(q: Queue, e: Event) {
    exists i :: 0 <= i < q.started && i < |q.accepted| && e.id == Some(q.accepted[i].id)
  }

  /** enqueue has found intake open and has not queued the request yet. */
  predicate InEnqueue(r: Reader) {
    r.Registering? || r.Queueing?
  }

  function OutsideApply(s: State, o: OutsideStep): State {
    match o
    case Feed(f) => s.(stdin := s.stdin.(fed := s.stdin.fed + [f]))
    case CloseInput => s.(stdin := s.stdin.(eof := true))
    case MainEof => s.(gate := s.gate.(drain := true))
    case OuterCancel => s.(gate := s.gate.(drain := true, cut := s.gate.cut || (!s.gate.drain && InEnqueue(s.reader))))
    case StopAfterExit => s.(gate := s.gate.(root := true))
    case GraceExpiry => s.(gate := s.gate.(root := true, late := s.gate.late || !s.exec.Exited?))
    case Background(e) => s.(wire := Put(s.wire, e))
  }

  predicate ReadEnabled(s: State, r: ReadStep) {
    match r
    case Take(f) => s.reader.Reading? && s.stdin.taken < |s.stdin.fed| && f == s.stdin.fed[s.stdin.taken]
    case Register => s.reader.Registering?
    case Enqueue => s.reader.Queueing?
    case Abandon => s.reader.Queueing? && s.gate.root
    case RefuseError => s.reader.RefusingError?
    case RefuseDone => s.reader.RefusingDone?
    case CloseDrain => s.reader.Closing?
    case EndOfInput => s.reader.Reading?
  }

  /** dispatch, up to the first operation that is left for a later step. */
  function Dispatch(s: State, n: nat, f: Frame): State {
    match f
    case Malformed => s.(wire := Put(s.wire, ErrorEvent(None, ENAME_PROTOCOL, "")))
    case Interrupt(id) => s.(table := Send(s.table, T.Interrupt(id)))
    case HostReply(_) => s
    case Shutdown(id) =>
      s.(reader := Closing, wire := if id == "" then s.wire else PutDone(s.wire, n, DoneEvent(id, STATUS_OK)))
    case Request(ask, id) =>
      s.(reader := if s.gate.drain then RefusingError(n, id) else Registering(Work(n, ask, id)))
  }

  function ReadApply(s: State, r: ReadStep): State
    requires ReadEnabled(s, r)
  {
    match r
    case Take(f) => Dispatch(s.(stdin := s.stdin.(taken := s.stdin.taken + 1)), s.stdin.taken, f)
    case Register =>
      s.(reader := Queueing(s.reader.w), table := Send(s.table, T.Register(s.reader.w.id, s.reader.w.n)))
    case Enqueue => s.(reader := Reading, queue := s.queue.(accepted := s.queue.accepted + [s.reader.w]))
    case Abandon => s.(reader := Reading, queue := s.queue.(dropped := s.queue.dropped + {s.reader.w.n}))
    case RefuseError =>
      s.(reader := RefusingDone(s.reader.n, s.reader.id),
         wire := Put(s.wire, ErrorEvent(Some(s.reader.id), ENAME_PROTOCOL, "shutting down")))
    case RefuseDone =>
      s.(reader := Reading, wire := PutDone(s.wire, s.reader.n, DoneEvent(s.reader.id, STATUS_ERROR)))
    case CloseDrain => s.(reader := Reading, gate := s.gate.(drain := true))
    case EndOfInput => s.(reader := Ended)
  }

  ghost predicate ExecEnabled(s: State, x: ExecStep) {
    match x
    case Start => (s.exec.Waiting? || s.exec.Draining?) && s.queue.started < |s.queue.accepted|
    case PickDrain => s.exec.Waiting? && s.gate.drain
    case Leave => s.exec.Draining? && s.queue.started == |s.queue.accepted|
    case Stop => s.exec.Waiting? && s.gate.root
    case Reply(script) => s.exec.Activating? && s.table.reply.Some? && Script(s.exec.w, script)
    case Emit => s.exec.Running? && s.exec.at < |s.exec.script|
    case Finish => s.exec.Running? && s.exec.at == |s.exec.script|
  }

  ghost function ExecApply(s: State, x: ExecStep): State
    requires ExecEnabled(s, x)
  {
    match x
    case Start =>
      var w := s.queue.accepted[s.queue.started];
      s.(exec := Activating(w), queue := s.queue.(started := s.queue.started + 1),
         table := Send(s.table, T.Activate(w.id)))
    case PickDrain => s.(exec := Draining)
    case Leave => s.(exec := Exited)
    case Stop => s.(exec := Exited)
    case Reply(script) =>
      s.(exec := Running(s.exec.w, script, 0), table := Deliver(s.table))
    case Emit =>
      var e := s.exec.script[s.exec.at];
      s.(exec := Running(s.exec.w, s.exec.script, s.exec.at + 1),
         wire := if e.kind == Done then PutDone(s.wire, s.exec.w.n, e) else Put(s.wire, e))
    case Finish => s.(exec := Waiting, table := Send(s.table, T.Deactivate(s.exec.w.id)))
  }

  /** runRequest receives the table's answer, and cancels the context of a request whose
      interrupt was parked. */
  function Deliver(t: TableLink): TableLink
    requires t.reply.Some?
  {
    var r := t.reply.value;
    t.(reply := None, byExec := if r.parked && r.cancel.Some? then t.byExec + {r.cancel.value} else t.byExec)
  }

  /** The commands the table has received. */
  function Processed(t: TableLink): seq<T.Cmd> {
    if t.handled <= |t.sent| then t.sent[..t.handled] else t.sent
  }

  /** The table actor receives a command; an activate command is answered. */
  function Receive(t: TableLink): TableLink
    requires t.handled < |t.sent|
  {
    var c := t.sent[t.handled];
    t.(handled := t.handled + 1,
       reply := if c.Activate? then Some(T.Answer(T.After(Processed(t)), c.id)) else t.reply)
  }

  ghost predicate Enabled(s: State, a: Step) {
    match a
    case Outside(o) => OutsideEnabled(s, o)
    case Read(r) => ReadEnabled(s, r)
    case Run(x) => ExecEnabled(s, x)
    case TableGo => s.table.handled < |s.table.sent|
  }

  ghost function Apply(s: State, a: Step): State
    requires Enabled(s, a)
  {
    match a
    case Outside(o) => OutsideApply(s, o)
    case Read(r) => ReadApply(s, r)
    case Run(x) => ExecApply(s, x)
    case TableGo => s.(table := Receive(s.table))
  }

  /** Where a sequence of steps leads from s, if each is enabled where it is taken. */
  ghost function Follow(s: State, steps: seq<Step>): Option<State> {
    if steps == [] then Some(s)
    else match Follow(s, Front(steps))
      case None => None
      case Some(t) => if Enabled(t, Last(steps)) then Some(Apply(t, Last(steps))) else None
  }

  /** The runs of the kernel. */
  ghost function Reached(steps: seq<Step>): Option<State> {
    Follow(INIT, steps)
  }

  ghost predicate Reachable(s: State) {
    exists steps :: Reached(steps) == Some(s)
  }

  lemma {:induction false} FollowJoin(s: State, path: seq<Step>, t: State, more: seq<Step>, u: State)
    requires Follow(s, path) == Some(t) && Follow(t, more) == Some(u)
    ensures Follow(s, path + more) == Some(u)
    decreases |more|
  {
    if more == [] {
      assert path + more == path;
    } else {
      assert Front(path + more) == path + Front(more) && Last(path + more) == Last(more);
      FollowJoin(s, path, t, Front(more), Follow(t, Front(more)).value);
    }
  }

  /** Whatever began the shutdown, if anything did, it did not find enqueue between its check and its
      send, and the executor has had the time it needed. */
  predicate Clean(s: State) {
    !s.gate.cut && !s.gate.late
  }

  /** A step that ends a clean run: a cancellation that closes the drain channel under enqueue, or the
      expiry of the grace before the executor has exited. */
  predicate Harms(s: State, a: Step) {
    || (a == Outside(OuterCancel) && !s.gate.drain && InEnqueue(s.reader))
    || (a == Outside(GraceExpiry) && !s.exec.Exited?)
  }

  ghost predicate HarmedAt(s: State, steps: seq<Step>, k: nat) {
    k < |steps| && Follow(s, steps[..k]).Some? && Harms(Follow(s, steps[..k]).value, steps[k])
  }

  /** A run is clean if and only if none of its steps is one of those. */
  lemma {:induction false} CleanIff(steps: seq<Step>, s: State)
    requires Reached(steps) == Some(s)
    ensures Clean(s) <==> forall k :: !HarmedAt(INIT, steps, k)
  {
    if steps == [] {
    } else {
      var p, a := Front(steps), Last(steps);
      CleanIff(p, Reached(p).value);
      CleanStep(Reached(p).value, a);
      assert steps[..|p|] == p;
      assert HarmedAt(INIT, steps, |p|) <==> Harms(Reached(p).value, a);
      forall k: nat | k < |p| ensures HarmedAt(INIT, steps, k) <==> HarmedAt(INIT, p, k) {
        assert steps[..k] == p[..k];
      }
    }
  }

  lemma CleanStep(s: State, a: Step)
    requires Enabled(s, a)
    ensures Clean(Apply(s, a)) <==> Clean(s) && !Harms(s, a)
  {
  }
}
