/**
 Which done event answers which request: an invariant of every run of the kernel, with no
 assumption on ids, cancellation or timing, and what it says when the executor exits.
 */
module KernelAccounts {
  import opened Prelude
  import opened Frames
  import opened Kernel

  /** The frames that are owed a done event: requests, and shutdowns that carry an id. */
  predicate Asks(f: Frame) {
    f.Request? || (f.Shutdown? && f.id != "")
  }

  /** The executor holds a request whose done event is still to come. */
  predicate Owing(x: Exec) {
    x.Activating? || (x.Running? && x.at < |x.script|)
  }

  /** The reader holds the request it took last. */
  predicate Holding(r: Reader) {
    r.Registering? || r.Queueing? || r.RefusingError? || r.RefusingDone?
  }

  // ----- Shape ----------------------------------------------------------------------------

  /** A script ends in the request's one done event, and everything else in it is the request's. */
  ghost predicate OneDone(w: Work, script: seq<Event>) {
    && script != []
    && Last(script).kind == Done && Last(script).id == Some(w.id)
    && (forall i :: 0 <= i < |script| - 1 ==> script[i].kind != Done)
    && (forall i :: 0 <= i < |script| ==> script[i].kind == HostRequest || script[i].id == Some(w.id))
  }

  lemma ScriptHasOneDone(w: Work, evs: seq<Event>)
    requires Script(w, evs)
    ensures OneDone(w, evs)
  {
    if w.ask == Execute {
      var n :| 0 <= n <= |evs| && (forall i :: 0 <= i < n ==> FromCell(evs[i], w.id)) && Outcome(evs[n..], w.id);
      SplitHasOneDone(w, evs, n);
    }
  }

  lemma SplitHasOneDone(w: Work, evs: seq<Event>, n: nat)
    requires n <= |evs| && (forall i :: 0 <= i < n ==> FromCell(evs[i], w.id)) && Outcome(evs[n..], w.id)
    ensures OneDone(w, evs)
  {
    CellHasOneDone(w, evs[..n], evs[n..]);
    assert evs == evs[..n] + evs[n..];
  }

  lemma CellHasOneDone(w: Work, cell: seq<Event>, end: seq<Event>)
    requires (forall i :: 0 <= i < |cell| ==> FromCell(cell[i], w.id)) && Outcome(end, w.id)
    ensures OneDone(w, cell + end)
  {
    assert Last(cell + end) == Last(end);
  }

  predicate WorkOf(i: Stdin, w: Work) {
    w.n < i.taken <= |i.fed| && i.fed[w.n] == Request(w.ask, w.id)
  }

  ghost predicate ReaderShape(i: Stdin, r: Reader) {
    && i.taken <= |i.fed|
    && match r
       case Registering(w) => WorkOf(i, w) && w.n == i.taken - 1
       case Queueing(w) => WorkOf(i, w) && w.n == i.taken - 1
       case RefusingError(n, id) => n == i.taken - 1 && i.fed[n].Request? && i.fed[n].id == id
       case RefusingDone(n, id) => n == i.taken - 1 && i.fed[n].Request? && i.fed[n].id == id
       case _ => true
  }

  ghost predicate ExecShape(q: Queue, x: Exec) {
    && q.started <= |q.accepted|
    && match x
       case Activating(w) => q.started > 0 && q.accepted[q.started - 1] == w
       case Running(w, script, at) =>
         q.started > 0 && q.accepted[q.started - 1] == w && OneDone(w, script) && at <= |script|
       case _ => true
  }

  /** Requests are queued in the order of the input, each one once. */
  ghost predicate InLine(i: Stdin, r: Reader, q: Queue) {
    && (forall k :: 0 <= k < |q.accepted| ==> WorkOf(i, q.accepted[k]))
    && (forall k, m :: 0 <= k < m < |q.accepted| ==> q.accepted[k].n < q.accepted[m].n)
    && (Holding(r) ==> forall k :: 0 <= k < |q.accepted| ==> q.accepted[k].n < i.taken - 1)
  }

  // ----- Done events -------------------------------------------------------------------------

  /** `doneAt` and `owner` are inverse, and `owner` covers exactly the done events. */
  ghost predicate Tied(i: Stdin, w: Wire) {
    && i.taken <= |i.fed|
    && (forall n :: n in w.doneAt ==>
          n < i.taken && Asks(i.fed[n]) && w.doneAt[n] in w.owner && w.owner[w.doneAt[n]] == n)
    && (forall k :: k in w.owner ==>
          && k < |w.out| && w.out[k].kind == Done
          && w.owner[k] in w.doneAt && w.doneAt[w.owner[k]] == k
          && w.out[k].id == Some(i.fed[w.owner[k]].id))
    && (forall k :: 0 <= k < |w.out| && w.out[k].kind == Done ==> k in w.owner)
  }

  /** Nothing still in line has been answered; everything the executor is through with has. */
  ghost predicate Pending(i: Stdin, r: Reader, q: Queue, x: Exec, w: Wire) {
    && (forall k :: 0 <= k < |q.accepted| ==>
          (q.accepted[k].n in w.doneAt <==> k < q.started && (k < q.started - 1 || !Owing(x))))
    && (Holding(r) ==> i.taken - 1 !in w.doneAt)
    && (forall n :: n in w.doneAt ==> n < i.taken)
  }

  /** The executor answers in the order of the input. */
  ghost predicate Ordered(q: Queue, w: Wire) {
    && (forall n :: n in w.doneAt ==> w.doneAt[n] < |w.out|)
    && forall k, m :: 0 <= k < m < |q.accepted| && q.accepted[k].n in w.doneAt && q.accepted[m].n in w.doneAt ==>
         w.doneAt[q.accepted[k].n] < w.doneAt[q.accepted[m].n]
  }

  /** A clean shutdown leaves nothing behind: nothing is queued once the drain channel
      is closed, and the executor leaves only by the drain branch, with the queue empty. */
  ghost predicate Drained(r: Reader, g: Gate, q: Queue, x: Exec) {
    !g.cut && !g.late ==>
      && (g.drain ==> !r.Registering? && !r.Queueing?)
      && (x.Draining? ==> g.drain)
      && (x.Exited? ==> g.drain && q.started == |q.accepted|)
      && (g.root ==> x.Exited?)
  }

  /** Every request taken from the input is answered, in line, in the reader's hands, or was given up. */
  ghost predicate Covered(i: Stdin, r: Reader, q: Queue, w: Wire) {
    i.taken <= |i.fed| ==>
      forall n :: 0 <= n < i.taken && Asks(i.fed[n]) ==>
        n in w.doneAt || (Holding(r) && n == i.taken - 1) || InQueue(q, n) || n in q.dropped
  }

  /** A request given up is none of the rest, and in a clean run there is none. */
  ghost predicate GivenUp(i: Stdin, r: Reader, g: Gate, q: Queue, w: Wire) {
    && (!g.cut && !g.late ==> q.dropped == {})
    && forall n :: n in q.dropped ==>
         n < i.taken && n !in w.doneAt && !(Holding(r) && n == i.taken - 1) && !InQueue(q, n)
  }

  ghost predicate InQueue(q: Queue, n: nat) {
    exists k :: 0 <= k < |q.accepted| && q.accepted[k].n == n
  }

  ghost predicate Shape(s: State) {
    && ReaderShape(s.stdin, s.reader) && ExecShape(s.queue, s.exec) && InLine(s.stdin, s.reader, s.queue)
    && s.table.handled <= |s.table.sent|
  }

  ghost predicate Dones(s: State) {
    Tied(s.stdin, s.wire) && Pending(s.stdin, s.reader, s.queue, s.exec, s.wire) && Ordered(s.queue, s.wire)
  }

  lemma ReadShape(s: State, r: ReadStep)
    requires ReadEnabled(s, r) && Shape(s)
    ensures Shape(ReadApply(s, r))
  {
    match r
    case Take(f) => TakeShape(s, f);
    case Enqueue =>
      assert InLine(ReadApply(s, r).stdin, ReadApply(s, r).reader, ReadApply(s, r).queue);
    case _ =>
  }

  lemma TakeShape(s: State, f: Frame)
    requires ReadEnabled(s, Take(f)) && Shape(s)
    ensures Shape(ReadApply(s, Take(f)))
  {
    var t := ReadApply(s, Take(f));
    assert forall w :: WorkOf(s.stdin, w) ==> WorkOf(t.stdin, w);
    assert t.stdin.fed[t.stdin.taken - 1] == f;
  }

  lemma ExecKeepsShape(s: State, x: ExecStep)
    requires ExecEnabled(s, x) && Shape(s)
    ensures Shape(ExecApply(s, x))
  {
    if x.Reply? {
      ScriptHasOneDone(s.exec.w, x.script);
    }
  }

  lemma OutsideShape(s: State, o: OutsideStep)
    requires OutsideEnabled(s, o) && Shape(s)
    ensures Shape(OutsideApply(s, o))
  {
  }

  // ----- One more event --------------------------------------------------------------------

  lemma PutTied(i: Stdin, w: Wire, e: Event)
    requires Tied(i, w) && e.kind != Done
    ensures Tied(i, Put(w, e))
  {
  }

  lemma AnswerTied(i: Stdin, w: Wire, n: nat, e: Event)
    requires Tied(i, w) && n < i.taken && n !in w.doneAt && Asks(i.fed[n])
    requires e.kind == Done && e.id == Some(i.fed[n].id)
    ensures Tied(i, PutDone(w, n, e))
  {
  }

  /** The executor answers the request it holds, which is the last one started. */
  lemma AnswerOrdered(q: Queue, w: Wire, e: Event)
    requires Ordered(q, w) && 0 < q.started <= |q.accepted|
    requires forall k, m :: 0 <= k < m < |q.accepted| ==> q.accepted[k].n < q.accepted[m].n
    requires forall k :: q.started <= k < |q.accepted| ==> q.accepted[k].n !in w.doneAt
    ensures Ordered(q, PutDone(w, q.accepted[q.started - 1].n, e))
  {
  }

  /** The reader answers a request that was never queued. */
  lemma ReaderAnswerOrdered(q: Queue, w: Wire, n: nat, e: Event)
    requires Ordered(q, w) && forall k :: 0 <= k < |q.accepted| ==> q.accepted[k].n != n
    ensures Ordered(q, PutDone(w, n, e))
  {
  }

  // ----- Steps ---------------------------------------------------------------------------------

  lemma ReadTied(s: State, r: ReadStep)
    requires ReadEnabled(s, r) && ReaderShape(s.stdin, s.reader) && Tied(s.stdin, s.wire)
    requires Holding(s.reader) ==> s.stdin.taken - 1 !in s.wire.doneAt
    ensures Tied(ReadApply(s, r).stdin, ReadApply(s, r).wire)
  {
    match r
    case Take(f) =>
      var i := ReadApply(s, r).stdin;
      assert Tied(i, s.wire);
      match f {
        case Malformed => PutTied(i, s.wire, ErrorEvent(None, ENAME_PROTOCOL, ""));
        case Shutdown(id) =>
          if id != "" {
            AnswerTied(i, s.wire, s.stdin.taken, DoneEvent(id, STATUS_OK));
          }
        case _ =>
      }
    case RefuseError => PutTied(s.stdin, s.wire, ErrorEvent(Some(s.reader.id), ENAME_PROTOCOL, "shutting down"));
    case RefuseDone => AnswerTied(s.stdin, s.wire, s.reader.n, DoneEvent(s.reader.id, STATUS_ERROR));
    case _ =>
  }

  lemma ReadPending(s: State, r: ReadStep)
    requires ReadEnabled(s, r) && Shape(s) && Pending(s.stdin, s.reader, s.queue, s.exec, s.wire)
    ensures var t := ReadApply(s, r); Pending(t.stdin, t.reader, t.queue, t.exec, t.wire)
  {
  }

  lemma ReadOrdered(s: State, r: ReadStep)
    requires ReadEnabled(s, r) && Shape(s) && Ordered(s.queue, s.wire)
    requires Holding(s.reader) ==> s.stdin.taken - 1 !in s.wire.doneAt
    ensures Ordered(ReadApply(s, r).queue, ReadApply(s, r).wire)
  {
    match r
    case Take(f) =>
      if f.Shutdown? && f.id != "" {
        ReaderAnswerOrdered(s.queue, s.wire, s.stdin.taken, DoneEvent(f.id, STATUS_OK));
      }
    case RefuseDone => ReaderAnswerOrdered(s.queue, s.wire, s.reader.n, DoneEvent(s.reader.id, STATUS_ERROR));
    case _ =>
  }

  lemma EmitDones(s: State)
    requires ExecEnabled(s, Emit) && Shape(s) && Dones(s)
    ensures Dones(ExecApply(s, Emit))
  {
    var e := s.exec.script[s.exec.at];
    EmitPending(s);
    if e.kind == Done {
      AnswerTied(s.stdin, s.wire, s.exec.w.n, e);
      AnswerOrdered(s.queue, s.wire, e);
    } else {
      PutTied(s.stdin, s.wire, e);
    }
  }

  lemma EmitPending(s: State)
    requires ExecEnabled(s, Emit) && Shape(s) && Pending(s.stdin, s.reader, s.queue, s.exec, s.wire)
    ensures var t := ExecApply(s, Emit); Pending(t.stdin, t.reader, t.queue, t.exec, t.wire)
  {
    var e, last := s.exec.script[s.exec.at], s.queue.started - 1;
    assert e.kind == Done <==> s.exec.at == |s.exec.script| - 1;
    assert s.queue.accepted[last].n == s.exec.w.n;
    assert forall k :: 0 <= k < |s.queue.accepted| && k != last ==> s.queue.accepted[k].n != s.exec.w.n;
  }

  lemma ExecDones(s: State, x: ExecStep)
    requires ExecEnabled(s, x) && Shape(s) && Dones(s)
    ensures Dones(ExecApply(s, x))
  {
    if x.Emit? {
      EmitDones(s);
    } else {
      ExecPending(s, x);
      assert ExecApply(s, x).wire == s.wire && ExecApply(s, x).queue.accepted == s.queue.accepted;
    }
  }

  lemma ExecPending(s: State, x: ExecStep)
    requires ExecEnabled(s, x) && !x.Emit? && Shape(s) && Pending(s.stdin, s.reader, s.queue, s.exec, s.wire)
    ensures var t := ExecApply(s, x); Pending(t.stdin, t.reader, t.queue, t.exec, t.wire)
  {
    if x.Reply? {
      ScriptHasOneDone(s.exec.w, x.script);
    }
  }

  lemma OutsideDones(s: State, o: OutsideStep)
    requires OutsideEnabled(s, o) && Shape(s) && Dones(s)
    ensures Dones(OutsideApply(s, o))
  {
    match o
    case Feed(f) => FedTied(s.stdin, s.wire, f);
    case Background(e) => PutTied(s.stdin, s.wire, e);
    case _ =>
  }

  lemma FedTied(i: Stdin, w: Wire, f: Frame)
    requires Tied(i, w)
    ensures Tied(i.(fed := i.fed + [f]), w)
  {
  }

  lemma DrainedStep(s: State, a: Step)
    requires Enabled(s, a) && Shape(s) && Drained(s.reader, s.gate, s.queue, s.exec)
    ensures var t := Apply(s, a); Drained(t.reader, t.gate, t.queue, t.exec)
  {
  }

  lemma StillInQueue(s: State, a: Step)
    requires Enabled(s, a)
    ensures forall n :: InQueue(s.queue, n) ==> InQueue(Apply(s, a).queue, n)
    ensures a == Read(Enqueue) ==> InQueue(Apply(s, a).queue, s.reader.w.n)
  {
    var t := Apply(s, a);
    forall n | InQueue(s.queue, n) ensures InQueue(t.queue, n) {
      var k :| 0 <= k < |s.queue.accepted| && s.queue.accepted[k].n == n;
      assert t.queue.accepted[k].n == n;
    }
    if a == Read(Enqueue) {
      assert t.queue.accepted[|s.queue.accepted|].n == s.reader.w.n;
    }
  }

  lemma CoveredStep(s: State, a: Step)
    requires Enabled(s, a) && ReaderShape(s.stdin, s.reader) && Drained(s.reader, s.gate, s.queue, s.exec)
    requires Covered(s.stdin, s.reader, s.queue, s.wire)
    ensures var t := Apply(s, a); Covered(t.stdin, t.reader, t.queue, t.wire)
  {
    StillInQueue(s, a);
    if a.Read? {
      ReadCovered(s, a.r);
    }
  }

  lemma ReadCovered(s: State, r: ReadStep)
    requires ReadEnabled(s, r) && ReaderShape(s.stdin, s.reader) && Covered(s.stdin, s.reader, s.queue, s.wire)
    requires forall n :: InQueue(s.queue, n) ==> InQueue(ReadApply(s, r).queue, n)
    requires r.Enqueue? ==> InQueue(ReadApply(s, r).queue, s.reader.w.n)
    ensures var t := ReadApply(s, r); Covered(t.stdin, t.reader, t.queue, t.wire)
  {
  }

  lemma GivenUpStep(s: State, a: Step)
    requires Enabled(s, a) && Shape(s) && Drained(s.reader, s.gate, s.queue, s.exec)
    requires Pending(s.stdin, s.reader, s.queue, s.exec, s.wire)
    requires GivenUp(s.stdin, s.reader, s.gate, s.queue, s.wire)
    ensures var t := Apply(s, a); GivenUp(t.stdin, t.reader, t.gate, t.queue, t.wire)
  {
    var t := Apply(s, a);
    forall n | InQueue(t.queue, n) && !InQueue(s.queue, n) ensures a == Read(Enqueue) && n == s.stdin.taken - 1 {
      NewInQueue(s, a, n);
    }
    match a
    case Run(Emit) =>
      assert s.queue.accepted[s.queue.started - 1].n == s.exec.w.n;
      assert InQueue(s.queue, s.exec.w.n);
    case Read(r) => ReadGivenUp(s, r);
    case _ =>
  }

  lemma ReadGivenUp(s: State, r: ReadStep)
    requires ReadEnabled(s, r) && Shape(s) && Drained(s.reader, s.gate, s.queue, s.exec)
    requires Pending(s.stdin, s.reader, s.queue, s.exec, s.wire)
    requires GivenUp(s.stdin, s.reader, s.gate, s.queue, s.wire)
    requires forall n :: InQueue(ReadApply(s, r).queue, n) && !InQueue(s.queue, n) ==> r.Enqueue? && n == s.stdin.taken - 1
    ensures var t := ReadApply(s, r); GivenUp(t.stdin, t.reader, t.gate, t.queue, t.wire)
  {
  }

  lemma NewInQueue(s: State, a: Step, n: nat)
    requires Enabled(s, a) && Shape(s) && InQueue(Apply(s, a).queue, n) && !InQueue(s.queue, n)
    ensures a == Read(Enqueue) && n == s.stdin.taken - 1
  {
    var q := Apply(s, a).queue;
    assert forall k :: 0 <= k < |s.queue.accepted| ==> q.accepted[k] == s.queue.accepted[k] && s.queue.accepted[k].n != n;
    var k :| 0 <= k < |q.accepted| && q.accepted[k].n == n;
  }

  /** What the reader answers itself: a shutdown with ok, a refused request with error. */
  ghost predicate Told(i: Stdin, q: Queue, w: Wire) {
    forall n :: n in w.doneAt && n < |i.fed| && !InQueue(q, n) ==>
      && i.fed[n] != Malformed
      && w.doneAt[n] < |w.out|
      && w.out[w.doneAt[n]] == DoneEvent(i.fed[n].id, if i.fed[n].Shutdown? then STATUS_OK else STATUS_ERROR)
  }

  lemma ToldStep(s: State, a: Step)
    requires Enabled(s, a) && ReaderShape(s.stdin, s.reader) && ExecShape(s.queue, s.exec)
    requires Told(s.stdin, s.queue, s.wire) && forall n :: n in s.wire.doneAt ==> n < s.stdin.taken
    ensures var t := Apply(s, a); Told(t.stdin, t.queue, t.wire)
  {
    match a
    case Read(r) => ReadTold(s, r);
    case Run(Emit) =>
      assert s.queue.accepted[s.queue.started - 1].n == s.exec.w.n;
      assert InQueue(s.queue, s.exec.w.n);
    case _ =>
  }

  lemma ReadTold(s: State, r: ReadStep)
    requires ReadEnabled(s, r) && ReaderShape(s.stdin, s.reader)
    requires Told(s.stdin, s.queue, s.wire) && forall n :: n in s.wire.doneAt ==> n < s.stdin.taken
    ensures var t := ReadApply(s, r); Told(t.stdin, t.queue, t.wire)
  {
    StillInQueue(s, Read(r));
    match r
    case Take(f) =>
      if f.Shutdown? && f.id != "" {
        AnswerTold(s.stdin, s.queue, s.wire, s.stdin.taken, DoneEvent(f.id, STATUS_OK));
      }
    case RefuseDone => AnswerTold(s.stdin, s.queue, s.wire, s.reader.n, DoneEvent(s.reader.id, STATUS_ERROR));
    case _ =>
  }

  lemma AnswerTold(i: Stdin, q: Queue, w: Wire, n: nat, e: Event)
    requires Told(i, q, w) && n < |i.fed| && i.fed[n] != Malformed
    requires e == DoneEvent(i.fed[n].id, if i.fed[n].Shutdown? then STATUS_OK else STATUS_ERROR)
    ensures Told(i, q, PutDone(w, n, e))
  {
  }

  ghost predicate Inv(s: State) {
    && Shape(s) && Dones(s)
    && Drained(s.reader, s.gate, s.queue, s.exec)
    && Covered(s.stdin, s.reader, s.queue, s.wire)
    && GivenUp(s.stdin, s.reader, s.gate, s.queue, s.wire)
    && Told(s.stdin, s.queue, s.wire)
  }

  lemma StepKeepsDones(s: State, a: Step)
    requires Enabled(s, a) && Shape(s) && Dones(s)
    ensures Dones(Apply(s, a))
  {
    match a
    case Outside(o) => OutsideDones(s, o);
    case Read(r) => ReadTied(s, r); ReadPending(s, r); ReadOrdered(s, r);
    case Run(x) => ExecDones(s, x);
    case TableGo =>
  }

  lemma StepKeepsShape(s: State, a: Step)
    requires Enabled(s, a) && Shape(s)
    ensures Shape(Apply(s, a))
  {
    match a
    case Outside(o) => OutsideShape(s, o);
    case Read(r) => ReadShape(s, r);
    case Run(x) => ExecKeepsShape(s, x);
    case TableGo =>
  }

  lemma StepKeepsInv(s: State, a: Step)
    requires Enabled(s, a) && Inv(s)
    ensures Inv(Apply(s, a))
  {
    StepKeepsShape(s, a);
    StepKeepsDones(s, a);
    DrainedStep(s, a);
    CoveredStep(s, a);
    GivenUpStep(s, a);
    ToldStep(s, a);
  }

  lemma {:induction false} ReachedInv(steps: seq<Step>, s: State)
    requires Reached(steps) == Some(s)
    ensures Inv(s)
  {
    if steps == [] {
    } else {
      var p := Reached(Front(steps)).value;
      ReachedInv(Front(steps), p);
      StepKeepsInv(p, Last(steps));
    }
  }

  lemma ReachableInv(s: State)
    requires Reachable(s)
    ensures Inv(s)
  {
    var steps :| Reached(steps) == Some(s);
    ReachedInv(steps, s);
  }

  // ----- What the wire shows -----------------------------------------------------------------

  /** Clients choose ids that are not empty and not reused. */
  ghost predicate UniqueIds(fed: seq<Frame>) {
    && (forall n :: 0 <= n < |fed| && Asks(fed[n]) ==> fed[n].id != "")
    && (forall n, m :: 0 <= n < m < |fed| && Asks(fed[n]) && Asks(fed[m]) ==> fed[n].id != fed[m].id)
  }

  predicate IsDone(out: seq<Event>, k: int, id: Id) {
    0 <= k < |out| && out[k].kind == Done && out[k].id == Some(id)
  }

  /** In any run at all no request is answered twice. */
  lemma AtMostOneDone(s: State, id: Id, k: nat, m: nat)
    requires Reachable(s) && UniqueIds(s.stdin.fed)
    requires IsDone(s.wire.out, k, id) && IsDone(s.wire.out, m, id)
    ensures k == m
  {
    ReachableInv(s);
    OneOwner(s.stdin, s.wire, k, m);
  }

  lemma OneOwner(i: Stdin, w: Wire, k: nat, m: nat)
    requires Tied(i, w) && UniqueIds(i.fed) && k < |w.out| && m < |w.out|
    requires w.out[k].kind == Done && w.out[m].kind == Done && w.out[k].id == w.out[m].id
    ensures k == m
  {
    assert k in w.owner && m in w.owner;
  }

  /** The request at position n is through: it is not in the reader's hands, was not given up, and if
      it was queued the executor has started it and is not still at it. */
  ghost predicate Through(s: State, n: nat) {
    && !(Holding(s.reader) && n == s.stdin.taken - 1)
    && n !in s.queue.dropped
    && forall k :: 0 <= k < |s.queue.accepted| && s.queue.accepted[k].n == n ==>
         k < s.queue.started && (k < s.queue.started - 1 || !Owing(s.exec))
  }

  /** In any run at all, clean or not, a request that was read has its done event if and
      only if it is through. */
  lemma AnsweredIff(s: State, n: nat)
    requires Reachable(s) && UniqueIds(s.stdin.fed)
    requires n < s.stdin.taken <= |s.stdin.fed| && Asks(s.stdin.fed[n])
    ensures (exists k :: IsDone(s.wire.out, k, s.stdin.fed[n].id)) <==> Through(s, n)
  {
    ReachableInv(s);
    AnsweredMeans(s.stdin, s.wire, n);
    ThroughMeans(s, n);
  }

  lemma AnsweredMeans(i: Stdin, w: Wire, n: nat)
    requires Tied(i, w) && UniqueIds(i.fed) && n < i.taken && Asks(i.fed[n])
    ensures (exists k :: IsDone(w.out, k, i.fed[n].id)) <==> n in w.doneAt
  {
    if k :| IsDone(w.out, k, i.fed[n].id) {
      assert k in w.owner;
    }
    if n in w.doneAt {
      assert IsDone(w.out, w.doneAt[n], i.fed[n].id);
    }
  }

  lemma ThroughMeans(s: State, n: nat)
    requires Shape(s) && Pending(s.stdin, s.reader, s.queue, s.exec, s.wire)
    requires Covered(s.stdin, s.reader, s.queue, s.wire) && GivenUp(s.stdin, s.reader, s.gate, s.queue, s.wire)
    requires n < s.stdin.taken && Asks(s.stdin.fed[n])
    ensures n in s.wire.doneAt <==> Through(s, n)
  {
    if InQueue(s.queue, n) {
      var k :| 0 <= k < |s.queue.accepted| && s.queue.accepted[k].n == n;
      assert forall m :: 0 <= m < |s.queue.accepted| && s.queue.accepted[m].n == n ==> m == k;
    }
  }

  /** Where every request that was read is, in any run: answered, in the reader's hands, in the queue,
      or given up; and a request given up is none of the others. */
  lemma EveryRequestIsSomewhere(s: State, n: nat)
    requires Reachable(s) && n < s.stdin.taken <= |s.stdin.fed| && Asks(s.stdin.fed[n])
    ensures n in s.wire.doneAt || (Holding(s.reader) && n == s.stdin.taken - 1) || InQueue(s.queue, n) || n in s.queue.dropped
    ensures n in s.queue.dropped ==>
      n !in s.wire.doneAt && !(Holding(s.reader) && n == s.stdin.taken - 1) && !InQueue(s.queue, n) && !Clean(s)
  {
    ReachableInv(s);
  }

  /** After a clean shutdown, when the executor has exited, every request and every shutdown read
      is answered exactly once, unless the reader is still at it. */
  lemma ExactlyOneDone(s: State, n: nat)
    requires Reachable(s) && Clean(s) && UniqueIds(s.stdin.fed) && s.exec.Exited?
    requires n < s.stdin.taken <= |s.stdin.fed| && Asks(s.stdin.fed[n])
    ensures (exists k :: IsDone(s.wire.out, k, s.stdin.fed[n].id)) <==> !(Holding(s.reader) && n == s.stdin.taken - 1)
    ensures forall k, m :: IsDone(s.wire.out, k, s.stdin.fed[n].id) && IsDone(s.wire.out, m, s.stdin.fed[n].id) ==> k == m
  {
    ReachableInv(s);
    AnsweredIff(s, n);
    forall k, m | IsDone(s.wire.out, k, s.stdin.fed[n].id) && IsDone(s.wire.out, m, s.stdin.fed[n].id) ensures k == m {
      AtMostOneDone(s, s.stdin.fed[n].id, k, m);
    }
  }

  /** What the reader answers itself: a shutdown with ok, a refused request with error. */
  lemma ReaderAnswers(s: State, n: nat, k: nat)
    requires Reachable(s) && UniqueIds(s.stdin.fed)
    requires n < s.stdin.taken <= |s.stdin.fed| && Asks(s.stdin.fed[n]) && !InQueue(s.queue, n)
    requires IsDone(s.wire.out, k, s.stdin.fed[n].id)
    ensures s.wire.out[k] == DoneEvent(s.stdin.fed[n].id, if s.stdin.fed[n].Shutdown? then STATUS_OK else STATUS_ERROR)
  {
    ReachableInv(s);
    assert k in s.wire.owner;
  }

  /** In any run queued requests are answered in the order in which they were accepted, which is
      that of the input. */
  lemma DonesInOrder(s: State, i: nat, j: nat, k: nat, m: nat)
    requires Reachable(s) && UniqueIds(s.stdin.fed)
    requires i < j < |s.queue.accepted|
    requires IsDone(s.wire.out, k, s.queue.accepted[i].id) && IsDone(s.wire.out, m, s.queue.accepted[j].id)
    ensures k < m && s.queue.accepted[i].n < s.queue.accepted[j].n
  {
    ReachableInv(s);
    var a, b := s.queue.accepted[i], s.queue.accepted[j];
    assert s.stdin.fed[a.n].id == a.id && s.stdin.fed[b.n].id == b.id;
    assert s.wire.owner[k] == a.n && s.wire.owner[m] == b.n;
  }

  /** Of the requests accepted, a run leaves without an answer exactly those not started, or still
      running. */
  lemma AnsweredIffStarted(s: State, i: nat)
    requires Reachable(s) && UniqueIds(s.stdin.fed) && i < |s.queue.accepted|
    ensures (exists k :: IsDone(s.wire.out, k, s.queue.accepted[i].id))
      <==> i < s.queue.started && (i < s.queue.started - 1 || !Owing(s.exec))
  {
    ReachableInv(s);
    AnsweredMeans(s.stdin, s.wire, s.queue.accepted[i].n);
  }

  lemma Extend(steps: seq<Step>, s: State, a: Step)
    requires Reached(steps) == Some(s) && Enabled(s, a)
    ensures Reached(steps + [a]) == Some(Apply(s, a))
  {
    assert Front(steps + [a]) == steps && Last(steps + [a]) == a;
  }
}
