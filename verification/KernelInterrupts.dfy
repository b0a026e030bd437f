/**
 Cross-channel ordering around the interrupt table: what the kernel puts into the table's
 channel is always well formed, so the history theorems of RequestTable hold of every run.
 */
module KernelInterrupts {
  import opened Prelude
  import opened Frames
  import opened Kernel
  import opened KernelAccounts
  import T = RequestTable

  /** Contexts are registered by the frame that carries them, before it can be queued. */
  ghost predicate Registered(i: Stdin, r: Reader, q: Queue, h: seq<T.Cmd>) {
    && (forall x :: T.CtxOf(h, x).Some? ==> RegisteredFrame(i, r, x, T.CtxOf(h, x).value))
    && (forall k :: 0 <= k < |q.accepted| ==> T.CtxOf(h, q.accepted[k].id) == Some(q.accepted[k].n))
    && (r.Queueing? ==> T.CtxOf(h, r.w.id) == Some(r.w.n))
  }

  predicate RegisteredFrame(i: Stdin, r: Reader, x: Id, n: nat) {
    && n < i.taken <= |i.fed| && i.fed[n].Request? && i.fed[n].id == x
    && !(r.Registering? && n == i.taken - 1)
  }

  /** Requests are activated when taken from the queue, one at a time. */
  ghost predicate Activated(q: Queue, x: Exec, h: seq<T.Cmd>) {
    && (forall y :: T.Activate(y) in h ==> StartedId(q, y))
    && (forall k :: 0 <= k < q.started && k < |q.accepted| ==> T.Activate(q.accepted[k].id) in h)
    && T.ActiveId(h) == (if x.Activating? || x.Running? then x.w.id else "")
  }

  ghost predicate StartedId(q: Queue, y: Id) {
    exists k :: 0 <= k < q.started && k < |q.accepted| && q.accepted[k].id == y
  }

  ghost predicate Channelled(s: State) {
    && T.WellFormed(s.table.sent)
    && Registered(s.stdin, s.reader, s.queue, s.table.sent)
    && Activated(s.queue, s.exec, s.table.sent)
  }

  /** An activate command is unanswered only while the executor waits for the answer. */
  ghost predicate Answering(x: Exec, t: TableLink) {
    && t.handled <= |t.sent|
    && (forall k :: t.handled <= k < |t.sent| && t.sent[k].Activate? ==>
          x.Activating? && t.reply.None? && t.sent[k].id == x.w.id)
    && (forall j, k :: t.handled <= j < k < |t.sent| ==> !(t.sent[j].Activate? && t.sent[k].Activate?))
    && (x.Activating? && t.reply.None? ==> AwaitsAnswer(x, t))
    && (t.reply.Some? ==> x.Activating?)
  }

  ghost predicate AwaitsAnswer(x: Exec, t: TableLink)
    requires x.Activating?
  {
    exists k :: t.handled <= k < |t.sent| && t.sent[k] == T.Activate(x.w.id)
  }

  // ----- Steps on the table's channel ---------------------------------------------------------

  lemma InterruptChannelled(s: State, id: Id)
    requires Channelled(s) && ReadEnabled(s, Take(Interrupt(id)))
    ensures Channelled(ReadApply(s, Take(Interrupt(id))))
  {
    T.Snoc(s.table.sent, T.Interrupt(id));
    T.CtxSnoc(s.table.sent, T.Interrupt(id));
  }

  lemma RegisterChannelled(s: State)
    requires Channelled(s) && ReadEnabled(s, Register) && UniqueIds(s.stdin.fed) && Shape(s)
    ensures Channelled(ReadApply(s, Register))
  {
    var w := s.reader.w;
    var c := T.Register(w.id, w.n);
    T.Snoc(s.table.sent, c);
    T.CtxSnoc(s.table.sent, c);
    assert T.Allowed(s.table.sent, c);
  }

  lemma DistinctIds(s: State, k: nat, m: nat)
    requires Shape(s) && UniqueIds(s.stdin.fed) && k < m < |s.queue.accepted|
    ensures s.queue.accepted[k].id != s.queue.accepted[m].id
  {
    assert s.queue.accepted[k].n < s.queue.accepted[m].n;
  }

  lemma StillStarted(q: Queue, r: Queue)
    requires |q.accepted| <= |r.accepted| && q.accepted == r.accepted[..|q.accepted|] && q.started <= r.started
    ensures forall y :: StartedId(q, y) ==> StartedId(r, y)
  {
    forall y | StartedId(q, y) ensures StartedId(r, y) {
      var k :| 0 <= k < q.started && k < |q.accepted| && q.accepted[k].id == y;
      assert r.accepted[k].id == y;
    }
  }

  lemma StartChannelled(s: State)
    requires Channelled(s) && ExecEnabled(s, Start) && UniqueIds(s.stdin.fed) && Shape(s)
    ensures Channelled(ExecApply(s, Start))
  {
    var w := s.queue.accepted[s.queue.started];
    var c := T.Activate(w.id);
    var t := ExecApply(s, Start);
    T.Snoc(s.table.sent, c);
    T.CtxSnoc(s.table.sent, c);
    forall k | 0 <= k < s.queue.started ensures s.queue.accepted[k].id != w.id {
      DistinctIds(s, k, s.queue.started);
    }
    assert T.Activate(w.id) !in s.table.sent;
    StillStarted(s.queue, t.queue);
    assert t.queue.accepted[s.queue.started].id == w.id;
  }

  lemma FinishChannelled(s: State)
    requires Channelled(s) && ExecEnabled(s, Finish) && UniqueIds(s.stdin.fed) && Shape(s)
    ensures Channelled(ExecApply(s, Finish))
  {
    var c := T.Deactivate(s.exec.w.id);
    T.Snoc(s.table.sent, c);
    T.CtxSnoc(s.table.sent, c);
    assert WorkOf(s.stdin, s.queue.accepted[s.queue.started - 1]);
  }

  lemma EnqueueChannelled(s: State)
    requires Channelled(s) && ReadEnabled(s, Enqueue) && Shape(s)
    ensures Channelled(ReadApply(s, Enqueue))
  {
    var q := ReadApply(s, Enqueue).queue;
    StillStarted(s.queue, q);
  }

  lemma ChannelledStep(s: State, a: Step)
    requires Enabled(s, a) && Channelled(s) && UniqueIds(s.stdin.fed) && Shape(s)
    ensures Channelled(Apply(s, a))
  {
    match a
    case Read(r) => ReadChannelled(s, r);
    case Run(x) => RunChannelled(s, x);
    case Outside(_) =>
    case TableGo =>
  }

  lemma ReadChannelled(s: State, r: ReadStep)
    requires ReadEnabled(s, r) && Channelled(s) && UniqueIds(s.stdin.fed) && Shape(s)
    ensures Channelled(ReadApply(s, r))
  {
    match r
    case Take(f) =>
      if f.Interrupt? {
        InterruptChannelled(s, f.id);
      }
    case Register => RegisterChannelled(s);
    case Enqueue => EnqueueChannelled(s);
    case _ =>
  }

  lemma RunChannelled(s: State, x: ExecStep)
    requires ExecEnabled(s, x) && Channelled(s) && UniqueIds(s.stdin.fed) && Shape(s)
    ensures Channelled(ExecApply(s, x))
  {
    match x
    case Start => StartChannelled(s);
    case Finish => FinishChannelled(s);
    case _ =>
  }

  lemma AnsweringStep(s: State, a: Step)
    requires Enabled(s, a) && Answering(s.exec, s.table)
    ensures Answering(Apply(s, a).exec, Apply(s, a).table)
  {
    var t := Apply(s, a);
    if a == Run(Start) {
      assert t.table.sent[|s.table.sent|] == T.Activate(t.exec.w.id);
    } else if s.exec.Activating? && s.table.reply.None? {
      var k :| s.table.handled <= k < |s.table.sent| && s.table.sent[k] == T.Activate(s.exec.w.id);
      assert k < |t.table.sent| && t.table.sent[k] == s.table.sent[k];
    }
  }

  // ----- Parked interrupts reach the executor ----------------------------------------------------

  /** The k-th request has been started and its activation answered. */
  predicate Delivered(q: Queue, x: Exec, k: int) {
    0 <= k < q.started && !(k == q.started - 1 && x.Activating?)
  }

  /** The executor has cancelled exactly the contexts whose activation was answered `parked`; an
      answer under way carries the request's own cancel function. */
  ghost predicate Parked(i: Stdin, r: Reader, q: Queue, x: Exec, t: TableLink) {
    var h := Processed(t);
    && (x.Activating? && t.reply.Some? ==>
          t.reply.value.cancel == Some(x.w.n) && (t.reply.value.parked <==> T.ToldParked(h, x.w.id)))
    && (forall k :: 0 <= k < |q.accepted| ==>
          (q.accepted[k].n in t.byExec <==> Delivered(q, x, k) && T.ToldParked(h, q.accepted[k].id)))
    && (forall c :: c in t.byExec ==> c < i.taken && !(Holding(r) && c == i.taken - 1))
  }

  /** The answer to the activation of w, when the table comes to it. */
  lemma AnswerToActivation(s: State)
    requires Shape(s) && Channelled(s) && Answering(s.exec, s.table)
    requires s.table.handled < |s.table.sent| && s.table.sent[s.table.handled].Activate?
    ensures s.exec.Activating? && s.table.sent[s.table.handled] == T.Activate(s.exec.w.id)
    ensures var h := Processed(s.table);
      T.Answer(T.After(h), s.exec.w.id).cancel == Some(s.exec.w.n) && !T.ToldParked(h, s.exec.w.id)
  {
    var t := s.table;
    var h, c, more := Processed(t), t.sent[t.handled], t.sent[t.handled..];
    var x := s.exec.w.id;
    assert t.sent == h + more && c in more;
    assert t.sent[..t.handled + 1] == h + [c];
    assert t.sent == (h + [c]) + t.sent[t.handled + 1..];
    T.PrefixWellFormed(h + [c], t.sent[t.handled + 1..]);
    AllowedActivation(h, x);
    T.CtxStable(h, more, x);
    assert s.queue.accepted[s.queue.started - 1] == s.exec.w;
  }

  lemma AllowedActivation(h: seq<T.Cmd>, x: Id)
    requires T.WellFormed(h + [T.Activate(x)])
    ensures T.WellFormed(h) && T.CtxOf(h, x).Some? && !T.ToldParked(h, x)
    ensures T.Answer(T.After(h), x).cancel == T.CtxOf(h, x)
  {
    T.Snoc(h, T.Activate(x));
    T.OrderlyAlways(h);
    T.TableTracksHistory(h);
  }

  lemma TableParked(s: State)
    requires Shape(s) && Channelled(s) && Answering(s.exec, s.table) && UniqueIds(s.stdin.fed)
    requires Parked(s.stdin, s.reader, s.queue, s.exec, s.table) && s.table.handled < |s.table.sent|
    ensures Parked(s.stdin, s.reader, s.queue, s.exec, Receive(s.table))
  {
    var t, c := s.table, s.table.sent[s.table.handled];
    var h := Processed(t);
    assert Processed(Receive(t)) == h + [c];
    forall y ensures T.ToldParked(h + [c], y) <==> T.ToldParked(h, y) || (c == T.Activate(y) && T.Answer(T.After(h), y).parked) {
      T.SpecSnoc(h, c, y);
    }
    if c.Activate? {
      AnswerToActivation(s);
      forall k | 0 <= k < |s.queue.accepted| && k != s.queue.started - 1 ensures s.queue.accepted[k].id != s.exec.w.id {
        if k < s.queue.started - 1 {
          DistinctIds(s, k, s.queue.started - 1);
        } else {
          DistinctIds(s, s.queue.started - 1, k);
        }
      }
      AnsweredParked(s.stdin, s.reader, s.queue, s.exec, t);
    }
  }

  /** The answer to the activation under way is all that changes. */
  lemma AnsweredParked(i: Stdin, r: Reader, q: Queue, x: Exec, t: TableLink)
    requires Parked(i, r, q, x, t) && ExecShape(q, x) && x.Activating?
    requires t.handled < |t.sent| && t.sent[t.handled] == T.Activate(x.w.id)
    requires T.Answer(T.After(Processed(t)), x.w.id).cancel == Some(x.w.n) && !T.ToldParked(Processed(t), x.w.id)
    requires forall y :: T.ToldParked(Processed(Receive(t)), y) <==>
      T.ToldParked(Processed(t), y) || (y == x.w.id && T.Answer(T.After(Processed(t)), y).parked)
    requires forall k :: 0 <= k < |q.accepted| && k != q.started - 1 ==> q.accepted[k].id != x.w.id
    ensures Parked(i, r, q, x, Receive(t))
  {
  }

  lemma ReadParked(s: State, r: ReadStep)
    requires ReadEnabled(s, r) && Shape(s) && s.table.handled <= |s.table.sent|
    requires Parked(s.stdin, s.reader, s.queue, s.exec, s.table)
    ensures var t := ReadApply(s, r); Parked(t.stdin, t.reader, t.queue, t.exec, t.table)
  {
    assert Processed(ReadApply(s, r).table) == Processed(s.table);
  }

  lemma RunParked(s: State, x: ExecStep)
    requires ExecEnabled(s, x) && Shape(s) && Answering(s.exec, s.table)
    requires Parked(s.stdin, s.reader, s.queue, s.exec, s.table)
    ensures var t := ExecApply(s, x); Parked(t.stdin, t.reader, t.queue, t.exec, t.table)
  {
    match x
    case Start => StartParked(s);
    case Reply(_) => ReplyParked(s, x);
    case _ =>
      assert Processed(ExecApply(s, x).table) == Processed(s.table);
      assert s.exec.Activating? <==> ExecApply(s, x).exec.Activating?;
  }

  lemma StartParked(s: State)
    requires ExecEnabled(s, Start) && Shape(s) && Answering(s.exec, s.table)
    requires Parked(s.stdin, s.reader, s.queue, s.exec, s.table)
    ensures var t := ExecApply(s, Start); Parked(t.stdin, t.reader, t.queue, t.exec, t.table)
  {
    var t := ExecApply(s, Start);
    assert Processed(t.table) == Processed(s.table);
    assert forall k :: Delivered(t.queue, t.exec, k) <==> Delivered(s.queue, s.exec, k);
  }

  lemma ReplyParked(s: State, x: ExecStep)
    requires ExecEnabled(s, x) && x.Reply? && Shape(s)
    requires Parked(s.stdin, s.reader, s.queue, s.exec, s.table)
    ensures var t := ExecApply(s, x); Parked(t.stdin, t.reader, t.queue, t.exec, t.table)
  {
    var t, last := ExecApply(s, x), s.queue.started - 1;
    assert Processed(t.table) == Processed(s.table);
    assert forall k :: Delivered(t.queue, t.exec, k) <==> Delivered(s.queue, s.exec, k) || k == last;
    assert forall k :: 0 <= k < |s.queue.accepted| && k != last ==> s.queue.accepted[k].n != s.exec.w.n;
  }

  lemma ParkedStep(s: State, a: Step)
    requires Enabled(s, a) && Shape(s) && Channelled(s) && Answering(s.exec, s.table) && UniqueIds(s.stdin.fed)
    requires Parked(s.stdin, s.reader, s.queue, s.exec, s.table)
    ensures var t := Apply(s, a); Parked(t.stdin, t.reader, t.queue, t.exec, t.table)
  {
    match a
    case Outside(_) =>
    case Read(r) => ReadParked(s, r);
    case Run(x) => RunParked(s, x);
    case TableGo => TableParked(s);
  }

  ghost predicate InterruptInv(s: State) {
    && Answering(s.exec, s.table)
    && (UniqueIds(s.stdin.fed) ==> Channelled(s) && Parked(s.stdin, s.reader, s.queue, s.exec, s.table))
  }

  lemma InterruptInvStep(s: State, a: Step)
    requires Enabled(s, a) && Shape(s) && InterruptInv(s)
    ensures InterruptInv(Apply(s, a))
  {
    AnsweringStep(s, a);
    var t := Apply(s, a);
    if UniqueIds(t.stdin.fed) {
      assert forall n :: 0 <= n < |s.stdin.fed| ==> t.stdin.fed[n] == s.stdin.fed[n];
      ChannelledStep(s, a);
      ParkedStep(s, a);
    }
  }

  lemma {:induction false} ReachedInterruptInv(steps: seq<Step>, s: State)
    requires Reached(steps) == Some(s)
    ensures InterruptInv(s)
  {
    if steps == [] {
    } else {
      var p := Reached(Front(steps)).value;
      ReachedInterruptInv(Front(steps), p);
      ReachedInv(Front(steps), p);
      InterruptInvStep(p, Last(steps));
    }
  }

  lemma ReachableInterruptInv(s: State)
    requires Reachable(s)
    ensures InterruptInv(s) && Inv(s)
  {
    var steps :| Reached(steps) == Some(s);
    ReachedInterruptInv(steps, s);
    ReachedInv(steps, s);
  }

  lemma StartedIsActivated(s: State, k: nat)
    requires Channelled(s) && Answering(s.exec, s.table) && Shape(s) && UniqueIds(s.stdin.fed)
    requires k < |s.queue.accepted| && Delivered(s.queue, s.exec, k)
    ensures T.Activate(s.queue.accepted[k].id) in Processed(s.table)
  {
    var c := T.Activate(s.queue.accepted[k].id);
    var j :| 0 <= j < |s.table.sent| && s.table.sent[j] == c;
    if s.exec.Activating? {
      DistinctIds(s, k, s.queue.started - 1);
    }
    NotAwaited(s.queue, s.exec, s.table, k, j);
    assert Processed(s.table)[j] == c;
  }

  /** The activation of a request past its activation has been received by the table. */
  lemma NotAwaited(q: Queue, x: Exec, t: TableLink, k: nat, j: nat)
    requires Answering(x, t) && ExecShape(q, x) && Delivered(q, x, k) && j < |t.sent|
    requires t.sent[j] == T.Activate(q.accepted[k].id)
    requires x.Activating? ==> q.accepted[k].id != q.accepted[q.started - 1].id
    ensures j < t.handled
  {
  }

  lemma DeliveredHistory(s: State, k: nat)
    requires Channelled(s) && s.table.handled <= |s.table.sent| && k < |s.queue.accepted|
    requires T.Activate(s.queue.accepted[k].id) in Processed(s.table)
    ensures var h, w := Processed(s.table), s.queue.accepted[k];
      T.WellFormed(h) && T.Activate(w.id) in h && T.CtxOf(h, w.id) == Some(w.n)
  {
    var h, more, w := Processed(s.table), s.table.sent[s.table.handled..], s.queue.accepted[k];
    assert s.table.sent == h + more;
    T.ActivatedHasCtx(h, more, w.id);
  }

  // ----- What this gives ---------------------------------------------------------------------------

  /** A request is always registered in the table's channel before anything activates it: the
      answer to its activation carries its own cancel function, never a missing or a foreign one. */
  lemma ActivationFindsCancel(s: State)
    requires Reachable(s) && UniqueIds(s.stdin.fed) && s.exec.Activating? && s.table.reply.Some?
    ensures s.table.reply.value.cancel == Some(s.exec.w.n)
  {
    ReachableInterruptInv(s);
  }

  /** In every run, at every moment after a request's activation was answered: its context has been
      cancelled by an interrupt, through the table or for a parked one by the executor, exactly
      when the commands processed so far hold an interrupt that was meant for it. */
  lemma InterruptsReachTheirTarget(s: State, k: nat)
    requires Reachable(s) && UniqueIds(s.stdin.fed)
    requires k < |s.queue.accepted| && Delivered(s.queue, s.exec, k)
    ensures var h, w := Processed(s.table), s.queue.accepted[k];
      w.n in T.After(h).cancelled || w.n in s.table.byExec
      <==> T.HitByName(h, w.id) || T.HitWhileActive(h, w.id) || T.HitBeforeNext(h, w.id)
  {
    ReachableInterruptInv(s);
    StartedIsActivated(s, k);
    DeliveredHistory(s, k);
    T.InterruptDelivery(Processed(s.table), s.queue.accepted[k].id);
  }

  /** A request that an interrupt named before or while it runs, runs with its context cancelled. */
  lemma NamedRequestRunsCancelled(s: State)
    requires Reachable(s) && UniqueIds(s.stdin.fed) && s.exec.Running?
    requires T.Interrupt(s.exec.w.id) in Processed(s.table)
    ensures s.exec.w.n in T.After(Processed(s.table)).cancelled || s.exec.w.n in s.table.byExec
  {
    ReachableInterruptInv(s);
    var k := s.queue.started - 1;
    assert s.queue.accepted[k] == s.exec.w;
    InterruptsReachTheirTarget(s, k);
    NamedIsHit(s.table, s.exec.w.id);
  }

  lemma NamedIsHit(t: TableLink, x: Id)
    requires T.WellFormed(t.sent) && t.handled <= |t.sent| && T.ActiveId(t.sent) == x
    requires T.Interrupt(x) in Processed(t)
    ensures T.HitByName(Processed(t), x)
  {
    T.OrderlyAlways(t.sent);
    var h := Processed(t);
    var i :| 0 <= i < |h| && h[i] == T.Interrupt(x);
    assert forall j :: 0 <= j < i ==> h[..i][j] == t.sent[j];
  }

  /** Whatever an interrupt frame finds: if the request it names was read before it and has not been
      answered, the interrupt cancels that request's context; it stays parked, for ever and without
      effect, only if the request has ended. */
  lemma InterruptAfterRequest(s: State, w: Work)
    requires Reachable(s) && UniqueIds(s.stdin.fed) && s.table.handled < |s.table.sent|
    requires s.table.sent[s.table.handled] == T.Interrupt(w.id)
    requires T.CtxOf(Processed(s.table), w.id) == Some(w.n)
    ensures var h := Processed(s.table);
      if T.Deactivate(w.id) in h
      then T.After(h + [T.Interrupt(w.id)]) == T.After(h).(parked := T.After(h).parked + {w.id})
           && T.Activate(w.id) !in s.table.sent[s.table.handled..]
      else w.n in T.After(h + [T.Interrupt(w.id)]).cancelled
           && T.After(h + [T.Interrupt(w.id)]).parked == T.After(h).parked
  {
    ReachableInterruptInv(s);
    NextInterrupt(s.table, w.id, w.n);
  }

  lemma NextInterrupt(t: TableLink, x: Id, n: T.Ctx)
    requires T.WellFormed(t.sent) && t.handled < |t.sent| && t.sent[t.handled] == T.Interrupt(x)
    requires T.CtxOf(Processed(t), x) == Some(n)
    ensures var h := Processed(t);
      if T.Deactivate(x) in h
      then T.After(h + [T.Interrupt(x)]) == T.After(h).(parked := T.After(h).parked + {x})
           && T.Activate(x) !in t.sent[t.handled..]
      else n in T.After(h + [T.Interrupt(x)]).cancelled
           && T.After(h + [T.Interrupt(x)]).parked == T.After(h).parked
  {
    var h, c, more := Processed(t), T.Interrupt(x), t.sent[t.handled + 1..];
    assert t.sent == h + [c] + more;
    assert t.sent[t.handled..] == [c] + more;
    T.LateInterrupt(h, x, more);
    T.CtxSnoc(h, c);
  }

  /** Some script is always possible, so a request that has its answer can go on. */
  function ScriptFor(w: Work): seq<Event> {
    match w.ask
    case Unknown(name) =>
      [ErrorEvent(Some(w.id), ENAME_PROTOCOL, "unknown request type " + name), DoneEvent(w.id, STATUS_ERROR)]
    case _ => [DoneEvent(w.id, STATUS_OK)]
  }

  lemma ScriptExists(w: Work)
    ensures Script(w, ScriptFor(w))
  {
    if w.ask == Execute {
      assert Outcome(ScriptFor(w)[0..], w.id);
    }
  }

  /** The executor is never stuck: unless it has exited or waits for work with intake open, it or
      the table can take a step.  With DrainMeasure: once intake is closed it exits. */
  lemma ExecutorNeverStuck(s: State)
    requires Reachable(s) && !s.exec.Exited?
    requires s.gate.drain || s.queue.started < |s.queue.accepted| || !s.exec.Waiting?
    ensures s.table.handled < |s.table.sent| || exists x :: ExecEnabled(s, x)
  {
    ReachableInterruptInv(s);
    var x := match s.exec
      case Waiting => if s.queue.started < |s.queue.accepted| then Start else PickDrain
      case Draining => if s.queue.started < |s.queue.accepted| then Start else Leave
      case Activating(w) => Reply(ScriptFor(w))
      case Running(_, script, at) => if at < |script| then Emit else Finish
      case Exited => Stop;
    if s.exec.Activating? {
      ScriptExists(s.exec.w);
    }
    assert s.table.handled == |s.table.sent| ==> ExecEnabled(s, x);
  }
}
