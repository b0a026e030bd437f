/**
 The kernel with the Go evaluator: runs in which the script of every cell is what the evaluator makes of
 the cell's context, and what an interrupt that came before the cell does in them.
 */
module KernelGoRuns {
  import opened Prelude
  import opened Frames
  import opened Kernel
  import opened GoEval
  import C = KernelCells
  import A = KernelAccounts
  import I = KernelInterrupts
  import D = KernelDrain
  import O = KernelOrder
  import T = RequestTable

  /** What runCell can emit for w when it starts with this table: a context that is cut off by then is found
      cancelled after the loop, however the evaluation goes. */
  ghost predicate GoScript(t: TableLink, w: Work, script: seq<Event>) {
    exists texts, e, cancelled :: (C.CutOff(t, w) ==> cancelled) && script == GoEvents(w.id, texts, e, cancelled)
  }

  ghost predicate GoEnabled(s: State, a: Step) {
    && Enabled(s, a)
    && (a.Run? && a.x.Reply? && s.exec.w.ask == Ask.Execute ==> GoScript(Deliver(s.table), s.exec.w, a.x.script))
  }

  /** The runs of the kernel with the Go evaluator. */
  ghost function GoReached(steps: seq<Step>): Option<State> {
    if steps == [] then Some(INIT)
    else match GoReached(Front(steps))
      case None => None
      case Some(s) => if GoEnabled(s, Last(steps)) then Some(Apply(s, Last(steps))) else None
  }

  lemma {:induction false} GoIsReached(steps: seq<Step>, s: State)
    requires GoReached(steps) == Some(s)
    ensures Kernel.Reached(steps) == Some(s)
  {
    if steps == [] {
    } else {
      GoIsReached(Front(steps), GoReached(Front(steps)).value);
    }
  }

  // ----- Interrupts that come before the cell -----------------------------------------------------------

  /** When x was activated an interrupt was waiting for it, by its name or for whatever came next. */
  ghost predicate HitEarly(h: seq<T.Cmd>, x: Id) {
    exists j :: 0 <= j < |h| && h[j] == T.Activate(x) && (T.Interrupt(x) in h[..j] || T.Waiting(h[..j]))
  }

  lemma EarlyIsMeant(h: seq<T.Cmd>, x: Id)
    requires T.WellFormed(h) && HitEarly(h, x)
    ensures T.MeantFor(h, x)
  {
    var j :| 0 <= j < |h| && h[j] == T.Activate(x) && (T.Interrupt(x) in h[..j] || T.Waiting(h[..j]));
    if T.Interrupt(x) in h[..j] {
      var k :| 0 <= k < j && h[k] == T.Interrupt(x);
      NotEndedYet(h, k, j, x);
    } else {
      assert T.HitBeforeNext(h, x);
    }
  }

  /** What is activated later has not ended. */
  lemma NotEndedYet(h: seq<T.Cmd>, k: nat, j: nat, x: Id)
    requires T.WellFormed(h) && k < j < |h| && h[j] == T.Activate(x)
    ensures T.Deactivate(x) !in h[..k]
  {
    assert h == h[..k] + h[k..] && h[k..][j - k] == T.Activate(x);
    T.PrefixWellFormed(h[..k], h[k..]);
    T.OrderlyAlways(h[..k]);
    if T.Activate(x) in h[..k] {
      T.ActivatedOnce(h[..k], h[k..], x);
    }
  }

  /** Once x was activated this is settled. */
  lemma EarlySnoc(h: seq<T.Cmd>, c: T.Cmd, x: Id)
    requires c != T.Activate(x) && HitEarly(h + [c], x)
    ensures HitEarly(h, x)
  {
    var g := h + [c];
    var j :| 0 <= j < |g| && g[j] == T.Activate(x) && (T.Interrupt(x) in g[..j] || T.Waiting(g[..j]));
    assert h[j] == g[j] && h[..j] == g[..j];
  }

  lemma OnceOnly(h: seq<T.Cmd>, c: T.Cmd, rest: seq<T.Cmd>, x: Id)
    requires T.WellFormed(h + [c] + rest) && T.Activate(x) in h
    ensures c != T.Activate(x)
  {
    T.PrefixWellFormed(h + [c], rest);
    T.ActivatedOnce(h, [c], x);
  }

  /** The request was activated before, and this step leaves its history as it was. */
  lemma EarlyKept(s: State, a: Step, i: nat)
    requires Enabled(s, a) && A.Shape(s) && I.Channelled(s) && I.Answering(s.exec, s.table) && A.UniqueIds(s.stdin.fed)
    requires i < |s.queue.accepted| && I.Delivered(s.queue, s.exec, i)
    requires HitEarly(Processed(Apply(s, a).table), s.queue.accepted[i].id)
    ensures HitEarly(Processed(s.table), s.queue.accepted[i].id)
  {
    if a.TableGo? {
      I.StartedIsActivated(s, i);
      EarlyReceive(s.table, s.queue.accepted[i].id);
    } else {
      SameHistory(s, a);
    }
  }

  lemma EarlyReceive(t: TableLink, x: Id)
    requires T.WellFormed(t.sent) && t.handled < |t.sent| && T.Activate(x) in Processed(t)
    requires HitEarly(Processed(Receive(t)), x)
    ensures HitEarly(Processed(t), x)
  {
    var h, c, rest := Processed(t), t.sent[t.handled], t.sent[t.handled + 1..];
    ReceivedOne(t);
    OnceOnly(h, c, rest, x);
    EarlySnoc(h, c, x);
  }

  lemma ReceivedOne(t: TableLink)
    requires t.handled < |t.sent|
    ensures Processed(Receive(t)) == Processed(t) + [t.sent[t.handled]]
    ensures t.sent == Processed(t) + [t.sent[t.handled]] + t.sent[t.handled + 1..]
  {
  }

  lemma SameHistory(s: State, a: Step)
    requires Enabled(s, a) && !a.TableGo? && s.table.handled <= |s.table.sent|
    ensures Processed(Apply(s, a).table) == Processed(s.table)
  {
  }

  // ----- They fail --------------------------------------------------------------------------------------------

  ghost predicate Failing(s: State, i: nat) {
    i < |s.queue.accepted| && exists script :: C.FailingScript(s.queue.accepted[i], script) && C.Fails(s, i, script)
  }

  /** The cell at i has been started, and an interrupt had come before it. */
  ghost predicate Early(s: State, i: nat) {
    && i < |s.queue.accepted| && I.Delivered(s.queue, s.exec, i)
    && s.queue.accepted[i].ask == Ask.Execute && HitEarly(Processed(s.table), s.queue.accepted[i].id)
  }

  /** A cell that starts cut off gets a failing script. */
  lemma StartsFailing(t: State)
    requires Reachable(t) && A.UniqueIds(t.stdin.fed) && t.exec.Running? && t.exec.at == 0
    requires GoScript(t.table, t.exec.w, t.exec.script) && HitEarly(Processed(t.table), t.exec.w.id)
    ensures t.queue.started > 0 && Failing(t, t.queue.started - 1)
  {
    EarlyIsCutOff(t);
    CutOffScriptFails(t.table, t.exec.w, t.exec.script);
    RunsFailing(t, t.exec.script);
  }

  lemma RunsFailing(t: State, script: seq<Event>)
    requires Reachable(t) && A.UniqueIds(t.stdin.fed) && t.exec.Running? && t.exec.script == script && t.exec.at == 0
    requires C.FailingScript(t.exec.w, script)
    ensures t.queue.started > 0 && Failing(t, t.queue.started - 1)
  {
    C.NothingYet(t);
    assert C.Fails(t, t.queue.started - 1, script);
  }

  lemma EarlyIsCutOff(t: State)
    requires Reachable(t) && A.UniqueIds(t.stdin.fed) && t.exec.Running? && HitEarly(Processed(t.table), t.exec.w.id)
    ensures C.CutOff(t.table, t.exec.w)
  {
    I.ReachableInterruptInv(t);
    ProcessedWell(t.table);
    EarlyIsMeant(Processed(t.table), t.exec.w.id);
    C.HitIsCutOff(t);
  }

  lemma CutOffScriptFails(t: TableLink, w: Work, script: seq<Event>)
    requires C.CutOff(t, w) && GoScript(t, w, script)
    ensures C.FailingScript(w, script)
  {
    var texts, e, cancelled :| (C.CutOff(t, w) ==> cancelled) && script == GoEvents(w.id, texts, e, cancelled);
    CancelledEventsFail(e, w.id, texts);
  }

  lemma ProcessedWell(t: TableLink)
    requires T.WellFormed(t.sent) && t.handled <= |t.sent|
    ensures T.WellFormed(Processed(t))
  {
    assert t.sent == Processed(t) + t.sent[t.handled..];
    T.PrefixWellFormed(Processed(t), t.sent[t.handled..]);
  }

  lemma StepFailing(s: State, a: Step, i: nat)
    requires Enabled(s, a) && A.Shape(s) && A.Pending(s.stdin, s.reader, s.queue, s.exec, s.wire)
    requires C.EmittedOk(s.exec, s.wire) && A.UniqueIds(s.stdin.fed) && Failing(s, i)
    ensures Failing(Apply(s, a), i)
  {
    var script :| C.FailingScript(s.queue.accepted[i], script) && C.Fails(s, i, script);
    C.FailsStep(s, a, i, script);
  }

  /** A request is newly started only by the answer to its activation. */
  lemma NewlyDelivered(s: State, a: Step, i: nat)
    requires Enabled(s, a) && A.Shape(s) && I.Delivered(Apply(s, a).queue, Apply(s, a).exec, i) && !I.Delivered(s.queue, s.exec, i)
    ensures a.Run? && a.x.Reply? && i == s.queue.started - 1 && s.queue.accepted[i] == s.exec.w
  {
  }

  lemma EarlyStep(s: State, a: Step, i: nat)
    requires Reachable(s) && GoEnabled(s, a) && A.UniqueIds(s.stdin.fed) && Early(Apply(s, a), i)
    requires Early(s, i) ==> Failing(s, i)
    requires C.EmittedOk(s.exec, s.wire)
    ensures Failing(Apply(s, a), i)
  {
    if I.Delivered(s.queue, s.exec, i) {
      StartedEarly(s, a, i);
    } else {
      StartsEarly(s, a, i);
    }
  }

  lemma StartedEarly(s: State, a: Step, i: nat)
    requires Reachable(s) && Enabled(s, a) && A.UniqueIds(s.stdin.fed) && Early(Apply(s, a), i)
    requires I.Delivered(s.queue, s.exec, i) && C.EmittedOk(s.exec, s.wire)
    requires Early(s, i) ==> Failing(s, i)
    ensures Failing(Apply(s, a), i)
  {
    I.ReachableInterruptInv(s);
    SameRequest(s, a, i);
    EarlyKept(s, a, i);
    StepFailing(s, a, i);
  }

  lemma StartsEarly(s: State, a: Step, i: nat)
    requires Reachable(s) && GoEnabled(s, a) && A.UniqueIds(s.stdin.fed) && Early(Apply(s, a), i)
    requires !I.Delivered(s.queue, s.exec, i)
    ensures Failing(Apply(s, a), i)
  {
    A.ReachableInv(s);
    NewlyDelivered(s, a, i);
    D.ReachableStep(s, a);
    StartsFailing(Apply(s, a));
  }

  lemma SameRequest(s: State, a: Step, i: nat)
    requires Enabled(s, a) && i < |s.queue.accepted|
    ensures i < |Apply(s, a).queue.accepted| && Apply(s, a).queue.accepted[i] == s.queue.accepted[i]
  {
  }

  lemma {:induction false} EarlyFails(steps: seq<Step>, s: State, i: nat)
    requires GoReached(steps) == Some(s) && A.UniqueIds(s.stdin.fed) && Early(s, i)
    ensures Failing(s, i)
  {
    if steps == [] {
    } else {
      var p, a := GoReached(Front(steps)).value, Last(steps);
      GoIsReached(Front(steps), p);
      assert Reachable(p);
      C.ReachedResults(Front(steps), p);
      O.ExtendsStep(p, a);
      O.UniqueBefore(p, s);
      if Early(p, i) {
        EarlyFails(Front(steps), p, i);
      }
      EarlyStep(p, a, i);
    }
  }

  /** In every run of the kernel with the Go evaluator: a cell for which an interrupt was waiting when it was
      activated never shows a result on the wire, and its done, when it is there, says error and has an
      error event with the id before it.  Nothing is assumed of the cell. */
  lemma EarlyInterruptFails(steps: seq<Step>, s: State, i: nat, k: nat)
    requires GoReached(steps) == Some(s) && A.UniqueIds(s.stdin.fed) && Early(s, i)
    ensures var id := s.queue.accepted[i].id;
      && C.NoResult(s.wire.out, id)
      && (A.IsDone(s.wire.out, k, id) ==>
            && s.wire.out[k] == DoneEvent(id, STATUS_ERROR)
            && exists j :: 0 <= j < k && s.wire.out[j].kind == Error && s.wire.out[j].id == Some(id))
  {
    EarlyFails(steps, s, i);
    GoIsReached(steps, s);
    var script :| C.FailingScript(s.queue.accepted[i], script) && C.Fails(s, i, script);
    if A.IsDone(s.wire.out, k, s.queue.accepted[i].id) {
      C.OnlyDone(s, i, script, k);
    }
  }

  /** The evaluator's own events are such a script. */
  lemma CellIsGoScript(t: TableLink, w: Work, texts: seq<string>, e: Eval, cancelled: bool)
    requires C.CutOff(t, w) ==> cancelled
    ensures GoScript(t, w, GoEvents(w.id, texts, e, cancelled))
  {
  }
}
