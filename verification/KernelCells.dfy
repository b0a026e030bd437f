/**
 The evaluator inside the kernel: what an interrupt that came in time does to its cell, up to what the
 wire shows of it.
 */
module KernelCells {
  import opened Prelude
  import opened Frames
  import opened Kernel
  import opened GoEval
  import A = KernelAccounts
  import I = KernelInterrupts
  import O = KernelOrder
  import T = RequestTable

  // ----- The running script on the wire ---------------------------------------------------------------

  predicate Holds(x: Exec) {
    x.Activating? || x.Running?
  }

  /** A result event is of a request that was started; one with the id of the request in hand is from
      the part of its script that was emitted. */
  ghost predicate ResultsOk(q: Queue, x: Exec, w: Wire) {
    forall k :: 0 <= k < |w.out| && w.out[k].kind == EventKind.Result ==> ResultOk(q, x, w.out[k])
  }

  ghost predicate ResultOk(q: Queue, x: Exec, e: Event) {
    && e.id.Some? && I.StartedId(q, e.id.value)
    && (Holds(x) && e.id == Some(x.w.id) ==> x.Running? && x.at <= |x.script| && e in x.script[..x.at])
  }

  /** What was emitted of the script is on the wire. */
  ghost predicate EmittedOk(x: Exec, w: Wire) {
    x.Running? ==> forall j :: 0 <= j < x.at && j < |x.script| ==> x.script[j] in w.out
  }

  lemma EmittedStep(s: State, a: Step)
    requires Enabled(s, a) && EmittedOk(s.exec, s.wire)
    ensures EmittedOk(Apply(s, a).exec, Apply(s, a).wire)
  {
  }

  lemma StartResults(s: State)
    requires ExecEnabled(s, Start) && A.Shape(s) && A.UniqueIds(s.stdin.fed) && ResultsOk(s.queue, s.exec, s.wire)
    ensures var t := ExecApply(s, Start); ResultsOk(t.queue, t.exec, t.wire)
  {
    var t := ExecApply(s, Start);
    I.StillStarted(s.queue, t.queue);
    forall e | ResultOk(s.queue, s.exec, e) ensures ResultOk(t.queue, t.exec, e) {
      var k :| 0 <= k < s.queue.started && k < |s.queue.accepted| && s.queue.accepted[k].id == e.id.value;
      I.DistinctIds(s, k, s.queue.started);
    }
  }

  lemma EmitResults(s: State)
    requires ExecEnabled(s, Emit) && A.Shape(s) && ResultsOk(s.queue, s.exec, s.wire)
    ensures var t := ExecApply(s, Emit); ResultsOk(t.queue, t.exec, t.wire)
  {
    var t, e := ExecApply(s, Emit), s.exec.script[s.exec.at];
    assert t.exec.script[..t.exec.at] == s.exec.script[..s.exec.at] + [e];
    assert s.queue.accepted[s.queue.started - 1] == s.exec.w;
    assert I.StartedId(s.queue, s.exec.w.id);
    forall k | 0 <= k < |t.wire.out| && t.wire.out[k].kind == EventKind.Result ensures ResultOk(t.queue, t.exec, t.wire.out[k]) {
      assert k < |s.wire.out| ==> t.wire.out[k] == s.wire.out[k] && ResultOk(s.queue, s.exec, s.wire.out[k]);
    }
  }

  lemma OtherResults(s: State, a: Step)
    requires Enabled(s, a) && a != Run(Start) && a != Run(Emit) && A.Shape(s) && ResultsOk(s.queue, s.exec, s.wire)
    ensures var t := Apply(s, a); ResultsOk(t.queue, t.exec, t.wire)
  {
    var t := Apply(s, a);
    I.StillStarted(s.queue, t.queue);
    forall k | 0 <= k < |t.wire.out| && t.wire.out[k].kind == EventKind.Result ensures ResultOk(t.queue, t.exec, t.wire.out[k]) {
      QuietStep(s, a, k);
      assert ResultOk(s.queue, s.exec, s.wire.out[k]);
    }
  }

  /** Only the executor emits results. */
  lemma QuietStep(s: State, a: Step, k: nat)
    requires Enabled(s, a) && a != Run(Emit)
    requires k < |Apply(s, a).wire.out| && Apply(s, a).wire.out[k].kind == EventKind.Result
    ensures k < |s.wire.out| && Apply(s, a).wire.out[k] == s.wire.out[k]
  {
  }

  lemma {:induction false} ReachedResults(steps: seq<Step>, s: State)
    requires Kernel.Reached(steps) == Some(s)
    ensures EmittedOk(s.exec, s.wire)
    ensures A.UniqueIds(s.stdin.fed) ==> ResultsOk(s.queue, s.exec, s.wire)
  {
    if steps == [] {
    } else {
      var p, a := Kernel.Reached(Front(steps)).value, Last(steps);
      ReachedResults(Front(steps), p);
      A.ReachedInv(Front(steps), p);
      EmittedStep(p, a);
      if A.UniqueIds(s.stdin.fed) {
        O.ExtendsStep(p, a);
        O.UniqueBefore(p, s);
        if a == Run(Start) {
          StartResults(p);
        } else if a == Run(Emit) {
          EmitResults(p);
        } else {
          OtherResults(p, a);
        }
      }
    }
  }

  // ----- A cell that fails ---------------------------------------------------------------------------------

  /** The script of a failing cell: no result, and an error before its done. */
  predicate FailingScript(w: Work, script: seq<Event>) {
    && |script| >= 2
    && script[|script| - 2].kind == Error && script[|script| - 2].id == Some(w.id)
    && Last(script) == DoneEvent(w.id, STATUS_ERROR)
    && forall i :: 0 <= i < |script| ==> script[i].kind != EventKind.Result
  }

  /** The i-th request runs with this script, or has: on the wire there is no result with its id, and
      when it is through, its done is an error done with an error event before it. */
  ghost predicate Fails(s: State, i: nat, script: seq<Event>) {
    && i < s.queue.started && i < |s.queue.accepted|
    && (i == s.queue.started - 1 ==> !s.exec.Activating? && (s.exec.Running? ==> s.exec.script == script))
    && NoResult(s.wire.out, s.queue.accepted[i].id)
    && (!(i == s.queue.started - 1 && A.Owing(s.exec)) ==> FailedDone(s.wire, s.queue.accepted[i]))
  }

  ghost predicate NoResult(out: seq<Event>, id: Id) {
    forall k :: 0 <= k < |out| && out[k].kind == EventKind.Result ==> out[k].id != Some(id)
  }

  ghost predicate FailedDone(w: Wire, r: Work) {
    && r.n in w.doneAt && w.doneAt[r.n] < |w.out| && w.out[w.doneAt[r.n]] == DoneEvent(r.id, STATUS_ERROR)
    && exists k :: 0 <= k < w.doneAt[r.n] && w.out[k].kind == Error && w.out[k].id == Some(r.id)
  }

  /** Nothing answered is answered again, and the wire only grows. */
  ghost predicate Keeps(w: Wire, v: Wire) {
    && |w.out| <= |v.out| && w.out == v.out[..|w.out|]
    && forall n :: n in w.doneAt ==> n in v.doneAt && v.doneAt[n] == w.doneAt[n]
  }

  lemma DoneStays(w: Wire, v: Wire, r: Work)
    requires Keeps(w, v) && FailedDone(w, r)
    ensures FailedDone(v, r)
  {
    var k :| 0 <= k < w.doneAt[r.n] && w.out[k].kind == Error && w.out[k].id == Some(r.id);
    assert v.out[k] == w.out[k] && v.out[w.doneAt[r.n]] == w.out[w.doneAt[r.n]];
  }

  lemma KeepsStep(s: State, a: Step)
    requires Enabled(s, a) && A.Shape(s) && A.Pending(s.stdin, s.reader, s.queue, s.exec, s.wire)
    ensures Keeps(s.wire, Apply(s, a).wire)
  {
    match a
    case Run(Emit) => assert s.queue.accepted[s.queue.started - 1].n == s.exec.w.n;
    case Run(_) =>
    case Read(r) => ReadKeeps(s, r);
    case Outside(_) =>
    case TableGo =>
  }

  lemma ReadKeeps(s: State, r: ReadStep)
    requires ReadEnabled(s, r) && A.Shape(s) && A.Pending(s.stdin, s.reader, s.queue, s.exec, s.wire)
    ensures Keeps(s.wire, ReadApply(s, r).wire)
  {
  }

  lemma EmitFails(s: State, i: nat, script: seq<Event>)
    requires ExecEnabled(s, Emit) && A.Shape(s) && Keeps(s.wire, ExecApply(s, Emit).wire)
    requires EmittedOk(s.exec, s.wire) && A.UniqueIds(s.stdin.fed)
    requires Fails(s, i, script) && FailingScript(s.queue.accepted[i], script)
    ensures Fails(ExecApply(s, Emit), i, script)
  {
    var t, r, e := ExecApply(s, Emit), s.queue.accepted[i], s.exec.script[s.exec.at];
    assert s.queue.accepted[s.queue.started - 1] == s.exec.w;
    if i == s.queue.started - 1 {
      EmitOfOwn(s.exec, s.wire, t.wire, r, script);
    } else {
      I.DistinctIds(s, i, s.queue.started - 1);
      DoneStays(s.wire, t.wire, r);
    }
  }

  /** The failing cell itself emits. */
  lemma EmitOfOwn(x: Exec, w: Wire, v: Wire, r: Work, script: seq<Event>)
    requires x.Running? && x.w == r && x.script == script && x.at < |script| && FailingScript(r, script)
    requires EmittedOk(x, w) && NoResult(w.out, r.id)
    requires v == if script[x.at].kind == Done then PutDone(w, r.n, script[x.at]) else Put(w, script[x.at])
    ensures NoResult(v.out, r.id)
    ensures x.at == |script| - 1 ==> FailedDone(v, r)
  {
    if x.at == |script| - 1 {
      assert script[|script| - 2] in w.out;
      var k :| 0 <= k < |w.out| && w.out[k] == script[|script| - 2];
      assert v.out[k] == w.out[k];
    }
  }

  lemma OtherFails(s: State, a: Step, i: nat, script: seq<Event>)
    requires Enabled(s, a) && a != Run(Emit) && A.Shape(s) && Keeps(s.wire, Apply(s, a).wire) && Fails(s, i, script)
    ensures Fails(Apply(s, a), i, script)
  {
    var t, r := Apply(s, a), s.queue.accepted[i];
    assert t.queue.accepted[i] == r;
    forall k | 0 <= k < |t.wire.out| && t.wire.out[k].kind == EventKind.Result ensures t.wire.out[k].id != Some(r.id) {
      QuietStep(s, a, k);
    }
    if FailedDone(s.wire, r) {
      DoneStays(s.wire, t.wire, r);
    }
  }

  lemma FailsStep(s: State, a: Step, i: nat, script: seq<Event>)
    requires Enabled(s, a) && A.Shape(s) && A.Pending(s.stdin, s.reader, s.queue, s.exec, s.wire)
    requires EmittedOk(s.exec, s.wire) && A.UniqueIds(s.stdin.fed)
    requires Fails(s, i, script) && FailingScript(s.queue.accepted[i], script)
    ensures Fails(Apply(s, a), i, script) && Apply(s, a).queue.accepted[i] == s.queue.accepted[i]
  {
    KeepsStep(s, a);
    if a == Run(Emit) {
      EmitFails(s, i, script);
    } else {
      OtherFails(s, a, i, script);
    }
  }

  lemma {:induction false} FailsForEver(s: State, more: seq<Step>, t: State, i: nat, script: seq<Event>)
    requires Reachable(s) && Follow(s, more) == Some(t) && A.UniqueIds(t.stdin.fed)
    requires Fails(s, i, script) && FailingScript(s.queue.accepted[i], script)
    ensures Fails(t, i, script) && t.queue.accepted[i] == s.queue.accepted[i]
  {
    if more == [] {
    } else {
      var u, a := Follow(s, Front(more)).value, Last(more);
      O.ExtendsStep(u, a);
      O.UniqueBefore(u, t);
      FailsForEver(s, Front(more), u, i, script);
      O.FollowReachable(s, Front(more), u);
      A.ReachableInv(u);
      var steps :| Kernel.Reached(steps) == Some(u);
      ReachedResults(steps, u);
      FailsStep(u, a, i, script);
    }
  }

  // ----- Interrupted cells ---------------------------------------------------------------------------------

  /** An interrupt has cancelled the context of w: through the table, or by the executor when parked. */
  predicate CutOff(t: TableLink, w: Work) {
    w.n in T.After(Processed(t)).cancelled || w.n in t.byExec
  }

  /** An interrupt was meant for w: by its name before its end, without an id during its run, or
      without an id while nothing ran and w was next. */
  ghost predicate Hit(t: TableLink, w: Work) {
    T.HitByName(Processed(t), w.id) || T.HitWhileActive(Processed(t), w.id) || T.HitBeforeNext(Processed(t), w.id)
  }

  /** The running request is a Go cell, and its script is what runCell emits for it. A context stays
      cancelled, so one already cut off is found cancelled after the loop over the chunks. */
  ghost predicate RunsGoCell(s: State, imported: set<string>, cs: seq<string>, eval: nat -> Eval,
                             cancelled: bool, texts: seq<string>) {
    && s.exec.Running? && s.exec.w.ask == Ask.Execute
    && (CutOff(s.table, s.exec.w) ==> cancelled)
    && s.exec.script == GoEvents(s.exec.w.id, texts, Exit(imported, cs, eval), cancelled)
  }

  lemma HitIsCutOff(s: State)
    requires Reachable(s) && A.UniqueIds(s.stdin.fed) && s.exec.Running? && Hit(s.table, s.exec.w)
    ensures CutOff(s.table, s.exec.w)
  {
    A.ReachableInv(s);
    var k := s.queue.started - 1;
    assert s.queue.accepted[k] == s.exec.w;
    I.InterruptsReachTheirTarget(s, k);
  }

  /** In every run, a Go cell that an interrupt was meant for, before the cell's context was looked at,
      fails: it mirrors no name and its script is a failing one, whatever its code does. */
  lemma InterruptedCellFails(s: State, imported: set<string>, cs: seq<string>, eval: nat -> Eval,
                             cancelled: bool, texts: seq<string>)
    requires Reachable(s) && A.UniqueIds(s.stdin.fed) && RunsGoCell(s, imported, cs, eval, cancelled, texts)
    requires Hit(s.table, s.exec.w)
    ensures !Mirrors(Exit(imported, cs, eval), cancelled)
    ensures FailingScript(s.exec.w, s.exec.script)
  {
    HitIsCutOff(s);
    CancelledCellFails(imported, cs, eval, s.exec.w.id, texts);
  }

  /** And so the wire shows, however the run goes on: no result with the cell's id, ever, and once the
      cell has its done event that one says error and an error event with the id stands before it. */
  lemma InterruptedCellOnTheWire(s: State, more: seq<Step>, t: State, imported: set<string>, cs: seq<string>,
                                 eval: nat -> Eval, cancelled: bool, texts: seq<string>, k: nat)
    requires Reachable(s) && Follow(s, more) == Some(t) && A.UniqueIds(t.stdin.fed)
    requires RunsGoCell(s, imported, cs, eval, cancelled, texts) && Hit(s.table, s.exec.w)
    requires s.exec.at < |s.exec.script|
    ensures NoResult(t.wire.out, s.exec.w.id)
    ensures A.IsDone(t.wire.out, k, s.exec.w.id) ==>
      && t.wire.out[k] == DoneEvent(s.exec.w.id, STATUS_ERROR)
      && exists j :: 0 <= j < k && t.wire.out[j].kind == Error && t.wire.out[j].id == Some(s.exec.w.id)
  {
    O.Continues(s, more, t);
    O.UniqueBefore(s, t);
    InterruptedCellFails(s, imported, cs, eval, cancelled, texts);
    FailingOnTheWire(s, more, t, k);
  }

  lemma FailingOnTheWire(s: State, more: seq<Step>, t: State, k: nat)
    requires Reachable(s) && Follow(s, more) == Some(t) && A.UniqueIds(s.stdin.fed) && A.UniqueIds(t.stdin.fed)
    requires s.exec.Running? && s.exec.at < |s.exec.script| && FailingScript(s.exec.w, s.exec.script)
    ensures NoResult(t.wire.out, s.exec.w.id)
    ensures A.IsDone(t.wire.out, k, s.exec.w.id) ==>
      && t.wire.out[k] == DoneEvent(s.exec.w.id, STATUS_ERROR)
      && exists j :: 0 <= j < k && t.wire.out[j].kind == Error && t.wire.out[j].id == Some(s.exec.w.id)
  {
    NothingYet(s);
    FailsForEver(s, more, t, s.queue.started - 1, s.exec.script);
    O.FollowReachable(s, more, t);
    if A.IsDone(t.wire.out, k, s.exec.w.id) {
      OnlyDone(t, s.queue.started - 1, s.exec.script, k);
    }
  }

  lemma NothingYet(s: State)
    requires Reachable(s) && A.UniqueIds(s.stdin.fed) && s.exec.Running? && s.exec.at < |s.exec.script|
    requires FailingScript(s.exec.w, s.exec.script)
    ensures s.queue.started > 0 && Fails(s, s.queue.started - 1, s.exec.script)
    ensures s.queue.accepted[s.queue.started - 1] == s.exec.w
  {
    A.ReachableInv(s);
    var steps :| Kernel.Reached(steps) == Some(s);
    ReachedResults(steps, s);
    NoResultYet(s.queue, s.exec, s.wire);
    FailsAtFirst(s);
  }

  lemma FailsAtFirst(s: State)
    requires A.ExecShape(s.queue, s.exec) && s.exec.Running? && s.exec.at < |s.exec.script|
    requires NoResult(s.wire.out, s.exec.w.id)
    ensures s.queue.started > 0 && Fails(s, s.queue.started - 1, s.exec.script)
    ensures s.queue.accepted[s.queue.started - 1] == s.exec.w
  {
  }

  lemma NoResultYet(q: Queue, x: Exec, w: Wire)
    requires ResultsOk(q, x, w) && x.Running? && FailingScript(x.w, x.script)
    ensures NoResult(w.out, x.w.id)
  {
    forall k | 0 <= k < |w.out| && w.out[k].kind == EventKind.Result ensures w.out[k].id != Some(x.w.id) {
      assert ResultOk(q, x, w.out[k]);
    }
  }

  lemma OnlyDone(t: State, i: nat, script: seq<Event>, k: nat)
    requires Reachable(t) && A.UniqueIds(t.stdin.fed) && Fails(t, i, script)
    requires A.IsDone(t.wire.out, k, t.queue.accepted[i].id)
    ensures t.queue.accepted[i].n in t.wire.doneAt && k == t.wire.doneAt[t.queue.accepted[i].n]
    ensures FailedDone(t.wire, t.queue.accepted[i])
  {
    A.ReachableInv(t);
    A.AnsweredIffStarted(t, i);
    A.AtMostOneDone(t, t.queue.accepted[i].id, k, t.wire.doneAt[t.queue.accepted[i].n]);
  }
}
