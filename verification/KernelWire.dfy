/**
 What the kernel's wire shows in every run: valid events behind one ready handshake, every malformed line
 reported, every refusal explained, and for each request answered by the executor its whole script.
 */
module KernelWire {
  import opened Prelude
  import opened Frames
  import opened Kernel
  import A = KernelAccounts
  import C = KernelCells
  import O = KernelOrder
  import T = RequestTable

  // ----- Valid events ------------------------------------------------------------------------------------

  /** Every event is one that Write accepts, and the handshake comes first and once. */
  ghost predicate AllValid(out: seq<Event>) {
    && out != [] && out[0].kind == Ready && out[0].id == None
    && (forall k :: 0 <= k < |out| ==> Valid(out[k]))
    && (forall k :: 0 < k < |out| ==> out[k].kind != Ready)
  }

  ghost predicate ScriptValid(x: Exec) {
    x.Running? ==> Fair(x.script)
  }

  predicate Fair(evs: seq<Event>) {
    forall j :: 0 <= j < |evs| ==> Valid(evs[j]) && evs[j].kind != Ready
  }

  lemma ScriptsAreValid(w: Work, evs: seq<Event>)
    requires Script(w, evs)
    ensures Fair(evs)
  {
    if w.ask == Execute {
      var n :| 0 <= n <= |evs| && (forall i :: 0 <= i < n ==> FromCell(evs[i], w.id)) && Outcome(evs[n..], w.id);
      CellIsValid(w.id, evs, n);
    }
  }

  lemma CellIsValid(id: Id, evs: seq<Event>, n: nat)
    requires n <= |evs| && (forall i :: 0 <= i < n ==> FromCell(evs[i], id)) && Outcome(evs[n..], id)
    ensures Fair(evs)
  {
    OutcomeIsValid(evs[n..], id);
    assert forall j :: n <= j < |evs| ==> evs[j] == evs[n..][j - n];
  }

  lemma OutcomeIsValid(evs: seq<Event>, id: Id)
    requires Outcome(evs, id)
    ensures Fair(evs)
  {
  }

  lemma ValidStep(s: State, a: Step)
    requires Enabled(s, a) && AllValid(s.wire.out) && ScriptValid(s.exec)
    ensures AllValid(Apply(s, a).wire.out) && ScriptValid(Apply(s, a).exec)
  {
    match a
    case Run(Reply(script)) => ScriptsAreValid(s.exec.w, script);
    case Run(_) =>
    case Read(r) => ReadValid(s, r);
    case _ =>
  }

  lemma ReadValid(s: State, r: ReadStep)
    requires ReadEnabled(s, r) && AllValid(s.wire.out)
    ensures AllValid(ReadApply(s, r).wire.out)
  {
  }

  lemma {:induction false} ReachedValid(steps: seq<Step>, s: State)
    requires Reached(steps) == Some(s)
    ensures AllValid(s.wire.out) && ScriptValid(s.exec)
  {
    if steps == [] {
    } else {
      var p := Reached(Front(steps)).value;
      ReachedValid(Front(steps), p);
      ValidStep(p, Last(steps));
    }
  }

  /** In every run every event handed to the writer is one it accepts, and the first, and no other, is the
      ready handshake. */
  lemma WireIsValid(s: State)
    requires Reachable(s)
    ensures s.wire.out != [] && s.wire.out[0].kind == Ready
    ensures forall e :: e in s.wire.out ==> e.kind in {Ready, Stdout, Stderr, EventKind.Result, Display, HostRequest, Error, Done}
    ensures forall k :: 0 < k < |s.wire.out| ==> s.wire.out[k].kind != Ready
  {
    var steps :| Reached(steps) == Some(s);
    ReachedValid(steps, s);
  }

  // ----- Malformed lines and interrupts ------------------------------------------------------------------

  function Malformeds(fs: seq<Frame>): nat {
    if fs == [] then 0 else Malformeds(Front(fs)) + if Last(fs).Malformed? then 1 else 0
  }

  /** Protocol errors that carry no id. */
  function Anonymous(out: seq<Event>): nat {
    if out == [] then 0
    else Anonymous(Front(out)) + if Last(out) == Event(Error, None, "", "ProtocolError", "", "") then 1 else 0
  }

  /** The ids named by interrupt frames, and by the interrupt commands sent to the table. */
  function Named(fs: seq<Frame>): seq<Id> {
    if fs == [] then [] else Named(Front(fs)) + if Last(fs).Interrupt? then [Last(fs).id] else []
  }

  function NamedToTable(h: seq<T.Cmd>): seq<Id> {
    if h == [] then [] else NamedToTable(Front(h)) + if Last(h).Interrupt? then [Last(h).id] else []
  }

  ghost predicate PassedOn(i: Stdin, w: Wire, t: TableLink) {
    && i.taken <= |i.fed|
    && Anonymous(w.out) == Malformeds(i.fed[..i.taken])
    && NamedToTable(t.sent) == Named(i.fed[..i.taken])
  }

  lemma TookOne(fs: seq<Frame>, f: Frame)
    ensures Malformeds(fs + [f]) == Malformeds(fs) + if f.Malformed? then 1 else 0
    ensures Named(fs + [f]) == Named(fs) + if f.Interrupt? then [f.id] else []
  {
    assert Front(fs + [f]) == fs;
  }

  lemma WroteOne(out: seq<Event>, e: Event)
    ensures Anonymous(out + [e]) == Anonymous(out) + if e == Event(Error, None, "", "ProtocolError", "", "") then 1 else 0
  {
    assert Front(out + [e]) == out;
  }

  lemma SentOne(h: seq<T.Cmd>, c: T.Cmd)
    ensures NamedToTable(h + [c]) == NamedToTable(h) + if c.Interrupt? then [c.id] else []
  {
    assert Front(h + [c]) == h;
  }

  lemma TakePassesOn(s: State, f: Frame)
    requires ReadEnabled(s, Take(f)) && PassedOn(s.stdin, s.wire, s.table)
    ensures var t := ReadApply(s, Take(f)); PassedOn(t.stdin, t.wire, t.table)
  {
    var i := s.stdin;
    assert i.fed[..i.taken + 1] == i.fed[..i.taken] + [f];
    TookOne(i.fed[..i.taken], f);
    JoinsNothing(Named(i.fed[..i.taken]));
    match f
    case Malformed => WroteOne(s.wire.out, ErrorEvent(None, ENAME_PROTOCOL, ""));
    case Interrupt(id) => SentOne(s.table.sent, T.Interrupt(id));
    case Shutdown(id) => WroteOne(s.wire.out, DoneEvent(id, STATUS_OK));
    case _ =>
  }

  /** No other step reports a malformed line or interrupts. */
  lemma OtherPassesOn(s: State, a: Step)
    requires Enabled(s, a) && !(a.Read? && a.r.Take?) && PassedOn(s.stdin, s.wire, s.table) && A.ExecShape(s.queue, s.exec)
    ensures var t := Apply(s, a); PassedOn(t.stdin, t.wire, t.table)
  {
    SameLines(s, a);
    WritesOther(s, a);
    SendsOther(s, a);
  }

  lemma SameLines(s: State, a: Step)
    requires Enabled(s, a) && !(a.Read? && a.r.Take?) && s.stdin.taken <= |s.stdin.fed|
    ensures var i := Apply(s, a).stdin;
      i.taken == s.stdin.taken <= |i.fed| && i.fed[..i.taken] == s.stdin.fed[..s.stdin.taken]
  {
  }

  /** A step writes at most one event. */
  lemma WritesOne(s: State, a: Step) returns (more: seq<Event>)
    requires Enabled(s, a)
    ensures Apply(s, a).wire.out == s.wire.out + more && |more| <= 1
    ensures more != [] ==> match a
      case Outside(Background(e)) => more[0] == e
      case Run(Emit) => more[0] == s.exec.script[s.exec.at]
      case Read(Take(Malformed)) => more[0] == ErrorEvent(None, ENAME_PROTOCOL, "")
      case Read(_) => more[0].id.Some?
      case _ => false
  {
    more := Apply(s, a).wire.out[|s.wire.out|..];
  }

  lemma WritesOther(s: State, a: Step)
    requires Enabled(s, a) && !(a.Read? && a.r.Take?) && A.ExecShape(s.queue, s.exec)
    ensures Anonymous(Apply(s, a).wire.out) == Anonymous(s.wire.out)
  {
    var more := WritesOne(s, a);
    if more == [] {
      JoinsNothing(s.wire.out);
    } else {
      assert more == [more[0]];
      WroteOne(s.wire.out, more[0]);
    }
  }

  lemma SendsOther(s: State, a: Step)
    requires Enabled(s, a) && !(a.Read? && a.r.Take?)
    ensures NamedToTable(Apply(s, a).table.sent) == NamedToTable(s.table.sent)
  {
    var h, g := s.table.sent, Apply(s, a).table.sent;
    if g != h {
      assert g == h + [Last(g)];
      SentOne(h, Last(g));
      JoinsNothing(NamedToTable(h));
    }
  }

  lemma {:induction false} ReachedPassedOn(steps: seq<Step>, s: State)
    requires Reached(steps) == Some(s)
    ensures PassedOn(s.stdin, s.wire, s.table)
  {
    if steps == [] {
      assert Front(INIT.wire.out) == [];
    } else {
      var p, a := Reached(Front(steps)).value, Last(steps);
      ReachedPassedOn(Front(steps), p);
      A.ReachedInv(Front(steps), p);
      if a.Read? && a.r.Take? {
        TakePassesOn(p, a.r.f);
      } else {
        OtherPassesOn(p, a);
      }
    }
  }

  /** In every run each malformed line read has one protocol error on the wire, and serving goes on. */
  lemma MalformedIsReported(s: State)
    requires Reachable(s)
    ensures s.stdin.taken <= |s.stdin.fed| && Anonymous(s.wire.out) == Malformeds(s.stdin.fed[..s.stdin.taken])
  {
    var steps :| Reached(steps) == Some(s);
    ReachedPassedOn(steps, s);
  }

  /** In every run the table has been sent exactly the interrupts read, in order. */
  lemma InterruptsAreSent(s: State)
    requires Reachable(s)
    ensures s.stdin.taken <= |s.stdin.fed| && NamedToTable(s.table.sent) == Named(s.stdin.fed[..s.stdin.taken])
  {
    var steps :| Reached(steps) == Some(s);
    ReachedPassedOn(steps, s);
  }

  lemma {:induction false} NamedHas(fs: seq<Frame>, x: Id)
    ensures x in Named(fs) <==> Interrupt(x) in fs
  {
    if fs == [] {
    } else {
      NamedHas(Front(fs), x);
      FrontAndLast(fs);
    }
  }

  lemma {:induction false} NamedToTableHas(h: seq<T.Cmd>, x: Id)
    ensures x in NamedToTable(h) <==> T.Interrupt(x) in h
  {
    if h == [] {
    } else {
      NamedToTableHas(Front(h), x);
      FrontAndLast(h);
    }
  }

  /** So an interrupt frame that was read is in the table's channel. */
  lemma ReadIsSent(s: State, x: Id)
    requires Reachable(s) && s.stdin.taken <= |s.stdin.fed|
    ensures Interrupt(x) in s.stdin.fed[..s.stdin.taken] <==> T.Interrupt(x) in s.table.sent
  {
    InterruptsAreSent(s);
    NamedHas(s.stdin.fed[..s.stdin.taken], x);
    NamedToTableHas(s.table.sent, x);
  }

  // ----- Refusals ----------------------------------------------------------------------------------------------

  /** The error that explains a refusal stands before position k. */
  ghost predicate Explained(out: seq<Event>, id: Id, k: nat) {
    exists j :: 0 <= j < k && j < |out| && out[j] == Event(Error, Some(id), "", "ProtocolError", "shutting down", "")
  }

  /** Requests are refused only once intake is closed, and every refusal is explained first. */
  ghost predicate RefusalsOk(i: Stdin, r: Reader, g: Gate, q: Queue, w: Wire) {
    && (r.RefusingError? ==> g.drain)
    && (r.RefusingDone? ==> g.drain && Explained(w.out, r.id, |w.out|))
    && (forall n :: n in w.doneAt && n < |i.fed| && i.fed[n].Request? && !A.InQueue(q, n) ==>
          g.drain && w.doneAt[n] < |w.out| && Explained(w.out, i.fed[n].id, w.doneAt[n]))
  }

  lemma ExplainedStays(out: seq<Event>, more: seq<Event>, id: Id, k: nat)
    requires Explained(out, id, k)
    ensures Explained(out + more, id, k)
  {
    var j :| 0 <= j < k && j < |out| && out[j] == Event(Error, Some(id), "", "ProtocolError", "shutting down", "");
    assert (out + more)[j] == out[j];
  }

  /** What was refused stays so. */
  lemma RefusedStays(i: Stdin, j: Stdin, g: Gate, h: Gate, q: Queue, p: Queue, w: Wire, v: Wire, n: nat)
    requires C.Keeps(w, v) && (g.drain ==> h.drain) && n < |i.fed| <= |j.fed| && j.fed[n] == i.fed[n]
    requires n in w.doneAt && i.fed[n].Request? && !A.InQueue(p, n) && (A.InQueue(q, n) ==> A.InQueue(p, n))
    requires !A.InQueue(q, n) ==> g.drain && w.doneAt[n] < |w.out| && Explained(w.out, i.fed[n].id, w.doneAt[n])
    ensures h.drain && v.doneAt[n] < |v.out| && Explained(v.out, j.fed[n].id, v.doneAt[n])
  {
    assert v.out == w.out + v.out[|w.out|..];
    ExplainedStays(w.out, v.out[|w.out|..], i.fed[n].id, w.doneAt[n]);
  }

  /** The step that answers n, if it is a new answer to a request outside the queue, is a refusal's last. */
  lemma NewRefusal(s: State, a: Step, n: nat)
    requires Enabled(s, a) && A.Shape(s) && n !in s.wire.doneAt && n in Apply(s, a).wire.doneAt
    requires n < |Apply(s, a).stdin.fed| && Apply(s, a).stdin.fed[n].Request? && !A.InQueue(Apply(s, a).queue, n)
    ensures a == Read(RefuseDone) && n == s.reader.n && Apply(s, a).wire.doneAt[n] == |s.wire.out|
    ensures Apply(s, a).stdin.fed[n].id == s.reader.id && |Apply(s, a).wire.out| == |s.wire.out| + 1
  {
    A.StillInQueue(s, a);
    if s.exec.Running? {
      RunningInQueue(s.queue, s.exec);
    }
  }

  lemma RunningInQueue(q: Queue, x: Exec)
    requires A.ExecShape(q, x) && x.Running?
    ensures A.InQueue(q, x.w.n)
  {
    assert q.accepted[q.started - 1].n == x.w.n;
  }

  lemma ReaderRefuses(s: State, a: Step)
    requires Enabled(s, a) && RefusalsOk(s.stdin, s.reader, s.gate, s.queue, s.wire)
    ensures var t := Apply(s, a);
      && (t.reader.RefusingError? ==> t.gate.drain)
      && (t.reader.RefusingDone? ==> t.gate.drain && Explained(t.wire.out, t.reader.id, |t.wire.out|))
  {
    var t := Apply(s, a);
    if a == Read(RefuseError) {
      assert t.wire.out[|s.wire.out|] == Event(Error, Some(s.reader.id), "", "ProtocolError", "shutting down", "");
    } else if s.reader.RefusingDone? && t.reader.RefusingDone? {
      assert t.wire.out == s.wire.out + t.wire.out[|s.wire.out|..];
      ExplainedStays(s.wire.out, t.wire.out[|s.wire.out|..], s.reader.id, |s.wire.out|);
    }
  }

  lemma RefusalsStep(s: State, a: Step)
    requires Enabled(s, a) && A.Shape(s) && A.Pending(s.stdin, s.reader, s.queue, s.exec, s.wire)
    requires RefusalsOk(s.stdin, s.reader, s.gate, s.queue, s.wire)
    ensures var t := Apply(s, a); RefusalsOk(t.stdin, t.reader, t.gate, t.queue, t.wire)
  {
    var t := Apply(s, a);
    ReaderRefuses(s, a);
    C.KeepsStep(s, a);
    A.StillInQueue(s, a);
    O.ExtendsStep(s, a);
    forall n | n in t.wire.doneAt && n < |t.stdin.fed| && t.stdin.fed[n].Request? && !A.InQueue(t.queue, n)
      ensures t.gate.drain && t.wire.doneAt[n] < |t.wire.out| && Explained(t.wire.out, t.stdin.fed[n].id, t.wire.doneAt[n])
    {
      if n in s.wire.doneAt {
        assert t.stdin.fed[n] == s.stdin.fed[n];
        RefusedStays(s.stdin, t.stdin, s.gate, t.gate, s.queue, t.queue, s.wire, t.wire, n);
      } else {
        NewRefusal(s, a, n);
        ExplainedStays(s.wire.out, t.wire.out[|s.wire.out|..], s.reader.id, |s.wire.out|);
        assert t.wire.out == s.wire.out + t.wire.out[|s.wire.out|..];
      }
    }
  }

  lemma {:induction false} ReachedRefusals(steps: seq<Step>, s: State)
    requires Reached(steps) == Some(s)
    ensures RefusalsOk(s.stdin, s.reader, s.gate, s.queue, s.wire)
  {
    if steps == [] {
    } else {
      var p := Reached(Front(steps)).value;
      ReachedRefusals(Front(steps), p);
      A.ReachedInv(Front(steps), p);
      RefusalsStep(p, Last(steps));
    }
  }

  /** In every run a request that the reader answers itself is answered after intake was closed, with an
      error that says so, and then with done:error. */
  lemma RefusalIsExplained(s: State, n: nat, k: nat)
    requires Reachable(s) && A.UniqueIds(s.stdin.fed)
    requires n < s.stdin.taken <= |s.stdin.fed| && s.stdin.fed[n].Request? && !A.InQueue(s.queue, n)
    requires A.IsDone(s.wire.out, k, s.stdin.fed[n].id)
    ensures s.gate.drain && s.wire.out[k] == Event(Done, Some(s.stdin.fed[n].id), "", "", "", "error")
    ensures Explained(s.wire.out, s.stdin.fed[n].id, k)
  {
    var steps :| Reached(steps) == Some(s);
    ReachedRefusals(steps, s);
    A.ReaderAnswers(s, n, k);
    A.ReachableInv(s);
    assert k in s.wire.owner;
  }

  // ----- The executor's answers --------------------------------------------------------------------------------

  /** The events are on the wire in this order, perhaps with others between. */
  ghost predicate Embeds(evs: seq<Event>, out: seq<Event>)
    decreases |out|
  {
    if evs == [] then true
    else if out == [] then false
    else (Last(evs) == Last(out) && Embeds(Front(evs), Front(out))) || Embeds(evs, Front(out))
  }

  lemma EmbedsPut(evs: seq<Event>, out: seq<Event>, e: Event)
    requires Embeds(evs, out)
    ensures Embeds(evs, out + [e]) && Embeds(evs + [e], out + [e])
  {
    assert Front(out + [e]) == out && Front(evs + [e]) == evs;
  }

  lemma {:induction false} EmbedsMember(evs: seq<Event>, out: seq<Event>, e: Event)
    requires Embeds(evs, out) && e in evs
    ensures e in out
    decreases |out|
  {
    if Last(evs) == Last(out) && Embeds(Front(evs), Front(out)) {
      FrontAndLast(evs);
      if e in Front(evs) {
        EmbedsMember(Front(evs), Front(out), e);
      }
    } else {
      EmbedsMember(evs, Front(out), e);
    }
  }

  /** The request's whole script is on the wire, up to its done event. */
  ghost predicate Whole(w: Wire, r: Work, script: seq<Event>) {
    && Script(r, script) && script != [] && r.n in w.doneAt && w.doneAt[r.n] < |w.out|
    && w.out[w.doneAt[r.n]] == Last(script) && Embeds(script, w.out[..w.doneAt[r.n] + 1])
  }

  ghost predicate AnsweredWhole(w: Wire, r: Work) {
    exists script :: Whole(w, r, script)
  }

  ghost predicate RunningOk(x: Exec, w: Wire) {
    x.Running? ==> Script(x.w, x.script) && x.at <= |x.script| && Embeds(x.script[..x.at], w.out)
  }

  ghost predicate WholeOk(q: Queue, x: Exec, w: Wire) {
    forall i :: 0 <= i < q.started && i < |q.accepted| && (i < q.started - 1 || !A.Owing(x)) ==> AnsweredWhole(w, q.accepted[i])
  }

  lemma WholeStays(w: Wire, v: Wire, r: Work)
    requires C.Keeps(w, v) && AnsweredWhole(w, r)
    ensures AnsweredWhole(v, r)
  {
    var script :| Whole(w, r, script);
    var d := w.doneAt[r.n];
    assert v.out[..d + 1] == w.out[..d + 1] && v.out[d] == w.out[d];
    assert Whole(v, r, script);
  }

  lemma RunningStep(s: State, a: Step)
    requires Enabled(s, a) && RunningOk(s.exec, s.wire)
    ensures RunningOk(Apply(s, a).exec, Apply(s, a).wire)
  {
    if a == Run(Emit) {
      EmitRunning(s);
    } else if s.exec.Running? {
      var more := WritesOne(s, a);
      if more == [] {
        JoinsNothing(s.wire.out);
      } else {
        assert more == [more[0]];
        EmbedsPut(s.exec.script[..s.exec.at], s.wire.out, more[0]);
      }
    } else {
      StartsRunning(s, a);
    }
  }

  lemma EmitRunning(s: State)
    requires ExecEnabled(s, Emit) && RunningOk(s.exec, s.wire)
    ensures RunningOk(ExecApply(s, Emit).exec, ExecApply(s, Emit).wire)
  {
    var t, e := ExecApply(s, Emit), s.exec.script[s.exec.at];
    EmbedsPut(s.exec.script[..s.exec.at], s.wire.out, e);
    assert t.exec.script[..t.exec.at] == s.exec.script[..s.exec.at] + [e];
    assert t.wire.out == s.wire.out + [e];
  }

  lemma StartsRunning(s: State, a: Step)
    requires Enabled(s, a) && !s.exec.Running?
    ensures RunningOk(Apply(s, a).exec, Apply(s, a).wire)
  {
    assert forall script: seq<Event> :: script[..0] == [];
  }

  /** The last event of a script completes it. */
  lemma LastEmitted(s: State)
    requires ExecEnabled(s, Emit) && A.ExecShape(s.queue, s.exec) && RunningOk(s.exec, s.wire) && s.exec.at == |s.exec.script| - 1
    ensures AnsweredWhole(ExecApply(s, Emit).wire, s.exec.w)
  {
    var e, script := s.exec.script[s.exec.at], s.exec.script;
    EmbedsPut(script[..s.exec.at], s.wire.out, e);
    assert script == script[..s.exec.at] + [e];
    var v := ExecApply(s, Emit).wire;
    assert v.out[..|s.wire.out| + 1] == s.wire.out + [e];
    assert Whole(v, s.exec.w, script);
  }

  lemma WholeStep(s: State, a: Step)
    requires Enabled(s, a) && A.Shape(s) && C.Keeps(s.wire, Apply(s, a).wire)
    requires RunningOk(s.exec, s.wire) && WholeOk(s.queue, s.exec, s.wire)
    ensures var t := Apply(s, a); WholeOk(t.queue, t.exec, t.wire)
  {
    var t := Apply(s, a);
    forall i | 0 <= i < t.queue.started && i < |t.queue.accepted| && (i < t.queue.started - 1 || !A.Owing(t.exec))
      ensures AnsweredWhole(t.wire, t.queue.accepted[i])
    {
      if a == Run(Emit) && i == s.queue.started - 1 {
        LastEmitted(s);
      } else {
        StartedBefore(s, a, i);
        WholeStays(s.wire, t.wire, s.queue.accepted[i]);
      }
    }
  }

  /** Only the executor's own emission answers a request newly. */
  lemma StartedBefore(s: State, a: Step, i: nat)
    requires Enabled(s, a) && A.Shape(s) && !(a == Run(Emit) && i == s.queue.started - 1)
    requires var t := Apply(s, a); i < t.queue.started && i < |t.queue.accepted| && (i < t.queue.started - 1 || !A.Owing(t.exec))
    ensures i < s.queue.started && i < |s.queue.accepted| && (i < s.queue.started - 1 || !A.Owing(s.exec))
    ensures Apply(s, a).queue.accepted[i] == s.queue.accepted[i]
  {
    if a.Run? && a.x.Reply? {
      A.ScriptHasOneDone(s.exec.w, a.x.script);
    }
  }

  lemma {:induction false} ReachedWhole(steps: seq<Step>, s: State)
    requires Reached(steps) == Some(s)
    ensures RunningOk(s.exec, s.wire) && WholeOk(s.queue, s.exec, s.wire)
  {
    if steps == [] {
    } else {
      var p, a := Reached(Front(steps)).value, Last(steps);
      ReachedWhole(Front(steps), p);
      A.ReachedInv(Front(steps), p);
      C.KeepsStep(p, a);
      RunningStep(p, a);
      WholeStep(p, a);
    }
  }

  /** In every run the done event of a request that was queued ends the whole of its script, in order. */
  lemma AnswerEndsScript(s: State, i: nat, k: nat) returns (script: seq<Event>)
    requires Reachable(s) && A.UniqueIds(s.stdin.fed) && i < |s.queue.accepted|
    requires A.IsDone(s.wire.out, k, s.queue.accepted[i].id)
    ensures Script(s.queue.accepted[i], script) && script != []
    ensures s.wire.out[k] == Last(script) && Embeds(script, s.wire.out[..k + 1])
  {
    var steps :| Reached(steps) == Some(s);
    ReachedWhole(steps, s);
    A.AnsweredIffStarted(s, i);
    var r := s.queue.accepted[i];
    script :| Whole(s.wire, r, script);
    A.ScriptHasOneDone(r, script);
    A.AtMostOneDone(s, r.id, k, s.wire.doneAt[r.n]);
  }

  /** list_names is answered with ok, snapshot and restore with ok or error, and a request of an unknown type
      by a protocol error that names the type and then by done:error. */
  lemma ExecutorAnswers(s: State, i: nat, k: nat)
    requires Reachable(s) && A.UniqueIds(s.stdin.fed) && i < |s.queue.accepted|
    requires A.IsDone(s.wire.out, k, s.queue.accepted[i].id)
    ensures var r, done := s.queue.accepted[i], s.wire.out[k];
      match r.ask
      case ListNames => done == Event(Done, Some(r.id), "", "", "", "ok")
      case Unknown(name) =>
        && done == Event(Done, Some(r.id), "", "", "", "error")
        && Event(Error, Some(r.id), "", "ProtocolError", "unknown request type " + name, "") in s.wire.out[..k]
      case _ => done == Event(Done, Some(r.id), "", "", "", "ok") || done == Event(Done, Some(r.id), "", "", "", "error")
  {
    var script := AnswerEndsScript(s, i, k);
    var r := s.queue.accepted[i];
    match r.ask {
      case Unknown(name) =>
        EmbedsMember(script, s.wire.out[..k + 1], script[0]);
        assert s.wire.out[..k + 1] == s.wire.out[..k] + [s.wire.out[k]];
      case Execute =>
        var n :| 0 <= n <= |script| && (forall j :: 0 <= j < n ==> FromCell(script[j], r.id)) && Outcome(script[n..], r.id);
        assert Last(script) == Last(script[n..]);
      case _ =>
    }
  }
}
