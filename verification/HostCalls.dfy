/**
 End to end: what an Execute call returns, over every interleaving of clients, client reader,
 writer goroutine and kernel.
 */
module HostCalls {
  import opened Prelude
  import opened Frames
  import opened Host
  import K = Kernel
  import A = KernelAccounts
  import O = KernelOrder
  import T = RequestTable

  // ----- One more event --------------------------------------------------------------------------

  lemma ReportSnoc(w: seq<Event>, e: Event, id: Id)
    ensures ReportOf(w + [e], id) == if IdString(e) == id then Absorb(ReportOf(w, id), e) else ReportOf(w, id)
  {
    assert Front(w + [e]) == w;
  }

  lemma OwedSnoc(w: seq<Event>, e: Event, id: Id)
    ensures FirstDone(w + [e], id) ==
      if FirstDone(w, id) < |w| || EndsCall(e, id) then FirstDone(w, id) else |w| + 1
    ensures Owed(w + [e], id) ==
      if FirstDone(w, id) < |w| || EndsCall(e, id) || IdString(e) != id then Owed(w, id) else Absorb(Owed(w, id), e)
  {
    assert Front(w + [e]) == w;
    assert (w + [e])[..|w|] == w == w[..|w|];
    ReportSnoc(w, e, id);
    assert (w + [e])[..|w| + 1] == w + [e];
    assert (w + [e])[..FirstDone(w, id)] == w[..FirstDone(w, id)];
  }

  // ----- Invariant ---------------------------------------------------------------------------------

  /** A call's pending holds exactly what the call is owed of the wire read so far. */
  ghost predicate CallOk(id: Id, call: Call, w: seq<Event>, pending: bool, gone: bool) {
    var done := FirstDone(w, id) < |w|;
    && call.report == Owed(w, id)
    && (pending <==> !call.stage.Joining? && !gone && !done)
    && (call.closed <==> !call.stage.Joining? && (gone || done))
    && (call.stage.Returned? ==> call.closed)
  }

  ghost predicate CallsOk(c: Client, w: seq<Event>) {
    forall id :: id in c.calls ==> CallOk(id, c.calls[id], w, id in c.pendings, c.gone)
  }

  ghost predicate Shape(c: Client) {
    && "" !in c.calls
    && c.pendings <= c.calls.Keys
    && (forall i :: 0 <= i < |c.reg| ==> c.reg[i] in c.calls && c.calls[c.reg[i]].stage.Joining?)
    && NoDuplicates(c.reg)
  }

  /** The call has sent its request. */
  predicate HasAsked(c: Client, id: Id) {
    id in c.calls && !c.calls[id].stage.Joining? && !c.calls[id].stage.Joined?
  }

  /** Every request line is the one of a call that has asked, every interrupt line follows it. */
  ghost predicate LinesOk(c: Client) {
    && (forall i :: 0 <= i < |c.lines| ==> LineOk(c, i))
    && (forall i, j :: 0 <= i < j < |c.lines| && c.lines[i].Request? && c.lines[j].Request? ==> c.lines[i].id != c.lines[j].id)
    && (forall id :: HasAsked(c, id) ==> O.AskedBefore(c.lines, |c.lines|, id))
  }

  ghost predicate LineOk(c: Client, i: nat)
    requires i < |c.lines|
  {
    match c.lines[i]
    case Malformed => false
    case Interrupt(id) => O.AskedBefore(c.lines, i, id)
    case HostReply(_) => true
    case Shutdown(id) => id == ""
    case Request(_, id) => HasAsked(c, id)
  }

  predicate Wired(s: Sys) {
    && s.c.pumped <= |s.c.lines| && s.k.stdin.fed == s.c.lines[..s.c.pumped]
    && s.c.read <= |s.k.wire.out|
  }

  /** Every reply line answers a host request read before. */
  ghost predicate RepliesOk(lines: seq<Frame>, w: seq<Event>) {
    forall i :: 0 <= i < |lines| && lines[i].HostReply? ==> HasRequest(w, lines[i].id)
  }

  ghost predicate HasRequest(w: seq<Event>, id: Id) {
    exists k :: 0 <= k < |w| && w[k].kind == HostRequest && w[k].id == Some(id)
  }

  ghost predicate Inv(s: Sys) {
    && Shape(s.c) && LinesOk(s.c) && Wired(s)
    && CallsOk(s.c, s.k.wire.out[..s.c.read])
    && RepliesOk(s.c.lines, s.k.wire.out[..s.c.read])
  }

  // ----- Steps ---------------------------------------------------------------------------------------

  /** Appending a line that is in order keeps the lines in order; stages only move forward. */
  lemma MoreLines(c: Client, d: Client, more: seq<Frame>)
    requires LinesOk(c) && d.lines == c.lines + more && |more| <= 1
    requires forall id :: HasAsked(c, id) ==> HasAsked(d, id)
    requires forall id :: HasAsked(d, id) && !HasAsked(c, id) ==> more != [] && more[0].Request? && more[0].id == id
    requires more != [] ==> match more[0]
      case Malformed => false
      case Interrupt(id) => HasAsked(c, id)
      case HostReply(_) => true
      case Shutdown(id) => id == ""
      case Request(_, id) => HasAsked(d, id) && !HasAsked(c, id)
    ensures LinesOk(d)
  {
    forall m: nat, x | m <= |c.lines| && O.AskedBefore(c.lines, m, x) ensures O.AskedBefore(d.lines, m, x) {
      var n :| 0 <= n < m && n < |c.lines| && c.lines[n].Request? && c.lines[n].id == x;
      assert d.lines[n] == c.lines[n];
    }
    forall id | HasAsked(d, id) ensures O.AskedBefore(d.lines, |d.lines|, id) {
      if HasAsked(c, id) {
        var n :| 0 <= n < |c.lines| && c.lines[n].Request? && c.lines[n].id == id;
        assert d.lines[n] == c.lines[n];
      } else {
        assert d.lines[|c.lines|] == more[0];
      }
    }
    forall i | 0 <= i < |d.lines| ensures LineOk(d, i) {
      if i < |c.lines| {
        assert LineOk(c, i) && d.lines[i] == c.lines[i];
      } else {
        assert d.lines[i] == more[0];
      }
    }
    forall i, j | 0 <= i < j < |d.lines| && d.lines[i].Request? && d.lines[j].Request? ensures d.lines[i].id != d.lines[j].id {
      if j == |c.lines| {
        assert LineOk(c, i) && d.lines[i] == c.lines[i];
      }
    }
  }

  /** An event attributed to a call can only come after its request was written. */
  lemma Silent(s: Sys, id: Id, k: nat)
    requires Inv(s) && O.Attributed(s.k.stdin, s.k.wire) && !HasAsked(s.c, id) && id != ""
    requires k < |s.k.wire.out| && s.k.wire.out[k].kind != HostRequest
    ensures IdString(s.k.wire.out[k]) != id
  {
    if IdString(s.k.wire.out[k]) == id {
      assert O.WasRead(s.k.stdin, id);
      ReadWasAsked(s, id);
    }
  }

  lemma ReadWasAsked(s: Sys, id: Id)
    requires Inv(s) && O.WasRead(s.k.stdin, id) && id != ""
    ensures HasAsked(s.c, id)
  {
    var n :| 0 <= n < s.k.stdin.taken && n < |s.k.stdin.fed| && A.Asks(s.k.stdin.fed[n]) && s.k.stdin.fed[n].id == id;
    assert LineOk(s.c, n);
  }

  /** onEvent gives each pending what it is owed, and nothing to anyone else. */
  lemma EventCall(c: Client, id: Id, w: seq<Event>, e: Event)
    requires id in c.calls && !c.gone && CallOk(id, c.calls[id], w, id in c.pendings, c.gone)
    requires !HasAsked(c, id) ==> e.kind == HostRequest || IdString(e) != id
    requires e.kind == HostRequest ==> Absorb(Owed(w, id), e) == Owed(w, id)
    ensures var d := OnEvent(c, e); id in d.calls && CallOk(id, d.calls[id], w + [e], id in d.pendings, d.gone)
  {
    OwedSnoc(w, e, id);
    if e.kind == HostRequest || IdString(e) != id {
      OtherEvent(c, id, e);
    }
  }

  lemma OtherEvent(c: Client, id: Id, e: Event)
    requires id in c.calls && (e.kind == HostRequest || IdString(e) != id)
    ensures var d := OnEvent(c, e);
      id in d.calls && d.calls[id] == c.calls[id] && (id in d.pendings <==> id in c.pendings) && d.gone == c.gone
  {
  }

  lemma EventCalls(s: Sys)
    requires Inv(s) && O.Attributed(s.k.stdin, s.k.wire) && Enabled(s, ReadEvent)
    ensures CallsOk(Apply(s, ReadEvent).c, s.k.wire.out[..s.c.read + 1])
  {
    var w, e := s.k.wire.out[..s.c.read], s.k.wire.out[s.c.read];
    assert s.k.wire.out[..s.c.read + 1] == w + [e];
    forall id | id in s.c.calls
      ensures var d := OnEvent(s.c, e); id in d.calls && CallOk(id, d.calls[id], w + [e], id in d.pendings, d.gone)
    {
      if !HasAsked(s.c, id) && e.kind != HostRequest {
        Silent(s, id, s.c.read);
      }
      EventCall(s.c, id, w, e);
    }
  }

  lemma NotYetMentioned(s: Sys, id: Id)
    requires Inv(s) && O.Attributed(s.k.stdin, s.k.wire) && !HasAsked(s.c, id) && id != ""
    ensures var w := s.k.wire.out[..s.c.read]; FirstDone(w, id) == |w| && Owed(w, id) == NOTHING
  {
    var w := s.k.wire.out[..s.c.read];
    forall k | 0 <= k < |w| && w[k].kind != HostRequest ensures IdString(w[k]) != id {
      Silent(s, id, k);
    }
    QuietReport(w, id);
    assert w[..|w|] == w;
  }

  lemma {:induction false} QuietReport(w: seq<Event>, id: Id)
    requires forall k :: 0 <= k < |w| && w[k].kind != HostRequest ==> IdString(w[k]) != id
    ensures ReportOf(w, id) == NOTHING
  {
    if w == [] {
    } else {
      QuietReport(Front(w), id);
    }
  }

  lemma EventLines(c: Client, e: Event)
    requires Shape(c) && LinesOk(c)
    ensures Shape(OnEvent(c, e)) && LinesOk(OnEvent(c, e))
  {
    MoreLines(c, OnEvent(c, e), if e.kind == HostRequest && e.id.Some? then [HostReply(e.id.value)] else []);
  }

  lemma EventStep(s: Sys)
    requires Inv(s) && O.Attributed(s.k.stdin, s.k.wire) && Enabled(s, ReadEvent)
    ensures Inv(Apply(s, ReadEvent))
  {
    EventCalls(s);
    EventShape(s);
    EventReplies(s);
  }

  lemma EventReplies(s: Sys)
    requires Wired(s) && RepliesOk(s.c.lines, s.k.wire.out[..s.c.read]) && Enabled(s, ReadEvent)
    ensures RepliesOk(Apply(s, ReadEvent).c.lines, s.k.wire.out[..s.c.read + 1])
  {
    var w, v, lines := s.k.wire.out[..s.c.read], s.k.wire.out[..s.c.read + 1], Apply(s, ReadEvent).c.lines;
    assert v == w + [s.k.wire.out[s.c.read]];
    forall i | 0 <= i < |lines| && lines[i].HostReply? ensures HasRequest(v, lines[i].id) {
      if i < |s.c.lines| {
        assert lines[i] == s.c.lines[i];
        var k :| 0 <= k < |w| && w[k].kind == HostRequest && w[k].id == Some(lines[i].id);
        assert v[k] == w[k];
      } else {
        assert v[|w|].kind == HostRequest && v[|w|].id == Some(lines[i].id);
      }
    }
  }

  lemma EventShape(s: Sys)
    requires Shape(s.c) && LinesOk(s.c) && Wired(s) && Enabled(s, ReadEvent)
    ensures var t := Apply(s, ReadEvent); Shape(t.c) && LinesOk(t.c) && Wired(t)
  {
    EventLines(s.c, s.k.wire.out[s.c.read]);
    var d := OnEvent(s.c, s.k.wire.out[s.c.read]);
    MoreLines(d, Apply(s, ReadEvent).c, []);
  }

  lemma JoinStep(s: Sys, id: Id)
    requires Inv(s) && O.Attributed(s.k.stdin, s.k.wire) && Enabled(s, Join(id))
    ensures Inv(Apply(s, Join(id)))
  {
    NotYetMentioned(s, id);
    MoreLines(s.c, Apply(s, Join(id)).c, []);
  }

  lemma AcknowledgeStep(s: Sys)
    requires Inv(s) && O.Attributed(s.k.stdin, s.k.wire) && Enabled(s, Acknowledge)
    ensures Inv(Apply(s, Acknowledge))
  {
    NotYetMentioned(s, s.c.reg[0]);
    MoreLines(s.c, Apply(s, Acknowledge).c, []);
  }

  lemma AskStep(s: Sys, id: Id)
    requires Inv(s) && Enabled(s, Ask(id))
    ensures Inv(Apply(s, Ask(id)))
  {
    MoreLines(s.c, Apply(s, Ask(id)).c, [Request(Execute, id)]);
  }

  lemma CutShortStep(s: Sys, id: Id)
    requires Inv(s) && Enabled(s, CutShort(id))
    ensures Inv(Apply(s, CutShort(id)))
  {
    MoreLines(s.c, Apply(s, CutShort(id)).c, [Frame.Interrupt(id)]);
  }

  lemma OtherStep(s: Sys, a: Step)
    requires Inv(s) && Enabled(s, a) && (a.Return? || a.LinesEnd? || a.Shutdown?)
    ensures Inv(Apply(s, a))
  {
    MoreLines(s.c, Apply(s, a).c, if a.Shutdown? then [Frame.Shutdown("")] else []);
  }

  /** The kernel only ever appends to its output, and takes input only from the writer. */
  lemma KernelAppends(k: K.State, b: K.Step)
    requires K.Enabled(k, b)
    ensures |k.wire.out| <= |K.Apply(k, b).wire.out| && k.wire.out == K.Apply(k, b).wire.out[..|k.wire.out|]
    ensures !(b.Outside? && b.o.Feed?) ==> K.Apply(k, b).stdin.fed == k.stdin.fed
  {
  }

  lemma KernelStep(s: Sys, a: Step)
    requires Inv(s) && Enabled(s, a) && (a.Inside? || a.Pump?)
    ensures Inv(Apply(s, a))
  {
    var t := Apply(s, a);
    KernelAppends(s.k, if a.Inside? then a.a else K.Outside(K.Feed(s.c.lines[s.c.pumped])));
    assert t.k.wire.out[..s.c.read] == s.k.wire.out[..s.c.read];
    MoreLines(s.c, t.c, []);
  }

  lemma StepKeepsInv(s: Sys, a: Step)
    requires Inv(s) && O.Attributed(s.k.stdin, s.k.wire) && Enabled(s, a)
    ensures Inv(Apply(s, a))
  {
    match a
    case Join(id) => JoinStep(s, id);
    case Acknowledge => AcknowledgeStep(s);
    case Ask(id) => AskStep(s, id);
    case CutShort(id) => CutShortStep(s, id);
    case Return(_) => OtherStep(s, a);
    case ReadEvent => EventStep(s);
    case LinesEnd => OtherStep(s, a);
    case Shutdown => OtherStep(s, a);
    case Pump => KernelStep(s, a);
    case Inside(_) => KernelStep(s, a);
  }

  /** The kernel inside a system run is in a state it can reach by itself. */
  lemma {:induction false} ReachedSys(steps: seq<Step>, s: Sys)
    requires Reached(steps) == Some(s)
    ensures Inv(s) && K.Reachable(s.k) && O.OrderInv(s.k)
  {
    if steps == [] {
      assert K.Reached([]) == Some(K.INIT);
      O.ReachedOrderInv([], K.INIT);
    } else {
      var p, a := Reached(Front(steps)).value, Last(steps);
      ReachedSys(Front(steps), p);
      StepKeepsInv(p, a);
      var ks :| K.Reached(ks) == Some(p.k);
      if a.Pump? || a.Inside? {
        var b := if a.Inside? then a.a else K.Outside(K.Feed(p.c.lines[p.c.pumped]));
        A.Extend(ks, p.k, b);
        O.ReachedOrderInv(ks + [b], s.k);
      }
    }
  }

  lemma ReachableSys(s: Sys)
    requires Reachable(s)
    ensures Inv(s) && K.Reachable(s.k)
  {
    var steps :| Reached(steps) == Some(s);
    ReachedSys(steps, s);
  }

  // ----- What a caller gets ----------------------------------------------------------------------------

  /** The ids this client puts on the wire are as the kernel's theorems ask: not empty, not reused,
      and interrupted only after they were asked for. */
  lemma ClientDiscipline(s: Sys)
    requires Reachable(s)
    ensures A.UniqueIds(s.k.stdin.fed) && O.AsksFirst(s.k.stdin.fed)
  {
    ReachableSys(s);
    var fed := s.k.stdin.fed;
    forall n | 0 <= n < |fed| ensures LineOk(s.c, n) && fed[n] == s.c.lines[n] {
    }
    forall m | 0 <= m < |fed| && fed[m].Interrupt? && fed[m].id != "" ensures O.AskedBefore(fed, m, fed[m].id) {
      var n :| 0 <= n < m && s.c.lines[n].Request? && s.c.lines[n].id == fed[m].id;
      assert fed[n] == s.c.lines[n];
    }
  }

  /** An Execute cut short never poisons another cell: when the table comes to an interrupt it sent, that
      call's own request is cancelled, or has ended, or was refused, and in the last two cases the
      interrupt stays parked under an id that is never activated again. */
  lemma CutShortIsHarmless(s: Sys)
    requires Reachable(s) && s.k.table.handled < |s.k.table.sent|
    requires s.k.table.sent[s.k.table.handled].Interrupt? && s.k.table.sent[s.k.table.handled].id != ""
    ensures var h, x := K.Processed(s.k.table), s.k.table.sent[s.k.table.handled].id;
      || T.CtxCancelled(h + [T.Interrupt(x)], x)
      || (T.Deactivate(x) in h && O.NeverAgain(s.k, x))
      || (O.TurnedAway(s.k.stdin, s.k.reader, s.k.queue, x) && O.NeverAgain(s.k, x))
  {
    ReachableSys(s);
    ClientDiscipline(s);
    O.LateInterruptIsHarmless(s.k);
  }

  /** A call that returns has, unless the event stream ended under it, its one done event on the
      wire, and returns exactly the texts, the last result and the last error that carry its id and
      precede that event, from the first event on the wire on. */
  lemma ExecuteReturnsItsOutput(s: Sys, id: Id) returns (d: nat)
    requires Reachable(s) && id in s.c.calls && s.c.calls[id].stage.Returned?
    requires !s.c.gone
    ensures A.IsDone(s.k.wire.out, d, id) && d < s.c.read
    ensures forall k :: A.IsDone(s.k.wire.out, k, id) ==> k == d
    ensures s.c.calls[id].report.output == Texts(s.k.wire.out[..d], id)
    ensures s.c.calls[id].report.result == LastResult(s.k.wire.out[..d], id)
    ensures s.c.calls[id].report.err == LastError(s.k.wire.out[..d], id)
  {
    ReachableSys(s);
    ClientDiscipline(s);
    var w := s.k.wire.out[..s.c.read];
    d := FirstDone(w, id);
    assert w[d] == s.k.wire.out[d] && w[..d] == s.k.wire.out[..d];
    forall k | A.IsDone(s.k.wire.out, k, id) ensures k == d {
      A.AtMostOneDone(s.k, id, k, d);
    }
  }

  /** If the stream ended first, the call still gets everything that came for it. */
  lemma ExecuteAtStreamEnd(s: Sys, id: Id)
    requires Reachable(s) && id in s.c.calls && s.c.calls[id].stage.Returned?
    ensures s.c.read <= |s.k.wire.out|
    ensures s.c.calls[id].report == Owed(s.k.wire.out[..s.c.read], id)
  {
    ReachableSys(s);
  }

  /** A request of the call was read and is through. */
  ghost predicate Served(k: K.State, id: Id, n: nat) {
    n < k.stdin.taken <= |k.stdin.fed| && k.stdin.fed[n].Request? && k.stdin.fed[n].id == id && A.Through(k, n)
  }

  /** When the whole wire has been read, clean or not: a call of Execute can return if and
      only if its request was read and is through, which is to say that it is not in the reader's hands,
      was not given up, and was started by the executor, which is not still at it. */
  lemma ExecuteIsAnsweredIff(s: Sys, id: Id)
    requires Reachable(s) && id in s.c.calls && !s.c.gone && s.c.read == |s.k.wire.out|
    ensures s.c.calls[id].closed <==> exists n :: Served(s.k, id, n)
  {
    ReachableSys(s);
    A.ReachableInv(s.k);
    ClientDiscipline(s);
    assert s.k.wire.out[..s.c.read] == s.k.wire.out;
    if s.c.calls[id].closed {
      ClosedIsServed(s, id);
    }
    forall n: nat | Served(s.k, id, n) ensures s.c.calls[id].closed {
      ServedIsClosed(s, id, n);
    }
  }

  lemma ClosedIsServed(s: Sys, id: Id)
    requires K.Reachable(s.k) && A.UniqueIds(s.k.stdin.fed) && A.Tied(s.k.stdin, s.k.wire)
    requires LinesOk(s.c) && Wired(s) && id != "" && FirstDone(s.k.wire.out, id) < |s.k.wire.out|
    ensures exists n :: Served(s.k, id, n)
  {
    var n := AskerOf(s, id, FirstDone(s.k.wire.out, id));
    A.AnsweredIff(s.k, n);
    assert Served(s.k, id, n);
  }

  lemma ServedIsClosed(s: Sys, id: Id, n: nat)
    requires Inv(s) && K.Reachable(s.k) && A.UniqueIds(s.k.stdin.fed) && Served(s.k, id, n)
    requires id in s.c.calls && CallOk(id, s.c.calls[id], s.k.wire.out, id in s.c.pendings, s.c.gone)
    ensures s.c.calls[id].closed
  {
    A.AnsweredIff(s.k, n);
    var k :| A.IsDone(s.k.wire.out, k, id);
    assert EndsCall(s.k.wire.out[k], id) && LineOk(s.c, n);
  }

  /** The request that a done event on the wire answers. */
  lemma AskerOf(s: Sys, id: Id, k: nat) returns (n: nat)
    requires A.Tied(s.k.stdin, s.k.wire) && LinesOk(s.c) && Wired(s) && id != ""
    requires A.IsDone(s.k.wire.out, k, id)
    ensures n < s.k.stdin.taken <= |s.k.stdin.fed| && s.k.stdin.fed[n].Request? && s.k.stdin.fed[n].id == id
    ensures A.IsDone(s.k.wire.out, k, s.k.stdin.fed[n].id)
  {
    assert k in s.k.wire.owner;
    n := s.k.wire.owner[k];
    assert LineOk(s.c, n);
  }

  /** This client answers only host requests it saw on the wire, as the bridge's theorem about lost
      replies asks of a host. */
  lemma RepliesAnswerRequests(s: Sys, i: nat)
    requires Reachable(s) && i < |s.k.stdin.fed| && s.k.stdin.fed[i].HostReply?
    ensures HasRequest(s.k.wire.out, s.k.stdin.fed[i].id)
  {
    ReachableSys(s);
    var w, id := s.k.wire.out[..s.c.read], s.k.stdin.fed[i].id;
    assert s.c.lines[i] == s.k.stdin.fed[i];
    var k :| 0 <= k < |w| && w[k].kind == HostRequest && w[k].id == Some(id);
    assert s.k.wire.out[k] == w[k];
  }
}
