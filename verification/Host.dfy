/**
 The in-process client (host/kernel.go) wired to the kernel: any number of concurrent Execute
 calls, the goroutine that writes request lines, the reader that owns the pending map, and
 every step of the kernel, in any order.
 */
module Host {
  import opened Prelude
  import opened Frames
  import K = Kernel

  /** Where a call of Execute stands. */
  datatype Stage =
    | Joining        // pending sent to the reader, not yet acknowledged
    | Joined         // acknowledged, request not yet sent
    | Asked          // waits for done or for its context
    | Interrupting   // its context ended: interrupt sent, waits for done
    | Returned

  /** What a call hands back: the texts, the last result and the last error. */
  datatype Report = Report(output: seq<string>, result: string, err: Option<Event>)

  const NOTHING := Report([], "", None)

  /** `closed` is the pending's done channel. */
  datatype Call = Call(stage: Stage, report: Report, closed: bool)

  /** `lines`/`pumped` are the request lines sent and written to the kernel's stdin, `read` counts
      the events received, `gone` says the reader has returned. */
  datatype Client = Client(
    calls: map<Id, Call>, reg: seq<Id>, pendings: set<Id>,
    lines: seq<Frame>, pumped: nat, read: nat, gone: bool)

  datatype Sys = Sys(c: Client, k: K.State)

  const INIT := Sys(Client(map[], [], {}, [], 0, 0, false), K.INIT)

  datatype Step =
    | Join(id: Id)         // Execute starts, with a fresh id
    | Acknowledge          // the reader registers the next pending
    | Ask(id: Id)          // Execute sends its request
    | CutShort(id: Id)     // Execute sees its context end and sends an interrupt
    | Return(id: Id)
    | ReadEvent
    | LinesEnd             // the event stream ends, or its next line does not fit the scanner
    | Shutdown             // KernelHost.Shutdown; its context cancellation is the kernel's OuterCancel
    | Pump                 // the writer goroutine writes the next line
    | Inside(a: K.Step)    // any step of the kernel but the arrival of a line

  ghost predicate Enabled(s: Sys, a: Step) {
    match a
    case Join(id) => id != "" && id !in s.c.calls
    case Acknowledge => !s.c.gone && s.c.reg != []
    case Ask(id) => id in s.c.calls && s.c.calls[id].stage == Joined
    case CutShort(id) => id in s.c.calls && s.c.calls[id].stage == Asked
    case Return(id) =>
      id in s.c.calls && s.c.calls[id].closed && (s.c.calls[id].stage == Asked || s.c.calls[id].stage == Interrupting)
    case ReadEvent => !s.c.gone && s.c.read < |s.k.wire.out|
    case LinesEnd => !s.c.gone
    case Shutdown => true
    case Pump => s.c.pumped < |s.c.lines| && K.Enabled(s.k, K.Outside(K.Feed(s.c.lines[s.c.pumped])))
    case Inside(b) => K.Enabled(s.k, b) && !(b.Outside? && b.o.Feed?)
  }

  /** onEvent for one pending. */
  function Absorb(r: Report, e: Event): Report {
    match e.kind
    case Stdout => if e.text != "" then r.(output := r.output + [e.text]) else r
    case Stderr => if e.text != "" then r.(output := r.output + [e.text]) else r
    case Result => r.(result := e.text)
    case Error => r.(err := Some(e))
    case _ => r
  }

  function OnEvent(c: Client, e: Event): Client {
    var x := IdString(e);
    if e.kind == HostRequest then
      if e.id.None? then c else c.(lines := c.lines + [HostReply(x)])
    else if x in c.pendings && x in c.calls then
      if e.kind == Done then
        c.(pendings := c.pendings - {x}, calls := c.calls[x := c.calls[x].(closed := true)])
      else
        c.(calls := c.calls[x := c.calls[x].(report := Absorb(c.calls[x].report, e))])
    else c
  }

  function SetStage(c: Client, id: Id, stage: Stage): Client
    requires id in c.calls
  {
    c.(calls := c.calls[id := c.calls[id].(stage := stage)])
  }

  function Line(c: Client, f: Frame): Client {
    c.(lines := c.lines + [f])
  }

  /** The reader closes the done channel of every pending left. */
  function CloseAll(c: Client): Client {
    c.(gone := true, pendings := {},
       calls := map id | id in c.calls :: if id in c.pendings then c.calls[id].(closed := true) else c.calls[id])
  }

  ghost function Apply(s: Sys, a: Step): Sys
    requires Enabled(s, a)
  {
    match a
    case Join(id) => s.(c := s.c.(calls := s.c.calls[id := Call(Joining, NOTHING, false)], reg := s.c.reg + [id]))
    case Acknowledge =>
      var id := s.c.reg[0];
      var c := s.c.(reg := s.c.reg[1..], pendings := s.c.pendings + {id});
      s.(c := if id in c.calls then SetStage(c, id, Joined) else c)
    case Ask(id) => s.(c := Line(SetStage(s.c, id, Asked), Request(Execute, id)))
    case CutShort(id) => s.(c := Line(SetStage(s.c, id, Interrupting), Frame.Interrupt(id)))
    case Return(id) => s.(c := SetStage(s.c, id, Returned))
    case ReadEvent => s.(c := OnEvent(s.c, s.k.wire.out[s.c.read]).(read := s.c.read + 1))
    case LinesEnd => s.(c := CloseAll(s.c))
    case Shutdown => s.(c := Line(s.c, Frame.Shutdown("")))
    case Pump => Sys(s.c.(pumped := s.c.pumped + 1), K.Apply(s.k, K.Outside(K.Feed(s.c.lines[s.c.pumped]))))
    case Inside(b) => s.(k := K.Apply(s.k, b))
  }

  ghost function Reached(steps: seq<Step>): Option<Sys> {
    if steps == [] then Some(INIT)
    else match Reached(Front(steps))
      case None => None
      case Some(s) => if Enabled(s, Last(steps)) then Some(Apply(s, Last(steps))) else None
  }

  ghost predicate Reachable(s: Sys) {
    exists steps :: Reached(steps) == Some(s)
  }

  // ----- What a call should return ---------------------------------------------------------------

  /** The non-empty stdout and stderr texts that carry the id, in wire order. */
  function Texts(w: seq<Event>, id: Id): seq<string> {
    if w == [] then []
    else
      var e := Last(w);
      Texts(Front(w), id) +
      if (e.kind == Stdout || e.kind == Stderr) && IdString(e) == id && e.text != "" then [e.text] else []
  }

  function LastResult(w: seq<Event>, id: Id): string {
    if w == [] then ""
    else if Last(w).kind == Result && IdString(Last(w)) == id then Last(w).text
    else LastResult(Front(w), id)
  }

  function LastError(w: seq<Event>, id: Id): Option<Event> {
    if w == [] then None
    else if Last(w).kind == Error && IdString(Last(w)) == id then Some(Last(w))
    else LastError(Front(w), id)
  }

  function ReportOf(w: seq<Event>, id: Id): Report {
    Report(Texts(w, id), LastResult(w, id), LastError(w, id))
  }

  predicate EndsCall(e: Event, id: Id) {
    e.kind == Done && IdString(e) == id
  }

  /** The position of the first done event for the id, or the length. */
  function FirstDone(w: seq<Event>, id: Id): (d: nat)
    ensures d <= |w|
    ensures d < |w| ==> EndsCall(w[d], id)
    ensures forall k :: 0 <= k < d ==> !EndsCall(w[k], id)
  {
    if w == [] then 0
    else
      var d := FirstDone(Front(w), id);
      if d < |w| - 1 || EndsCall(Last(w), id) then d else |w|
  }

  /** What the call is owed of a stretch of wire: everything up to its first done event. */
  function Owed(w: seq<Event>, id: Id): Report {
    ReportOf(w[..FirstDone(w, id)], id)
  }
}
