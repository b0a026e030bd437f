/**
 NDJSON framing (rlm/frames.go): the writer actor that owns the output, and what a line scanner
 on the other end of it reads.  JSON is a function from events to lines that may fail.
 */
module Framing {
  import opened Prelude
  import opened Text
  import opened Frames

  /** bufio.Scanner's limit as both ends set it. */
  const MAX_LINE := 16777216

  // ----- Lines on the wire ----------------------------------------------------------------------------

  function Framed(ls: seq<string>): string {
    if ls == [] then "" else Framed(Front(ls)) + Last(ls) + "\n"
  }

  /** bufio.ScanLines drops a carriage return before the newline. */
  function DropCR(l: string): string {
    if l != "" && Last(l) == '\r' then Front(l) else l
  }

  /** The scanner stops for good at a line that does not fit its buffer. */
  function Fitting(ls: seq<string>, max: nat): seq<string> {
    if ls == [] || |ls[0]| >= max then [] else [DropCR(ls[0])] + Fitting(ls[1..], max)
  }

  /** The tokens of a scanner over the bytes: what follows the last newline counts if not empty. */
  function ScanLines(s: string, max: nat): seq<string> {
    var ls := Split(s);
    Fitting(if Last(ls) == "" then Front(ls) else ls, max)
  }

  predicate Framable(l: string, max: nat) {
    OneLine(l) && |l| < max && (l != "" ==> Last(l) != '\r')
  }

  lemma {:induction false} FrameIsJoin(ls: seq<string>)
    ensures Framed(ls) == Join(ls + [""])
  {
    assert Front(ls + [""]) == ls;
    if ls == [] {
    } else if |ls| == 1 {
      assert Framed(Front(ls)) + Last(ls) == ls[0];
      assert ls[0] + "\n" == ls[0] + "\n" + "";
    } else {
      FrameIsJoin(Front(ls));
      JoinJoin(Front(ls) + [""], [""]);
      JoinLast(Front(ls), Last(ls));
      assert Join(ls + [""]) == Join(ls) + "\n" + "";
      assert Join(ls) + "\n" + "" == Join(ls) + "\n";
    }
  }

  lemma JoinLast(ls: seq<string>, l: string)
    requires ls != []
    ensures Join(ls + [""]) + l == Join(ls + [l])
  {
    assert Front(ls + [""]) == ls && Front(ls + [l]) == ls;
    assert Join(ls) + "\n" + "" + l == Join(ls) + "\n" + l;
  }

  lemma {:induction false} FittingKeeps(ls: seq<string>, max: nat)
    ensures Fitting(ls, max) == ls <==> forall i :: 0 <= i < |ls| ==> |ls[i]| < max && (ls[i] != "" ==> Last(ls[i]) != '\r')
  {
    if ls == [] {
    } else {
      FittingKeeps(ls[1..], max);
      assert ls == [ls[0]] + ls[1..];
      assert forall i :: 1 <= i < |ls| ==> ls[i] == ls[1..][i - 1];
      if Fitting(ls, max) == ls {
        assert Fitting(ls, max)[0] == ls[0] && Fitting(ls, max)[1..] == ls[1..];
        assert |DropCR(ls[0])| == |ls[0]|;
      }
    }
  }

  lemma {:induction false} FittingLines(ls: seq<string>, max: nat)
    requires Lines(ls)
    ensures Lines(Fitting(ls, max))
  {
    if ls == [] || |ls[0]| >= max {
    } else {
      FittingLines(ls[1..], max);
      assert OneLine(ls[0]);
    }
  }

  /** Framing round-trips a list of lines if and only if each is one line, does not end in a carriage
      return and fits the scanner. */
  lemma FramingIff(ls: seq<string>, max: nat)
    ensures ScanLines(Framed(ls), max) == ls <==> forall i :: 0 <= i < |ls| ==> Framable(ls[i], max)
  {
    if Lines(ls) {
      FrameIsJoin(ls);
      SplitJoin(ls + [""]);
      assert Front(ls + [""]) == ls;
      FittingKeeps(ls, max);
    } else {
      var pieces := Split(Framed(ls));
      FittingLines(if Last(pieces) == "" then Front(pieces) else pieces, max);
    }
  }

  /** The token is the line, without the carriage return it may end in. */
  predicate TokenOf(l: string, t: string) {
    l == t + "\r" || (l == t && (l != "" ==> l[|l| - 1] != '\r'))
  }

  /** A scanner reads the lines up to the first that does not fit, and stops there for good. */
  lemma {:induction false} FittingMeans(ls: seq<string>, max: nat) returns (k: nat)
    ensures k == |Fitting(ls, max)| <= |ls| && (k < |ls| ==> |ls[k]| >= max)
    ensures forall i :: 0 <= i < k ==> |ls[i]| < max && TokenOf(ls[i], Fitting(ls, max)[i])
  {
    if ls == [] || |ls[0]| >= max {
      k := 0;
    } else {
      var n := FittingMeans(ls[1..], max);
      k := n + 1;
      forall i | 0 <= i < k ensures |ls[i]| < max && TokenOf(ls[i], Fitting(ls, max)[i]) {
        if i > 0 {
          assert ls[i] == ls[1..][i - 1];
        }
      }
    }
  }

  /** Of any text, lines that end in newlines and what is left: the rest counts as a line unless it is
      empty, and the lines are read until one does not fit. */
  lemma ScanMeans(ls: seq<string>, rest: string, max: nat) returns (k: nat)
    requires Lines(ls) && OneLine(rest)
    ensures var all, tokens := if rest == "" then ls else ls + [rest], ScanLines(Framed(ls) + rest, max);
      && k == |tokens| <= |all| && (k < |all| ==> |all[k]| >= max)
      && forall i :: 0 <= i < k ==> |all[i]| < max && TokenOf(all[i], tokens[i])
  {
    FrameIsJoin(ls);
    if ls != [] {
      JoinLast(ls, rest);
    }
    assert Framed(ls) + rest == Join(ls + [rest]);
    SplitJoin(ls + [rest]);
    assert Front(ls + [rest]) == ls;
    k := FittingMeans(if rest == "" then ls else ls + [rest], max);
  }

  // ----- The writer actor --------------------------------------------------------------------------------

  /** What json.Marshal makes of an event. */
  datatype Encoded = Line(l: string) | Unencodable(err: string)

  type Encoder = Event -> Encoded

  /** One frame as the actor takes it. `disk` is None when the write goes through, and otherwise the
      error and how many bytes got out. */
  datatype Take = Take(e: Event, disk: Option<(string, nat)>)

  function ErrorOf(t: Take, enc: Encoder): Option<string> {
    match enc(t.e)
    case Unencodable(err) => Some(err)
    case Line(_) => if t.disk.Some? then Some(t.disk.value.0) else None
  }

  /** The bytes that reach the output. */
  function BytesOf(t: Take, enc: Encoder): string {
    match enc(t.e)
    case Unencodable(_) => ""
    case Line(l) => if t.disk.Some? && t.disk.value.1 <= |l| then l[..t.disk.value.1] else l + "\n"
  }

  /** The bytes that go out are the framed line, all of it unless the disk says otherwise, and then as much
      of it as it says; nothing goes out of an event that cannot be encoded. */
  lemma BytesMean(t: Take, enc: Encoder)
    ensures enc(t.e).Unencodable? ==> BytesOf(t, enc) == "" && ErrorOf(t, enc) == Some(enc(t.e).err)
    ensures enc(t.e).Line? ==>
      var framed := enc(t.e).l + "\n";
      && BytesOf(t, enc) <= framed
      && (t.disk.None? ==> BytesOf(t, enc) == framed && ErrorOf(t, enc) == None)
      && (t.disk.Some? ==> ErrorOf(t, enc) == Some(t.disk.value.0))
      && (t.disk.Some? ==> |BytesOf(t, enc)| == if t.disk.value.1 < |framed| then t.disk.value.1 else |framed|)
  {
    if enc(t.e).Line? && t.disk.Some? && t.disk.value.1 <= |enc(t.e).l| {
      var l, n := enc(t.e).l, t.disk.value.1;
      assert (l + "\n")[..n] == l[..n];
    }
  }

  function Output(ts: seq<Take>, enc: Encoder): string {
    if ts == [] then "" else Output(Front(ts), enc) + BytesOf(Last(ts), enc)
  }

  function Taken(ts: seq<Take>): seq<Event> {
    if ts == [] then [] else Taken(Front(ts)) + [Last(ts).e]
  }

  /** A failure, by the frame it happened at. */
  datatype Failure = Failure(at: nat, err: string)

  /** What the actor has stored after these frames: each failure replaces the one before. */
  function Stored(ts: seq<Take>, enc: Encoder): Option<Failure> {
    if ts == [] then None
    else match ErrorOf(Last(ts), enc)
      case Some(err) => Some(Failure(|ts| - 1, err))
      case None => Stored(Front(ts), enc)
  }

  function Report(f: Option<Failure>): Option<string> {
    match f
    case None => None
    case Some(f) => Some(f.err)
  }

  datatype WriteResult = Queued | Invalid | Failed(err: string)

  class Writer {
    const enc: Encoder
    var ch: seq<Event>
    var err: Option<string>
    var out: string
    ghost var accepted: seq<Event>
    ghost var takes: seq<Take>

    /** Nothing is reordered; the output and the stored error are those of the frames taken. */
    ghost predicate Valid()
      reads this
    {
      && accepted == Taken(takes) + ch
      && (forall i :: 0 <= i < |accepted| ==> Frames.Valid(accepted[i]))
      && err == Report(Stored(takes, enc))
      && out == Output(takes, enc)
    }

    constructor (enc: Encoder)
      ensures Valid() && accepted == [] && takes == [] && out == "" && err == None && this.enc == enc
    {
      this.enc := enc;
      ch, err, out, accepted, takes := [], None, "", [], [];
    }

    /** Write queues one frame, unless its kind is unknown or a failure is stored. */
    method Write(e: Event) returns (r: WriteResult)
      requires Valid()
      modifies `ch, `accepted
      ensures Valid()
      ensures r == if !Frames.Valid(e) then Invalid else if err.Some? then Failed(err.value) else Queued
      ensures accepted == old(accepted) + (if r.Queued? then [e] else [])
      ensures ch == old(ch) + (if r.Queued? then [e] else [])
    {
      if !Frames.Valid(e) {
        return Invalid;
      }
      if err.Some? {
        return Failed(err.value);
      }
      ch := ch + [e];
      accepted := accepted + [e];
      r := Queued;
    }

    /** The actor takes one frame. */
    method TakeOne(disk: Option<(string, nat)>)
      requires Valid() && ch != []
      modifies `ch, `err, `out, `takes
      ensures Valid() && ch == old(ch)[1..] && takes == old(takes) + [Take(old(ch)[0], disk)]
      ensures var t := Take(old(ch)[0], disk);
        err == (if ErrorOf(t, enc).Some? then ErrorOf(t, enc) else old(err)) && out == old(out) + BytesOf(t, enc)
    {
      var e := ch[0];
      TakenFirst(takes, ch, enc, disk);
      takes := takes + [Take(e, disk)];
      ch := ch[1..];
      match enc(e) {
        case Unencodable(bad) =>
          err := Some(bad);
        case Line(l) =>
          if disk.Some? {
            out := out + FirstBytes(l, disk.value.1);
            err := Some(disk.value.0);
          } else {
            out := out + (l + "\n");
          }
      }
    }
  }

  /** The first n bytes of a framed line. */
  function FirstBytes(l: string, n: nat): (b: string)
    ensures b == if n <= |l| then l[..n] else l + "\n"
  {
    var framed := l + "\n";
    assert n <= |l| ==> framed[..n] == l[..n];
    if n <= |framed| then framed[..n] else framed
  }

  lemma TakenFirst(ts: seq<Take>, ch: seq<Event>, enc: Encoder, disk: Option<(string, nat)>)
    requires ch != []
    ensures var t := Take(ch[0], disk);
      && Taken(ts + [t]) + ch[1..] == Taken(ts) + ch
      && Output(ts + [t], enc) == Output(ts, enc) + BytesOf(t, enc)
      && Report(Stored(ts + [t], enc)) == (if ErrorOf(t, enc).Some? then ErrorOf(t, enc) else Report(Stored(ts, enc)))
  {
    assert Front(ts + [Take(ch[0], disk)]) == ts;
  }

  // ----- Which failure is stored -----------------------------------------------------------------------

  /** The last failure is. */
  lemma {:induction false} StoredIsLast(ts: seq<Take>, enc: Encoder)
    ensures Stored(ts, enc).None? <==> forall i :: 0 <= i < |ts| ==> ErrorOf(ts[i], enc).None?
    ensures Stored(ts, enc).Some? ==>
      var f := Stored(ts, enc).value;
      && f.at < |ts| && ErrorOf(ts[f.at], enc) == Some(f.err)
      && forall i :: f.at < i < |ts| ==> ErrorOf(ts[i], enc).None?
  {
    if ts == [] {
    } else {
      StoredIsLast(Front(ts), enc);
      assert ts == Front(ts) + [Last(ts)];
    }
  }

  ghost predicate IsFirst(f: Failure, ts: seq<Take>, enc: Encoder) {
    && f.at < |ts| && ErrorOf(ts[f.at], enc) == Some(f.err)
    && forall i :: 0 <= i < f.at ==> ErrorOf(ts[i], enc).None?
  }

  ghost predicate IsLast(k: int, ts: seq<Take>, enc: Encoder) {
    && 0 <= k < |ts| && ErrorOf(ts[k], enc).Some?
    && forall i :: k < i < |ts| ==> ErrorOf(ts[i], enc).None?
  }

  /** Write reports the first failure if and only if no frame taken since has failed; and it gives the
      first one's error text if and only if the last frame that failed did so with that text. */
  lemma FirstIsStoredIff(f: Failure, ts: seq<Take>, enc: Encoder)
    requires IsFirst(f, ts, enc)
    ensures Stored(ts, enc) == Some(f) <==> forall i :: f.at < i < |ts| ==> ErrorOf(ts[i], enc).None?
    ensures Report(Stored(ts, enc)) == Some(f.err) <==> forall k :: IsLast(k, ts, enc) ==> ErrorOf(ts[k], enc) == Some(f.err)
  {
    StoredIsLast(ts, enc);
    var g := Stored(ts, enc).value;
    assert IsLast(g.at, ts, enc);
    forall k | IsLast(k, ts, enc) ensures k == g.at {
    }
  }

  /** Two frames fail, and the second error has replaced the first. */
  method SecondFailureReplaces() returns (before: WriteResult, after: WriteResult)
    ensures before == Failed("first") && after == Failed("second")
  {
    var w := new Writer(_ => Line("{}"));
    var e := DoneEvent("x", STATUS_OK);
    var q := w.Write(e);
    q := w.Write(e);
    assert |w.ch| == 2;
    w.TakeOne(Some(("first", 0)));
    assert w.err == Some("first") && |w.ch| == 1;
    before := w.Write(e);
    w.TakeOne(Some(("second", 0)));
    assert w.err == Some("second");
    after := w.Write(e);
  }

  // ----- What is on the output -------------------------------------------------------------------------

  function Encodings(es: seq<Event>, enc: Encoder): seq<string> {
    if es == [] then [] else Encodings(Front(es), enc) + if enc(Last(es)).Line? then [enc(Last(es)).l] else []
  }

  /** Without a failure everything taken is on the output, whole and in channel order. */
  lemma {:induction false} OutputIsFramed(ts: seq<Take>, enc: Encoder)
    requires Stored(ts, enc).None?
    ensures Output(ts, enc) == Framed(Encodings(Taken(ts), enc)) && |Encodings(Taken(ts), enc)| == |ts|
  {
    if ts == [] {
    } else {
      OutputIsFramed(Front(ts), enc);
      var l := enc(Last(ts).e).l;
      var before := Encodings(Taken(Front(ts)), enc);
      assert Front(Taken(ts)) == Taken(Front(ts)) && Front(before + [l]) == before;
      Joins(Framed(before), l, "\n");
    }
  }

  lemma {:induction false} EncodingsFramable(es: seq<Event>, enc: Encoder, max: nat)
    requires forall i :: 0 <= i < |es| && enc(es[i]).Line? ==> Framable(enc(es[i]).l, max)
    ensures forall i :: 0 <= i < |Encodings(es, enc)| ==> Framable(Encodings(es, enc)[i], max)
  {
    if es == [] {
    } else {
      EncodingsFramable(Front(es), enc, max);
      assert es[|es| - 1] == Last(es);
    }
  }

  lemma {:induction false} TakenLength(ts: seq<Take>)
    ensures |Taken(ts)| == |ts|
  {
    if ts == [] {
    } else {
      TakenLength(Front(ts));
    }
  }

  /** At any moment without a failure, a scanner over what has been written reads back exactly the
      encodings of the frames taken so far, in the order in which Write accepted them. */
  lemma WireReadsBack(w: Writer)
    requires w.Valid() && w.err.None?
    requires forall i :: 0 <= i < |w.takes| && i < |w.accepted| && w.enc(w.accepted[i]).Line? ==> Framable(w.enc(w.accepted[i]).l, MAX_LINE)
    ensures |w.takes| <= |w.accepted|
    ensures ScanLines(w.out, MAX_LINE) == Encodings(w.accepted[..|w.takes|], w.enc)
    ensures forall i :: 0 <= i < |w.takes| ==> w.enc(w.accepted[i]).Line?
  {
    TakenLength(w.takes);
    var es := Taken(w.takes);
    assert w.accepted[..|w.takes|] == es;
    OutputIsFramed(w.takes, w.enc);
    EncodingsFramable(es, w.enc, MAX_LINE);
    FramingIff(Encodings(es, w.enc), MAX_LINE);
    AllTakenEncode(w.takes, w.enc);
  }

  lemma {:induction false} AllTakenEncode(ts: seq<Take>, enc: Encoder)
    requires Stored(ts, enc).None?
    ensures |Taken(ts)| == |ts| && forall i :: 0 <= i < |ts| ==> enc(Taken(ts)[i]).Line?
  {
    if ts == [] {
    } else {
      AllTakenEncode(Front(ts), enc);
    }
  }
}
