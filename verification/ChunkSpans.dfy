/**
 Chunks of any source, balanced or not, by where they begin and end: a description that does not mention
 the scan, a proof that the scan finds it, and that nothing else meets it.
 */
module ChunkSpans {
  import opened Prelude
  import opened Text
  import opened Chunker
  import opened ChunkTheorems
  import opened ChunkBalance

  /** The lines from a on, up to but not including b. */
  datatype Span = Span(a: nat, b: nat)

  /** A declaration at depth zero. */
  ghost predicate DeclaresAt(ls: seq<string>, k: nat) {
    k < |ls| && Depth(ls[..k]) == 0 && Declares(ls[k])
  }

  /** A declaration ends at the first line after which the depth is not positive, and everything else just
      before the next declaration at depth zero; both at the end of the source at the latest. */
  ghost predicate EndsAt(ls: seq<string>, a: nat, b: nat)
    requires a < b <= |ls|
  {
    if DeclaresAt(ls, a) then
      b == |ls| || Depth(ls[..b]) <= 0
    else
      b == |ls| || DeclaresAt(ls, b)
  }

  ghost predicate IsChunk(ls: seq<string>, a: nat, b: nat) {
    && a < b <= |ls| && !Blank(ls[a]) && EndsAt(ls, a, b)
    && forall j :: a < j < b ==> Goes(ls, a, j)
  }

  /** The chunk that begins at a goes on at j. */
  ghost predicate Goes(ls: seq<string>, a: nat, j: nat)
    requires a < j < |ls|
  {
    if DeclaresAt(ls, a) then Depth(ls[..j]) > 0 else !DeclaresAt(ls, j)
  }

  ghost predicate BlankLines(ls: seq<string>, lo: nat, hi: nat) {
    forall k :: lo <= k < hi && k < |ls| ==> Blank(ls[k])
  }

  /** Where the gap before the chunk at i begins. */
  function GapAt(ps: seq<Span>, i: nat): nat
    requires i <= |ps|
  {
    if i == 0 then 0 else ps[i - 1].b
  }

  ghost predicate SpanAt(ls: seq<string>, ps: seq<Span>, i: nat)
    requires i < |ps|
  {
    GapAt(ps, i) <= ps[i].a && BlankLines(ls, GapAt(ps, i), ps[i].a) && IsChunk(ls, ps[i].a, ps[i].b)
  }

  ghost predicate SpansUpTo(ls: seq<string>, ps: seq<Span>) {
    forall i: nat :: i < |ps| ==> SpanAt(ls, ps, i)
  }

  /** Chunks one behind the other, and blank lines between them and behind them. */
  ghost predicate Spans(ls: seq<string>, ps: seq<Span>) {
    SpansUpTo(ls, ps) && BlankLines(ls, GapAt(ps, |ps|), |ls|)
  }

  ghost predicate Slices(ls: seq<string>, ps: seq<Span>, cs: seq<Chunk>) {
    |ps| == |cs| && forall i: nat :: i < |ps| ==> SliceAt(ls, ps[i], cs[i])
  }

  ghost predicate SliceAt(ls: seq<string>, p: Span, c: Chunk) {
    p.a <= p.b <= |ls| && c == ls[p.a..p.b]
  }

  // ----- There is one way to do it -----------------------------------------------------------------------

  lemma StartsAtOne(ls: seq<string>, lo: nat, a: nat, c: nat)
    requires lo <= a < |ls| && lo <= c < |ls| && BlankLines(ls, lo, a) && BlankLines(ls, lo, c)
    requires !Blank(ls[a]) && !Blank(ls[c])
    ensures a == c
  {
  }

  lemma EndsAtOne(ls: seq<string>, a: nat, b: nat, d: nat)
    requires IsChunk(ls, a, b) && IsChunk(ls, a, d)
    ensures b == d
  {
    assert b < d ==> Goes(ls, a, b);
    assert d < b ==> Goes(ls, a, d);
  }

  lemma {:induction false} SameUpTo(ls: seq<string>, ps: seq<Span>, qs: seq<Span>, i: nat)
    requires SpansUpTo(ls, ps) && SpansUpTo(ls, qs) && i <= |ps| && i <= |qs|
    ensures ps[..i] == qs[..i]
  {
    if i == 0 {
    } else {
      SameUpTo(ls, ps, qs, i - 1);
      var k := i - 1;
      assert ps[..i] == ps[..k] + [ps[k]] && qs[..i] == qs[..k] + [qs[k]];
      assert k > 0 ==> ps[k - 1] == ps[..k][k - 1] == qs[..k][k - 1] == qs[k - 1];
      assert GapAt(ps, k) == GapAt(qs, k) && SpanAt(ls, ps, k) && SpanAt(ls, qs, k);
      StartsAtOne(ls, GapAt(ps, k), ps[k].a, qs[k].a);
      EndsAtOne(ls, ps[k].a, ps[k].b, qs[k].b);
    }
  }

  lemma NoneBehind(ls: seq<string>, qs: seq<Span>, i: nat)
    requires SpansUpTo(ls, qs) && i <= |qs| && BlankLines(ls, GapAt(qs, i), |ls|)
    ensures i == |qs|
  {
    assert i < |qs| ==> SpanAt(ls, qs, i);
  }

  lemma NotLonger(ls: seq<string>, ps: seq<Span>, qs: seq<Span>)
    requires Spans(ls, ps) && Spans(ls, qs)
    ensures |ps| >= |qs|
  {
    if |ps| < |qs| {
      SameUpTo(ls, ps, qs, |ps|);
      assert ps == qs[..|ps|];
      assert GapAt(qs, |ps|) == GapAt(ps, |ps|);
      NoneBehind(ls, qs, |ps|);
    }
  }

  /** Every source can be cut like this in one way at most. */
  lemma SpansAreOne(ls: seq<string>, ps: seq<Span>, qs: seq<Span>)
    requires Spans(ls, ps) && Spans(ls, qs)
    ensures ps == qs
  {
    NotLonger(ls, ps, qs);
    NotLonger(ls, qs, ps);
    SameUpTo(ls, ps, qs, |ps|);
    assert ps[..|ps|] == ps && qs[..|ps|] == qs;
  }

  // ----- And the scan does ---------------------------------------------------------------------------------

  /** What is being collected after k lines began at a. */
  ghost predicate Collects(ls: seq<string>, a: nat, k: nat, inDecl: bool) {
    && a <= k <= |ls| && (a < k ==> !Blank(ls[a]))
    && (inDecl ==> a < k && DeclaresAt(ls, a) && forall j :: a < j <= k ==> Depth(ls[..j]) > 0)
    && (!inDecl ==> forall j: nat :: a <= j < k ==> !DeclaresAt(ls, j))
  }

  ghost predicate Stands(ls: seq<string>, k: nat, s: Scan, ps: seq<Span>) {
    && |s.cur| <= k <= |ls| && s.depth == Depth(ls[..k])
    && SpansUpTo(ls, ps) && Slices(ls, ps, s.chunks)
    && GapAt(ps, |ps|) <= k - |s.cur| && BlankLines(ls, GapAt(ps, |ps|), k - |s.cur|)
    && s.cur == ls[k - |s.cur|..k] && Collects(ls, k - |s.cur|, k, s.inDecl)
  }

  lemma AddSpan(ls: seq<string>, ps: seq<Span>, cs: seq<Chunk>, a: nat, b: nat)
    requires SpansUpTo(ls, ps) && Slices(ls, ps, cs)
    requires GapAt(ps, |ps|) <= a && BlankLines(ls, GapAt(ps, |ps|), a) && IsChunk(ls, a, b)
    ensures SpansUpTo(ls, ps + [Span(a, b)]) && Slices(ls, ps + [Span(a, b)], cs + [ls[a..b]])
    ensures GapAt(ps + [Span(a, b)], |ps| + 1) == b
  {
    var qs := ps + [Span(a, b)];
    forall i: nat | i < |qs| ensures SpanAt(ls, qs, i) && SliceAt(ls, qs[i], (cs + [ls[a..b]])[i]) {
      if i < |ps| {
        assert SpanAt(ls, ps, i) && SliceAt(ls, ps[i], cs[i]);
      }
    }
  }

  lemma NextDepth(ls: seq<string>, k: nat)
    requires k < |ls|
    ensures Depth(ls[..k + 1]) == Depth(ls[..k]) + Net(ls[k])
  {
    assert ls[..k + 1] == ls[..k] + [ls[k]];
    DepthSnoc(ls[..k], ls[k]);
  }

  /** What is being collected when the source ends, or a declaration begins, is a chunk. */
  lemma CollectedIsChunk(ls: seq<string>, a: nat, k: nat, inDecl: bool)
    requires Collects(ls, a, k, inDecl) && a < k && (k == |ls| || (!inDecl && DeclaresAt(ls, k)))
    ensures IsChunk(ls, a, k)
  {
  }

  lemma FlushStands(ls: seq<string>, k: nat, s: Scan, ps: seq<Span>) returns (qs: seq<Span>)
    requires Stands(ls, k, s, ps) && (k == |ls| || (!s.inDecl && DeclaresAt(ls, k)))
    ensures SpansUpTo(ls, qs) && Slices(ls, qs, Flush(s).chunks)
    ensures GapAt(qs, |qs|) <= k && BlankLines(ls, GapAt(qs, |qs|), k)
  {
    qs := ps;
    if s.cur != [] {
      var a := k - |s.cur|;
      CollectedIsChunk(ls, a, k, s.inDecl);
      AddSpan(ls, ps, s.chunks, a, k);
      qs := ps + [Span(a, k)];
    }
  }

  lemma SkipStands(ls: seq<string>, k: nat, s: Scan, ps: seq<Span>)
    requires Stands(ls, k, s, ps) && k < |ls| && Blank(ls[k]) && s.cur == []
    ensures Stands(ls, k + 1, s, ps)
  {
    NextDepth(ls, k);
    BlankNet(ls[k]);
  }

  /** A declaration that has begun at a may just have ended. */
  lemma DeclStands(ls: seq<string>, k: nat, s: Scan, ps: seq<Span>, a: nat) returns (qs: seq<Span>)
    requires a <= k < |ls| && s.inDecl && s.cur == ls[a..k + 1] && s.depth == Depth(ls[..k + 1])
    requires SpansUpTo(ls, ps) && Slices(ls, ps, s.chunks)
    requires GapAt(ps, |ps|) <= a && BlankLines(ls, GapAt(ps, |ps|), a)
    requires DeclaresAt(ls, a) && !Blank(ls[a]) && forall j :: a < j <= k ==> Depth(ls[..j]) > 0
    ensures Stands(ls, k + 1, Close(s), qs)
  {
    qs := ps;
    if s.depth <= 0 {
      assert IsChunk(ls, a, k + 1);
      AddSpan(ls, ps, s.chunks, a, k + 1);
      qs := ps + [Span(a, k + 1)];
    }
  }

  lemma OpenStands(ls: seq<string>, k: nat, s: Scan, ps: seq<Span>) returns (qs: seq<Span>)
    requires Stands(ls, k, s, ps) && k < |ls| && Opens(s, ls[k])
    ensures Stands(ls, k + 1, Close(Push(Open(s), ls[k])), qs)
  {
    IsDeclIff(ls[k]);
    DeclNotBlank(ls[k]);
    NextDepth(ls, k);
    var rs := FlushStands(ls, k, s, ps);
    assert Open(s).cur + [ls[k]] == ls[k..k + 1];
    qs := DeclStands(ls, k, Push(Open(s), ls[k]), rs, k);
  }

  lemma PushStands(ls: seq<string>, k: nat, s: Scan, ps: seq<Span>) returns (qs: seq<Span>)
    requires Stands(ls, k, s, ps) && k < |ls| && !Opens(s, ls[k]) && !(Blank(ls[k]) && s.cur == [])
    ensures Stands(ls, k + 1, Close(Push(s, ls[k])), qs)
  {
    IsDeclIff(ls[k]);
    NextDepth(ls, k);
    var a := k - |s.cur|;
    assert s.cur + [ls[k]] == ls[a..k + 1];
    qs := ps;
    if s.inDecl {
      qs := DeclStands(ls, k, Push(s, ls[k]), ps, a);
    } else {
      CollectsMore(ls, a, k);
    }
  }

  /** A run goes on. */
  lemma CollectsMore(ls: seq<string>, a: nat, k: nat)
    requires Collects(ls, a, k, false) && k < |ls| && !DeclaresAt(ls, k) && (a == k ==> !Blank(ls[k]))
    ensures Collects(ls, a, k + 1, false)
  {
  }

  lemma StepStands(ls: seq<string>, k: nat, s: Scan, ps: seq<Span>) returns (qs: seq<Span>)
    requires Stands(ls, k, s, ps) && k < |ls|
    ensures Stands(ls, k + 1, Step(s, ls[k]), qs)
  {
    if Blank(ls[k]) && s.cur == [] {
      SkipStands(ls, k, s, ps);
      qs := ps;
    } else if Opens(s, ls[k]) {
      qs := OpenStands(ls, k, s, ps);
    } else {
      qs := PushStands(ls, k, s, ps);
    }
  }

  lemma {:induction false} FeedStands(ls: seq<string>, k: nat) returns (ps: seq<Span>)
    requires k <= |ls|
    ensures Stands(ls, k, Feed(START, ls[..k]), ps)
  {
    if k == 0 {
      ps := [];
    } else {
      ps := FeedStands(ls, k - 1);
      assert Front(ls[..k]) == ls[..k - 1] && Last(ls[..k]) == ls[k - 1];
      ps := StepStands(ls, k - 1, Feed(START, ls[..k - 1]), ps);
    }
  }

  /** Every source, balanced or not: its chunks are the declarations at depth zero, each up to the first
      line after which the depth is not positive, and what lies between two of them without its leading
      blank lines. */
  lemma ChunksAreSpans(ls: seq<string>) returns (ps: seq<Span>)
    ensures Spans(ls, ps) && Slices(ls, ps, Chunks(ls))
  {
    ps := FeedStands(ls, |ls|);
    assert ls[..|ls|] == ls;
    ps := FlushStands(ls, |ls|, Feed(START, ls), ps);
  }

  /** The same on strings, and the other way: whatever cuts a source like this has found its chunks. */
  lemma ChunkOfSpans(src: string, ps: seq<Span>)
    requires Spans(Split(src), ps)
    ensures |ChunkOf(src)| == |ps|
    ensures forall i: nat :: i < |ps| ==> ps[i].a <= ps[i].b <= |Split(src)| && ChunkOf(src)[i] == Join(Split(src)[ps[i].a..ps[i].b])
  {
    var ls := Split(src);
    var qs := ChunksAreSpans(ls);
    SpansAreOne(ls, ps, qs);
    SourcesAt(Chunks(ls));
    forall i: nat | i < |ps| ensures SliceAt(ls, ps[i], Chunks(ls)[i]) {
    }
  }
}
