/**
 Chunks of sources with balanced braces: an independent description of what they are, and a proof
 that the scan produces exactly that.
 */
module ChunkBalance {
  import opened Prelude
  import opened Text
  import opened Chunker
  import opened ChunkTheorems

  /** Brace depth after the given lines. */
  function Depth(ls: seq<string>): int {
    if ls == [] then 0 else Depth(Front(ls)) + Net(Last(ls))
  }

  /** The depth is negative at no line boundary. */
  ghost predicate NonNegative(ls: seq<string>) {
    forall k :: 0 <= k <= |ls| ==> Depth(ls[..k]) >= 0
  }

  ghost predicate Balanced(ls: seq<string>) {
    NonNegative(ls) && Depth(ls) == 0
  }

  /** A declaration: it ends at the first line where its depth is back to zero. */
  ghost predicate DeclChunk(c: Chunk) {
    c != [] && IsDecl(c[0]) && Depth(c) == 0 && forall k :: 0 < k < |c| ==> Depth(c[..k]) > 0
  }

  /** A run of statements: balanced, and no declaration starts in it at depth zero. */
  ghost predicate RunChunk(c: Chunk) {
    c != [] && Depth(c) == 0 && OpenRun(c)
  }

  ghost predicate OpenRun(c: Chunk) {
    && (c != [] ==> !Blank(c[0]))
    && NonNegative(c)
    && forall k :: 0 <= k < |c| && Depth(c[..k]) == 0 ==> !IsDecl(c[k])
  }

  ghost predicate OpenDecl(c: Chunk) {
    c != [] && IsDecl(c[0]) && forall k :: 0 < k <= |c| ==> Depth(c[..k]) > 0
  }

  /** Declarations and runs, blank lines between them; a run reaches up to the next declaration. */
  ghost predicate Canonical(gaps: seq<seq<string>>, cs: seq<Chunk>) {
    && |gaps| == |cs| + 1
    && (forall i :: 0 <= i < |gaps| ==> AllBlank(gaps[i]))
    && (forall i :: 0 <= i < |cs| ==> DeclChunk(cs[i]) || RunChunk(cs[i]))
    && (forall i :: 0 <= i < |cs| && RunChunk(cs[i]) ==> gaps[i + 1] == [] && (i + 1 < |cs| ==> DeclChunk(cs[i + 1])))
  }

  lemma {:induction false} DepthJoin(a: seq<string>, b: seq<string>)
    ensures Depth(a + b) == Depth(a) + Depth(b)
    decreases |b|
  {
    if b == [] {
      assert a + b == a;
    } else {
      assert Front(a + b) == a + Front(b);
      DepthJoin(a, Front(b));
    }
  }

  lemma DepthSnoc(a: seq<string>, l: string)
    ensures Depth(a + [l]) == Depth(a) + Net(l)
    ensures forall k :: 0 <= k <= |a| ==> (a + [l])[..k] == a[..k]
  {
    assert Front(a + [l]) == a;
  }

  lemma {:induction false} BlankNet(l: string)
    requires Blank(l)
    ensures Count(l, '{') == 0 && Count(l, '}') == 0
  {
    if l == "" {
    } else {
      BlankNet(Front(l));
      assert IsSpace(l[|l| - 1]);
    }
  }

  // ----- The scan produces the canonical chunks -----------------------------------------------------

  ghost predicate LastIsRun(cs: seq<Chunk>) {
    cs != [] && RunChunk(Last(cs))
  }

  ghost predicate Good(ls: seq<string>, s: Scan, gaps: seq<seq<string>>) {
    && Canonical(gaps, s.chunks) && ls == Weave(gaps, s.chunks) + s.cur
    && s.depth == Depth(ls) == Depth(s.cur)
    && (LastIsRun(s.chunks) ==> s.inDecl)
    && (if s.inDecl then OpenDecl(s.cur) else OpenRun(s.cur))
  }

  lemma SkipGood(ls: seq<string>, s: Scan, gaps: seq<seq<string>>, l: string) returns (g: seq<seq<string>>)
    requires Good(ls, s, gaps) && Blank(l) && s.cur == []
    ensures Good(ls + [l], s, g)
  {
    g := GapGrows(ls, gaps, s.chunks, l);
    BlankNet(l);
    DepthSnoc(ls, l);
    CanonicalGap(gaps, s.chunks, l);
  }

  lemma CanonicalGap(gaps: seq<seq<string>>, cs: seq<Chunk>, l: string)
    requires Canonical(gaps, cs) && Blank(l) && !LastIsRun(cs)
    ensures Canonical(Front(gaps) + [Last(gaps) + [l]], cs)
  {
    var g := Front(gaps) + [Last(gaps) + [l]];
    forall i | 0 <= i < |g| ensures AllBlank(g[i]) {
      assert AllBlank(gaps[i]);
    }
    forall i | 0 <= i < |cs| && RunChunk(cs[i]) ensures g[i + 1] == [] && (i + 1 < |cs| ==> DeclChunk(cs[i + 1])) {
      assert gaps[i + 1] == [] && i != |cs| - 1;
    }
  }

  /** The current chunk is complete. */
  lemma CloseGood(ls: seq<string>, s: Scan, gaps: seq<seq<string>>) returns (g: seq<seq<string>>)
    requires Canonical(gaps, s.chunks) && ls == Weave(gaps, s.chunks) + s.cur
    requires DeclChunk(s.cur) || (RunChunk(s.cur) && !LastIsRun(s.chunks))
    ensures Canonical(g, s.chunks + [s.cur]) && ls == Weave(g, s.chunks + [s.cur]) + []
  {
    g := gaps + [[]];
    WeaveChunk(gaps, s.chunks, s.cur);
    JoinsNothing(ls);
  }

  /** A line has been added to the current chunk; a declaration may just have ended. */
  ghost predicate Pushed(ls: seq<string>, s: Scan, gaps: seq<seq<string>>) {
    && Canonical(gaps, s.chunks) && ls == Weave(gaps, s.chunks) + s.cur
    && s.depth == Depth(ls) == Depth(s.cur) >= 0
    && (LastIsRun(s.chunks) ==> s.inDecl)
    && if s.inDecl
       then s.cur != [] && IsDecl(s.cur[0]) && forall k :: 0 < k < |s.cur| ==> Depth(s.cur[..k]) > 0
       else OpenRun(s.cur)
  }

  lemma Arrive(ls: seq<string>, s: Scan, gaps: seq<seq<string>>) returns (g: seq<seq<string>>)
    requires Pushed(ls, s, gaps)
    ensures Good(ls, Close(s), g)
  {
    g := gaps;
    if s.inDecl && s.depth <= 0 {
      g := CloseGood(ls, s, gaps);
      ClosedIsGood(ls, s, g);
    } else {
      OpenIsGood(ls, s, gaps);
    }
  }

  lemma OpenIsGood(ls: seq<string>, s: Scan, gaps: seq<seq<string>>)
    requires Pushed(ls, s, gaps) && !(s.inDecl && s.depth <= 0)
    ensures Good(ls, s, gaps)
  {
    assert s.cur[..|s.cur|] == s.cur;
  }

  lemma ClosedIsGood(ls: seq<string>, s: Scan, g: seq<seq<string>>)
    requires s.inDecl && s.depth == Depth(ls) == 0 && DeclChunk(s.cur)
    requires Canonical(g, s.chunks + [s.cur]) && ls == Weave(g, s.chunks + [s.cur]) + []
    ensures Good(ls, Close(s), g)
  {
    NotBoth(s.cur);
    assert Last(s.chunks + [s.cur]) == s.cur;
  }

  /** A declaration line at depth zero closes the run before it. */
  lemma OpenGood(ls: seq<string>, s: Scan, gaps: seq<seq<string>>, l: string) returns (g: seq<seq<string>>)
    requires Good(ls, s, gaps) && Opens(s, l) && Depth(ls + [l]) >= 0
    ensures Pushed(ls + [l], Push(Open(s), l), g)
  {
    DepthSnoc(ls, l);
    g := gaps;
    if s.cur != [] {
      g := CloseGood(ls, s, gaps);
    }
    OpenedGood(ls, Flush(s).chunks, g, l);
  }

  lemma OpenedGood(ls: seq<string>, cs: seq<Chunk>, g: seq<seq<string>>, l: string)
    requires Canonical(g, cs) && ls == Weave(g, cs) + [] && Depth(ls) == 0
    requires IsDecl(l) && Depth(ls + [l]) >= 0
    ensures Pushed(ls + [l], Scan(cs, [] + [l], 0 + Net(l), true), g)
  {
    DepthSnoc(ls, l);
    DepthSnoc([], l);
    JoinsNothing([l]);
    JoinsNothing(Weave(g, cs));
  }

  /** Any other line that is kept. */
  lemma PushGood(ls: seq<string>, s: Scan, gaps: seq<seq<string>>, l: string)
    requires Good(ls, s, gaps) && Depth(ls + [l]) >= 0
    requires !(Blank(l) && s.cur == []) && !Opens(s, l)
    ensures Pushed(ls + [l], Push(s, l), gaps)
  {
    DepthSnoc(ls, l);
    DepthSnoc(s.cur, l);
    assert ls + [l] == Weave(gaps, s.chunks) + (s.cur + [l]);
    if s.inDecl {
      DeclGrows(s.cur, l);
    } else {
      RunGrows(s.cur, l);
    }
  }

  lemma DeclGrows(c: Chunk, l: string)
    requires OpenDecl(c)
    ensures forall k :: 0 < k < |c + [l]| ==> Depth((c + [l])[..k]) > 0
  {
    DepthSnoc(c, l);
  }

  lemma RunGrows(c: Chunk, l: string)
    requires OpenRun(c) && Depth(c + [l]) >= 0 && (c == [] ==> !Blank(l)) && (Depth(c) == 0 ==> !IsDecl(l))
    ensures OpenRun(c + [l])
  {
    DepthSnoc(c, l);
    assert (c + [l])[..|c| + 1] == c + [l] && c[..|c|] == c;
  }

  lemma StepGood(ls: seq<string>, s: Scan, gaps: seq<seq<string>>, l: string) returns (g: seq<seq<string>>)
    requires Good(ls, s, gaps) && Depth(ls + [l]) >= 0
    ensures Good(ls + [l], Step(s, l), g)
  {
    if Blank(l) && s.cur == [] {
      g := SkipGood(ls, s, gaps, l);
    } else if Opens(s, l) {
      g := OpenGood(ls, s, gaps, l);
      g := Arrive(ls + [l], Push(Open(s), l), g);
    } else {
      PushGood(ls, s, gaps, l);
      g := Arrive(ls + [l], Push(s, l), gaps);
    }
  }

  lemma NonNegativeFront(ls: seq<string>)
    requires NonNegative(ls) && ls != []
    ensures NonNegative(Front(ls)) && ls == Front(ls) + [Last(ls)] && Depth(ls) >= 0
  {
    assert ls[..|ls|] == ls;
    forall k | 0 <= k <= |ls| - 1 ensures Depth(Front(ls)[..k]) >= 0 {
      assert Front(ls)[..k] == ls[..k];
    }
  }

  lemma {:induction false} FeedGood(ls: seq<string>) returns (gaps: seq<seq<string>>)
    requires NonNegative(ls)
    ensures Good(ls, Feed(START, ls), gaps)
  {
    if ls == [] {
      gaps := [[]];
    } else {
      var p := Front(ls);
      NonNegativeFront(ls);
      gaps := FeedGood(p);
      gaps := StepGood(p, Feed(START, p), gaps, Last(ls));
    }
  }

  /** On a balanced source the chunks are the declarations and the runs between them. */
  lemma BalancedIsCanonical(ls: seq<string>) returns (gaps: seq<seq<string>>)
    requires Balanced(ls)
    ensures Canonical(gaps, Chunks(ls)) && Weave(gaps, Chunks(ls)) == ls
  {
    gaps := FeedGood(ls);
    var s := Feed(START, ls);
    assert s.cur[..|s.cur|] == s.cur;
    if s.cur != [] {
      gaps := CloseGood(ls, s, gaps);
    }
    assert Weave(gaps, Chunks(ls)) + [] == Weave(gaps, Chunks(ls));
  }

  // ----- And nothing else does --------------------------------------------------------------------------

  lemma {:induction false} FeedJoin(s: Scan, a: seq<string>, b: seq<string>)
    ensures Feed(s, a + b) == Feed(Feed(s, a), b)
    decreases |b|
  {
    if b == [] {
      assert a + b == a;
    } else {
      assert Front(a + b) == a + Front(b) && Last(a + b) == Last(b);
      FeedJoin(s, a, Front(b));
    }
  }

  lemma {:induction false} FeedBlank(s: Scan, g: seq<string>)
    requires AllBlank(g) && s.cur == []
    ensures Feed(s, g) == s
  {
    if g == [] {
    } else {
      FeedBlank(s, Front(g));
    }
  }

  /** A line that starts no declaration is added to the run. */
  lemma RunStep(s: Scan, l: string)
    requires !s.inDecl && !Opens(s, l) && (s.cur == [] ==> !Blank(l)) && s.depth == Depth(s.cur)
    ensures Step(s, l) == Scan(s.chunks, s.cur + [l], Depth(s.cur + [l]), false)
  {
    DepthSnoc(s.cur, l);
  }

  function InRun(cs: seq<Chunk>, c: Chunk): Scan {
    Scan(cs, c, Depth(c), false)
  }

  lemma {:induction false} FeedRun(cs: seq<Chunk>, c: Chunk)
    requires OpenRun(c)
    ensures Feed(Scan(cs, [], 0, false), c) == InRun(cs, c)
  {
    if c == [] {
    } else {
      var p, l := Front(c), Last(c);
      RunShrinks(c);
      FeedRun(cs, p);
      RunStep(InRun(cs, p), l);
      assert c == p + [l];
    }
  }

  lemma RunShrinks(c: Chunk)
    requires OpenRun(c) && c != []
    ensures OpenRun(Front(c)) && (Depth(Front(c)) == 0 ==> !IsDecl(Last(c)))
  {
    assert forall k :: 0 <= k <= |c| - 1 ==> Front(c)[..k] == c[..k];
    assert c[..|c| - 1] == Front(c);
  }

  lemma {:induction false} FeedDecl(s: Scan, c: Chunk, k: nat)
    requires DeclChunk(c) && 0 < k < |c| && s.depth == 0 && !s.inDecl
    ensures Feed(s, c[..k]) == Scan(Flush(s).chunks, c[..k], Depth(c[..k]), true)
    decreases k
  {
    assert Front(c[..k]) == c[..k - 1] && Last(c[..k]) == c[k - 1];
    assert c[..k - 1] + [c[k - 1]] == c[..k];
    DeclNotBlank(c[0]);
    if k > 1 {
      FeedDecl(s, c, k - 1);
    } else {
      assert Flush(s).cur + [c[0]] == c[..1];
    }
  }

  lemma FeedDeclWhole(s: Scan, c: Chunk)
    requires DeclChunk(c) && s.depth == 0 && !s.inDecl
    ensures Feed(s, c) == Scan(Flush(s).chunks + [c], [], 0, false)
  {
    assert Front(c) == c[..|c| - 1] && Front(c) + [Last(c)] == c;
    DeclNotBlank(c[0]);
    if |c| > 1 {
      FeedDecl(s, c, |c| - 1);
    } else {
      assert Flush(s).cur + [c[0]] == c;
    }
  }

  /** Where the scan stands after canonical chunks: a last run is still open. */
  ghost function ScanOf(cs: seq<Chunk>): Scan {
    if LastIsRun(cs) then Scan(Front(cs), Last(cs), 0, false) else Scan(cs, [], 0, false)
  }

  lemma FlushScanOf(cs: seq<Chunk>)
    requires LastIsRun(cs) ==> Last(cs) != []
    ensures Flush(ScanOf(cs)).chunks == cs
  {
  }

  lemma NotBoth(c: Chunk)
    ensures !(DeclChunk(c) && RunChunk(c))
  {
    assert c != [] ==> c[..0] == [];
  }

  lemma FeedOne(cs: seq<Chunk>, c: Chunk)
    requires DeclChunk(c) || (RunChunk(c) && !LastIsRun(cs))
    requires LastIsRun(cs) ==> Last(cs) != []
    ensures Feed(ScanOf(cs), c) == ScanOf(cs + [c])
    ensures DeclChunk(c) ==> ScanOf(cs + [c]).cur == []
  {
    NotBoth(c);
    assert Front(cs + [c]) == cs;
    if DeclChunk(c) {
      FlushScanOf(cs);
      FeedDeclWhole(ScanOf(cs), c);
    } else {
      FeedRun(cs, c);
    }
  }

  lemma CanonicalFront(gaps: seq<seq<string>>, cs: seq<Chunk>)
    requires Canonical(gaps, cs) && cs != []
    ensures Canonical(Front(gaps), Front(cs))
  {
    var a, b := Front(cs), Front(gaps);
    forall i | 0 <= i < |a| && RunChunk(a[i]) ensures b[i + 1] == [] && (i + 1 < |a| ==> DeclChunk(a[i + 1])) {
      assert RunChunk(cs[i]) && gaps[i + 1] == [];
    }
  }

  lemma CanonicalLast(gaps: seq<seq<string>>, cs: seq<Chunk>)
    requires Canonical(gaps, cs) && cs != []
    ensures LastFits(gaps, cs)
  {
    NotBoth(Last(cs));
    var n := |cs| - 1;
    assert n > 0 ==> Last(Front(cs)) == cs[n - 1];
    assert AllBlank(gaps[n + 1]) && (DeclChunk(cs[n]) || RunChunk(cs[n]));
    assert n > 0 && RunChunk(cs[n - 1]) ==> DeclChunk(cs[n]);
  }

  /** The last chunk and the gap behind it go with what is before them. */
  ghost predicate LastFits(gaps: seq<seq<string>>, cs: seq<Chunk>)
    requires gaps != [] && cs != []
  {
    && (DeclChunk(Last(cs)) || (RunChunk(Last(cs)) && !LastIsRun(Front(cs)) && Last(gaps) == []))
    && AllBlank(Last(gaps)) && (LastIsRun(Front(cs)) ==> Last(Front(cs)) != [])
  }

  lemma {:induction false} FeedCanonical(gaps: seq<seq<string>>, cs: seq<Chunk>)
    requires Canonical(gaps, cs)
    ensures Feed(START, Weave(gaps, cs)) == ScanOf(cs)
  {
    if cs == [] {
      FeedBlank(START, gaps[0]);
    } else {
      CanonicalFront(gaps, cs);
      FeedCanonical(Front(gaps), Front(cs));
      FeedOneMore(gaps, cs);
    }
  }

  lemma FeedOneMore(gaps: seq<seq<string>>, cs: seq<Chunk>)
    requires Canonical(gaps, cs) && cs != []
    requires Feed(START, Weave(Front(gaps), Front(cs))) == ScanOf(Front(cs))
    ensures Feed(START, Weave(gaps, cs)) == ScanOf(cs)
  {
    CanonicalLast(gaps, cs);
    WeaveLast(gaps, cs);
    FrontAndLast(cs);
    FeedLast(Weave(Front(gaps), Front(cs)), Front(cs), Last(cs), Last(gaps));
  }

  lemma WeaveLast(gaps: seq<seq<string>>, cs: seq<Chunk>)
    requires |gaps| == |cs| + 1 && cs != []
    ensures Weave(gaps, cs) == Weave(Front(gaps), Front(cs)) + Last(cs) + Last(gaps)
  {
  }

  /** One more chunk and the gap behind it. */
  lemma FeedLast(before: seq<string>, cs: seq<Chunk>, c: Chunk, g: seq<string>)
    requires Feed(START, before) == ScanOf(cs) && AllBlank(g)
    requires DeclChunk(c) || (RunChunk(c) && !LastIsRun(cs) && g == [])
    requires LastIsRun(cs) ==> Last(cs) != []
    ensures Feed(START, before + c + g) == ScanOf(cs + [c])
  {
    FeedJoin(START, before + c, g);
    FeedJoin(START, before, c);
    FeedOne(cs, c);
    FeedGap(ScanOf(cs + [c]), g);
  }

  lemma FeedGap(s: Scan, g: seq<string>)
    requires AllBlank(g) && (g == [] || s.cur == [])
    ensures Feed(s, g) == s
  {
    if g != [] {
      FeedBlank(s, g);
    }
  }

  /** Canonical chunks are what the scan finds: on a balanced source there is exactly one way to cut
      it into declarations and runs, and it is chunk's. */
  lemma CanonicalIsUnique(gaps: seq<seq<string>>, cs: seq<Chunk>)
    requires Canonical(gaps, cs)
    ensures Chunks(Weave(gaps, cs)) == cs
  {
    FeedCanonical(gaps, cs);
    FlushScanOf(cs);
  }

  /** A chunk of a balanced source is its own only chunk. */
  lemma ChunkOfChunk(ls: seq<string>, i: nat)
    requires Balanced(ls) && i < |Chunks(ls)|
    ensures Chunks(Chunks(ls)[i]) == [Chunks(ls)[i]]
  {
    var gaps := BalancedIsCanonical(ls);
    var c := Chunks(ls)[i];
    ScanOne(c);
  }

  lemma {:induction false} SourcesAt(cs: seq<Chunk>)
    ensures |Sources(cs)| == |cs| && forall i :: 0 <= i < |cs| ==> Sources(cs)[i] == Join(cs[i])
  {
    if cs == [] {
    } else {
      SourcesAt(Front(cs));
    }
  }

  lemma {:induction false} WovenLines(gaps: seq<seq<string>>, cs: seq<Chunk>, i: nat)
    requires |gaps| == |cs| + 1 && Lines(Weave(gaps, cs)) && i < |cs|
    ensures Lines(cs[i])
  {
    var w := Weave(Front(gaps), Front(cs));
    assert Weave(gaps, cs) == w + Last(cs) + Last(gaps);
    if i == |cs| - 1 {
      assert forall k :: 0 <= k < |Last(cs)| ==> Last(cs)[k] == Weave(gaps, cs)[|w| + k];
    } else {
      assert forall k :: 0 <= k < |w| ==> w[k] == Weave(gaps, cs)[k];
      WovenLines(Front(gaps), Front(cs), i);
    }
  }

  /** The same on strings: chunk(c) == [c] for every chunk c of a balanced source. */
  lemma ChunkStandsAlone(src: string, i: nat)
    requires Balanced(Split(src)) && i < |ChunkOf(src)|
    ensures ChunkOf(ChunkOf(src)[i]) == [ChunkOf(src)[i]]
  {
    var ls := Split(src);
    SourcesAt(Chunks(ls));
    var gaps := BalancedIsCanonical(ls);
    WovenLines(gaps, Chunks(ls), i);
    ChunkOfChunk(ls, i);
    OneSource(Chunks(ls)[i]);
  }

  lemma OneSource(c: Chunk)
    requires Lines(c) && c != [] && Chunks(c) == [c]
    ensures ChunkOf(Join(c)) == [Join(c)]
  {
    SplitJoin(c);
    SourcesSnoc([], c);
    assert [] + [c] == [c] && [] + [Join(c)] == [Join(c)];
  }

  lemma ScanOne(c: Chunk)
    requires DeclChunk(c) || RunChunk(c)
    ensures Chunks(c) == [c]
  {
    if DeclChunk(c) {
      FeedDeclWhole(START, c);
      assert [] + [c] == [c];
    } else {
      FeedRun([], c);
      assert [] + [c] == [c];
    }
  }

  lemma DeclIsBalanced(c: Chunk)
    requires DeclChunk(c)
    ensures Balanced(c)
  {
    assert c[..0] == [] && c[..|c|] == c;
  }

  lemma NonNegativeJoin(a: seq<string>, b: seq<string>)
    requires Balanced(a) && NonNegative(b)
    ensures NonNegative(a + b) && Depth(a + b) == Depth(b)
  {
    DepthJoin(a, b);
    forall k | 0 <= k <= |a + b| ensures Depth((a + b)[..k]) >= 0 {
      if k <= |a| {
        assert (a + b)[..k] == a[..k];
      } else {
        assert (a + b)[..k] == a + b[..k - |a|];
        DepthJoin(a, b[..k - |a|]);
      }
    }
  }

  lemma {:induction false} BlankIsBalanced(g: seq<string>)
    requires AllBlank(g)
    ensures Balanced(g)
  {
    if g == [] {
    } else {
      BlankIsBalanced(Front(g));
      BlankNet(Last(g));
      forall k | 0 <= k <= |g| ensures Depth(g[..k]) >= 0 {
        assert k < |g| ==> g[..k] == Front(g)[..k];
        assert k == |g| ==> g[..k] == g;
      }
    }
  }

  lemma {:induction false} WeaveBalanced(gaps: seq<seq<string>>, cs: seq<Chunk>)
    requires Parted(gaps, cs) && forall i :: 0 <= i < |cs| ==> Balanced(cs[i])
    ensures Balanced(Weave(gaps, cs))
  {
    BlankIsBalanced(Last(gaps));
    if cs == [] {
    } else {
      assert Parted(Front(gaps), Front(cs));
      WeaveBalanced(Front(gaps), Front(cs));
      NonNegativeJoin(Weave(Front(gaps), Front(cs)), Last(cs));
      NonNegativeJoin(Weave(Front(gaps), Front(cs)) + Last(cs), Last(gaps));
    }
  }

  /** Every chunk is balanced if and only if the source is. */
  lemma ChunksBalancedIff(ls: seq<string>)
    ensures Balanced(ls) <==> forall i :: 0 <= i < |Chunks(ls)| ==> Balanced(Chunks(ls)[i])
  {
    if Balanced(ls) {
      var gaps := BalancedIsCanonical(ls);
      forall i | 0 <= i < |Chunks(ls)| ensures Balanced(Chunks(ls)[i]) {
        if DeclChunk(Chunks(ls)[i]) {
          DeclIsBalanced(Chunks(ls)[i]);
        }
      }
    } else if forall i :: 0 <= i < |Chunks(ls)| ==> Balanced(Chunks(ls)[i]) {
      var gaps := Lossless(ls);
      WeaveBalanced(gaps, Chunks(ls));
    }
  }

  /** On a balanced source a declaration that starts at depth zero opens its own chunk, which ends at
      the first line where the depth is zero again; and no two runs are next to each other. */
  lemma DeclarationsStandAlone(ls: seq<string>, i: nat, k: nat)
    requires Balanced(ls) && i < |Chunks(ls)| && k < |Chunks(ls)[i]|
    requires Declares(Chunks(ls)[i][k]) && Depth(Chunks(ls)[i][..k]) == 0
    ensures k == 0 && DeclChunk(Chunks(ls)[i])
    ensures var c := Chunks(ls)[i]; Depth(c) == 0 && forall j :: 0 < j < |c| ==> Depth(c[..j]) > 0
  {
    IsDeclIff(Chunks(ls)[i][k]);
    var gaps := BalancedIsCanonical(ls);
  }

  /** A chunk that does not begin with a declaration holds none at depth zero. */
  lemma RunsDeclareNothing(ls: seq<string>, i: nat, k: nat)
    requires Balanced(ls) && i < |Chunks(ls)| && k < |Chunks(ls)[i]| && !Declares(Chunks(ls)[i][0])
    ensures Depth(Chunks(ls)[i][..k]) == 0 ==> !Declares(Chunks(ls)[i][k])
  {
    IsDeclIff(Chunks(ls)[i][0]);
    IsDeclIff(Chunks(ls)[i][k]);
    var gaps := BalancedIsCanonical(ls);
  }

  lemma RunsAreMaximal(ls: seq<string>, i: nat)
    requires Balanced(ls) && i + 1 < |Chunks(ls)| && !DeclChunk(Chunks(ls)[i])
    ensures RunChunk(Chunks(ls)[i]) && DeclChunk(Chunks(ls)[i + 1]) && Declares(Chunks(ls)[i + 1][0])
  {
    var gaps := BalancedIsCanonical(ls);
    assert DeclChunk(Chunks(ls)[i + 1]);
    IsDeclIff(Chunks(ls)[i + 1][0]);
  }
}
