/**
 What chunking promises: nothing but blank lines between chunks is lost, chunking is idempotent,
 and on sources with balanced braces the chunks are the declarations and the runs between them.
 */
module ChunkTheorems {
  import opened Prelude
  import opened Text
  import opened Chunker

  // ----- Nothing is lost ---------------------------------------------------------------------------

  ghost predicate AllBlank(ls: seq<string>) {
    forall i :: 0 <= i < |ls| ==> Blank(ls[i])
  }

  /** gaps[0] + cs[0] + gaps[1] + ... + cs[n - 1] + gaps[n] */
  function Weave(gaps: seq<seq<string>>, cs: seq<Chunk>): seq<string>
    requires |gaps| == |cs| + 1
  {
    if cs == [] then gaps[0] else Weave(Front(gaps), Front(cs)) + Last(cs) + Last(gaps)
  }

  /** The gaps are blank, and every chunk starts with a line that is not. */
  ghost predicate Parted(gaps: seq<seq<string>>, cs: seq<Chunk>) {
    && |gaps| == |cs| + 1
    && (forall i :: 0 <= i < |gaps| ==> AllBlank(gaps[i]))
    && (forall i :: 0 <= i < |cs| ==> cs[i] != [] && !Blank(cs[i][0]))
  }

  lemma WeaveGrow(gaps: seq<seq<string>>, cs: seq<Chunk>, l: string)
    requires |gaps| == |cs| + 1
    ensures Weave(Front(gaps) + [Last(gaps) + [l]], cs) == Weave(gaps, cs) + [l]
  {
    var g := Front(gaps) + [Last(gaps) + [l]];
    assert Front(g) == Front(gaps);
    if cs != [] {
      assert Last(g) == Last(gaps) + [l];
      assert Weave(g, cs) == (Weave(Front(gaps), Front(cs)) + Last(cs) + Last(gaps)) + [l];
    }
  }

  lemma WeaveChunk(gaps: seq<seq<string>>, cs: seq<Chunk>, c: Chunk)
    requires |gaps| == |cs| + 1
    ensures Weave(gaps + [[]], cs + [c]) == Weave(gaps, cs) + c
  {
    assert Front(gaps + [[]]) == gaps && Front(cs + [c]) == cs;
    assert Weave(gaps, cs) + c + [] == Weave(gaps, cs) + c;
  }

  /** Where the scan stands, as a weave of what it has kept and skipped. */
  ghost predicate Woven(ls: seq<string>, s: Scan, gaps: seq<seq<string>>) {
    Parted(gaps, s.chunks) && ls == Weave(gaps, s.chunks) + s.cur
  }

  lemma FlushWoven(ls: seq<string>, s: Scan, gaps: seq<seq<string>>) returns (g: seq<seq<string>>)
    requires Woven(ls, s, gaps) && Solid(s)
    ensures Woven(ls, Flush(s), g)
  {
    g := gaps;
    if s.cur != [] {
      g := gaps + [[]];
      WeaveChunk(gaps, s.chunks, s.cur);
      JoinsNothing(ls);
    }
  }

  /** A blank line between chunks goes into the last gap. */
  lemma GapGrows(ls: seq<string>, gaps: seq<seq<string>>, cs: seq<Chunk>, l: string) returns (g: seq<seq<string>>)
    requires |gaps| == |cs| + 1 && ls == Weave(gaps, cs) + []
    ensures g == Front(gaps) + [Last(gaps) + [l]] && ls + [l] == Weave(g, cs) + []
  {
    g := Front(gaps) + [Last(gaps) + [l]];
    WeaveGrow(gaps, cs, l);
    JoinsNothing(Weave(gaps, cs));
    JoinsNothing(Weave(g, cs));
  }

  lemma PushWoven(ls: seq<string>, s: Scan, gaps: seq<seq<string>>, l: string)
    requires Woven(ls, s, gaps)
    ensures Woven(ls + [l], Push(s, l), gaps)
  {
    Joins(Weave(gaps, s.chunks), s.cur, [l]);
  }

  lemma CloseWoven(ls: seq<string>, s: Scan, gaps: seq<seq<string>>) returns (g: seq<seq<string>>)
    requires Woven(ls, s, gaps) && Solid(s)
    ensures Woven(ls, Close(s), g)
  {
    g := gaps;
    if s.inDecl && s.depth <= 0 {
      g := FlushWoven(ls, s, gaps);
    }
  }

  lemma StepWoven(ls: seq<string>, s: Scan, gaps: seq<seq<string>>, l: string) returns (g: seq<seq<string>>)
    requires Woven(ls, s, gaps) && Solid(s)
    ensures Woven(ls + [l], Step(s, l), g)
  {
    if Blank(l) && s.cur == [] {
      g := GapGrows(ls, gaps, s.chunks, l);
    } else {
      var a := s;
      g := gaps;
      if Opens(s, l) {
        DeclNotBlank(l);
        g := FlushWoven(ls, s, gaps);
        a := Open(s);
      }
      PushWoven(ls, a, g, l);
      g := CloseWoven(ls + [l], Push(a, l), g);
    }
  }

  lemma {:induction false} FeedWoven(ls: seq<string>) returns (gaps: seq<seq<string>>)
    ensures Woven(ls, Feed(START, ls), gaps)
  {
    if ls == [] {
      gaps := [[]];
    } else {
      gaps := FeedWoven(Front(ls));
      SolidAlways(Front(ls));
      assert ls == Front(ls) + [Last(ls)];
      gaps := StepWoven(Front(ls), Feed(START, Front(ls)), gaps, Last(ls));
    }
  }

  /** Every source is its chunks in order, with only blank lines between them, and every chunk starts
      with a line that is not blank. */
  lemma Lossless(ls: seq<string>) returns (gaps: seq<seq<string>>)
    ensures Parted(gaps, Chunks(ls)) && Weave(gaps, Chunks(ls)) == ls
  {
    gaps := FeedWoven(ls);
    SolidAlways(ls);
    gaps := FlushWoven(ls, Feed(START, ls), gaps);
    assert Weave(gaps, Chunks(ls)) + [] == Weave(gaps, Chunks(ls));
  }

  // ----- Chunking is idempotent ------------------------------------------------------------------------

  function Concat(cs: seq<Chunk>): seq<string> {
    if cs == [] then [] else Concat(Front(cs)) + Last(cs)
  }

  lemma FeedSnoc(s: Scan, ls: seq<string>, l: string)
    ensures Feed(s, ls + [l]) == Step(Feed(s, ls), l)
  {
    assert Front(ls + [l]) == ls;
  }

  lemma FlushConcat(s: Scan)
    ensures Concat(Flush(s).chunks) + Flush(s).cur == Concat(s.chunks) + s.cur
  {
    assert Front(s.chunks + [s.cur]) == s.chunks;
  }

  /** The lines a step keeps. */
  lemma StepConcat(s: Scan, l: string)
    ensures Concat(Step(s, l).chunks) + Step(s, l).cur ==
      if Blank(l) && s.cur == [] then Concat(s.chunks) + s.cur else Concat(s.chunks) + s.cur + [l]
  {
    var a := if Opens(s, l) then Open(s) else s;
    FlushConcat(s);
    PushConcat(a, l);
    FlushConcat(Push(a, l));
  }

  lemma PushConcat(s: Scan, l: string)
    ensures Concat(Push(s, l).chunks) + Push(s, l).cur == Concat(s.chunks) + s.cur + [l]
  {
    Joins(Concat(s.chunks), s.cur, [l]);
  }

  /** A scan depends only on the lines it keeps. */
  lemma {:induction false} KeptLinesSuffice(ls: seq<string>)
    ensures var s := Feed(START, ls); Feed(START, Concat(s.chunks) + s.cur) == s
  {
    if ls == [] {
    } else {
      var p, l := Front(ls), Last(ls);
      KeptLinesSuffice(p);
      StepConcat(Feed(START, p), l);
      FeedSnoc(START, Concat(Feed(START, p).chunks) + Feed(START, p).cur, l);
    }
  }

  lemma ChunkLinesAgain(ls: seq<string>)
    ensures Chunks(Concat(Chunks(ls))) == Chunks(ls)
  {
    KeptLinesSuffice(ls);
    FlushConcat(Feed(START, ls));
    assert Concat(Chunks(ls)) + [] == Concat(Chunks(ls));
  }

  lemma {:induction false} JoinSources(cs: seq<Chunk>)
    requires forall i :: 0 <= i < |cs| ==> cs[i] != []
    ensures |Sources(cs)| == |cs| && Join(Sources(cs)) == Join(Concat(cs))
    ensures cs != [] ==> Concat(cs) != []
  {
    if cs == [] {
    } else {
      JoinSources(Front(cs));
      if |cs| == 1 {
        assert Concat(cs) == cs[0];
      } else {
        JoinJoin(Concat(Front(cs)), Last(cs));
        assert Front(Sources(cs)) == Sources(Front(cs));
      }
    }
  }

  lemma {:induction false} ConcatLines(gaps: seq<seq<string>>, cs: seq<Chunk>)
    requires |gaps| == |cs| + 1 && Lines(Weave(gaps, cs))
    ensures Lines(Concat(cs))
  {
    if cs == [] {
    } else {
      var w := Weave(Front(gaps), Front(cs));
      assert Weave(gaps, cs) == w + (Last(cs) + Last(gaps)) == w + Last(cs) + Last(gaps);
      forall i | 0 <= i < |w| ensures OneLine(w[i]) {
        assert w[i] == Weave(gaps, cs)[i];
      }
      forall i | 0 <= i < |Last(cs)| ensures OneLine(Last(cs)[i]) {
        assert Last(cs)[i] == Weave(gaps, cs)[|w| + i];
      }
      ConcatLines(Front(gaps), Front(cs));
    }
  }

  /** chunk(join(chunk(src), newline)) == chunk(src), for every source. */
  lemma ChunkFixpoint(src: string)
    ensures ChunkOf(Join(ChunkOf(src))) == ChunkOf(src)
  {
    var ls := Split(src);
    var cs := Chunks(ls);
    var gaps := Lossless(ls);
    JoinSources(cs);
    if cs == [] {
      assert Feed(START, [""]) == Step(START, "");
    } else {
      ConcatLines(gaps, cs);
      SplitJoin(Concat(cs));
      ChunkLinesAgain(ls);
    }
  }
}
