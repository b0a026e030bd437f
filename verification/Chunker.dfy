/**
 Splitting cell source into eval units (rlm/chunk.go).  The scan is specified on lines; the
 method below is the source's loop over strings.
 */
module Chunker {
  import opened Prelude
  import opened Text

  type Chunk = seq<string>

  datatype Scan = Scan(chunks: seq<Chunk>, cur: Chunk, depth: int, inDecl: bool)

  const START := Scan([], [], 0, false)

  /** Occurrences of a byte: strings.Count for a one-byte pattern. */
  function Count(s: string, c: char): nat {
    if s == "" then 0 else Count(Front(s), c) + if Last(s) == c then 1 else 0
  }

  function Net(l: string): int {
    Count(l, '{') - Count(l, '}')
  }

  predicate IsDecl(l: string) {
    var t := TrimSpace(l);
    || HasPrefix(t, "var ") || HasPrefix(t, "type ") || HasPrefix(t, "const ")
    || HasPrefix(t, "func ") || HasPrefix(t, "import ")
  }

  const KEYWORDS := {"var", "type", "const", "func", "import"}

  /** A line that declares: after leading space a keyword, one blank, and something more. */
  ghost predicate Declares(l: string) {
    exists pre, w, rest :: DeclaredAs(l, pre, w, rest)
  }

  ghost predicate DeclaredAs(l: string, pre: string, w: string, rest: string) {
    l == pre + w + " " + rest && Blank(pre) && w in KEYWORDS && !Blank(rest)
  }

  /** The source's test finds exactly these lines. */
  lemma IsDeclIff(l: string)
    ensures IsDecl(l) <==> Declares(l)
  {
    if IsDecl(l) {
      var w :| w in KEYWORDS && HasPrefix(TrimSpace(l), w + " ");
      DeclaredWith(l, w);
    }
    if Declares(l) {
      var pre, w, rest :| DeclaredAs(l, pre, w, rest);
      StartsWithKeyword(l, pre, w, rest);
    }
  }

  lemma DeclaredWith(l: string, w: string)
    requires w in KEYWORDS && HasPrefix(TrimSpace(l), w + " ")
    ensures Declares(l)
  {
    var pre, post := TrimSpaceMeans(l);
    var t := TrimSpace(l);
    var r := t[|w| + 1..];
    assert t == w + " " + r;
    assert r != "" && Last(r) == Last(t);
    assert l == pre + w + " " + (r + post);
    assert (r + post)[|r| - 1] == Last(r);
    assert DeclaredAs(l, pre, w, r + post);
  }

  lemma StartsWithKeyword(l: string, pre: string, w: string, rest: string)
    requires DeclaredAs(l, pre, w, rest)
    ensures TrimSpace(l) == w + " " + TrimRight(rest) && IsDecl(l)
  {
    TrimRightBlank(rest);
    var post := TrimRightMeans(rest);
    var t := w + " " + TrimRight(rest);
    assert l == pre + t + post;
    assert Last(t) == Last(TrimRight(rest)) && t[0] == w[0];
    TrimSpaceUnique(l, pre, t, post);
  }

  function Positions(s: string, c: char): set<int> {
    set i | 0 <= i < |s| && s[i] == c
  }

  /** The count is that of the positions that hold the character. */
  lemma {:induction false} CountIsPositions(s: string, c: char)
    ensures Count(s, c) == |Positions(s, c)|
  {
    if s == "" {
      assert Positions(s, c) == {};
    } else {
      CountIsPositions(Front(s), c);
      var n := |s| - 1;
      assert Positions(s, c) == Positions(Front(s), c) + if s[n] == c then {n} else {};
    }
  }

  function Flush(s: Scan): Scan {
    if s.cur == [] then s else s.(chunks := s.chunks + [s.cur], cur := [])
  }

  function Open(s: Scan): Scan {
    Flush(s).(inDecl := true)
  }

  function Push(s: Scan, l: string): Scan {
    s.(cur := s.cur + [l], depth := s.depth + Net(l))
  }

  function Close(s: Scan): Scan {
    if s.inDecl && s.depth <= 0 then Flush(s).(inDecl := false) else s
  }

  predicate Opens(s: Scan, l: string) {
    s.depth == 0 && !s.inDecl && IsDecl(l)
  }

  /** One line. */
  function Step(s: Scan, l: string): Scan {
    if Blank(l) && s.cur == [] then s else Close(Push(if Opens(s, l) then Open(s) else s, l))
  }

  function Feed(s: Scan, ls: seq<string>): Scan {
    if ls == [] then s else Step(Feed(s, Front(ls)), Last(ls))
  }

  function Chunks(ls: seq<string>): seq<Chunk> {
    Flush(Feed(START, ls)).chunks
  }

  /** The chunks as the evaluator gets them. */
  function Sources(cs: seq<Chunk>): seq<string> {
    if cs == [] then [] else Sources(Front(cs)) + [Join(Last(cs))]
  }

  function ChunkOf(src: string): seq<string> {
    Sources(Chunks(Split(src)))
  }

  // ----- The loop ---------------------------------------------------------------------------------

  /** What is being collected always starts with a line that is not blank. */
  ghost predicate Solid(s: Scan) {
    && (s.cur != [] ==> !Blank(s.cur[0]))
    && (s.inDecl ==> s.cur != [])
    && (forall i :: 0 <= i < |s.chunks| ==> s.chunks[i] != [] && !Blank(s.chunks[i][0]))
  }

  lemma DeclNotBlank(l: string)
    requires IsDecl(l)
    ensures !Blank(l)
  {
    TrimSpaceBlank(l);
  }

  lemma SolidStep(s: Scan, l: string)
    requires Solid(s)
    ensures Solid(Step(s, l))
  {
    if IsDecl(l) {
      DeclNotBlank(l);
    }
  }

  lemma {:induction false} SolidAlways(ls: seq<string>)
    ensures Solid(Feed(START, ls))
  {
    if ls == [] {
    } else {
      SolidAlways(Front(ls));
      SolidStep(Feed(START, Front(ls)), Last(ls));
    }
  }

  /** The source's own test before it keeps a chunk never fails. */
  lemma {:induction false} JoinedNotBlank(c: Chunk)
    requires c != [] && !Blank(c[0])
    ensures !Blank(Join(c))
  {
    if |c| == 1 {
    } else {
      JoinedNotBlank(Front(c));
      var s, t := Join(Front(c)), Join(c);
      var i :| 0 <= i < |s| && !IsSpace(s[i]);
      assert t[i] == s[i];
    }
  }

  method Flushed(chunks: seq<string>, cur: Chunk) returns (kept: seq<string>, rest: Chunk)
    requires cur != [] ==> !Blank(cur[0])
    ensures kept == if cur == [] then chunks else chunks + [Join(cur)]
    ensures rest == []
  {
    kept, rest := chunks, cur;
    if |cur| > 0 {
      var t := TrimSpace(Join(cur));
      TrimSpaceBlank(Join(cur));
      JoinedNotBlank(cur);
      if t != "" {
        kept := chunks + [Join(cur)];
      }
      rest := [];
    }
  }

  method ChunkSource(src: string) returns (chunks: seq<string>)
    ensures chunks == ChunkOf(src)
  {
    var lines := Split(src);
    chunks := [];
    var cur: Chunk := [];
    var depth := 0;
    var inDecl := false;
    ghost var s := START;
    for n := 0 to |lines|
      invariant s == Feed(START, lines[..n]) && Solid(s)
      invariant chunks == Sources(s.chunks) && cur == s.cur && depth == s.depth && inDecl == s.inDecl
    {
      assert Front(lines[..n + 1]) == lines[..n] && Last(lines[..n + 1]) == lines[n];
      SolidStep(s, lines[n]);
      chunks, cur, depth, inDecl := ScanLine(s, chunks, cur, depth, inDecl, lines[n]);
      s := Step(s, lines[n]);
    }
    assert lines[..|lines|] == lines;
    SourcesSnoc(s.chunks, cur);
    chunks, cur := Flushed(chunks, cur);
  }

  /** The body of the loop. */
  method ScanLine(ghost s: Scan, chunks: seq<string>, cur: Chunk, depth: int, inDecl: bool, l: string)
    returns (chunks': seq<string>, cur': Chunk, depth': int, inDecl': bool)
    requires Solid(s) && Solid(Step(s, l))
    requires chunks == Sources(s.chunks) && cur == s.cur && depth == s.depth && inDecl == s.inDecl
    ensures var t := Step(s, l);
      chunks' == Sources(t.chunks) && cur' == t.cur && depth' == t.depth && inDecl' == t.inDecl
  {
    chunks', cur', depth', inDecl' := chunks, cur, depth, inDecl;
    var t := TrimSpace(l);
    TrimSpaceBlank(l);
    if t == "" && |cur| == 0 {
      return;
    }
    var isDecl := depth == 0 && !inDecl && (
      || HasPrefix(t, "var ") || HasPrefix(t, "type ") || HasPrefix(t, "const ")
      || HasPrefix(t, "func ") || HasPrefix(t, "import "));
    ghost var a := if Opens(s, l) then Open(s) else s;
    if isDecl {
      SourcesSnoc(s.chunks, cur);
      chunks', cur' := Flushed(chunks, cur);
      inDecl' := true;
      DeclNotBlank(l);
    }
    assert chunks' == Sources(a.chunks) && cur' == a.cur && inDecl' == a.inDecl && depth' == a.depth;
    cur' := cur' + [l];
    depth' := depth + Count(l, '{') - Count(l, '}');
    ghost var p := Push(a, l);
    assert cur' == p.cur && depth' == p.depth && chunks' == Sources(p.chunks) && inDecl' == p.inDecl;
    assert Step(s, l) == Close(p) && !Blank(cur'[0]);
    if inDecl' && depth' <= 0 {
      SourcesSnoc(p.chunks, cur');
      chunks', cur' := Flushed(chunks', cur');
      inDecl' := false;
    }
  }

  lemma SourcesSnoc(cs: seq<Chunk>, c: Chunk)
    ensures Sources(cs + [c]) == Sources(cs) + [Join(c)]
  {
    assert Front(cs + [c]) == cs;
  }
}
