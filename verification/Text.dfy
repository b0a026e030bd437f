/** The few functions of Go's strings package that the models need. */
module Text {
  import opened Prelude

  /** unicode.IsSpace. */
  predicate IsSpace(c: char) {
    || '\t' <= c <= '\r' || c == ' ' || c == '\U{85}' || c == '\U{A0}' || c == '\U{1680}'
    || '\U{2000}' <= c <= '\U{200A}' || c == '\U{2028}' || c == '\U{2029}' || c == '\U{202F}'
    || c == '\U{205F}' || c == '\U{3000}'
  }

  const SPACES := {
    '\t', '\n', '\U{0B}', '\U{0C}', '\r', ' ', '\U{85}', '\U{A0}', '\U{1680}', '\U{2000}', '\U{2001}', '\U{2002}',
    '\U{2003}', '\U{2004}', '\U{2005}', '\U{2006}', '\U{2007}', '\U{2008}', '\U{2009}', '\U{200A}', '\U{2028}',
    '\U{2029}', '\U{202F}', '\U{205F}', '\U{3000}'}

  lemma IsSpaceIff(c: char)
    ensures IsSpace(c) <==> c in SPACES
  {
  }

  predicate Blank(s: string) {
    forall i :: 0 <= i < |s| ==> IsSpace(s[i])
  }

  function TrimLeft(s: string): string {
    if s != "" && IsSpace(s[0]) then TrimLeft(s[1..]) else s
  }

  function TrimRight(s: string): string {
    if s != "" && IsSpace(Last(s)) then TrimRight(Front(s)) else s
  }

  function TrimSpace(s: string): string {
    TrimRight(TrimLeft(s))
  }

  lemma {:induction false} TrimLeftBlank(s: string)
    ensures Blank(s) <==> TrimLeft(s) == ""
  {
    if s == "" {
    } else {
      TrimLeftBlank(s[1..]);
      assert s == [s[0]] + s[1..];
    }
  }

  lemma {:induction false} TrimRightBlank(s: string)
    ensures Blank(s) <==> TrimRight(s) == ""
  {
    if s == "" {
    } else {
      TrimRightBlank(Front(s));
      assert s == Front(s) + [Last(s)];
    }
  }

  lemma TrimLeftSuffix(s: string)
    ensures Blank(TrimLeft(s)) ==> Blank(s)
  {
    TrimLeftBlank(s);
    if TrimLeft(s) != "" {
      FirstKept(s);
    }
  }

  lemma {:induction false} FirstKept(s: string)
    ensures TrimLeft(s) != "" ==> !IsSpace(TrimLeft(s)[0])
  {
    if s == "" || !IsSpace(s[0]) {
    } else {
      FirstKept(s[1..]);
    }
  }

  /** Trimming leaves nothing of exactly the blank strings. */
  lemma TrimSpaceBlank(s: string)
    ensures TrimSpace(s) == "" <==> Blank(s)
  {
    TrimLeftBlank(s);
    TrimRightBlank(TrimLeft(s));
    TrimLeftSuffix(s);
  }

  /** t is s without the space around it. */
  ghost predicate Trims(s: string, pre: string, t: string, post: string) {
    && s == pre + t + post && Blank(pre) && Blank(post)
    && (t != "" ==> !IsSpace(t[0]) && !IsSpace(Last(t)))
  }

  lemma {:induction false} TrimLeftMeans(s: string) returns (pre: string)
    ensures s == pre + TrimLeft(s) && Blank(pre)
  {
    if s == "" || !IsSpace(s[0]) {
      pre := "";
    } else {
      var rest := TrimLeftMeans(s[1..]);
      pre := [s[0]] + rest;
      assert s == [s[0]] + s[1..];
    }
  }

  lemma {:induction false} TrimRightMeans(s: string) returns (post: string)
    ensures s == TrimRight(s) + post && Blank(post)
    ensures TrimRight(s) != "" ==> !IsSpace(Last(TrimRight(s)))
  {
    if s == "" || !IsSpace(Last(s)) {
      post := "";
    } else {
      var rest := TrimRightMeans(Front(s));
      post := rest + [Last(s)];
      assert s == Front(s) + [Last(s)];
    }
  }

  /** Trimming leaves the text without the space around it. */
  lemma TrimSpaceMeans(s: string) returns (pre: string, post: string)
    ensures Trims(s, pre, TrimSpace(s), post)
  {
    pre := TrimLeftMeans(s);
    post := TrimRightMeans(TrimLeft(s));
    FirstKept(s);
    var u, t := TrimLeft(s), TrimSpace(s);
    if t != "" {
      assert u[0] == (t + post)[0] == t[0];
    }
  }

  lemma {:induction false} TrimLeftOf(pre: string, t: string)
    requires Blank(pre) && (t != "" ==> !IsSpace(t[0]))
    ensures TrimLeft(pre + t) == t
  {
    if pre == "" {
      assert pre + t == t;
    } else {
      TrimLeftOf(pre[1..], t);
      assert (pre + t)[1..] == pre[1..] + t && (pre + t)[0] == pre[0];
    }
  }

  lemma {:induction false} TrimRightOf(t: string, post: string)
    requires Blank(post) && (t != "" ==> !IsSpace(Last(t)))
    ensures TrimRight(t + post) == t
    decreases |post|
  {
    if post == "" {
      assert t + post == t;
    } else {
      TrimRightOf(t, Front(post));
      assert Front(t + post) == t + Front(post) && Last(t + post) == Last(post) == post[|post| - 1];
    }
  }

  /** There is only one such text. */
  lemma TrimSpaceUnique(s: string, pre: string, t: string, post: string)
    requires Trims(s, pre, t, post)
    ensures t == TrimSpace(s)
  {
    if t == "" {
      TrimSpaceBlank(s);
    } else {
      assert s == pre + (t + post) && (t + post)[0] == t[0];
      TrimLeftOf(pre, t + post);
      TrimRightOf(t, post);
    }
  }

  predicate HasPrefix(s: string, p: string) {
    p <= s
  }

  // ----- Split and Join on newlines ----------------------------------------------------------------

  predicate OneLine(s: string) {
    forall i :: 0 <= i < |s| ==> s[i] != '\n'
  }

  predicate Lines(ls: seq<string>) {
    forall i :: 0 <= i < |ls| ==> OneLine(ls[i])
  }

  /** strings.Split(s, "\n"). */
  function Split(s: string): (ls: seq<string>)
    ensures ls != [] && Lines(ls)
  {
    if s == "" then [""]
    else
      var ls := Split(Front(s));
      if Last(s) == '\n' then ls + [""] else Front(ls) + [Last(ls) + [Last(s)]]
  }

  /** strings.Join(ls, "\n"). */
  function Join(ls: seq<string>): string {
    if ls == [] then "" else if |ls| == 1 then ls[0] else Join(Front(ls)) + "\n" + Last(ls)
  }

  lemma {:induction false} SplitOneLine(s: string)
    requires OneLine(s)
    ensures Split(s) == [s]
  {
    if s == "" {
    } else {
      SplitOneLine(Front(s));
      assert Front(s) + [Last(s)] == s;
    }
  }

  /** Appending a line to a text appends it to the text's lines. */
  lemma {:induction false} SplitAppend(s: string, l: string)
    requires OneLine(l)
    ensures Split(s + "\n" + l) == Split(s) + [l]
    decreases |l|
  {
    var t := s + "\n" + l;
    if l == "" {
      assert t == s + "\n" && Front(t) == s && Last(t) == '\n';
    } else {
      assert Front(t) == s + "\n" + Front(l) && Last(t) == Last(l);
      SplitAppend(s, Front(l));
      assert Front(l) + [Last(l)] == l;
      assert Front(Split(s) + [Front(l)]) == Split(s);
    }
  }

  lemma {:induction false} SplitJoin(ls: seq<string>)
    requires ls != [] && Lines(ls)
    ensures Split(Join(ls)) == ls
  {
    if |ls| == 1 {
      SplitOneLine(ls[0]);
    } else {
      SplitJoin(Front(ls));
      assert Join(ls) == Join(Front(ls)) + "\n" + Last(ls) && OneLine(Last(ls));
      SplitAppend(Join(Front(ls)), Last(ls));
      assert Front(ls) + [Last(ls)] == ls;
    }
  }

  /** The lines of a text, joined, are the text. */
  lemma {:induction false} JoinSplit(s: string)
    ensures Join(Split(s)) == s
  {
    if s == "" {
    } else {
      var ls, c := Split(Front(s)), Last(s);
      JoinSplit(Front(s));
      assert s == Front(s) + [c];
      if c == '\n' {
        assert Front(ls + [""]) == ls;
        JoinsNothing(Join(ls) + "\n");
      } else {
        LongerLast(ls, c);
      }
    }
  }

  lemma LongerLast(ls: seq<string>, c: char)
    requires ls != []
    ensures Join(Front(ls) + [Last(ls) + [c]]) == Join(ls) + [c]
  {
    var more := Front(ls) + [Last(ls) + [c]];
    assert Front(more) == Front(ls) && Last(more) == Last(ls) + [c];
    if |ls| > 1 {
      Joins(Join(Front(ls)) + "\n", Last(ls), [c]);
    }
  }

  lemma {:induction false} JoinJoin(a: seq<string>, b: seq<string>)
    requires a != [] && b != []
    ensures Join(a + b) == Join(a) + "\n" + Join(b)
    decreases |b|
  {
    if |b| == 1 {
      assert Front(a + b) == a && Last(a + b) == b[0];
    } else {
      assert Front(a + b) == a + Front(b) && Last(a + b) == Last(b);
      JoinJoin(a, Front(b));
    }
  }
}
