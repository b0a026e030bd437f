/** The paths in an import chunk (rlm/goeval.go): the matches of a regular expression in its text. */
module GoImports {
  import opened Prelude
  import opened Text

  // ----- Import paths: the matches of "([\w./-]+)" ---------------------------------------------------

  predicate PathChar(c: char) {
    'a' <= c <= 'z' || 'A' <= c <= 'Z' || '0' <= c <= '9' || c == '_' || c == '.' || c == '/' || c == '-'
  }

  function RunEnd(t: string, i: nat): (j: nat)
    requires i <= |t|
    ensures i <= j <= |t|
    decreases |t| - i
  {
    if i < |t| && PathChar(t[i]) then RunEnd(t, i + 1) else i
  }

  function PathsFrom(t: string, i: nat): seq<string>
    requires i <= |t|
    decreases |t| - i
  {
    if i == |t| then []
    else if t[i] == '"' then
      var j := RunEnd(t, i + 1);
      if i + 1 < j < |t| && t[j] == '"' then [t[i + 1..j]] + PathsFrom(t, j + 1) else PathsFrom(t, i + 1)
    else PathsFrom(t, i + 1)
  }

  /** The paths of an import chunk; none for any other chunk. */
  function ImportPaths(chunk: string): seq<string> {
    var t := TrimSpace(chunk);
    if HasPrefix(t, "import") then PathsFrom(t, 0) else []
  }

  function PathSet(chunk: string): set<string> {
    set p | p in ImportPaths(chunk)
  }

  // ----- What is found ----------------------------------------------------------------------------------

  const LOWER := {
    'a', 'b', 'c', 'd', 'e', 'f', 'g', 'h', 'i', 'j', 'k', 'l', 'm', 'n', 'o', 'p', 'q', 'r', 's', 't', 'u', 'v',
    'w', 'x', 'y', 'z'}
  const UPPER := {
    'A', 'B', 'C', 'D', 'E', 'F', 'G', 'H', 'I', 'J', 'K', 'L', 'M', 'N', 'O', 'P', 'Q', 'R', 'S', 'T', 'U', 'V',
    'W', 'X', 'Y', 'Z'}
  const DIGITS := {'0', '1', '2', '3', '4', '5', '6', '7', '8', '9'}

  lemma LowerIff(c: char)
    ensures 'a' <= c <= 'z' <==> c in LOWER
  {
  }

  lemma UpperIff(c: char)
    ensures 'A' <= c <= 'Z' <==> c in UPPER
  {
  }

  lemma DigitIff(c: char)
    ensures '0' <= c <= '9' <==> c in DIGITS
  {
  }

  /** A path character is a letter, a digit, an underscore, a dot, a slash or a hyphen. */
  lemma PathCharIff(c: char)
    ensures PathChar(c) <==> c in LOWER + UPPER + DIGITS + {'_', '.', '/', '-'}
  {
    LowerIff(c);
    UpperIff(c);
    DigitIff(c);
  }

  /** A quoted run: from the quote at i to the quote at j, one or more path characters between. */
  ghost predicate Quoted(t: string, i: nat, j: nat) {
    i + 1 < j < |t| && t[i] == '"' && t[j] == '"' && forall k :: i < k < j ==> PathChar(t[k])
  }

  ghost predicate Starts(t: string, i: nat) {
    exists j: nat :: Quoted(t, i, j)
  }

  /** No quoted run begins at or behind lo and before hi. */
  ghost predicate NoneIn(t: string, lo: nat, hi: nat) {
    forall i: nat :: lo <= i < hi ==> !Starts(t, i)
  }

  datatype Match = Match(i: nat, j: nat)

  /** The matches from `from` on, left to right, each the first one behind the one before, and none left. */
  ghost predicate AllMatches(t: string, from: nat, ms: seq<Match>)
    decreases |ms|
  {
    if ms == [] then NoneIn(t, from, |t|)
    else
      && Quoted(t, ms[0].i, ms[0].j) && from <= ms[0].i && NoneIn(t, from, ms[0].i)
      && AllMatches(t, ms[0].j + 1, ms[1..])
  }

  /** What stands between the quotes. */
  ghost function Between(t: string, ms: seq<Match>): seq<string> {
    if ms == [] then []
    else [if ms[0].i < ms[0].j <= |t| then t[ms[0].i + 1..ms[0].j] else ""] + Between(t, ms[1..])
  }

  lemma {:induction false} RunEndMeans(t: string, i: nat)
    requires i <= |t|
    ensures var j := RunEnd(t, i);
      (forall k :: i <= k < j ==> PathChar(t[k])) && (j < |t| ==> !PathChar(t[j]))
    decreases |t| - i
  {
    if i == |t| || !PathChar(t[i]) {
    } else {
      RunEndMeans(t, i + 1);
    }
  }

  /** A quoted run ends where its path characters do. */
  lemma QuotedEnd(t: string, i: nat, j: nat)
    requires i < |t| && Quoted(t, i, j)
    ensures j == RunEnd(t, i + 1)
  {
    RunEndMeans(t, i + 1);
    assert !PathChar(t[j]);
  }

  /** The search's own test. */
  lemma StartsIff(t: string, i: nat)
    requires i < |t|
    ensures var j := RunEnd(t, i + 1);
      && (Starts(t, i) <==> t[i] == '"' && i + 1 < j < |t| && t[j] == '"')
      && (Starts(t, i) ==> Quoted(t, i, j))
  {
    RunEndMeans(t, i + 1);
    var e := RunEnd(t, i + 1);
    if t[i] == '"' && i + 1 < e < |t| && t[e] == '"' {
      assert Quoted(t, i, e);
    }
    if j: nat :| Quoted(t, i, j) {
      QuotedEnd(t, i, j);
    }
  }

  lemma LaterStart(t: string, i: nat, ms: seq<Match>)
    requires AllMatches(t, i + 1, ms) && !Starts(t, i)
    ensures AllMatches(t, i, ms)
  {
  }

  lemma NoneInNothing(t: string, i: nat)
    ensures NoneIn(t, i, i)
  {
  }

  lemma MatchesUnfold(t: string, from: nat, ms: seq<Match>, m: Match, rest: seq<Match>)
    requires ms != [] && ms[0] == m && ms[1..] == rest
    requires Quoted(t, m.i, m.j) && from <= m.i && NoneIn(t, from, m.i) && AllMatches(t, m.j + 1, rest)
    ensures AllMatches(t, from, ms)
  {
  }

  lemma BetweenUnfold(t: string, ms: seq<Match>, m: Match, rest: seq<Match>)
    requires ms != [] && ms[0] == m && ms[1..] == rest && m.i < m.j <= |t|
    ensures Between(t, ms) == [t[m.i + 1..m.j]] + Between(t, rest)
  {
  }

  lemma ConsMatch(t: string, m: Match, rest: seq<Match>)
    requires Quoted(t, m.i, m.j) && AllMatches(t, m.j + 1, rest)
    ensures AllMatches(t, m.i, [m] + rest)
    ensures m.i < m.j <= |t| && Between(t, [m] + rest) == [t[m.i + 1..m.j]] + Between(t, rest)
  {
    ConsParts(m, rest);
    NoneInNothing(t, m.i);
    MatchesUnfold(t, m.i, [m] + rest, m, rest);
    BetweenUnfold(t, [m] + rest, m, rest);
  }

  lemma ConsParts<X>(x: X, rest: seq<X>)
    ensures [x] + rest != [] && ([x] + rest)[0] == x && ([x] + rest)[1..] == rest
  {
  }

  lemma {:induction false} PathsAre(t: string, i: nat) returns (ms: seq<Match>)
    requires i <= |t|
    ensures AllMatches(t, i, ms) && PathsFrom(t, i) == Between(t, ms)
    decreases |t| - i
  {
    if i == |t| {
      ms := [];
    } else {
      StartsIff(t, i);
      var j := RunEnd(t, i + 1);
      if t[i] == '"' && i + 1 < j < |t| && t[j] == '"' {
        var rest := PathsAre(t, j + 1);
        ConsMatch(t, Match(i, j), rest);
        ms := [Match(i, j)] + rest;
      } else {
        ms := PathsAre(t, i + 1);
        LaterStart(t, i, ms);
      }
    }
  }

  /** Some match is left if and only if there is a first one. */
  lemma FirstStarts(t: string, from: nat, ms: seq<Match>)
    requires AllMatches(t, from, ms)
    ensures ms == [] <==> NoneIn(t, from, |t|)
    ensures ms != [] ==> Starts(t, ms[0].i) && ms[0].i < |t|
  {
    if ms != [] {
      assert Quoted(t, ms[0].i, ms[0].j);
      assert Starts(t, ms[0].i);
    }
  }

  /** There is only one such list of matches. */
  lemma {:induction false} MatchesAreOne(t: string, from: nat, ms: seq<Match>, ns: seq<Match>)
    requires AllMatches(t, from, ms) && AllMatches(t, from, ns)
    ensures ms == ns
    decreases |ms|
  {
    FirstStarts(t, from, ms);
    FirstStarts(t, from, ns);
    if ms == [] || ns == [] {
    } else {
      assert Starts(t, ms[0].i) && Starts(t, ns[0].i);
      assert ms[0].i == ns[0].i;
      QuotedEnd(t, ms[0].i, ms[0].j);
      QuotedEnd(t, ns[0].i, ns[0].j);
      MatchesAreOne(t, ms[0].j + 1, ms[1..], ns[1..]);
      assert ms == [ms[0]] + ms[1..] && ns == [ns[0]] + ns[1..];
    }
  }

  /** An import chunk's paths are exactly the quoted runs of path characters in its trimmed text, left to
      right; a chunk that does not begin with "import" after leading space has none. */
  lemma ImportPathsMean(chunk: string, ms: seq<Match>)
    requires AllMatches(TrimSpace(chunk), 0, ms)
    ensures ImportPaths(chunk) == if HasPrefix(TrimSpace(chunk), "import") then Between(TrimSpace(chunk), ms) else []
  {
    var ns := PathsAre(TrimSpace(chunk), 0);
    MatchesAreOne(TrimSpace(chunk), 0, ms, ns);
  }

  /** There always is such a list. */
  lemma MatchesExist(t: string)
    ensures exists ms :: AllMatches(t, 0, ms)
  {
    var ms := PathsAre(t, 0);
  }
}
