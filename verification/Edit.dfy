/**
 Exact-string edits (skills/edit/skill.go): an edit replaces the one occurrence of a string, and
 edits of one path are serialised by that path's lock.
 */
module Edit {
  import opened Prelude

  // ----- Occurrences -----------------------------------------------------------------------------------

  predicate At(s: string, p: string, i: int) {
    0 <= i && i + |p| <= |s| && s[i..i + |p|] == p
  }

  /** p occurs nowhere in s, overlaps included. */
  ghost predicate Absent(s: string, p: string) {
    forall i :: !At(s, p, i)
  }

  /** strings.Index: the leftmost occurrence at or after `from`, or -1. */
  function IndexFrom(s: string, p: string, from: nat): (r: int)
    requires from <= |s|
    ensures r == -1 || (r >= from && At(s, p, r))
    ensures forall i :: from <= i && (r == -1 || i < r) ==> !At(s, p, i)
    decreases |s| - from
  {
    if At(s, p, from) then from
    else if from == |s| then -1
    else IndexFrom(s, p, from + 1)
  }

  /** strings.Count for a non-empty pattern: occurrences found from left to right without overlap. */
  function CountFrom(s: string, p: string, from: nat): nat
    requires from <= |s| && p != ""
    decreases |s| - from
  {
    var i := IndexFrom(s, p, from);
    if i == -1 then 0 else 1 + CountFrom(s, p, i + |p|)
  }

  /** Occurrences in order, none overlapping the one before. */
  ghost predicate Apart(s: string, p: string, from: nat, at: seq<nat>) {
    && (forall k :: 0 <= k < |at| ==> from <= at[k] && At(s, p, at[k]))
    && (forall k :: 0 < k < |at| ==> at[k - 1] + |p| <= at[k])
  }

  lemma ConsApart(s: string, p: string, from: nat, i: nat, rest: seq<nat>)
    requires from <= i && At(s, p, i) && Apart(s, p, i + |p|, rest)
    ensures Apart(s, p, from, [i] + rest)
  {
    var all := [i] + rest;
    forall k | 0 <= k < |all| ensures from <= all[k] && At(s, p, all[k]) {
      assert k > 0 ==> all[k] == rest[k - 1];
    }
    forall k | 0 < k < |all| ensures all[k - 1] + |p| <= all[k] {
      assert all[k] == rest[k - 1] && (k > 1 ==> all[k - 1] == rest[k - 2]);
    }
  }

  /** The first occurrence, then the rest. */
  lemma CountUnfolds(s: string, p: string, from: nat) returns (i: int)
    requires from <= |s| && p != ""
    ensures i == IndexFrom(s, p, from)
    ensures i == -1 ==> CountFrom(s, p, from) == 0
    ensures i != -1 ==> from <= i && At(s, p, i) && CountFrom(s, p, from) == 1 + CountFrom(s, p, i + |p|)
  {
    i := IndexFrom(s, p, from);
  }

  lemma FirstIsLeftmost(s: string, p: string, from: nat, j: nat)
    requires from <= j && from <= |s| && At(s, p, j)
    ensures var i := IndexFrom(s, p, from); i != -1 && i <= j
  {
  }

  lemma {:induction false} RestApart(s: string, p: string, from: nat, at: seq<nat>)
    requires Apart(s, p, from, at) && at != []
    ensures forall k :: 0 < k < |at| ==> at[0] + |p| <= at[k]
    decreases |at|
  {
    if |at| == 1 {
    } else {
      var most := Front(at);
      assert Apart(s, p, from, most);
      RestApart(s, p, from, most);
      assert at[|at| - 2] + |p| <= at[|at| - 1];
      assert |at| > 2 ==> at[0] + |p| <= most[|at| - 2];
    }
  }

  lemma TailApart(s: string, p: string, from: nat, i: nat, at: seq<nat>)
    requires Apart(s, p, from, at) && at != [] && i <= at[0]
    ensures Apart(s, p, i + |p|, at[1..])
  {
    RestApart(s, p, from, at);
    var rest := at[1..];
    assert forall k :: 0 <= k < |rest| ==> rest[k] == at[k + 1];
  }

  /** The count is reached by occurrences that do not overlap. */
  lemma {:induction false} CountIsReached(s: string, p: string, from: nat) returns (at: seq<nat>)
    requires from <= |s| && p != ""
    ensures Apart(s, p, from, at) && |at| == CountFrom(s, p, from)
    decreases |s| - from
  {
    var i := CountUnfolds(s, p, from);
    if i == -1 {
      at := [];
    } else {
      var rest := CountIsReached(s, p, i + |p|);
      ConsApart(s, p, from, i, rest);
      at := [i] + rest;
    }
  }

  /** And no more than that many can be found. */
  lemma {:induction false} CountIsMost(s: string, p: string, from: nat, at: seq<nat>)
    requires from <= |s| && p != "" && Apart(s, p, from, at)
    ensures |at| <= CountFrom(s, p, from)
    decreases |at|
  {
    if at == [] {
    } else {
      var next, rest := AfterFirst(s, p, from, at);
      CountIsMost(s, p, next, rest);
    }
  }

  /** Behind the first occurrence counted there is room for all but the first of any others. */
  lemma AfterFirst(s: string, p: string, from: nat, at: seq<nat>) returns (next: nat, rest: seq<nat>)
    requires from <= |s| && p != "" && Apart(s, p, from, at) && at != []
    ensures next <= |s| && Apart(s, p, next, rest) && |at| == 1 + |rest|
    ensures CountFrom(s, p, from) == 1 + CountFrom(s, p, next)
  {
    var i := CountsOne(s, p, from, at[0]);
    TailApart(s, p, from, i, at);
    next, rest := i + |p|, at[1..];
  }

  lemma CountsOne(s: string, p: string, from: nat, j: nat) returns (i: nat)
    requires from <= j && from <= |s| && p != "" && At(s, p, j)
    ensures i <= j && i + |p| <= |s| && CountFrom(s, p, from) == 1 + CountFrom(s, p, i + |p|)
  {
    FirstIsLeftmost(s, p, from, j);
    i := CountUnfolds(s, p, from);
  }

  /** The count is zero exactly when there is no occurrence. */
  lemma CountIsZeroIff(s: string, p: string, from: nat)
    requires from <= |s| && p != ""
    ensures CountFrom(s, p, from) == 0 <==> forall i :: from <= i ==> !At(s, p, i)
  {
    var i := CountUnfolds(s, p, from);
  }

  function Count(s: string, p: string): nat
    requires p != ""
  {
    CountFrom(s, p, 0)
  }

  function Index(s: string, p: string): int {
    IndexFrom(s, p, 0)
  }

  /** The count is one exactly when nothing occurs behind the leftmost occurrence. */
  lemma CountIsOneIff(s: string, p: string)
    requires p != ""
    ensures Count(s, p) == 0 <==> Index(s, p) == -1
    ensures Count(s, p) == 1 <==> Index(s, p) != -1 && forall i :: Index(s, p) + |p| <= i ==> !At(s, p, i)
  {
    var i := CountUnfolds(s, p, 0);
    if i != -1 {
      CountIsZeroIff(s, p, i + |p|);
    }
  }

  /** strings.Replace(s, old, new, 1) where old occurs. */
  function ReplaceFirst(s: string, was: string, now: string): string
    requires Index(s, was) >= 0
  {
    var i := Index(s, was);
    s[..i] + now + s[i + |was|..]
  }

  datatype Result = Edited(text: string) | EmptyOld | NotFound | Ambiguous(count: nat)

  /** What an edit does to a text. */
  function EditText(s: string, was: string, now: string): Result {
    if was == "" then EmptyOld
    else if Count(s, was) == 0 then NotFound
    else if Count(s, was) > 1 then Ambiguous(Count(s, was))
    else Edited(ReplaceFirst(s, was, now))
  }

  // ----- What an edit means ----------------------------------------------------------------------------

  lemma Slice(s: string, lo: nat, hi: nat, a: nat, b: nat)
    requires lo + a <= lo + b <= hi <= |s|
    ensures s[lo..hi][a..b] == s[lo + a..lo + b]
  {
    var u, v := s[lo..hi][a..b], s[lo + a..lo + b];
    assert |u| == |v| && forall k :: 0 <= k < |u| ==> u[k] == v[k];
  }

  /** The occurrences in a part are those of the whole that lie in it. */
  lemma PartOccurrence(s: string, p: string, lo: nat, hi: nat, i: int)
    requires lo <= hi <= |s|
    ensures At(s[lo..hi], p, i) <==> i >= 0 && lo + i + |p| <= hi && At(s, p, lo + i)
  {
    if i >= 0 && lo + i + |p| <= hi {
      Slice(s, lo, hi, i, i + |p|);
    }
  }

  /** s parts around an occurrence of p: none starts before it, and none lies in what follows. */
  ghost predicate Around(s: string, p: string, pre: string, post: string) {
    && s == pre + p + post
    && (forall i :: i < |pre| ==> !At(s, p, i))
    && Absent(post, p)
  }

  lemma AroundMeans(s: string, p: string, n: nat)
    requires At(s, p, n)
    ensures Around(s, p, s[..n], s[n + |p|..]) <==>
      (forall i :: i < n ==> !At(s, p, i)) && (forall i :: n + |p| <= i ==> !At(s, p, i))
    ensures (forall i :: i < n ==> !At(s, p, i)) ==> p == "" || Absent(s[..n], p)
  {
    assert s == s[..n] + s[n..n + |p|] + s[n + |p|..];
    assert s[n + |p|..] == s[n + |p|..|s|] && s[..n] == s[0..n];
    var post := s[n + |p|..];
    forall i {:trigger At(post, p, i)} ensures At(post, p, i) <==> i >= 0 && At(s, p, n + |p| + i) {
      PartOccurrence(s, p, n + |p|, |s|, i);
    }
    forall i ensures At(s[..n], p, i) <==> i >= 0 && i + |p| <= n && At(s, p, i) {
      PartOccurrence(s, p, 0, n, i);
    }
    if forall i :: n + |p| <= i ==> !At(s, p, i) {
    } else {
      var i :| n + |p| <= i && At(s, p, i);
      assert At(post, p, i - n - |p|);
    }
  }

  lemma OccursIn(pre: string, p: string, post: string)
    ensures At(pre + p + post, p, |pre|)
    ensures (pre + p + post)[..|pre|] == pre && (pre + p + post)[|pre| + |p|..] == post
  {
    var s := pre + p + post;
    assert s[|pre|..|pre| + |p|] == p;
  }

  /** An edit succeeds if and only if the old string is not empty and the text parts around one
      occurrence of it; then it is that occurrence which is replaced, and the old string is in
      neither of the parts that stay. */
  lemma EditSucceedsIff(s: string, was: string, now: string)
    ensures EditText(s, was, now).Edited? <==> was != "" && exists pre, post :: Around(s, was, pre, post)
    ensures forall pre, post :: was != "" && Around(s, was, pre, post) ==>
      EditText(s, was, now) == Edited(pre + now + post) && |pre| == Index(s, was)
      && Absent(pre, was) && Absent(post, was)
  {
    if was != "" {
      CountIsOneIff(s, was);
    }
    forall pre, post | was != "" && Around(s, was, pre, post)
      ensures EditText(s, was, now) == Edited(pre + now + post) && |pre| == Index(s, was)
      ensures Absent(pre, was)
    {
      OccursIn(pre, was, post);
      assert Index(s, was) == |pre|;
      AroundMeans(s, was, |pre|);
    }
    if EditText(s, was, now).Edited? {
      var i := Index(s, was);
      AroundMeans(s, was, i);
      assert Around(s, was, s[..i], s[i + |was|..]);
    }
  }

  /** n occurrences apart can be found, and no more. */
  ghost predicate IsLargest(s: string, p: string, n: nat) {
    && (exists at :: Apart(s, p, 0, at) && |at| == n)
    && (forall at :: Apart(s, p, 0, at) ==> |at| <= n)
  }

  lemma CountIsLargest(s: string, p: string, n: nat)
    requires p != ""
    ensures IsLargest(s, p, n) <==> n == Count(s, p)
  {
    var at := CountIsReached(s, p, 0);
    forall bt | Apart(s, p, 0, bt) ensures |bt| <= Count(s, p) {
      CountIsMost(s, p, 0, bt);
    }
  }

  /** Which refusal is given, and with which count. */
  lemma RefusedIff(s: string, was: string, now: string, n: nat)
    ensures EditText(s, was, now) == EmptyOld <==> was == ""
    ensures EditText(s, was, now) == NotFound <==> was != "" && Absent(s, was)
    ensures EditText(s, was, now) == Ambiguous(n) <==> was != "" && n > 1 && IsLargest(s, was, n)
  {
    if was != "" {
      CountIsLargest(s, was, n);
      CountIsZeroIff(s, was, 0);
    }
  }

  lemma EditSplits(s: string, was: string, now: string) returns (pre: string, post: string)
    requires EditText(s, was, now).Edited?
    ensures Around(s, was, pre, post) && |pre| == Index(s, was) && EditText(s, was, now) == Edited(pre + now + post)
  {
    EditSucceedsIff(s, was, now);
    pre, post :| Around(s, was, pre, post);
  }

  /** Replacing another occurrence of the new string cannot restore the text: it would put the old
      string before the leftmost place where the text has it. */
  lemma OtherPlace(s: string, was: string, t: string, now: string, i: nat)
    requires At(t, now, i) && s == t[..i] + was + t[i + |now|..]
    ensures At(s, was, i)
  {
    OccursIn(t[..i], was, t[i + |now|..]);
  }

  /** Editing back restores the text if and only if the new string is not empty, occurs once as the
      code counts, and first where it was put. */
  lemma UndoIff(s: string, was: string, now: string)
    requires EditText(s, was, now).Edited?
    ensures var t := EditText(s, was, now).text;
      EditText(t, now, was) == Edited(s) <==>
      now != "" && Count(t, now) == 1 && Index(t, now) == Index(s, was)
  {
    var pre, post := EditSplits(s, was, now);
    var t := pre + now + post;
    OccursIn(pre, now, post);
    if EditText(t, now, was) == Edited(s) {
      var i := Index(t, now);
      OtherPlace(s, was, t, now, i);
      assert i <= |pre|;
    }
  }

  /** In particular when the new string occurs exactly once, overlaps counted. */
  lemma UniqueNewUndoes(s: string, was: string, now: string)
    requires EditText(s, was, now).Edited? && now != ""
    requires var t := EditText(s, was, now).text; forall i, j :: At(t, now, i) && At(t, now, j) ==> i == j
    ensures EditText(EditText(s, was, now).text, now, was) == Edited(s)
  {
    var pre, post := EditSplits(s, was, now);
    var t := pre + now + post;
    OccursIn(pre, now, post);
    assert Index(t, now) == |pre|;
    CountIsOneIff(t, now);
    UndoIff(s, was, now);
  }

  /** One occurrence as the code counts is not enough: an earlier one that overlaps the one put in is
      edited back instead. */
  lemma OverlapBreaksUndo()
    ensures EditText("abx", "x", "aba") == Edited("ababa")
    ensures EditText("ababa", "aba", "x") == Edited("xba")
  {
    assert "ab" + "x" + "" == "abx" && "ab" + "aba" + "" == "ababa";
    assert Around("abx", "x", "ab", "") by {
      assert "abx"[0..1] == "a" && "abx"[1..2] == "b";
    }
    EditSucceedsIff("abx", "x", "aba");
    EditsFront();
  }

  lemma EditsFront()
    ensures EditText("ababa", "aba", "x") == Edited("xba")
  {
    assert "" + "aba" + "ba" == "ababa" && "" + "x" + "ba" == "xba";
    assert Around("ababa", "aba", "", "ba");
    EditSucceedsIff("ababa", "aba", "x");
  }
}
