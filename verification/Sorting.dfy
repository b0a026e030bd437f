/** sort.Strings, and the one sorted listing a set of names has. */
module Sorting {
  import opened Prelude

  /** Lexicographic order on strings. */
  predicate Less(a: string, b: string) {
    if b == "" then false
    else if a == "" then true
    else a[0] < b[0] || (a[0] == b[0] && Less(a[1..], b[1..]))
  }

  /** a comes before b if at the first place where they differ a has ended or has the smaller character. */
  ghost predicate DifferAt(a: string, b: string, k: nat) {
    k <= |a| && k < |b| && a[..k] == b[..k] && (k == |a| || a[k] < b[k])
  }

  lemma {:induction false} LessIff(a: string, b: string)
    ensures Less(a, b) <==> exists k :: DifferAt(a, b, k)
  {
    if b == "" {
    } else if a == "" {
      assert DifferAt(a, b, 0);
    } else if a[0] != b[0] {
      assert a[0] < b[0] <==> DifferAt(a, b, 0);
      forall k: nat | 0 < k <= |a| && k <= |b| ensures a[..k] != b[..k] {
        assert a[..k][0] == a[0] && b[..k][0] == b[0];
      }
    } else {
      LessIff(a[1..], b[1..]);
      forall k: nat ensures DifferAt(a, b, k + 1) <==> DifferAt(a[1..], b[1..], k) {
        LaterPlace(a, b, k);
      }
      forall k: nat | DifferAt(a, b, k) ensures Less(a, b) {
        if k > 0 {
          assert DifferAt(a[1..], b[1..], k - 1);
        }
      }
      if Less(a, b) {
        var k: nat :| DifferAt(a[1..], b[1..], k);
        assert DifferAt(a, b, k + 1);
      }
    }
  }

  lemma LaterPlace(a: string, b: string, k: nat)
    requires a != "" && b != "" && a[0] == b[0]
    ensures DifferAt(a, b, k + 1) <==> DifferAt(a[1..], b[1..], k)
  {
    if k + 1 <= |a| && k + 1 <= |b| {
      assert a[..k + 1] == [a[0]] + a[1..][..k] && b[..k + 1] == [b[0]] + b[1..][..k];
      assert a[..k + 1][1..] == a[1..][..k] && b[..k + 1][1..] == b[1..][..k];
    }
  }

  lemma {:induction false} LessTotal(a: string, b: string)
    ensures a == b || Less(a, b) || Less(b, a)
  {
    if a == "" || b == "" || a[0] != b[0] {
    } else {
      LessTotal(a[1..], b[1..]);
      assert a == [a[0]] + a[1..] && b == [b[0]] + b[1..];
    }
  }

  lemma {:induction false} LessTransitive(a: string, b: string, c: string)
    requires Less(a, b) && Less(b, c)
    ensures Less(a, c)
  {
    if a == "" || a[0] != b[0] || b[0] != c[0] {
    } else {
      LessTransitive(a[1..], b[1..], c[1..]);
    }
  }

  lemma {:induction false} LessIrreflexive(a: string)
    ensures !Less(a, a)
  {
    if a == "" {
    } else {
      LessIrreflexive(a[1..]);
    }
  }

  ghost predicate Sorted(s: seq<string>) {
    forall i, j :: 0 <= i < j < |s| ==> Less(s[i], s[j])
  }

  function ToSet(s: seq<string>): set<string> {
    set i | 0 <= i < |s| :: s[i]
  }

  /** s lists exactly the names in xs, in strictly increasing order. */
  ghost predicate Lists(s: seq<string>, xs: set<string>) {
    Sorted(s) && forall x :: x in s <==> x in xs
  }

  /** There is only one such list. */
  lemma {:induction false} ListingUnique(s: seq<string>, t: seq<string>, xs: set<string>)
    requires Lists(s, xs) && Lists(t, xs)
    ensures s == t
    decreases |s|
  {
    assert t == [] || t[0] in t;
    if s == [] {
    } else {
      assert s[|s| - 1] in s;
      assert Last(s) in t;
      assert t[|t| - 1] in t && Last(t) in s;
      SameLast(s, t, xs);
      var l := Last(s);
      LessIrreflexive(l);
      assert Lists(Front(s), xs - {l}) by { FrontLists(s, xs); }
      assert Lists(Front(t), xs - {l}) by { FrontLists(t, xs); }
      ListingUnique(Front(s), Front(t), xs - {l});
      assert s == Front(s) + [l] && t == Front(t) + [l];
    }
  }

  lemma SameLast(s: seq<string>, t: seq<string>, xs: set<string>)
    requires Lists(s, xs) && Lists(t, xs) && s != [] && t != []
    ensures Last(s) == Last(t)
  {
    var a, b := Last(s), Last(t);
    assert s[|s| - 1] in s && t[|t| - 1] in t;
    var i :| 0 <= i < |s| && s[i] == b;
    var j :| 0 <= j < |t| && t[j] == a;
    if a != b {
      assert Less(b, a) && Less(a, b);
      LessTransitive(a, b, a);
      LessIrreflexive(a);
    }
  }

  lemma FrontLists(s: seq<string>, xs: set<string>)
    requires Lists(s, xs) && s != []
    ensures Lists(Front(s), xs - {Last(s)})
  {
    LessIrreflexive(Last(s));
    forall x ensures x in Front(s) <==> x in xs - {Last(s)} {
      if x in xs && x != Last(s) {
        var i :| 0 <= i < |s| && s[i] == x;
        assert Front(s)[i] == x;
      }
    }
  }

  /** Where x belongs in a sorted list that does not hold it. */
  method Insert(s: seq<string>, x: string) returns (r: seq<string>)
    requires Sorted(s) && x !in s
    ensures Lists(r, ToSet(s) + {x}) && |r| == |s| + 1
  {
    var i := |s|;
    while i > 0 && Less(x, s[i - 1])
      invariant 0 <= i <= |s|
      invariant forall k :: i <= k < |s| ==> Less(x, s[k])
    {
      i := i - 1;
    }
    forall k | 0 <= k < i ensures Less(s[k], x) {
      LessTotal(x, s[i - 1]);
      if k < i - 1 {
        LessTransitive(s[k], s[i - 1], x);
      }
    }
    r := s[..i] + [x] + s[i..];
    assert forall y :: y in s ==> y in s[..i] || y in s[i..];
  }

  /** The sorted listing of a set of names, whatever order they are picked in. */
  method SortedNames(xs: set<string>) returns (r: seq<string>)
    ensures Lists(r, xs) && |r| == |xs|
  {
    r := [];
    var left := xs;
    while left != {}
      invariant left <= xs && Lists(r, xs - left) && |r| == |xs - left|
      decreases |left|
    {
      var x :| x in left;
      r := Insert(r, x);
      assert xs - (left - {x}) == (xs - left) + {x};
      left := left - {x};
    }
    assert xs - left == xs;
  }

  /** The listing as a function. */
  ghost function Listing(xs: set<string>): (r: seq<string>)
    ensures Lists(r, xs)
  {
    ListingExists(xs);
    var r :| Lists(r, xs);
    r
  }

  lemma {:induction false} ListingExists(xs: set<string>)
    ensures exists r :: Lists(r, xs)
    decreases |xs|
  {
    if xs == {} {
      assert Lists([], xs);
    } else {
      var m := Greatest(xs);
      ListingExists(xs - {m});
      var r :| Lists(r, xs - {m});
      assert forall x :: x in r ==> Less(x, m);
      assert Lists(r + [m], xs);
    }
  }

  lemma {:induction false} Greatest(xs: set<string>) returns (m: string)
    requires xs != {}
    ensures m in xs && forall x :: x in xs && x != m ==> Less(x, m)
    decreases |xs|
  {
    m :| m in xs;
    if xs == {m} {
    } else {
      assert xs - {m} != {};
      var k := Greatest(xs - {m});
      LessTotal(m, k);
      if Less(m, k) {
        m := k;
      } else {
        forall x | x in xs && x != m ensures Less(x, m) {
          if x != k {
            LessTransitive(x, k, m);
          }
        }
      }
    }
  }
}
