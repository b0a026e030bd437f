/**
 The Go evaluator and the cell around it (rlm/goeval.go, rlm/cell.go).  The interpreter itself is
 uninterpreted: each evaluation of a chunk gives a value, an error or a panic, as `eval` says.
 */
module GoEval {
  import opened Prelude
  import opened Text
  import opened Frames
  import opened GoImports
  import Chunker
  import K = Kernel

  // ----- The import memo ----------------------------------------------------------------------------

  /** The chunk is skipped: it is an import, and all its paths are known. */
  predicate Skips(imported: set<string>, chunk: string) {
    ImportPaths(chunk) != [] && PathSet(chunk) <= imported
  }

  function ImportedAfter(imported: set<string>, cs: seq<string>): set<string> {
    if cs == [] then imported else ImportedAfter(imported, Front(cs)) + PathSet(Last(cs))
  }

  /** How many import chunks with paths are evaluated in a run of chunks. */
  function ImportsEvaluated(imported: set<string>, cs: seq<string>): nat {
    if cs == [] then 0
    else
      ImportsEvaluated(imported, Front(cs)) +
      if ImportPaths(Last(cs)) != [] && !Skips(ImportedAfter(imported, Front(cs)), Last(cs)) then 1 else 0
  }

  function PathsSeen(cs: seq<string>): set<string> {
    if cs == [] then {} else PathsSeen(Front(cs)) + PathSet(Last(cs))
  }

  lemma SubsetSize(a: set<string>, b: set<string>)
    requires a <= b
    ensures |a| <= |b|
  {
    assert b == a + (b - a);
  }

  lemma {:induction false} ImportedGrows(imported: set<string>, cs: seq<string>)
    ensures ImportedAfter(imported, cs) == imported + PathsSeen(cs)
  {
    if cs == [] {
    } else {
      ImportedGrows(imported, Front(cs));
    }
  }

  lemma {:induction false} EvaluatedBound(imported: set<string>, cs: seq<string>)
    ensures ImportsEvaluated(imported, cs) + |imported| <= |ImportedAfter(imported, cs)|
  {
    if cs == [] {
    } else {
      EvaluatedBound(imported, Front(cs));
      var before, after := ImportedAfter(imported, Front(cs)), ImportedAfter(imported, cs);
      SubsetSize(before, after);
      if ImportPaths(Last(cs)) != [] && !Skips(before, Last(cs)) {
        var p :| p in PathSet(Last(cs)) && p !in before;
        SubsetSize(before + {p}, after);
      }
    }
  }

  /** Over any run of chunks the memo only grows, by exactly the paths seen, and no more import chunks
      are evaluated than there are distinct new paths among them. */
  lemma ImportBound(imported: set<string>, cs: seq<string>)
    ensures imported <= ImportedAfter(imported, cs) == imported + PathsSeen(cs)
    ensures ImportsEvaluated(imported, cs) <= |PathsSeen(cs) - imported|
  {
    ImportedGrows(imported, cs);
    EvaluatedBound(imported, cs);
    assert imported + PathsSeen(cs) == imported + (PathsSeen(cs) - imported);
  }

  // ----- One cell ---------------------------------------------------------------------------------------

  /** What reading a value gives: nothing, a text, or a panic. */
  datatype Shown = Nil | Text(s: string) | Unprintable(msg: string)

  /** What the interpreter does with a chunk; `cancelled` says the error is a context error. */
  datatype Eval = Value(v: Shown) | Fails(cancelled: bool, msg: string) | Panics(msg: string)

  /** The context, and the cell whose output and host port background goroutines use. */
  datatype Slots = Background | OfCell(cell: Id) | AtRoot(cell: Id)

  datatype Result = Ok(v: Option<string>) | Interrupted | Failed(msg: string)

  /** The chunk at i is not evaluated. */
  predicate SkippedAt(imported: set<string>, cs: seq<string>, i: nat)
    requires i < |cs|
  {
    Skips(ImportedAfter(imported, cs[..i]), cs[i])
  }

  /** The path is bound before the chunk at i: from the start, or by an import chunk before it. */
  ghost predicate BoundBefore(imported: set<string>, cs: seq<string>, i: nat, p: string)
    requires i <= |cs|
  {
    p in imported || exists j: nat :: j < i && p in ImportPaths(cs[j])
  }

  lemma {:induction false} ImportedIff(imported: set<string>, cs: seq<string>, i: nat, p: string)
    requires i <= |cs|
    ensures p in ImportedAfter(imported, cs[..i]) <==> BoundBefore(imported, cs, i, p)
  {
    if i == 0 {
    } else {
      ImportedIff(imported, cs, i - 1, p);
      assert Front(cs[..i]) == cs[..i - 1] && Last(cs[..i]) == cs[i - 1];
    }
  }

  /** A chunk is not evaluated if and only if it is an import with paths, and each of them was bound from
      the start or stands in an import chunk before it. */
  lemma SkippedIff(imported: set<string>, cs: seq<string>, i: nat)
    requires i < |cs|
    ensures SkippedAt(imported, cs, i) <==>
      ImportPaths(cs[i]) != [] && forall p :: p in ImportPaths(cs[i]) ==> BoundBefore(imported, cs, i, p)
  {
    forall p | p in ImportPaths(cs[i])
      ensures p in ImportedAfter(imported, cs[..i]) <==> BoundBefore(imported, cs, i, p) {
      ImportedIff(imported, cs, i, p);
    }
    assert forall p :: p in PathSet(cs[i]) <==> p in ImportPaths(cs[i]);
  }

  /** Which chunks are not evaluated. */
  function SkipsOf(imported: set<string>, cs: seq<string>): seq<bool> {
    seq(|cs|, i requires 0 <= i < |cs| => SkippedAt(imported, cs, i))
  }

  /** How many of the first k chunks are evaluated; the chunk at k is evaluation number Rank(k). */
  function Rank(skips: seq<bool>, k: nat): nat
    requires k <= |skips|
  {
    if k == 0 then 0 else Rank(skips, k - 1) + if skips[k - 1] then 0 else 1
  }

  /** Where the loop stands after k chunks: a value so far, or the failure that ended it. */
  function ExitAfter(skips: seq<bool>, eval: nat -> Eval, k: nat): Eval
    requires k <= |skips|
  {
    if k == 0 then Value(Nil)
    else
      var e := ExitAfter(skips, eval, k - 1);
      if !e.Value? || skips[k - 1] then e else eval(Rank(skips, k - 1))
  }

  /** How many chunks the loop gets to, the one that fails included. */
  function ReachedAfter(skips: seq<bool>, eval: nat -> Eval, k: nat): (r: nat)
    requires k <= |skips|
    ensures r <= k
  {
    if k == 0 then 0
    else if ExitAfter(skips, eval, k - 1).Value? then k
    else ReachedAfter(skips, eval, k - 1)
  }

  /** The chunk at i is evaluated, and this is what comes of it. */
  ghost predicate Gives(skips: seq<bool>, eval: nat -> Eval, i: nat, e: Eval) {
    i < |skips| && !skips[i] && e == eval(Rank(skips, i))
  }

  /** The chunk at i is not evaluated, or gives a value. */
  predicate Succeeds(skips: seq<bool>, eval: nat -> Eval, i: nat)
    requires i < |skips|
  {
    skips[i] || eval(Rank(skips, i)).Value?
  }

  /** No chunk before k that is evaluated fails. */
  ghost predicate NoneFails(skips: seq<bool>, eval: nat -> Eval, k: nat) {
    forall i: nat :: i < k && i < |skips| ==> Succeeds(skips, eval, i)
  }

  /** e is what the last evaluated chunk before k gives, and no value if none is evaluated. */
  ghost predicate IsLastValue(skips: seq<bool>, eval: nat -> Eval, k: nat, e: Eval) {
    || (e == Value(Nil) && AllSkipped(skips, 0, k))
    || exists i: nat :: i < k && Gives(skips, eval, i, e) && AllSkipped(skips, i + 1, k)
  }

  ghost predicate AllSkipped(skips: seq<bool>, from: nat, k: nat) {
    forall i: nat :: from <= i < k && i < |skips| ==> skips[i]
  }

  lemma NoneFailsSnoc(skips: seq<bool>, eval: nat -> Eval, k: nat)
    requires 0 < k <= |skips|
    ensures NoneFails(skips, eval, k) <==>
      NoneFails(skips, eval, k - 1) && Succeeds(skips, eval, k - 1)
  {
  }

  lemma LastValueSnoc(skips: seq<bool>, eval: nat -> Eval, k: nat, e: Eval)
    requires 0 < k <= |skips|
    ensures skips[k - 1] && IsLastValue(skips, eval, k - 1, e) ==> IsLastValue(skips, eval, k, e)
    ensures Gives(skips, eval, k - 1, e) ==> IsLastValue(skips, eval, k, e)
  {
    if skips[k - 1] && IsLastValue(skips, eval, k - 1, e) {
      SameLastValue(skips, eval, k, e);
    }
    if Gives(skips, eval, k - 1, e) {
      NewLastValue(skips, eval, k, e);
    }
  }

  lemma SameLastValue(skips: seq<bool>, eval: nat -> Eval, k: nat, e: Eval)
    requires 0 < k <= |skips| && skips[k - 1] && IsLastValue(skips, eval, k - 1, e)
    ensures IsLastValue(skips, eval, k, e)
  {
    SkipsOn(skips, 0, k);
    if i: nat :| i < k - 1 && Gives(skips, eval, i, e) && AllSkipped(skips, i + 1, k - 1) {
      SkipsOn(skips, i + 1, k);
    }
  }

  lemma SkipsOn(skips: seq<bool>, from: nat, k: nat)
    requires 0 < k <= |skips| && skips[k - 1]
    ensures AllSkipped(skips, from, k - 1) ==> AllSkipped(skips, from, k)
  {
  }

  lemma NewLastValue(skips: seq<bool>, eval: nat -> Eval, k: nat, e: Eval)
    requires 0 < k && Gives(skips, eval, k - 1, e)
    ensures IsLastValue(skips, eval, k, e)
  {
    assert AllSkipped(skips, k, k);
  }

  lemma {:induction false} ValueIffNoneFails(skips: seq<bool>, eval: nat -> Eval, k: nat)
    requires k <= |skips|
    ensures ExitAfter(skips, eval, k).Value? <==> NoneFails(skips, eval, k)
  {
    if k == 0 {
    } else {
      ValueIffNoneFails(skips, eval, k - 1);
      NoneFailsSnoc(skips, eval, k);
      ValueSnoc(skips, eval, k);
    }
  }

  lemma ValueSnoc(skips: seq<bool>, eval: nat -> Eval, k: nat)
    requires 0 < k <= |skips|
    ensures ExitAfter(skips, eval, k).Value? <==>
      ExitAfter(skips, eval, k - 1).Value? && Succeeds(skips, eval, k - 1)
  {
  }

  lemma {:induction false} ValueIsLast(skips: seq<bool>, eval: nat -> Eval, k: nat)
    requires k <= |skips| && ExitAfter(skips, eval, k).Value?
    ensures IsLastValue(skips, eval, k, ExitAfter(skips, eval, k))
    ensures ReachedAfter(skips, eval, k) == k
  {
    if k == 0 {
    } else {
      ValueIsLast(skips, eval, k - 1);
      LastValueSnoc(skips, eval, k, ExitAfter(skips, eval, k));
    }
  }

  lemma FailsHere(skips: seq<bool>, eval: nat -> Eval, k: nat)
    requires 0 < k <= |skips| && ExitAfter(skips, eval, k - 1).Value? && !ExitAfter(skips, eval, k).Value?
    ensures ReachedAfter(skips, eval, k) == k && Gives(skips, eval, k - 1, ExitAfter(skips, eval, k))
  {
  }

  lemma FailedBefore(skips: seq<bool>, eval: nat -> Eval, k: nat)
    requires 0 < k <= |skips| && !ExitAfter(skips, eval, k - 1).Value?
    ensures ReachedAfter(skips, eval, k) == ReachedAfter(skips, eval, k - 1)
    ensures ExitAfter(skips, eval, k) == ExitAfter(skips, eval, k - 1)
  {
  }

  lemma {:induction false} FailureIsFirst(skips: seq<bool>, eval: nat -> Eval, k: nat) returns (r: nat)
    requires k <= |skips| && !ExitAfter(skips, eval, k).Value?
    ensures r == ReachedAfter(skips, eval, k) && 0 < r
    ensures Gives(skips, eval, r - 1, ExitAfter(skips, eval, k)) && NoneFails(skips, eval, r - 1)
  {
    if ExitAfter(skips, eval, k - 1).Value? {
      FailsHere(skips, eval, k);
      ValueIffNoneFails(skips, eval, k - 1);
      r := k;
    } else {
      FailedBefore(skips, eval, k);
      r := FailureIsFirst(skips, eval, k - 1);
    }
  }

  /** A failure is final. */
  lemma {:induction false} FailureStays(skips: seq<bool>, eval: nat -> Eval, k: nat, m: nat)
    requires k <= m <= |skips| && !ExitAfter(skips, eval, k).Value?
    requires k > 0 && ExitAfter(skips, eval, k - 1).Value?
    ensures ExitAfter(skips, eval, m) == ExitAfter(skips, eval, k)
    ensures ReachedAfter(skips, eval, m) == k
  {
    if m == k {
    } else {
      FailureStays(skips, eval, k, m - 1);
    }
  }

  lemma Stops(skips: seq<bool>, eval: nat -> Eval, i: nat)
    requires i < |skips| && ExitAfter(skips, eval, i).Value? && !skips[i] && !eval(Rank(skips, i)).Value?
    ensures ExitAfter(skips, eval, |skips|) == eval(Rank(skips, i)) && ReachedAfter(skips, eval, |skips|) == i + 1
  {
    FailureStays(skips, eval, i + 1, |skips|);
  }

  lemma OneMore(skips: seq<bool>, eval: nat -> Eval, i: nat)
    requires i < |skips|
    ensures Rank(skips, i + 1) == Rank(skips, i) + if skips[i] then 0 else 1
    ensures ExitAfter(skips, eval, i).Value? ==>
      ExitAfter(skips, eval, i + 1) == if skips[i] then ExitAfter(skips, eval, i) else eval(Rank(skips, i))
  {
  }

  function Exit(imported: set<string>, cs: seq<string>, eval: nat -> Eval): Eval {
    ExitAfter(SkipsOf(imported, cs), eval, |cs|)
  }

  /** The chunks the loop gets to. */
  function Reached(imported: set<string>, cs: seq<string>, eval: nat -> Eval): seq<string> {
    cs[..ReachedAfter(SkipsOf(imported, cs), eval, |cs|)]
  }

  /** The loop ends with the last evaluated chunk's value if and only if no evaluated chunk fails, and
      then it has got to every chunk; otherwise it ends with the first failure, and gets no further. */
  lemma ExitMeans(imported: set<string>, cs: seq<string>, eval: nat -> Eval)
    ensures var e, r, skips := Exit(imported, cs, eval), |Reached(imported, cs, eval)|, SkipsOf(imported, cs);
      && (e.Value? <==> NoneFails(skips, eval, |cs|))
      && (e.Value? ==> IsLastValue(skips, eval, |cs|, e) && r == |cs|)
      && (!e.Value? ==> 0 < r <= |cs| && Gives(skips, eval, r - 1, e) && NoneFails(skips, eval, r - 1))
  {
    var skips := SkipsOf(imported, cs);
    ValueIffNoneFails(skips, eval, |cs|);
    if Exit(imported, cs, eval).Value? {
      ValueIsLast(skips, eval, |cs|);
    } else {
      var r := FailureIsFirst(skips, eval, |cs|);
    }
  }

  /** The loop stops at the chunk at i. */
  lemma StopsAt(imported: set<string>, cs: seq<string>, eval: nat -> Eval, i: nat)
    requires i < |cs| && ExitAfter(SkipsOf(imported, cs), eval, i).Value?
    requires !SkippedAt(imported, cs, i) && !eval(Rank(SkipsOf(imported, cs), i)).Value?
    ensures Exit(imported, cs, eval) == eval(Rank(SkipsOf(imported, cs), i))
    ensures Reached(imported, cs, eval) == cs[..i + 1]
  {
    Stops(SkipsOf(imported, cs), eval, i);
  }

  /** The loop gets through. */
  lemma GetsThrough(imported: set<string>, cs: seq<string>, eval: nat -> Eval)
    requires Exit(imported, cs, eval).Value?
    ensures Reached(imported, cs, eval) == cs
  {
    ExitMeans(imported, cs, eval);
  }

  /** Run's verdict on it; `cancelled` is what the cell's context says after the loop. */
  function Verdict(e: Eval, cancelled: bool): Result {
    match e
    case Fails(c, msg) => if c then Interrupted else Failed(msg)
    case Panics(msg) => Failed("panic: " + msg)
    case Value(v) =>
      if cancelled then Interrupted
      else
        match v
        case Nil => Ok(None)
        case Text(s) => Ok(Some(s))
        case Unprintable(msg) => Failed("panic: " + msg)
  }

  /** Names are mirrored after the context was found alive and before the value is read. */
  predicate Mirrors(e: Eval, cancelled: bool) {
    e.Value? && !cancelled
  }

  /** A cell that fails has mirrored its names if and only if its context was alive and reading its value
      panicked. */
  lemma MirroredFailureIff(e: Eval, cancelled: bool)
    ensures Mirrors(e, cancelled) && !Verdict(e, cancelled).Ok? <==> e.Value? && e.v.Unprintable? && !cancelled
  {
  }

  /** Such a cell: one chunk, whose value cannot be read. */
  lemma UnprintableCellMirrors(eval: nat -> Eval)
    requires eval(0) == Value(Unprintable("no"))
    ensures Mirrors(Exit({}, ["x"], eval), false)
    ensures Verdict(Exit({}, ["x"], eval), false) == Failed("panic: no")
  {
    assert ImportPaths("x") == [];
    assert !SkippedAt({}, ["x"], 0) && Rank(SkipsOf({}, ["x"]), 0) == 0;
    assert ExitAfter(SkipsOf({}, ["x"]), eval, 0) == Value(Nil);
  }

  class GoEvaluator {
    var slots: Slots
    var imported: set<string>
    ghost var preloaded: set<string>
    ghost var evaluated: nat

    /** Over all cells so far, no more import chunks were evaluated than there are distinct paths seen. */
    ghost predicate Valid()
      reads this
    {
      preloaded <= imported && evaluated <= |imported - preloaded|
    }

    /** `preloaded` are the paths that were imported before any cell. */
    constructor (preloaded: set<string>)
      ensures Valid() && slots == Background && imported == preloaded && this.preloaded == preloaded && evaluated == 0
    {
      slots, imported := Background, preloaded;
      this.preloaded, evaluated := preloaded, 0;
    }

    /** Whether the chunk is an import of what is already bound; its paths are recorded before it is
        evaluated. */
    method MarkImported(chunk: string) returns (known: bool)
      modifies `imported
      ensures known == Skips(old(imported), chunk)
      ensures imported == old(imported) + PathSet(chunk)
    {
      var t := TrimSpace(chunk);
      if !HasPrefix(t, "import") {
        return false;
      }
      var paths := PathsFrom(t, 0);
      if |paths| == 0 {
        return false;
      }
      var all := true;
      for i := 0 to |paths|
        invariant all <==> forall k :: 0 <= k < i ==> paths[k] in imported
      {
        if paths[i] !in imported {
          all := false;
        }
      }
      if all {
        return true;
      }
      for i := 0 to |paths|
        invariant imported == old(imported) + set k | 0 <= k < i :: paths[k]
      {
        imported := imported + {paths[i]};
      }
      return false;
    }

    /** One cell. Whatever happens in it, a panic included, the slots end at the root context with
        this cell's output and host port. */
    method Run(cell: Id, code: string, eval: nat -> Eval, cancelled: bool, declared: seq<string>)
      returns (r: Result, mirrored: seq<string>)
      requires Valid()
      modifies this
      ensures Valid() && preloaded == old(preloaded) && slots == AtRoot(cell)
      ensures var cs := Chunker.ChunkOf(code);
        var e := Exit(old(imported), cs, eval);
        && r == Verdict(e, cancelled)
        && mirrored == (if Mirrors(e, cancelled) then declared else [])
        && imported == ImportedAfter(old(imported), Reached(old(imported), cs, eval))
        && evaluated == old(evaluated) + ImportsEvaluated(old(imported), Reached(old(imported), cs, eval))
    {
      slots := OfCell(cell);
      mirrored := [];
      BoundKept(preloaded, imported, Reached(imported, Chunker.ChunkOf(code), eval), evaluated);
      var e := EvalChunks(cell, code, eval);
      match e {
        case Panics(msg) =>
          r := Failed("panic: " + msg);
        case Fails(c, msg) =>
          r := if c then Interrupted else Failed(msg);
        case Value(v) =>
          if cancelled {
            r := Interrupted;
          } else {
            mirrored := declared;
            match v {
              case Nil =>
                r := Ok(None);
              case Text(s) =>
                r := Ok(Some(s));
              case Unprintable(msg) =>
                r := Failed("panic: " + msg);
            }
          }
      }
      slots := AtRoot(cell);
    }

    /** The loop over the cell's chunks, with the cell's context, output and host port in place. */
    method EvalChunks(ghost cell: Id, code: string, eval: nat -> Eval) returns (e: Eval)
      requires slots == OfCell(cell)
      modifies `imported, `evaluated
      ensures var cs := Chunker.ChunkOf(code);
        && e == Exit(old(imported), cs, eval)
        && imported == ImportedAfter(old(imported), Reached(old(imported), cs, eval))
        && evaluated == old(evaluated) + ImportsEvaluated(old(imported), Reached(old(imported), cs, eval))
    {
      var cs := Chunker.ChunkSource(code);
      var v := Nil;
      var i, n := 0, 0;
      ghost var count := 0;
      while i < |cs|
        invariant evaluated == old(evaluated) + count
        invariant Standing(old(imported), cs, eval, i, n, v, imported, count)
      {
        var stop;
        stop, e, n, count := EvalNext(old(imported), cs, eval, i, n, v, count);
        if stop {
          return;
        }
        v := e.v;
        i := i + 1;
      }
      assert cs[..|cs|] == cs;
      GetsThrough(old(imported), cs, eval);
      e := Value(v);
    }

    /** The body of the loop. */
    method EvalNext(ghost was: set<string>, cs: seq<string>, eval: nat -> Eval, i: nat, n: nat, v: Shown, ghost count: nat)
      returns (stop: bool, e: Eval, n': nat, ghost count': nat)
      requires i < |cs| && Standing(was, cs, eval, i, n, v, imported, count)
      modifies `imported, `evaluated
      ensures count <= count' && evaluated == old(evaluated) + (count' - count)
      ensures !stop ==> e.Value? && Standing(was, cs, eval, i + 1, n', e.v, imported, count')
      ensures stop ==>
        && e == Exit(was, cs, eval)
        && imported == ImportedAfter(was, Reached(was, cs, eval)) && count' == ImportsEvaluated(was, Reached(was, cs, eval))
    {
      OneMoreChunk(was, cs, eval, i, n, v, imported, count);
      stop, e, n', count' := false, Value(v), n, count;
      var known := MarkImported(cs[i]);
      if !known {
        if ImportPaths(cs[i]) != [] {
          count' := count + 1;
          evaluated := evaluated + 1;
        }
        e := eval(n);
        n' := n + 1;
        if !e.Value? {
          StopsAt(was, cs, eval, i);
          stop := true;
        }
      }
    }
  }

  /** Where the loop stands before the chunk at i: what was evaluated, the value so far, the memo, and
      how many import chunks were evaluated. */
  ghost predicate Standing(was: set<string>, cs: seq<string>, eval: nat -> Eval, i: nat, n: nat, v: Shown,
                           now: set<string>, count: nat) {
    && i <= |cs| && n == Rank(SkipsOf(was, cs), i) && ExitAfter(SkipsOf(was, cs), eval, i) == Value(v)
    && now == ImportedAfter(was, cs[..i]) && count == ImportsEvaluated(was, cs[..i])
  }

  lemma OneMoreChunk(was: set<string>, cs: seq<string>, eval: nat -> Eval, i: nat, n: nat, v: Shown,
                     now: set<string>, count: nat)
    requires i < |cs| && Standing(was, cs, eval, i, n, v, now, count)
    ensures SkippedAt(was, cs, i) <==> Skips(now, cs[i])
    ensures Skips(now, cs[i]) ==> Standing(was, cs, eval, i + 1, n, v, now + PathSet(cs[i]), count)
    ensures !Skips(now, cs[i]) ==>
      var more := count + if ImportPaths(cs[i]) != [] then 1 else 0;
      && now + PathSet(cs[i]) == ImportedAfter(was, cs[..i + 1]) && more == ImportsEvaluated(was, cs[..i + 1])
      && (eval(n).Value? ==> Standing(was, cs, eval, i + 1, n + 1, eval(n).v, now + PathSet(cs[i]), more))
  {
    assert Front(cs[..i + 1]) == cs[..i];
    OneMore(SkipsOf(was, cs), eval, i);
    assert SkipsOf(was, cs)[i] == SkippedAt(was, cs, i);
  }

  /** The evaluator's bound survives another run of chunks. */
  lemma BoundKept(preloaded: set<string>, imported: set<string>, cs: seq<string>, evaluated: nat)
    requires preloaded <= imported && evaluated <= |imported - preloaded|
    ensures preloaded <= ImportedAfter(imported, cs)
    ensures evaluated + ImportsEvaluated(imported, cs) <= |ImportedAfter(imported, cs) - preloaded|
  {
    ImportBound(imported, cs);
    var more := PathsSeen(cs) - imported;
    assert ImportedAfter(imported, cs) - preloaded == (imported - preloaded) + more;
  }

  // ----- runCell -----------------------------------------------------------------------------------------

  predicate Contains(s: string, p: string) {
    exists i :: 0 <= i <= |s| && p <= s[i..]
  }

  predicate LooksLikePythonBootstrap(code: string) {
    var t := TrimSpace(code);
    Contains(t, "import asyncio") && Contains(t, "_prime_agent_os.environ[") && HasPrefix(t, "import asyncio")
  }

  const ASYNCIO := "import asyncio"
  const ENVIRON := "_prime_agent_os.environ["

  /** After leading space the code begins with the first mark, and the second comes somewhere behind it. */
  ghost predicate BootstrapAs(code: string, pre: string, mid: string, rest: string) {
    code == pre + ASYNCIO + mid + ENVIRON + rest && Blank(pre)
  }

  lemma BootstrapIff(code: string)
    ensures LooksLikePythonBootstrap(code) <==> exists pre, mid, rest :: BootstrapAs(code, pre, mid, rest)
  {
    if LooksLikePythonBootstrap(code) {
      LooksLike(code);
    }
    forall pre, mid, rest | BootstrapAs(code, pre, mid, rest) ensures LooksLikePythonBootstrap(code) {
      IsBootstrap(code, pre, mid, rest);
    }
  }

  lemma LooksLike(code: string)
    requires LooksLikePythonBootstrap(code)
    ensures exists pre, mid, rest :: BootstrapAs(code, pre, mid, rest)
  {
    var pre, post := TrimSpaceMeans(code);
    var t := TrimSpace(code);
    var mid, tail := MarksApart(t);
    assert code == pre + ASYNCIO + mid + ENVIRON + (tail + post);
    assert BootstrapAs(code, pre, mid, tail + post);
  }

  /** The second mark cannot begin inside the first. */
  lemma MarksApart(t: string) returns (mid: string, tail: string)
    requires ASYNCIO <= t && Contains(t, ENVIRON)
    ensures t == ASYNCIO + mid + ENVIRON + tail
  {
    var i :| 0 <= i <= |t| && ENVIRON <= t[i..];
    var n := |ASYNCIO|;
    NoUnderscore();
    assert t[i] == t[i..][0] == ENVIRON[0];
    assert forall k :: 0 <= k < n ==> t[k] == ASYNCIO[k];
    assert n <= i;
    PartsAt(t, ASYNCIO, ENVIRON, i);
    mid, tail := t[n..i], t[i + |ENVIRON|..];
  }

  lemma NoUnderscore()
    ensures ENVIRON[0] == '_' && forall k :: 0 <= k < |ASYNCIO| ==> ASYNCIO[k] != '_'
  {
  }

  lemma PartsAt(t: string, p: string, q: string, i: nat)
    requires p <= t && |p| <= i <= |t| && q <= t[i..]
    ensures i + |q| <= |t| && t == p + t[|p|..i] + q + t[i + |q|..]
  {
    assert t[i..][..|q|] == t[i..i + |q|];
  }

  lemma IsBootstrap(code: string, pre: string, mid: string, rest: string)
    requires BootstrapAs(code, pre, mid, rest)
    ensures LooksLikePythonBootstrap(code)
  {
    var post := TrimRightMeans(rest);
    var tail := TrimRight(rest);
    var t := ASYNCIO + mid + ENVIRON + tail;
    assert code == pre + t + post;
    assert Last(t) == if tail == "" then '[' else Last(tail);
    assert t[0] == 'i';
    TrimSpaceUnique(code, pre, t, post);
    assert t[|ASYNCIO + mid|..] == ENVIRON + tail;
    assert Contains(t, ENVIRON);
    assert t[0..] == t && ASYNCIO <= t[0..];
    assert Contains(t, ASYNCIO);
  }

  /** A stdout event for the cell, ending in a newline. */
  function Printed(id: Id, text: string): Event {
    TextEvent(Stdout, id, if text != "" && Last(text) == '\n' then text else text + "\n")
  }

  function AllPrinted(id: Id, texts: seq<string>): seq<Event> {
    seq(|texts|, i requires 0 <= i < |texts| => Printed(id, texts[i]))
  }

  /** The events that report a result. */
  function Report(id: Id, r: Result): seq<Event> {
    match r
    case Ok(None) => [DoneEvent(id, STATUS_OK)]
    case Ok(Some(v)) => [TextEvent(EventKind.Result, id, v), DoneEvent(id, STATUS_OK)]
    case Interrupted => [ErrorEvent(Some(id), ENAME_KEYBOARD, "cell interrupted"), DoneEvent(id, STATUS_ERROR)]
    case Failed(msg) => [ErrorEvent(Some(id), ENAME_CELL_ERROR, msg), DoneEvent(id, STATUS_ERROR)]
  }

  /** The events of a cell that prints `texts`, whose loop ends in e. */
  function GoEvents(id: Id, texts: seq<string>, e: Eval, cancelled: bool): seq<Event> {
    AllPrinted(id, texts) + Report(id, Verdict(e, cancelled))
  }

  // ----- What a cell shows -----------------------------------------------------------------------------

  /** A print of the text: attributed stdout, the text itself, with a newline added if it has none. */
  predicate IsPrint(e: Event, id: Id, text: string) {
    && e.kind == Stdout && e.id == Some(id)
    && text <= e.text && |e.text| <= |text| + 1 && e.text != "" && e.text[|e.text| - 1] == '\n'
    && (text != "" && text[|text| - 1] == '\n' ==> e.text == text)
  }

  function ErrorEnd(id: Id, name: string, value: string): seq<Event> {
    [Event(Error, Some(id), "", name, value, ""), Event(Done, Some(id), "", "", "", "error")]
  }

  function OkEnd(id: Id, result: Option<string>): seq<Event> {
    (if result.Some? then [Event(EventKind.Result, Some(id), result.value, "", "", "")] else [])
    + [Event(Done, Some(id), "", "", "", "ok")]
  }

  /** The chunk at i is the first evaluated one that fails, and this is how. */
  ghost predicate FirstFails(skips: seq<bool>, eval: nat -> Eval, i: nat, e: Eval) {
    Gives(skips, eval, i, e) && !e.Value? && NoneFails(skips, eval, i)
  }

  /** How the events of a cell end and which names it mirrors, by its evaluations and its context. */
  ghost predicate Ends(id: Id, skips: seq<bool>, eval: nat -> Eval, cancelled: bool, declared: seq<string>,
                       end: seq<Event>, mirrored: seq<string>) {
    && (forall i: nat, msg :: FirstFails(skips, eval, i, Fails(false, msg)) ==>
          end == ErrorEnd(id, "Error", msg) && mirrored == [])
    && (forall i: nat, msg :: FirstFails(skips, eval, i, Fails(true, msg)) ==>
          end == ErrorEnd(id, "KeyboardInterrupt", "cell interrupted") && mirrored == [])
    && (forall i: nat, msg :: FirstFails(skips, eval, i, Panics(msg)) ==>
          end == ErrorEnd(id, "Error", "panic: " + msg) && mirrored == [])
    && (NoneFails(skips, eval, |skips|) && cancelled ==>
          end == ErrorEnd(id, "KeyboardInterrupt", "cell interrupted") && mirrored == [])
    && (NoneFails(skips, eval, |skips|) && !cancelled ==> mirrored == declared)
    && (forall s :: NoneFails(skips, eval, |skips|) && !cancelled && IsLastValue(skips, eval, |skips|, Value(Text(s))) ==>
          end == OkEnd(id, Some(s)))
    && (forall msg :: NoneFails(skips, eval, |skips|) && !cancelled && IsLastValue(skips, eval, |skips|, Value(Unprintable(msg))) ==>
          end == ErrorEnd(id, "Error", "panic: " + msg))
    && (NoneFails(skips, eval, |skips|) && !cancelled && IsLastValue(skips, eval, |skips|, Value(Nil)) ==>
          end == OkEnd(id, None))
  }

  /** The prints, then the end. */
  ghost predicate CellShows(id: Id, texts: seq<string>, skips: seq<bool>, eval: nat -> Eval, cancelled: bool,
                            declared: seq<string>, events: seq<Event>, mirrored: seq<string>) {
    && |events| >= |texts| && (forall i :: 0 <= i < |texts| ==> IsPrint(events[i], id, texts[i]))
    && Ends(id, skips, eval, cancelled, declared, events[|texts|..], mirrored)
  }

  lemma FirstIsOne(skips: seq<bool>, eval: nat -> Eval, i: nat, e: Eval, j: nat, d: Eval)
    requires FirstFails(skips, eval, i, e) && FirstFails(skips, eval, j, d)
    ensures e == d
  {
    assert i < j ==> Succeeds(skips, eval, i);
    assert j < i ==> Succeeds(skips, eval, j);
  }

  lemma LastIsOne(skips: seq<bool>, eval: nat -> Eval, e: Eval, d: Eval)
    requires IsLastValue(skips, eval, |skips|, e) && IsLastValue(skips, eval, |skips|, d)
    ensures e == d
  {
  }

  /** A loop that fails ends as its first failure says. */
  lemma FailureEnds(id: Id, skips: seq<bool>, eval: nat -> Eval, cancelled: bool, declared: seq<string>, r: nat, e: Eval)
    requires FirstFails(skips, eval, r, e)
    ensures Ends(id, skips, eval, cancelled, declared, Report(id, Verdict(e, cancelled)), [])
  {
    assert !NoneFails(skips, eval, |skips|) by {
      assert !Succeeds(skips, eval, r);
    }
    forall i: nat, d | FirstFails(skips, eval, i, d) ensures d == e {
      FirstIsOne(skips, eval, i, d, r, e);
    }
  }

  /** One that does not ends as its last value and the context say. */
  lemma ValueEnds(id: Id, skips: seq<bool>, eval: nat -> Eval, cancelled: bool, declared: seq<string>, e: Eval)
    requires NoneFails(skips, eval, |skips|) && e.Value? && IsLastValue(skips, eval, |skips|, e)
    ensures Ends(id, skips, eval, cancelled, declared, Report(id, Verdict(e, cancelled)), if cancelled then [] else declared)
  {
    forall d | IsLastValue(skips, eval, |skips|, d) ensures d == e {
      LastIsOne(skips, eval, d, e);
    }
    forall i: nat, d | Gives(skips, eval, i, d) ensures d.Value? {
      assert Succeeds(skips, eval, i);
    }
  }

  lemma CellEnds(id: Id, imported: set<string>, cs: seq<string>, eval: nat -> Eval, cancelled: bool, declared: seq<string>)
    ensures var e := Exit(imported, cs, eval);
      Ends(id, SkipsOf(imported, cs), eval, cancelled, declared, Report(id, Verdict(e, cancelled)),
           if Mirrors(e, cancelled) then declared else [])
  {
    ExitMeans(imported, cs, eval);
    var e, skips := Exit(imported, cs, eval), SkipsOf(imported, cs);
    if e.Value? {
      ValueEnds(id, skips, eval, cancelled, declared, e);
    } else {
      FailureEnds(id, skips, eval, cancelled, declared, |Reached(imported, cs, eval)| - 1, e);
    }
  }

  lemma PrintedIsPrint(id: Id, text: string)
    ensures IsPrint(Printed(id, text), id, text)
  {
  }

  lemma CellShown(id: Id, texts: seq<string>, imported: set<string>, cs: seq<string>, eval: nat -> Eval, cancelled: bool,
                  declared: seq<string>)
    ensures var e := Exit(imported, cs, eval);
      CellShows(id, texts, SkipsOf(imported, cs), eval, cancelled, declared, GoEvents(id, texts, e, cancelled),
                if Mirrors(e, cancelled) then declared else [])
  {
    var e := Exit(imported, cs, eval);
    var events := GoEvents(id, texts, e, cancelled);
    CellEnds(id, imported, cs, eval, cancelled, declared);
    assert events[|texts|..] == Report(id, Verdict(e, cancelled));
    forall i | 0 <= i < |texts| ensures IsPrint(events[i], id, texts[i]) {
      PrintedIsPrint(id, texts[i]);
      assert events[i] == Printed(id, texts[i]);
    }
  }

  /** runCell for a Go evaluator: `texts` is what the cell prints before it ends. */
  method RunCell(g: GoEvaluator, ack: bool, id: Id, code: string, texts: seq<string>,
                 eval: nat -> Eval, cancelled: bool, declared: seq<string>)
    returns (events: seq<Event>, mirrored: seq<string>)
    requires g.Valid()
    modifies g
    ensures g.Valid()
    ensures !(ack && LooksLikePythonBootstrap(code)) ==>
      var cs := Chunker.ChunkOf(code);
      var e := Exit(old(g.imported), cs, eval);
      && events == GoEvents(id, texts, e, cancelled)
      && mirrored == (if Mirrors(e, cancelled) then declared else [])
      && CellShows(id, texts, SkipsOf(old(g.imported), cs), eval, cancelled, declared, events, mirrored)
      && g.imported == ImportedAfter(old(g.imported), Reached(old(g.imported), cs, eval))
      && g.slots == AtRoot(id)
    ensures ack && LooksLikePythonBootstrap(code) ==>
      && events == [Printed(id, "go kernel: python bootstrap acked (not evaluated)"), DoneEvent(id, STATUS_OK)]
      && mirrored == [] && g.slots == old(g.slots) && g.imported == old(g.imported)
    ensures forall w: K.Work :: w.ask == Execute && w.id == id ==> K.Script(w, events)
  {
    mirrored := [];
    if ack && LooksLikePythonBootstrap(code) {
      events := [Printed(id, "go kernel: python bootstrap acked (not evaluated)"), DoneEvent(id, STATUS_OK)];
      assert events[1..] == [DoneEvent(id, STATUS_OK)];
      assert K.FromCell(events[0], id);
    } else {
      var r;
      CellShown(id, texts, g.imported, Chunker.ChunkOf(code), eval, cancelled, declared);
      r, mirrored := g.Run(id, code, eval, cancelled, declared);
      events := Print(id, texts);
      events := Conclude(id, r, events);
      ReportIsScript(id, texts, r);
    }
  }

  method Print(id: Id, texts: seq<string>) returns (events: seq<Event>)
    ensures events == AllPrinted(id, texts)
  {
    events := [];
    for i := 0 to |texts|
      invariant |events| == i && forall k :: 0 <= k < i ==> events[k] == Printed(id, texts[k])
    {
      events := events + [Printed(id, texts[i])];
    }
  }

  /** The outcome of the evaluation, as protocol events. */
  method Conclude(id: Id, r: Result, before: seq<Event>) returns (events: seq<Event>)
    ensures events == before + Report(id, r)
  {
    events := before;
    match r {
      case Ok(v) =>
        if v.Some? {
          events := events + [TextEvent(EventKind.Result, id, v.value)];
        }
        events := events + [DoneEvent(id, STATUS_OK)];
      case Interrupted =>
        events := events + [ErrorEvent(Some(id), ENAME_KEYBOARD, "cell interrupted")] + [DoneEvent(id, STATUS_ERROR)];
      case Failed(msg) =>
        events := events + [ErrorEvent(Some(id), ENAME_CELL_ERROR, msg)] + [DoneEvent(id, STATUS_ERROR)];
    }
  }

  /** What runCell emits is what the kernel's transition system lets a cell emit. */
  lemma ReportIsScript(id: Id, texts: seq<string>, r: Result)
    ensures forall w: K.Work :: w.ask == Execute && w.id == id ==> K.Script(w, AllPrinted(id, texts) + Report(id, r))
  {
    var evs := AllPrinted(id, texts) + Report(id, r);
    assert evs[|texts|..] == Report(id, r) && K.Outcome(Report(id, r), id);
    assert forall i :: 0 <= i < |texts| ==> K.FromCell(evs[i], id);
  }

  /** With a cancelled context a cell ends with an error event and done:error and emits no result, however
      its evaluation went, and no name is mirrored. */
  lemma CancelledEventsFail(e: Eval, id: Id, texts: seq<string>)
    ensures var evs := GoEvents(id, texts, e, true);
      && !Mirrors(e, true)
      && |evs| == |texts| + 2 && evs[|texts|].kind == Error && evs[|texts|].id == Some(id)
      && evs[|texts| + 1] == DoneEvent(id, STATUS_ERROR)
      && forall i :: 0 <= i < |evs| ==> evs[i].kind != EventKind.Result
  {
    var evs := GoEvents(id, texts, e, true);
    assert forall i :: 0 <= i < |texts| ==> evs[i] == Printed(id, texts[i]);
  }

  /** So does one whose context is cancelled before it starts, and so after its loop too, whatever its
      code does. */
  lemma CancelledCellFails(imported: set<string>, cs: seq<string>, eval: nat -> Eval, id: Id, texts: seq<string>)
    ensures var e := Exit(imported, cs, eval);
      var evs := GoEvents(id, texts, e, true);
      && !Mirrors(e, true)
      && |evs| == |texts| + 2 && evs[|texts|].kind == Error && evs[|texts| + 1] == DoneEvent(id, STATUS_ERROR)
      && forall i :: 0 <= i < |evs| ==> evs[i].kind != EventKind.Result
  {
    CancelledEventsFail(Exit(imported, cs, eval), id, texts);
  }
}
