/**
 Snapshot and restore of the scope (rlm/snapshot.go).  JSON is a pair of functions: `enc` fails on
 values that cannot be marshalled, `dec` on bytes that cannot be read back.  A file is a cell of a
 map, and a write happens as a whole or not at all.
 */
module Snapshot {
  import opened Prelude
  import opened Sorting

  type Bytes = string

  datatype Limits = Limits(maxVar: int, maxTotal: int, prune: bool)

  datatype Plan = Plan(
    saved: map<string, Bytes>, savedNames: seq<string>, skipped: seq<string>, pruned: seq<string>, bytes: int)

  const DEFAULT_MAX_VARIABLE_BYTES := 262144
  const DEFAULT_MAX_TOTAL_BYTES := 8388608

  /** What a snapshot request says about limits; all of it is optional. */
  datatype Asked = Asked(maxBytes: Option<int>, maxVariableBytes: Option<int>, pruneOversized: Option<bool>)

  /** The limits of a request, with what it leaves out filled in. */
  function LimitsOf(a: Asked): Limits {
    Limits(
      if a.maxVariableBytes.Some? then a.maxVariableBytes.value else DEFAULT_MAX_VARIABLE_BYTES,
      if a.maxBytes.Some? then a.maxBytes.value else DEFAULT_MAX_TOTAL_BYTES,
      a.pruneOversized == Some(true))
  }

  // ----- The planner -----------------------------------------------------------------------------------

  /** One more name, with its encoding. */
  function Consider(p: Plan, n: string, e: Option<Bytes>, lim: Limits): Plan {
    match e
    case None => p.(skipped := p.skipped + [n])
    case Some(b) =>
      if |b| > lim.maxVar then
        if lim.prune then p.(pruned := p.pruned + [n]) else p.(skipped := p.skipped + [n])
      else if p.bytes + |b| > lim.maxTotal then p.(skipped := p.skipped + [n])
      else p.(saved := p.saved[n := b], savedNames := p.savedNames + [n], bytes := p.bytes + |b|)
  }

  /** The plan for the names in the given order. */
  function PlanOver<V>(names: seq<string>, entries: map<string, V>, enc: V -> Option<Bytes>, lim: Limits): Plan {
    if names == [] then Plan(map[], [], [], [], 0)
    else
      Consider(PlanOver(Front(names), entries, enc, lim), Last(names),
               if Last(names) in entries then enc(entries[Last(names)]) else None, lim)
  }

  ghost function PlanOf<V>(entries: map<string, V>, enc: V -> Option<Bytes>, lim: Limits): Plan {
    PlanOver(Listing(entries.Keys), entries, enc, lim)
  }

  /** planSnapshot.  The names come out of the map in any order; the plan does not depend on it. */
  method PlanSnapshot<V>(entries: map<string, V>, enc: V -> Option<Bytes>, lim: Limits) returns (p: Plan)
    ensures p == PlanOf(entries, enc, lim)
  {
    var names := SortedNames(entries.Keys);
    ListingUnique(names, Listing(entries.Keys), entries.Keys);
    p := Plan(map[], [], [], [], 0);
    for i := 0 to |names|
      invariant p == PlanOver(names[..i], entries, enc, lim)
    {
      var n := names[i];
      assert Front(names[..i + 1]) == names[..i] && n in names;
      match enc(entries[n]) {
        case None =>
          p := p.(skipped := p.skipped + [n]);
        case Some(b) =>
          if |b| > lim.maxVar {
            if lim.prune {
              p := p.(pruned := p.pruned + [n]);
            } else {
              p := p.(skipped := p.skipped + [n]);
            }
          } else if p.bytes + |b| > lim.maxTotal {
            p := p.(skipped := p.skipped + [n]);
          } else {
            p := p.(saved := p.saved[n := b], savedNames := p.savedNames + [n], bytes := p.bytes + |b|);
          }
      }
    }
    assert names[..|names|] == names;
  }

  /** Bytes of the saved entries, added up. */
  function Total(names: seq<string>, saved: map<string, Bytes>): int {
    if names == [] then 0
    else Total(Front(names), saved) + if Last(names) in saved then |saved[Last(names)]| else 0
  }

  function Max(a: int, b: int): int { if a < b then b else a }

  /** What the plan owes for one name. */
  ghost predicate Fits(n: string, e: Option<Bytes>, p: Plan, lim: Limits) {
    && (n in p.savedNames ==> n in p.saved && e == Some(p.saved[n]) && |p.saved[n]| <= lim.maxVar)
    && (n in p.pruned <==> e.Some? && |e.value| > lim.maxVar && lim.prune)
    && (n in p.skipped && e.Some? && |e.value| <= lim.maxVar ==> p.bytes + |e.value| > lim.maxTotal)
    && (e.None? ==> n in p.skipped)
  }

  /** The three lists part the names and are in order. */
  ghost predicate Parts(names: seq<string>, p: Plan) {
    && Sorted(p.savedNames) && Sorted(p.skipped) && Sorted(p.pruned)
    && (forall n :: n in names <==> n in p.savedNames || n in p.skipped || n in p.pruned)
    && (forall n :: n in p.savedNames ==> n !in p.skipped && n !in p.pruned)
    && (forall n :: n in p.skipped ==> n !in p.pruned)
  }

  /** The size is that of what is saved, and within the limit. */
  ghost predicate Sized(p: Plan, lim: Limits) {
    && (forall n :: n in p.saved <==> n in p.savedNames)
    && p.bytes == Total(p.savedNames, p.saved)
    && 0 <= p.bytes <= Max(0, lim.maxTotal)
  }

  ghost predicate Exact<V>(names: seq<string>, entries: map<string, V>, enc: V -> Option<Bytes>, lim: Limits, p: Plan) {
    && Parts(names, p) && Sized(p, lim)
    && (forall n :: n in names && n in entries ==> Fits(n, enc(entries[n]), p, lim))
  }

  lemma {:induction false} TotalFrame(names: seq<string>, saved: map<string, Bytes>, n: string, b: Bytes)
    requires n !in names
    ensures Total(names, saved[n := b]) == Total(names, saved)
  {
    if names == [] {
    } else {
      assert names[|names| - 1] == Last(names) != n;
      TotalFrame(Front(names), saved, n, b);
    }
  }

  lemma SortedSnoc(s: seq<string>, names: seq<string>, n: string)
    requires Sorted(s) && Sorted(names + [n]) && forall x :: x in s ==> x in names
    ensures Sorted(s + [n]) && n !in names
  {
    forall x | x in names ensures Less(x, n) {
      var i :| 0 <= i < |names| && names[i] == x;
      assert (names + [n])[i] == x && (names + [n])[|names|] == n;
    }
    LessIrreflexive(n);
  }

  lemma ConsiderParts(names: seq<string>, n: string, e: Option<Bytes>, lim: Limits, p: Plan)
    requires Parts(names, p) && Sorted(names + [n])
    ensures Parts(names + [n], Consider(p, n, e, lim))
  {
    SortedSnoc(p.savedNames, names, n);
    SortedSnoc(p.skipped, names, n);
    SortedSnoc(p.pruned, names, n);
  }

  lemma ConsiderSized(n: string, e: Option<Bytes>, lim: Limits, p: Plan)
    requires Sized(p, lim) && n !in p.savedNames
    ensures Sized(Consider(p, n, e, lim), lim)
  {
    if e.Some? {
      TotalSnoc(p.savedNames, p.saved, n, e.value);
    }
  }

  lemma TotalSnoc(names: seq<string>, saved: map<string, Bytes>, n: string, b: Bytes)
    requires n !in names
    ensures Total(names + [n], saved[n := b]) == Total(names, saved) + |b|
  {
    TotalFrame(names, saved, n, b);
    assert Front(names + [n]) == names;
  }

  lemma ConsiderFits(m: string, d: Option<Bytes>, n: string, e: Option<Bytes>, lim: Limits, p: Plan)
    requires m != n ==> Fits(m, d, p, lim)
    requires m == n ==> d == e && m !in p.savedNames && m !in p.skipped && m !in p.pruned
    ensures Fits(m, d, Consider(p, n, e, lim), lim)
  {
  }

  lemma ConsiderExact<V>(names: seq<string>, n: string, entries: map<string, V>, enc: V -> Option<Bytes>, lim: Limits, p: Plan)
    requires Exact(names, entries, enc, lim, p) && Sorted(names + [n]) && n in entries
    ensures Exact(names + [n], entries, enc, lim, Consider(p, n, enc(entries[n]), lim))
  {
    var e := enc(entries[n]);
    SortedSnoc(p.savedNames, names, n);
    ConsiderParts(names, n, e, lim, p);
    ConsiderSized(n, e, lim, p);
    forall m | m in names + [n] && m in entries ensures Fits(m, enc(entries[m]), Consider(p, n, e, lim), lim) {
      ConsiderFits(m, enc(entries[m]), n, e, lim, p);
    }
  }

  lemma {:induction false} PlanOverExact<V>(names: seq<string>, entries: map<string, V>, enc: V -> Option<Bytes>, lim: Limits)
    requires Sorted(names) && forall n :: n in names ==> n in entries
    ensures Exact(names, entries, enc, lim, PlanOver(names, entries, enc, lim))
  {
    if names == [] {
    } else {
      var p, n := Front(names), Last(names);
      assert names == p + [n] && names[|names| - 1] == n;
      PlanOverExact(p, entries, enc, lim);
      ConsiderExact(p, n, entries, enc, lim, PlanOver(p, entries, enc, lim));
    }
  }

  /** The plan is exact and maximal: saved, skipped and pruned are sorted, disjoint and cover all
      names; bytes is the sum of the saved sizes and within the total limit; what is saved is within
      the per-variable limit; exactly the oversized are pruned, when pruning is on; and nothing
      skipped for lack of room could still be added. */
  lemma PlanExact<V>(entries: map<string, V>, enc: V -> Option<Bytes>, lim: Limits)
    ensures Exact(Listing(entries.Keys), entries, enc, lim, PlanOf(entries, enc, lim))
    ensures var p := PlanOf(entries, enc, lim);
      forall n :: n in entries <==> n in p.savedNames || n in p.skipped || n in p.pruned
  {
    PlanOverExact(Listing(entries.Keys), entries, enc, lim);
  }

  /** The names before n that are saved take up this much. */
  function SavedBefore(names: seq<string>, p: Plan, k: nat): int
    requires k <= |names|
  {
    if k == 0 then 0
    else SavedBefore(names, p, k - 1) + if names[k - 1] in p.saved then |p.saved[names[k - 1]]| else 0
  }

  /** The entry at k is saved exactly when it can be marshalled, is within the limit for one variable, and
      there is room behind what was saved before it. */
  ghost predicate GreedyAt(names: seq<string>, p: Plan, e: Option<Bytes>, lim: Limits, k: nat)
    requires k < |names|
  {
    names[k] in p.saved <==>
      e.Some? && |e.value| <= lim.maxVar && SavedBefore(names, p, k) + |e.value| <= lim.maxTotal
  }

  ghost predicate Greedy<V>(names: seq<string>, entries: map<string, V>, enc: V -> Option<Bytes>, lim: Limits, p: Plan) {
    forall k: nat :: k < |names| && names[k] in entries ==> GreedyAt(names, p, enc(entries[names[k]]), lim, k)
  }

  lemma {:induction false} SavedBeforeSame(names: seq<string>, more: seq<string>, p: Plan, q: Plan, k: nat)
    requires k <= |names| && forall n :: n in names ==> (n in p.saved <==> n in q.saved) && (n in p.saved ==> p.saved[n] == q.saved[n])
    ensures SavedBefore(names + more, q, k) == SavedBefore(names, p, k)
  {
    if k == 0 {
    } else {
      SavedBeforeSame(names, more, p, q, k - 1);
      assert names[k - 1] in names && (names + more)[k - 1] == names[k - 1];
    }
  }

  lemma NewName(names: seq<string>, n: string)
    requires Sorted(names + [n])
    ensures n !in names
  {
    forall i | 0 <= i < |names| ensures names[i] != n {
      assert Less((names + [n])[i], (names + [n])[|names|]);
      LessIrreflexive(n);
    }
  }

  /** One more name changes nothing of what was decided before. */
  lemma ConsiderKeeps(names: seq<string>, n: string, e: Option<Bytes>, lim: Limits, p: Plan)
    requires n !in names
    ensures var q := Consider(p, n, e, lim);
      && (forall m :: m in names ==> (m in p.saved <==> m in q.saved) && (m in p.saved ==> p.saved[m] == q.saved[m]))
      && forall k: nat :: k <= |names| ==> SavedBefore(names + [n], q, k) == SavedBefore(names, p, k)
  {
    var q := Consider(p, n, e, lim);
    forall k: nat | k <= |names| ensures SavedBefore(names + [n], q, k) == SavedBefore(names, p, k) {
      SavedBeforeSame(names, [n], p, q, k);
    }
  }

  lemma ConsiderNew(names: seq<string>, n: string, e: Option<Bytes>, lim: Limits, p: Plan)
    requires n !in names && SavedBefore(names, p, |names|) == p.bytes && n !in p.saved
    ensures var q := Consider(p, n, e, lim);
      SavedBefore(names + [n], q, |names| + 1) == q.bytes && GreedyAt(names + [n], q, e, lim, |names|)
  {
    ConsiderKeeps(names, n, e, lim, p);
    assert (names + [n])[|names|] == n;
  }

  lemma ConsiderOld(names: seq<string>, n: string, e: Option<Bytes>, lim: Limits, p: Plan, d: Option<Bytes>, k: nat)
    requires n !in names && k < |names| && GreedyAt(names, p, d, lim, k)
    ensures GreedyAt(names + [n], Consider(p, n, e, lim), d, lim, k)
  {
    ConsiderKeeps(names, n, e, lim, p);
    assert (names + [n])[k] == names[k] && names[k] in names;
  }

  lemma {:induction false} PlanOverGreedy<V>(names: seq<string>, entries: map<string, V>, enc: V -> Option<Bytes>, lim: Limits)
    requires Sorted(names) && forall n :: n in names ==> n in entries
    ensures var p := PlanOver(names, entries, enc, lim);
      SavedBefore(names, p, |names|) == p.bytes && (forall n :: n in p.saved ==> n in names) && Greedy(names, entries, enc, lim, p)
  {
    if names == [] {
    } else {
      var before, n := Front(names), Last(names);
      assert names == before + [n];
      PlanOverGreedy(before, entries, enc, lim);
      GreedyStep(before, n, entries, enc, lim, PlanOver(before, entries, enc, lim));
    }
  }

  lemma GreedyStep<V>(names: seq<string>, n: string, entries: map<string, V>, enc: V -> Option<Bytes>, lim: Limits, p: Plan)
    requires Sorted(names + [n]) && n in entries && SavedBefore(names, p, |names|) == p.bytes
    requires (forall m :: m in p.saved ==> m in names) && Greedy(names, entries, enc, lim, p)
    ensures var q := Consider(p, n, enc(entries[n]), lim);
      && SavedBefore(names + [n], q, |names + [n]|) == q.bytes && (forall m :: m in q.saved ==> m in names + [n])
      && Greedy(names + [n], entries, enc, lim, q)
  {
    NewName(names, n);
    var all, e := names + [n], enc(entries[n]);
    ConsiderNew(names, n, e, lim, p);
    forall k: nat | k < |all| && all[k] in entries ensures GreedyAt(all, Consider(p, n, e, lim), enc(entries[all[k]]), lim, k) {
      if k < |names| {
        ConsiderOld(names, n, e, lim, p, enc(entries[names[k]]), k);
      }
    }
  }

  /** Names are considered in sorted order: an entry is saved exactly when it can be marshalled, is within
      the limit for one variable, and there is room behind what was saved before it. */
  lemma PlanIsGreedy<V>(entries: map<string, V>, enc: V -> Option<Bytes>, lim: Limits)
    ensures Greedy(Listing(entries.Keys), entries, enc, lim, PlanOf(entries, enc, lim))
  {
    PlanOverGreedy(Listing(entries.Keys), entries, enc, lim);
  }

  /** What a snapshot does with limits, in the terms of the request: nothing is pruned unless it says so,
      what is saved is within 256 KiB a variable and 8 MiB in all unless it says otherwise, and nothing
      that would still fit is left out. */
  ghost predicate KeepsTo<V>(entries: map<string, V>, enc: V -> Option<Bytes>, asked: Asked, p: Plan) {
    var perVariable := match asked.maxVariableBytes case Some(n) => n case None => 262144;
    var total := match asked.maxBytes case Some(n) => n case None => 8388608;
    && (asked.pruneOversized != Some(true) ==> p.pruned == [])
    && (asked.pruneOversized == Some(true) ==>
          forall n :: n in p.pruned <==> n in entries && enc(entries[n]).Some? && |enc(entries[n]).value| > perVariable)
    && (forall n :: n in p.saved ==> n in entries && enc(entries[n]) == Some(p.saved[n]) && |p.saved[n]| <= perVariable)
    && 0 <= p.bytes && (p.bytes <= total || p.bytes == 0)
    && (forall n :: n in entries && enc(entries[n]).Some? && |enc(entries[n]).value| <= perVariable ==>
          n in p.saved || p.bytes + |enc(entries[n]).value| > total)
  }

  lemma PlanKeepsTo<V>(entries: map<string, V>, enc: V -> Option<Bytes>, asked: Asked)
    ensures KeepsTo(entries, enc, asked, PlanOf(entries, enc, LimitsOf(asked)))
    ensures asked.pruneOversized != Some(true) ==>
      entries - ToSet(PlanOf(entries, enc, LimitsOf(asked)).pruned) == entries
  {
    var lim, p := LimitsOf(asked), PlanOf(entries, enc, LimitsOf(asked));
    PlanExact(entries, enc, lim);
    forall n | n in entries ensures n in Listing(entries.Keys) && Fits(n, enc(entries[n]), p, lim) {
    }
    if asked.pruneOversized != Some(true) {
      NothingPruned(entries, enc, lim);
    }
  }

  // ----- Files ------------------------------------------------------------------------------------------

  /** What a file holds: a snapshot's payload, its manifest, or something that is not JSON. */
  datatype File =
    | Payload(names: map<string, Bytes>)
    | Manifest(savedNames: seq<string>, skipped: seq<string>, pruned: seq<string>, bytes: int)
    | Junk

  datatype Outcome =
    | SnapshotFailed
    | SnapshotDone(plan: Plan)
    | RestoreFailed
    | NotFound
    | RestoreDone(restored: seq<string>, failed: seq<string>)

  /** The entries of a payload that can be read back. */
  function Decoded<V>(names: map<string, Bytes>, dec: Bytes -> Option<V>): map<string, V> {
    map n | n in names && dec(names[n]).Some? :: dec(names[n]).value
  }

  /** The `names` object of a file's JSON; a manifest has none. */
  function NamesIn(f: File): map<string, Bytes> {
    match f
    case Payload(names) => names
    case _ => map[]
  }

  class Store<V> {
    const enc: V -> Option<Bytes>
    const dec: Bytes -> Option<V>
    var scope: map<string, V>
    var files: map<string, File>

    constructor (enc: V -> Option<Bytes>, dec: Bytes -> Option<V>, files: map<string, File>)
      ensures this.enc == enc && this.dec == dec && scope == map[] && this.files == files
    {
      this.enc, this.dec := enc, dec;
      this.scope, this.files := map[], files;
    }

    /** atomicWrite; `disk` is what the file system says. */
    method AtomicWrite(path: string, f: File, disk: bool) returns (ok: bool)
      modifies `files
      ensures ok == (path != "" && disk)
      ensures files == if ok then old(files)[path := f] else old(files)
    {
      ok := path != "" && disk;
      if ok {
        files := files[path := f];
      }
    }

    /** Prunes exactly the pruned names when both writes succeed, and nothing when either fails; the
        manifest is written only after the payload. */
    method Snapshot(path: string, manifestPath: string, asked: Asked, disk1: bool, disk2: bool) returns (o: Outcome)
      modifies this
      ensures var plan := PlanOf(old(scope), enc, LimitsOf(asked));
        var wrote := path != "" && disk1;
        var ok := wrote && (manifestPath == "" || disk2);
        && o == (if ok then SnapshotDone(plan) else SnapshotFailed)
        && scope == (if ok then old(scope) - ToSet(plan.pruned) else old(scope))
        && files == (
             if !wrote then old(files)
             else if ok && manifestPath != "" then
               old(files)[path := Payload(plan.saved)][manifestPath := Manifest(plan.savedNames, plan.skipped, plan.pruned, plan.bytes)]
             else old(files)[path := Payload(plan.saved)])
      ensures asked.pruneOversized != Some(true) ==> scope == old(scope)
      ensures o.SnapshotDone? ==> KeepsTo(old(scope), enc, asked, o.plan)
    {
      var lim := LimitsOf(asked);
      PlanKeepsTo(scope, enc, asked);
      var plan := PlanSnapshot(scope, enc, lim);
      var ok := AtomicWrite(path, Payload(plan.saved), disk1);
      if ok && manifestPath != "" {
        ok := AtomicWrite(manifestPath, Manifest(plan.savedNames, plan.skipped, plan.pruned, plan.bytes), disk2);
      }
      if !ok {
        return SnapshotFailed;
      }
      if lim.prune {
        Prune(plan.pruned);
      } else {
        NothingPruned(scope, enc, lim);
      }
      o := SnapshotDone(plan);
    }

    method Prune(names: seq<string>)
      modifies `scope
      ensures scope == old(scope) - ToSet(names)
    {
      var i := 0;
      while i < |names|
        invariant i <= |names| && scope == old(scope) - ToSet(names[..i])
      {
        scope := scope - {names[i]};
        assert ToSet(names[..i + 1]) == ToSet(names[..i]) + {names[i]};
        i := i + 1;
      }
      assert names[..|names|] == names;
    }

    /** Reads a file back into the scope, in whatever order its names come out of the map. */
    method Restore(path: string, readable: bool) returns (o: Outcome)
      modifies `scope
      ensures path !in files ==> o == NotFound && scope == old(scope)
      ensures path in files && (!readable || files[path].Junk?) ==> o == RestoreFailed && scope == old(scope)
      ensures path in files && readable && !files[path].Junk? ==>
        var names := NamesIn(files[path]);
        && scope == old(scope) + Decoded(names, dec)
        && o.RestoreDone?
        && Lists(o.restored, Decoded(names, dec).Keys)
        && Lists(o.failed, names.Keys - Decoded(names, dec).Keys)
    {
      if path !in files {
        return NotFound;
      }
      if !readable || files[path].Junk? {
        return RestoreFailed;
      }
      var restored, failed := ReadBack(NamesIn(files[path]));
      var r := SortedNames(restored);
      var f := SortedNames(failed);
      o := RestoreDone(r, f);
    }

    method ReadOne(n: string, raw: Bytes) returns (ok: bool)
      modifies `scope
      ensures ok == dec(raw).Some?
      ensures scope == if ok then old(scope)[n := dec(raw).value] else old(scope)
    {
      match dec(raw) {
        case Some(v) =>
          scope := scope[n := v];
          ok := true;
        case None =>
          ok := false;
      }
    }

    method ReadBack(names: map<string, Bytes>) returns (restored: set<string>, failed: set<string>)
      modifies `scope
      ensures scope == old(scope) + Decoded(names, dec)
      ensures restored == Decoded(names, dec).Keys && failed == names.Keys - Decoded(names, dec).Keys
    {
      var left := names.Keys;
      restored, failed := {}, {};
      ghost var all := Decoded(names, dec);
      assert scope + (all - left) == scope;
      while left != {}
        invariant left <= names.Keys
        invariant ReadSoFar(names.Keys, all.Keys, left, restored, failed)
        invariant scope == old(scope) + (all - left)
        decreases |left|
      {
        var n :| n in left;
        TakeOne(old(scope), all, left, n);
        ReadMore(names.Keys, all.Keys, left, restored, failed, n);
        var ok := ReadOne(n, names[n]);
        if ok {
          restored := restored + {n};
        } else {
          failed := failed + {n};
        }
        left := left - {n};
      }
      ReadAll(names.Keys, all.Keys, restored, failed);
      assert all - left == all;
    }
  }

  /** Of the names not left, those that decode are restored and the others failed. */
  ghost predicate ReadSoFar(names: set<string>, good: set<string>, left: set<string>, restored: set<string>, failed: set<string>) {
    && (forall n :: n in restored <==> n in good && n !in left)
    && (forall n :: n in failed <==> n in names && n !in good && n !in left)
  }

  lemma ReadMore(names: set<string>, good: set<string>, left: set<string>, restored: set<string>, failed: set<string>, n: string)
    requires ReadSoFar(names, good, left, restored, failed) && n in left && n in names
    ensures n in good ==> ReadSoFar(names, good, left - {n}, restored + {n}, failed)
    ensures n !in good ==> ReadSoFar(names, good, left - {n}, restored, failed + {n})
  {
  }

  lemma ReadAll(names: set<string>, good: set<string>, restored: set<string>, failed: set<string>)
    requires ReadSoFar(names, good, {}, restored, failed)
    ensures restored == good && failed == names - good
  {
  }

  lemma TakeOne<V>(base: map<string, V>, all: map<string, V>, left: set<string>, n: string)
    requires n in left
    ensures n in all ==> base + (all - (left - {n})) == (base + (all - left))[n := all[n]]
    ensures n !in all ==> base + (all - (left - {n})) == base + (all - left)
  {
  }

  lemma NothingPruned<V>(entries: map<string, V>, enc: V -> Option<Bytes>, lim: Limits)
    requires !lim.prune
    ensures PlanOf(entries, enc, lim).pruned == []
    ensures entries - ToSet(PlanOf(entries, enc, lim).pruned) == entries
  {
    var pruned := PlanOf(entries, enc, lim).pruned;
    assert pruned == [] || pruned[0] in pruned;
    PlanExact(entries, enc, lim);
    assert forall n :: n in pruned ==> n in Listing(entries.Keys);
  }

  // ----- The round trip ------------------------------------------------------------------------------------

  /** The entries a plan saves, as values. */
  ghost function SavedEntries<V>(entries: map<string, V>, p: Plan): map<string, V> {
    map n | n in entries && n in p.saved :: entries[n]
  }

  /** Every saved entry reads back as the value it was. */
  ghost predicate ReadsBack<V(!new)>(entries: map<string, V>, p: Plan, dec: Bytes -> Option<V>) {
    forall n :: n in p.saved ==> n in entries && dec(p.saved[n]) == Some(entries[n])
  }

  /** What is saved is the encoding of the entry. */
  lemma PlanSaves<V>(entries: map<string, V>, enc: V -> Option<Bytes>, lim: Limits)
    ensures var p := PlanOf(entries, enc, lim);
      Lists(p.savedNames, p.saved.Keys) && forall n :: n in p.saved ==> n in entries && enc(entries[n]) == Some(p.saved[n])
  {
    PlanExact(entries, enc, lim);
    var p := PlanOf(entries, enc, lim);
    forall n | n in p.saved ensures n in entries && enc(entries[n]) == Some(p.saved[n]) {
      assert n in Listing(entries.Keys);
    }
  }

  /** A plan decodes to exactly the saved entries if and only if each of them reads back; nothing is
      asked of values that are not saved. */
  lemma SavedDecode<V(!new)>(entries: map<string, V>, enc: V -> Option<Bytes>, dec: Bytes -> Option<V>, lim: Limits)
    ensures var p := PlanOf(entries, enc, lim);
      && Lists(p.savedNames, p.saved.Keys) && SavedEntries(entries, p).Keys == p.saved.Keys
      && (Decoded(p.saved, dec) == SavedEntries(entries, p) <==> ReadsBack(entries, p, dec))
  {
    PlanSaves(entries, enc, lim);
    DecodeSaved(entries, PlanOf(entries, enc, lim), dec);
  }

  lemma DecodeSaved<V(!new)>(entries: map<string, V>, p: Plan, dec: Bytes -> Option<V>)
    requires forall n :: n in p.saved ==> n in entries
    ensures Decoded(p.saved, dec) == SavedEntries(entries, p) <==> ReadsBack(entries, p, dec)
  {
    var d, e := Decoded(p.saved, dec), SavedEntries(entries, p);
    if d == e {
      forall n | n in p.saved ensures dec(p.saved[n]) == Some(entries[n]) {
        assert n in e && d[n] == e[n];
      }
    }
  }

  lemma SameOverride<V>(later: map<string, V>, a: map<string, V>, b: map<string, V>)
    requires a.Keys == b.Keys
    ensures later + a == later + b <==> a == b
  {
    if later + a == later + b {
      forall n | n in a ensures a[n] == b[n] {
        assert (later + a)[n] == (later + b)[n];
      }
    }
  }

  /** Snapshot, any change of scope, restore: the later scope, overridden by exactly the saved entries
      of the earlier one, with every saved name restored and none failed.  It holds if and only if the
      manifest did not go to the payload's own path and what was saved reads back, or nothing was saved. */
  method SnapshotThenRestore<V(!new)>(st: Store<V>, path: string, manifestPath: string, asked: Asked, later: map<string, V>)
    returns (o: Outcome)
    requires path != ""
    modifies st
    ensures var p := PlanOf(old(st.scope), st.enc, LimitsOf(asked));
      (p.saved == map[] || (path != manifestPath && ReadsBack(old(st.scope), p, st.dec)))
      <==> (st.scope == later + SavedEntries(old(st.scope), p) && o == RestoreDone(p.savedNames, []))
  {
    ghost var entries, lim := st.scope, LimitsOf(asked);
    SavedDecode(st.scope, st.enc, st.dec, lim);
    o := st.Snapshot(path, manifestPath, asked, true, true);
    st.scope := later;
    assert path != manifestPath ==> st.files[path] == Payload(PlanOf(entries, st.enc, lim).saved);
    assert path == manifestPath ==> NamesIn(st.files[path]) == map[];
    o := st.Restore(path, true);
    ghost var p := PlanOf(entries, st.enc, lim);
    if path == manifestPath {
      ManifestRestored(entries, p, st.dec, later, o.restored, o.failed);
    } else {
      PayloadRestored(entries, p, st.dec, later, o.restored, o.failed);
    }
  }

  /** A manifest in the payload's place restores nothing. */
  lemma ManifestRestored<V(!new)>(entries: map<string, V>, p: Plan, dec: Bytes -> Option<V>, later: map<string, V>,
                                  restored: seq<string>, failed: seq<string>)
    requires Lists(p.savedNames, p.saved.Keys) && SavedEntries(entries, p).Keys == p.saved.Keys
    requires Lists(restored, Decoded(map[], dec).Keys) && Lists(failed, {})
    ensures p.saved == map[] <==>
      (later + Decoded(map[], dec) == later + SavedEntries(entries, p) && restored == p.savedNames && failed == [])
  {
    assert Lists([], {}) && Decoded(map[], dec) == map[];
    ListingUnique(restored, [], {});
    ListingUnique(failed, [], {});
    assert p.savedNames == [] || p.savedNames[0] in p.savedNames;
    assert forall n :: n in p.saved ==> n in p.savedNames;
    assert p.saved == map[] ==> SavedEntries(entries, p) == map[];
  }

  lemma PayloadRestored<V(!new)>(entries: map<string, V>, p: Plan, dec: Bytes -> Option<V>, later: map<string, V>,
                                 restored: seq<string>, failed: seq<string>)
    requires Lists(p.savedNames, p.saved.Keys) && SavedEntries(entries, p).Keys == p.saved.Keys
    requires Decoded(p.saved, dec) == SavedEntries(entries, p) <==> ReadsBack(entries, p, dec)
    requires Lists(restored, Decoded(p.saved, dec).Keys) && Lists(failed, p.saved.Keys - Decoded(p.saved, dec).Keys)
    ensures (p.saved == map[] || ReadsBack(entries, p, dec)) <==>
      (later + Decoded(p.saved, dec) == later + SavedEntries(entries, p) && restored == p.savedNames && failed == [])
  {
    var d, e := Decoded(p.saved, dec), SavedEntries(entries, p);
    if restored == p.savedNames {
      assert forall n :: n in d.Keys <==> n in p.saved.Keys;
      assert d.Keys == e.Keys;
      SameOverride(later, d, e);
    }
    if d == e {
      ListingUnique(restored, p.savedNames, p.saved.Keys);
      assert Lists([], {}) && p.saved.Keys - d.Keys == {};
      ListingUnique(failed, [], {});
    }
  }
}
