/**
 Concurrent edits (skills/edit/skill.go): the map of per-path locks, Run as it works on one file,
 and any number of runs interleaved.
 */
module EditLocks {
  import opened Prelude
  import opened Edit

  /** What Run returns: a count and an error. */
  datatype Outcome = Outcome(n: nat, err: bool)

  /** How far the write gets: the temporary file may fail, or the final rename. */
  datatype Disk = Works | TempFails | RenameFails

  class Mutex {
    var held: bool

    constructor ()
      ensures !held
    {
      held := false;
    }
  }

  class Editor {
    var locks: map<string, Mutex>
    var files: map<string, string>

    /** Different paths have different locks. */
    ghost predicate Valid()
      reads this
    {
      forall p, q :: p in locks && q in locks && locks[p] == locks[q] ==> p == q
    }

    constructor (files: map<string, string>)
      ensures Valid() && locks == map[] && this.files == files
    {
      this.locks, this.files := map[], files;
    }

    /** The path's lock, made on first use and the same ever after. */
    method LockFor(path: string) returns (l: Mutex)
      requires Valid()
      modifies `locks
      ensures Valid() && path in locks && l == locks[path]
      ensures forall p :: p in old(locks) ==> p in locks && locks[p] == old(locks)[p]
      ensures path !in old(locks) ==> fresh(l) && !l.held
    {
      if path !in locks {
        var made := new Mutex();
        locks := locks[path := made];
      }
      l := locks[path];
    }

    /** One run, with nobody else holding the path's lock: the file is edited exactly when the edit
        succeeds and the write goes through. A rename that fails is reported together with count 1. */
    method Run(path: string, was: string, now: string, disk: Disk) returns (a: Outcome)
      requires Valid() && (path in locks ==> !locks[path].held)
      modifies this, if path in locks then {locks[path]} else {}
      ensures Valid() && (path in locks ==> !locks[path].held)
      ensures var res := if path in old(files) then EditText(old(files)[path], was, now) else NotFound;
        && files == (if Writes(res, disk) then old(files)[path := res.text] else old(files))
        && a == Reports(res, disk)
    {
      if was == "" {
        return Outcome(0, true);
      }
      var l := LockFor(path);
      l.held := true;
      if path !in files {
        l.held := false;
        return Outcome(0, true);
      }
      var s := files[path];
      var count := Count(s, was);
      if count != 1 {
        l.held := false;
        return Outcome(0, true);
      }
      var text := ReplaceFirst(s, was, now);
      if disk == TempFails {
        a := Outcome(0, true);
      } else {
        if disk == Works {
          files := files[path := text];
        }
        a := Outcome(1, disk == RenameFails);
      }
      l.held := false;
    }
  }

  /** Whether a run replaces the file. */
  predicate Writes(res: Result, disk: Disk) {
    res.Edited? && disk == Works
  }

  /** What a run returns. */
  function Reports(res: Result, disk: Disk): Outcome {
    if !res.Edited? || disk == TempFails then Outcome(0, true) else Outcome(1, disk == RenameFails)
  }

  /** The count returned is that of the replacements made, unless the edit succeeds and the final rename
      fails; then it is one too many. */
  lemma CountMisleadsIff(res: Result, disk: Disk)
    ensures Reports(res, disk).n != (if Writes(res, disk) then 1 else 0) <==> res.Edited? && disk == RenameFails
    ensures Reports(res, disk).err <==> !Writes(res, disk)
  {
  }

  /** A file that is left as it was, and a count of one. */
  method FailedRenameCounts() returns (a: Outcome, text: string)
    ensures a == Outcome(1, true) && text == "abx"
  {
    var e := new Editor(map["f" := "abx"]);
    OverlapBreaksUndo();
    a := e.Run("f", "x", "aba", RenameFails);
    text := e.files["f"];
  }

  // ----- Interleaved runs ----------------------------------------------------------------------------

  type Tid = nat
  type Lock = nat

  datatype Pc =
    | Called
    | HasLock(l: Lock)                            // lockFor has returned
    | Holding(l: Lock)
    | Computed(l: Lock, s: string, res: Result)   // the file was read, nothing written yet
    | Finishing(l: Lock)
    | Returned

  datatype Thread = Thread(path: string, was: string, now: string, pc: Pc)

  /** One run of Run that got as far as reading the file, and how far its write got. */
  datatype Entry = Entry(tid: Tid, was: string, now: string, res: Result, disk: Disk)

  datatype State = State(
    threads: map<Tid, Thread>, locks: map<string, Lock>, made: nat, holder: map<Lock, Tid>,
    files: map<string, string>, log: map<string, seq<Entry>>)

  datatype Step =
    | Call(tid: Tid, path: string, was: string, now: string)
    | GetLock(tid: Tid)
    | Acquire(tid: Tid)
    | Read(tid: Tid)
    | Write(tid: Tid, disk: Disk)
    | Release(tid: Tid)

  predicate Enabled(s: State, a: Step) {
    match a
    case Call(tid, _, was, _) => tid !in s.threads && was != ""
    case GetLock(tid) => tid in s.threads && s.threads[tid].pc.Called?
    case Acquire(tid) => tid in s.threads && s.threads[tid].pc.HasLock? && s.threads[tid].pc.l !in s.holder
    case Read(tid) => tid in s.threads && s.threads[tid].pc.Holding?
    case Write(tid, _) => tid in s.threads && s.threads[tid].pc.Computed?
    case Release(tid) => tid in s.threads && s.threads[tid].pc.Finishing?
  }

  function Goto(s: State, tid: Tid, pc: Pc): map<Tid, Thread>
    requires tid in s.threads
  {
    s.threads[tid := s.threads[tid].(pc := pc)]
  }

  function LogOf(s: State, path: string): seq<Entry> {
    if path in s.log then s.log[path] else []
  }

  function Apply(s: State, a: Step): State
    requires Enabled(s, a)
  {
    match a
    case Call(tid, path, was, now) => s.(threads := s.threads[tid := Thread(path, was, now, Called)])
    case GetLock(tid) =>
      var path := s.threads[tid].path;
      if path in s.locks then s.(threads := Goto(s, tid, HasLock(s.locks[path])))
      else s.(threads := Goto(s, tid, HasLock(s.made)), locks := s.locks[path := s.made], made := s.made + 1)
    case Acquire(tid) =>
      var l := s.threads[tid].pc.l;
      s.(threads := Goto(s, tid, Holding(l)), holder := s.holder[l := tid])
    case Read(tid) =>
      var t := s.threads[tid];
      if t.path !in s.files then s.(threads := Goto(s, tid, Finishing(t.pc.l)))
      else
        var text := s.files[t.path];
        s.(threads := Goto(s, tid, Computed(t.pc.l, text, EditText(text, t.was, t.now))))
    case Write(tid, disk) =>
      var t := s.threads[tid];
      s.(threads := Goto(s, tid, Finishing(t.pc.l)),
         files := if t.pc.res.Edited? && disk == Works then s.files[t.path := t.pc.res.text] else s.files,
         log := s.log[t.path := LogOf(s, t.path) + [Entry(tid, t.was, t.now, t.pc.res, disk)]])
    case Release(tid) =>
      s.(threads := Goto(s, tid, Returned), holder := s.holder - {s.threads[tid].pc.l})
  }

  function Reached(files: map<string, string>, steps: seq<Step>): Option<State> {
    if steps == [] then Some(State(map[], map[], 0, map[], files, map[]))
    else match Reached(files, Front(steps))
      case None => None
      case Some(s) => if Enabled(s, Last(steps)) then Some(Apply(s, Last(steps))) else None
  }

  // ----- The sequential order ------------------------------------------------------------------------

  /** The text after the runs in the log, one after the other. */
  function Replay(text: string, log: seq<Entry>): string {
    if log == [] then text
    else if Writes(Last(log).res, Last(log).disk) then Last(log).res.text
    else Replay(text, Front(log))
  }

  /** Each run in the log saw the text that the runs before it left. */
  ghost predicate Serial(text: string, log: seq<Entry>) {
    forall k :: 0 <= k < |log| ==> log[k].res == EditText(Replay(text, log[..k]), log[k].was, log[k].now)
  }

  /** A lock belongs to one path. */
  ghost predicate LockMap(locks: map<string, Lock>, made: nat) {
    && (forall p :: p in locks ==> locks[p] < made)
    && (forall p, q :: p in locks && q in locks && locks[p] == locks[q] ==> p == q)
  }

  ghost predicate Refs(threads: map<Tid, Thread>, locks: map<string, Lock>) {
    forall t :: t in threads && HasRef(threads[t].pc) ==>
      threads[t].path in locks && locks[threads[t].path] == threads[t].pc.l
  }

  /** A thread inside is the holder of its lock. */
  ghost predicate Holders(threads: map<Tid, Thread>, holder: map<Lock, Tid>) {
    forall t :: t in threads && Holds(threads[t].pc) ==> threads[t].pc.l in holder && holder[threads[t].pc.l] == t
  }

  /** And the holder of a lock is a thread inside. */
  ghost predicate Held(threads: map<Tid, Thread>, holder: map<Lock, Tid>) {
    forall l :: l in holder ==> holder[l] in threads && Holds(threads[holder[l]].pc) && threads[holder[l]].pc.l == l
  }

  predicate HasRef(pc: Pc) {
    !pc.Called? && !pc.Returned?
  }

  predicate Holds(pc: Pc) {
    pc.Holding? || pc.Computed? || pc.Finishing?
  }

  /** Every file is the replay of its log. */
  ghost predicate Replayed(init: map<string, string>, files: map<string, string>, log: map<string, seq<Entry>>) {
    && files.Keys == init.Keys
    && (forall p :: p in log ==> p in init)
    && (forall p :: p in init ==>
          var l := if p in log then log[p] else [];
          InStep(init[p], files[p], l))
  }

  ghost predicate InStep(init: string, text: string, log: seq<Entry>) {
    text == Replay(init, log) && Serial(init, log)
  }

  /** Between its read and its write a thread's copy is the file. */
  ghost predicate Current(threads: map<Tid, Thread>, files: map<string, string>) {
    forall t :: t in threads && threads[t].pc.Computed? ==> UpToDate(threads[t], files)
  }

  predicate UpToDate(t: Thread, files: map<string, string>)
    requires t.pc.Computed?
  {
    t.path in files && t.pc.s == files[t.path] && t.pc.res == EditText(t.pc.s, t.was, t.now)
  }

  predicate Past(pc: Pc) {
    pc.Finishing? || pc.Returned?
  }

  /** The entry is of the run with its number: its path and its strings. */
  predicate OwnEntry(threads: map<Tid, Thread>, path: string, e: Entry) {
    && e.tid in threads && Past(threads[e.tid].pc)
    && threads[e.tid].path == path && threads[e.tid].was == e.was && threads[e.tid].now == e.now
  }

  ghost predicate HasEntry(log: map<string, seq<Entry>>, path: string, tid: Tid) {
    path in log && exists k :: 0 <= k < |log[path]| && log[path][k].tid == tid
  }

  /** The logs hold each run that is through with a file exactly once, under its path. */
  ghost predicate Logged(init: map<string, string>, threads: map<Tid, Thread>, log: map<string, seq<Entry>>) {
    && (forall p, k :: p in log && 0 <= k < |log[p]| ==> OwnEntry(threads, p, log[p][k]))
    && (forall p, i, j :: p in log && 0 <= i < j < |log[p]| ==> log[p][i].tid != log[p][j].tid)
    && (forall t :: t in threads && Past(threads[t].pc) && threads[t].path in init ==> HasEntry(log, threads[t].path, t))
  }

  ghost predicate Inv(init: map<string, string>, s: State) {
    && Logged(init, s.threads, s.log) && Held(s.threads, s.holder)
    && LockMap(s.locks, s.made) && Refs(s.threads, s.locks) && Holders(s.threads, s.holder)
    && Replayed(init, s.files, s.log) && Current(s.threads, s.files)
  }

  lemma NewLock(threads: map<Tid, Thread>, locks: map<string, Lock>, made: nat, path: string)
    requires LockMap(locks, made) && Refs(threads, locks) && path !in locks
    ensures LockMap(locks[path := made], made + 1) && Refs(threads, locks[path := made])
  {
  }

  lemma Moved(threads: map<Tid, Thread>, locks: map<string, Lock>, tid: Tid, pc: Pc)
    requires Refs(threads, locks) && tid in threads
    requires HasRef(pc) ==> threads[tid].path in locks && locks[threads[tid].path] == pc.l
    ensures Refs(threads[tid := threads[tid].(pc := pc)], locks)
  {
  }

  lemma RefsStep(s: State, a: Step)
    requires Enabled(s, a) && LockMap(s.locks, s.made) && Refs(s.threads, s.locks)
    ensures LockMap(Apply(s, a).locks, Apply(s, a).made) && Refs(Apply(s, a).threads, Apply(s, a).locks)
  {
    var t := Apply(s, a);
    match a
    case Call(_, _, _, _) =>
    case GetLock(tid) =>
      if s.threads[tid].path !in s.locks {
        NewLock(s.threads, s.locks, s.made, s.threads[tid].path);
      }
      Moved(s.threads, t.locks, tid, t.threads[tid].pc);
    case Acquire(tid) => Moved(s.threads, s.locks, tid, t.threads[tid].pc);
    case Read(tid) => Moved(s.threads, s.locks, tid, t.threads[tid].pc);
    case Write(tid, _) => Moved(s.threads, s.locks, tid, t.threads[tid].pc);
    case Release(tid) => Moved(s.threads, s.locks, tid, t.threads[tid].pc);
  }

  lemma HoldersStep(s: State, a: Step)
    requires Enabled(s, a) && Holders(s.threads, s.holder)
    ensures Holders(Apply(s, a).threads, Apply(s, a).holder)
  {
  }

  lemma HeldStep(s: State, a: Step)
    requires Enabled(s, a) && Holders(s.threads, s.holder) && Held(s.threads, s.holder)
    ensures Held(Apply(s, a).threads, Apply(s, a).holder)
  {
    match a
    case Call(_, _, _, _) =>
    case Acquire(_) =>
    case Release(_) =>
    case _ => MovedHeld(s.threads, s.holder, a.tid, Apply(s, a).threads[a.tid].pc);
  }

  lemma MovedHeld(threads: map<Tid, Thread>, holder: map<Lock, Tid>, tid: Tid, pc: Pc)
    requires Held(threads, holder) && tid in threads
    requires Holds(threads[tid].pc) ==> Holds(pc) && pc.l == threads[tid].pc.l
    ensures Held(threads[tid := threads[tid].(pc := pc)], holder)
  {
  }

  lemma SerialSnoc(text: string, log: seq<Entry>, e: Entry)
    requires Serial(text, log) && e.res == EditText(Replay(text, log), e.was, e.now)
    ensures Serial(text, log + [e])
    ensures Replay(text, log + [e]) == if Writes(e.res, e.disk) then e.res.text else Replay(text, log)
  {
    assert Front(log + [e]) == log;
    assert forall k :: 0 <= k <= |log| ==> (log + [e])[..k] == log[..k];
    assert log[..|log|] == log;
  }

  /** Two threads inside for one path are the same thread. */
  lemma Exclusive(s: State, t: Tid, u: Tid)
    requires LockMap(s.locks, s.made) && Refs(s.threads, s.locks) && Holders(s.threads, s.holder)
    requires t in s.threads && u in s.threads && Holds(s.threads[t].pc) && Holds(s.threads[u].pc)
    requires s.threads[t].path == s.threads[u].path
    ensures t == u
  {
  }

  lemma WriteCurrent(s: State, tid: Tid, disk: Disk)
    requires Enabled(s, Write(tid, disk)) && Current(s.threads, s.files)
    requires LockMap(s.locks, s.made) && Refs(s.threads, s.locks) && Holders(s.threads, s.holder)
    ensures Current(Apply(s, Write(tid, disk)).threads, Apply(s, Write(tid, disk)).files)
  {
    var n := Apply(s, Write(tid, disk));
    forall u | u in n.threads && n.threads[u].pc.Computed? ensures UpToDate(n.threads[u], n.files) {
      assert UpToDate(s.threads[u], s.files);
      if s.threads[u].path == s.threads[tid].path {
        Exclusive(s, u, tid);
      }
    }
  }

  lemma LogOne(init: map<string, string>, files: map<string, string>, log: map<string, seq<Entry>>, path: string, e: Entry)
    requires Replayed(init, files, log) && path in files && e.res == EditText(files[path], e.was, e.now)
    ensures Replayed(init, if Writes(e.res, e.disk) then files[path := e.res.text] else files,
                     log[path := (if path in log then log[path] else []) + [e]])
  {
    var l := if path in log then log[path] else [];
    assert InStep(init[path], files[path], l);
    SerialSnoc(init[path], l, e);
    if Writes(e.res, e.disk) {
      LogReplaced(init, files, log, path, e.res.text, l + [e]);
    } else {
      LogReplaced(init, files, log, path, files[path], l + [e]);
      SameFiles(files, path);
    }
  }

  lemma SameFiles(files: map<string, string>, path: string)
    requires path in files
    ensures files[path := files[path]] == files
  {
  }

  /** A file and its log change together, and no other file does. */
  lemma LogReplaced(init: map<string, string>, files: map<string, string>, log: map<string, seq<Entry>>,
                    path: string, text: string, l: seq<Entry>)
    requires Replayed(init, files, log) && path in files && InStep(init[path], text, l)
    ensures Replayed(init, files[path := text], log[path := l])
  {
  }

  /** The file is replaced exactly when the edit succeeded and the disk lets it through, and the log grows. */
  lemma WriteChanges(s: State, tid: Tid, disk: Disk)
    requires Enabled(s, Write(tid, disk))
    ensures var t, n := s.threads[tid], Apply(s, Write(tid, disk));
      && n.files == (if Writes(t.pc.res, disk) then s.files[t.path := t.pc.res.text] else s.files)
      && n.log == s.log[t.path := (if t.path in s.log then s.log[t.path] else []) + [Entry(tid, t.was, t.now, t.pc.res, disk)]]
  {
  }

  lemma WriteReplayed(init: map<string, string>, s: State, tid: Tid, disk: Disk)
    requires Enabled(s, Write(tid, disk)) && Current(s.threads, s.files) && Replayed(init, s.files, s.log)
    ensures Replayed(init, Apply(s, Write(tid, disk)).files, Apply(s, Write(tid, disk)).log)
  {
    var t := s.threads[tid];
    assert UpToDate(t, s.files);
    WriteChanges(s, tid, disk);
    LogOne(init, s.files, s.log, t.path, Entry(tid, t.was, t.now, t.pc.res, disk));
  }

  lemma WriteLogged(init: map<string, string>, threads: map<Tid, Thread>, log: map<string, seq<Entry>>, e: Entry, l: Lock)
    requires Logged(init, threads, log) && e.tid in threads && !Past(threads[e.tid].pc)
    requires threads[e.tid].was == e.was && threads[e.tid].now == e.now
    ensures var t := threads[e.tid];
      Logged(init, threads[e.tid := t.(pc := Finishing(l))], log[t.path := (if t.path in log then log[t.path] else []) + [e]])
  {
    var t := threads[e.tid];
    var was := if t.path in log then log[t.path] else [];
    var after, now := threads[e.tid := t.(pc := Finishing(l))], log[t.path := was + [e]];
    forall u | u in after && Past(after[u].pc) && after[u].path in init ensures HasEntry(now, after[u].path, u) {
      if u == e.tid {
        assert now[t.path][|was|].tid == u;
      } else {
        var k :| 0 <= k < |log[threads[u].path]| && log[threads[u].path][k].tid == u;
        assert now[threads[u].path][k].tid == u;
      }
    }
  }

  lemma MovedLogged(init: map<string, string>, threads: map<Tid, Thread>, log: map<string, seq<Entry>>, tid: Tid, pc: Pc)
    requires Logged(init, threads, log) && tid in threads
    requires Past(pc) == Past(threads[tid].pc) || (Past(pc) && threads[tid].path !in init)
    ensures Logged(init, threads[tid := threads[tid].(pc := pc)], log)
  {
  }

  lemma LoggedStep(init: map<string, string>, s: State, a: Step)
    requires Enabled(s, a) && Logged(init, s.threads, s.log) && s.files.Keys == init.Keys
    ensures Logged(init, Apply(s, a).threads, Apply(s, a).log)
  {
    match a
    case Call(_, _, _, _) =>
    case Write(tid, disk) =>
      var t := s.threads[tid];
      WriteLogged(init, s.threads, s.log, Entry(tid, t.was, t.now, t.pc.res, disk), t.pc.l);
    case _ => MovedLogged(init, s.threads, s.log, a.tid, Apply(s, a).threads[a.tid].pc);
  }

  lemma InvStep(init: map<string, string>, s: State, a: Step)
    requires Enabled(s, a) && Inv(init, s)
    ensures Inv(init, Apply(s, a))
  {
    RefsStep(s, a);
    HoldersStep(s, a);
    HeldStep(s, a);
    LoggedStep(init, s, a);
    if a.Write? {
      WriteCurrent(s, a.tid, a.disk);
      WriteReplayed(init, s, a.tid, a.disk);
    } else {
      OtherCurrent(s, a);
    }
  }

  lemma OtherCurrent(s: State, a: Step)
    requires Enabled(s, a) && !a.Write? && Current(s.threads, s.files)
    ensures Current(Apply(s, a).threads, Apply(s, a).files)
    ensures Apply(s, a).files == s.files && Apply(s, a).log == s.log
  {
  }

  lemma {:induction false} ReachedInv(init: map<string, string>, steps: seq<Step>, s: State)
    requires Reached(init, steps) == Some(s)
    ensures Inv(init, s)
  {
    if steps == [] {
    } else {
      var p := Reached(init, Front(steps)).value;
      ReachedInv(init, Front(steps), p);
      InvStep(init, p, Last(steps));
    }
  }

  /** Concurrent edits that name a file by one path leave it as some sequential order of them does:
      in the order of the log each saw what the one before it left, and the file is the end of it. */
  lemma EditsAreSerial(init: map<string, string>, steps: seq<Step>, s: State, path: string)
    requires Reached(init, steps) == Some(s) && path in init
    ensures path in s.files && s.files[path] == Replay(init[path], LogOf(s, path))
    ensures Serial(init[path], LogOf(s, path))
  {
    ReachedInv(init, steps, s);
  }

  /** And that order leaves nobody out and nobody twice: it is made of the runs that are through with the
      file, each with its own strings and once. */
  lemma EveryEditIsInOrder(init: map<string, string>, steps: seq<Step>, s: State, path: string, tid: Tid)
    requires Reached(init, steps) == Some(s) && path in init
    ensures HasEntry(s.log, path, tid) <==> tid in s.threads && s.threads[tid].path == path && Past(s.threads[tid].pc)
    ensures forall k, m :: 0 <= k < m < |LogOf(s, path)| ==> LogOf(s, path)[k].tid != LogOf(s, path)[m].tid
    ensures forall k :: 0 <= k < |LogOf(s, path)| ==> OwnEntry(s.threads, path, LogOf(s, path)[k])
  {
    ReachedInv(init, steps, s);
    LoggedMeans(init, s.threads, s.log, path, tid);
  }

  lemma LoggedMeans(init: map<string, string>, threads: map<Tid, Thread>, log: map<string, seq<Entry>>, path: string, tid: Tid)
    requires Logged(init, threads, log) && path in init
    ensures HasEntry(log, path, tid) <==> tid in threads && threads[tid].path == path && Past(threads[tid].pc)
  {
    if HasEntry(log, path, tid) {
      var k :| 0 <= k < |log[path]| && log[path][k].tid == tid;
      assert OwnEntry(threads, path, log[path][k]);
    }
  }

  /** A run that has its path's lock in hand can take it if and only if no other run of that path is
      inside: every run that goes out lets the next one in. */
  lemma AcquireIff(init: map<string, string>, steps: seq<Step>, s: State, t: Tid)
    requires Reached(init, steps) == Some(s) && t in s.threads && s.threads[t].pc.HasLock?
    ensures Enabled(s, Acquire(t)) <==>
      forall u :: u in s.threads && Holds(s.threads[u].pc) ==> s.threads[u].path != s.threads[t].path
  {
    ReachedInv(init, steps, s);
    InsideIff(s.threads, s.locks, s.made, s.holder, t);
  }

  /** A run that does not wait for its path's lock can always go on, whatever the disk does. */
  lemma RunsGoOn(s: State, t: Tid, disk: Disk)
    requires t in s.threads && !s.threads[t].pc.HasLock? && !s.threads[t].pc.Returned?
    ensures Enabled(s, GetLock(t)) || Enabled(s, Read(t)) || Enabled(s, Write(t, disk)) || Enabled(s, Release(t))
  {
  }

  lemma InsideIff(threads: map<Tid, Thread>, locks: map<string, Lock>, made: nat, holder: map<Lock, Tid>, t: Tid)
    requires LockMap(locks, made) && Refs(threads, locks) && Holders(threads, holder) && Held(threads, holder)
    requires t in threads && threads[t].pc.HasLock?
    ensures threads[t].pc.l !in holder <==>
      forall u :: u in threads && Holds(threads[u].pc) ==> threads[u].path != threads[t].path
  {
    var l := threads[t].pc.l;
    if l in holder {
      assert Holds(threads[holder[l]].pc) && threads[holder[l]].path == threads[t].path;
    }
  }

  /** No two runs are ever inside the same path's critical section. */
  lemma OneAtATime(init: map<string, string>, steps: seq<Step>, s: State, t: Tid, u: Tid)
    requires Reached(init, steps) == Some(s) && t in s.threads && u in s.threads
    requires Holds(s.threads[t].pc) && Holds(s.threads[u].pc) && s.threads[t].path == s.threads[u].path
    ensures t == u
  {
    ReachedInv(init, steps, s);
    Exclusive(s, t, u);
  }
}
