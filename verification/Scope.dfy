/**
 The namespace actor (rlm/scope.go): clients send commands into one channel, the actor keeps the
 map, and the clients wait for the answers to those commands that have one.  A Go map is an object
 with an identity, so whether an answer is a copy or the actor's own map makes a difference.
 */
module Scope {
  import opened Prelude

  type Value = string

  datatype Op = Set(k: string, v: Value) | Get(k: string) | Delete(k: string) | Names | Entries

  // ----- What the answers should be ---------------------------------------------------------------------

  /** The value k has after the commands, the last one that writes k deciding; before them it has the
      one in m. */
  function Lookup(m: map<string, Value>, ops: seq<Op>, k: string): Option<Value> {
    if ops == [] then
      if k in m then Some(m[k]) else None
    else if Last(ops) == Delete(k) then None
    else if Last(ops).Set? && Last(ops).k == k then Some(Last(ops).v)
    else Lookup(m, Front(ops), k)
  }

  /** The map `now` is what the commands make of m. */
  ghost predicate Holds(now: map<string, Value>, m: map<string, Value>, ops: seq<Op>) {
    forall k :: Lookup(m, ops, k) == if k in now then Some(now[k]) else None
  }

  // ----- What the actor does ----------------------------------------------------------------------------

  /** What an answer says. */
  datatype Said = Nothing | Found(v: Option<Value>) | Listed(names: seq<string>) | Copied(entries: map<string, Value>)

  function Handle(m: map<string, Value>, op: Op): map<string, Value> {
    match op
    case Set(k, v) => m[k := v]
    case Delete(k) => m - {k}
    case _ => m
  }

  /** Names come in any order. */
  ghost predicate Tells(m: map<string, Value>, op: Op, s: Said) {
    match op
    case Get(k) => s == Found(if k in m then Some(m[k]) else None)
    case Names => s.Listed? && NoDuplicates(s.names) && forall k :: k in s.names <==> k in m
    case Entries => s == Copied(m)
    case _ => s == Nothing
  }

  /** One command keeps the actor's map what the commands make of it. */
  lemma HoldsStep(now: map<string, Value>, m: map<string, Value>, ops: seq<Op>, op: Op)
    requires Holds(now, m, ops)
    ensures Holds(Handle(now, op), m, ops + [op])
  {
    assert Front(ops + [op]) == ops;
    forall k ensures Lookup(m, ops + [op], k) == if k in Handle(now, op) then Some(Handle(now, op)[k]) else None {
      assert Lookup(m, ops, k) == if k in now then Some(now[k]) else None;
    }
  }

  /** What an answer should say after the commands. */
  ghost predicate Right(m: map<string, Value>, ops: seq<Op>, op: Op, s: Said) {
    match op
    case Get(k) => s == Found(Lookup(m, ops, k))
    case Names => s.Listed? && NoDuplicates(s.names) && forall k :: k in s.names <==> Lookup(m, ops, k).Some?
    case Entries => s.Copied? && Holds(s.entries, m, ops)
    case _ => s == Nothing
  }

  lemma TellsRight(now: map<string, Value>, m: map<string, Value>, ops: seq<Op>, op: Op, s: Said)
    requires Holds(now, m, ops) && Tells(now, op, s)
    ensures Right(m, ops, op, s)
  {
    assert op.Get? ==> Lookup(m, ops, op.k) == if op.k in now then Some(now[op.k]) else None;
    assert forall k :: Lookup(m, ops, k).Some? <==> k in now;
  }

  // ----- The actor ----------------------------------------------------------------------------------------

  /** A Go map. */
  class GoMap {
    var m: map<string, Value>

    constructor ()
      ensures m == map[]
    {
      m := map[];
    }

    method Put(k: string, v: Value)
      modifies this
      ensures m == old(m)[k := v]
    {
      m := m[k := v];
    }
  }

  datatype Answer = NoAnswer | Stored(v: Option<Value>) | NameList(names: seq<string>) | EntryMap(entries: GoMap)

  function Meaning(a: Answer): Said
    reads if a.EntryMap? then {a.entries} else {}
  {
    match a
    case NoAnswer => Nothing
    case Stored(v) => Found(v)
    case NameList(names) => Listed(names)
    case EntryMap(entries) => Copied(entries.m)
  }

  class ScopeActor {
    const names: GoMap

    constructor ()
      ensures fresh(names) && names.m == map[]
    {
      names := new GoMap();
    }

    /** One pass of the loop over the command channel.  A map handed out is a new object. */
    method Process(op: Op) returns (a: Answer)
      modifies names
      ensures names.m == Handle(old(names.m), op)
      ensures Tells(old(names.m), op, Meaning(a))
      ensures a.EntryMap? ==> fresh(a.entries)
    {
      a := NoAnswer;
      match op {
        case Set(k, v) =>
          names.Put(k, v);
        case Get(k) =>
          a := Stored(if k in names.m then Some(names.m[k]) else None);
        case Delete(k) =>
          names.m := names.m - {k};
        case Names =>
          var out := Keys(names.m.Keys);
          a := NameList(out);
        case Entries =>
          var out := CopyOf(names);
          a := EntryMap(out);
      }
    }

    /** The loop over the command channel, for any batch of commands found in it.  In the end every
        answer, each copy handed out included, still says what was so when it was given. */
    method Run(cmds: seq<Op>) returns (answers: seq<Answer>)
      modifies names
      ensures Holds(names.m, old(names.m), cmds)
      ensures |answers| == |cmds|
      ensures forall i :: 0 <= i < |cmds| ==> Right(old(names.m), cmds[..i], cmds[i], Meaning(answers[i]))
      ensures forall i :: 0 <= i < |cmds| && answers[i].EntryMap? ==> fresh(answers[i].entries)
    {
      answers := [];
      for n := 0 to |cmds|
        invariant Holds(names.m, old(names.m), cmds[..n]) && |answers| == n
        invariant forall i :: 0 <= i < n && answers[i].EntryMap? ==> fresh(answers[i].entries) && answers[i].entries != names
        invariant forall i :: 0 <= i < n ==> Right(old(names.m), cmds[..i], cmds[i], Meaning(answers[i]))
      {
        ghost var now := names.m;
        var a := Process(cmds[n]);
        TellsRight(now, old(names.m), cmds[..n], cmds[n], Meaning(a));
        HoldsStep(now, old(names.m), cmds[..n], cmds[n]);
        assert cmds[..n] + [cmds[n]] == cmds[..n + 1];
        answers := answers + [a];
      }
      assert cmds[..|cmds|] == cmds;
    }
  }

  /** The keys of a map, in some order. */
  method Keys(xs: set<string>) returns (out: seq<string>)
    ensures NoDuplicates(out) && forall k :: k in out <==> k in xs
  {
    out := [];
    var left := xs;
    while left != {}
      invariant left <= xs && NoDuplicates(out)
      invariant forall k :: k in out <==> k in xs && k !in left
      decreases |left|
    {
      var k :| k in left;
      out := out + [k];
      left := left - {k};
    }
  }

  /** A new map with the same entries, put in one by one, in some order. */
  method CopyOf(names: GoMap) returns (out: GoMap)
    ensures fresh(out) && out.m == names.m
  {
    out := new GoMap();
    var left := names.m.Keys;
    while left != {}
      invariant fresh(out) && left <= names.m.Keys && names.m == old(names.m)
      invariant out.m.Keys == names.m.Keys - left
      invariant forall k :: k in out.m ==> out.m[k] == names.m[k]
      decreases |left|
    {
      var k :| k in left;
      out.Put(k, names.m[k]);
      left := left - {k};
    }
  }

  // ----- Clients and actor interleaved -----------------------------------------------------------------------

  type ClientId = nat

  /** The identity of a map object. */
  type Ref = nat

  datatype Cmd = Cmd(client: ClientId, op: Op)

  datatype Reply = Plain(s: Said) | Map(at: Ref)

  /** The commands a client has sent, the position in the channel of the one it waits for, and the
      answers it has received, with the positions of their commands. */
  datatype Client = Client(issued: seq<Op>, waiting: Option<nat>, got: map<nat, Reply>)

  /** The map objects made so far; the actor's own is the first. */
  datatype Heap = Heap(maps: map<Ref, map<string, Value>>, made: Ref)

  /** `ready` are the answers lying in reply channels. */
  datatype State = State(sent: seq<Cmd>, handled: nat, heap: Heap, ready: map<nat, Reply>, clients: map<ClientId, Client>)

  const NAMES: Ref := 0

  const INIT := State([], 0, Heap(map[NAMES := map[]], 1), map[], map[])

  datatype Step =
    | Issue(c: ClientId, op: Op)
    | ActorGo(s: Said)
    | Collect(c: ClientId)

  function ClientOf(s: State, c: ClientId): Client {
    if c in s.clients then s.clients[c] else Client([], None, map[])
  }

  function Ops(cmds: seq<Cmd>): seq<Op> {
    if cmds == [] then [] else Ops(Front(cmds)) + [Last(cmds).op]
  }

  function OpsOf(cmds: seq<Cmd>, c: ClientId): seq<Op> {
    if cmds == [] then [] else OpsOf(Front(cmds), c) + if Last(cmds).client == c then [Last(cmds).op] else []
  }

  predicate Waits(op: Op) {
    op.Get? || op.Names? || op.Entries?
  }

  /** The actor's own map. */
  function Own(h: Heap): map<string, Value> {
    if NAMES in h.maps then h.maps[NAMES] else map[]
  }

  ghost predicate Enabled(s: State, a: Step) {
    match a
    case Issue(c, _) => ClientOf(s, c).waiting.None?
    case ActorGo(said) => s.handled < |s.sent| && Tells(Own(s.heap), s.sent[s.handled].op, said)
    case Collect(c) => ClientOf(s, c).waiting.Some? && ClientOf(s, c).waiting.value in s.ready
  }

  /** A command changes the actor's own map; a map handed out is a new object. */
  function Change(h: Heap, op: Op): Heap {
    var own := h.maps[NAMES := Handle(Own(h), op)];
    if op.Entries? then Heap(own[h.made := Own(h)], h.made + 1) else h.(maps := own)
  }

  function Put(h: Heap, op: Op, said: Said): Reply {
    if op.Entries? then Map(h.made) else Plain(said)
  }

  ghost function Apply(s: State, a: Step): State
    requires Enabled(s, a)
  {
    match a
    case Issue(c, op) =>
      var cl := ClientOf(s, c);
      s.(sent := s.sent + [Cmd(c, op)],
         clients := s.clients[c := cl.(issued := cl.issued + [op], waiting := if Waits(op) then Some(|s.sent|) else None)])
    case ActorGo(said) =>
      var op := s.sent[s.handled].op;
      s.(handled := s.handled + 1, heap := Change(s.heap, op),
         ready := if Waits(op) then s.ready[s.handled := Put(s.heap, op, said)] else s.ready)
    case Collect(c) =>
      var cl := ClientOf(s, c);
      var p := cl.waiting.value;
      s.(ready := s.ready - {p}, clients := s.clients[c := cl.(waiting := None, got := cl.got[p := s.ready[p]])])
  }

  ghost function Reached(steps: seq<Step>): Option<State> {
    if steps == [] then Some(INIT)
    else match Reached(Front(steps))
      case None => None
      case Some(s) => if Enabled(s, Last(steps)) then Some(Apply(s, Last(steps))) else None
  }

  /** What a reply says when it is read in this heap; a map handed out is not the actor's own. */
  ghost predicate Reads(h: Heap, r: Reply, s: Said) {
    match r
    case Plain(t) => s == t && !s.Copied?
    case Map(at) => at != NAMES && at in h.maps && s == Copied(h.maps[at])
  }

  /** The answer r belongs to the command at position p: read in this heap, it says what is so after
      exactly the commands before p. */
  ghost predicate AtomicAt(sent: seq<Cmd>, h: Heap, p: nat, r: Reply) {
    p < |sent| && exists s :: Reads(h, r, s) && Right(map[], Ops(sent[..p]), sent[p].op, s)
  }

  /** What is known of a client: its commands stand in the channel in its own order, each answer it has is
      right at the position of its command, and the command it waits for is still to be answered to it. */
  ghost predicate ClientInv(sent: seq<Cmd>, h: Heap, c: ClientId, cl: Client) {
    && OpsOf(sent, c) == cl.issued
    && (forall p :: p in cl.got ==> AtomicAt(sent, h, p, cl.got[p]) && sent[p].client == c)
    && (cl.waiting.Some? ==> var p := cl.waiting.value; p < |sent| && sent[p].client == c && Waits(sent[p].op) && p !in cl.got)
  }

  /** The actor's map is what the commands it has handled make of the empty one. */
  ghost predicate OwnInv(sent: seq<Cmd>, handled: nat, h: Heap) {
    && handled <= |sent| && NAMES in h.maps && NAMES < h.made
    && (forall at :: at in h.maps ==> at < h.made)
    && Holds(h.maps[NAMES], map[], Ops(sent[..handled]))
  }

  ghost predicate Inv(s: State) {
    && OwnInv(s.sent, s.handled, s.heap)
    && (forall p :: p in s.ready ==> AtomicAt(s.sent, s.heap, p, s.ready[p]))
    && (forall c :: ClientInv(s.sent, s.heap, c, ClientOf(s, c)))
    && (forall c :: Served(s.handled, s.ready, ClientOf(s, c)))
  }

  /** The command a client waits for is still ahead of the actor, or its answer lies ready. */
  predicate Served(handled: nat, ready: map<nat, Reply>, cl: Client) {
    cl.waiting.Some? && cl.waiting.value < handled ==> cl.waiting.value in ready
  }

  /** No object but the actor's own changes. */
  ghost predicate SameCopies(h: Heap, g: Heap) {
    forall at :: at in h.maps && at != NAMES ==> at in g.maps && g.maps[at] == h.maps[at]
  }

  lemma ChangeKeepsCopies(h: Heap, op: Op)
    requires forall at :: at in h.maps ==> at < h.made
    ensures SameCopies(h, Change(h, op))
  {
  }

  lemma StillAtomic(sent: seq<Cmd>, d: seq<Cmd>, h: Heap, g: Heap, p: nat, r: Reply)
    requires AtomicAt(sent, h, p, r) && SameCopies(h, g)
    ensures AtomicAt(sent + d, g, p, r) && (sent + d)[p] == sent[p]
  {
    assert (sent + d)[..p] == sent[..p];
    var s :| Reads(h, r, s) && Right(map[], Ops(sent[..p]), sent[p].op, s);
    assert Reads(g, r, s);
  }

  lemma ClientKept(sent: seq<Cmd>, h: Heap, g: Heap, c: ClientId, cl: Client)
    requires ClientInv(sent, h, c, cl) && SameCopies(h, g)
    ensures ClientInv(sent, g, c, cl)
  {
    assert sent + [] == sent;
    forall p | p in cl.got ensures AtomicAt(sent, g, p, cl.got[p]) {
      StillAtomic(sent, [], h, g, p, cl.got[p]);
    }
  }

  lemma IssueOthers(sent: seq<Cmd>, h: Heap, d: Cmd, c: ClientId, cl: Client)
    requires ClientInv(sent, h, c, cl) && d.client != c
    ensures ClientInv(sent + [d], h, c, cl)
  {
    assert Front(sent + [d]) == sent;
    forall p | p in cl.got ensures AtomicAt(sent + [d], h, p, cl.got[p]) && (sent + [d])[p].client == c {
      StillAtomic(sent, [d], h, h, p, cl.got[p]);
    }
  }

  lemma IssueOwn(sent: seq<Cmd>, h: Heap, d: Cmd, cl: Client)
    requires ClientInv(sent, h, d.client, cl)
    ensures ClientInv(sent + [d], h, d.client, cl.(issued := cl.issued + [d.op], waiting := if Waits(d.op) then Some(|sent|) else None))
  {
    assert Front(sent + [d]) == sent;
    forall p | p in cl.got ensures AtomicAt(sent + [d], h, p, cl.got[p]) && (sent + [d])[p].client == d.client {
      StillAtomic(sent, [d], h, h, p, cl.got[p]);
    }
  }

  lemma IssueStep(s: State, a: Step)
    requires Enabled(s, a) && Inv(s) && a.Issue?
    ensures Inv(Apply(s, a))
  {
    var d, t := Cmd(a.c, a.op), Apply(s, a);
    assert t.sent[..s.handled] == s.sent[..s.handled];
    forall p | p in s.ready ensures AtomicAt(t.sent, t.heap, p, s.ready[p]) {
      StillAtomic(s.sent, [d], s.heap, s.heap, p, s.ready[p]);
    }
    forall c ensures ClientInv(t.sent, t.heap, c, ClientOf(t, c)) && Served(t.handled, t.ready, ClientOf(t, c)) {
      assert Served(s.handled, s.ready, ClientOf(s, c));
      if c == a.c {
        IssueOwn(s.sent, s.heap, d, ClientOf(s, c));
      } else {
        IssueOthers(s.sent, s.heap, d, c, ClientOf(s, c));
      }
    }
  }

  lemma CollectStep(s: State, a: Step)
    requires Enabled(s, a) && Inv(s) && a.Collect?
    ensures Inv(Apply(s, a))
  {
    var t := Apply(s, a);
    assert ClientInv(s.sent, s.heap, a.c, ClientOf(s, a.c));
    forall c ensures ClientInv(t.sent, t.heap, c, ClientOf(t, c)) && Served(t.handled, t.ready, ClientOf(t, c)) {
      if c != a.c {
        assert ClientOf(t, c) == ClientOf(s, c);
        assert ClientInv(s.sent, s.heap, c, ClientOf(s, c)) && Served(s.handled, s.ready, ClientOf(s, c));
      }
    }
  }

  /** The actor's own map moves on with the commands, and its answer is right where it stands. */
  lemma ActorOwn(sent: seq<Cmd>, handled: nat, h: Heap, said: Said)
    requires OwnInv(sent, handled, h) && handled < |sent| && Tells(Own(h), sent[handled].op, said)
    ensures OwnInv(sent, handled + 1, Change(h, sent[handled].op))
    ensures AtomicAt(sent, Change(h, sent[handled].op), handled, Put(h, sent[handled].op, said))
  {
    var op := sent[handled].op;
    var before := Ops(sent[..handled]);
    HoldsStep(Own(h), map[], before, op);
    assert Front(sent[..handled + 1]) == sent[..handled];
    TellsRight(Own(h), map[], before, op, said);
    assert Reads(Change(h, op), Put(h, op, said), said);
  }

  lemma ActorStep(s: State, a: Step)
    requires Enabled(s, a) && Inv(s) && a.ActorGo?
    ensures Inv(Apply(s, a))
  {
    var t := Apply(s, a);
    ActorOwn(s.sent, s.handled, s.heap, a.s);
    ChangeKeepsCopies(s.heap, s.sent[s.handled].op);
    assert s.sent + [] == s.sent;
    forall p | p in s.ready ensures AtomicAt(t.sent, t.heap, p, s.ready[p]) {
      StillAtomic(s.sent, [], s.heap, t.heap, p, s.ready[p]);
    }
    forall c ensures ClientInv(t.sent, t.heap, c, ClientOf(t, c)) && Served(t.handled, t.ready, ClientOf(t, c)) {
      assert ClientInv(s.sent, s.heap, c, ClientOf(s, c)) && Served(s.handled, s.ready, ClientOf(s, c));
      ClientKept(s.sent, s.heap, t.heap, c, ClientOf(s, c));
    }
  }

  lemma InvStep(s: State, a: Step)
    requires Enabled(s, a) && Inv(s)
    ensures Inv(Apply(s, a))
  {
    match a
    case Issue(_, _) => IssueStep(s, a);
    case Collect(_) => CollectStep(s, a);
    case ActorGo(_) => ActorStep(s, a);
  }

  lemma {:induction false} ReachedInv(steps: seq<Step>, s: State)
    requires Reached(steps) == Some(s)
    ensures Inv(s)
  {
    if steps == [] {
    } else {
      var p := Reached(Front(steps)).value;
      ReachedInv(Front(steps), p);
      InvStep(p, Last(steps));
    }
  }

  /** For every interleaving of clients: the channel is one order of all commands that agrees with each
      client's own, and every answer a client has, read now, says what the last writes before its
      command say. */
  lemma ScopeIsAtomic(steps: seq<Step>, s: State, c: ClientId)
    requires Reached(steps) == Some(s)
    ensures OpsOf(s.sent, c) == ClientOf(s, c).issued
    ensures forall p :: p in ClientOf(s, c).got ==> AtomicAt(s.sent, s.heap, p, ClientOf(s, c).got[p]) && s.sent[p].client == c
  {
    ReachedInv(steps, s);
    assert ClientInv(s.sent, s.heap, c, ClientOf(s, c));
  }

  /** No answer is lost: once the actor has caught up with the channel, every waiting client can go on. */
  lemma AnswersArrive(steps: seq<Step>, s: State, c: ClientId)
    requires Reached(steps) == Some(s) && ClientOf(s, c).waiting.Some? && s.handled == |s.sent|
    ensures Enabled(s, Collect(c))
  {
    ReachedInv(steps, s);
    assert ClientInv(s.sent, s.heap, c, ClientOf(s, c)) && Served(s.handled, s.ready, ClientOf(s, c));
  }

  lemma {:induction false} ListingExists(xs: set<string>) returns (out: seq<string>)
    ensures NoDuplicates(out) && forall k :: k in out <==> k in xs
    decreases |xs|
  {
    if xs == {} {
      out := [];
    } else {
      var k :| k in xs;
      var rest := ListingExists(xs - {k});
      out := rest + [k];
    }
  }

  /** The actor can always handle the next command. */
  lemma ActorCanGo(s: State) returns (said: Said)
    requires s.handled < |s.sent|
    ensures Enabled(s, ActorGo(said))
  {
    var own := Own(s.heap);
    match s.sent[s.handled].op {
      case Get(k) => said := Found(if k in own then Some(own[k]) else None);
      case Names =>
        var out := ListingExists(own.Keys);
        said := Listed(out);
      case Entries => said := Copied(own);
      case _ => said := Nothing;
    }
  }

  /** An answer once received never changes, whatever happens later, and neither does a map that was
      handed out. */
  lemma {:induction false} AnswersStay(steps: seq<Step>, more: seq<Step>, s: State, t: State, c: ClientId, p: nat)
    requires Reached(steps) == Some(s) && Reached(steps + more) == Some(t) && p in ClientOf(s, c).got
    ensures p in ClientOf(t, c).got && ClientOf(t, c).got[p] == ClientOf(s, c).got[p]
    ensures ClientOf(s, c).got[p].Map? ==>
      var at := ClientOf(s, c).got[p].at;
      at in s.heap.maps && at in t.heap.maps && t.heap.maps[at] == s.heap.maps[at]
    decreases |more|
  {
    if more == [] {
      assert steps + more == steps;
      ReachedInv(steps, s);
      GotRead(s, c, p);
    } else {
      assert Front(steps + more) == steps + Front(more) && Last(steps + more) == Last(more);
      var u := Reached(steps + Front(more)).value;
      AnswersStay(steps, Front(more), s, u, c, p);
      ReachedInv(steps + Front(more), u);
      GotRead(u, c, p);
      KeepsStep(u, Last(more), c, p);
    }
  }

  lemma GotRead(s: State, c: ClientId, p: nat)
    requires Inv(s) && p in ClientOf(s, c).got
    ensures ClientOf(s, c).got[p].Map? ==> ClientOf(s, c).got[p].at != NAMES && ClientOf(s, c).got[p].at in s.heap.maps
  {
    assert ClientInv(s.sent, s.heap, c, ClientOf(s, c));
  }

  lemma KeepsStep(s: State, a: Step, c: ClientId, p: nat)
    requires Enabled(s, a) && Inv(s) && p in ClientOf(s, c).got
    ensures var t := Apply(s, a); p in ClientOf(t, c).got && ClientOf(t, c).got[p] == ClientOf(s, c).got[p]
    ensures SameCopies(s.heap, Apply(s, a).heap)
  {
    assert ClientInv(s.sent, s.heap, c, ClientOf(s, c));
    if a.ActorGo? {
      ChangeKeepsCopies(s.heap, s.sent[s.handled].op);
    }
  }
}
