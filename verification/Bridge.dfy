/**
 The host bridge (rlm/harness.go): any number of concurrent calls, one registry actor that owns
 the map from call ids to reply channels, the reader that routes replies, and a host that may
 answer anything, any number of times.
 */
module Bridge {
  import opened Prelude

  datatype Reply = Reply(status: string, result: string, error: string)

  /** A reply channel of capacity one; each call makes its own. */
  type Chan = nat

  datatype Cmd = Register(id: Id, ch: Chan) | Resolve(id: Id, r: Reply) | Drop(id: Id)

  /** `got` is everything ever sent on a channel. */
  datatype Registry = Registry(pending: map<Id, Chan>, got: map<Chan, seq<Reply>>)

  function Got(g: Registry, ch: Chan): seq<Reply> {
    if ch in g.got then g.got[ch] else []
  }

  function Handle(g: Registry, c: Cmd): Registry {
    match c
    case Register(id, ch) => g.(pending := g.pending[id := ch])
    case Resolve(id, r) =>
      if id in g.pending then
        Registry(g.pending - {id}, g.got[g.pending[id] := Got(g, g.pending[id]) + [r]])
      else g
    case Drop(id) => g.(pending := g.pending - {id})
  }

  function After(h: seq<Cmd>): Registry {
    if h == [] then Registry(map[], map[]) else Handle(After(Front(h)), Last(h))
  }

  // ----- The registry actor --------------------------------------------------------------------

  /** A channel of capacity one, with a number of its own: sending into a full one would block the
      registry. */
  class ReplyChan {
    const n: Chan
    var buf: seq<Reply>

    constructor (n: Chan)
      ensures buf == [] && this.n == n
    {
      this.n, buf := n, [];
    }

    method Send(r: Reply)
      requires |buf| < 1
      modifies this
      ensures buf == old(buf) + [r]
    {
      buf := buf + [r];
    }
  }

  /** The actor.  `model` is the registry as the history of its commands says it is: every command
      takes it one step of `Handle` further. */
  class RegistryActor {
    var pending: map<Id, ReplyChan>
    ghost var model: Registry

    /** The map is the model's, the channels in it are empty, and no two calls share one. */
    ghost predicate Valid()
      reads this, pending.Values
    {
      && pending.Keys == model.pending.Keys
      && (forall id :: id in pending ==> pending[id].n == model.pending[id])
      && (forall id :: id in pending ==> pending[id].buf == [] && Got(model, pending[id].n) == [])
      && (forall x, y :: x in pending && y in pending && pending[x].n == pending[y].n ==> x == y)
    }

    constructor ()
      ensures Valid() && model == After([])
    {
      pending, model := map[], After([]);
    }

    method Register(id: Id, ch: ReplyChan)
      requires Valid() && ch.buf == [] && Got(model, ch.n) == []
      requires forall x :: x in pending ==> pending[x].n != ch.n
      modifies this
      ensures Valid() && model == Handle(old(model), Cmd.Register(id, ch.n))
      ensures pending == old(pending)[id := ch]
    {
      pending := pending[id := ch];
      model := Handle(model, Cmd.Register(id, ch.n));
    }

    /** A reply goes into the channel of the call it names, and nowhere else; it never blocks. */
    method Resolve(id: Id, r: Reply)
      requires Valid()
      modifies this, if id in pending then {pending[id]} else {}
      ensures Valid() && model == Handle(old(model), Cmd.Resolve(id, r))
      ensures pending == old(pending) - {id}
      ensures forall x :: x in old(pending) ==> old(pending)[x].buf == if x == id then [r] else []
      ensures forall x :: x in old(pending) ==> old(pending)[x].buf == Got(model, old(pending)[x].n)
    {
      if id in pending {
        var ch := pending[id];
        pending := pending - {id};
        ch.Send(r);
      }
      model := Handle(model, Cmd.Resolve(id, r));
    }

    method Drop(id: Id)
      requires Valid()
      modifies this
      ensures Valid() && model == Handle(old(model), Cmd.Drop(id))
      ensures pending == old(pending) - {id}
    {
      pending := pending - {id};
      model := Handle(model, Cmd.Drop(id));
    }
  }

  // ----- Histories of the registry ----------------------------------------------------------------

  /** The channel a call was registered with. */
  function ChanOf(h: seq<Cmd>, id: Id): Option<Chan> {
    if h == [] then None
    else if Last(h).Register? && Last(h).id == id then Some(Last(h).ch)
    else ChanOf(Front(h), id)
  }

  ghost predicate Allowed(h: seq<Cmd>, c: Cmd) {
    match c
    case Register(id, ch) => ChanOf(h, id).None? && forall y :: ChanOf(h, y) != Some(ch)
    case Resolve(_, _) => true
    case Drop(id) => ChanOf(h, id).Some? && Drop(id) !in h
  }

  /** Ids and channels are fresh, and a call is dropped at most once, after its registration;
      replies may come at any time, for anything. */
  ghost predicate WellFormed(h: seq<Cmd>) {
    h == [] || (WellFormed(Front(h)) && Allowed(Front(h), Last(h)))
  }

  lemma Snoc(h: seq<Cmd>, c: Cmd)
    ensures After(h + [c]) == Handle(After(h), c)
    ensures forall x :: ChanOf(h + [c], x) == if c.Register? && c.id == x then Some(c.ch) else ChanOf(h, x)
    ensures forall d :: d in h + [c] <==> d in h || d == c
    ensures WellFormed(h + [c]) <==> WellFormed(h) && Allowed(h, c)
  {
    assert Front(h + [c]) == h && Last(h + [c]) == c;
  }

  ghost predicate OneEach(h: seq<Cmd>) {
    && (forall x, y :: ChanOf(h, x).Some? && ChanOf(h, x) == ChanOf(h, y) ==> x == y)
    && (forall id :: Drop(id) in h ==> ChanOf(h, id).Some?)
  }

  /** Pending are exactly the calls registered, unanswered and not dropped. */
  ghost predicate Exact(h: seq<Cmd>) {
    && (forall id :: id in After(h).pending <==>
          ChanOf(h, id).Some? && Got(After(h), ChanOf(h, id).value) == [] && Drop(id) !in h)
    && (forall id :: id in After(h).pending ==> ChanOf(h, id) == Some(After(h).pending[id]))
  }

  /** A channel gets at most one reply, and one sent for the call that owns it. */
  ghost predicate OwnReplies(h: seq<Cmd>) {
    forall ch: Chan :: Got(After(h), ch) != [] ==>
      |Got(After(h), ch)| == 1 && exists id :: ChanOf(h, id) == Some(ch) && Resolve(id, Got(After(h), ch)[0]) in h
  }

  lemma {:induction false} RegistryExact(h: seq<Cmd>)
    requires WellFormed(h)
    ensures OneEach(h) && Exact(h) && OwnReplies(h)
  {
    if h == [] {
    } else {
      var p, c := Front(h), Last(h);
      assert h == p + [c];
      RegistryExact(p);
      Snoc(p, c);
      ExactStep(p, c);
      OwnStep(p, c);
    }
  }

  lemma ExactStep(h: seq<Cmd>, c: Cmd)
    requires OneEach(h) && Exact(h) && OwnReplies(h) && Allowed(h, c)
    ensures OneEach(h + [c]) && Exact(h + [c])
  {
    Snoc(h, c);
  }

  lemma OwnStep(h: seq<Cmd>, c: Cmd)
    requires OneEach(h) && Exact(h) && OwnReplies(h) && Allowed(h, c)
    ensures OwnReplies(h + [c])
  {
    Snoc(h, c);
    var g := After(h + [c]);
    forall ch: Chan | Got(g, ch) != []
      ensures |Got(g, ch)| == 1 && exists id :: ChanOf(h + [c], id) == Some(ch) && Resolve(id, Got(g, ch)[0]) in h + [c]
    {
      var id: Id;
      if Got(After(h), ch) == Got(g, ch) {
        id :| ChanOf(h, id) == Some(ch) && Resolve(id, Got(After(h), ch)[0]) in h;
      } else {
        id := c.id;
      }
      assert ChanOf(h + [c], id) == Some(ch) && Resolve(id, Got(g, ch)[0]) in h + [c];
    }
  }

  /** What a channel got is never taken back or added to. */
  lemma {:induction false} RepliesStay(h: seq<Cmd>, more: seq<Cmd>, ch: Chan)
    requires WellFormed(h + more) && Got(After(h), ch) != []
    ensures Got(After(h + more), ch) == Got(After(h), ch)
    decreases |more|
  {
    if more == [] {
      assert h + more == h;
    } else {
      assert h + more == (h + Front(more)) + [Last(more)];
      Snoc(h + Front(more), Last(more));
      RepliesStay(h, Front(more), ch);
      RegistryExact(h + Front(more));
    }
  }

  lemma {:induction false} PrefixWellFormed(h: seq<Cmd>, more: seq<Cmd>)
    requires WellFormed(h + more)
    ensures WellFormed(h)
    ensures forall id :: ChanOf(h, id).Some? ==> ChanOf(h + more, id) == ChanOf(h, id)
    decreases |more|
  {
    if more == [] {
      assert h + more == h;
    } else {
      assert h + more == (h + Front(more)) + [Last(more)];
      Snoc(h + Front(more), Last(more));
      PrefixWellFormed(h, Front(more));
    }
  }

  /** The first reply to a registered call that has not been dropped is put into its channel, and
      stays the only one. */
  lemma {:induction false} FirstReplyIsKept(h: seq<Cmd>, j: nat)
    requires WellFormed(h) && j < |h| && h[j].Resolve? && ChanOf(h[..j], h[j].id).Some?
    requires Drop(h[j].id) !in h[..j] && forall i :: 0 <= i < j ==> !(h[i].Resolve? && h[i].id == h[j].id)
    ensures Got(After(h), ChanOf(h[..j], h[j].id).value) == [h[j].r]
  {
    var p, c, more := h[..j], h[j], h[j + 1..];
    assert h == (p + [c]) + more;
    PrefixWellFormed(p + [c], more);
    Snoc(p, c);
    RegistryExact(p);
    var ch := ChanOf(p, c.id).value;
    assert Got(After(p), ch) == [];
    RepliesStay(p + [c], more, ch);
  }
}
