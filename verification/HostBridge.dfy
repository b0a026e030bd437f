/**
 The bridge inside the system: the calls of cells, the kernel that writes their requests and takes the
 replies, and the project's own client, which answers them.  A cell's host requests are the bridge's, so
 here they come from `Ship` alone.
 */
module HostBridge {
  import opened Prelude
  import opened Frames
  import H = Host
  import C = HostCalls
  import K = Kernel
  import B = Bridge
  import L = BridgeCalls

  datatype Joint = Joint(h: H.Sys, b: L.State)

  const INIT := Joint(H.INIT, L.INIT)

  datatype Step =
    | Plain(a: H.Step)         // client and kernel, where no host request is written, read or answered
    | Ship(id: Id, e: Event)   // Call writes its frame
    | Serve(r: B.Reply)        // the client reads a request and sends its reply
    | Route(id: Id)            // dispatch takes a reply and hands it to Resolve
    | Calls(c: L.Step)         // the calls themselves, and the registry

  function Written(e: Event): H.Step {
    H.Inside(K.Outside(K.Background(e)))
  }

  function Taken(id: Id): H.Step {
    H.Inside(K.Read(K.Take(HostReply(id))))
  }

  /** The step writes a host request, reads one, or takes a reply. */
  predicate Crosses(h: H.Sys, a: H.Step) {
    match a
    case Inside(Outside(Background(e))) => e.kind == HostRequest
    case Inside(Run(Emit)) => h.k.exec.Running? && h.k.exec.at < |h.k.exec.script| && h.k.exec.script[h.k.exec.at].kind == HostRequest
    case Inside(Read(Take(f))) => f.HostReply?
    case ReadEvent => h.c.read < |h.k.wire.out| && h.k.wire.out[h.c.read].kind == HostRequest
    case _ => false
  }

  predicate Alone(c: L.Step) {
    !c.Ship? && !c.HostSends? && !c.Route?
  }

  ghost predicate Enabled(s: Joint, a: Step) {
    match a
    case Plain(a) => H.Enabled(s.h, a) && !Crosses(s.h, a)
    case Ship(id, e) => e.kind == HostRequest && e.id == Some(id) && L.Enabled(s.b, L.Ship(id))
    case Serve(_) => H.Enabled(s.h, H.ReadEvent) && s.h.k.wire.out[s.h.c.read].kind == HostRequest
    case Route(id) => H.Enabled(s.h, Taken(id)) && L.Enabled(s.b, L.Route)
    case Calls(c) => Alone(c) && L.Enabled(s.b, c)
  }

  ghost function Apply(s: Joint, a: Step): Joint
    requires Enabled(s, a)
  {
    match a
    case Plain(a) => s.(h := H.Apply(s.h, a))
    case Ship(id, e) => Joint(H.Apply(s.h, Written(e)), L.Apply(s.b, L.Ship(id)))
    case Serve(r) =>
      Joint(H.Apply(s.h, H.ReadEvent), L.Apply(s.b, L.HostSends(IdString(s.h.k.wire.out[s.h.c.read]), r)))
    case Route(id) => Joint(H.Apply(s.h, Taken(id)), L.Apply(s.b, L.Route))
    case Calls(c) => s.(b := L.Apply(s.b, c))
  }

  ghost function Reached(steps: seq<Step>): Option<Joint> {
    if steps == [] then Some(INIT)
    else match Reached(Front(steps))
      case None => None
      case Some(s) => if Enabled(s, Last(steps)) then Some(Apply(s, Last(steps))) else None
  }

  // ----- Each half by itself ----------------------------------------------------------------------------

  lemma HostHalf(s: Joint, a: Step)
    requires Enabled(s, a) && H.Reachable(s.h)
    ensures H.Reachable(Apply(s, a).h)
  {
    match a
    case Plain(a) => HostStep(s.h, a);
    case Ship(_, e) => HostStep(s.h, Written(e));
    case Serve(_) => HostStep(s.h, H.ReadEvent);
    case Route(id) => HostStep(s.h, Taken(id));
    case Calls(_) =>
  }

  lemma HostStep(h: H.Sys, a: H.Step)
    requires H.Enabled(h, a) && H.Reachable(h)
    ensures H.Reachable(H.Apply(h, a))
  {
    var steps :| H.Reached(steps) == Some(h);
    assert Front(steps + [a]) == steps && Last(steps + [a]) == a;
    assert H.Reached(steps + [a]) == Some(H.Apply(h, a));
  }

  lemma CallsHalf(s: Joint, a: Step)
    requires Enabled(s, a) && L.Reachable(s.b)
    ensures L.Reachable(Apply(s, a).b)
  {
    match a
    case Plain(_) =>
    case Ship(id, _) => CallsStep(s.b, L.Ship(id));
    case Serve(r) => CallsStep(s.b, L.HostSends(IdString(s.h.k.wire.out[s.h.c.read]), r));
    case Route(_) => CallsStep(s.b, L.Route);
    case Calls(c) => CallsStep(s.b, c);
  }

  lemma CallsStep(b: L.State, c: L.Step)
    requires L.Enabled(b, c) && L.Reachable(b)
    ensures L.Reachable(L.Apply(b, c))
  {
    var steps :| L.Reached(steps) == Some(b);
    assert Front(steps + [c]) == steps && Last(steps + [c]) == c;
    assert L.Reached(steps + [c]) == Some(L.Apply(b, c));
  }

  // ----- What joins them --------------------------------------------------------------------------------------

  /** The ids of the host requests in a stretch of wire. */
  function Requests(w: seq<Event>): seq<Id> {
    if w == [] then [] else Requests(Front(w)) + if Last(w).kind == HostRequest then [IdString(Last(w))] else []
  }

  /** The ids of the replies among the lines sent. */
  function Replies(lines: seq<Frame>): seq<Id> {
    if lines == [] then [] else Replies(Front(lines)) + if Last(lines).HostReply? then [Last(lines).id] else []
  }

  function Ids(inbox: seq<(Id, B.Reply)>): seq<Id> {
    if inbox == [] then [] else Ids(Front(inbox)) + [Last(inbox).0]
  }

  function Resolved(cmds: seq<B.Cmd>): seq<Id> {
    if cmds == [] then [] else Resolved(Front(cmds)) + if Last(cmds).Resolve? then [Last(cmds).id] else []
  }

  /** Requests on the wire are those shipped, each once. */
  ghost predicate WireOk(out: seq<Event>, b: L.State) {
    && NoDuplicates(Requests(out))
    && (forall k :: 0 <= k < |out| && out[k].kind == HostRequest ==> out[k].id.Some?)
    && (forall id :: id in Requests(out) <==> id in b.host.wire)
    && (forall id :: id in b.host.wire ==> id in b.calls && !b.calls[id].stage.Shipping?)
  }

  /** The client has answered the requests it read, in order, each once; the replies are on their way. */
  ghost predicate InboxOk(s: Joint) {
    && s.h.c.read <= |s.h.k.wire.out|
    && Ids(s.b.host.inbox) == Requests(s.h.k.wire.out[..s.h.c.read])
    && Ids(s.b.host.inbox) == Replies(s.h.c.lines)
    && !s.b.host.guessed
  }

  /** The replies taken from the input are those routed to the registry. */
  ghost predicate RoutedOk(i: K.Stdin, b: L.State) {
    && i.taken <= |i.fed| && b.host.routed <= |b.host.inbox|
    && Ids(b.host.inbox[..b.host.routed]) == Replies(i.fed[..i.taken])
    && Resolved(b.cmds.sent) == Ids(b.host.inbox[..b.host.routed])
  }

  ghost predicate Inv(s: Joint) {
    && C.Wired(s.h)
    && WireOk(s.h.k.wire.out, s.b) && InboxOk(s) && RoutedOk(s.h.k.stdin, s.b)
  }

  lemma RequestsSnoc(w: seq<Event>, e: Event)
    ensures Requests(w + [e]) == Requests(w) + if e.kind == HostRequest then [IdString(e)] else []
  {
    assert Front(w + [e]) == w;
  }

  lemma RepliesSnoc(lines: seq<Frame>, f: Frame)
    ensures Replies(lines + [f]) == Replies(lines) + if f.HostReply? then [f.id] else []
  {
    assert Front(lines + [f]) == lines;
  }

  lemma IdsSnoc(inbox: seq<(Id, B.Reply)>, m: (Id, B.Reply))
    ensures Ids(inbox + [m]) == Ids(inbox) + [m.0]
  {
    assert Front(inbox + [m]) == inbox;
  }

  lemma ResolvedSnoc(cmds: seq<B.Cmd>, c: B.Cmd)
    ensures Resolved(cmds + [c]) == Resolved(cmds) + if c.Resolve? then [c.id] else []
  {
    assert Front(cmds + [c]) == cmds;
  }

  lemma {:induction false} IdsAt(inbox: seq<(Id, B.Reply)>)
    ensures |Ids(inbox)| == |inbox| && forall k :: 0 <= k < |inbox| ==> Ids(inbox)[k] == inbox[k].0
  {
    if inbox == [] {
    } else {
      IdsAt(Front(inbox));
    }
  }

  lemma {:induction false} RepliesPrefix(lines: seq<Frame>, k: nat)
    requires k <= |lines|
    ensures |Replies(lines[..k])| <= |Replies(lines)| && Replies(lines[..k]) == Replies(lines)[..|Replies(lines[..k])|]
    decreases |lines| - k
  {
    if k == |lines| {
      assert lines[..k] == lines;
    } else {
      RepliesPrefix(lines, k + 1);
      assert lines[..k + 1] == lines[..k] + [lines[k]];
      RepliesSnoc(lines[..k], lines[k]);
    }
  }

  // ----- Steps of the wire ----------------------------------------------------------------------------------------

  /** What a step adds to the wire that is not a host request changes nothing here. */
  lemma OtherEvents(w: seq<Event>, more: seq<Event>)
    requires |more| <= 1 && forall k :: 0 <= k < |more| ==> more[k].kind != HostRequest
    ensures Requests(w + more) == Requests(w)
  {
    if more == [] {
      JoinsNothing(w);
    } else {
      assert more == [more[0]];
      RequestsSnoc(w, more[0]);
      JoinsNothing(Requests(w));
    }
  }

  /** A kernel step writes at most one event. */
  lemma WritesOne(k: K.State, a: K.Step) returns (more: seq<Event>)
    requires K.Enabled(k, a)
    ensures K.Apply(k, a).wire.out == k.wire.out + more && |more| <= 1
    ensures more != [] && more[0].kind == HostRequest ==>
      || (a.Outside? && a.o.Background? && a.o.e == more[0])
      || (a == K.Run(K.Emit) && k.exec.script[k.exec.at] == more[0])
  {
    var out := K.Apply(k, a).wire.out;
    more := out[|k.wire.out|..];
  }

  /** A step that crosses nothing keeps requests, replies and what was taken of them. */
  lemma PlainStep(h: H.Sys, a: H.Step)
    requires H.Enabled(h, a) && !Crosses(h, a) && C.Wired(h) && C.Wired(H.Apply(h, a)) && h.k.stdin.taken <= |h.k.stdin.fed|
    ensures var g := H.Apply(h, a);
      && Requests(g.k.wire.out) == Requests(h.k.wire.out)
      && Requests(g.k.wire.out[..g.c.read]) == Requests(h.k.wire.out[..h.c.read])
      && (forall k :: 0 <= k < |g.k.wire.out| && g.k.wire.out[k].kind == HostRequest ==> k < |h.k.wire.out| && g.k.wire.out[k] == h.k.wire.out[k])
  {
    if a.Inside? || a.Pump? {
      KernelWrites(h, a);
    } else if a.ReadEvent? {
      assert h.k.wire.out[..h.c.read + 1] == h.k.wire.out[..h.c.read] + [h.k.wire.out[h.c.read]];
      RequestsSnoc(h.k.wire.out[..h.c.read], h.k.wire.out[h.c.read]);
      JoinsNothing(Requests(h.k.wire.out[..h.c.read]));
    }
  }

  lemma KernelWrites(h: H.Sys, a: H.Step)
    requires H.Enabled(h, a) && !Crosses(h, a) && h.c.read <= |h.k.wire.out| && (a.Inside? || a.Pump?)
    ensures var out, now := h.k.wire.out, H.Apply(h, a).k.wire.out;
      && H.Apply(h, a).c.read == h.c.read <= |now|
      && Requests(now) == Requests(out) && now[..h.c.read] == out[..h.c.read]
      && (forall k :: 0 <= k < |now| && now[k].kind == HostRequest ==> k < |out| && now[k] == out[k])
  {
    var b := if a.Inside? then a.a else K.Outside(K.Feed(h.c.lines[h.c.pumped]));
    var more := WritesOne(h.k, b);
    OtherEvents(h.k.wire.out, more);
    assert (h.k.wire.out + more)[..h.c.read] == h.k.wire.out[..h.c.read];
  }

  /** Nor does it send a reply or take one. */
  lemma PlainLines(h: H.Sys, a: H.Step)
    requires H.Enabled(h, a) && !Crosses(h, a)
    ensures Replies(H.Apply(h, a).c.lines) == Replies(h.c.lines)
  {
    var lines, now := h.c.lines, H.Apply(h, a).c.lines;
    if now != lines {
      var f := Last(now);
      assert now == lines + [f];
      RepliesSnoc(lines, f);
      JoinsNothing(Replies(lines));
    }
  }

  lemma PlainTaken(h: H.Sys, a: H.Step)
    requires H.Enabled(h, a) && !Crosses(h, a) && h.k.stdin.taken <= |h.k.stdin.fed|
    ensures var i, j := h.k.stdin, H.Apply(h, a).k.stdin;
      j.taken <= |j.fed| && Replies(j.fed[..j.taken]) == Replies(i.fed[..i.taken])
  {
    var i, j := h.k.stdin, H.Apply(h, a).k.stdin;
    if j.taken != i.taken {
      assert j.fed[..j.taken] == i.fed[..i.taken] + [i.fed[i.taken]];
      RepliesSnoc(i.fed[..i.taken], i.fed[i.taken]);
      JoinsNothing(Replies(i.fed[..i.taken]));
    } else {
      assert j.fed[..j.taken] == i.fed[..i.taken];
    }
  }

  lemma PlainInv(s: Joint, a: H.Step)
    requires Inv(s) && Enabled(s, Plain(a)) && C.Wired(H.Apply(s.h, a))
    ensures Inv(Apply(s, Plain(a)))
  {
    PlainStep(s.h, a);
    PlainLines(s.h, a);
    PlainTaken(s.h, a);
  }

  /** A call ships its request, once. */
  lemma ShipInv(s: Joint, id: Id, e: Event)
    requires Inv(s) && Enabled(s, Ship(id, e))
    ensures Inv(Apply(s, Ship(id, e)))
  {
    ShipWire(s.h.k.wire.out, s.b, id, e);
    ShipRest(s, id, e);
  }

  /** Nothing else moves. */
  lemma ShipRest(s: Joint, id: Id, e: Event)
    requires C.Wired(s.h) && InboxOk(s) && RoutedOk(s.h.k.stdin, s.b) && Enabled(s, Ship(id, e))
    ensures var t := Apply(s, Ship(id, e));
      && t.h.k.wire.out == s.h.k.wire.out + [e] && t.b == L.Apply(s.b, L.Ship(id))
      && C.Wired(t.h) && InboxOk(t) && RoutedOk(t.h.k.stdin, t.b)
  {
    var t, out := Apply(s, Ship(id, e)), s.h.k.wire.out;
    assert t.h.k.wire.out == out + [e];
    assert t.h.k.wire.out[..s.h.c.read] == out[..s.h.c.read];
  }

  lemma ShipWire(out: seq<Event>, b: L.State, id: Id, e: Event)
    requires WireOk(out, b) && L.Enabled(b, L.Ship(id)) && e.kind == HostRequest && e.id == Some(id)
    ensures WireOk(out + [e], L.Apply(b, L.Ship(id)))
  {
    RequestsSnoc(out, e);
    assert id !in b.host.wire;
    Fresh(Requests(out), id);
  }

  lemma Fresh(xs: seq<Id>, x: Id)
    requires NoDuplicates(xs) && x !in xs
    ensures NoDuplicates(xs + [x])
  {
  }

  /** The client reads a request it has not read before, and answers it. */
  lemma ServeInv(s: Joint, r: B.Reply)
    requires Inv(s) && Enabled(s, Serve(r))
    ensures Inv(Apply(s, Serve(r)))
  {
    ServeInbox(s, r);
    ServeRest(s, r);
  }

  /** Nothing else moves. */
  lemma ServeRest(s: Joint, r: B.Reply)
    requires C.Wired(s.h) && WireOk(s.h.k.wire.out, s.b) && RoutedOk(s.h.k.stdin, s.b) && Enabled(s, Serve(r))
    ensures var t := Apply(s, Serve(r));
      C.Wired(t.h) && WireOk(t.h.k.wire.out, t.b) && RoutedOk(t.h.k.stdin, t.b)
  {
    var t := Apply(s, Serve(r));
    assert t.h.k == s.h.k && t.b.cmds == s.b.cmds && t.b.calls == s.b.calls && t.b.host.wire == s.b.host.wire;
    assert t.b.host.inbox[..s.b.host.routed] == s.b.host.inbox[..s.b.host.routed];
    assert t.h.c.lines[..t.h.c.pumped] == s.h.c.lines[..s.h.c.pumped];
  }

  lemma ServeInbox(s: Joint, r: B.Reply)
    requires InboxOk(s) && WireOk(s.h.k.wire.out, s.b) && Enabled(s, Serve(r))
    ensures InboxOk(Apply(s, Serve(r)))
    ensures Apply(s, Serve(r)).h.c.lines == s.h.c.lines + [HostReply(IdString(s.h.k.wire.out[s.h.c.read]))]
  {
    var out, n := s.h.k.wire.out, s.h.c.read;
    var e := out[n];
    assert out[..n + 1] == out[..n] + [e];
    RequestsSnoc(out[..n], e);
    RequestHas(out, n);
    RepliesSnoc(s.h.c.lines, HostReply(IdString(e)));
    IdsSnoc(s.b.host.inbox, (IdString(e), r));
  }

  lemma {:induction false} RequestHas(out: seq<Event>, n: nat)
    requires n < |out| && out[n].kind == HostRequest
    ensures IdString(out[n]) in Requests(out)
  {
    if n == |out| - 1 {
    } else {
      RequestHas(Front(out), n);
    }
  }

  /** The reply the reader takes is the next one in line. */
  lemma NextReply(s: Joint, id: Id)
    requires Inv(s) && H.Enabled(s.h, Taken(id))
    ensures s.b.host.routed < |s.b.host.inbox| && s.b.host.inbox[s.b.host.routed].0 == id
  {
    var i, n := s.h.k.stdin, s.b.host.routed;
    assert i.fed[..i.taken + 1] == i.fed[..i.taken] + [HostReply(id)];
    RepliesSnoc(i.fed[..i.taken], HostReply(id));
    assert i.fed[..i.taken + 1] == s.h.c.lines[..i.taken + 1];
    RepliesPrefix(s.h.c.lines, i.taken + 1);
    IdsAt(s.b.host.inbox);
    IdsAt(s.b.host.inbox[..n]);
    assert Replies(i.fed[..i.taken + 1])[n] == id;
  }

  lemma RouteInv(s: Joint, id: Id)
    requires Inv(s) && Enabled(s, Route(id))
    ensures Inv(Apply(s, Route(id)))
  {
    NextReply(s, id);
    RouteRouted(s.h.k.stdin, s.b, id);
    RouteRest(s, id);
  }

  lemma RouteRouted(i: K.Stdin, b: L.State, id: Id)
    requires RoutedOk(i, b) && L.Enabled(b, L.Route) && b.host.inbox[b.host.routed].0 == id
    requires i.taken < |i.fed| && i.fed[i.taken] == HostReply(id)
    ensures RoutedOk(i.(taken := i.taken + 1), L.Apply(b, L.Route))
  {
    var n, inbox := b.host.routed, b.host.inbox;
    assert i.fed[..i.taken + 1] == i.fed[..i.taken] + [HostReply(id)];
    RepliesSnoc(i.fed[..i.taken], HostReply(id));
    assert inbox[..n + 1] == inbox[..n] + [inbox[n]];
    IdsSnoc(inbox[..n], inbox[n]);
    ResolvedSnoc(b.cmds.sent, B.Resolve(inbox[n].0, inbox[n].1));
  }

  lemma RouteRest(s: Joint, id: Id)
    requires C.Wired(s.h) && InboxOk(s) && WireOk(s.h.k.wire.out, s.b) && Enabled(s, Route(id))
    ensures var t := Apply(s, Route(id));
      && C.Wired(t.h) && InboxOk(t) && WireOk(t.h.k.wire.out, t.b)
      && t.h.k.stdin == s.h.k.stdin.(taken := s.h.k.stdin.taken + 1) && t.b == L.Apply(s.b, L.Route)
  {
  }

  lemma CallsInv(s: Joint, c: L.Step)
    requires Inv(s) && L.Inv(s.b) && Enabled(s, Calls(c))
    ensures Inv(Apply(s, Calls(c)))
  {
    var t := Apply(s, Calls(c));
    if t.b.cmds.sent != s.b.cmds.sent {
      var d := Last(t.b.cmds.sent);
      assert t.b.cmds.sent == s.b.cmds.sent + [d];
      ResolvedSnoc(s.b.cmds.sent, d);
      JoinsNothing(Resolved(s.b.cmds.sent));
    }
  }

  lemma {:induction false} ReachedJoint(steps: seq<Step>, s: Joint)
    requires Reached(steps) == Some(s)
    ensures H.Reachable(s.h) && L.Reachable(s.b) && Inv(s)
  {
    if steps == [] {
      assert H.Reached([]) == Some(H.INIT) && L.Reached([]) == Some(L.INIT);
    } else {
      var p, a := Reached(Front(steps)).value, Last(steps);
      ReachedJoint(Front(steps), p);
      HostHalf(p, a);
      CallsHalf(p, a);
      C.ReachableSys(s.h);
      L.ProcessedFacts(p.b);
      match a
      case Plain(b) => PlainInv(p, b);
      case Ship(id, e) => ShipInv(p, id, e);
      case Serve(r) => ServeInv(p, r);
      case Route(id) => RouteInv(p, id);
      case Calls(c) => CallsInv(p, c);
    }
  }

  // ----- What the calls of cells get -----------------------------------------------------------------------

  /** The reader can always hand on the reply it takes. */
  lemma RouteReady(steps: seq<Step>, s: Joint, id: Id)
    requires Reached(steps) == Some(s) && H.Enabled(s.h, Taken(id))
    ensures Enabled(s, Route(id)) && s.b.host.inbox[s.b.host.routed].0 == id
  {
    ReachedJoint(steps, s);
    NextReply(s, id);
  }

  /** The client answers each host request it has read exactly once, in the order of the wire. */
  lemma AnswersEachOnce(steps: seq<Step>, s: Joint)
    requires Reached(steps) == Some(s)
    ensures s.h.c.read <= |s.h.k.wire.out|
    ensures Ids(s.b.host.inbox) == Requests(s.h.k.wire.out[..s.h.c.read]) && NoDuplicates(Ids(s.b.host.inbox))
  {
    ReachedJoint(steps, s);
    RequestsPrefix(s.h.k.wire.out, s.h.c.read);
  }

  lemma {:induction false} RequestsPrefix(w: seq<Event>, n: nat)
    requires n <= |w|
    ensures |Requests(w[..n])| <= |Requests(w)| && Requests(w[..n]) == Requests(w)[..|Requests(w[..n])|]
    decreases |w| - n
  {
    if n == |w| {
      assert w[..n] == w;
    } else {
      RequestsPrefix(w, n + 1);
      assert w[..n + 1] == w[..n] + [w[n]];
      RequestsSnoc(w[..n], w[n]);
    }
  }

  /** Among commands whose resolves name different ids there is no earlier resolve for the same id. */
  lemma {:induction false} ResolvedOnce(cmds: seq<B.Cmd>, i: nat, j: nat)
    requires NoDuplicates(Resolved(cmds)) && i < j < |cmds| && cmds[i].Resolve? && cmds[j].Resolve?
    ensures cmds[i].id != cmds[j].id
  {
    var p, c := Front(cmds), Last(cmds);
    if j == |cmds| - 1 {
      ResolvedHas(p, i);
      var k :| 0 <= k < |Resolved(p)| && Resolved(p)[k] == cmds[i].id;
      assert Resolved(cmds)[k] == cmds[i].id && Resolved(cmds)[|Resolved(p)|] == c.id;
    } else {
      assert forall k :: 0 <= k < |Resolved(p)| ==> Resolved(cmds)[k] == Resolved(p)[k];
      ResolvedOnce(p, i, j);
    }
  }

  lemma {:induction false} ResolvedHas(cmds: seq<B.Cmd>, i: nat)
    requires i < |cmds| && cmds[i].Resolve?
    ensures cmds[i].id in Resolved(cmds)
  {
    if i == |cmds| - 1 {
    } else {
      ResolvedHas(Front(cmds), i);
    }
  }

  /** With the project's own client no reply is lost, and none is too many: every reply the registry has come
      to, for a call not dropped before it, is in that call's channel, alone and for good. */
  lemma EveryReplyArrives(steps: seq<Step>, s: Joint, j: nat)
    requires Reached(steps) == Some(s)
    requires j < |L.Processed(s.b.cmds)| && L.Processed(s.b.cmds)[j].Resolve?
    requires B.Drop(L.Processed(s.b.cmds)[j].id) !in L.Processed(s.b.cmds)[..j]
    ensures L.Processed(s.b.cmds)[j].id in s.b.calls
    ensures L.Inbox(s.b, L.Processed(s.b.cmds)[j].id) == [L.Processed(s.b.cmds)[j].r]
  {
    ReachedJoint(steps, s);
    ResolvesDiffer(steps, s);
    var h, sent := L.Processed(s.b.cmds), s.b.cmds.sent;
    forall i | 0 <= i < j && h[i].Resolve? ensures h[i].id != h[j].id {
      assert sent[i] == h[i] && sent[j] == h[j];
      ResolvedOnce(sent, i, j);
    }
    L.NoReplyIsLost(s.b, j);
  }

  lemma ResolvesDiffer(steps: seq<Step>, s: Joint)
    requires Reached(steps) == Some(s)
    ensures NoDuplicates(Resolved(s.b.cmds.sent))
  {
    ReachedJoint(steps, s);
    AnswersEachOnce(steps, s);
    IdsAt(s.b.host.inbox);
    IdsAt(s.b.host.inbox[..s.b.host.routed]);
  }
}
