/**
 The client's event reader (host/kernel.go): the goroutine that owns the pending map.  The
 pendings themselves are shared with the calls of Execute that wait for them.
 */
module HostActors {
  import opened Prelude
  import opened Frames
  import opened Host

  /** One in-flight execute.  `done` is its channel: closing it twice would panic. */
  class Pending {
    const id: Id
    var output: seq<string>
    var result: string
    var err: Option<Event>
    var done: bool

    constructor (id: Id)
      ensures this.id == id && Holds() == NOTHING && !done
    {
      this.id := id;
      output, result, err, done := [], "", None, false;
    }

    function Holds(): Report
      reads this
    {
      Report(output, result, err)
    }

    method Close()
      requires !done
      modifies `done
      ensures done
    {
      done := true;
    }
  }

  class EventReader {
    var pendings: map<Id, Pending>

    /** Open pendings under their own ids: no two ids share one. */
    ghost predicate Valid()
      reads this, pendings.Values
    {
      forall id :: id in pendings ==> pendings[id].id == id && !pendings[id].done
    }

    constructor ()
      ensures Valid() && pendings == map[]
    {
      pendings := map[];
    }

    method Register(p: Pending)
      requires Valid() && !p.done && p.id !in pendings
      modifies this
      ensures Valid() && pendings == old(pendings)[p.id := p]
    {
      pendings := pendings[p.id := p];
    }

    /** One event: at most the one pending it names changes, by what the event says, and a done
        event closes it and takes it out. A host request is answered on the request channel. */
    method OnEvent(e: Event) returns (sent: seq<Frame>)
      requires Valid()
      modifies this, pendings.Values
      ensures Valid()
      ensures sent == if e.kind == HostRequest && e.id.Some? then [HostReply(e.id.value)] else []
      ensures pendings == old(pendings) - (if e.kind == Done then {IdString(e)} else {})
      ensures forall id :: id in old(pendings) ==>
        var p := old(pendings)[id];
        if id == IdString(e) && e.kind != HostRequest then
          p.Holds() == Absorb(old(p.Holds()), e) && p.done == (e.kind == Done)
        else p.Holds() == old(p.Holds()) && !p.done
    {
      sent := [];
      var x := IdString(e);
      match e.kind {
        case HostRequest =>
          if e.id.Some? {
            sent := [HostReply(x)];
          }
        case Stdout =>
          if x in pendings && e.text != "" {
            pendings[x].output := pendings[x].output + [e.text];
          }
        case Stderr =>
          if x in pendings && e.text != "" {
            pendings[x].output := pendings[x].output + [e.text];
          }
        case Result =>
          if x in pendings {
            pendings[x].result := e.text;
          }
        case Error =>
          if x in pendings {
            pendings[x].err := Some(e);
          }
        case Done =>
          if x in pendings {
            var p := pendings[x];
            pendings := pendings - {x};
            p.Close();
          }
        case _ =>
      }
    }

    /** The event stream has ended: every pending left is closed, once. */
    method StreamEnd()
      requires Valid()
      modifies pendings.Values
      ensures forall id :: id in pendings ==> pendings[id].done && pendings[id].Holds() == old(pendings[id].Holds())
    {
      var left := pendings.Keys;
      while left != {}
        invariant left <= pendings.Keys
        invariant forall id :: id in pendings ==> pendings[id].id == id && pendings[id].done == (id !in left)
        invariant forall id :: id in pendings ==> pendings[id].Holds() == old(pendings[id].Holds())
        decreases |left|
      {
        var id :| id in left;
        pendings[id].Close();
        left := left - {id};
      }
    }
  }
}
