/** Wire frames (rlm/frames.go): requests into the kernel, events out of it. */
module Frames {
  import opened Prelude

  datatype EventKind = Ready | Stdout | Stderr | Result | Display | HostRequest | Error | Done | Other(name: string)

  /** `id` is None for a JSON null.  `ename`/`evalue` belong to errors, `status` to dones. */
  datatype Event = Event(
    kind: EventKind, id: Option<Id>, text: string, ename: string, evalue: string, status: string)

  const STATUS_OK := "ok"
  const STATUS_ERROR := "error"
  const ENAME_PROTOCOL := "ProtocolError"
  const ENAME_KEYBOARD := "KeyboardInterrupt"
  const ENAME_CELL_ERROR := "Error"

  function DoneEvent(id: Id, status: string): Event {
    Event(Done, Some(id), "", "", "", status)
  }

  function ErrorEvent(id: Option<Id>, ename: string, evalue: string): Event {
    Event(Error, id, "", ename, evalue, "")
  }

  function TextEvent(kind: EventKind, id: Id, text: string): Event {
    Event(kind, Some(id), text, "", "", "")
  }

  /** The kinds in the protocol's table; everything else is refused by Writer.Write. */
  predicate Valid(e: Event) {
    !e.kind.Other?
  }

  /** The id a frame is attributed to, "" when there is none. */
  function IdString(e: Event): Id {
    match e.id
    case None => ""
    case Some(id) => id
  }

  /** The requests that go through the executor's queue, whatever their type says. */
  datatype Ask = Execute | ListNames | Snapshot | Restore | Unknown(name: string)

  /** A non-empty line on the kernel's stdin, as `readAll` and `dispatch` tell them apart. */
  datatype Frame =
    | Malformed
    | Interrupt(id: Id)
    | HostReply(id: Id)
    | Shutdown(id: Id)
    | Request(ask: Ask, id: Id)
}
