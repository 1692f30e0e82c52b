/** Reply channels: Go channels of capacity one that carry a response line, or nil for "backend gone". */
module Channels {
  import opened Wrappers

  /** `Line(key, body)` is a response line whose decoded id marshals to `key`; `Gone` is the nil slice. */
  datatype Msg = Line(key: string, body: string) | Gone

  /**
   * `key` and `owner` record the request the channel was made for. `dropped` is set by a non-blocking
   * send that takes its default branch, `panicked` by a send on or a close of a closed channel.
   */
  datatype Chan = Chan(key: string, owner: nat, slot: Option<Msg>, sends: nat,
                       closed: bool, dropped: bool, panicked: bool)

  function Make(key: string, owner: nat): Chan {
    Chan(key, owner, None, 0, false, false, false)
  }

  /** `select { case ch <- m: default: }` */
  function TrySend(c: Chan, m: Msg): Chan {
    if c.closed then c.(panicked := true)
    else if c.slot.Some? then c.(dropped := true)
    else c.(slot := Some(m), sends := c.sends + 1)
  }

  function Close(c: Chan): Chan {
    if c.closed then c.(panicked := true) else c.(closed := true)
  }

  /** A receive is possible when a value waits or the channel is closed; a closed empty channel yields nil. */
  predicate CanReceive(c: Chan) {
    c.slot.Some? || c.closed
  }

  function Received(c: Chan): Msg {
    if c.slot.Some? then c.slot.value else Gone
  }

  function Taken(c: Chan): Chan {
    c.(slot := None)
  }

  /** Nothing went wrong on the channel so far, and any line in it answers the key it was made for. */
  predicate Sound(c: Chan) {
    && !c.dropped && !c.panicked && c.sends <= 1
    && (c.slot.Some? ==> c.sends == 1 && (c.slot.value.Line? ==> c.slot.value.key == c.key))
    && (c.closed ==> c.sends == 1)
  }
}
