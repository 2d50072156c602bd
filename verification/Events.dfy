/** The event shared by the bus, the processors and the log; its metadata map is not modelled. */
module Events {
  import opened Bytes
  import opened Frames

  datatype Event = Event(
    id: nat, priority: Priority, source: nat, timestamp: nat, topic: seq<byte>, body: seq<byte>)

  /** What the handler of a topic answers. */
  datatype HandleOutcome = SUCCESS | FAIL | ALERT | DROP
}
