/** One key of a NATS key-value bucket. */
module NatsBucket {
  import opened Bytes

  /** The latest message under the key; deletion leaves a marker with a revision. */
  datatype Slot = Absent | Marker(rev: nat) | Entry(rev: nat, body: bytes, written: int)

  function Rev(slot: Slot): nat {
    if slot.Absent? then 0 else slot.rev
  }
}
