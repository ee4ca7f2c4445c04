/** Packets, as far as the data plane looks at them. */
module PacketTypes {
  import opened Words

  /** A packet: an identity, and the sequence number its metadata carries. */
  datatype Packet = Packet(id: nat, seqn: Word)

  function Least(x: nat, y: nat): (m: nat)
    ensures m <= x && m <= y && (m == x || m == y)
  {
    if x <= y then x else y
  }
}
