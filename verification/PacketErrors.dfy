module PacketErrors {
  /** `PacketError`. `SliceOutOfRange` is not a value of the source: it marks where a slice would panic. */
  datatype PacketError =
    | BufferTooSmall
    | IncompletePacket
    | MalformedPacket
    | InvalidPacketType(packetType: int)
    | InvalidUtf8String
    | TooManyProperties
    | BatchCapacityExceeded
    | PayloadTooLarge
    | SliceOutOfRange
}
