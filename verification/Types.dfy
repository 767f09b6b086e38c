/** Types shared by the sender and the receiver. */
module Types {
  datatype Option<+T> = None | Some(value: T)

  /** A value, or the exception the source throws instead. */
  datatype Result<+T, +E> = Ok(value: T) | Err(error: E)

  /** One more than the largest 64-bit number. */
  const TWO_TO_THE_64: nat := 0x1_0000_0000_0000_0000

  newtype Byte = x: int | 0 <= x < 256

  type Payload = seq<Byte>

  /** A packet of audio: the number of its first byte, and its bytes. Ids do not wrap. */
  datatype Message = Message(id: nat, data: Payload)

  /** A packet on the wire, under the session of the sender that sent it. */
  datatype Datagram = Datagram(session: nat, msg: Message)
}
