/** Machine integers, byte strings and the packets exchanged by the front end and its nodes. */
module Common {

  datatype Option<+T> = None | Some(value: T)

  type Byte = b: nat | b < 0x100
  type UInt16 = n: nat | n < 0x1_0000
  type UInt32 = n: nat | n < 0x1_0000_0000
  type Int32 = i: int | -0x8000_0000 <= i < 0x8000_0000

  /** A std::string: any sequence of bytes. */
  type Text = seq<Byte>

  /** C++ conversion of a 32-bit value to int: two's complement. */
  function ToInt32(n: UInt32): (i: Int32)
  {
    if n < 0x8000_0000 then n else n - 0x1_0000_0000
  }

  /** C++ conversion of an int to unsigned int: modulo 2^32. */
  function ToUInt32(i: Int32): (n: UInt32)
    ensures ToInt32(n) == i
  {
    i % 0x1_0000_0000
  }

  /** C++ conversion of an int to uint16_t: modulo 2^16. */
  function ToUInt16(i: int): (n: UInt16)
  {
    i % 0x1_0000
  }

  // StartStreamingSessionResult status codes
  const LAUNCH_OK: Int32 := 0
  const LAUNCH_DUPLICATE_NAME: Int32 := 1
  const LAUNCH_PORT_UNAVAILABLE: Int32 := 2
  const LAUNCH_CRASHED: Int32 := 3

  /** The first three packets travel from the front end to a node, the others from a node to the front end. */
  datatype Packet =
    | RequestNodeInfo
    | RequestStart(user: Text, userAddress: Text, session: Text, port: Int32)
    | RequestClose(user: Text, session: Text)
    | NodeInfo(publicAddress: Text, slots: seq<(Int32, Int32)>)
    | StartResult(user: Text, session: Text, status: Int32)
    | CloseResult(user: Text, session: Text, status: Int32)
}
