/** The bytes of every packet class on the wire, written out. */
module WireFormat {
  import opened Common
  import opened Bytes
  import opened Slots
  import opened Codec
  import B = ByteBuffer

  /** The length in two bytes, low byte first, and the characters. */
  function TextBytes(t: Text): seq<Byte> {
    [|t| % 0x100, (|t| / 0x100) % 0x100] + t
  }

  /** Four bytes in two's complement, low byte first. */
  function IntBytes(i: Int32): seq<Byte> {
    [i % 0x100, (i / 0x100) % 0x100, (i / 0x1_0000) % 0x100, (i / 0x100_0000) % 0x100]
  }

  /** Opcode, content length in two bytes, low byte first, content. */
  function Framed(opcode: Byte, content: seq<Byte>): seq<Byte> {
    [opcode, |content| % 0x100, (|content| / 0x100) % 0x100] + content
  }

  /** Port and flag of every entry. */
  function EntryBytes(l: Listing): seq<Byte> {
    if l == [] then [] else IntBytes(l[0].0) + IntBytes(l[0].1) + EntryBytes(l[1..])
  }

  lemma Encodings(t: Text, i: Int32)
    ensures EncodeText(t) == TextBytes(t) && EncodeInt(i) == IntBytes(i)
  {
    B.LittleTwo(|t|);
    B.LittleFour(i);
  }

  lemma FrameIs(p: Packet, opcode: Byte, content: seq<Byte>)
    requires Opcode(p) == opcode && Encode(p) == content
    ensures Frame(p) == Framed(opcode, content)
  {
    B.LittleTwo(|content|);
  }

  lemma {:induction false} EntriesAre(l: Listing)
    ensures Concat(SlotFields(l)) == EntryBytes(l)
  {
    if l != [] {
      SlotsStep(l);
      Encodings([], l[0].0);
      Encodings([], l[0].1);
      EntriesAre(l[1..]);
    }
  }

  /** The three packets a node receives. */
  lemma NodePackets(u: Text, a: Text, s: Text, port: Int32)
    ensures Frame(RequestNodeInfo) == [0, 0, 0]
    ensures Frame(RequestStart(u, a, s, port))
         == Framed(1, TextBytes(u) + (TextBytes(a) + (TextBytes(s) + IntBytes(port))))
    ensures Frame(RequestClose(u, s)) == Framed(2, TextBytes(u) + TextBytes(s))
  {
    Encodings(u, port);
    Encodings(a, port);
    Encodings(s, port);
    ConcatFour(TextBytes(u), TextBytes(a), TextBytes(s), IntBytes(port));
    ConcatTwo(TextBytes(u), TextBytes(s), []);
    assert [TextBytes(u), TextBytes(s)] + [] == [TextBytes(u), TextBytes(s)];
    FrameIs(RequestNodeInfo, 0, []);
    FrameIs(RequestStart(u, a, s, port), 1, TextBytes(u) + (TextBytes(a) + (TextBytes(s) + IntBytes(port))));
    FrameIs(RequestClose(u, s), 2, TextBytes(u) + TextBytes(s));
  }

  /** The three packets the front end receives. */
  lemma FrontEndPackets(u: Text, s: Text, status: Int32, l: Listing)
    requires |l| < 0x8000_0000
    ensures Frame(NodeInfo(u, l)) == Framed(0, TextBytes(u) + (IntBytes(|l|) + EntryBytes(l)))
    ensures Frame(StartResult(u, s, status)) == Framed(1, TextBytes(u) + (TextBytes(s) + IntBytes(status)))
    ensures Frame(CloseResult(u, s, status)) == Framed(2, TextBytes(u) + (TextBytes(s) + IntBytes(status)))
  {
    Encodings(u, status);
    Encodings(s, |l|);
    ConcatThree(TextBytes(u), TextBytes(s), IntBytes(status));
    ConcatTwo(TextBytes(u), IntBytes(|l|), SlotFields(l));
    EntriesAre(l);
    FrameIs(NodeInfo(u, l), 0, TextBytes(u) + (IntBytes(|l|) + EntryBytes(l)));
    FrameIs(StartResult(u, s, status), 1, TextBytes(u) + (TextBytes(s) + IntBytes(status)));
    FrameIs(CloseResult(u, s, status), 2, TextBytes(u) + (TextBytes(s) + IntBytes(status)));
  }
}
