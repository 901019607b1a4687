/** The NodeInfo packet from a node's port table, through the buffers, into the front end's view of the node. */
module NodeInfoExchange {
  import opened Common
  import opened Bytes
  import opened Codec
  import opened Nodes
  import opened PacketHandler
  import opened Packets
  import opened Ports
  import opened Slots
  import B = ByteBuffer

  // ---------- the node: every entry of the table, in the iterator's order

  /** The listing so far: the ports already visited, each once and with its flag. */
  ghost predicate Lists(l: Listing, table: PortTable, rest: set<UInt16>) {
    && Distinct(l)
    && (forall p :: p in Listed(l) <==> p in table && p !in rest)
    && (forall i :: 0 <= i < |l| ==> PortAt(l, i) in table && table[PortAt(l, i)] == (l[i].1 > 0))
  }

  function Entry(table: PortTable, p: UInt16): (Int32, Int32)
    requires p in table
  {
    (p, if table[p] then 1 else 0)
  }

  lemma ListOne(l: Listing, table: PortTable, rest: set<UInt16>, p: UInt16)
    requires Lists(l, table, rest) && rest <= table.Keys && p in rest
    ensures Lists(l + [Entry(table, p)], table, rest - {p})
  {
    var l' := l + [Entry(table, p)];
    forall i | 0 <= i < |l| ensures PortAt(l', i) == PortAt(l, i) && PortAt(l', i) != p {
      assert PortAt(l, i) in Listed(l);
    }
    assert PortAt(l', |l|) == p;
    forall q ensures q in Listed(l') <==> q in table && q !in rest - {p} {
      if q in Listed(l) {
        var i :| 0 <= i < |l| && q == PortAt(l, i);
        assert q == PortAt(l', i);
      }
      if q in Listed(l') {
        var i :| 0 <= i < |l'| && q == PortAt(l', i);
        assert i < |l| ==> q in Listed(l);
      }
    }
  }

  lemma ListsNone(table: PortTable)
    ensures Lists([], table, table.Keys)
  {
  }

  lemma ListsAll(l: Listing, table: PortTable)
    requires Lists(l, table, {})
    ensures Enumerates(l, table) && |l| == |table|
  {
    ListedKeys(l, table);
  }

  method WriteNodeInfo(buffer: B.ByteBuffer, publicAddress: Text, table: PortTable) returns (ghost l: Listing)
    requires buffer.Valid()
    modifies buffer`used, buffer.buf
    ensures buffer.Valid() && buffer.read == old(buffer.read) && Enumerates(l, table)
    ensures buffer.Content()
         == old(buffer.Content()) + Body(NodeInfo(publicAddress, l), old(buffer.used), buffer.buf.Length)
  {
    ghost var start, cap := buffer.Content(), buffer.buf.Length;
    TableSize(table);
    var slots := |table|;
    ghost var head := [EncodeText(publicAddress), EncodeInt(slots)];
    WriteSlotsHeader(buffer, publicAddress, slots, start);
    l := [];
    var rest := table.Keys;
    ListsNone(table);
    while rest != {}
      invariant buffer.Valid() && buffer.read == old(buffer.read) && rest <= table.Keys
      invariant Lists(l, table, rest)
      invariant buffer.Content() == start + PutAll([], head + SlotFields(l), |start|, cap)
      decreases |rest|
    {
      var p :| p in rest;
      WriteSlot(buffer, Entry(table, p), start, head, l);
      ListOne(l, table, rest, p);
      l, rest := l + [Entry(table, p)], rest - {p};
    }
    ListsAll(l, table);
    NodeInfoBody(publicAddress, l, |start|, cap);
  }

  // ---------- the front end: the tracker is updated while the buffer is read

  /** The complete entries among the next n, before the bytes run out. */
  function Entries(n: int, bs: seq<Byte>): Listing
    decreases n
  {
    if n <= 0 || TakeSlot(bs).Short? then [] else [TakeSlot(bs).value] + Entries(n - 1, TakeSlot(bs).rest)
  }

  lemma {:induction false} EntriesTaken(n: int, bs: seq<Byte>)
    ensures TakeSlots(n, bs).Got? ==> TakeSlots(n, bs).value == Entries(n, bs)
    ensures TakeSlots(n, bs).Got? <==> |Entries(n, bs)| == if n > 0 then n else 0
    ensures |Entries(n, bs)| <= if n > 0 then n else 0
    decreases n
  {
    if n > 0 && TakeSlot(bs).Got? {
      EntriesTaken(n - 1, TakeSlot(bs).rest);
    }
  }

  /** readImpl on the view of the node: without enough bytes it throws half way, leaving what was updated before. */
  function Reading(s: Slots, bs: seq<Byte>): Slots {
    var address := TakeText(bs);
    if address.Short? then s
    else
      var count := TakeInt(address.rest);
      if count.Short? then s.(publicAddress := address.value)
      else
        var l := Entries(count.value, count.rest);
        Slots(address.value, ToUInt32(count.value),
              if TakeSlots(count.value, count.rest).Got? then CountUsed(l) % 0x1_0000_0000 else s.used,
              Record(s.tracker, l))
  }

  lemma RecordOne(t: Tracker, l: Listing, x: (Int32, Int32))
    ensures Record(t, l + [x]) == Record(t, l)[ToUInt32(x.0) := x.1 > 0]
    ensures CountUsed(l + [x]) == CountUsed(l) + if x.1 > 0 then 1 else 0
  {
    assert (l + [x])[..|l + [x]| - 1] == l;
  }

  /** Reading what is left of n slots after the slots l. */
  ghost predicate ReadSoFar(n: int, all: seq<Byte>, l: Listing, more: int, rest: seq<Byte>) {
    && Entries(n, all) == l + Entries(more, rest)
    && TakeSlots(n, all).Got? == TakeSlots(more, rest).Got?
    && TakeSlots(n, all).rest == TakeSlots(more, rest).rest
  }

  lemma ReadNone(n: int, all: seq<Byte>)
    ensures ReadSoFar(n, all, [], n, all)
  {
    assert [] + Entries(n, all) == Entries(n, all);
  }

  lemma ReadOne(n: int, all: seq<Byte>, l: Listing, more: int, rest: seq<Byte>, x: (Int32, Int32), next: seq<Byte>)
    requires ReadSoFar(n, all, l, more, rest) && more > 0
    requires TakeSlot(rest) == Got(x, next)
    ensures ReadSoFar(n, all, l + [x], more - 1, next)
  {
    assert l + ([x] + Entries(more - 1, next)) == (l + [x]) + Entries(more - 1, next);
  }

  lemma ReadAll(n: int, all: seq<Byte>, l: Listing, more: int, rest: seq<Byte>)
    requires ReadSoFar(n, all, l, more, rest)
    ensures more <= 0 ==> Entries(n, all) == l && TakeSlots(n, all).Got? && TakeSlots(n, all).rest == rest
    ensures more > 0 && TakeSlot(rest).Short? ==>
              Entries(n, all) == l && TakeSlots(n, all).Short? && TakeSlots(n, all).rest == TakeSlot(rest).rest
  {
    assert l + [] == l;
  }

  /** One slot more after the slots l, of which `more` are still to come; None where the bytes run out. */
  method ReadNext(buffer: B.ByteBuffer, node: VisualizationNode, ghost n: Int32, ghost all: seq<Byte>,
                  ghost l: Listing, ghost more: int, ghost before: Tracker)
    returns (usedPort: Option<bool>, ghost now: Listing)
    requires buffer.Valid() && more > 0 && ReadSoFar(n, all, l, more, buffer.Unread())
    requires node.slotTracker == Record(before, l)
    modifies buffer`read, node`slotTracker
    ensures buffer.Valid() && buffer.Content() == old(buffer.Content())
    ensures node.slotTracker == Record(before, now)
    ensures usedPort == None ==>
              now == l == Entries(n, all) && TakeSlots(n, all).Short? && TakeSlots(n, all).rest == buffer.Unread()
    ensures usedPort != None ==>
              && ReadSoFar(n, all, now, more - 1, buffer.Unread())
              && CountUsed(now) == CountUsed(l) + if usedPort.value then 1 else 0
  {
    ghost var rest := buffer.Unread();
    ReadAll(n, all, l, more, rest);
    var slot := ReadSlot(buffer);
    if slot == None {
      return None, l;
    }
    var (slotPort, flag) := slot.value;
    usedPort, now := Some(flag > 0), l + [slot.value];
    node.AddAvailablePort(ToUInt32(slotPort), flag > 0);
    RecordOne(before, l, slot.value);
    ReadOne(n, all, l, more, rest, slot.value, buffer.Unread());
  }

  method ReadSlotsInto(buffer: B.ByteBuffer, node: VisualizationNode, n: Int32) returns (ok: bool, used: nat)
    requires buffer.Valid()
    modifies buffer`read, node`slotTracker
    ensures buffer.Valid() && buffer.Content() == old(buffer.Content())
    ensures buffer.Unread() == TakeSlots(n, old(buffer.Unread())).rest
    ensures ok == TakeSlots(n, old(buffer.Unread())).Got?
    ensures node.slotTracker == Record(old(node.slotTracker), Entries(n, old(buffer.Unread())))
    ensures ok ==> used == CountUsed(Entries(n, old(buffer.Unread())))
  {
    ghost var all, l, before := buffer.Unread(), [], node.slotTracker;
    used := 0;
    var i := 0;
    ReadNone(n, all);
    while i < n
      invariant buffer.Valid() && buffer.Content() == old(buffer.Content())
      invariant ReadSoFar(n, all, l, n - i, buffer.Unread())
      invariant node.slotTracker == Record(before, l) && used == CountUsed(l)
    {
      var usedPort;
      usedPort, l := ReadNext(buffer, node, n, all, l, n - i, before);
      if usedPort == None {
        return false, used;
      }
      if usedPort.value {
        used := used + 1;
      }
      i := i + 1;
    }
    ReadAll(n, all, l, n - i, buffer.Unread());
    ok := true;
  }

  method ReadNodeInfo(buffer: B.ByteBuffer, node: VisualizationNode) returns (ok: bool)
    requires buffer.Valid()
    modifies buffer`read, node`publicAddress, node`totalSlots, node`usedSlots, node`slotTracker
    ensures buffer.Valid() && buffer.Content() == old(buffer.Content())
    ensures ok == Decode(AtFrontEnd, 0, old(buffer.Unread())).Got?
    ensures buffer.Unread() == Decode(AtFrontEnd, 0, old(buffer.Unread())).rest
    ensures node.View() == Reading(old(node.View()), old(buffer.Unread()))
  {
    var publicAddr := buffer.ReadString();
    if publicAddr == None {
      return false;
    }
    node.publicAddress := publicAddr.value;
    var totalSlots := buffer.ReadInt();
    if totalSlots == None {
      return false;
    }
    node.totalSlots := ToUInt32(totalSlots.value);
    var used;
    ok, used := ReadSlotsInto(buffer, node, totalSlots.value);
    if ok {
      node.usedSlots := used % 0x1_0000_0000;
    }
  }

  /** The view of one registered node is updated; no other view changes. */
  method ReadAt(nodes: VisualizationNodeManager, node: VisualizationNode, buffer: B.ByteBuffer,
                ghost views: map<Text, Slots>, ghost bs: seq<Byte>)
    returns (ok: bool)
    requires nodes.Addressed() && node.address in nodes.nodeList && node == nodes.nodeList[node.address]
    requires nodes.Views() == views && buffer.Valid() && buffer.Unread() == bs
    modifies buffer`read, node`publicAddress, node`totalSlots, node`usedSlots, node`slotTracker
    ensures nodes.Addressed() && buffer.Valid()
    ensures ok == Decode(AtFrontEnd, 0, bs).Got? && buffer.Unread() == Decode(AtFrontEnd, 0, bs).rest
    ensures nodes.Views() == views[node.address := Reading(views[node.address], bs)]
  {
    ghost var slots := node.View();
    assert slots == views[node.address];
    ok := ReadNodeInfo(buffer, node);
    assert node.View() == Reading(slots, bs);
    OneViewChanged(nodes, views, node.address, Reading(slots, bs));
  }

  /** The whole readImpl: the sender is registered under its address and its view is updated, no other. */
  method NodeInfoArrives(nodes: VisualizationNodeManager, clientAddress: Text, buffer: B.ByteBuffer,
                         ghost views: map<Text, Slots>, ghost bs: seq<Byte>)
    returns (ok: bool, node: VisualizationNode)
    requires nodes.Addressed() && nodes.Views() == views && buffer.Valid() && buffer.Unread() == bs
    modifies nodes`nodeList, buffer`read
    modifies if clientAddress in nodes.nodeList then {nodes.nodeList[clientAddress]} else {}
    ensures nodes.Addressed() && buffer.Valid()
    ensures ok == Decode(AtFrontEnd, 0, bs).Got? && buffer.Unread() == Decode(AtFrontEnd, 0, bs).rest
    ensures nodes.nodeList == old(nodes.nodeList)[clientAddress := node] && node.connected && node.outbox == []
    ensures nodes.Views()
         == views[clientAddress := Reading(if clientAddress in views then views[clientAddress] else NO_SLOTS, bs)]
  {
    node := nodes.RegisterOrGetNode(clientAddress);
    ghost var slots := if clientAddress in views then views[clientAddress] else NO_SLOTS;
    UpdatedTwice(views, clientAddress, slots, Reading(slots, bs));
    assert nodes.Views() == views[clientAddress := slots] && buffer.Unread() == bs;
    ok := ReadAt(nodes, node, buffer, views[clientAddress := slots], bs);
  }

  lemma UpdatedTwice(views: map<Text, Slots>, a: Text, first: Slots, second: Slots)
    ensures views[a := first][a := second] == views[a := second]
  {
  }

  // ---------- both ends together

  /** A packet that was decoded refreshes the view of its node. */
  lemma ReadingRefreshes(s: Slots, publicAddress: Text, l: Listing, rest: seq<Byte>)
    requires |Encode(NodeInfo(publicAddress, l))| < 0x1_0000
    ensures Reading(s, Encode(NodeInfo(publicAddress, l)) + rest) == Refresh(s, publicAddress, l)
  {
    var p := NodeInfo(publicAddress, l);
    var r2 := Concat(SlotFields(l)) + rest;
    SlotsLength(l);
    ConcatTwo(EncodeText(publicAddress), Little(|l|, 4), SlotFields(l));
    NodeInfoBytes(publicAddress, l, rest);
    TakeTextBack(publicAddress, EncodeInt(|l|) + r2);
    TakeIntBack(|l|, r2);
    TakeSlotsBack(l, rest);
    EntriesTaken(|l|, r2);
  }

  /** A node's table sent with enough room: the tracker agrees with it on every listed port, keeps its other entries,
      and as many slots are available as the table has unused ports. */
  lemma NodeInfoSynchronises(s: Slots, publicAddress: Text, l: Listing, table: PortTable,
                             start: nat, cap: nat, rest: seq<Byte>)
    requires Enumerates(l, table) && cap <= 0x1_0000
    requires start + |Encode(NodeInfo(publicAddress, l))| < cap
    ensures var s' := Reading(s, Body(NodeInfo(publicAddress, l), start, cap) + rest);
            && SlotInv(s') && Available(s') == |Free(table)| && s'.publicAddress == publicAddress
            && (forall p :: p in table ==> p in s'.tracker && s'.tracker[p] == table[p])
            && (forall p :: p in s'.tracker && p !in table ==> p in s.tracker && s'.tracker[p] == s.tracker[p])
  {
    var p := NodeInfo(publicAddress, l);
    PutAllFits([], Fields(p), start, cap);
    assert [] + Encode(p) == Encode(p);
    ReadingRefreshes(s, publicAddress, l, rest);
    RefreshSynchronises(s, publicAddress, l, table);
  }

  /** The entries that readImpl takes from the bytes of a NodeInfo. */
  function EntriesRead(bs: seq<Byte>): Listing
    requires TakeText(bs).Got? && TakeInt(TakeText(bs).rest).Got?
  {
    Entries(TakeInt(TakeText(bs).rest).value, TakeInt(TakeText(bs).rest).rest)
  }

  /** All announced entries are there. */
  predicate Complete(bs: seq<Byte>)
    requires TakeText(bs).Got? && TakeInt(TakeText(bs).rest).Got?
  {
    Decode(AtFrontEnd, 0, bs).Got? && TakeInt(TakeText(bs).rest).value >= 0
  }

  /**
   Once address and count are read, a new node can get sound slots only if all the entries are there and the count
   is not negative; if no port is listed twice it then does.
   */
  lemma NodeInfoInvExact(bs: seq<Byte>)
    requires TakeText(bs).Got? && TakeInt(TakeText(bs).rest).Got?
    ensures SlotInv(Reading(NO_SLOTS, bs)) ==> Complete(bs)
    ensures Distinct(EntriesRead(bs)) ==> (SlotInv(Reading(NO_SLOTS, bs)) <==> Complete(bs))
  {
    var address, count, l := TakeText(bs).value, TakeInt(TakeText(bs).rest), EntriesRead(bs);
    EntriesTaken(count.value, count.rest);
    if !Complete(bs) {
      FreeAtMost(map[], l);
    } else if Distinct(l) {
      assert Reading(NO_SLOTS, bs) == Refresh(NO_SLOTS, address, l);
      RefreshKeepsInv(NO_SLOTS, address, l);
    }
  }

  /**
   What a NodeInfo that is cut leaves behind: without an address nothing, without a count the address alone, and with
   entries missing those that are there and the old counter of used slots.
   */
  lemma CutReading(s: Slots, bs: seq<Byte>)
    requires Decode(AtFrontEnd, 0, bs).Short?
    ensures var t := Reading(s, bs);
            && t.used == s.used
            && (TakeText(bs).Short? ==> t == s)
            && (TakeText(bs).Got? ==> t.publicAddress == TakeText(bs).value)
            && (TakeText(bs).Got? && TakeInt(TakeText(bs).rest).Short? ==> t.total == s.total && t.tracker == s.tracker)
            && (TakeText(bs).Got? && TakeInt(TakeText(bs).rest).Got? ==>
                  && t.total == ToUInt32(TakeInt(TakeText(bs).rest).value)
                  && t.tracker == Record(s.tracker, EntriesRead(bs))
                  && |EntriesRead(bs)| < TakeInt(TakeText(bs).rest).value)
  {
    if TakeText(bs).Got? && TakeInt(TakeText(bs).rest).Got? {
      EntriesTaken(TakeInt(TakeText(bs).rest).value, TakeInt(TakeText(bs).rest).rest);
    }
  }

  /** Recording entries adds at most one free port for each. */
  lemma {:induction false} FreeAtMost(t: Tracker, l: Listing)
    ensures |FreePorts(Record(t, l))| <= |FreePorts(t)| + |l|
    decreases |l|
  {
    if l != [] {
      var before, p := Record(t, l[..|l| - 1]), PortAt(l, |l| - 1);
      FreeAtMost(t, l[..|l| - 1]);
      assert FreePorts(Record(t, l)) <= FreePorts(before) + {p};
      SubsetSize(FreePorts(Record(t, l)), FreePorts(before) + {p});
    }
  }

  // ---------- a table that has no room in the node's buffer

  /** Later fields leave the earlier ones alone. */
  lemma {:induction false} PutAllKeeps(body: seq<Byte>, fields: seq<seq<Byte>>, start: nat, cap: nat)
    ensures body <= PutAll(body, fields, start, cap)
    decreases |fields|
  {
    if fields != [] {
      PutAllKeeps(Put(body, fields[0], start, cap), fields[1..], start, cap);
    }
  }

  /** What is left of the slots of a cut NodeInfo. */
  ghost function CutSlots(a: Text, l: Listing, start: nat, cap: nat): seq<Byte>
    requires |l| < 0x8000_0000
  {
    var head := EncodeText(a) + EncodeInt(|l|);
    PutAllKeeps(head, SlotFields(l), start, cap);
    PutAll(head, SlotFields(l), start, cap)[|head|..]
  }

  lemma CutBody(a: Text, l: Listing, start: nat, cap: nat)
    requires |l| < 0x8000_0000 && start + |EncodeText(a)| + 4 < cap
    ensures Body(NodeInfo(a, l), start, cap) == EncodeText(a) + (EncodeInt(|l|) + CutSlots(a, l, start, cap))
  {
    var head := EncodeText(a) + EncodeInt(|l|);
    PutAllKeeps(head, SlotFields(l), start, cap);
    NodeInfoBody(a, l, start, cap);
    PutAllAppend([], [EncodeText(a), EncodeInt(|l|)], SlotFields(l), start, cap);
    PutAllTwo([], EncodeText(a), EncodeInt(|l|), start, cap);
    assert [] + EncodeText(a) == EncodeText(a);
    HeadFirst(EncodeText(a), EncodeInt(|l|), PutAll(head, SlotFields(l), start, cap));
  }

  lemma HeadFirst(a: seq<Byte>, b: seq<Byte>, all: seq<Byte>)
    requires a + b <= all
    ensures all == a + (b + all[|a + b|..])
  {
  }

  /** Entries have eight bytes each, whatever they say. */
  lemma {:induction false} SlotsNeed(n: nat, bs: seq<Byte>)
    ensures TakeSlots(n, bs).Got? <==> |bs| >= 8 * n
    decreases n
  {
    if n > 0 && |bs| >= 8 {
      assert TakeSlot(bs).Got? && TakeSlot(bs).rest == bs[4..][4..] == bs[8..];
      SlotsNeed(n - 1, bs[8..]);
    }
  }

  lemma HeadTaken(a: Text, n: Int32, t: seq<Byte>)
    requires |a| < 0x1_0000
    ensures TakeText(EncodeText(a) + (EncodeInt(n) + t)) == Got(a, EncodeInt(n) + t)
    ensures TakeInt(EncodeInt(n) + t) == Got(n, t)
  {
    TakeTextBack(a, EncodeInt(n) + t);
    TakeIntBack(n, t);
  }

  lemma NodeInfoLengths(a: Text, l: Listing)
    requires |l| < 0x8000_0000
    ensures |Encode(NodeInfo(a, l))| == |EncodeText(a)| + 4 + 8 * |l|
  {
    ConcatTwo(EncodeText(a), EncodeInt(|l|), SlotFields(l));
    SlotsLength(l);
  }

  /** Reading what is left of the slots of a NodeInfo, and whatever follows in the buffer. */
  lemma CutRead(bs: seq<Byte>, a: Text, r: seq<Byte>, n: Int32, t: seq<Byte>)
    requires TakeText(bs) == Got(a, r) && TakeInt(r) == Got(n, t) && n >= 0
    ensures Complete(bs) <==> |t| >= 8 * n
  {
    SlotsNeed(n, t);
  }

  lemma FittingBody(a: Text, l: Listing, start: nat, cap: nat, rest: seq<Byte>)
    requires Distinct(l) && start + |Encode(NodeInfo(a, l))| < cap <= 0x1_0000
    ensures SlotInv(Reading(NO_SLOTS, Body(NodeInfo(a, l), start, cap) + rest))
  {
    PutAllFits([], Fields(NodeInfo(a, l)), start, cap);
    assert [] + Encode(NodeInfo(a, l)) == Encode(NodeInfo(a, l));
    ReadingRefreshes(NO_SLOTS, a, l, rest);
    SlotsLength(l);
    NodeInfoLengths(a, l);
    RefreshKeepsInv(NO_SLOTS, a, l);
  }

  /**
   A NodeInfo whose address and count have room, with any bytes behind it in the receiving buffer. The front end can
   read it if and only if those bytes make up for what had no room; a new node never gets sound slots otherwise,
   and does get them if all of the packet had room or if no port is read twice.
   */
  lemma UnfitNodeInfo(a: Text, l: Listing, start: nat, cap: nat, rest: seq<Byte>)
    requires Distinct(l) && |l| < 0x8000_0000
    requires start + |EncodeText(a)| + 4 < cap <= 0x1_0000
    ensures var p := NodeInfo(a, l); var bs := Body(p, start, cap) + rest;
            var enough := |Body(p, start, cap)| + |rest| >= |Encode(p)|;
            && (|Body(p, start, cap)| == |Encode(p)| <==> start + |Encode(p)| < cap)
            && (Decode(AtFrontEnd, 0, bs).Got? <==> enough)
            && (SlotInv(Reading(NO_SLOTS, bs)) ==> enough)
            && (start + |Encode(p)| < cap ==> SlotInv(Reading(NO_SLOTS, bs)))
            && TakeText(bs).Got? && TakeInt(TakeText(bs).rest).Got?
            && (enough && Distinct(EntriesRead(bs)) ==> SlotInv(Reading(NO_SLOTS, bs)))
  {
    var t, bs := CutSlots(a, l, start, cap), Body(NodeInfo(a, l), start, cap) + rest;
    CutBody(a, l, start, cap);
    CutLength(a, l, start, cap);
    NodeInfoLengths(a, l);
    HeadBehind(EncodeText(a), EncodeInt(|l|), t, rest);
    HeadTaken(a, |l|, t + rest);
    CutRead(bs, a, EncodeInt(|l|) + (t + rest), |l|, t + rest);
    NodeInfoInvExact(bs);
    if start + |Encode(NodeInfo(a, l))| < cap {
      FittingBody(a, l, start, cap, rest);
    }
  }

  lemma HeadBehind(a: seq<Byte>, n: seq<Byte>, t: seq<Byte>, rest: seq<Byte>)
    ensures (a + (n + t)) + rest == a + (n + (t + rest))
  {
  }

  lemma CutLength(a: Text, l: Listing, start: nat, cap: nat)
    requires |l| < 0x8000_0000 && start + |EncodeText(a)| + 4 < cap
    ensures |CutSlots(a, l, start, cap)| == 8 * |l| <==> start + |EncodeText(a)| + 4 + 8 * |l| < cap
  {
    var head := EncodeText(a) + EncodeInt(|l|);
    var all := PutAll(head, SlotFields(l), start, cap);
    SlotsLength(l);
    PutAllKeeps(head, SlotFields(l), start, cap);
    PutAllBound(head, SlotFields(l), start, cap);
    assert |CutSlots(a, l, start, cap)| == |all| - |head|;
    if start + |head| + 8 * |l| < cap {
      PutAllFits(head, SlotFields(l), start, cap);
      assert |all| == |head| + 8 * |l|;
    }
  }
}
