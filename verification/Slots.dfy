/** The front end's view of one node: slot counters and the tracker of its web ports (VisualizationNode). */
module Slots {
  import opened Common
  import opened Ports

  type Tracker = map<UInt32, bool>
  type Listing = seq<(Int32, Int32)>

  datatype Slots = Slots(publicAddress: Text, total: UInt32, used: UInt32, tracker: Tracker)

  const NO_SLOTS := Slots([], 0, 0, map[])

  /** Unsigned subtraction: it would wrap around if more slots were used than there are. */
  function Available(s: Slots): UInt32 {
    (s.total - s.used) % 0x1_0000_0000
  }

  ghost function FreePorts(t: Tracker): set<UInt32> {
    set p | p in t && !t[p]
  }

  ghost predicate SlotInv(s: Slots) {
    s.used <= s.total && s.total - s.used <= |FreePorts(s.tracker)|
  }

  ghost predicate CanReserve(s: Slots, port: UInt32) {
    Available(s) > 0 && port in FreePorts(s.tracker)
  }

  function Reserve(s: Slots, port: UInt32): Slots {
    s.(used := (s.used + 1) % 0x1_0000_0000, tracker := s.tracker[port := true])
  }

  /** The counter of used slots is left as it is. */
  function Release(s: Slots, port: UInt32): Slots {
    if s.used > 0 && port in s.tracker then s.(tracker := s.tracker[port := false]) else s
  }

  /** Entries are (port, flag) pairs as they are read from the wire; a flag above 0 means in use. */
  function PortAt(l: Listing, i: nat): UInt32
    requires i < |l|
  {
    ToUInt32(l[i].0)
  }

  function Record(t: Tracker, l: Listing): Tracker {
    if l == [] then t
    else Record(t, l[..|l| - 1])[PortAt(l, |l| - 1) := l[|l| - 1].1 > 0]
  }

  function CountUsed(l: Listing): nat {
    if l == [] then 0
    else CountUsed(l[..|l| - 1]) + if l[|l| - 1].1 > 0 then 1 else 0
  }

  /** What a NodeInfo packet does to the view of its node. */
  function Refresh(s: Slots, publicAddress: Text, l: Listing): Slots {
    Slots(publicAddress, |l| % 0x1_0000_0000, CountUsed(l) % 0x1_0000_0000, Record(s.tracker, l))
  }

  class VisualizationNode {
    var address: Text
    var publicAddress: Text
    var totalSlots: UInt32
    var usedSlots: UInt32
    var slotTracker: Tracker
    // whether _con is set, and the packets pushed to that connection
    var connected: bool
    var outbox: seq<Packet>

    ghost function View(): Slots
      reads `publicAddress, `totalSlots, `usedSlots, `slotTracker
    {
      Slots(publicAddress, totalSlots, usedSlots, slotTracker)
    }

    constructor (address: Text)
      ensures View() == NO_SLOTS && this.address == address && connected && outbox == []
    {
      this.address, publicAddress := address, [];
      totalSlots, usedSlots, slotTracker := 0, 0, map[];
      connected, outbox := true, [];
    }

    method TryReserveSlot() returns (ok: bool, destPort: UInt32)
      modifies this`usedSlots, this`slotTracker
      ensures ok ==> CanReserve(old(View()), destPort) && View() == Reserve(old(View()), destPort)
      ensures !ok ==> View() == old(View()) && (Available(View()) == 0 || FreePorts(slotTracker) == {})
    {
      if (totalSlots - usedSlots) % 0x1_0000_0000 > 0 {
        var rest := slotTracker.Keys;
        while rest != {}
          invariant rest <= slotTracker.Keys && FreePorts(slotTracker) <= rest
          invariant View() == old(View())
          decreases |rest|
        {
          var p :| p in rest;
          if !slotTracker[p] {
            slotTracker := slotTracker[p := true];
            usedSlots := (usedSlots + 1) % 0x1_0000_0000;
            return true, p;
          }
          rest := rest - {p};
        }
      }
      return false, 0;
    }

    method ReleaseSlot(port: UInt32)
      modifies this`slotTracker
      ensures View() == Release(old(View()), port)
    {
      if usedSlots > 0 {
        if port in slotTracker {
          slotTracker := slotTracker[port := false];
        }
      }
    }

    method AddAvailablePort(port: UInt32, used: bool)
      modifies this`slotTracker
      ensures slotTracker == old(slotTracker)[port := used]
    {
      slotTracker := slotTracker[port := used];
    }

    method SendPacket(packet: Packet)
      modifies this`outbox
      ensures outbox == if connected then old(outbox) + [packet] else old(outbox)
    {
      if connected {
        outbox := outbox + [packet];
      }
    }
  }

  // ---------- the counters never overtake the tracker

  lemma AvailableExact(s: Slots)
    requires SlotInv(s)
    ensures Available(s) == s.total - s.used
    ensures Available(s) > 0 ==> FreePorts(s.tracker) != {}
  {
  }

  lemma ReserveKeepsInv(s: Slots, port: UInt32)
    requires SlotInv(s) && CanReserve(s, port)
    ensures SlotInv(Reserve(s, port)) && Available(Reserve(s, port)) == Available(s) - 1
    ensures FreePorts(Reserve(s, port).tracker) == FreePorts(s.tracker) - {port}
  {
    assert FreePorts(Reserve(s, port).tracker) == FreePorts(s.tracker) - {port};
  }

  /**
   Releasing a reserved port frees exactly that port again, but not its slot: the counter of used slots keeps the
   reservation.
   */
  lemma ReserveThenRelease(s: Slots, port: UInt32)
    requires SlotInv(s) && CanReserve(s, port)
    ensures var t := Release(Reserve(s, port), port);
            && t.tracker == s.tracker && t.total == s.total && t.publicAddress == s.publicAddress
            && t.used == s.used + 1 && Available(t) == Available(s) - 1
  {
    assert s.tracker[port := true][port := false] == s.tracker;
  }

  /** Any tracked port can be released while a slot is used; otherwise nothing happens. */
  lemma ReleaseFrees(s: Slots, port: UInt32)
    ensures FreePorts(Release(s, port).tracker)
         == FreePorts(s.tracker) + if s.used > 0 && port in s.tracker then {port} else {}
    ensures Available(Release(s, port)) == Available(s)
  {
    assert FreePorts(s.tracker) + {} == FreePorts(s.tracker);
  }

  lemma ReleaseKeepsInv(s: Slots, port: UInt32)
    requires SlotInv(s)
    ensures SlotInv(Release(s, port))
  {
    if s.used > 0 && port in s.tracker {
      SubsetSize(FreePorts(s.tracker), FreePorts(Release(s, port).tracker));
    }
  }

  ghost predicate Distinct(l: Listing) {
    forall i, j :: 0 <= i < j < |l| ==> PortAt(l, i) != PortAt(l, j)
  }

  ghost function Listed(l: Listing): set<UInt32> {
    set i | 0 <= i < |l| :: PortAt(l, i)
  }

  ghost function ListedFree(l: Listing): set<UInt32> {
    set i | 0 <= i < |l| && l[i].1 <= 0 :: PortAt(l, i)
  }

  /** After a refresh every listed port carries its listed flag, and the other entries are as before. */
  lemma {:induction false} RecordAgrees(t: Tracker, l: Listing)
    requires Distinct(l)
    ensures forall i :: 0 <= i < |l| ==> PortAt(l, i) in Record(t, l) && Record(t, l)[PortAt(l, i)] == (l[i].1 > 0)
    ensures forall p :: p !in Listed(l) ==> (p in Record(t, l) <==> p in t) && (p in t ==> Record(t, l)[p] == t[p])
  {
    if l != [] {
      var front := l[..|l| - 1];
      assert forall i :: 0 <= i < |front| ==> PortAt(front, i) == PortAt(l, i);
      RecordAgrees(t, front);
      ListedGrows(l);
    }
  }

  lemma ListedGrows(l: Listing)
    requires Distinct(l) && l != []
    ensures var front, last := l[..|l| - 1], PortAt(l, |l| - 1);
            && last !in Listed(front) && last !in ListedFree(front)
            && Listed(l) == Listed(front) + {last}
            && ListedFree(l) == if l[|l| - 1].1 > 0 then ListedFree(front) else ListedFree(front) + {last}
  {
    var front, last := l[..|l| - 1], PortAt(l, |l| - 1);
    assert forall i :: 0 <= i < |front| ==> PortAt(front, i) == PortAt(l, i);
    forall p ensures p in Listed(l) <==> p in Listed(front) || p == last {
      if p in Listed(l) {
        var i :| 0 <= i < |l| && p == PortAt(l, i);
        assert i < |front| ==> p == PortAt(front, i);
      }
    }
    forall p ensures p in ListedFree(l) <==> p in ListedFree(front) || (p == last && l[|l| - 1].1 <= 0) {
      if p in ListedFree(front) {
        var i :| 0 <= i < |front| && front[i].1 <= 0 && p == PortAt(front, i);
        assert l[i].1 <= 0 && p == PortAt(l, i);
      }
    }
  }

  lemma {:induction false} ListedCounts(l: Listing)
    requires Distinct(l)
    ensures |Listed(l)| == |l| && |ListedFree(l)| + CountUsed(l) == |l|
  {
    if l != [] {
      var front := l[..|l| - 1];
      assert forall i :: 0 <= i < |front| ==> PortAt(front, i) == PortAt(l, i);
      ListedCounts(front);
      ListedGrows(l);
    }
  }

  /** Any list of distinct ports, whatever the tracker held before. */
  lemma RefreshKeepsInv(s: Slots, publicAddress: Text, l: Listing)
    requires Distinct(l) && |l| < 0x1_0000_0000
    ensures SlotInv(Refresh(s, publicAddress, l))
    ensures Available(Refresh(s, publicAddress, l)) == |ListedFree(l)|
  {
    ListedCounts(l);
    ListedFreeIsFree(s.tracker, l);
    SubsetSize(ListedFree(l), FreePorts(Record(s.tracker, l)));
  }

  lemma ListedFreeIsFree(t: Tracker, l: Listing)
    requires Distinct(l)
    ensures ListedFree(l) <= FreePorts(Record(t, l))
  {
    RecordAgrees(t, l);
  }

  // ---------- NodeInfo synchronisation

  /** The listing is the table, in some order. */
  ghost predicate Enumerates(l: Listing, table: PortTable) {
    && Distinct(l)
    && (forall p :: p in Listed(l) <==> p in table)
    && (forall i :: 0 <= i < |l| ==> PortAt(l, i) in table && table[PortAt(l, i)] == (l[i].1 > 0))
  }

  lemma ListedKeys(l: Listing, table: PortTable)
    requires Enumerates(l, table)
    ensures |l| == |table| && |ListedFree(l)| == |Free(table)|
  {
    ListedCounts(l);
    assert Listed(l) == table.Keys;
    assert ListedFree(l) == Free(table) by {
      forall p | p in Free(table) ensures p in ListedFree(l) {
        assert p in Listed(l);
        var i :| 0 <= i < |l| && p == PortAt(l, i);
        assert l[i].1 <= 0;
      }
    }
  }

  /**
   A NodeInfo carrying a node's port table makes the tracker agree with that table on every listed port,
   leaves the other entries alone, and makes as many slots available as the table has unused ports.
   */
  lemma RefreshSynchronises(s: Slots, publicAddress: Text, l: Listing, table: PortTable)
    requires Enumerates(l, table)
    ensures var s' := Refresh(s, publicAddress, l);
            && SlotInv(s') && Available(s') == |Free(table)|
            && (forall p :: p in table ==> p in s'.tracker && s'.tracker[p] == table[p])
            && (forall p :: p in s'.tracker && p !in table ==> p in s.tracker && s'.tracker[p] == s.tracker[p])
            && (forall p :: p in s.tracker ==> p in s'.tracker)
  {
    ListedKeys(l, table);
    TableSize(table);
    RefreshKeepsInv(s, publicAddress, l);
    RecordAgrees(s.tracker, l);
    var s' := Refresh(s, publicAddress, l);
    forall p | p in table ensures p in s'.tracker && s'.tracker[p] == table[p] {
      assert p in Listed(l);
      var i :| 0 <= i < |l| && p == PortAt(l, i);
    }
  }

  /** There are no more than 65536 ports. */
  lemma TableSize(table: PortTable)
    ensures |table| <= 0x1_0000
  {
    BelowSize(0x1_0000);
    SubsetSize(table.Keys, Below(0x1_0000));
  }

  ghost function Below(n: nat): set<int> {
    if n == 0 then {} else Below(n - 1) + {n - 1}
  }

  lemma {:induction false} BelowSize(n: nat)
    ensures |Below(n)| == n && forall p :: p in Below(n) <==> 0 <= p < n
  {
    if n > 0 {
      BelowSize(n - 1);
    }
  }

  lemma SubsetSize(a: set<int>, b: set<int>)
    requires a <= b
    ensures |a| <= |b|
  {
    assert b == a + (b - a);
  }

  // ---------- any sequence of reserves, releases and refreshes

  datatype SlotOp =
    | Reserving(port: UInt32)
    | Releasing(port: UInt32)
    | Refreshing(publicAddress: Text, listing: Listing)

  ghost predicate OpEnabled(s: Slots, op: SlotOp) {
    match op
    case Reserving(p) => CanReserve(s, p)
    case Releasing(p) => true
    case Refreshing(a, l) => Distinct(l) && |l| < 0x1_0000_0000
  }

  ghost function AfterOp(s: Slots, op: SlotOp): Slots {
    match op
    case Reserving(p) => Reserve(s, p)
    case Releasing(p) => Release(s, p)
    case Refreshing(a, l) => Refresh(s, a, l)
  }

  ghost predicate OpsRun(s: Slots, ops: seq<SlotOp>)
    decreases |ops|
  {
    ops == [] || (OpEnabled(s, ops[0]) && OpsRun(AfterOp(s, ops[0]), ops[1..]))
  }

  ghost function AfterOps(s: Slots, ops: seq<SlotOp>): Slots
    decreases |ops|
  {
    if ops == [] then s else AfterOps(AfterOp(s, ops[0]), ops[1..])
  }

  /** In every run the subtraction never wraps, and a positive count always has a free port behind it. */
  lemma {:induction false} SlotsRunSafe(s: Slots, ops: seq<SlotOp>)
    requires SlotInv(s) && OpsRun(s, ops)
    ensures var t := AfterOps(s, ops);
            SlotInv(t) && Available(t) == t.total - t.used && (Available(t) > 0 ==> FreePorts(t.tracker) != {})
    decreases |ops|
  {
    if ops == [] {
      AvailableExact(s);
    } else {
      match ops[0] {
        case Reserving(p) => ReserveKeepsInv(s, p);
        case Releasing(p) => ReleaseKeepsInv(s, p);
        case Refreshing(a, l) => RefreshKeepsInv(s, a, l);
      }
      SlotsRunSafe(AfterOp(s, ops[0]), ops[1..]);
    }
  }
}
