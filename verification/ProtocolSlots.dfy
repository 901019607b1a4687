/**
 Slots are not given back. Nothing in the front end releases one when a session ends, and a node reports itself only
 when it starts, so each start of a node is good for as many creations as its web list has ports.
 */
module ProtocolSlots {
  import opened Common
  import opened Ports
  import opened NodeSessions
  import opened Slots
  import opened Protocol
  import opened ProtocolSafety

  ghost predicate ReservesAt(e: Step, a: Text) {
    e.ReserveSlot? && e.at == a
  }

  /** How many creations of the run reserve a slot at a. */
  ghost function Reserves(es: seq<Step>, a: Text): nat {
    if es == [] then 0 else (if ReservesAt(es[0], a) then 1 else 0) + Reserves(es[1..], a)
  }

  ghost predicate NoInfo(es: seq<Step>, a: Text) {
    forall i :: 0 <= i < |es| && es[i].InfoArrives? ==> es[i].at != a
  }

  ghost predicate NoRestart(es: seq<Step>, a: Text) {
    forall i :: 0 <= i < |es| && es[i].Restart? ==> es[i].at != a
  }

  /** The site has one slot less, or as many as before, and is as connected as before. */
  ghost predicate Spends(x: Site, y: Site, spent: nat) {
    Available(y.slots) + spent == Available(x.slots) && y.attached == x.attached
  }

  /** One site: only a reservation and a NodeInfo touch the slots. */
  lemma SiteStepSlots(x: Site, e: Step, ip: Text)
    requires SiteInv(x) && SiteEnabled(x, e) && !e.InfoArrives?
    ensures Spends(x, SiteAfter(x, e, ip), if e.ReserveSlot? then 1 else 0)
  {
    if e.ReserveSlot? {
      ReserveKeepsInv(x.slots, e.port);
    }
  }

  /** A step of another kind than a restart, told of one site. */
  lemma StepSlots(s: System, e: Step, a: Text)
    requires SitesInv(s.sites) && Enabled(s, e) && !e.Restart? && a in s.sites && !(e.InfoArrives? && e.at == a)
    ensures a in After(s, e).sites
    ensures Spends(s.sites[a], After(s, e).sites[a], if ReservesAt(e, a) then 1 else 0)
  {
    var at, ip := StepSite(s, e);
    TouchedAt(s, e);
    if at == Some(a) {
      SiteStepSlots(s.sites[a], e, ip);
    }
  }

  lemma RestartSlots(s: System, e: Step, a: Text)
    requires Enabled(s, e) && e.Restart? && a in s.sites
    ensures a in After(s, e).sites && Available(After(s, e).sites[a].slots) == Available(s.sites[a].slots)
    ensures e.at != a ==> After(s, e).sites[a] == s.sites[a]
  {
  }

  lemma TouchedAt(s: System, e: Step)
    requires Enabled(s, e) && !e.Restart?
    ensures e.ReserveSlot? || e.InfoArrives? ==> Touched(s, e) == Some(e.at)
  {
  }

  /** A node whose NodeInfo has arrived sends none until it restarts. */
  lemma AttachedNoInfo(s: System, e: Step, a: Text)
    requires SitesInv(s.sites) && Enabled(s, e) && a in s.sites && s.sites[a].attached
    ensures !(e.InfoArrives? && e.at == a)
  {
  }

  /** Over any run in which no NodeInfo of a node arrives, every creation there uses up one slot for good. */
  lemma {:induction false} SlotsConserved(s: System, es: seq<Step>, a: Text)
    requires SitesInv(s.sites) && Run(s, es) && a in s.sites && NoInfo(es, a)
    ensures a in Final(s, es).sites
    ensures Available(Final(s, es).sites[a].slots) + Reserves(es, a) == Available(s.sites[a].slots)
    decreases |es|
  {
    if es != [] {
      assert NoInfo(es[1..], a);
      if es[0].Restart? {
        RestartSlots(s, es[0], a);
      } else {
        StepSlots(s, es[0], a);
      }
      StepKeepsInv(s, es[0]);
      SlotsConserved(After(s, es[0]), es[1..], a);
    }
  }

  lemma StaysAttached(s: System, e: Step, a: Text)
    requires SitesInv(s.sites) && Enabled(s, e) && a in s.sites && s.sites[a].attached && !(e.Restart? && e.at == a)
    ensures a in After(s, e).sites && After(s, e).sites[a].attached && !(e.InfoArrives? && e.at == a)
  {
    AttachedNoInfo(s, e, a);
    if e.Restart? {
      RestartSlots(s, e, a);
    } else {
      StepSlots(s, e, a);
    }
  }

  lemma NoInfoMore(e: Step, es: seq<Step>, a: Text)
    requires NoInfo(es, a) && !(e.InfoArrives? && e.at == a)
    ensures NoInfo([e] + es, a)
  {
  }

  lemma {:induction false} NoInfoWithoutRestart(s: System, es: seq<Step>, a: Text)
    requires SitesInv(s.sites) && Run(s, es) && a in s.sites && s.sites[a].attached && NoRestart(es, a)
    ensures NoInfo(es, a)
    decreases |es|
  {
    if es != [] {
      assert !(es[0].Restart? && es[0].at == a) && NoRestart(es[1..], a);
      StaysAttached(s, es[0], a);
      StepKeepsInv(s, es[0]);
      NoInfoWithoutRestart(After(s, es[0]), es[1..], a);
      NoInfoMore(es[0], es[1..], a);
      assert [es[0]] + es[1..] == es;
    }
  }

  /** The same while a node that has reported itself does not restart, however many of its sessions end. */
  lemma SlotsUsedUp(s: System, es: seq<Step>, a: Text)
    requires SitesInv(s.sites) && Run(s, es) && a in s.sites && s.sites[a].attached && NoRestart(es, a)
    ensures a in Final(s, es).sites
    ensures Available(Final(s, es).sites[a].slots) + Reserves(es, a) == Available(s.sites[a].slots)
  {
    NoInfoWithoutRestart(s, es, a);
    SlotsConserved(s, es, a);
  }

  lemma AllFree(t: PortTable)
    requires AllUnused(t)
    ensures |Free(t)| == |t|
  {
    assert Free(t) == t.Keys;
  }

  /** A NodeInfo offers the whole web list: the node has not been used since it started. */
  lemma InfoOffersAll(s: System, a: Text, info: Packet)
    requires SitesInv(s.sites) && Enabled(s, InfoArrives(a, info))
    ensures a in After(s, InfoArrives(a, info)).sites
    ensures var y := After(s, InfoArrives(a, info)).sites[a];
            y.attached && Available(y.slots) == |s.sites[a].node.web|
  {
    var x := s.sites[a];
    RefreshSynchronises(x.slots, info.publicAddress, info.slots, x.node.web);
    AllFree(x.node.web);
  }

  /**
   From the arrival of a node's NodeInfo until the node restarts: the slots still available and the creations made
   there are together as many as the node has web ports.
   */
  lemma SlotsOfOneStart(s: System, a: Text, info: Packet, es: seq<Step>)
    requires SitesInv(s.sites) && Enabled(s, InfoArrives(a, info))
    requires Run(After(s, InfoArrives(a, info)), es) && NoRestart(es, a)
    ensures var t := Final(After(s, InfoArrives(a, info)), es);
            a in t.sites && Available(t.sites[a].slots) + Reserves(es, a) == |s.sites[a].node.web|
  {
    InfoOffersAll(s, a, info);
    StepKeepsInv(s, InfoArrives(a, info));
    SlotsUsedUp(After(s, InfoArrives(a, info)), es, a);
  }
}
