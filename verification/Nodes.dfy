/** The registry of visualization nodes and the choice of one for a new session (VisualizationNodeManager). */
module Nodes {
  import opened Common
  import opened Slots

  ghost predicate Sound(views: map<Text, Slots>) {
    forall a :: a in views ==> SlotInv(views[a])
  }

  ghost predicate NoneLeft(views: map<Text, Slots>) {
    forall a :: a in views ==> Available(views[a]) == 0
  }

  ghost predicate MostAvailable(views: map<Text, Slots>, at: Text)
    requires at in views
  {
    forall a :: a in views ==> Available(views[a]) <= Available(views[at])
  }

  /** One (node, port) pair goes from free to used. */
  ghost predicate TakesOne(before: map<Text, Slots>, at: Text, port: UInt32, after: map<Text, Slots>) {
    at in before && CanReserve(before[at], port) && after == before[at := Reserve(before[at], port)]
  }

  ghost function Pushed(before: map<Text, seq<Packet>>, at: Text, connected: bool, packet: Packet)
    : map<Text, seq<Packet>>
    requires at in before
  {
    if connected then before[at := before[at] + [packet]] else before
  }

  lemma TakesOneSound(before: map<Text, Slots>, at: Text, port: UInt32, after: map<Text, Slots>)
    requires Sound(before) && TakesOne(before, at, port, after)
    ensures Sound(after)
  {
    ReserveKeepsInv(before[at], port);
  }

  /** A node that reports an available slot has a free port behind it. */
  lemma SoundAvailable(views: map<Text, Slots>, at: Text)
    requires Sound(views) && at in views
    ensures Available(views[at]) > 0 ==> FreePorts(views[at].tracker) != {}
  {
    AvailableExact(views[at]);
  }

  class VisualizationNodeManager {
    var enableLoadBalance: bool
    var nodeList: map<Text, VisualizationNode>

    /** Each node knows the address it is registered under, so no two addresses share a node. */
    ghost predicate Addressed()
      reads this, nodeList.Values`address
    {
      forall a :: a in nodeList ==> nodeList[a].address == a
    }

    ghost predicate Valid()
      reads this, nodeList.Values`address, nodeList.Values`publicAddress
      reads nodeList.Values`totalSlots, nodeList.Values`usedSlots, nodeList.Values`slotTracker
    {
      Addressed() && Sound(Views())
    }

    /** All views, by address. */
    ghost function Views(): map<Text, Slots>
      reads this, nodeList.Values`publicAddress
      reads nodeList.Values`totalSlots, nodeList.Values`usedSlots, nodeList.Values`slotTracker
    {
      map a | a in nodeList :: nodeList[a].View()
    }

    /** All packets pushed to the nodes' connections, by address. */
    ghost function Outboxes(): map<Text, seq<Packet>>
      reads this, nodeList.Values`outbox
    {
      map a | a in nodeList :: nodeList[a].outbox
    }

    constructor (enableLoadBalance: bool)
      ensures Valid() && nodeList == map[] && this.enableLoadBalance == enableLoadBalance
    {
      this.enableLoadBalance, nodeList := enableLoadBalance, map[];
    }

    method GetNode(address: Text) returns (node: VisualizationNode?)
      ensures node != null <==> address in nodeList
      ensures node != null ==> node == nodeList[address]
    {
      node := if address in nodeList then nodeList[address] else null;
    }

    /** A known node takes the new connection, whose queue is empty; its slots are kept. */
    method RegisterOrGetNode(clientAddress: Text) returns (node: VisualizationNode)
      requires Addressed()
      modifies this`nodeList, if clientAddress in nodeList then {nodeList[clientAddress]} else {}
      ensures Addressed() && node.address == clientAddress
      ensures nodeList == old(nodeList)[clientAddress := node] && node.connected && node.outbox == []
      ensures if clientAddress in old(nodeList) then node == old(nodeList)[clientAddress] else fresh(node)
      ensures Views()
           == old(Views())[clientAddress := if clientAddress in old(nodeList) then old(Views())[clientAddress]
                                            else NO_SLOTS]
    {
      if clientAddress in nodeList {
        node := nodeList[clientAddress];
        node.connected, node.outbox := true, [];
      } else {
        node := new VisualizationNode(clientAddress);
        nodeList := nodeList[clientAddress := node];
        assert Views() == old(Views())[clientAddress := NO_SLOTS];
      }
    }

    method FindBestNode() returns (node: VisualizationNode?)
      requires Addressed()
      ensures node == null <==> NoneLeft(Views())
      ensures node != null ==> node.address in nodeList && node == nodeList[node.address] && Available(node.View()) > 0
      ensures node != null && enableLoadBalance ==> MostAvailable(Views(), node.address)
    {
      if enableLoadBalance {
        node := FindBest();
      } else {
        node := Find();
      }
      assert node != null ==> Available(Views()[node.address]) > 0;
    }

    method FindBest() returns (bestCandidate: VisualizationNode?)
      requires Addressed()
      ensures bestCandidate == null <==> forall a :: a in nodeList ==> Available(nodeList[a].View()) == 0
      ensures bestCandidate != null ==>
                && bestCandidate.address in nodeList && bestCandidate == nodeList[bestCandidate.address]
                && Available(bestCandidate.View()) > 0
                && forall a :: a in nodeList ==> Available(nodeList[a].View()) <= Available(bestCandidate.View())
    {
      bestCandidate := null;
      var mostAvailable: UInt32 := 0;
      var rest := nodeList.Keys;
      while rest != {}
        invariant rest <= nodeList.Keys
        invariant bestCandidate == null <==> mostAvailable == 0
        invariant bestCandidate != null ==>
                    && bestCandidate.address in nodeList && bestCandidate == nodeList[bestCandidate.address]
                    && Available(bestCandidate.View()) == mostAvailable
        invariant forall a :: a in nodeList && a !in rest ==> Available(nodeList[a].View()) <= mostAvailable
        decreases |rest|
      {
        var a :| a in rest;
        rest := rest - {a};
        var visNode := nodeList[a];
        var available := (visNode.totalSlots - visNode.usedSlots) % 0x1_0000_0000;
        assert available == Available(visNode.View());
        if available > mostAvailable {
          mostAvailable, bestCandidate := available, visNode;
        }
      }
    }

    method Find() returns (node: VisualizationNode?)
      requires Addressed()
      ensures node == null <==> forall a :: a in nodeList ==> Available(nodeList[a].View()) == 0
      ensures node != null ==> node.address in nodeList && node == nodeList[node.address] && Available(node.View()) > 0
    {
      var rest := nodeList.Keys;
      while rest != {}
        invariant rest <= nodeList.Keys
        invariant forall a :: a in nodeList && a !in rest ==> Available(nodeList[a].View()) == 0
        decreases |rest|
      {
        var a :| a in rest;
        rest := rest - {a};
        var visNode := nodeList[a];
        assert nodeList[a].address == a;
        if (visNode.totalSlots - visNode.usedSlots) % 0x1_0000_0000 > 0 {
          return visNode;
        }
      }
      return null;
    }

    /** tryReserveSlot on a registered node: no other view changes. */
    method ReserveAt(node: VisualizationNode) returns (reserved: bool, port: UInt32)
      requires Valid() && node.address in nodeList && node == nodeList[node.address]
      modifies node`usedSlots, node`slotTracker
      ensures Valid() && reserved == (Available(old(node.View())) > 0)
      ensures if reserved then TakesOne(old(Views()), node.address, port, Views()) else Views() == old(Views())
      ensures Outboxes() == old(Outboxes())
    {
      ghost var views, slots, outboxes := Views(), node.View(), Outboxes();
      assert slots == views[node.address];
      SoundAvailable(views, node.address);
      reserved, port := node.TryReserveSlot();
      SameOutboxes(this, outboxes);
      OneViewChanged(this, views, node.address, if reserved then Reserve(slots, port) else slots);
      if reserved {
        TakesOneSound(views, node.address, port, Views());
      } else {
        assert views[node.address := slots] == views;
      }
    }

    method SendTo(node: VisualizationNode, packet: Packet)
      requires Addressed() && node.address in nodeList && node == nodeList[node.address]
      modifies node`outbox
      ensures Outboxes() == Pushed(old(Outboxes()), node.address, node.connected, packet)
      ensures Views() == old(Views())
    {
      ghost var views, outboxes, outbox := Views(), Outboxes(), node.outbox;
      assert outbox == outboxes[node.address];
      node.SendPacket(packet);
      SameViews(this, views);
      OneOutboxChanged(this, outboxes, node.address, node.outbox);
      assert outboxes[node.address := outbox] == outboxes;
    }
  }

  lemma OneViewChanged(nodes: VisualizationNodeManager, views: map<Text, Slots>, at: Text, slots: Slots)
    requires nodes.nodeList.Keys == views.Keys && at in views && nodes.nodeList[at].View() == slots
    requires forall a :: a in nodes.nodeList && a != at ==> nodes.nodeList[a].View() == views[a]
    ensures nodes.Views() == views[at := slots]
  {
  }

  lemma OneOutboxChanged(nodes: VisualizationNodeManager, outboxes: map<Text, seq<Packet>>, at: Text,
                         outbox: seq<Packet>)
    requires nodes.nodeList.Keys == outboxes.Keys && at in outboxes && nodes.nodeList[at].outbox == outbox
    requires forall a :: a in nodes.nodeList && a != at ==> nodes.nodeList[a].outbox == outboxes[a]
    ensures nodes.Outboxes() == outboxes[at := outbox]
  {
  }

  lemma SameOutboxes(nodes: VisualizationNodeManager, outboxes: map<Text, seq<Packet>>)
    requires nodes.nodeList.Keys == outboxes.Keys
    requires forall a :: a in nodes.nodeList ==> nodes.nodeList[a].outbox == outboxes[a]
    ensures nodes.Outboxes() == outboxes
  {
  }

  lemma SameViews(nodes: VisualizationNodeManager, views: map<Text, Slots>)
    requires nodes.nodeList.Keys == views.Keys
    requires forall a :: a in nodes.nodeList ==> nodes.nodeList[a].View() == views[a]
    ensures nodes.Views() == views
  {
  }
}
