/** The OpenBook v2 order tree scanned as raw bytes. */
module OrderBook {
  import opened Bn

  type Byte = b: int | 0 <= b < 256

  const LEAF_NODE_TAG := 2
  const NODE_DATA := 79
  const LEAF_SIZE := 88

  // ----- little endian integers -----

  function Pow256(n: nat): (r: nat)
    ensures 1 <= r
  {
    if n == 0 then 1 else 256 * Pow256(n - 1)
  }

  function ToBytes(v: nat, width: nat): (bytes: seq<Byte>)
    ensures |bytes| == width
  {
    if width == 0 then [] else [v % 256] + ToBytes(v / 256, width - 1)
  }

  function FromBytes(bytes: seq<Byte>): nat {
    if bytes == [] then 0 else bytes[0] + 256 * FromBytes(bytes[1..])
  }

  lemma {:induction false} BytesRoundTrip(v: nat, width: nat)
    requires v < Pow256(width)
    ensures FromBytes(ToBytes(v, width)) == v
  {
    if width != 0 {
      BytesRoundTrip(v / 256, width - 1);
      assert ToBytes(v, width)[1..] == ToBytes(v / 256, width - 1);
    }
  }

  // ----- nodes -----

  type U8 = v: nat | v < 0x100
  type U16 = v: nat | v < 0x1_0000
  type U64 = v: nat | v < 0x1_0000_0000_0000_0000
  type U128 = v: nat | v < 0x1_0000_0000_0000_0000_0000_0000_0000_0000
  type Pubkey = k: seq<Byte> | |k| == 32 witness seq(32, i => 0)

  /** An order. The signed quantity and peg limit are given by the unsigned 64 bits that encode them. */
  datatype LeafNode = LeafNode(tag: U8, ownerSlot: U8, timeInForce: U16, key: U128, owner: Pubkey,
                               quantity: U64, timestamp: U64, pegLimit: U64, clientOrderId: U64) {
    static function New(ownerSlot: U8, key: U128, owner: Pubkey, quantity: U64, timestamp: U64,
                        timeInForce: U16, pegLimit: U64, clientOrderId: U64): LeafNode {
      LeafNode(LEAF_NODE_TAG, ownerSlot, timeInForce, key, owner, quantity, timestamp, pegLimit, clientOrderId)
    }

    /** The upper half of the key. */
    function PriceData(): U64 {
      key / 0x1_0000_0000_0000_0000
    }

    /** The fields in order, as Borsh writes them. */
    function Serialize(): (bytes: seq<Byte>)
      ensures |bytes| == LEAF_SIZE
    {
      ToBytes(tag, 1) + ToBytes(ownerSlot, 1) + ToBytes(timeInForce, 2) + [0, 0, 0, 0] + ToBytes(key, 16)
      + (owner + ToBytes(quantity, 8) + ToBytes(timestamp, 8) + ToBytes(pegLimit, 8) + ToBytes(clientOrderId, 8))
    }
  }

  /** Any node of the tree: a tag, its other bytes and a last word for alignment. */
  datatype AnyNode = AnyNode(tag: U8, data: seq<Byte>, forceAlign: U64) {
    predicate Valid() {
      |data| == NODE_DATA
    }

    /** The price the scan reads, whatever the node is. */
    function Price(): U64
      requires Valid()
    {
      FromBytesBound(data[7..23]);
      FromBytes(data[7..23]) / 0x1_0000_0000_0000_0000
    }
  }

  lemma {:induction false} FromBytesBelow(bytes: seq<Byte>)
    ensures FromBytes(bytes) < Pow256(|bytes|)
  {
    if bytes != [] {
      FromBytesBelow(bytes[1..]);
    }
  }

  lemma FromBytesBound(bytes: seq<Byte>)
    requires |bytes| == 16
    ensures FromBytes(bytes) < 0x1_0000_0000_0000_0000_0000_0000_0000_0000
  {
    FromBytesBelow(bytes);
    Pow256Of16();
  }

  lemma Pow256Of16()
    ensures Pow256(16) == 0x1_0000_0000_0000_0000_0000_0000_0000_0000
  {
    assert Pow256(4) == 0x1_0000_0000;
    assert Pow256(8) == 0x1_0000_0000_0000_0000;
    assert Pow256(12) == 0x1_0000_0000_0000_0000_0000_0000;
  }

  /** The eighty-eight bytes of a leaf seen as a node of the tree. */
  function NodeOf(leaf: LeafNode): (node: AnyNode)
    ensures node.Valid()
  {
    var bytes := leaf.Serialize();
    FromBytesBelow(bytes[80..]);
    assert Pow256(8) == 0x1_0000_0000_0000_0000 by { Pow256Of16(); assert Pow256(4) == 0x1_0000_0000; }
    AnyNode(bytes[0], bytes[1..80], FromBytes(bytes[80..]))
  }

  /** On a serialised leaf the scan reads the leaf's own tag and price. */
  lemma ScanReadsLeaf(leaf: LeafNode)
    ensures NodeOf(leaf).tag == leaf.tag
    ensures NodeOf(leaf).Price() == leaf.PriceData()
  {
    var bytes := leaf.Serialize();
    assert bytes[0] == leaf.tag % 256;
    assert bytes[1..80][7..23] == bytes[8..24] == ToBytes(leaf.key, 16);
    Pow256Of16();
    BytesRoundTrip(leaf.key, 16);
  }

  /** A new order is a leaf to the scans, and its price is the upper half of its key. */
  lemma NewOrderIsSeen(ownerSlot: U8, key: U128, owner: Pubkey, quantity: U64, timestamp: U64,
                       timeInForce: U16, pegLimit: U64, clientOrderId: U64)
    ensures var leaf := LeafNode.New(ownerSlot, key, owner, quantity, timestamp, timeInForce, pegLimit, clientOrderId);
            NodeOf(leaf).tag == LEAF_NODE_TAG && NodeOf(leaf).Price() == key / 0x1_0000_0000_0000_0000
  {
    hide NodeOf, AnyNode.Price;
    ScanReadsLeaf(LeafNode.New(ownerSlot, key, owner, quantity, timestamp, timeInForce, pegLimit, clientOrderId));
  }

  // ----- the scans -----

  predicate AllValid(nodes: seq<AnyNode>) {
    forall i :: 0 <= i < |nodes| ==> nodes[i].Valid()
  }

  /** The prices of the leaves among the nodes, in order. */
  function LeafPrices(nodes: seq<AnyNode>): seq<U64>
    requires AllValid(nodes)
  {
    if nodes == [] then []
    else
      var last := nodes[|nodes| - 1];
      LeafPrices(nodes[..|nodes| - 1]) + (if last.tag == LEAF_NODE_TAG then [last.Price()] else [])
  }

  /** A book side whose nodes are these leaves, serialised. */
  function NodesOf(leaves: seq<LeafNode>): (nodes: seq<AnyNode>)
    ensures |nodes| == |leaves| && AllValid(nodes)
  {
    seq(|leaves|, i requires 0 <= i < |leaves| => NodeOf(leaves[i]))
  }

  /** The scans over serialised orders see every order's price, in order. */
  lemma {:induction false} ScanSeesOrders(leaves: seq<LeafNode>)
    requires forall i :: 0 <= i < |leaves| ==> leaves[i].tag == LEAF_NODE_TAG
    ensures LeafPrices(NodesOf(leaves)) == seq(|leaves|, i requires 0 <= i < |leaves| => leaves[i].PriceData())
  {
    hide NodeOf, AnyNode.Price;
    if leaves != [] {
      var n := |leaves| - 1;
      ScanSeesOrders(leaves[..n]);
      ScanReadsLeaf(leaves[n]);
      assert NodesOf(leaves)[..n] == NodesOf(leaves[..n]);
    }
  }

  /** Index just past the last zero price; zero if there is none. */
  function AfterLastZero(prices: seq<U64>): (i: nat)
    ensures i <= |prices|
    ensures i == 0 || prices[i - 1] == 0
    ensures forall j :: i <= j < |prices| ==> prices[j] > 0
  {
    if prices == [] then 0
    else if prices[|prices| - 1] == 0 then |prices|
    else AfterLastZero(prices[..|prices| - 1])
  }

  predicate IsMinimum(prices: seq<U64>, p: U64) {
    p in prices && forall i :: 0 <= i < |prices| ==> p <= prices[i]
  }

  predicate IsMaximum(prices: seq<U64>, p: U64) {
    p in prices && forall i :: 0 <= i < |prices| ==> prices[i] <= p
  }

  /** `r` is the smallest price after the last zero price, if any leaf follows it. */
  predicate MinResult(prices: seq<U64>, r: Option<U64>) {
    var tail := prices[AfterLastZero(prices)..];
    if tail == [] then r == None else r.Some? && IsMinimum(tail, r.value)
  }

  /** `r` is the largest price, unless that is zero or there is no leaf. */
  predicate MaxResult(prices: seq<U64>, r: Option<U64>) {
    if r.Some? then r.value > 0 && IsMaximum(prices, r.value)
    else forall i :: 0 <= i < |prices| ==> prices[i] == 0
  }

  function Found(p: U64): Option<U64> {
    if p > 0 then Some(p) else None
  }

  method FindMin(nodes: seq<AnyNode>) returns (r: Option<U64>)
    requires AllValid(nodes)
    ensures MinResult(LeafPrices(nodes), r)
  {
    hide LeafPrices, MinResult, AnyNode.Price;
    var p: U64 := 0;
    NothingScanned(nodes);
    for i := 0 to |nodes|
      invariant MinResult(LeafPrices(nodes[..i]), Found(p))
    {
      LeafPricesOfOneMore(nodes, i);
      if nodes[i].tag == LEAF_NODE_TAG {
        var price := nodes[i].Price();
        MinOfOneMore(LeafPrices(nodes[..i]), p, price);
        if price < p || p == 0 {
          p := price;
        }
      }
    }
    assert nodes[..|nodes|] == nodes;
    return Found(p);
  }

  lemma NothingScanned(nodes: seq<AnyNode>)
    requires AllValid(nodes)
    ensures MinResult(LeafPrices(nodes[..0]), None) && MaxResult(LeafPrices(nodes[..0]), None)
  {
  }

  lemma LeafPricesOfOneMore(nodes: seq<AnyNode>, i: nat)
    requires AllValid(nodes) && i < |nodes|
    ensures LeafPrices(nodes[..i + 1])
            == if nodes[i].tag == LEAF_NODE_TAG then LeafPrices(nodes[..i]) + [nodes[i].Price()]
               else LeafPrices(nodes[..i])
  {
    assert nodes[..i + 1][..i] == nodes[..i];
  }

  lemma MinOfOneMore(before: seq<U64>, p: U64, price: U64)
    requires MinResult(before, Found(p))
    ensures MinResult(before + [price], Found(if price < p || p == 0 then price else p))
  {
    var prices := before + [price];
    assert prices[..|before|] == before;
    var tail := before[AfterLastZero(before)..];
    assert prices[AfterLastZero(prices)..] == if price == 0 then [] else tail + [price];
    if price != 0 {
      assert (tail + [price])[|tail|] == price;
    }
  }

  method FindMax(nodes: seq<AnyNode>) returns (r: Option<U64>)
    requires AllValid(nodes)
    ensures MaxResult(LeafPrices(nodes), r)
  {
    hide LeafPrices, MaxResult, AnyNode.Price;
    var p: U64 := 0;
    NothingScanned(nodes);
    for i := 0 to |nodes|
      invariant MaxResult(LeafPrices(nodes[..i]), Found(p))
    {
      LeafPricesOfOneMore(nodes, i);
      if nodes[i].tag == LEAF_NODE_TAG {
        var price := nodes[i].Price();
        MaxOfOneMore(LeafPrices(nodes[..i]), p, price);
        if price > p {
          p := price;
        }
      }
    }
    assert nodes[..|nodes|] == nodes;
    return Found(p);
  }

  lemma MaxOfOneMore(before: seq<U64>, p: U64, price: U64)
    requires MaxResult(before, Found(p))
    ensures MaxResult(before + [price], Found(if price > p then price else p))
  {
    assert (before + [price])[|before|] == price;
  }

  // ----- when the scans are right -----

  predicate AllPositive(prices: seq<U64>) {
    forall i :: 0 <= i < |prices| ==> prices[i] > 0
  }

  /** The minimum scan finds the true minimum exactly when there are leaves and none has price zero. */
  lemma FindMinExactIff(prices: seq<U64>, r: Option<U64>)
    requires MinResult(prices, r)
    ensures r.Some? && IsMinimum(prices, r.value) <==> prices != [] && AllPositive(prices)
  {
    var k := AfterLastZero(prices);
    if k == 0 {
      assert prices[0..] == prices;
    } else {
      assert prices[k - 1] == 0;
    }
  }

  /** With positive prices both scans find something or neither does, and the minimum is at most the
      maximum; in general a minimum found still implies a maximum no smaller. */
  lemma ScansAgree(prices: seq<U64>, min: Option<U64>, max: Option<U64>)
    requires MinResult(prices, min) && MaxResult(prices, max)
    ensures AllPositive(prices) ==> (min == None <==> max == None)
    ensures min.Some? ==> max.Some? && min.value <= max.value
  {
    var k := AfterLastZero(prices);
    var tail := prices[k..];
    if tail != [] {
      assert tail[0] == prices[k];
      var i :| 0 <= i < |tail| && tail[i] == min.value;
      assert prices[k + i] == min.value;
    } else if prices != [] {
      assert prices[k - 1] == 0;
    }
  }
}
