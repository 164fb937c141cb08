/** The free-list allocator and the pool of eight size classes (share/src/memory_pool.h).
    A pointer handed out is the node whose data it points at. */
module MemoryPool {
  import opened Bytes

  /** `memory_node`: of its data, only the first byte means something to the pool. */
  class Node {
    const size: nat
    ghost const owner: nat    // the number of the size class it was made for
    var first: Byte
    var next: Node?

    constructor (size: nat, ghost owner: nat)
      ensures next == null && this.size == size && this.owner == owner
    {
      this.size, this.owner := size, owner;
      first := 0;
      next := null;
    }
  }

  ghost function Elements(nodes: seq<Node>): set<Node> {
    set x | x in nodes
  }

  ghost function InBlocks(pool: seq<seq<Node>>): set<Node> {
    if pool == [] then {} else Elements(pool[0]) + InBlocks(pool[1..])
  }

  ghost predicate Distinct(nodes: seq<Node>) {
    forall i, j :: 0 <= i < j < |nodes| ==> nodes[i] != nodes[j]
  }

  /** The free nodes and those handed out are distinct nodes of the right size,
      and together are all the nodes of all blocks. */
  ghost predicate Partition(free: seq<Node>, unused: set<Node>, outstanding: set<Node>, pool: seq<seq<Node>>,
                            dataSize: nat, nodeNum: nat, number: nat)
  {
    && Distinct(free) && unused == Elements(free)
    && unused <= InBlocks(pool) && outstanding <= InBlocks(pool)
    && (forall x :: x in InBlocks(pool) ==> (x in unused <==> x !in outstanding))
    && (forall x :: x in InBlocks(pool) ==> x.size == dataSize && x.owner == number)
    && |free| + |outstanding| == nodeNum * |pool|
  }

  lemma FirstElement(free: seq<Node>)
    requires free != [] && Distinct(free)
    ensures Elements(free) == {free[0]} + Elements(free[1..])
    ensures free[0] !in Elements(free[1..]) && Distinct(free[1..])
  {
    var rest := free[1..];
    forall x
      ensures x in free <==> x == free[0] || x in rest
    {
      assert free == [free[0]] + rest;
    }
  }

  lemma HandOut(free: seq<Node>, unused: set<Node>, outstanding: set<Node>, pool: seq<seq<Node>>,
                dataSize: nat, nodeNum: nat, number: nat)
    requires Partition(free, unused, outstanding, pool, dataSize, nodeNum, number) && free != []
    ensures Partition(free[1..], unused - {free[0]}, outstanding + {free[0]}, pool, dataSize, nodeNum, number)
    ensures free[0] in unused && free[0] !in outstanding && Distinct(free)
    ensures free[0].size == dataSize && free[0].owner == number
  {
    hide InBlocks, Elements, Distinct;
    FirstElement(free);
  }

  lemma TakeBack(free: seq<Node>, unused: set<Node>, outstanding: set<Node>, pool: seq<seq<Node>>,
                 dataSize: nat, nodeNum: nat, number: nat, node: Node)
    requires Partition(free, unused, outstanding, pool, dataSize, nodeNum, number) && node in outstanding
    ensures Partition([node] + free, Elements([node] + free), outstanding - {node}, pool, dataSize, nodeNum, number)
    ensures node !in unused && forall x :: x in Elements([node] + free) <==> x == node || x in unused
  {
    hide InBlocks;
    var longer := [node] + free;
    assert longer[1..] == free;
    forall i | 0 <= i < |free|
      ensures free[i] != node
    {
      assert free[i] in Elements(free);
    }
    FirstElement(longer);
  }

  lemma NoneUnused(unused: set<Node>, outstanding: set<Node>, pool: seq<seq<Node>>,
                   dataSize: nat, nodeNum: nat, number: nat)
    requires Partition([], unused, outstanding, pool, dataSize, nodeNum, number)
    ensures unused == {}
  {
    hide InBlocks;
  }

  lemma SameElements(a: seq<Node>, b: seq<Node>)
    requires |a| == |b| && Distinct(a) && forall i :: 0 <= i < |a| ==> b[i] == a[|a| - 1 - i]
    ensures Elements(b) == Elements(a) && Distinct(b)
  {
    forall x | x in a
      ensures x in b
    {
      var i :| 0 <= i < |a| && a[i] == x;
      assert b[|a| - 1 - i] == x;
    }
  }

  lemma BlocksGrow(block: seq<Node>, pool: seq<seq<Node>>)
    ensures InBlocks([block] + pool) == Elements(block) + InBlocks(pool)
  {
    assert ([block] + pool)[1..] == pool;
  }

  lemma AddBlock(outstanding: set<Node>, pool: seq<seq<Node>>, dataSize: nat, nodeNum: nat, number: nat,
                 block: seq<Node>, free: seq<Node>)
    requires Partition([], {}, outstanding, pool, dataSize, nodeNum, number)
    requires |block| == |free| == nodeNum && Elements(block) == Elements(free) && Distinct(free)
    requires forall x, y :: x in Elements(block) && y in outstanding ==> x != y
    requires forall x :: x in Elements(block) ==> x.size == dataSize && x.owner == number
    ensures Partition(free, Elements(free), outstanding, [block] + pool, dataSize, nodeNum, number)
  {
    BlocksGrow(block, pool);
    hide InBlocks, Elements, Distinct;
    assert nodeNum * (|pool| + 1) == nodeNum * |pool| + nodeNum;
  }

  ghost function Follower(list: seq<Node>, k: nat): Node? {
    if k + 1 < |list| then list[k + 1] else null
  }

  /** `head` starts a null-terminated chain through the nodes of `list`, which are all in `among`. */
  ghost predicate Chain(head: Node?, list: seq<Node>, among: set<Node>)
    reads among
  {
    && (forall k :: 0 <= k < |list| ==> list[k] in among)
    && head == (if list == [] then null else list[0])
    && forall k :: 0 <= k < |list| ==> list[k].next == Follower(list, k)
  }

  lemma ChainRest(list: seq<Node>, among: set<Node>)
    requires list != [] && Distinct(list) && Chain(list[0], list, among)
    ensures Chain(list[0].next, list[1..], among - {list[0]})
  {
    var rest := list[1..];
    assert list[0].next == Follower(list, 0);
    forall k | 0 <= k < |rest|
      ensures rest[k] in among - {list[0]} && rest[k].next == Follower(rest, k)
    {
      assert rest[k] == list[k + 1] && Follower(rest, k) == Follower(list, k + 1);
    }
  }

  lemma ChainPush(node: Node, list: seq<Node>, among: set<Node>, more: set<Node>)
    requires Chain(node.next, list, among) && node in more && forall x :: x in among ==> x in more
    ensures Chain(node, [node] + list, more)
  {
    var longer := [node] + list;
    forall k | 0 <= k < |longer|
      ensures longer[k] in more && longer[k].next == Follower(longer, k)
    {
      assert k > 0 ==> longer[k] == list[k - 1] && Follower(longer, k) == Follower(list, k - 1);
    }
  }

  lemma ChainHead(head: Node?, list: seq<Node>, among: set<Node>)
    requires Chain(head, list, among)
    ensures head == if list == [] then null else list[0]
    ensures list != [] ==> head in among
  {
  }

  class Allocator {
    const dataSize: nat
    const nodeNum: nat
    ghost const number: nat             // of the size class, for the pool
    var freeNode: Node?
    var pool: seq<seq<Node>>            // the blocks, newest first
    ghost var free: seq<Node>           // the nodes of the free list, from its head on
    ghost var unused: set<Node>         // the same nodes
    ghost var outstanding: set<Node>    // the nodes handed out

    /** The free list runs through exactly `free`, so it has no cycle. */
    ghost predicate Valid()
      reads this, unused
    {
      && nodeNum > 0 && Chain(freeNode, free, unused)
      && Partition(free, unused, outstanding, pool, dataSize, nodeNum, number)
    }

    constructor (dataSize: nat, nodeNum: nat, ghost number: nat)
      requires nodeNum > 0
      ensures Valid() && this.dataSize == dataSize && this.nodeNum == nodeNum && this.number == number
      ensures free == [] && unused == {} && outstanding == {} && pool == []
    {
      this.dataSize, this.nodeNum, this.number := dataSize, nodeNum, number;
      freeNode, pool, free, unused, outstanding := null, [], [], {}, {};
    }

    /** A new block, each node linked to the one before it; `list` is the free list it makes. */
    method NewBlock() returns (block: seq<Node>, ghost list: seq<Node>)
      requires nodeNum > 0
      ensures |block| == |list| == nodeNum && Distinct(block)
      ensures forall x :: x in Elements(block) ==> fresh(x) && x.size == dataSize && x.owner == number
      ensures forall i :: 0 <= i < nodeNum ==> list[i] == block[nodeNum - 1 - i]
      ensures Chain(block[nodeNum - 1], list, Elements(block))
    {
      block, list := [], [];
      while |block| < nodeNum
        invariant |block| == |list| <= nodeNum && Distinct(block)
        invariant forall x :: x in Elements(block) ==> fresh(x) && x.size == dataSize && x.owner == number
        invariant forall i :: 0 <= i < |list| ==> list[i] == block[|block| - 1 - i]
        invariant Chain(if block == [] then null else block[|block| - 1], list, Elements(block))
      {
        var node := new Node(dataSize, number);
        assert node !in Elements(block);
        if |block| > 0 {
          node.next := block[|block| - 1];
        }
        ghost var longer := block + [node];
        assert forall x :: x in Elements(longer) <==> x == node || x in Elements(block);
        ChainPush(node, list, Elements(block), Elements(longer));
        hide Chain, Elements;
        block, list := block + [node], [node] + list;
      }
    }

    method AddBlockMemory()
      requires Valid() && freeNode == null
      modifies `freeNode, `free, `unused, `pool
      ensures Valid() && free != []
      ensures forall x :: x in unused ==> fresh(x)
      ensures |pool| == old(|pool|) + 1
    {
      hide Chain, Elements, Partition, InBlocks, Distinct;
      ChainHead(freeNode, free, unused);
      NoneUnused(unused, outstanding, pool, dataSize, nodeNum, number);
      var block, list := NewBlock();
      SameElements(block, list);
      AddBlock(outstanding, pool, dataSize, nodeNum, number, block, list);
      freeNode, free, unused := block[nodeNum - 1], list, Elements(list);
      pool := [block] + pool;
      assert Chain(freeNode, free, unused);
    }

    method Allocate() returns (node: Node)
      requires Valid()
      modifies this, unused
      ensures Valid() && node !in old(outstanding)
      ensures forall x :: x in outstanding <==> x == node || x in old(outstanding)
      ensures node.size == dataSize && node.owner == number
      // the head of the free list, or a node of a new block when the list is empty
      ensures old(free) != [] ==> node == old(free)[0] && free == old(free)[1..] && pool == old(pool)
      ensures old(free) == [] ==> |pool| == old(|pool|) + 1
      ensures old(free) != [] ==> node in old(unused) && unused == old(unused) - {node}
      ensures old(free) == [] ==> fresh(node) && forall x :: x in unused ==> fresh(x)
    {
      hide Partition, Chain, InBlocks;
      ChainHead(freeNode, free, unused);
      if freeNode == null {
        AddBlockMemory();
      }
      ChainHead(freeNode, free, unused);
      node := TakeFirst();
    }

    /** The part of `allocate` that unlinks the first free node. */
    method TakeFirst() returns (node: Node)
      requires Valid() && free != []
      modifies `freeNode, `free, `unused, `outstanding, freeNode
      ensures Valid() && node == old(free)[0] && free == old(free)[1..] && node !in old(outstanding)
      ensures node in old(unused) && unused == old(unused) - {node}
      ensures outstanding == old(outstanding) + {node} && node.size == dataSize && node.owner == number
    {
      ChainHead(freeNode, free, unused);
      HandOut(free, unused, outstanding, pool, dataSize, nodeNum, number);
      ChainRest(free, unused);
      hide Partition, Chain, Distinct;
      node := freeNode;
      freeNode := freeNode.next;
      node.next := null;
      free, unused, outstanding := free[1..], unused - {node}, outstanding + {node};
      assert Chain(freeNode, free, unused);
    }

    /** Takes back a node that was handed out; it is the next to be handed out again. */
    method Deallocate(node: Node)
      requires Valid() && node in outstanding
      modifies `freeNode, `free, `unused, `outstanding, node
      ensures Valid() && outstanding == old(outstanding) - {node} && free == [node] + old(free)
      ensures forall x :: x in unused <==> x == node || x in old(unused)
    {
      TakeBack(free, unused, outstanding, pool, dataSize, nodeNum, number, node);
      hide Partition, Chain, Elements;
      node.next := freeNode;
      ghost var longer := [node] + free;
      ChainPush(node, free, unused, Elements(longer));
      freeNode := node;
      free, unused, outstanding := longer, Elements(longer), outstanding - {node};
      assert Chain(freeNode, free, unused);
    }
  }

  /** The sizes of the eight classes and the nodes in a block of each. */
  function ClassSize(number: nat): nat {
    match number
    case 1 => 32 case 2 => 64 case 3 => 128 case 4 => 256 case 5 => 512 case 6 => 1024 case 7 => 2048 case _ => 4096
  }

  function ClassNodes(number: nat): nat {
    match number
    case 1 => 512 case 2 => 256 case 3 => 128 case 4 => 64 case 5 => 32 case _ => 16
  }

  /** The class for a request, told from the size with the mark included; 0xFF for none. */
  function ClassFor(size: int): Byte {
    if size <= 32 then 1 else if size <= 64 then 2 else if size <= 128 then 3 else if size <= 256 then 4
    else if size <= 512 then 5 else if size <= 1024 then 6 else if size <= 2048 then 7 else if size <= 4096 then 8
    else 0xFF
  }

  /** The class chosen is the smallest that fits, and there is none exactly above 4096 bytes. */
  lemma SmallestFit(size: int, number: nat)
    requires 1 <= number <= 8
    ensures ClassFor(size) == number <==> size <= ClassSize(number) && (number > 1 ==> ClassSize(number - 1) < size)
    ensures ClassFor(size) == 0xFF <==> size > 4096
  {
  }

  /** The smallest class has 32 bytes, each further one twice as many, up to 4096; a block has
      16384 bytes, or 16 nodes where that is more. */
  lemma SizesDouble(number: nat)
    requires 1 <= number <= 8
    ensures ClassSize(1) == 32 && ClassSize(8) == 4096
    ensures number < 8 ==> ClassSize(number + 1) == 2 * ClassSize(number)
    ensures ClassNodes(number) == if 16384 / ClassSize(number) > 16 then 16384 / ClassSize(number) else 16
  {
  }

  lemma Cover(a: set<Node>, b: set<Node>, p: Node) returns (c: set<Node>)
    ensures p in c && (forall x :: x in a ==> x in c) && (forall x :: x in b ==> x in c)
    ensures forall x :: x in c ==> x in a || x in b || x == p
  {
    c := a + b + {p};
  }

  /** A class is in order, and the memory it has handed out carries its number. */
  ghost predicate InOrder(c: Allocator)
    reads c, c.unused, c.outstanding
  {
    c.Valid() && c.dataSize == ClassSize(c.number) && forall x :: x in c.outstanding ==> x.first == c.number
  }

  lemma Owners(c: Allocator)
    requires InOrder(c)
    ensures forall x :: x in c.unused ==> x.owner == c.number && x !in c.outstanding
    ensures forall x :: x in c.outstanding ==> x.owner == c.number
  {
  }

  class Pool {
    const classes: seq<Allocator>
    ghost var large: set<Node>    // the memory handed out that belongs to no class
    ghost var nodes: set<Node>    // all nodes

    ghost predicate Owns(k: nat)
      requires k < |classes|
      reads this, classes
    {
      && (forall x :: x in classes[k].unused ==> x in nodes)
      && (forall x :: x in classes[k].outstanding ==> x in nodes)
    }

    ghost predicate Valid()
      reads this, classes, nodes
    {
      && |classes| == 8
      && (forall k :: 0 <= k < 8 ==> classes[k].number == k + 1 && Owns(k) && InOrder(classes[k]))
      && (forall x :: x in large ==> x in nodes && x.first == 0xFF && x.owner == 0xFF)
    }

    /** Takes memory from class `k` and marks it. */
    method AllocateFrom(k: nat) returns (p: Node)
      requires Valid() && k < 8
      modifies this, classes[k], classes[k].unused
      ensures Valid() && p.size == ClassSize(k + 1) && p.first == k + 1
      ensures p !in old(classes[k].outstanding)
      ensures forall x :: x in classes[k].outstanding <==> x == p || x in old(classes[k].outstanding)
      ensures large == old(large) && p.owner == k + 1
      ensures p in old(classes[k].unused) || fresh(p)
    {
      hide InOrder;
      AllOwners();
      ghost var mine := classes[k].unused;
      forall j | 0 <= j < 8 && j != k
        ensures forall x :: x in classes[j].unused || x in classes[j].outstanding ==> x !in mine
      {
        assert forall x :: x in classes[j].unused || x in classes[j].outstanding ==> x.owner == j + 1;
        assert forall x :: x in mine ==> x.owner == k + 1;
      }
      p := Marked(classes[k], k + 1);
      nodes := Cover(nodes, classes[k].unused, p);
      forall j | 0 <= j < 8 && j != k
        ensures Owns(j) && InOrder(classes[j])
      {
        var c := classes[j];
        assert c != classes[k] && c.unused == old(c.unused) && c.outstanding == old(c.outstanding);
        assert forall x :: x in c.unused || x in c.outstanding ==> x !in mine;
        assert old(InOrder(c));
      }
    }

    /** Memory of one class, marked with its number. */
    static method Marked(c: Allocator, number: Byte) returns (p: Node)
      requires InOrder(c) && c.number == number
      modifies c, c.unused
      ensures InOrder(c) && p !in old(c.outstanding)
      ensures p.size == ClassSize(number) && p.first == number && p.owner == number
      ensures forall x :: x in c.outstanding <==> x == p || x in old(c.outstanding)
      ensures p in old(c.unused) || fresh(p)
      ensures forall x :: x in c.unused ==> x in old(c.unused) || fresh(x)
    {
      Owners(c);
      hide Chain, Partition;
      p := c.Allocate();
      p.first := number;
    }

    /** The eight allocators, each with its size and its number of nodes in a block. */
    static method NewClasses() returns (classes: seq<Allocator>)
      ensures |classes| == 8
      ensures forall k :: 0 <= k < 8 ==>
        fresh(classes[k]) && InOrder(classes[k]) && classes[k].number == k + 1
        && classes[k].nodeNum == ClassNodes(k + 1) && classes[k].unused == {} && classes[k].outstanding == {}
    {
      classes := [];
      while |classes| < 8
        invariant |classes| <= 8
        invariant forall k :: 0 <= k < |classes| ==>
          fresh(classes[k]) && InOrder(classes[k]) && classes[k].number == k + 1
          && classes[k].nodeNum == ClassNodes(k + 1) && classes[k].unused == {} && classes[k].outstanding == {}
      {
        var k := |classes| + 1;
        var c := new Allocator(ClassSize(k), ClassNodes(k), k);
        assert InOrder(c);
        hide InOrder;
        classes := classes + [c];
      }
    }

    constructor ()
      ensures Valid() && forall k, x :: 0 <= k <= 8 ==> !HandedOut(x, k)
    {
      hide InOrder;
      var classes := NewClasses();
      this.classes := classes;
      large, nodes := {}, {};
    }

    /** Memory that is handed out, by class `k`, or by none when `k` is 8. */
    ghost predicate HandedOut(p: Node, k: nat)
      requires k <= 8 == |classes|
      reads this, classes
    {
      if k < 8 then p in classes[k].outstanding else p in large
    }

    /** Memory with at least `n` bytes after the mark, from the smallest class that has
        them; `k` is that class. It was not handed out before, and nothing else changes hands. */
    method Allocate(n: int) returns (p: Node, ghost k: nat)
      requires Valid()
      modifies this, classes, nodes
      ensures Valid() && p.size - 1 >= n && p.first == ClassFor(n + 1)
      ensures p.size == if n + 1 <= 4096 then ClassSize(ClassFor(n + 1)) else n + 1
      ensures k == if ClassFor(n + 1) == 0xFF then 8 else ClassFor(n + 1) - 1
      ensures forall j :: 0 <= j <= 8 ==> (HandedOut(p, j) <==> j == k)
      ensures forall j :: 0 <= j <= 8 && p in old(nodes) ==> !old(HandedOut(p, j))
      ensures forall j, x :: 0 <= j <= 8 && x in old(nodes) && x != p ==> (HandedOut(x, j) <==> old(HandedOut(x, j)))
      ensures forall j, x :: 0 <= j <= 8 && HandedOut(x, j) ==> x == p || x in old(nodes)
    {
      hide InOrder;
      AllOwners();
      var bufferSize := n + 1;
      var flag: Byte := 0xFF;
      if bufferSize <= 32 {
        flag := 1;
      } else if bufferSize <= 64 {
        flag := 2;
      } else if bufferSize <= 128 {
        flag := 3;
      } else if bufferSize <= 128 * 2 {
        flag := 4;
      } else if bufferSize <= 128 * 4 {
        flag := 5;
      } else if bufferSize <= 128 * 8 {
        flag := 6;
      } else if bufferSize <= 128 * 16 {
        flag := 7;
      } else if bufferSize <= 128 * 32 {
        flag := 8;
      }
      if flag != 0xFF {
        k := flag - 1;
        p := AllocateFrom(flag - 1);
      } else {
        k := 8;
        p := AllocateLarge(bufferSize);
      }
      AllOwners();
    }

    /** What is handed out knows who handed it out. */
    lemma AllOwners()
      requires Valid()
      ensures forall j, x :: 0 <= j < 8 && x in classes[j].outstanding ==> x.owner == j + 1 && x in nodes
      ensures forall j, x :: 0 <= j < 8 && x in classes[j].unused ==> x.owner == j + 1 && x !in classes[j].outstanding
    {
      hide InOrder;
      forall j | 0 <= j < 8
        ensures forall x :: x in classes[j].unused ==> x.owner == j + 1 && x !in classes[j].outstanding
        ensures forall x :: x in classes[j].outstanding ==> x.owner == j + 1
      {
        Owners(classes[j]);
      }
    }

    /** `new char[size]` */
    method AllocateLarge(size: nat) returns (p: Node)
      requires Valid()
      modifies this
      ensures Valid() && fresh(p) && p.size == size && p.first == 0xFF && p.owner == 0xFF
      ensures forall x :: x in large <==> x == p || x in old(large)
    {
      hide InOrder;
      p := new Node(size, 0xFF);
      p.first := 0xFF;
      nodes := Cover(nodes, {}, p);
      large := large + {p};
    }

    /** Memory given back to the class that handed it out. */
    static method Returned(c: Allocator, p: Node)
      requires InOrder(c) && p in c.outstanding
      modifies c, p
      ensures InOrder(c) && c.free == [p] + old(c.free)
      ensures forall x :: x in c.outstanding <==> x != p && x in old(c.outstanding)
      ensures forall x :: x in c.unused <==> x == p || x in old(c.unused)
    {
      Owners(c);
      hide Chain, Partition;
      c.Deallocate(p);
    }

    method GiveBack(p: Node, k: nat)
      requires Valid() && k < 8 && p in classes[k].outstanding
      modifies classes[k], p
      ensures Valid() && classes[k].free == [p] + old(classes[k].free)
      ensures forall x :: x in classes[k].outstanding <==> x != p && x in old(classes[k].outstanding)
    {
      hide InOrder;
      AllOwners();
      Returned(classes[k], p);
    }

    /** Gives memory back, told by its mark to the class it came from. */
    method Deallocate(p: Node, ghost k: nat)
      requires Valid() && k <= 8 && HandedOut(p, k)
      modifies this, classes, p
      ensures Valid() && nodes == old(nodes)
      ensures forall j, x :: 0 <= j <= 8 && x in nodes ==>
        (HandedOut(x, j) <==> old(HandedOut(x, j)) && (x != p || j != k))
      // it is the next memory that its class hands out
      ensures k < 8 ==> classes[k].free == [p] + old(classes[k].free)
    {
      if k < 8 {
        MarkOf(classes[k], p);
      }
      hide InOrder;
      var flag := p.first;
      if 1 <= flag <= 8 {
        GiveBack(p, flag - 1);
      } else {
        large := large - {p};
      }
    }
  }

  lemma MarkOf(c: Allocator, p: Node)
    requires InOrder(c) && p in c.outstanding
    ensures p.first == c.number
  {
  }
}
