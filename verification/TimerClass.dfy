/** `class timer` of share/src/timer.cpp: the wheel as doubly linked lists that are
    relinked in place. */
module TimerClass {
  import opened TimerWheel
  import opened TimerAgenda
  import opened TimerRuns

  class TimerNode {
    var pre: TimerNode?
    var next: TimerNode?
    const info: Timer
    ghost var slot: nat  // the slot of its row that holds the node

    constructor (info: Timer)
      ensures this.info == info && pre == null && next == null
    {
      this.info := info;
      pre, next := null, null;
    }
  }

  ghost function Infos(list: seq<TimerNode>): (timers: seq<Timer>)
    ensures |timers| == |list| && forall k :: 0 <= k < |list| ==> timers[k] == list[k].info
  {
    seq(|list|, k requires 0 <= k < |list| => list[k].info)
  }

  ghost function After(list: seq<TimerNode>, k: nat): TimerNode? {
    if k + 1 < |list| then list[k + 1] else null
  }

  /** `head` starts a null-terminated chain through the distinct nodes of `list`,
      with back links everywhere but at the front. */
  ghost predicate Linked(head: TimerNode?, list: seq<TimerNode>)
    reads list
  {
    && head == (if list == [] then null else list[0])
    && (forall k :: 0 <= k < |list| ==> list[k].next == After(list, k))
    && (forall k :: 0 < k < |list| ==> list[k].pre == list[k - 1])
    && (forall j, k :: 0 <= j < k < |list| ==> list[j] != list[k])
  }

  /** A whole slot list: nothing before the front either. */
  ghost predicate Closed(head: TimerNode?, list: seq<TimerNode>)
    reads list
  {
    Linked(head, list) && (list != [] ==> list[0].pre == null)
  }

  lemma TailLinked(list: seq<TimerNode>)
    requires list != [] && Linked(list[0], list)
    ensures Linked(list[0].next, list[1..])
  {
    var rest := list[1..];
    assert list[0].next == After(list, 0);
    forall k | 0 <= k < |rest|
      ensures rest[k].next == After(rest, k)
    {
      assert rest[k] == list[k + 1] && After(rest, k) == After(list, k + 1);
    }
  }

  /** Links `node` behind the front of a non-empty list. */
  method LinkBehind(cur: TimerNode, node: TimerNode, ghost list: seq<TimerNode>)
    requires Closed(cur, list) && list != [] && node !in list
    modifies node`pre, node`next, list
    ensures Closed(cur, [cur, node] + list[1..])
    ensures forall n :: n in list ==> n.slot == old(n.slot)
  {
    assert cur == list[0] && list[0].next == After(list, 0);
    node.next := cur.next;
    node.pre := cur;
    cur.next := node;
    if node.next != null {
      assert node.next == list[1];
      node.next.pre := node;
    }
    ghost var list' := [cur, node] + list[1..];
    forall k | 0 <= k < |list'|
      ensures list'[k].next == After(list', k)
      ensures k > 0 ==> list'[k].pre == list'[k - 1]
    {
      assert k == 0 ==> list'[k + 1] == node;
      assert k >= 2 ==> list'[k] == list[k - 1];
      assert k >= 1 ==> After(list', k) == After(list, k - 1);
    }
    forall j, k | 0 <= j < k < |list'|
      ensures list'[j] != list'[k]
    {
      if k >= 2 {
        assert list'[k] == list[k - 1];
      }
    }
  }

  ghost function Without(list: seq<TimerNode>, k: nat): seq<TimerNode>
    requires k < |list|
  {
    list[..k] + list[k + 1..]
  }

  lemma HeadOf(head: TimerNode?, list: seq<TimerNode>)
    requires Closed(head, list)
    ensures head == null <==> list == []
    ensures list != [] ==> head == list[0]
  {
  }

  lemma ClosedFront(head: TimerNode, list: seq<TimerNode>)
    requires Closed(head, list)
    ensures list != [] && head == list[0] && head.next == After(list, 0)
    ensures Without(list, 0) == list[1..] && Infos(list) == [head.info] + Infos(list[1..])
  {
    assert list[0].next == After(list, 0);
  }

  lemma ClosedEmpty(list: seq<TimerNode>)
    requires Closed(null, list)
    ensures Infos(list) == []
  {
  }

  lemma Prepended(a: seq<Timer>, x: Timer, b: seq<Timer>)
    ensures a + ([x] + b) == a + [x] + b
  {
  }

  method LinkAlone(node: TimerNode)
    modifies node`pre, node`next
    ensures Closed(node, [node])
  {
    node.next := null;
    node.pre := null;
  }

  lemma WithoutNext(list: seq<TimerNode>, k: nat)
    requires k < |list|
    requires forall j :: 0 <= j < |list| && j != k - 1 && j != k ==> list[j].next == After(list, j)
    requires k > 0 ==> list[k - 1].next == After(list, k)
    ensures var rest := Without(list, k); forall j :: 0 <= j < |rest| ==> rest[j].next == After(rest, j)
  {
    var rest := Without(list, k);
    forall j | 0 <= j < |rest|
      ensures rest[j].next == After(rest, j)
    {
      if j < k {
        assert rest[j] == list[j];
      } else {
        assert rest[j] == list[j + 1];
      }
    }
  }

  lemma WithoutPre(list: seq<TimerNode>, k: nat)
    requires k < |list|
    requires forall j :: 0 < j < |list| && j != k && j != k + 1 ==> list[j].pre == list[j - 1]
    requires k + 1 < |list| ==> list[k + 1].pre == if k > 0 then list[k - 1] else null
    ensures var rest := Without(list, k); forall j :: 0 < j < |rest| ==> rest[j].pre == rest[j - 1]
  {
    var rest := Without(list, k);
    forall j | 0 < j < |rest|
      ensures rest[j].pre == rest[j - 1]
    {
      if j < k {
        assert rest[j] == list[j] && rest[j - 1] == list[j - 1];
      } else if j > k {
        assert rest[j] == list[j + 1] && rest[j - 1] == list[j];
      } else {
        assert rest[j] == list[j + 1] && rest[j - 1] == list[j - 1];
      }
    }
  }

  lemma WithoutDistinct(list: seq<TimerNode>, k: nat)
    requires k < |list| && forall i, j :: 0 <= i < j < |list| ==> list[i] != list[j]
    ensures var rest := Without(list, k); forall i, j :: 0 <= i < j < |rest| ==> rest[i] != rest[j]
  {
    var rest := Without(list, k);
    assert forall j :: 0 <= j < k ==> rest[j] == list[j];
    assert forall j :: k <= j < |rest| ==> rest[j] == list[j + 1];
  }

  /** The links around a removed node are all that has to change. */
  lemma WithoutLinked(head: TimerNode, list: seq<TimerNode>, k: nat)
    requires k < |list| && head == list[0]
    requires forall i, j :: 0 <= i < j < |list| ==> list[i] != list[j]
    requires forall j :: 0 <= j < |list| && j != k - 1 && j != k ==> list[j].next == After(list, j)
    requires forall j :: 0 < j < |list| && j != k && j != k + 1 ==> list[j].pre == list[j - 1]
    requires k > 0 ==> list[k - 1].next == After(list, k)
    requires k + 1 < |list| ==> list[k + 1].pre == if k > 0 then list[k - 1] else null
    requires k > 0 ==> list[0].pre == null
    ensures Closed(if k > 0 then head else After(list, 0), Without(list, k))
  {
    WithoutNext(list, k);
    WithoutPre(list, k);
    WithoutDistinct(list, k);
    var rest := Without(list, k);
    assert rest != [] ==> rest[0] == if k > 0 then list[0] else list[1];
  }

  /** `del_timer_core`: unlinks a node, wherever in its list it is. */
  method DelTimerCore(node: TimerNode, ghost head: TimerNode, ghost list: seq<TimerNode>, ghost k: nat)
    requires Closed(head, list) && k < |list| && list[k] == node
    modifies list
    ensures Closed(if k > 0 then head else After(list, 0), Without(list, k))
    ensures forall n :: n in list ==> n.slot == old(n.slot)
  {
    assert node.next == After(list, k);
    if node.pre != null {
      assert k > 0 && node.pre == list[k - 1];
      node.pre.next := node.next;
    }
    if node.next != null {
      assert node.next == list[k + 1];
      node.next.pre := node.pre;
    }
    WithoutLinked(head, list, k);
  }

  ghost function InsertNode(list: seq<TimerNode>, node: TimerNode): seq<TimerNode> {
    if list == [] then [node] else [list[0], node] + list[1..]
  }

  ghost function ViewOf(lists: seq<seq<TimerNode>>): (slots: Slots)
    ensures |slots| == |lists| && forall i :: 0 <= i < |lists| ==> slots[i] == Infos(lists[i])
  {
    seq(|lists|, i requires 0 <= i < |lists| => Infos(lists[i]))
  }

  lemma ViewInsert(lists: seq<seq<TimerNode>>, i: nat, node: TimerNode)
    requires i < |lists|
    ensures ViewOf(lists[i := InsertNode(lists[i], node)])
         == ViewOf(lists)[i := Insert(ViewOf(lists)[i], node.info)]
  {
    assert Infos(InsertNode(lists[i], node)) == Insert(Infos(lists[i]), node.info);
  }

  /** One of the four vectors of slot heads. */
  class Row {
    const heads: array<TimerNode?>
    ghost var lists: seq<seq<TimerNode>>
    ghost var nodes: set<TimerNode>

    /** Every listed node belongs to the row and knows its slot, so lists are disjoint. */
    ghost predicate Owned()
      reads this, nodes
    {
      forall i, k :: 0 <= i < |lists| && 0 <= k < |lists[i]| ==> lists[i][k] in nodes && lists[i][k].slot == i
    }

    ghost predicate Shaped(i: nat, but: nat)
      requires Owned() && i < |lists| == heads.Length
      reads this, heads, nodes
    {
      if i == but then Linked(heads[i], lists[i]) else Closed(heads[i], lists[i])
    }

    /** Every list in shape, except that the front of list `but` may have a stale back link. */
    ghost predicate ValidBut(but: nat)
      reads this, heads, nodes
    {
      |lists| == heads.Length && Owned() && forall i :: 0 <= i < |lists| ==> Shaped(i, but)
    }

    ghost predicate Valid()
      reads this, heads, nodes
    {
      ValidBut(heads.Length)
    }

    ghost function View(): Slots
      reads this
    {
      ViewOf(lists)
    }

    ghost function Footprint(): set<object>
      reads this
    {
      {this, heads} + nodes
    }

    constructor (size: nat)
      ensures Valid() && fresh(heads) && heads.Length == size
      ensures nodes == {} && View() == EmptyRow(size)
    {
      heads := new TimerNode?[size](i => null);
      lists := seq(size, i => []);
      nodes := {};
      new;
      EmptyView(lists, size);
    }

    /** `add_node` */
    method AddNode(i: nat, node: TimerNode)
      requires Valid() && i < heads.Length && node !in nodes
      modifies this, heads, nodes, node
      ensures Valid() && nodes == old(nodes) + {node}
      ensures lists == old(lists)[i := InsertNode(old(lists[i]), node)]
    {
      node.slot := i;
      LinkIn(i, node);
      Register(i, node);
    }

    /** The pointer part of `add_node`. */
    method LinkIn(i: nat, node: TimerNode)
      requires Valid() && i < heads.Length && node !in nodes
      modifies heads, nodes, node`pre, node`next
      ensures OthersShaped(i) && Closed(heads[i], InsertNode(lists[i], node))
    {
      hide Linked, Closed;
      assert Shaped(i, heads.Length);
      HeadOf(heads[i], lists[i]);
      assert forall n :: n in lists[i] ==> n in nodes && n.slot == i;
      if heads[i] == null {
        heads[i] := node;
        LinkAlone(node);
      } else {
        LinkBehind(heads[i], node, lists[i]);
      }
      assert Owned();
      forall j | 0 <= j < |lists|
        ensures j != i ==> Shaped(j, heads.Length)
      {
        if j != i {
          assert old(Shaped(j, heads.Length));
          ghost var list := lists[j];
          assert forall k :: 0 <= k < |list| ==> list[k] in nodes && list[k].slot == j;
          assert forall n :: n in list ==> n != node && n !in lists[i];
          assert Closed(heads[j], list);
        }
      }
    }

    ghost predicate OthersShaped(i: nat)
      reads this, heads, nodes
    {
      i < |lists| == heads.Length && Owned() && forall j :: 0 <= j < |lists| && j != i ==> Shaped(j, heads.Length)
    }

    /** Records that slot `i` now holds `node` too. */
    ghost method Register(i: nat, node: TimerNode)
      requires OthersShaped(i) && Closed(heads[i], InsertNode(lists[i], node))
      requires node !in nodes && node.slot == i
      modifies this`lists, this`nodes
      ensures Valid() && nodes == old(nodes) + {node}
      ensures lists == old(lists)[i := InsertNode(old(lists[i]), node)]
    {
      hide Linked, Closed;
      var list := lists[i];
      lists := lists[i := InsertNode(list, node)];
      nodes := nodes + {node};
      forall j, k | 0 <= j < |lists| && 0 <= k < |lists[j]|
        ensures lists[j][k] in nodes && lists[j][k].slot == j
      {
        if j != i {
          assert lists[j][k] == old(lists)[j][k];
        } else if lists[i][k] != node {
          assert lists[i][k] == old(lists)[i][if k == 0 then 0 else k - 1];
        }
      }
      forall j | 0 <= j < |lists|
        ensures Shaped(j, heads.Length)
      {
        if j != i {
          assert old(Shaped(j, heads.Length));
          assert forall k :: 0 <= k < |lists[j]| ==> lists[j][k] == old(lists)[j][k] && lists[j][k] in old(nodes);
          assert Closed(heads[j], lists[j]);
        }
      }
    }

    /** Takes the front node off slot `i`; the back link of the new front goes stale. */
    method PopFront(i: nat) returns (node: TimerNode)
      requires ValidBut(i) && i < heads.Length && heads[i] != null
      modifies this, heads
      ensures ValidBut(i) && old(lists[i]) != [] && node == old(lists[i])[0]
      ensures lists == old(lists)[i := old(lists[i])[1..]]
      ensures node in old(nodes) && nodes == old(nodes) - {node}
    {
      ghost var list := lists[i];
      assert Shaped(i, i);
      node := heads[i];
      assert list[0].next == After(list, 0);
      heads[i] := node.next;
      lists := lists[i := list[1..]];
      nodes := nodes - {node};
      assert lists[i] == list[1..] && forall k :: 0 <= k < |lists[i]| ==> lists[i][k] == list[k + 1];
      assert old(lists[i])[0] in old(nodes) && node.slot == i;
      forall j, k | 0 <= j < |lists| && 0 <= k < |lists[j]|
        ensures lists[j][k] in nodes && lists[j][k].slot == j
      {
        if j != i {
          assert lists[j][k] == old(lists)[j][k];
        } else {
          assert lists[j][k] == list[k + 1] && list[k + 1] in old(nodes) && list[0] != list[k + 1];
        }
      }
      forall j | 0 <= j < |lists|
        ensures Shaped(j, i)
      {
        if j != i {
          assert old(Shaped(j, i));
        } else {
          TailLinked(list);
        }
      }
    }

    /** `proc_up_layer_node`: empties slot `i` into the row of `level`. */
    method ProcUpLayerNode(i: nat, low: Row, level: Level)
      requires Valid() && low.Valid() && low != this && low.heads != heads && nodes !! low.nodes
      requires i < heads.Length && level != Day && low.heads.Length == Size(level)
      requires forall timer :: timer in View()[i] ==> WellPacked(timer)
      modifies this, heads, nodes, low, low.heads, low.nodes
      ensures Valid() && low.Valid() && nodes !! low.nodes
      ensures nodes + low.nodes == old(nodes) + old(low.nodes)
      ensures View() == old(View())[i := []]
      ensures low.View() == Cascade(level, old(low.View()), old(View())[i])
    {
      hide Owned, Shaped, Linked, Closed, WellPacked, UnpackSlot;
      ghost var start := lists;
      Relax(i);
      while heads[i] != null
        invariant ValidBut(i) && low.Valid() && nodes !! low.nodes
        invariant nodes + low.nodes == old(nodes) + old(low.nodes)
        invariant |lists| == |start| && lists == start[i := lists[i]]
        invariant forall timer :: timer in Infos(lists[i]) ==> WellPacked(timer)
        invariant |low.View()| == Size(level)
        invariant Cascade(level, low.View(), Infos(lists[i])) == Cascade(level, old(low.View()), old(View())[i])
        decreases |lists[i]|
      {
        ghost var list, slots := lists[i], low.View();
        var tmp := PopFront(i);
        assert Infos(list)[0] == tmp.info && Infos(list)[1..] == Infos(lists[i]);
        UnpackInRange(level, tmp.info);
        var index := UnpackSlot(level, tmp.info);
        ghost var lowLists := low.lists;
        low.AddNode(index, tmp);
        ViewInsert(lowLists, index, tmp);
      }
      heads[i] := null;
      Restore(i);
      assert View() == old(View())[i := []];
    }

    lemma Relax(i: nat)
      requires Valid()
      ensures ValidBut(i)
    {
      forall j | 0 <= j < |lists|
        ensures Shaped(j, i)
      {
        assert Shaped(j, heads.Length);
      }
    }

    method ClearHead(i: nat)
      requires ValidExcept(i)
      modifies heads
      ensures Valid()
    {
      heads[i] := null;
      forall j | 0 <= j < |lists|
        ensures Shaped(j, heads.Length)
      {
        assert j != i ==> old(Shaped(j, heads.Length));
      }
    }

    lemma Restore(i: nat)
      requires ValidBut(i) && i < heads.Length && heads[i] == null
      ensures Valid() && lists[i] == []
    {
      assert Shaped(i, i);
      forall j | 0 <= j < |lists|
        ensures Shaped(j, heads.Length)
      {
        assert Shaped(j, i);
      }
    }

    /** All lists but `i` in shape; `i` is empty but its head not yet cleared. */
    ghost predicate ValidExcept(i: nat)
      reads this, heads, nodes
    {
      OthersShaped(i) && lists[i] == []
    }

    /** The loop of `proc_node` over a list that is off its row. */
    static method FireList(first: TimerNode?, ghost list: seq<TimerNode>) returns (fired: seq<Timer>)
      requires Closed(first, list) && forall n :: n in list ==> WellPacked(n.info)
      modifies list
      ensures fired == Infos(list)
    {
      hide WellPacked, Closed, Linked, After, Without, Infos;
      fired := [];
      var node := first;
      ghost var rest := list;
      while node != null
        invariant Closed(node, rest) && (forall n :: n in rest ==> n in list && WellPacked(n.info))
        invariant fired + Infos(rest) == Infos(list)
        decreases |rest|
      {
        ghost var before := fired;
        ClosedFront(node, rest);
        fired := fired + [node.info];
        var tmp := node;
        node := node.next;
        OneShot(tmp.info);
        if Repeats(tmp.info) {
          assert false;
        } else {
          DelTimerCore(tmp, tmp, rest, 0);
        }
        Prepended(before, tmp.info, Infos(rest[1..]));
        rest := rest[1..];
      }
      ClosedEmpty(rest);
    }

    /** `proc_node` on slot `i`: runs the callbacks front to back and frees the nodes. */
    method ProcNode(i: nat) returns (fired: seq<Timer>)
      requires Valid() && i < heads.Length
      requires forall timer :: timer in View()[i] ==> WellPacked(timer)
      modifies this`lists, this`nodes, nodes
      ensures ValidExcept(i) && nodes <= old(nodes)
      ensures fired == old(View())[i] && View() == old(View())[i := []]
    {
      hide WellPacked;
      var node := heads[i];
      ghost var list := lists[i];
      assert Shaped(i, heads.Length);
      Detach(i);
      fired := FireList(node, list);
    }

    /** Forgets list `i`, whose nodes are about to be freed. */
    ghost method Detach(i: nat)
      requires Valid() && i < heads.Length
      requires forall timer :: timer in View()[i] ==> WellPacked(timer)
      modifies this`lists, this`nodes
      ensures ValidExcept(i) && nodes <= old(nodes) && lists == old(lists)[i := []]
      ensures forall n :: n in old(lists[i]) ==> n in old(nodes) && n !in nodes && WellPacked(n.info)
    {
      var list := lists[i];
      lists := lists[i := []];
      nodes := set n | n in nodes && n !in list;
      forall j, k | 0 <= j < |lists| && 0 <= k < |lists[j]|
        ensures lists[j][k] in nodes && lists[j][k].slot == j
      {
        assert lists[j][k] == old(lists)[j][k];
      }
      forall n | n in list
        ensures n in old(nodes) && WellPacked(n.info)
      {
        var k :| 0 <= k < |list| && list[k] == n;
        assert old(lists)[i][k] in old(nodes);
        assert Infos(list)[k] in old(View())[i];
      }
      forall j | 0 <= j < |lists| && j != i
        ensures Shaped(j, heads.Length)
      {
        assert old(Shaped(j, heads.Length));
      }
    }
  }

  ghost predicate Apart(a: Row, b: Row)
    reads a, b
  {
    a != b && a.heads != b.heads && a.nodes !! b.nodes
  }

  ghost predicate Separate(a: Row, b: Row, c: Row, d: Row)
    reads a.Footprint(), b.Footprint(), c.Footprint(), d.Footprint()
  {
    && a.Valid() && b.Valid() && c.Valid() && d.Valid()
    && Apart(a, b) && Apart(a, c) && Apart(a, d) && Apart(b, c) && Apart(b, d) && Apart(c, d)
  }

  /** Empties slot `i` of `up` into `low`, with two more rows standing by. */
  method DropSlot(up: Row, i: nat, low: Row, level: Level, c: Row, d: Row)
    requires Separate(up, low, c, d)
    requires i < up.heads.Length && level != Day && low.heads.Length == Size(level)
    requires forall timer :: timer in up.View()[i] ==> WellPacked(timer)
    modifies up.Footprint(), low.Footprint()
    ensures Separate(up, low, c, d)
    ensures up.Footprint() + low.Footprint() == old(up.Footprint() + low.Footprint())
    ensures up.View() == old(up.View())[i := []]
    ensures low.View() == Cascade(level, old(low.View()), old(up.View())[i])
    ensures c.View() == old(c.View()) && d.View() == old(d.View())
    ensures c.Footprint() == old(c.Footprint()) && d.Footprint() == old(d.Footprint())
  {
    up.ProcUpLayerNode(i, low, level);
  }

  method AddToRow(row: Row, i: nat, node: TimerNode, b: Row, c: Row, d: Row)
    requires Separate(row, b, c, d) && i < row.heads.Length
    requires node !in row.nodes && node !in b.nodes && node !in c.nodes && node !in d.nodes
    modifies row.Footprint(), node
    ensures Separate(row, b, c, d)
    ensures row.Footprint() == old(row.Footprint()) + {node}
    ensures row.View() == old(row.View())[i := Insert(old(row.View())[i], node.info)]
    ensures b.View() == old(b.View()) && c.View() == old(c.View()) && d.View() == old(d.View())
    ensures b.Footprint() == old(b.Footprint()) && c.Footprint() == old(c.Footprint())
         && d.Footprint() == old(d.Footprint())
  {
    ViewInsert(row.lists, i, node);
    row.AddNode(i, node);
  }

  method FireRow(row: Row, i: nat, b: Row, c: Row, d: Row) returns (fired: seq<Timer>)
    requires Separate(row, b, c, d) && i < row.heads.Length
    requires forall timer :: timer in row.View()[i] ==> WellPacked(timer)
    modifies row.Footprint()
    ensures Separate(row, b, c, d)
    ensures row.Footprint() <= old(row.Footprint())
    ensures fired == old(row.View())[i] && row.View() == old(row.View())[i := []]
    ensures b.View() == old(b.View()) && c.View() == old(c.View()) && d.View() == old(d.View())
    ensures b.Footprint() == old(b.Footprint()) && c.Footprint() == old(c.Footprint())
         && d.Footprint() == old(d.Footprint())
  {
    fired := row.ProcNode(i);
    row.ClearHead(i);
  }

  lemma Reorder(a: Row, b: Row, c: Row, d: Row)
    requires Separate(a, b, c, d)
    ensures Separate(c, d, b, a) && Separate(c, b, a, d) && Separate(b, a, c, d)
    ensures Separate(d, c, a, b) && Separate(c, b, a, d)
  {
  }

  /** Four rows of the wheel's sizes, separate and empty. */
  ghost predicate EmptyRows(seconds: Row, minutes: Row, hours: Row, days: Row)
    reads seconds.Footprint(), minutes.Footprint(), hours.Footprint(), days.Footprint()
  {
    && Separate(seconds, minutes, hours, days)
    && seconds.View() == EmptyRow(60) && minutes.View() == EmptyRow(60)
    && hours.View() == EmptyRow(24) && days.View() == EmptyRow(30)
    && seconds.heads.Length == 60 && minutes.heads.Length == 60
    && hours.heads.Length == 24 && days.heads.Length == 30
  }

  method NewRows() returns (seconds: Row, minutes: Row, hours: Row, days: Row)
    ensures EmptyRows(seconds, minutes, hours, days)
    ensures fresh(seconds.Footprint() + minutes.Footprint() + hours.Footprint() + days.Footprint())
  {
    hide Row.Valid, ViewOf, EmptyRow;
    seconds := new Row(60);
    minutes := new Row(60);
    hours := new Row(24);
    days := new Row(30);
  }

  class GameTimer {
    var timerId: nat
    var lastTime: int
    var secondIndex: nat
    var minuteIndex: nat
    var hourIndex: nat
    var dayIndex: nat
    const seconds: Row
    const minutes: Row
    const hours: Row
    const days: Row
    ghost var events: seq<Event>  // the run so far

    ghost function RowsFootprint(): set<object>
      reads seconds, minutes, hours, days
    {
      seconds.Footprint() + minutes.Footprint() + hours.Footprint() + days.Footprint()
    }

    ghost function Footprint(): set<object>
      reads seconds, minutes, hours, days
    {
      {this} + RowsFootprint()
    }

    ghost function RowViews(): Rows
      reads seconds, minutes, hours, days
    {
      Rows(seconds.View(), minutes.View(), hours.View(), days.View())
    }

    /** The rows are separate structures, each of them well linked. */
    ghost predicate RowsLinked()
      reads RowsFootprint()
      ensures RowsLinked() ==> RowViews().Valid()
    {
      && Separate(seconds, minutes, hours, days)
      && seconds.heads.Length == 60 && minutes.heads.Length == 60
      && hours.heads.Length == 24 && days.heads.Length == 30
      && RowViews().Valid()
    }

    ghost function View(): Wheel
      reads this, seconds, minutes, hours, days
    {
      Wheel(secondIndex, minuteIndex, hourIndex, dayIndex, RowViews())
    }

    /** The pointer structure is the wheel that the run so far leads to. */
    ghost predicate Valid()
      reads this, RowsFootprint()
    {
      && this !in RowsFootprint()
      && RowsLinked()
      && View() == Exec(events).wheel
      && timerId == |Exec(events).added|
    }

    /** All slots are empty and nothing has happened. */
    ghost predicate AtStart()
      reads this, RowsFootprint()
    {
      && EmptyRows(seconds, minutes, hours, days)
      && secondIndex == minuteIndex == hourIndex == dayIndex == timerId == 0 && events == []
    }

    /** The slots, which the source makes in `init`. */
    constructor ()
      ensures AtStart() && fresh(Footprint())
    {
      timerId, lastTime := 0, 0;
      secondIndex, minuteIndex, hourIndex, dayIndex := 0, 0, 0, 0;
      var s, m, h, d := NewRows();
      seconds, minutes, hours, days := s, m, h, d;
      events := [];
    }

    /** A timer is neither a row nor a list of heads nor a node. */
    lemma NotInRows()
      ensures this !in RowsFootprint()
    {
    }

    /** `init`: an empty timer is at the start of a run. */
    method Init(now: int)
      requires AtStart()
      modifies `lastTime
      ensures Valid() && events == [] && lastTime == now && Footprint() == old(Footprint())
    {
      hide Row.View, Separate, EmptyRow, Exec, EmptyRows;
      RowsAreEmpty(seconds, minutes, hours, days);
      NotInRows();
      lastTime := now;
      StartOfRun(View(), events);
    }

    ghost method Record(event: Event)
      requires RowsLinked() && this !in RowsFootprint()
      modifies this`events
      ensures events == old(events) + [event]
      ensures RowsLinked() && RowViews() == old(RowViews()) && RowsFootprint() == old(RowsFootprint())
    {
      events := events + [event];
    }

    /** `gen_timer_id` */
    method GenTimerId() returns (id: nat)
      requires RowsLinked() && this !in RowsFootprint()
      modifies this`timerId
      ensures id == timerId == old(timerId) + 1
      ensures RowsLinked() && RowViews() == old(RowViews()) && RowsFootprint() == old(RowsFootprint())
    {
      timerId := timerId + 1;
      return timerId;
    }

    /** `add_timer` with `repeat` false; returns the timer id. */
    method AddTimer(delay: nat) returns (id: nat)
      requires Valid()
      modifies Footprint()
      ensures Valid() && fresh(Footprint() - old(Footprint()))
      ensures events == old(events) + [Add(delay)] && lastTime == old(lastTime)
      ensures id == |DueTimes(events)|
    {
      hide RowsLinked, RowsFootprint, RowViews, Exec, DueTimes, WellPacked, TimerWheel.AddTimer, NewTimer;
      AddAndExec(events, delay);
      id := GenTimerId();
      ghost var before := RowsFootprint();
      AddTimerCore(id, delay);
      assert exists node :: fresh(node) && RowsFootprint() == before + {node};
      Record(Add(delay));
      assert fresh(Footprint() - old(Footprint()));
    }

    /** `add_timer_core` */
    method AddTimerCore(id: nat, delay: nat)
      requires RowsLinked() && this !in RowsFootprint() && WellPacked(NewTimer(View(), id, delay))
      modifies RowsFootprint()
      ensures RowsLinked() && View() == TimerWheel.AddTimer(old(View()), id, delay)
      ensures exists node :: fresh(node) && RowsFootprint() == old(RowsFootprint()) + {node}
    {
      hide RowsLinked, RowsFootprint, RowViews, WellPacked;
      var dayUnits := delay / 86400;
      var slotDay := (dayUnits + dayIndex) % 30;
      var hourUnits := delay / 3600;
      var slotHour := (hourUnits + hourIndex) % 24;
      var minuteUnits := delay / 60;
      var slotMinute := (minuteUnits + minuteIndex) % 60;
      var secondUnits := delay % 60;
      var slotSecond := (secondUnits + secondIndex) % 60;
      var slot1 := (slotDay * 2048 + slotHour * 64 + slotMinute) % 65536;
      var slot2 := (0 * 128 + slotSecond) % 256;
      var node := NewNode(Timer(id, delay, slot1, slot2));
      assert slotDay == SlotFor(Day, dayIndex, delay);
      assert slotHour == SlotFor(Hour, hourIndex, delay);
      assert slotMinute == SlotFor(Minute, minuteIndex, delay);
      assert slotSecond == SlotFor(Second, secondIndex, delay);
      assert node.info == NewTimer(View(), id, delay);
      if dayUnits > 0 {
        FileNode(Day, slotDay, node);
      } else if hourUnits > 0 {
        FileNode(Hour, slotHour, node);
      } else if minuteUnits > 0 {
        FileNode(Minute, slotMinute, node);
      } else {
        FileNode(Second, slotSecond, node);
      }
    }

    method NewNode(info: Timer) returns (node: TimerNode)
      requires RowsLinked()
      ensures fresh(node) && node.info == info && node !in RowsFootprint()
      ensures RowsLinked() && RowViews() == old(RowViews()) && RowsFootprint() == old(RowsFootprint())
    {
      node := new TimerNode(info);
    }

    /** `add_node` on a slot of the row of `level`. */
    method FileNode(level: Level, i: nat, node: TimerNode)
      requires RowsLinked() && i < Size(level) && WellPacked(node.info)
      requires node !in RowsFootprint()
      modifies RowsFootprint(), node
      ensures RowsLinked() && RowsFootprint() == old(RowsFootprint()) + {node}
      ensures var rows := old(RowViews()); var slots := rows.At(level);
              |slots| == Size(level) && RowViews() == rows.With(level, slots[i := Insert(slots[i], node.info)])
    {
      FiledValid(RowViews(), level, i, node.info);
      Reorder(seconds, minutes, hours, days);
      match level {
        case Second =>
          AddToRow(seconds, i, node, minutes, hours, days);
        case Minute =>
          AddToRow(minutes, i, node, seconds, hours, days);
          Reorder(minutes, seconds, hours, days);
        case Hour =>
          AddToRow(hours, i, node, minutes, seconds, days);
          Reorder(hours, minutes, seconds, days);
        case Day =>
          AddToRow(days, i, node, hours, seconds, minutes);
          Reorder(days, hours, seconds, minutes);
      }
    }

    /** Empties slot `i` of a row into the row below it. */
    method DropInto(level: Level, i: nat)
      requires RowsLinked() && level != Second && i < Size(level)
      modifies RowsFootprint()
      ensures RowsLinked() && RowViews() == Drop(old(RowViews()), level, i)
      ensures RowsFootprint() == old(RowsFootprint())
    {
      ghost var rows := RowViews();
      PackedAt(rows, level, i);
      DropValid(rows, level, i);
      Reorder(seconds, minutes, hours, days);
      match level {
        case Day =>
          DropSlot(days, i, hours, Hour, seconds, minutes);
          Reorder(days, hours, seconds, minutes);
        case Hour =>
          DropSlot(hours, i, minutes, Minute, seconds, days);
          Reorder(hours, minutes, seconds, days);
        case Minute =>
          DropSlot(minutes, i, seconds, Second, hours, days);
          Reorder(minutes, seconds, hours, days);
      }
      assert RowViews() == Drop(rows, level, i);
    }

    /** `proc_day_nodes` */
    method ProcDayNodes()
      requires RowsLinked() && this !in RowsFootprint()
      modifies this`dayIndex, RowsFootprint()
      ensures RowsLinked() && View() == ProcDay(old(View())) && RowsFootprint() == old(RowsFootprint())
    {
      hide RowsLinked, RowsFootprint, RowViews, Drop;
      dayIndex := dayIndex + hourIndex / 24;
      dayIndex := dayIndex % 30;
      DropInto(Day, dayIndex);
    }

    /** `proc_hour_nodes` */
    method ProcHourNodes()
      requires RowsLinked() && this !in RowsFootprint()
      modifies this`hourIndex, this`dayIndex, RowsFootprint()
      ensures RowsLinked() && View() == ProcHour(old(View())) && RowsFootprint() == old(RowsFootprint())
    {
      hide RowsLinked, RowsFootprint, RowViews, Drop, ProcDay;
      hourIndex := hourIndex + minuteIndex / 60;
      if hourIndex >= 24 {
        ProcDayNodes();
      }
      hourIndex := hourIndex % 24;
      DropInto(Hour, hourIndex);
    }

    /** `proc_minute_nodes` */
    method ProcMinuteNodes()
      requires RowsLinked() && this !in RowsFootprint()
      modifies this`minuteIndex, this`hourIndex, this`dayIndex, RowsFootprint()
      ensures RowsLinked() && View() == ProcMinute(old(View())) && RowsFootprint() == old(RowsFootprint())
    {
      hide RowsLinked, RowsFootprint, RowViews, Drop, ProcHour;
      minuteIndex := minuteIndex + secondIndex / 60;
      if minuteIndex >= 60 {
        ProcHourNodes();
      }
      minuteIndex := minuteIndex % 60;
      DropInto(Minute, minuteIndex);
    }

    /** `proc_second_nodes`; returns the timers whose callbacks ran, in order. */
    method ProcSecondNodes() returns (fired: seq<Timer>)
      requires RowsLinked() && this !in RowsFootprint()
      modifies this`secondIndex, this`minuteIndex, this`hourIndex, this`dayIndex, RowsFootprint()
      ensures RowsLinked() && (View(), fired) == Tick(old(View())) && RowsFootprint() <= old(RowsFootprint())
    {
      hide RowsLinked, RowsFootprint, RowViews, ProcMinute;
      secondIndex := secondIndex + 1;
      if secondIndex >= 60 {
        ProcMinuteNodes();
      }
      secondIndex := secondIndex % 60;
      fired := FireSlot(secondIndex);
    }

    /** One second of time, entered into the history. */
    method PassSecond() returns (fired: seq<Timer>)
      requires Valid()
      modifies Footprint()
      ensures Valid() && Footprint() <= old(Footprint()) && lastTime == old(lastTime)
      ensures events == old(events) + [SecondPasses]
      ensures Exec(events).fired == Exec(old(events)).fired + [fired]
    {
      hide RowsLinked, RowsFootprint, RowViews, Exec, Tick;
      SecondAndExec(events);
      fired := ProcSecondNodes();
      Record(SecondPasses);
    }

    /** `update`: catches up with the clock, one second at a time. A clock that has
        not moved, or has moved backwards, fires nothing. */
    method Update(curTime: int) returns (fired: seq<seq<Timer>>)
      requires Valid()
      modifies Footprint()
      ensures Valid() && Footprint() <= old(Footprint()) && lastTime == curTime
      ensures |fired| == if curTime > old(lastTime) then curTime - old(lastTime) else 0
      ensures events == old(events) + seq(|fired|, i => SecondPasses)
      ensures Exec(events).fired == Exec(old(events)).fired + fired
    {
      hide Exec;
      fired := [];
      if curTime == lastTime {
        return;
      }
      var second := curTime - lastTime;
      SetLastTime(curTime);
      if second == 1 {
        var list := PassSecond();
        fired := [list];
        return;
      }
      var i := 0;
      while i < second
        invariant Valid() && Footprint() <= old(Footprint()) && lastTime == curTime
        invariant i == |fired| && (i <= second || i == 0)
        invariant events == old(events) + seq(|fired|, i => SecondPasses)
        invariant Exec(events).fired == Exec(old(events)).fired + fired
      {
        var list := PassSecond();
        fired := fired + [list];
        i := i + 1;
      }
    }

    method SetLastTime(time: int)
      requires Valid()
      modifies this`lastTime
      ensures Valid() && lastTime == time && Footprint() == old(Footprint())
    {
      lastTime := time;
    }

    method FireSlot(i: nat) returns (fired: seq<Timer>)
      requires RowsLinked() && i < 60
      modifies RowsFootprint()
      ensures RowsLinked() && RowsFootprint() <= old(RowsFootprint())
      ensures fired == old(RowViews()).seconds[i]
      ensures RowViews() == old(RowViews()).With(Second, old(RowViews()).seconds[i := []])
    {
      ghost var rows := RowViews();
      PackedAt(rows, Second, i);
      fired := FireRow(seconds, i, minutes, hours, days);
      ClearedValid(rows, i);
      assert RowViews() == rows.With(Second, rows.seconds[i := []]);
    }
  }

  lemma AddAndExec(events: seq<Event>, delay: nat)
    ensures var h := Exec(events);
            var id := |h.added| + 1;
            && |DueTimes(events)| == |h.added|
            && Exec(events + [Add(delay)]).wheel == TimerWheel.AddTimer(h.wheel, id, delay)
            && |Exec(events + [Add(delay)]).added| == id == |DueTimes(events + [Add(delay)])|
            && WellPacked(NewTimer(h.wheel, id, delay))
  {
    AddExtends(events, delay);
    NewIsPacked(Exec(events).wheel, |Exec(events).added| + 1, delay);
    RunHolds(events);
    hide Exec, DueTimes, WellPacked, Holds;
  }

  lemma AddExtends(events: seq<Event>, delay: nat)
    ensures var h, events' := Exec(events), events + [Add(delay)];
      && Exec(events').wheel == TimerWheel.AddTimer(h.wheel, |h.added| + 1, delay)
      && |Exec(events').added| == |h.added| + 1 && |DueTimes(events')| == |DueTimes(events)| + 1
  {
    hide TimerWheel.AddTimer, NewTimer, Due;
    var events' := events + [Add(delay)];
    assert events'[..|events'| - 1] == events;
  }

  lemma NewIsPacked(w: Wheel, id: nat, delay: nat)
    ensures WellPacked(NewTimer(w, id, delay))
  {
    UnpackPacked(id, delay, SlotFor(Day, w.day, delay), SlotFor(Hour, w.hour, delay),
      SlotFor(Minute, w.minute, delay), SlotFor(Second, w.second, delay));
  }

  lemma ClearedValid(rows: Rows, i: nat)
    requires rows.Valid() && i < 60
    ensures rows.With(Second, rows.seconds[i := []]).Valid()
  {
    var rows' := rows.With(Second, rows.seconds[i := []]);
    assert forall level: Level, j, timer ::
        0 <= j < Size(level) && timer in rows'.At(level)[j] ==> timer in rows.At(level)[j];
  }

  lemma FiledValid(rows: Rows, level: Level, i: nat, timer: Timer)
    requires rows.Valid() && i < Size(level) && WellPacked(timer)
    ensures var slots := rows.At(level);
            |slots| == Size(level) && rows.With(level, slots[i := Insert(slots[i], timer)]).Valid()
  {
    var slots := rows.At(level);
    var rows' := rows.With(level, slots[i := Insert(slots[i], timer)]);
    forall l: Level, j, x | 0 <= j < Size(l) && x in rows'.At(l)[j]
      ensures WellPacked(x)
    {
      InsertMembers(slots[i], timer, x);
      assert x == timer || x in rows.At(l)[j];
    }
  }

  lemma SecondAndExec(events: seq<Event>)
    ensures var h, h' := Exec(events), Exec(events + [SecondPasses]);
            && (h'.wheel, h'.fired) == (Tick(h.wheel).0, h.fired + [Tick(h.wheel).1])
            && h'.added == h.added
  {
    var events' := events + [SecondPasses];
    assert events'[..|events'| - 1] == events;
  }

  lemma PackedAt(rows: Rows, level: Level, i: nat)
    requires rows.Valid() && i < Size(level)
    ensures |rows.At(level)| == Size(level)
    ensures forall timer :: timer in rows.At(level)[i] ==> WellPacked(timer)
  {
  }

  lemma RowsAreEmpty(seconds: Row, minutes: Row, hours: Row, days: Row)
    requires EmptyRows(seconds, minutes, hours, days)
    ensures Separate(seconds, minutes, hours, days)
    ensures seconds.View() == EmptyRow(60) && minutes.View() == EmptyRow(60)
    ensures hours.View() == EmptyRow(24) && days.View() == EmptyRow(30)
    ensures seconds.heads.Length == 60 && minutes.heads.Length == 60
    ensures hours.heads.Length == 24 && days.heads.Length == 30
  {
    hide Separate;
  }

  lemma StartOfRun(w: Wheel, events: seq<Event>)
    requires w == Wheel(0, 0, 0, 0, Rows(EmptyRow(60), EmptyRow(60), EmptyRow(24), EmptyRow(30))) && events == []
    ensures w == Exec(events).wheel && w.rows.Valid() && |Exec(events).added| == 0
  {
  }

  lemma EmptyView(lists: seq<seq<TimerNode>>, n: nat)
    requires |lists| == n && forall i :: 0 <= i < n ==> lists[i] == []
    ensures ViewOf(lists) == EmptyRow(n)
  {
  }
}
