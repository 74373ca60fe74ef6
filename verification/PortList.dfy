/** The singly linked list of threads and their ports (class linkedList of queue.h). */
module PortList {
  import opened Bytes

  datatype Item = Item(threadID: nat, commSocketPortNo: int)

  // ---------------------------------------------------------------- the list as a sequence

  /** The index of the first item with a port, or the number of items. */
  function FirstWith(items: seq<Item>, port: int): (i: nat)
    ensures i <= |items|
    ensures i < |items| ==> items[i].commSocketPortNo == port
    ensures forall j :: 0 <= j < i ==> items[j].commSocketPortNo != port
  {
    if items == [] || items[0].commSocketPortNo == port then 0 else 1 + FirstWith(items[1..], port)
  }

  predicate Has(items: seq<Item>, port: int) {
    exists i :: 0 <= i < |items| && items[i].commSocketPortNo == port
  }

  function Without<T>(s: seq<T>, i: nat): seq<T>
    requires i < |s|
  {
    s[..i] + s[i + 1..]
  }

  lemma RemovedFound(items: seq<Item>, port: int)
    ensures FirstWith(items, port) < |items| <==> Has(items, port)
  {
    var i := FirstWith(items, port);
    if i < |items| {
      assert items[i].commSocketPortNo == port;
    }
  }

  /** What an operation returns; where the code runs off its end it returns no value at all. */
  datatype Status = Returned(value: int) | NoValue

  /** The list an operation leaves and the status it returns. */
  datatype Outcome = Outcome(items: seq<Item>, status: Status)

  /** Removal as promised: the first match goes and 0 is returned, or -1 and nothing happens. */
  function PromisedRemoval(items: seq<Item>, port: int): Outcome {
    var i := FirstWith(items, port);
    if i < |items| then Outcome(Without(items, i), Returned(0)) else Outcome(items, Returned(-1))
  }

  /**
   Removal as the code does it: a match at the head returns no value, and a search that fails
   leaves the list without a head.
   */
  function Removal(items: seq<Item>, port: int): Outcome {
    var i := FirstWith(items, port);
    if i == |items| then Outcome([], Returned(-1))
    else Outcome(Without(items, i), if i == 0 then NoValue else Returned(0))
  }

  /** The promise is kept exactly when the first match lies behind the head. */
  lemma RemovedAsPromisedIff(items: seq<Item>, port: int)
    requires items != []
    ensures Removal(items, port) == PromisedRemoval(items, port) <==> 0 < FirstWith(items, port) < |items|
    ensures Removal(items, port).items == PromisedRemoval(items, port).items <==> Has(items, port)
    ensures Removal(items, port).status == PromisedRemoval(items, port).status
       <==> items[0].commSocketPortNo != port
  {
    RemovedFound(items, port);
  }

  /** Addition as promised returns 0 for the longer list; the code returns no value, ever. */
  function PromisedAddition(items: seq<Item>, item: Item): Outcome {
    Outcome(items + [item], Returned(0))
  }

  lemma FirstWithIs(items: seq<Item>, port: int, i: nat)
    requires i <= |items| && (i < |items| ==> items[i].commSocketPortNo == port)
    requires forall j :: 0 <= j < i ==> items[j].commSocketPortNo != port
    ensures FirstWith(items, port) == i
  {
  }

  // ---------------------------------------------------------------- whole runs

  /** Items in the list, items of freed nodes, and items of nodes nobody can reach any more. */
  datatype Ledger = Ledger(items: seq<Item>, freed: seq<Item>, lost: seq<Item>)

  datatype Op = Add(item: Item) | Remove(port: int) | Destroy

  /** What an operation does; removal from the empty list has no meaning and is skipped. */
  function Do(l: Ledger, op: Op): Ledger {
    match op
    case Add(item) => l.(items := l.items + [item])
    case Remove(port) =>
      var i := FirstWith(l.items, port);
      if l.items == [] then l
      else if i < |l.items| then Ledger(Without(l.items, i), l.freed + [l.items[i]], l.lost)
      else Ledger([], l.freed, l.lost + l.items)
    case Destroy => Ledger([], l.freed + l.items, l.lost)
  }

  function DoAll(ops: seq<Op>): Ledger {
    if ops == [] then Ledger([], [], []) else Do(DoAll(ops[..|ops| - 1]), ops[|ops| - 1])
  }

  function Added(ops: seq<Op>): seq<Item> {
    if ops == [] then []
    else
      var last := ops[|ops| - 1];
      Added(ops[..|ops| - 1]) + if last.Add? then [last.item] else []
  }

  /** A removal that does not find its port in a list that has items. */
  ghost predicate Misses(l: Ledger, op: Op) {
    op.Remove? && l.items != [] && !Has(l.items, op.port)
  }

  lemma DoConserves(l: Ledger, op: Op)
    ensures multiset(Do(l, op).items) + multiset(Do(l, op).freed) + multiset(Do(l, op).lost)
         == multiset(l.items) + multiset(l.freed) + multiset(l.lost) + if op.Add? then multiset{op.item} else multiset{}
  {
    if op.Remove? && FirstWith(l.items, op.port) < |l.items| {
      var i := FirstWith(l.items, op.port);
      assert l.items == l.items[..i] + [l.items[i]] + l.items[i + 1..];
    }
  }

  /** Over any run every item added is, once, in the list, freed, or lost. */
  lemma {:induction false} RunConserves(ops: seq<Op>)
    ensures multiset(Added(ops))
         == multiset(DoAll(ops).items) + multiset(DoAll(ops).freed) + multiset(DoAll(ops).lost)
  {
    if ops != [] {
      RunConserves(ops[..|ops| - 1]);
      DoConserves(DoAll(ops[..|ops| - 1]), ops[|ops| - 1]);
    }
  }

  /** No removal of the run misses. */
  ghost predicate AllFound(ops: seq<Op>) {
    forall k :: 0 <= k < |ops| ==> !Misses(DoAll(ops[..k]), ops[k])
  }

  lemma AllFoundStep(ops: seq<Op>)
    requires ops != []
    ensures AllFound(ops)
       <==> AllFound(ops[..|ops| - 1]) && !Misses(DoAll(ops[..|ops| - 1]), ops[|ops| - 1])
  {
    var front := ops[..|ops| - 1];
    assert forall k :: 0 <= k < |front| ==> front[..k] == ops[..k];
  }

  /** A run loses nodes exactly when some removal in it misses. */
  lemma {:induction false} NothingLostIff(ops: seq<Op>)
    ensures DoAll(ops).lost == [] <==> AllFound(ops)
  {
    if ops != [] {
      NothingLostIff(ops[..|ops| - 1]);
      AllFoundStep(ops);
      LosesIffMisses(DoAll(ops[..|ops| - 1]), ops[|ops| - 1]);
    }
  }

  lemma LosesIffMisses(l: Ledger, op: Op)
    ensures Do(l, op).lost == l.lost <==> !Misses(l, op)
    ensures Do(l, op).lost == [] ==> l.lost == []
  {
    if op.Remove? {
      RemovedFound(l.items, op.port);
    }
  }

  // ---------------------------------------------------------------- the list in memory

  class Node {
    const item: Item
    var next: Node?

    constructor (threadID: nat, commSocketPortNo: int)
      ensures item == Item(threadID, commSocketPortNo) && next == null
    {
      item := Item(threadID, commSocketPortNo);
      next := null;
    }
  }

  ghost predicate Distinct(nodes: seq<Node>) {
    forall i, j :: 0 <= i < j < |nodes| ==> nodes[i] != nodes[j]
  }

  /** The node after the `i`-th, or null. */
  ghost function After(nodes: seq<Node>, i: nat): Node? {
    if i + 1 < |nodes| then nodes[i + 1] else null
  }

  /** The nodes are chained in order and the chain ends. */
  ghost predicate Chained(nodes: seq<Node>)
    reads nodes
  {
    Distinct(nodes) && forall i :: 0 <= i < |nodes| ==> nodes[i].next == After(nodes, i)
  }

  ghost predicate Apart(a: seq<Node>, b: seq<Node>) {
    forall n :: n in a ==> n !in b
  }

  ghost function First(nodes: seq<Node>): Node? {
    if nodes == [] then null else nodes[0]
  }

  ghost function ItemsOf(nodes: seq<Node>): seq<Item> {
    seq(|nodes|, i requires 0 <= i < |nodes| => nodes[i].item)
  }

  lemma ItemsConcat(a: seq<Node>, b: seq<Node>)
    ensures ItemsOf(a + b) == ItemsOf(a) + ItemsOf(b)
  {
  }

  lemma ItemsWithout(nodes: seq<Node>, i: nat)
    requires i < |nodes|
    ensures ItemsOf(Without(nodes, i)) == Without(ItemsOf(nodes), i)
  {
  }

  lemma WithoutDistinct(nodes: seq<Node>, i: nat)
    requires i < |nodes| && Distinct(nodes)
    ensures Distinct(Without(nodes, i)) && nodes[i] !in Without(nodes, i)
  {
  }

  lemma WithoutWithin(nodes: seq<Node>, i: nat)
    requires i < |nodes|
    ensures forall n :: n in Without(nodes, i) ==> n in nodes
  {
  }

  /** No node is in two places at once, or twice in one. */
  ghost predicate Separate(spine: seq<Node>, freed: seq<Node>, lost: seq<Node>) {
    && Distinct(spine) && Distinct(freed) && Distinct(lost)
    && Apart(freed, spine) && Apart(lost, spine) && Apart(lost, freed)
  }

  /** Where the nodes are after a removal that stopped at the `i`-th. */
  datatype Nodes = Nodes(spine: seq<Node>, freed: seq<Node>, lost: seq<Node>)

  ghost function Taken(nodes: Nodes, i: nat): Nodes {
    if i < |nodes.spine| then Nodes(Without(nodes.spine, i), nodes.freed + [nodes.spine[i]], nodes.lost)
    else Nodes([], nodes.freed, nodes.lost + nodes.spine)
  }

  lemma DistinctConcat(a: seq<Node>, b: seq<Node>)
    requires Distinct(a) && Distinct(b) && Apart(a, b)
    ensures Distinct(a + b)
  {
    assert forall i :: 0 <= i < |a| ==> a[i] in a;
  }

  lemma TakenSeparate(nodes: Nodes, i: nat)
    requires Separate(nodes.spine, nodes.freed, nodes.lost)
    ensures Separate(Taken(nodes, i).spine, Taken(nodes, i).freed, Taken(nodes, i).lost)
  {
    if i < |nodes.spine| {
      WithoutDistinct(nodes.spine, i);
      WithoutWithin(nodes.spine, i);
      assert nodes.spine[i] in nodes.spine;
      DistinctConcat(nodes.freed, [nodes.spine[i]]);
    } else {
      DistinctConcat(nodes.lost, nodes.spine);
    }
  }

  ghost function BooksOf(nodes: Nodes): Ledger {
    Ledger(ItemsOf(nodes.spine), ItemsOf(nodes.freed), ItemsOf(nodes.lost))
  }

  /** Removal of nodes is removal of their items. */
  lemma TakenBooks(nodes: Nodes, port: int)
    requires nodes.spine != []
    ensures BooksOf(Taken(nodes, FirstWith(ItemsOf(nodes.spine), port))) == Do(BooksOf(nodes), Remove(port))
    ensures Do(BooksOf(nodes), Remove(port)).items == Removal(ItemsOf(nodes.spine), port).items
  {
    var i := FirstWith(ItemsOf(nodes.spine), port);
    if i < |nodes.spine| {
      ItemsWithout(nodes.spine, i);
      ItemsConcat(nodes.freed, [nodes.spine[i]]);
      assert ItemsOf([nodes.spine[i]]) == [ItemsOf(nodes.spine)[i]];
    } else {
      ItemsConcat(nodes.lost, nodes.spine);
    }
  }

  class LinkedList {
    var head: Node?
    ghost var spine: seq<Node>   // the nodes of the list, first to last
    ghost var freed: seq<Node>   // every node passed to free(), in order
    ghost var lost: seq<Node>    // nodes that can no longer be reached

    /** No cycle; no node in the list is freed or lost, none is both, and none is freed or lost twice. */
    ghost predicate Valid()
      reads this, spine
    {
      Chained(spine) && head == First(spine) && Separate(spine, freed, lost)
    }

    ghost function Repr(): set<Node>
      reads this
    {
      set n | n in spine
    }

    ghost function Places(): Nodes
      reads this
    {
      Nodes(spine, freed, lost)
    }

    ghost function Items(): seq<Item>
      reads this
    {
      ItemsOf(spine)
    }

    /** The list's books, as the laws over whole runs see them. */
    ghost function Books(): Ledger
      reads this
    {
      BooksOf(Places())
    }

    constructor ()
      ensures Valid() && Books() == DoAll([])
    {
      head, spine, freed, lost := null, [], [], [];
    }

    /** A node after the last one, reached by moving the head along the list.  No value is returned. */
    method AddItem(threadID: nat, commSocketPortNo: int) returns (status: Status)
      requires Valid()
      modifies this, spine
      ensures Valid() && |spine| == |old(spine)| + 1 && fresh(spine[|old(spine)|])
      ensures Books() == Do(old(Books()), Add(Item(threadID, commSocketPortNo)))
      ensures old(spine) <= spine && freed == old(freed) && lost == old(lost)
      ensures var promised := PromisedAddition(old(Items()), Item(threadID, commSocketPortNo));
        Items() == promised.items && status == NoValue != promised.status
    {
      var node := new Node(threadID, commSocketPortNo);
      if head != null {
        var initialHead := head;
        MoveHeadToLast();
        head.next := node;
        head := initialHead;
      } else {
        head := node;
      }
      ItemsConcat(spine, [node]);
      spine := spine + [node];
      return NoValue;
    }

    /** The head itself is moved to the last node. */
    method MoveHeadToLast()
      requires Valid() && head != null
      modifies this`head
      ensures head == spine[|spine| - 1]
    {
      ghost var k := 0;
      while head.next != null
        invariant k < |spine| && head == spine[k]
        decreases |spine| - k
      {
        assert head.next == After(spine, k);
        head := head.next;
        k := k + 1;
      }
      assert head.next == After(spine, k);
    }

    method CountItems() returns (itemCount: nat)
      requires Valid()
      ensures itemCount == |Items()|
    {
      itemCount := 0;
      var item := head;
      while item != null
        invariant itemCount <= |spine|
        invariant item == if itemCount < |spine| then spine[itemCount] else null
        decreases |spine| - itemCount
      {
        assert item.next == After(spine, itemCount);
        itemCount := itemCount + 1;
        item := item.next;
      }
    }

    method GetItem(commSocketPortNo: int) returns (item: Node?)
      requires Valid()
      ensures item == null <==> !Has(Items(), commSocketPortNo)
      ensures item != null ==> var i := FirstWith(Items(), commSocketPortNo); i < |spine| && item == spine[i]
    {
      item := head;
      ghost var k := 0;
      while item != null
        invariant k <= |spine| && item == if k < |spine| then spine[k] else null
        invariant forall j :: 0 <= j < k ==> Items()[j].commSocketPortNo != commSocketPortNo
        decreases |spine| - k
      {
        if commSocketPortNo == item.item.commSocketPortNo {
          assert Items()[k].commSocketPortNo == commSocketPortNo;
          break;
        } else {
          item := item.next;
          k := k + 1;
        }
      }
    }

    /**
     The first match is unlinked and freed.  On the empty list the code follows a null head, so
     there must be a first node.  A search that fails ends with a null head.
     */
    method RemoveItem(commSocketPortNo: int) returns (status: Status)
      requires Valid() && head != null
      modifies this, spine
      ensures Valid() && Places() == Taken(old(Places()), FirstWith(old(Items()), commSocketPortNo))
      ensures Books() == Do(old(Books()), Remove(commSocketPortNo))
      ensures Outcome(Items(), status) == Removal(old(Items()), commSocketPortNo)
    {
      var initialHead := head;
      TakenBooks(Places(), commSocketPortNo);
      TakenSeparate(Places(), FirstWith(Items(), commSocketPortNo));
      if commSocketPortNo == initialHead.item.commSocketPortNo {
        FirstWithIs(Items(), commSocketPortNo, 0);
        DropHead();
        return NoValue;
      }
      var prevItem, k := MoveHeadTo(commSocketPortNo);
      if head == null {
        lost, spine := lost + spine, [];
        return Returned(-1);
      }
      Unlink(prevItem, k);
      head := initialHead;
      return Returned(0);
    }

    /** The head itself is moved along the list, to the first match or off the end. */
    method MoveHeadTo(commSocketPortNo: int) returns (prevItem: Node, ghost k: nat)
      requires Valid() && head != null && head.item.commSocketPortNo != commSocketPortNo
      modifies this`head
      ensures 0 < k == FirstWith(Items(), commSocketPortNo) && prevItem == spine[k - 1]
      ensures head == if k < |spine| then spine[k] else null
    {
      prevItem, k := head, 0;
      while head != null
        invariant k <= |spine| && head == (if k < |spine| then spine[k] else null)
        invariant prevItem == spine[if k > 0 then k - 1 else 0]
        invariant forall j :: 0 <= j < k ==> spine[j].item.commSocketPortNo != commSocketPortNo
        decreases |spine| - k
      {
        assert head.next == After(spine, k);
        if commSocketPortNo == head.item.commSocketPortNo {
          break;
        }
        prevItem := head;
        head := head.next;
        k := k + 1;
      }
      FirstWithIs(Items(), commSocketPortNo, k);
    }

    /** The node before the `k`-th is linked to the one after it, and the `k`-th is freed. */
    method Unlink(prevItem: Node, ghost k: nat)
      requires 0 < k < |spine| && Chained(spine) && Separate(spine, freed, lost)
      requires prevItem == spine[k - 1] && head == spine[k]
      modifies prevItem, this`spine, this`freed
      ensures Chained(spine) && Separate(spine, freed, lost)
      ensures spine == Without(old(spine), k) && freed == old(freed) + [old(spine)[k]]
    {
      TakenSeparate(Places(), k);
      assert head.next == After(spine, k);
      prevItem.next := head.next;
      Release(k);
    }

    /** The head moves on and the node it leaves is freed. */
    method DropHead()
      requires Valid() && head != null
      modifies this
      ensures Valid() && lost == old(lost)
      ensures spine == old(spine)[1..] && freed == old(freed) + [old(spine)[0]]
    {
      TakenSeparate(Places(), 0);
      assert head.next == After(spine, 0);
      head := head.next;
      Release(0);
    }

    /** The destructor: every node is freed, once, from first to last. */
    method Destroy()
      requires Valid()
      modifies this
      ensures Valid() && head == null && Books() == Do(old(Books()), Op.Destroy)
      ensures spine == [] && freed == old(freed) + old(spine) && lost == old(lost)
    {
      ghost var n, was := 0, spine;
      while head != null
        invariant Valid() && lost == old(lost)
        invariant n <= |was| && spine == was[n..] && freed == old(freed) + was[..n]
        decreases |spine|
      {
        assert was[n..][1..] == was[n + 1..] && was[..n] + [was[n]] == was[..n + 1];
        Associative(old(freed), was[..n], [was[n]]);
        DropHead();
        n := n + 1;
      }
      ItemsConcat(old(freed), was);
    }

    /** Node `k` is freed and gone from the list. */
    ghost method Release(k: nat)
      requires k < |spine|
      modifies this`spine, this`freed
      ensures Places() == Taken(old(Places()), k)
    {
      freed := freed + [spine[k]];
      spine := Without(spine, k);
    }

    /** Any one operation; removal from the empty list is left out, as the code follows a null head there. */
    method Perform(op: Op)
      requires Valid()
      modifies this, Repr()
      ensures Valid() && Books() == Do(old(Books()), op)
      ensures fresh(Repr() - old(Repr()))
    {
      match op
      case Add(item) =>
        var _ := AddItem(item.threadID, item.commSocketPortNo);
      case Remove(port) =>
        if head != null {
          WithoutWithinAll(spine);
          var _ := RemoveItem(port);
        }
      case Destroy =>
        Destroy();
    }
  }

  lemma WithoutWithinAll(nodes: seq<Node>)
    ensures forall i, n :: 0 <= i < |nodes| && n in Without(nodes, i) ==> n in nodes
  {
    forall i, n | 0 <= i < |nodes| && n in Without(nodes, i) ensures n in nodes {
      WithoutWithin(nodes, i);
    }
  }

  /** A list that has gone through any operations is in the state that the laws over whole runs speak of. */
  method PerformAll(ops: seq<Op>) returns (list: LinkedList)
    ensures fresh(list) && list.Valid() && list.Books() == DoAll(ops)
  {
    list := new LinkedList();
    for n := 0 to |ops|
      invariant fresh(list) && fresh(list.Repr())
      invariant list.Valid() && list.Books() == DoAll(ops[..n])
    {
      list.Perform(ops[n]);
      assert ops[..n + 1][..n] == ops[..n];
    }
    assert ops[..|ops|] == ops;
  }
}
