/** The doubly linked list: relinking nodes in place that acts on a sequence. */
module LinkedList {

  /** What a node carries: an address. */
  type Value = int

  class ListNode {
    var value: Value
    var prev: ListNode?
    var next: ListNode?

    constructor (value: Value)
      ensures this.value == value
    {
      this.value := value;
      prev, next := null, null;
    }
  }

  ghost predicate Distinct(s: seq<ListNode>) { forall i, j | 0 <= i < j < |s| :: s[i] != s[j] }

  ghost function At(s: seq<ListNode>, i: int): ListNode? { if 0 <= i < |s| then s[i] else null }

  ghost function Values(s: seq<ListNode>): (c: seq<Value>)
    reads s`value
    ensures |c| == |s|
  {
    if s == [] then [] else Values(s[..|s| - 1]) + [s[|s| - 1].value]
  }

  lemma {:induction false} ValuesJoin(a: seq<ListNode>, b: seq<ListNode>)
    ensures Values(a + b) == Values(a) + Values(b)
    decreases |b|
  {
    if b == [] {
      assert a + b == a;
    } else {
      var n := |b| - 1;
      assert (a + b)[..|a + b| - 1] == a + b[..n];
      ValuesJoin(a, b[..n]);
    }
  }

  lemma ValuesCut(s: seq<ListNode>, k: nat)
    requires k <= |s|
    ensures Values(s[..k]) == Values(s)[..k] && Values(s[k..]) == Values(s)[k..]
  {
    hide Values;
    assert s == s[..k] + s[k..];
    ValuesJoin(s[..k], s[k..]);
  }

  lemma ValuesOne(n: ListNode)
    ensures Values([n]) == [n.value]
  {
    var s := [n];
    assert s[..0] == [];
  }

  lemma ValueAt(s: seq<ListNode>, k: nat)
    requires k < |s|
    ensures Values(s)[k] == s[k].value
  {
    hide Values;
    ValuesCut(s, k);
    ValuesCut(s[k..], 1);
    assert s[k..][..1] == [s[k]];
    ValuesOne(s[k]);
  }

  lemma ValuesWithout(s: seq<ListNode>, k: nat)
    requires k < |s|
    ensures Values(s[..k] + s[k + 1..]) == Values(s)[..k] + Values(s)[k + 1..]
  {
    hide Values;
    ValuesJoin(s[..k], s[k + 1..]);
    ValuesCut(s, k);
    ValuesCut(s, k + 1);
  }

  lemma ValuesWith(s: seq<ListNode>, k: nat, n: ListNode)
    requires k <= |s|
    ensures Values(s[..k] + [n] + s[k..]) == Values(s)[..k] + [n.value] + Values(s)[k..]
  {
    hide Values;
    ValuesJoin(s[..k] + [n], s[k..]);
    ValuesJoin(s[..k], [n]);
    ValuesOne(n);
    ValuesCut(s, k);
  }

  lemma ValuesRotated(s: seq<ListNode>, n: nat)
    requires |s| == n + 1
    ensures Values([s[n]] + s[..n]) == [Values(s)[n]] + Values(s)[..n]
  {
    hide Values;
    ValuesJoin([s[n]], s[..n]);
    ValuesOne(s[n]);
    ValueAt(s, n);
    ValuesCut(s, n);
  }

  /** Node i points to its neighbours. */
  ghost predicate Linked(s: seq<ListNode>, i: int)
    requires 0 <= i < |s|
    reads s[i]
  {
    s[i].prev == At(s, i - 1) && s[i].next == At(s, i + 1)
  }

  /** Node i of a part of a list that has the given nodes before and after it. */
  ghost predicate Between(s: seq<ListNode>, i: int, before: ListNode?, after: ListNode?)
    requires 0 <= i < |s|
    reads s[i]
  {
    s[i].prev == (if i == 0 then before else s[i - 1]) && s[i].next == (if i == |s| - 1 then after else s[i + 1])
  }

  ghost predicate InOrder(s: seq<ListNode>, before: ListNode?, after: ListNode?)
    reads s
  {
    forall i | 0 <= i < |s| :: Between(s, i, before, after)
  }

  lemma JoinedLinks(a: seq<ListNode>, b: seq<ListNode>)
    requires InOrder(a, null, At(b, 0)) && InOrder(b, At(a, |a| - 1), null)
    requires Distinct(a) && Distinct(b) && forall i, j | 0 <= i < |a| && 0 <= j < |b| :: a[i] != b[j]
    ensures Distinct(a + b) && forall i | 0 <= i < |a + b| :: Linked(a + b, i)
  {
    var s := a + b;
    forall i | 0 <= i < |s| ensures Linked(s, i) {
      if i < |a| {
        assert Between(a, i, null, At(b, 0));
      } else {
        assert Between(b, i - |a|, At(a, |a| - 1), null);
        assert s[i] == b[i - |a|];
      }
    }
  }

  class List {
    var head: ListNode?
    var tail: ListNode?
    var len: nat
    /** The nodes in order, and all nodes the list has ever held. */
    ghost var spine: seq<ListNode>
    ghost var repr: set<ListNode>

    /** prev and next are inverse to each other and follow the spine, which visits no node twice; len
        is its length. */
    ghost predicate Valid()
      reads this, repr
    {
      && (forall i | 0 <= i < |spine| :: spine[i] in repr)
      && len == |spine|
      && head == At(spine, 0)
      && tail == At(spine, |spine| - 1)
      && Distinct(spine)
      && forall i | 0 <= i < |spine| :: Linked(spine, i)
    }

    ghost function Contents(): seq<Value>
      reads `spine, spine`value
    {
      Values(spine)
    }

    /** listCreate. */
    constructor ()
      ensures Valid() && spine == [] && repr == {}
    {
      head, tail, len, spine, repr := null, null, 0, [], {};
    }

    /** listEmpty: walks over len nodes and frees each of them once. */
    method Empty() returns (freed: seq<ListNode>)
      requires Valid()
      modifies this
      ensures Valid() && spine == [] && freed == old(spine)
    {
      var current, n := head, len;
      freed := [];
      while n > 0
        invariant 0 <= n <= len && freed == spine[..len - n] && current == At(spine, len - n)
        modifies {}
      {
        assert Linked(spine, len - n);
        var next := current.next;
        freed := freed + [current];
        current, n := next, n - 1;
      }
      assert spine[..len] == spine;
      head, tail, len, spine := null, null, 0, [];
    }

    /** listAddNodeHead. */
    method AddHead(value: Value) returns (node: ListNode)
      requires Valid()
      modifies this, repr`prev, repr`next
      ensures Valid() && fresh(node) && spine == [node] + old(spine) && repr == old(repr) + {node}
      ensures Contents() == [value] + old(Contents())
    {
      hide Values;
      ghost var s := spine;
      node := new ListNode(value);
      if len == 0 {
        head, tail := node, node;
        node.prev, node.next := null, null;
      } else {
        node.prev, node.next := null, head;
        head.prev := node;
        head := node;
      }
      len := len + 1;
      spine, repr := [node] + spine, repr + {node};
      ValuesJoin([node], s);
      ValuesOne(node);
      assert forall i | 1 <= i < |spine| :: spine[i] == old(spine)[i - 1];
      forall i | 0 <= i < |spine| ensures Linked(spine, i) { if i > 0 { assert old(Linked(spine, i - 1)); } }
    }

    /** listAddNodeTail. */
    method AddTail(value: Value) returns (node: ListNode)
      requires Valid()
      modifies this, repr`prev, repr`next
      ensures Valid() && fresh(node) && spine == old(spine) + [node] && repr == old(repr) + {node}
      ensures Contents() == old(Contents()) + [value]
    {
      hide Values;
      ghost var s := spine;
      node := new ListNode(value);
      if len == 0 {
        head, tail := node, node;
        node.prev, node.next := null, null;
      } else {
        node.prev, node.next := tail, null;
        tail.next := node;
        tail := node;
      }
      len := len + 1;
      spine, repr := spine + [node], repr + {node};
      ValuesJoin(s, [node]);
      ValuesOne(node);
      forall i | 0 <= i < |spine| ensures Linked(spine, i) { if i < |old(spine)| { assert old(Linked(spine, i)); } }
    }

    method InsertNode(oldNode: ListNode, ghost k: nat, value: Value, after: bool) returns (node: ListNode)
      requires Valid() && k < |spine| && spine[k] == oldNode
      modifies this, repr`prev, repr`next
      ensures Valid() && fresh(node) && node.value == value && repr == old(repr) + {node}
      ensures var at := if after then k + 1 else k; spine == old(spine)[..at] + [node] + old(spine)[at..]
    {
      node := new ListNode(value);
      ghost var at := if after then k + 1 else k;
      assert Linked(spine, k);
      if after {
        node.prev, node.next := oldNode, oldNode.next;
        if tail == oldNode { tail := node; }
      } else {
        node.next, node.prev := oldNode, oldNode.prev;
        if head == oldNode { head := node; }
      }
      assert node.prev == At(spine, at - 1) && node.next == At(spine, at);
      SpliceIn(node, at);
    }

    /** listInsertNode, at the node with index k. */
    method Insert(oldNode: ListNode, ghost k: nat, value: Value, after: bool) returns (node: ListNode)
      requires Valid() && k < |spine| && spine[k] == oldNode
      modifies this, repr`prev, repr`next
      ensures Valid() && fresh(node) && repr == old(repr) + {node}
      ensures var at := if after then k + 1 else k; spine == old(spine)[..at] + [node] + old(spine)[at..]
      ensures var at := if after then k + 1 else k;
              Contents() == old(Contents())[..at] + [value] + old(Contents())[at..]
    {
      hide Values, Linked, Distinct;
      ghost var at := if after then k + 1 else k;
      ghost var s := spine;
      node := InsertNode(oldNode, k, value, after);
      ValuesWith(s, at, node);
    }

    /** The end of listInsertNode: the neighbours are made to point to the new node. */
    method SpliceIn(node: ListNode, ghost at: nat)
      requires len == |spine| && at <= |spine| && Distinct(spine) && forall i | 0 <= i < |spine| :: spine[i] in repr
      requires forall i | 0 <= i < |spine| :: Linked(spine, i)
      requires forall i | 0 <= i < |spine| :: spine[i] != node
      requires node.prev == At(spine, at - 1) && node.next == At(spine, at)
      requires head == (if at == 0 then node else At(spine, 0))
      requires tail == (if at == |spine| then node else At(spine, |spine| - 1))
      modifies `len, `spine, `repr, repr`prev, repr`next
      ensures Valid() && repr == old(repr) + {node} && spine == old(spine)[..at] + [node] + old(spine)[at..]
    {
      if node.prev != null { node.prev.next := node; }
      if node.next != null { node.next.prev := node; }
      len := len + 1;
      spine, repr := spine[..at] + [node] + spine[at..], repr + {node};
      assert forall i | 0 <= i < |spine| ::
             spine[i] == if i < at then old(spine)[i] else if i == at then node else old(spine)[i - 1];
      forall i | 0 <= i < |spine| ensures Linked(spine, i) {
        if i < at { assert old(Linked(spine, i)); } else if i > at { assert old(Linked(spine, i - 1)); }
      }
    }

    method Unlink(node: ListNode, ghost k: nat)
      requires Valid() && k < |spine| && spine[k] == node
      modifies this, repr`prev, repr`next
      ensures Valid() && repr == old(repr) && spine == old(spine)[..k] + old(spine)[k + 1..]
      ensures node.prev == old(node.prev) && node.next == old(node.next)
    {
      assert Linked(spine, k);
      if node.prev != null { node.prev.next := node.next; } else { head := node.next; }
      if node.next != null { node.next.prev := node.prev; } else { tail := node.prev; }
      len := len - 1;
      spine := spine[..k] + spine[k + 1..];
      assert forall i | 0 <= i < |spine| :: spine[i] == old(spine)[if i < k then i else i + 1];
      forall i | 0 <= i < |spine| ensures Linked(spine, i) {
        assert if i < k then old(Linked(spine, i)) else old(Linked(spine, i + 1));
      }
    }

    /** listDelNode, of the node with index k. */
    method Delete(node: ListNode, ghost k: nat)
      requires Valid() && k < |spine| && spine[k] == node
      modifies this, repr`prev, repr`next
      ensures Valid() && repr == old(repr) && spine == old(spine)[..k] + old(spine)[k + 1..]
      ensures Contents() == old(Contents())[..k] + old(Contents())[k + 1..]
      ensures node.prev == old(node.prev) && node.next == old(node.next)
    {
      hide Values, Linked, Distinct;
      ghost var s := spine;
      Unlink(node, k);
      ValuesWithout(s, k);
    }

    method RotateNodes()
      requires Valid() && len > 1
      modifies this, repr`prev, repr`next
      ensures Valid() && repr == old(repr)
      ensures var n := |old(spine)| - 1; spine == [old(spine)[n]] + old(spine)[..n]
    {
      var last := tail;
      assert Linked(spine, |spine| - 1);
      tail := last.prev;
      tail.next := null;
      head.prev := last;
      last.prev := null;
      last.next := head;
      head := last;
      ghost var n := |spine| - 1;
      spine := [spine[n]] + spine[..n];
      assert forall i | 1 <= i < |spine| :: spine[i] == old(spine)[i - 1];
      forall i | 0 <= i < |spine| ensures Linked(spine, i) { if i > 0 { assert old(Linked(spine, i - 1)); } }
    }

    /** listRotate: the tail becomes the head. */
    method Rotate()
      requires Valid()
      modifies this, repr`prev, repr`next
      ensures Valid() && repr == old(repr)
      ensures |old(spine)| <= 1 ==> spine == old(spine) && Contents() == old(Contents())
      ensures |old(spine)| > 1 ==> var n := |old(spine)| - 1; Contents() == [old(Contents())[n]] + old(Contents())[..n]
    {
      hide Values, Linked, Distinct;
      if len <= 1 { return; }
      ghost var s, n := spine, len - 1;
      RotateNodes();
      ValuesRotated(s, n);
    }

    /** The links that listJoin sets. */
    method JoinEnds(o: List)
      requires Valid() && o.Valid() && o != this && repr !! o.repr
      modifies `head, `tail, `len, repr`next, o.repr`prev
      ensures len == |spine| + |o.spine| && head == At(spine + o.spine, 0) && tail == At(spine + o.spine, len - 1)
      ensures InOrder(spine, null, At(o.spine, 0)) && InOrder(o.spine, At(spine, |spine| - 1), null)
    {
      assert forall i | 0 <= i < |spine| :: Linked(spine, i);
      assert forall i | 0 <= i < |o.spine| :: Linked(o.spine, i);
      if o.head != null { o.head.prev := tail; }
      if tail != null { tail.next := o.head; } else { head := o.head; }
      if o.tail != null { tail := o.tail; }
      len := len + o.len;
      ghost var a, b := spine, o.spine;
      ghost var first, last := At(b, 0), At(a, |a| - 1);
      forall i | 0 <= i < |a| ensures Between(a, i, null, first) { assert old(Linked(spine, i)); }
      forall i | 0 <= i < |b| ensures Between(b, i, last, null) { assert old(Linked(o.spine, i)); }
      assert InOrder(a, null, first) && InOrder(b, last, null);
    }

    method JoinNodes(o: List)
      requires Valid() && o.Valid() && o != this && repr !! o.repr
      modifies this, o, repr`next, o.repr`prev
      ensures Valid() && spine == old(spine) + old(o.spine) && repr == old(repr) + old(o.repr)
      ensures o.Valid() && o.spine == [] && o.repr == {}
    {
      hide Linked, InOrder, Between;
      ghost var a, b := spine, o.spine;
      JoinEnds(o);
      JoinedLinks(a, b);
      o.head, o.tail, o.len := null, null, 0;
      spine, repr := a + b, repr + o.repr;
      o.spine, o.repr := [], {};
    }

    /** listJoin: the other list is left empty. */
    method Join(o: List)
      requires Valid() && o.Valid() && o != this && repr !! o.repr
      modifies this, o, repr`prev, repr`next, o.repr`prev, o.repr`next
      ensures Valid() && spine == old(spine) + old(o.spine) && Contents() == old(Contents()) + old(o.Contents())
      ensures o.Valid() && o.spine == [] && o.repr == {} && repr == old(repr) + old(o.repr)
    {
      hide Values, Linked, Distinct;
      ghost var a, b := spine, o.spine;
      JoinNodes(o);
      ValuesJoin(a, b);
    }

    /** listSearchKey: the first match from the head. */
    method Search(matches: Value -> bool) returns (node: ListNode?)
      requires Valid()
      ensures node == At(spine, First(Contents(), matches))
    {
      hide Values;
      node := head;
      ghost var k := 0;
      while node != null
        invariant k <= |spine| && node == At(spine, k)
        invariant forall i | 0 <= i < k :: !matches(Contents()[i])
        decreases |spine| - k
      {
        ValueAt(spine, k);
        if matches(node.value) {
          FirstIs(Contents(), matches, k);
          return;
        }
        assert Linked(spine, k);
        node, k := node.next, k + 1;
      }
      FirstIs(Contents(), matches, k);
    }

    /** listIndex: negative indexes count from the tail. */
    method Index(index: int) returns (n: ListNode?)
      requires Valid()
      ensures n == At(spine, if index < 0 then |spine| + index else index)
    {
      if index < 0 {
        var i := -index - 1;
        n := tail;
        ghost var k := |spine| - 1;
        while i != 0 && n != null
          invariant i >= 0 && n == At(spine, k) && k - i == |spine| + index && -1 <= k < |spine|
          decreases i
        {
          assert Linked(spine, k);
          n, k, i := n.prev, k - 1, i - 1;
        }
      } else {
        var i := index;
        n := head;
        ghost var k := 0;
        while i != 0 && n != null
          invariant i >= 0 && n == At(spine, k) && k + i == index && 0 <= k <= |spine|
          decreases i
        {
          assert Linked(spine, k);
          n, k, i := n.next, k + 1, i - 1;
        }
      }
    }

    /** listDup with a copying function that may fail: nothing is returned then, and this list never
        changes. */
    method Dup(dup: Value -> Copy) returns (copy: List?)
      requires Valid()
      ensures copy == null <==> exists i :: 0 <= i < |spine| && dup(Contents()[i]).Failed?
      ensures copy != null ==> fresh(copy) && copy.Valid() && fresh(copy.repr) && |copy.spine| == |spine|
      ensures copy != null ==> forall i | 0 <= i < |spine| :: dup(Contents()[i]) == Done(copy.Contents()[i])
    {
      var list := new List();
      copy := list;
      var node := head;
      ghost var k := 0;
      while node != null
        invariant k <= |spine| && node == At(spine, k)
        invariant copy == list && fresh(list) && list.Valid() && fresh(list.repr) && |list.spine| == k
        invariant forall i | 0 <= i < k :: dup(Contents()[i]) == Done(list.Contents()[i])
        decreases |spine| - k
      {
        ValueAt(spine, k);
        var value := dup(node.value);
        if value.Failed? {
          assert dup(Contents()[k]).Failed?;
          return null;
        }
        assert Linked(spine, k);
        var _ := list.AddTail(value.value);
        node, k := node.next, k + 1;
      }
    }

    /** The classic loop over an iterator that deletes the current node: every original element is
        visited once, in order, and exactly those chosen are gone. */
    method DeleteWhere(chosen: Value -> bool) returns (visited: seq<Value>)
      requires Valid()
      modifies this, repr`prev, repr`next
      ensures Valid() && repr == old(repr) && visited == old(Contents()) && Contents() == Kept(old(Contents()), chosen)
    {
      hide Progress, Values;
      visited := [];
      var next := head;
      ghost var all, now, k, at := Contents(), Contents(), 0, 0;
      Begin(all, chosen);
      while next != null
        invariant at <= |spine| && k <= |all| && Valid() && repr == old(repr) && next == At(spine, at)
        invariant now == Contents() && visited == all[..k] && Progress(all, k, now, at, chosen)
        decreases |spine| - at
      {
        var node := next;
        assert Linked(spine, at);
        ValueAt(spine, at);
        Advance(all, k, now, at, chosen);
        next := node.next;
        visited := visited + [node.value];
        if chosen(node.value) {
          Delete(node, at);
          now := now[..at] + now[at + 1..];
        } else {
          at := at + 1;
        }
        k := k + 1;
      }
      Finish(all, k, now, at, chosen);
    }

    /** The same loop over an iterator that starts at the tail. */
    method DeleteWhereBackwards(chosen: Value -> bool) returns (visited: seq<Value>)
      requires Valid()
      modifies this, repr`prev, repr`next
      ensures Valid() && repr == old(repr) && Contents() == Kept(old(Contents()), chosen)
      ensures |visited| == |old(spine)|
      ensures forall i | 0 <= i < |visited| :: visited[i] == old(Contents())[|visited| - 1 - i]
    {
      hide Values, Back, Kept;
      visited := [];
      var next := tail;
      ghost var all, now, k := Contents(), Contents(), len;
      BeginBack(all, chosen);
      while next != null
        invariant 0 <= k <= |spine| && k <= |all| && Valid() && repr == old(repr) && next == At(spine, k - 1)
        invariant now == Contents() && Back(all, k, now, chosen)
        invariant |visited| == |all| - k && forall i | 0 <= i < |visited| :: visited[i] == all[|all| - 1 - i]
        decreases k
      {
        var node := next;
        k := k - 1;
        assert Linked(spine, k);
        ValueAt(spine, k);
        Retreat(all, k, now, chosen);
        next := node.prev;
        visited := visited + [node.value];
        if chosen(node.value) {
          Delete(node, k);
          now := now[..k] + now[k + 1..];
        }
      }
      FinishBack(all, now, chosen);
    }
  }

  /** The first k elements are untouched, and of the others those not chosen follow. */
  ghost predicate Back(all: seq<Value>, k: nat, now: seq<Value>, chosen: Value -> bool) {
    k <= |all| && k <= |now| && now[..k] == all[..k] && now[k..] == Kept(all[k..], chosen)
  }

  lemma BeginBack(all: seq<Value>, chosen: Value -> bool)
    ensures Back(all, |all|, all, chosen)
  {
    assert all[|all|..] == [];
  }

  lemma {:induction false} KeptFirst(x: Value, s: seq<Value>, chosen: Value -> bool)
    ensures Kept([x] + s, chosen) == (if chosen(x) then [] else [x]) + Kept(s, chosen)
    decreases |s|
  {
    var all := [x] + s;
    if s == [] {
      assert all[..0] == [];
    } else {
      var k := |s| - 1;
      assert all[..|all| - 1] == [x] + s[..k] && all[|all| - 1] == s[k];
      KeptFirst(x, s[..k], chosen);
    }
  }

  lemma Retreat(all: seq<Value>, k: nat, now: seq<Value>, chosen: Value -> bool)
    requires Back(all, k + 1, now, chosen)
    ensures now[k] == all[k] && Back(all, k, if chosen(now[k]) then now[..k] + now[k + 1..] else now, chosen)
  {
    hide Kept;
    assert now[..k + 1][k] == all[..k + 1][k];
    assert all[k..] == [all[k]] + all[k + 1..];
    KeptFirst(all[k], all[k + 1..], chosen);
    assert now[..k] == now[..k + 1][..k] == all[..k + 1][..k] == all[..k];
    assert now[k..] == [now[k]] + now[k + 1..];
    var less := now[..k] + now[k + 1..];
    assert less[..k] == now[..k] && less[k..] == now[k + 1..];
  }

  lemma FinishBack(all: seq<Value>, now: seq<Value>, chosen: Value -> bool)
    requires Back(all, 0, now, chosen)
    ensures now == Kept(all, chosen)
  {
    assert now[0..] == now && all[0..] == all;
  }

  /** Of the k elements visited those not chosen are left, before position at, and the rest follows. */
  ghost predicate Progress(all: seq<Value>, k: nat, now: seq<Value>, at: nat, chosen: Value -> bool) {
    k <= |all| && at <= |now| && now[..at] == Kept(all[..k], chosen) && now[at..] == all[k..]
  }

  lemma Begin(all: seq<Value>, chosen: Value -> bool)
    ensures Progress(all, 0, all, 0, chosen) && all[..0] == []
  {
  }

  lemma Advance(all: seq<Value>, k: nat, now: seq<Value>, at: nat, chosen: Value -> bool)
    requires Progress(all, k, now, at, chosen) && at < |now|
    ensures k < |all| && now[at] == all[k] && all[..k + 1] == all[..k] + [all[k]]
    ensures if chosen(now[at]) then Progress(all, k + 1, now[..at] + now[at + 1..], at, chosen)
            else Progress(all, k + 1, now, at + 1, chosen)
  {
    assert now[at..][0] == all[k..][0];
    KeptNext(all, chosen, k);
    assert now[at + 1..] == now[at..][1..] == all[k..][1..] == all[k + 1..];
    var less := now[..at] + now[at + 1..];
    assert less[..at] == now[..at] && less[at..] == now[at + 1..];
    assert now[..at + 1] == now[..at] + [now[at]];
  }

  lemma Finish(all: seq<Value>, k: nat, now: seq<Value>, at: nat, chosen: Value -> bool)
    requires Progress(all, k, now, at, chosen) && at == |now|
    ensures all[..k] == all && now == Kept(all, chosen)
  {
    assert all[k..] == [];
    assert all[..k] == all && now[..at] == now;
  }

  /** The index of the first match, or the length. */
  function First(c: seq<Value>, matches: Value -> bool): (k: nat)
    ensures k <= |c| && (k < |c| ==> matches(c[k])) && forall i | 0 <= i < k :: !matches(c[i])
  {
    if c == [] || matches(c[0]) then 0 else 1 + First(c[1..], matches)
  }

  lemma FirstIs(c: seq<Value>, matches: Value -> bool, k: nat)
    requires k <= |c| && (k < |c| ==> matches(c[k])) && forall i | 0 <= i < k :: !matches(c[i])
    ensures First(c, matches) == k
  {
  }

  datatype Copy = Done(value: Value) | Failed

  function Kept(s: seq<Value>, chosen: Value -> bool): seq<Value> {
    if s == [] then []
    else
      var k := |s| - 1;
      Kept(s[..k], chosen) + if chosen(s[k]) then [] else [s[k]]
  }

  lemma KeptNext(s: seq<Value>, chosen: Value -> bool, k: nat)
    requires k < |s|
    ensures s[..k + 1] == s[..k] + [s[k]]
    ensures Kept(s[..k + 1], chosen) == Kept(s[..k], chosen) + if chosen(s[k]) then [] else [s[k]]
  {
    assert s[..k + 1][..k] == s[..k];
  }
}
