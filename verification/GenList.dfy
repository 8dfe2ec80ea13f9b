/** genlist.h: a singly linked list on the heap. */
module GenList {
  import opened Wrappers

  class Node<T> {
    var data: T
    var next: Node?<T>

    constructor (data: T)
      ensures this.data == data && next == null
    {
      this.data, next := data, null;
    }
  }

  /** `nodes` are the nodes of the list at `head`, in order, each once: the list is finite and acyclic. */
  ghost predicate IsList<T>(head: Node?<T>, nodes: seq<Node<T>>)
    reads nodes
  {
    && (forall i, j :: 0 <= i < j < |nodes| ==> nodes[i] != nodes[j])
    && head == First(nodes, 0)
    && forall i :: 0 <= i < |nodes| ==> nodes[i].next == First(nodes, i + 1)
  }

  /** The node at a position, or null past the end. */
  ghost function First<T>(nodes: seq<Node<T>>, i: nat): Node?<T> { if i < |nodes| then nodes[i] else null }

  ghost function Values<T>(nodes: seq<Node<T>>): seq<T>
    reads nodes
  {
    seq(|nodes|, i requires 0 <= i < |nodes| reads nodes => nodes[i].data)
  }

  // ---- what the operations mean

  /** Without the first element equal to `x`. */
  function Without<T(==)>(s: seq<T>, x: T): seq<T> {
    if s == [] then [] else if s[0] == x then s[1..] else [s[0]] + Without(s[1..], x)
  }

  /** Without the element at `index`; a negative index means the first, one past the end none. */
  function WithoutAt<T>(s: seq<T>, index: int): seq<T> {
    var k := if index < 0 then 0 else index;
    if k < |s| then s[..k] + s[k + 1..] else s
  }

  function Occurs<T(==)>(s: seq<T>, x: T): nat {
    if s == [] then 0 else (if s[0] == x then 1 else 0) + Occurs(s[1..], x)
  }

  lemma {:induction false} WithoutPrefix<T>(s: seq<T>, x: T, k: nat)
    requires k <= |s| && forall i :: 0 <= i < k ==> s[i] != x
    ensures Without(s, x) == if k < |s| && s[k] == x then s[..k] + s[k + 1..] else s[..k] + Without(s[k..], x)
  {
    if k == 0 {
      assert s[..0] == [] && s[0..] == s && [] + Without(s, x) == Without(s, x);
      if s != [] {
        assert [] + s[1..] == s[1..];
      }
    } else {
      WithoutPrefix(s[1..], x, k - 1);
      assert s[1..][..k - 1] == s[1..k] && s[1..][k - 1..] == s[k..];
      assert [s[0]] + s[1..k] == s[..k];
      if k < |s| {
        assert s[1..][k - 1] == s[k] && s[1..][k..] == s[k + 1..];
        assert [s[0]] + (s[1..k] + s[k + 1..]) == s[..k] + s[k + 1..];
      }
      assert [s[0]] + (s[1..k] + Without(s[k..], x)) == s[..k] + Without(s[k..], x);
    }
  }

  /** Removing takes away exactly one occurrence if there is one, and no other element. */
  lemma {:induction false} WithoutTakesOne<T>(s: seq<T>, x: T, y: T)
    ensures Occurs(Without(s, x), y) == Occurs(s, y) - if y == x && x in s then 1 else 0
  {
    if s != [] {
      if s[0] == x {
        if y == x { assert s[0] in s; }
      } else {
        WithoutTakesOne(s[1..], x, y);
        assert ([s[0]] + Without(s[1..], x))[1..] == Without(s[1..], x);
        assert x in s <==> x in s[1..];
      }
    }
  }

  // ---- the operations

  /** `_add`, when memory is there. */
  method Add<T>(head: Node?<T>, elem: T, ghost nodes: seq<Node<T>>) returns (r: Node<T>, ghost last: Node<T>)
    requires IsList(head, nodes)
    modifies nodes
    ensures fresh(last) && IsList(r, nodes + [last])
    ensures Values(nodes + [last]) == old(Values(nodes)) + [elem]
  {
    var cell := new Node(elem);
    last := cell;
    if head != null {
      var current := head;
      ghost var i := 0;
      while current.next != null
        invariant 0 <= i < |nodes| && current == nodes[i]
        decreases |nodes| - i
      {
        current := current.next;
        i := i + 1;
      }
      current.next := cell;
      r := head;
    } else {
      r := cell;
    }
  }

  /** Takes `current`, the node at position `k`, out of the list. */
  method Unlink<T>(head: Node<T>, previous: Node?<T>, current: Node<T>, ghost nodes: seq<Node<T>>, ghost k: nat)
    returns (r: Node?<T>)
    requires IsList(head, nodes) && k < |nodes| && current == nodes[k]
    requires if k == 0 then previous == null else previous == nodes[k - 1]
    modifies nodes
    ensures IsList(r, nodes[..k] + nodes[k + 1..])
    ensures Values(nodes) == old(Values(nodes))
    ensures Values(nodes[..k] + nodes[k + 1..]) == old(Values(nodes))[..k] + old(Values(nodes))[k + 1..]
    ensures multiset(nodes[..k] + nodes[k + 1..]) + multiset([current]) == multiset(nodes)
  {
    r := head;
    if previous == null {
      r := current.next;
    } else {
      previous.next := current.next;
    }
    assert Values(nodes) == old(Values(nodes));
    ValuesWithout(nodes, k);
    assert nodes == nodes[..k] + [nodes[k]] + nodes[k + 1..];
    Relinked(r, nodes, k);
  }

  /** The list without its `k`th node, once the node before it points past it. */
  lemma Relinked<T>(r: Node?<T>, nodes: seq<Node<T>>, k: nat)
    requires k < |nodes| && forall i, j :: 0 <= i < j < |nodes| ==> nodes[i] != nodes[j]
    requires forall i :: 0 <= i < |nodes| && i + 1 != k ==> nodes[i].next == First(nodes, i + 1)
    requires k > 0 ==> nodes[k - 1].next == First(nodes, k + 1)
    requires r == if k == 0 then First(nodes, 1) else First(nodes, 0)
    ensures IsList(r, nodes[..k] + nodes[k + 1..])
  {
    var left := nodes[..k] + nodes[k + 1..];
    FirstOfLeft(nodes, k, 0);
    forall i, j | 0 <= i < j < |left| ensures left[i] != left[j] {
      FirstOfLeft(nodes, k, i);
      FirstOfLeft(nodes, k, j);
    }
    forall i | 0 <= i < |left| ensures left[i].next == First(left, i + 1) {
      FirstOfLeft(nodes, k, i);
      FirstOfLeft(nodes, k, i + 1);
    }
  }

  /** Positions shift by one from the gap on. */
  lemma FirstOfLeft<T>(nodes: seq<Node<T>>, k: nat, i: nat)
    requires k < |nodes|
    ensures First(nodes[..k] + nodes[k + 1..], i) == First(nodes, if i < k then i else i + 1)
  {}

  lemma ValuesWithout<T>(nodes: seq<Node<T>>, k: nat)
    requires k < |nodes|
    ensures Values(nodes[..k] + nodes[k + 1..]) == Values(nodes)[..k] + Values(nodes)[k + 1..]
  {}

  /** `_remove`; `freed` is the node given back, if any. A missing element to compare with changes nothing. */
  method Remove<T(==)>(head: Node?<T>, elem: Option<T>, ghost nodes: seq<Node<T>>)
    returns (r: Node?<T>, ghost left: seq<Node<T>>, ghost freed: seq<Node<T>>)
    requires IsList(head, nodes)
    modifies nodes
    ensures IsList(r, left) && multiset(left) + multiset(freed) == multiset(nodes) && |freed| <= 1
    ensures Values(left) == if elem.None? then old(Values(nodes)) else Without(old(Values(nodes)), elem.value)
    ensures Values(nodes) == old(Values(nodes))
  {
    left, freed := nodes, [];
    if elem.None? { return head, left, freed; }
    ghost var values := Values(nodes);
    if head == null {
      assert values == [];
      return null, left, freed;
    }
    ghost var k: nat;
    var previous: Node?<T>, current: Node?<T>;
    previous, current, k := FindValue(head, elem.value, nodes);
    if current == null { return head, left, freed; }
    r := Unlink(head, previous, current, nodes, k);
    left, freed := nodes[..k] + nodes[k + 1..], [current];
  }

  /** The search loop of `_remove`: the first node with the value, and the node before it. */
  method FindValue<T(==)>(head: Node<T>, elem: T, ghost nodes: seq<Node<T>>)
    returns (previous: Node?<T>, current: Node?<T>, ghost k: nat)
    requires IsList(head, nodes)
    ensures k <= |nodes| && current == First(nodes, k)
    ensures previous == if k == 0 then null else nodes[k - 1]
    ensures Without(Values(nodes), elem)
         == if current == null then Values(nodes) else Values(nodes)[..k] + Values(nodes)[k + 1..]
  {
    hide Without;
    ghost var values := Values(nodes);
    current, previous, k := head, null, 0;
    while current != null
      invariant k <= |nodes| && current == First(nodes, k)
      invariant previous == if k == 0 then null else nodes[k - 1]
      invariant forall i :: 0 <= i < k ==> values[i] != elem
      decreases |nodes| - k
    {
      if current.data == elem { break; }
      previous := current;
      current := current.next;
      k := k + 1;
    }
    WithoutPrefix(values, elem, k);
    if current == null {
      NothingLeft(elem, values);
    }
  }

  lemma NothingLeft<T>(x: T, s: seq<T>)
    ensures s[..|s|] + Without(s[|s|..], x) == s
  {
    assert s[|s|..] == [] && s[..|s|] == s && s + [] == s;
  }

  /** `_remove_at` */
  method RemoveAt<T>(head: Node?<T>, index: int, ghost nodes: seq<Node<T>>)
    returns (r: Node?<T>, ghost left: seq<Node<T>>, ghost freed: seq<Node<T>>)
    requires IsList(head, nodes)
    modifies nodes
    ensures IsList(r, left) && multiset(left) + multiset(freed) == multiset(nodes) && |freed| <= 1
    ensures Values(left) == WithoutAt(old(Values(nodes)), index)
    ensures Values(nodes) == old(Values(nodes))
  {
    left, freed := nodes, [];
    if head == null { return null, left, freed; }
    ghost var values := Values(nodes);
    var current: Node?<T>, previous: Node?<T> := head, null;
    var i := 0;
    while current != null && i < index
      invariant 0 <= i <= |nodes| && (i <= index || i == 0) && current == First(nodes, i)
      invariant previous == if i == 0 then null else nodes[i - 1]
      decreases |nodes| - i
    {
      previous := current;
      current := current.next;
      i := i + 1;
    }
    if current == null { return head, left, freed; }
    r := Unlink(head, previous, current, nodes, i);
    left, freed := nodes[..i] + nodes[i + 1..], [current];
  }

  /** `_count` */
  method Count<T>(head: Node?<T>, ghost nodes: seq<Node<T>>) returns (count: int)
    requires IsList(head, nodes)
    ensures count == |nodes|
  {
    count := 0;
    var current := head;
    while current != null
      invariant 0 <= count <= |nodes| && current == First(nodes, count)
      decreases |nodes| - count
    {
      count := count + 1;
      current := current.next;
    }
  }

  /** `_print_all`: the values handed to the printer, in order. */
  method PrintAll<T>(head: Node?<T>, ghost nodes: seq<Node<T>>) returns (printed: seq<T>)
    requires IsList(head, nodes)
    ensures printed == Values(nodes)
  {
    printed := [];
    var current := head;
    while current != null
      invariant |printed| <= |nodes| && current == First(nodes, |printed|)
      invariant printed == Values(nodes)[..|printed|]
      decreases |nodes| - |printed|
    {
      printed := printed + [current.data];
      current := current.next;
    }
  }

  /** `_free_all`: every node once, none read after it is freed. */
  method FreeAll<T>(head: Node?<T>, ghost nodes: seq<Node<T>>) returns (r: Node?<T>, ghost freed: seq<Node<T>>)
    requires IsList(head, nodes)
    ensures r == null && freed == nodes
  {
    freed := [];
    var current := head;
    while current != null
      invariant |freed| <= |nodes| && freed == nodes[..|freed|] && current == First(nodes, |freed|)
      decreases |nodes| - |freed|
    {
      assert current !in freed;
      var next := current.next;
      freed := freed + [current];
      current := next;
    }
    return null, freed;
  }
}
