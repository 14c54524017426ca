/**
 * The relocatable red-black tree of the heap, as the ordered collection it
 * implements: nodes in key order, equal keys allowed, a node identified by the
 * offset of the chunk it is embedded in.
 */
module OrderedIndex {
  import opened Prelude

  datatype Node = Node(key: nat, off: nat)

  ghost predicate InOrder(t: seq<Node>) { forall i, j | 0 <= i < j < |t| :: t[i].key <= t[j].key }

  ghost predicate Apart(t: seq<Node>) { forall i, j | 0 <= i < j < |t| :: t[i].off != t[j].off }

  ghost predicate Valid(t: seq<Node>) { InOrder(t) && Apart(t) }

  ghost predicate HasOffset(t: seq<Node>, off: nat) {
    exists n :: n in t && n.off == off
  }

  /** Where a new node goes: behind every node whose key is no greater. */
  function Slot(t: seq<Node>, key: nat): (i: nat)
    requires Valid(t)
    ensures i <= |t|
    ensures forall j | 0 <= j < i :: t[j].key <= key
    ensures forall j | i <= j < |t| :: key < t[j].key
  {
    if t == [] then 0
    else if t[|t| - 1].key <= key then |t|
    else Slot(t[..|t| - 1], key)
  }

  lemma InsInOrder(t: seq<Node>, n: Node, i: nat)
    requires InOrder(t) && i <= |t|
    requires (forall j | 0 <= j < i :: t[j].key <= n.key) && (forall j | i <= j < |t| :: n.key < t[j].key)
    ensures InOrder(t[..i] + [n] + t[i..])
  {
    var r := t[..i] + [n] + t[i..];
    assert forall k | 0 <= k < |r| :: r[k] == if k < i then t[k] else if k == i then n else t[k - 1];
  }

  lemma InsApart(t: seq<Node>, n: Node, i: nat)
    requires Apart(t) && i <= |t| && !HasOffset(t, n.off)
    ensures Apart(t[..i] + [n] + t[i..])
  {
    var r := t[..i] + [n] + t[i..];
    forall a, b | 0 <= a < b < |r| ensures r[a].off != r[b].off {
      if a == i {
        assert r[b] == t[b - 1] && t[b - 1] in t;
      } else if b == i {
        assert r[a] == t[a] && t[a] in t;
      } else {
        var x, y := if a < i then a else a - 1, if b < i then b else b - 1;
        assert r[a] == t[x] && r[b] == t[y];
      }
    }
  }

  lemma InsContents(t: seq<Node>, n: Node, i: nat)
    requires i <= |t|
    ensures forall m :: m in t[..i] + [n] + t[i..] <==> m == n || m in t
  {
    assert t == t[..i] + t[i..];
  }

  function Ins(t: seq<Node>, n: Node): (r: seq<Node>)
    requires Valid(t) && !HasOffset(t, n.off)
    ensures Valid(r)
    ensures forall m :: m in r <==> m == n || m in t
  {
    var i := Slot(t, n.key);
    InsInOrder(t, n, i);
    InsApart(t, n, i);
    InsContents(t, n, i);
    t[..i] + [n] + t[i..]
  }

  lemma DelKeeps(t: seq<Node>, i: nat)
    requires Valid(t) && i < |t|
    ensures Valid(t[..i] + t[i + 1..])
  {
    var r := t[..i] + t[i + 1..];
    assert forall k | 0 <= k < |r| :: r[k] == if k < i then t[k] else t[k + 1];
  }

  lemma DelContents(t: seq<Node>, i: nat)
    requires Apart(t) && i < |t|
    ensures forall m :: m in t[..i] + t[i + 1..] <==> m != t[i] && m in t
  {
    var r := t[..i] + t[i + 1..];
    assert t == t[..i] + [t[i]] + t[i + 1..];
    assert forall k | 0 <= k < |r| :: r[k] == if k < i then t[k] else t[k + 1];
  }

  function IndexOf(t: seq<Node>, n: Node): (i: nat)
    requires n in t
    ensures i < |t| && t[i] == n
  {
    if t[0] == n then 0 else 1 + IndexOf(t[1..], n)
  }

  function Del(t: seq<Node>, n: Node): (r: seq<Node>)
    requires Valid(t) && n in t
    ensures Valid(r)
    ensures forall m :: m in r <==> m != n && m in t
  {
    var i := IndexOf(t, n);
    DelKeeps(t, i);
    DelContents(t, i);
    t[..i] + t[i + 1..]
  }

  /** Some node with the least key that is at least `key`; which one among equal keys is open. */
  method FindLub(t: seq<Node>, key: nat) returns (r: Option<Node>)
    requires Valid(t)
    ensures r.None? ==> forall n | n in t :: n.key < key
    ensures r.Some? ==> r.value in t && key <= r.value.key
                        && forall n | n in t && key <= n.key :: r.value.key <= n.key
  {
    var i := 0;
    while i < |t| && t[i].key < key
      invariant 0 <= i <= |t|
      invariant forall j | 0 <= j < i :: t[j].key < key
    {
      i := i + 1;
    }
    if i == |t| {
      return None;
    }
    var j :| i <= j < |t| && t[j].key == t[i].key;
    return Some(t[j]);
  }

  /** Some node with the greatest key that is at most `key`. */
  method FindGlb(t: seq<Node>, key: nat) returns (r: Option<Node>)
    requires Valid(t)
    ensures r.None? ==> forall n | n in t :: key < n.key
    ensures r.Some? ==> r.value in t && r.value.key <= key
                        && forall n | n in t && n.key <= key :: n.key <= r.value.key
  {
    var i := |t|;
    while 0 < i && key < t[i - 1].key
      invariant 0 <= i <= |t|
      invariant forall j | i <= j < |t| :: key < t[j].key
    {
      i := i - 1;
    }
    if i == 0 {
      return None;
    }
    var j :| 0 <= j < i && t[j].key == t[i - 1].key;
    return Some(t[j]);
  }
}
