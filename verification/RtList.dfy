/**
  * The intrusive circular list of RT-Thread, `rt_list_t`. A ghost sequence lists the nodes; every
  * operation is proved to be an edit of it.
  */
module RtList {
  class Node {
    var next: Node?
    var prev: Node?

    /** `rt_list_init` */
    constructor ()
      ensures Ring([this])
    {
      next, prev := this, this;
    }
  }

  ghost predicate Linked(a: Node, b: Node)
    reads a, b
  {
    a.next == b && b.prev == a
  }

  /** The nodes of one list in `next` order, all different, with `prev` pointing back. */
  ghost predicate Ring(r: seq<Node>)
    reads r
  {
    && |r| > 0
    && (forall i, j | 0 <= i < j < |r| :: r[i] != r[j])
    && (forall i | 0 <= i < |r| - 1 :: Linked(r[i], r[i + 1]))
    && Linked(r[|r| - 1], r[0])
  }

  function Rotated(r: seq<Node>, k: nat): seq<Node>
    requires k <= |r|
  {
    r[k..] + r[..k]
  }

  /** The list can be read from any of its nodes. */
  lemma Rotate(r: seq<Node>, k: nat)
    requires Ring(r) && k <= |r|
    ensures Ring(Rotated(r, k))
  {
    var s := Rotated(r, k);
    forall i | 0 <= i < |s| - 1
      ensures Linked(s[i], s[i + 1])
    {
      if i + 1 < |r| - k {
        assert Linked(r[i + k], r[i + k + 1]);
      } else if i + 1 > |r| - k {
        assert Linked(r[i + k - |r|], r[i + k - |r| + 1]);
      }
    }
  }

  lemma {:induction false} SamePrefix(r: seq<Node>, s: seq<Node>, n: nat)
    requires Ring(r) && Ring(s) && r[0] == s[0] && n <= |r| && n <= |s|
    ensures r[..n] == s[..n]
  {
    if n > 1 {
      SamePrefix(r, s, n - 1);
      assert r[n - 2] == r[..n - 1][n - 2] == s[n - 2];
      assert Linked(r[n - 2], r[n - 2 + 1]) && Linked(s[n - 2], s[n - 2 + 1]);
      assert r[..n] == r[..n - 1] + [r[n - 1]] && s[..n] == s[..n - 1] + [s[n - 1]];
    }
  }

  lemma NotLonger(r: seq<Node>, s: seq<Node>)
    requires Ring(r) && Ring(s) && r[0] == s[0]
    ensures |s| <= |r|
  {
    if |r| < |s| {
      SamePrefix(r, s, |r|);
    }
  }

  /** There is one ring through a node: the links determine the sequence. */
  lemma SameRing(r: seq<Node>, s: seq<Node>)
    requires Ring(r) && Ring(s) && r[0] == s[0]
    ensures r == s
  {
    NotLonger(r, s);
    NotLonger(s, r);
    SamePrefix(r, s, |r|);
  }

  /** `other` is a ring that shares no node with `r`; empty for none. */
  ghost predicate Apart(other: seq<Node>, r: seq<Node>)
    reads other
  {
    |other| > 0 ==> Ring(other) && forall x <- other :: x !in r
  }

  twostate lemma StaysRing(other: seq<Node>)
    requires |other| > 0 ==> old(Ring(other))
    requires forall x <- other :: x.next == old(x.next) && x.prev == old(x.prev)
    ensures |other| > 0 ==> Ring(other)
  {
    forall i | 0 <= i < |other| - 1
      ensures Linked(other[i], other[i + 1])
    {
      assert old(Linked(other[i], other[i + 1]));
    }
  }

  // The three edits, with the ring read from just behind the place of the edit, so that it happens at
  // the end of the sequence.

  /** `n` goes behind `l`, the last node of `r`. */
  method LinkAfter(l: Node, n: Node, ghost r: seq<Node>)
    requires Ring(r) && l == r[|r| - 1] && n !in r
    modifies l, r[0], n
    ensures Ring(r + [n])
  {
    ghost var s := r + [n];
    l.next.prev := n;
    n.next := l.next;
    l.next := n;
    n.prev := l;
    forall i | 0 <= i < |s| - 1
      ensures Linked(s[i], s[i + 1])
    {
      if i < |r| - 1 { assert old(Linked(r[i], r[i + 1])); }
    }
  }

  /** `n` goes in front of `l`, the first node of `r`. */
  method LinkBefore(l: Node, n: Node, ghost r: seq<Node>)
    requires Ring(r) && l == r[0] && n !in r
    modifies l, r[|r| - 1], n
    ensures Ring(r + [n])
  {
    ghost var s := r + [n];
    l.prev.next := n;
    n.prev := l.prev;
    l.prev := n;
    n.next := l;
    forall i | 0 <= i < |s| - 1
      ensures Linked(s[i], s[i + 1])
    {
      if i < |r| - 1 { assert old(Linked(r[i], r[i + 1])); }
    }
  }

  /** `n`, the last node of `r + [n]`, leaves the ring and is a list of its own afterwards. */
  method Unlink(n: Node, ghost r: seq<Node>)
    requires Ring(r + [n])
    modifies n, if |r| > 0 then {r[0], r[|r| - 1]} else {}
    ensures Ring([n])
    ensures |r| > 0 ==> Ring(r)
  {
    ghost var s := r + [n];
    assert s[|s| - 1] == n && forall i | 0 <= i < |r| :: s[i] == r[i];
    if |r| > 0 {
      assert Linked(s[|r| - 1], s[|r| - 1 + 1]) && s[0] == r[0] && s[|r| - 1] == r[|r| - 1];
    }
    n.next.prev := n.prev;
    n.prev.next := n.next;
    n.prev := n;
    n.next := n;
    forall i | 0 <= i < |r| - 1
      ensures Linked(r[i], r[i + 1])
    {
      assert old(Linked(s[i], s[i + 1]));
    }
  }

  /** A node at the end of the rotated ring is a node at place `k` of the ring itself. */
  lemma TurnBack(r: seq<Node>, k: nat, n: Node)
    requires k <= |r| && Ring(Rotated(r, k) + [n])
    ensures Ring(r[..k] + [n] + r[k..])
  {
    var q := Rotated(r, k) + [n];
    Rotate(q, |r| - k);
    assert Rotated(q, |r| - k) == r[..k] + [n] + r[k..];
  }

  // The same edits at any place of a ring; any other ring, given as `other`, stays a ring.

  method InsertAfter(l: Node, n: Node, ghost r: seq<Node>, ghost k: nat, ghost other: seq<Node>)
    requires Ring(r) && k < |r| && l == r[k] && n !in r && Apart(other, r + [n])
    modifies r, n
    ensures Ring(r[..k + 1] + [n] + r[k + 1..]) && Apart(other, r + [n])
  {
    ghost var q := Rotated(r, k + 1);
    Rotate(r, k + 1);
    assert l in r + [n] && q[0] in r + [n] && n in r + [n];
    LinkAfter(l, n, q);
    StaysRing(other);
    TurnBack(r, k + 1, n);
  }

  method InsertBefore(l: Node, n: Node, ghost r: seq<Node>, ghost k: nat, ghost other: seq<Node>)
    requires Ring(r) && k < |r| && l == r[k] && n !in r && Apart(other, r + [n])
    modifies r, n
    ensures Ring(r[..k] + [n] + r[k..]) && Apart(other, r + [n])
  {
    ghost var q := Rotated(r, k);
    Rotate(r, k);
    assert l in r + [n] && q[|q| - 1] in r + [n] && n in r + [n];
    LinkBefore(l, n, q);
    StaysRing(other);
    TurnBack(r, k, n);
  }

  method Remove(n: Node, ghost r: seq<Node>, ghost k: nat, ghost other: seq<Node>)
    requires Ring(r) && k < |r| && n == r[k] && Apart(other, r)
    modifies r
    ensures Ring([n]) && (|r| > 1 ==> Ring(r[..k] + r[k + 1..])) && Apart(other, r)
  {
    ghost var q := r[k + 1..] + r[..k];
    assert Rotated(r, k + 1) == q + [n];
    Rotate(r, k + 1);
    assert (forall x <- q :: x in r) && n in r;
    Unlink(n, q);
    StaysRing(other);
    if |r| > 1 {
      Rotate(q, |r| - k - 1);
      assert Rotated(q, |r| - k - 1) == r[..k] + r[k + 1..];
    }
  }

  method IsEmpty(l: Node, ghost r: seq<Node>) returns (empty: bool)
    requires Ring(r) && l == r[0]
    ensures empty == (|r| == 1)
  {
    empty := l.next == l;
    assert |r| > 1 ==> Linked(r[0], r[0 + 1]);
  }

  /** The nodes besides the list head. */
  method Len(l: Node, ghost r: seq<Node>) returns (len: nat)
    requires Ring(r) && l == r[0]
    ensures len == |r| - 1
  {
    len := 0;
    var p := l;
    while p.next != l
      invariant len < |r| && p == r[len]
      decreases |r| - len
    {
      assert len < |r| - 1 ==> Linked(r[len], r[len + 1]);
      p := p.next;
      len := len + 1;
    }
    assert len < |r| - 1 ==> Linked(r[len], r[len + 1]);
  }
}
