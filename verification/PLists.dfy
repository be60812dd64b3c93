/** The persistent doubly linked lists of the kernel, and what it means for a list
    to hold a given sequence of nodes. `circ` tells a ring (ready list) from a
    None-terminated chain (delay, wait and timer lists). */
module PLists {

  class Node {
    var prev: Node?
    var next: Node?
    var list: PList?
    var key: int  // what the element type orders by: expiry time, wake-up time or priority

    constructor (k: int)
      ensures prev == null && next == null && list == null && key == k
    {
      prev, next, list, key := null, null, null, k;
    }
  }

  class PList {
    var len: nat
    var cursor: Node?
    var head: Node?

    constructor ()
      ensures len == 0 && cursor == null && head == null
    {
      len, cursor, head := 0, null, null;
    }
  }

  // ---------- sequences of nodes ----------

  ghost predicate Distinct(s: seq<Node>) {
    forall i, j :: 0 <= i < j < |s| ==> s[i] != s[j]
  }

  ghost function PrevOf(s: seq<Node>, i: int, circ: bool): Node?
    requires 0 <= i < |s|
  {
    if 0 < i then s[i - 1] else if circ then s[|s| - 1] else null
  }

  ghost function NextOf(s: seq<Node>, i: int, circ: bool): Node?
    requires 0 <= i < |s|
  {
    if i < |s| - 1 then s[i + 1] else if circ then s[0] else null
  }

  ghost function First(s: seq<Node>): Node? {
    if s == [] then null else s[0]
  }

  ghost function Without(s: seq<Node>, k: int): seq<Node>
    requires 0 <= k < |s|
  {
    s[..k] + s[k + 1..]
  }

  ghost function With(s: seq<Node>, k: int, node: Node): seq<Node>
    requires 0 <= k <= |s|
  {
    s[..k] + [node] + s[k..]
  }

  /** The singleton set of a link, or nothing: used in frames. */
  ghost function Opt(n: Node?): set<Node> {
    if n == null then {} else {n}
  }

  // ---------- shapes ----------

  ghost predicate Linked(s: seq<Node>, circ: bool)
    reads s`prev, s`next
  {
    forall i {:trigger s[i]} :: 0 <= i < |s| ==>
      s[i].prev == PrevOf(s, i, circ) && s[i].next == NextOf(s, i, circ)
  }

  ghost predicate Owned(l: PList, s: seq<Node>)
    reads s`list
  {
    forall i {:trigger s[i]} :: 0 <= i < |s| ==> s[i].list == l
  }

  /** `l` holds exactly the nodes `s`, in this order. */
  ghost predicate IsList(l: PList, s: seq<Node>, circ: bool)
    reads l, s`prev, s`next, s`list
  {
    && Distinct(s) && Linked(s, circ) && Owned(l, s)
    && l.len == |s| && l.head == First(s)
  }

  /** A None-terminated list; its cursor is never set. */
  ghost predicate IsChain(l: PList, s: seq<Node>)
    reads l, s`prev, s`next, s`list
  {
    IsList(l, s, false) && l.cursor == null
  }

  /** Links, header and length of a ring whose cursor is at position `c` (no cursor when it is empty). */
  ghost predicate RingShape(l: PList, s: seq<Node>, c: int)
    reads l, s`prev, s`next
  {
    && Distinct(s) && Linked(s, true) && l.len == |s| && l.head == First(s)
    && (if s == [] then l.cursor == null && c == 0 else 0 <= c < |s| && l.cursor == s[c])
  }

  ghost predicate IsRing(l: PList, s: seq<Node>, c: int)
    reads l, s`prev, s`next, s`list
  {
    RingShape(l, s, c) && Owned(l, s)
  }

  /** All links that do not point across the gap left by taking out `s[k]`. */
  ghost predicate LinkedAround(s: seq<Node>, k: int, circ: bool)
    requires 0 <= k < |s|
    reads s`prev, s`next
  {
    && (forall i {:trigger s[i]} :: 0 <= i < |s| && s[i] != NextOf(s, k, circ) ==> s[i].prev == PrevOf(s, i, circ))
    && (forall i {:trigger s[i]} :: 0 <= i < |s| && s[i] != PrevOf(s, k, circ) ==> s[i].next == NextOf(s, i, circ))
  }

  /** The neighbours of the slot before position `i`. */
  ghost function SlotNext(s: seq<Node>, i: int, circ: bool): Node?
    requires 0 <= i <= |s|
  {
    if i < |s| then s[i] else if circ then First(s) else null
  }

  ghost function SlotPrev(s: seq<Node>, i: int, circ: bool): Node?
    requires 0 <= i <= |s|
  {
    if 0 < i then s[i - 1] else if circ && s != [] then s[|s| - 1] else null
  }

  /** All links that do not point across the slot before position `i`. */
  ghost predicate LinkedBeside(s: seq<Node>, i: int, circ: bool)
    requires 0 <= i <= |s|
    reads s`prev, s`next
  {
    && (forall j {:trigger s[j]} :: 0 <= j < |s| && s[j] != SlotNext(s, i, circ) ==> s[j].prev == PrevOf(s, j, circ))
    && (forall j {:trigger s[j]} :: 0 <= j < |s| && s[j] != SlotPrev(s, i, circ) ==> s[j].next == NextOf(s, j, circ))
  }

  lemma WithoutIsDistinct(s: seq<Node>, k: int)
    requires 0 <= k < |s| && Distinct(s)
    ensures Distinct(Without(s, k)) && s[k] !in Without(s, k)
  {
  }

  lemma WithIsDistinct(s: seq<Node>, k: int, node: Node)
    requires 0 <= k <= |s| && Distinct(s) && node !in s
    ensures Distinct(With(s, k, node))
  {
  }

  /** The neighbours of `s[j]` once `s[k]` is taken out. */
  lemma NeighboursWithout(s: seq<Node>, k: int, circ: bool, j: int)
    requires 0 <= k < |s| && 0 <= j < |s| && j != k
    ensures
      var t, i := Without(s, k), if j < k then j else j - 1;
      && |t| == |s| - 1 && t[i] == s[j]
      && PrevOf(t, i, circ) == (if j == k + 1 || (circ && k == |s| - 1 && j == 0) then PrevOf(s, k, circ) else PrevOf(s, j, circ))
      && NextOf(t, i, circ) == (if j == k - 1 || (circ && k == 0 && j == |s| - 1) then NextOf(s, k, circ) else NextOf(s, j, circ))
  {
  }

  lemma WithoutLinkAt(s: seq<Node>, k: int, circ: bool, i: int)
    requires 0 <= k < |s| && 0 <= i < |s| - 1 && Distinct(s) && LinkedAround(s, k, circ)
    requires var p, n := PrevOf(s, k, circ), NextOf(s, k, circ);
             (p != null ==> p.next == n) && (n != null ==> n.prev == p)
    ensures var t := Without(s, k);
            t[i].prev == PrevOf(t, i, circ) && t[i].next == NextOf(t, i, circ)
  {
    hide Without;
    var j := if i < k then i else i + 1;
    NeighboursWithout(s, k, circ, j);
    assert s[j] == NextOf(s, k, circ) || s[j].prev == PrevOf(s, j, circ);
    assert s[j] == PrevOf(s, k, circ) || s[j].next == NextOf(s, j, circ);
  }

  /** The neighbours of `s[i]` once `node` is put in before position `k`. */
  lemma NeighboursWith(s: seq<Node>, k: int, node: Node, circ: bool, i: int)
    requires 0 <= k <= |s| && 0 <= i < |s|
    ensures
      var t, j := With(s, k, node), if i < k then i else i + 1;
      && |t| == |s| + 1 && t[j] == s[i]
      && PrevOf(t, j, circ) == (if i == k || (circ && k == |s| && i == 0) then node else PrevOf(s, i, circ))
      && NextOf(t, j, circ) == (if i == k - 1 || (circ && k == 0 && i == |s| - 1) then node else NextOf(s, i, circ))
  {
  }

  lemma WithLinkAt(s: seq<Node>, k: int, node: Node, circ: bool, i: int)
    requires 0 <= k <= |s| && 0 <= i < |s| && Distinct(s) && LinkedBeside(s, k, circ)
    requires var p, n := SlotPrev(s, k, circ), SlotNext(s, k, circ);
             (p != null ==> p.next == node) && (n != null ==> n.prev == node)
    ensures var t, j := With(s, k, node), if i < k then i else i + 1;
            t[j] == s[i] && s[i].prev == PrevOf(t, j, circ) && s[i].next == NextOf(t, j, circ)
  {
    hide With;
    NeighboursWith(s, k, node, circ, i);
    assert s[i] == SlotNext(s, k, circ) || s[i].prev == PrevOf(s, i, circ);
    assert s[i] == SlotPrev(s, k, circ) || s[i].next == NextOf(s, i, circ);
  }

  /** Taking a node out: when its two neighbours point at each other, the rest is linked. */
  lemma WithoutIsLinked(s: seq<Node>, k: int, circ: bool)
    requires 0 <= k < |s| && Distinct(s) && LinkedAround(s, k, circ)
    requires var p, n := PrevOf(s, k, circ), NextOf(s, k, circ);
             |s| > 1 ==> (p != null ==> p.next == n) && (n != null ==> n.prev == p)
    ensures Linked(Without(s, k), circ)
  {
    var t := Without(s, k);
    forall i {:trigger t[i]} | 0 <= i < |t|
      ensures t[i].prev == PrevOf(t, i, circ) && t[i].next == NextOf(t, i, circ)
    {
      WithoutLinkAt(s, k, circ, i);
    }
  }

  /** Putting a node in: when it and its two neighbours point at each other, all is linked. */
  lemma WithIsLinked(s: seq<Node>, k: int, node: Node, circ: bool)
    requires 0 <= k <= |s| && Distinct(s) && LinkedBeside(s, k, circ)
    requires var p, n := SlotPrev(s, k, circ), SlotNext(s, k, circ);
             if s == [] then node.prev == node.next == (if circ then node else null)
             else node.prev == p && node.next == n && (p != null ==> p.next == node) && (n != null ==> n.prev == node)
    ensures Linked(With(s, k, node), circ)
  {
    var t := With(s, k, node);
    forall i {:trigger t[i]} | 0 <= i < |t|
      ensures t[i].prev == PrevOf(t, i, circ) && t[i].next == NextOf(t, i, circ)
    {
      if i != k {
        WithLinkAt(s, k, node, circ, if i < k then i else i - 1);
      }
    }
  }

  // ---------- facts used where the shapes themselves are kept hidden ----------

  lemma NeighboursAreIn(l: PList, s: seq<Node>, k: int, circ: bool)
    requires 0 <= k < |s| && IsList(l, s, circ)
    ensures s[k].prev == null || s[k].prev in s
    ensures s[k].next == null || s[k].next in s
  {
  }

  lemma SidesAreIn(s: seq<Node>, i: int, circ: bool)
    requires 0 <= i <= |s|
    ensures SlotPrev(s, i, circ) == null || SlotPrev(s, i, circ) in s
    ensures SlotNext(s, i, circ) == null || SlotNext(s, i, circ) in s
  {
  }

  lemma WithoutIsIn(s: seq<Node>, k: int)
    requires 0 <= k < |s|
    ensures |Without(s, k)| == |s| - 1
    ensures forall n :: n in Without(s, k) ==> n in s
  {
  }
}
