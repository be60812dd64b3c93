/** All lists of the kernel together: the ready rings, the delay list and the wait lists. Each holds its own nodes,
    a node is in one list at most, and its container field says in which. Operations run on mains. */
module KernelLists {
  import opened PowerSupply
  import opened PLists
  import opened ListLog
  import opened ListRemove
  import opened ListPopFront
  import opened ListInsertCursor
  import opened ListInsertFront
  import opened ListInsertSorted
  import opened RemoveLimits

  datatype ListId = ReadyRing(level: nat) | DelayList | WaitList(wait: nat)

  // ---------- one ring ----------

  /** The cursor position after position `k` is gone. */
  ghost function CursorPosWithout<T>(s: seq<T>, c: int, k: int): int {
    if k < c then c - 1 else if c < |s| - 1 then c else if k == c then 0 else c
  }

  /** The cursor stays on its node, or steps on to the next one if that node is taken out. */
  lemma CursorStays(s: seq<Node>, c: int, k: int)
    requires 0 <= c < |s| && 0 <= k < |s| && |s| > 1
    ensures var t, c' := Without(s, k), CursorPosWithout(s, c, k);
            0 <= c' < |t| && t[c'] == if c == k then NextOf(s, k, true) else s[c]
  {
  }

  /** A node that is put in before the cursor leaves the cursor on its node; the first node of a ring gets it. */
  lemma CursorStaysBehind(s: seq<Node>, c: int, node: Node)
    requires IsPos(s, c)
    ensures With(s, c, node)[CursorAfter(s, c)] == if s == [] then node else s[c]
  {
  }

  lemma RingWithout(l: PList, s: seq<Node>, c: int, k: int)
    requires 0 <= c < |s| && 0 <= k < |s| && |s| > 1 && Distinct(s)
    requires IsList(l, Without(s, k), true) && l.cursor == CursorWithout(s[c], s, k, true)
    ensures IsRing(l, Without(s, k), CursorPosWithout(s, c, k))
  {
    var t := Without(s, k);
    if c == k {
      assert NextOf(s, k, true) == t[CursorPosWithout(s, c, k)];
    } else {
      assert s[c] != s[k];
    }
  }

  method RemoveFromRing(l: PList, node: Node, log: OpLog, ghost s: seq<Node>, ghost c: int, ghost k: int)
    returns (ghost c': int)
    requires 0 <= k < |s| < MAX_LEN && s[k] == node && IsRing(l, s, c)
    modifies l, log`word, node`list, Opt(node.prev)`next, Opt(node.next)`prev
    ensures IsRing(l, Without(s, k), c') && node.list == null && c' == CursorPosWithout(s, c, k)
  {
    RingIsList(l, s, c);
    var pw;
    if l.len == 1 {
      assert s == [node];
      pw := RemoveOnlyRingNode(l, node, log, Mains);
      assert Without(s, k) == [];
      c' := 0;
    } else {
      pw := OptimizedRemove(l, node, log, Mains, s, k, true);
      RingWithout(l, s, c, k);
      c' := CursorPosWithout(s, c, k);
    }
  }

  lemma RingIsList(l: PList, s: seq<Node>, c: int)
    requires IsRing(l, s, c) && s != []
    ensures IsList(l, s, true) && l.cursor == s[c] && l.len == |s|
  {
  }

  /** What either kind of list is. */
  ghost predicate IsListOf(isRing: bool, l: PList, s: seq<Node>, c: int)
    reads l, s`prev, s`next, s`list
  {
    if isRing then IsRing(l, s, c) else IsChain(l, s)
  }

  lemma LinksStayInside(isRing: bool, l: PList, s: seq<Node>, c: int, k: int)
    requires 0 <= k < |s| && IsListOf(isRing, l, s, c)
    ensures s[k].prev == null || s[k].prev in s
    ensures s[k].next == null || s[k].next in s
  {
  }

  lemma StaysIn(s: seq<Node>, k: int)
    requires 0 <= k < |s|
    ensures |Without(s, k)| == |s| - 1 && forall n :: n in Without(s, k) ==> n in s
    ensures forall n :: n in s && n != s[k] ==> n in Without(s, k)
  {
    forall n | n in s && n != s[k]
      ensures n in Without(s, k)
    {
      var i :| 0 <= i < |s| && s[i] == n;
      assert Without(s, k)[if i < k then i else i - 1] == n;
    }
  }

  lemma FrontOfChain(l: PList, s: seq<Node>)
    requires IsChain(l, s)
    ensures l.head == First(s)
    ensures s != [] ==> s[0].next == if |s| > 1 then s[1] else null
  {
  }

  /** `optimized_pop_front` of a chain that is not empty. */
  method DetachFront(l: PList, log: OpLog, ghost s: seq<Node>) returns (node: Node)
    requires 0 < |s| < MAX_LEN && IsChain(l, s)
    modifies l, log`word, {s[0]}`list, Opt(s[0].next)`prev
    ensures node == s[0] && IsChain(l, Without(s, 0)) && node.list == null
  {
    hide IsList, PopCut;
    FrontOfChain(l, s);
    var pw, popped := OptimizedPopFront(l, log, Mains, s, null);
    node := popped;
  }

  method Detach(isRing: bool, pop: bool, l: PList, node: Node, log: OpLog,
                ghost s: seq<Node>, ghost c: int, ghost k: int)
    returns (ghost c': int)
    requires 0 <= k < |s| < MAX_LEN && s[k] == node && IsListOf(isRing, l, s, c) && (pop ==> k == 0 && !isRing)
    modifies l, log`word, node`list, Opt(node.prev)`next, Opt(node.next)`prev
    ensures IsListOf(isRing, l, Without(s, k), c') && node.list == null
    ensures c' == if isRing then CursorPosWithout(s, c, k) else c
  {
    hide IsRing, IsList, RemoveCut;
    if isRing {
      c' := RemoveFromRing(l, node, log, s, c, k);
    } else {
      c' := c;
      if pop {
        var _ := DetachFront(l, log, s);
        return;
      }
      CursorStaysUnset(s, k);
      var pw := OptimizedRemove(l, node, log, Mains, s, k, false);
    }
  }

  /** Where an insertion puts a node: before the cursor of a ring, at its place in a sorted list, or in front. */
  datatype Place = BeforeCursor | InOrder(op: MicroOp) | InFront

  ghost predicate IsPlace(place: Place, s: seq<Node>, c: int, node: Node, i: int)
    reads s`key, node`key
  {
    0 <= i <= |s| && if place.BeforeCursor? then i == c else if place.InOrder? then IsSpot(s, node, i) else i == 0
  }

  ghost function Elements(s: seq<Node>): set<Node> {
    set n | n in s
  }

  method Attach(place: Place, l: PList, node: Node, log: OpLog, ghost s: seq<Node>, ghost c: int)
    returns (ghost i: int, ghost c': int)
    requires |s| < MAX_LEN && node !in s && node.list == null && IsListOf(place.BeforeCursor?, l, s, c)
    modifies l, log`word, node`list, node`prev, node`next, Elements(s)`prev, Elements(s)`next
    ensures IsPlace(place, s, c, node, i) && IsListOf(place.BeforeCursor?, l, With(s, i, node), c')
    ensures c' == if place.BeforeCursor? then CursorAfter(s, c) else c
  {
    hide IsRing, IsList, IsSpot, InsertCut, FrontCut, RingInsertCut, With, Linked;
    LengthIs(place.BeforeCursor?, l, s, c);
    var pw;
    c' := c;
    match place {
      case BeforeCursor =>
        i, c' := c, CursorAfter(s, c);
        SidesAreIn(s, c, true);
        pw := StartOpLog(log, InsertBeforeCursor, l.len, Mains);
        pw := OptimizedInsertBeforeCursor(l, node, pw, s, c);
      case InOrder(op) =>
        i := SpotExists(s, node);
        SidesAreIn(s, i, false);
        pw := StartOpLog(log, op, l.len, Mains);
        pw := OptimizedInsertSorted(l, node, pw, s, i);
      case InFront =>
        i := 0;
        pw := StartOpLog(log, InsertFront, l.len, Mains);
        pw := OptimizedInsertFront(l, node, pw, s);
    }
  }

  lemma PlaceIsIn(place: Place, s: seq<Node>, c: int, node: Node, i: int)
    requires IsPlace(place, s, c, node, i)
    ensures 0 <= i <= |s| && |With(s, i, node)| == |s| + 1
    ensures forall n :: n in With(s, i, node) <==> n == node || n in s
  {
    forall n | n in s
      ensures n in With(s, i, node)
    {
      var j :| 0 <= j < |s| && s[j] == n;
      assert With(s, i, node)[if j < i then j else j + 1] == n;
    }
    assert With(s, i, node)[i] == node;
  }

  lemma PlaceMeans(place: Place, s: seq<Node>, c: int, node: Node, i: int)
    requires IsPlace(place, s, c, node, i)
    ensures place.InOrder? ==> IsSpot(s, node, i)
    ensures place.InFront? ==> i == 0
    ensures place.BeforeCursor? ==> i == c
  {
  }

  lemma LengthIs(isRing: bool, l: PList, s: seq<Node>, c: int)
    requires IsListOf(isRing, l, s, c)
    ensures l.len == |s| && (isRing ==> IsPos(s, c)) && (s != [] ==> First(s) == s[0])
  {
  }

  // ---------- all lists ----------

  class ListTable {
    var lists: map<ListId, PList>
    const log: OpLog
    ghost var held: map<ListId, seq<Node>>  // what each list holds
    ghost var cur: map<ListId, int>         // cursor positions of the rings
    ghost var nodes: set<Node>              // all nodes, listed or free

    ghost predicate Holds(id: ListId)
      requires id in lists && id in held && id in cur
      reads this`lists, this`held, this`cur, lists.Values, held[id]`prev, held[id]`next, held[id]`list
    {
      IsListOf(id.ReadyRing?, lists[id], held[id], cur[id])
    }

    /** The tables agree, and no two ids name one list. */
    ghost predicate Named()
      reads this`lists, this`held, this`cur
    {
      && lists.Keys == held.Keys == cur.Keys
      && (forall a, b :: a in lists && b in lists && a != b ==> lists[a] != lists[b])
    }

    ghost predicate Known()
      reads this`held, this`nodes
    {
      forall id :: id in held ==> |held[id]| < MAX_LEN && forall n :: n in held[id] ==> n in nodes
    }

    ghost predicate AllHold()
      requires Named() && Known()
      reads this`lists, this`held, this`cur, this`nodes, lists.Values, nodes`prev, nodes`next, nodes`list
    {
      forall id :: id in held ==> Holds(id)
    }

    /** A node in no list has no container. */
    ghost predicate FreeOnesFree()
      reads this`held, this`nodes, nodes`list
    {
      forall n :: n in nodes && n.list != null ==> exists id :: id in held && n in held[id]
    }

    ghost predicate Valid()
      reads this`lists, this`held, this`cur, this`nodes, lists.Values, nodes`prev, nodes`next, nodes`list
    {
      Named() && Known() && AllHold() && FreeOnesFree()
    }

    constructor ()
      ensures Valid() && fresh(this) && fresh(log) && lists == map[] && held == map[] && nodes == {}
    {
      lists, held, cur, nodes := map[], map[], map[], {};
      log := new OpLog();
    }

    lemma SameIds()
      requires Valid()
      ensures lists.Keys == held.Keys == cur.Keys && forall id, n :: id in held && n in held[id] ==> n in nodes
    {
    }

    lemma ListedOrFree(n: Node)
      requires Valid() && n in nodes
      ensures n.list == null || exists id :: id in held && n in held[id]
    {
    }

    lemma OwnerOf(id: ListId, n: Node)
      requires Valid() && id in held && n in held[id]
      ensures n in nodes && n.list == lists[id]
    {
      assert Holds(id);
    }

    /** No node is in two lists. */
    lemma InOneList(id: ListId)
      requires Valid() && id in held
      ensures forall other, n :: other in held && other != id && n in held[other] ==> n !in held[id]
    {
      forall other, n | other in held && other != id && n in held[other]
        ensures n !in held[id]
      {
        OwnerOf(other, n);
        if n in held[id] {
          OwnerOf(id, n);
        }
      }
    }

    ghost predicate OthersHold(ls: map<ListId, PList>, h: map<ListId, seq<Node>>, c: map<ListId, int>, id: ListId)
      requires h.Keys == c.Keys <= ls.Keys && forall other, n :: other in h && n in h[other] ==> n in nodes
      reads this`nodes, ls.Values, nodes`prev, nodes`next, nodes`list
    {
      forall other :: other in h && other != id ==> IsListOf(other.ReadyRing?, ls[other], h[other], c[other])
    }

    /** One list has been changed and holds `s` now; the table still says what it held before. */
    ghost predicate Changed(id: ListId, s: seq<Node>, c: int)
      reads this`lists, this`held, this`cur, this`nodes, lists.Values, nodes`prev, nodes`next, nodes`list, s`prev, s`next, s`list
    {
      && Named() && Known() && id in held && |s| < MAX_LEN && (forall n :: n in s ==> n in nodes)
      && OthersHold(lists, held, cur, id)
      && IsListOf(id.ReadyRing?, lists[id], s, c)
      && (forall n :: n in nodes && n.list != null ==> n in s || ListedIn(held, n, id))
    }

    ghost predicate ListedIn(h: map<ListId, seq<Node>>, n: Node, except: ListId) {
      exists id :: id in h && id != except && n in h[id]
    }

    lemma NowListed(before: map<ListId, seq<Node>>, id: ListId, s: seq<Node>)
      requires held == before[id := s]
      requires forall n :: n in nodes && n.list != null ==> n in s || ListedIn(before, n, id)
      ensures FreeOnesFree()
    {
      forall n | n in nodes && n.list != null
        ensures exists now :: now in held && n in held[now]
      {
        if n in s {
          assert id in held && n in held[id];
        } else {
          var now :| now in before && now != id && n in before[now];
          assert now in held && n in held[now];
        }
      }
    }

    lemma NowHold(h: map<ListId, seq<Node>>, k: map<ListId, int>, id: ListId, s: seq<Node>, c: int)
      requires Named() && Known() && h.Keys == k.Keys && held == h[id := s] && cur == k[id := c]
      requires forall other, n :: other in h && n in h[other] ==> n in nodes
      requires OthersHold(lists, h, k, id) && IsListOf(id.ReadyRing?, lists[id], s, c)
      ensures AllHold()
    {
      hide IsListOf;
    }

    ghost method Settle(id: ListId, s: seq<Node>, c: int)
      requires Changed(id, s, c)
      modifies this`held, this`cur
      ensures Valid() && held == old(held)[id := s] && cur == old(cur)[id := c]
    {
      hide IsListOf, ListedIn, FreeOnesFree, AllHold, OthersHold;
      ghost var h, k := held, cur;
      held, cur := held[id := s], cur[id := c];
      NowListed(h, id, s);
      NowHold(h, k, id, s, c);
    }

    /** Whoever is listed is so in `id` or elsewhere. */
    lemma ListedSomewhere(id: ListId)
      requires Valid() && id in held
      ensures forall n :: n in nodes && n.list != null ==> n in held[id] || ListedIn(held, n, id)
    {
    }

    method DetachFrom(isRing: bool, l: PList, node: Node, pop: bool, ghost id: ListId, ghost k: int)
      returns (ghost c': int)
      requires Valid() && id in held && l == lists[id] && isRing == id.ReadyRing?
      requires 0 <= k < |held[id]| && held[id][k] == node && (pop ==> k == 0 && !isRing)
      modifies lists[id], log`word, nodes`prev, nodes`next, nodes`list
      ensures Changed(id, Without(held[id], k), c') && node.list == null
      ensures c' == if isRing then CursorPosWithout(held[id], cur[id], k) else cur[id]
    {
      hide IsListOf, Without, ListedIn;
      ghost var s := held[id];
      assert Holds(id);
      InOneList(id);
      ListedSomewhere(id);
      StaysIn(s, k);
      LinksStayInside(isRing, l, s, cur[id], k);
      c' := Detach(isRing, pop, l, node, log, s, cur[id], k);
      forall other | other in held && other != id
        ensures IsListOf(other.ReadyRing?, lists[other], held[other], cur[other])
      {
        assert old(Holds(other));
      }
    }

    /** Take `node` out of the list `l` that it is in. */
    method Remove(isRing: bool, l: PList, node: Node, ghost id: ListId) returns (ghost k: int)
      requires Valid() && id in held && l == lists[id] && isRing == id.ReadyRing? && node in held[id]
      modifies this`held, this`cur, lists[id], log`word, nodes`prev, nodes`next, nodes`list
      ensures Valid() && 0 <= k < |old(held)[id]| && old(held)[id][k] == node
      ensures held == old(held)[id := Without(old(held)[id], k)] && node.list == null && id in old(cur)
      ensures cur == old(cur)[id := if isRing then CursorPosWithout(old(held)[id], old(cur)[id], k) else old(cur)[id]]
    {
      k :| 0 <= k < |held[id]| && held[id][k] == node;
      ghost var c' := DetachFrom(isRing, l, node, false, id, k);
      Settle(id, Without(held[id], k), c');
    }

    /** The first node of a chain. */
    method Front(id: ListId) returns (node: Node?)
      requires Valid() && id in held && !id.ReadyRing?
      ensures node == First(held[id])
    {
      assert Holds(id);
      node := lists[id].head;
    }

    /** Take the first node of a chain that is not empty. */
    method PopFront(id: ListId, node: Node)
      requires Valid() && id in held && !id.ReadyRing? && node == First(held[id])
      modifies this`held, this`cur, lists[id], log`word, nodes`prev, nodes`next, nodes`list
      ensures Valid() && old(held)[id] != [] && held == old(held)[id := old(held)[id][1..]] && node.list == null
      ensures cur == old(cur)
    {
      hide Valid, Changed, Without;
      SameIds();
      WithoutFirst(id);
      ghost var c' := DetachFrom(false, lists[id], node, true, id, 0);
      Settle(id, Without(held[id], 0), c');
    }

    lemma WithoutFirst(id: ListId)
      requires Valid() && id in held && !id.ReadyRing?
      ensures held[id] != [] ==> Without(held[id], 0) == held[id][1..]
    {
    }

    lemma FreeIsUnlisted(node: Node)
      requires Valid() && node.list == null
      ensures forall id :: id in held ==> node !in held[id]
    {
      forall id | id in held
        ensures node !in held[id]
      {
        if node in held[id] {
          OwnerOf(id, node);
        }
      }
    }

    method AttachTo(id: ListId, node: Node, place: Place) returns (ghost i: int, ghost c': int)
      requires Valid() && id in held && node in nodes && node.list == null && |held[id]| + 1 < MAX_LEN
      requires place.BeforeCursor? <==> id.ReadyRing?
      modifies lists[id], log`word, nodes`prev, nodes`next, nodes`list
      ensures IsPlace(place, held[id], cur[id], node, i)
      ensures Changed(id, With(held[id], i, node), c')
      ensures c' == if place.BeforeCursor? then CursorAfter(held[id], cur[id]) else cur[id]
    {
      hide IsListOf, With, ListedIn, IsPlace;
      ghost var s := held[id];
      assert Holds(id);
      InOneList(id);
      FreeIsUnlisted(node);
      ListedSomewhere(id);
      i, c' := Attach(place, lists[id], node, log, s, cur[id]);
      PlaceIsIn(place, s, cur[id], node, i);
      forall other | other in held && other != id
        ensures IsListOf(other.ReadyRing?, lists[other], held[other], cur[other])
      {
        assert old(Holds(other));
      }
      assert IsListOf(id.ReadyRing?, lists[id], With(s, i, node), c');
      assert OthersHold(lists, held, cur, id);
      assert forall n :: n in nodes && n.list != null ==> n in With(s, i, node) || ListedIn(held, n, id);
    }

    /** Put a free node into a list. */
    method Insert(id: ListId, node: Node, place: Place) returns (ghost i: int)
      requires Valid() && id in held && node in nodes && node.list == null && |held[id]| + 1 < MAX_LEN
      requires place.BeforeCursor? <==> id.ReadyRing?
      modifies this`held, this`cur, lists[id], log`word, nodes`prev, nodes`next, nodes`list
      ensures Valid() && 0 <= i <= |old(held)[id]|
      ensures place.InOrder? ==> IsSpot(old(held)[id], node, i)
      ensures place.InFront? ==> i == 0
      ensures id in old(cur) && (place.BeforeCursor? ==> i == old(cur)[id])
      ensures held == old(held)[id := With(old(held)[id], i, node)]
      ensures cur == old(cur)[id := if place.BeforeCursor? then CursorAfter(old(held)[id], old(cur)[id]) else old(cur)[id]]
    {
      hide Valid, Changed, IsPlace, With, IsSpot;
      SameIds();
      ghost var c';
      i, c' := AttachTo(id, node, place);
      PlaceIsIn(place, held[id], cur[id], node, i);
      PlaceMeans(place, held[id], cur[id], node, i);
      Settle(id, With(held[id], i, node), c');
    }

    /** A list more. */
    method AddList(id: ListId)
      requires Valid() && id !in lists
      modifies this`lists, this`held, this`cur
      ensures Valid() && lists.Keys == old(lists).Keys + {id} && held == old(held)[id := []]
      ensures fresh(lists.Values - old(lists.Values))
    {
      hide IsListOf, ListedIn, AllHold, OthersHold, FreeOnesFree, Holds, Named, Known;
      ghost var h, k := held, cur;
      SameIds();
      ListsBefore(id);
      var l := new PList();
      EmptyList(id.ReadyRing?, l);
      RecordList(id, l);
      OneListMore(old(lists), h, k, id);
      NowListed(h, id, []);
      NowHold(h, k, id, [], 0);
    }

    method RecordList(id: ListId, l: PList)
      requires Named() && Known() && id !in lists && l !in lists.Values
      modifies this`lists, this`held, this`cur
      ensures Named() && Known()
      ensures lists == old(lists)[id := l] && held == old(held)[id := []] && cur == old(cur)[id := 0]
    {
      lists := lists[id := l];
      held, cur := held[id := []], cur[id := 0];
    }

    lemma OneListMore(ls: map<ListId, PList>, h: map<ListId, seq<Node>>, k: map<ListId, int>, id: ListId)
      requires h.Keys == k.Keys == ls.Keys <= lists.Keys && forall other, n :: other in h && n in h[other] ==> n in nodes
      requires OthersHold(ls, h, k, id) && forall other :: other in ls ==> lists[other] == ls[other]
      ensures OthersHold(lists, h, k, id)
    {
    }

    lemma ListsBefore(id: ListId)
      requires Valid() && id !in held
      ensures OthersHold(lists, held, cur, id)
      ensures forall n :: n in nodes && n.list != null ==> ListedIn(held, n, id)
    {
      hide IsListOf;
      forall other | other in held
        ensures IsListOf(other.ReadyRing?, lists[other], held[other], cur[other])
      {
        assert Holds(other);
      }
    }

    /** A node more, in no list. */
    method AddNode(key: int) returns (node: Node)
      requires Valid()
      modifies this`nodes
      ensures Valid() && fresh(node) && node.list == null && node.key == key && nodes == old(nodes) + {node}
    {
      hide IsListOf;
      node := new Node(key);
      nodes := nodes + {node};
      forall id | id in held
        ensures Holds(id)
      {
        assert old(Holds(id));
      }
    }
  }

  lemma EmptyList(isRing: bool, l: PList)
    requires l.len == 0 && l.head == null && l.cursor == null
    ensures IsListOf(isRing, l, [], 0)
  {
  }
}
