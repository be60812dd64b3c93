/** The nodes of a list and the tasks that they stand for. */
module TaskNodes {
  import opened PLists
  import opened ListInsertSorted
  import T = TaskLists

  type Task = T.Task

  /** `s` is the list of the tasks `ts`, each through its own node. */
  ghost predicate Rep(m: map<Task, Node>, ts: seq<Task>, s: seq<Node>) {
    |ts| == |s| && forall i :: 0 <= i < |ts| ==> ts[i] in m && s[i] == m[ts[i]]
  }

  ghost predicate Injective(m: map<Task, Node>) {
    forall t, u :: t in m && u in m && t != u ==> m[t] != m[u]
  }

  lemma RepHas(m: map<Task, Node>, ts: seq<Task>, s: seq<Node>, t: Task)
    requires Rep(m, ts, s) && Injective(m) && t in m
    ensures m[t] in s <==> t in ts
  {
    if t in ts {
      var i :| 0 <= i < |ts| && ts[i] == t;
      assert s[i] == m[t];
    }
  }

  lemma {:induction false} RepDropped(m: map<Task, Node>, ts: seq<Task>, s: seq<Node>, t: Task, k: nat)
    requires Rep(m, ts, s) && Injective(m) && T.Distinct(ts) && k < |s| && t in m && s[k] == m[t]
    ensures ts[k] == t && Rep(m, T.Dropped(ts, t), Without(s, k))
  {
    hide Rep, Without, T.Dropped;
    RepRest(m, ts, s);
    if k == 0 {
      assert ts[0] == t;
      T.FirstDropped(ts);
      WithoutFirst(s);
    } else {
      RepDropped(m, ts[1..], s[1..], t, k - 1);
      assert t in ts[1..] && ts[0] != t;
      DroppedLater(ts, t);
      WithoutLater(s, k);
      RepFirst(m, ts[0], T.Dropped(ts[1..], t), Without(s[1..], k - 1));
    }
  }

  lemma WithoutFirst(s: seq<Node>)
    requires s != []
    ensures Without(s, 0) == s[1..]
  {
  }

  lemma WithoutLater(s: seq<Node>, k: nat)
    requires 0 < k < |s|
    ensures Without(s, k) == [s[0]] + Without(s[1..], k - 1)
  {
  }

  lemma DroppedLater(ts: seq<Task>, t: Task)
    requires ts != [] && ts[0] != t
    ensures T.Dropped(ts, t) == [ts[0]] + T.Dropped(ts[1..], t)
  {
  }

  lemma SpotInRest(s: seq<Node>, node: Node, i: nat)
    requires IsSpot(s, node, i)
    ensures i == 0 && s != [] ==> node.key <= s[0].key
    ensures i > 0 ==> s != [] && s[0].key < node.key && IsSpot(s[1..], node, i - 1)
  {
    if i > 0 {
      forall j {:trigger s[1..][j]} | 0 <= j < i - 1
        ensures s[1..][j].key < node.key
      {
        assert s[1..][j] == s[j + 1];
      }
    }
  }

  lemma RepFirst(m: map<Task, Node>, first: Task, ts: seq<Task>, s: seq<Node>)
    requires Rep(m, ts, s) && first in m
    ensures Rep(m, [first] + ts, [m[first]] + s)
  {
  }

  lemma RepRest(m: map<Task, Node>, ts: seq<Task>, s: seq<Node>)
    requires Rep(m, ts, s) && s != []
    ensures |ts| == |s| && Rep(m, ts[1..], s[1..]) && ts[0] in m && s[0] == m[ts[0]]
  {
  }

  /** The place found by the keys in the nodes is the place found by the keys of the tasks. */
  lemma {:induction false} RepInserted(m: map<Task, Node>, ts: seq<Task>, s: seq<Node>, t: Task, key: map<Task, int>, i: nat)
    requires Rep(m, ts, s) && t in m && t in key && forall x :: x in ts ==> x in key
    requires (forall x :: x in ts ==> x in m && m[x].key == key[x]) && m[t].key == key[t]
    requires IsSpot(s, m[t], i)
    ensures Rep(m, T.Inserted(ts, t, key), With(s, i, m[t]))
  {
    hide IsSpot, Rep;
    SpotInRest(s, m[t], i);
    LengthOfRep(m, ts, s);
    if s != [] {
      RepRest(m, ts, s);
    }
    if i == 0 {
      assert With(s, 0, m[t]) == [m[t]] + s;
      RepFirst(m, t, ts, s);
    } else {
      RepInserted(m, ts[1..], s[1..], t, key, i - 1);
      assert With(s, i, m[t]) == [s[0]] + With(s[1..], i - 1, m[t]);
      RepFirst(m, ts[0], T.Inserted(ts[1..], t, key), With(s[1..], i - 1, m[t]));
    }
  }

  lemma LengthOfRep(m: map<Task, Node>, ts: seq<Task>, s: seq<Node>)
    requires Rep(m, ts, s)
    ensures |ts| == |s|
  {
  }

  lemma RepPut(m: map<Task, Node>, ts: seq<Task>, s: seq<Node>, t: Task, i: nat)
    requires Rep(m, ts, s) && t in m && i <= |s|
    ensures Rep(m, T.Put(ts, i, t), With(s, i, m[t]))
  {
  }

  /** As many tasks as there are can be in a list. */
  lemma {:induction false} AtMost(ts: seq<Task>, n: nat)
    requires T.Distinct(ts) && forall x :: x in ts ==> x < n
    ensures |ts| <= n
    decreases n
  {
    if ts != [] {
      assert ts[0] in ts;
      var less := T.Dropped(ts, n - 1);
      T.DroppedIsDistinct(ts, n - 1);
      forall x | x in less
        ensures x < n - 1
      {
        T.DroppedHas(ts, n - 1, x);
      }
      AtMost(less, n - 1);
      OneLess(ts, n - 1);
    }
  }

  lemma {:induction false} OneLess(ts: seq<Task>, t: Task)
    requires T.Distinct(ts)
    ensures |ts| <= |T.Dropped(ts, t)| + 1
  {
    if ts != [] {
      if ts[0] == t {
        T.FirstDropped(ts);
      } else {
        OneLess(ts[1..], t);
      }
    }
  }

  /** A task more does not change the lists of the others. */
  lemma RepMore(m: map<Task, Node>, ts: seq<Task>, s: seq<Node>, t: Task, node: Node)
    requires Rep(m, ts, s) && t !in m
    ensures Rep(m[t := node], ts, s)
  {
  }
}
