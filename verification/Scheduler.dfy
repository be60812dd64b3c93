/** The scheduler without power failures, on the lists of the kernel: which lists a task is in, and the tick that
    wakes the sleepers. */
module Scheduler {
  import opened PLists
  import opened ListLog
  import opened ListInsertSorted
  import opened KernelLists
  import opened TaskNodes
  import T = TaskLists
  import opened TaskLists
  import opened KernelSteps

  // ---------- the lists and the tasks in them ----------

  /** Every task has two nodes of its own. */
  ghost predicate NodesOk(count: nat, prio: map<Task, nat>, sched: map<Task, Node>, event: map<Task, Node>,
                          owner: map<Node, Task>, nodes: set<Node>) {
    && sched.Keys == event.Keys == prio.Keys && (forall t: Task :: t in prio <==> t < count)
    && Injective(sched) && Injective(event)
    && (forall t, u :: t in prio && u in prio ==> sched[t] != event[u])
    && (forall t :: t in prio ==> sched[t] in nodes && event[t] in nodes)
    && (forall t :: t in prio ==> sched[t] in owner && owner[sched[t]] == t && event[t] in owner && owner[event[t]] == t)
  }

  /** There is a ring for each level, the delay list and the wait lists, and each holds the nodes of the tasks that
      are said to be in it. */
  ghost predicate HeldOk(held: map<ListId, seq<Node>>, sched: map<Task, Node>, event: map<Task, Node>,
                         ready: seq<seq<Task>>, delayed: seq<Task>, waits: map<WaitId, seq<Task>>) {
    && |ready| == LEVELS
    && (forall id :: id in held <==>
          match id { case ReadyRing(p) => p < LEVELS case DelayList => true case WaitList(w) => w in waits })
    && (forall p :: 0 <= p < LEVELS ==> Rep(sched, ready[p], held[ReadyRing(p)]))
    && Rep(sched, delayed, held[DelayList])
    && (forall w :: w in waits ==> Rep(event, waits[w], held[WaitList(w)]))
  }

  /** The nodes carry the keys: the wake-up times and what the wait lists are sorted by. */
  ghost predicate KeysOk(sched: map<Task, Node>, event: map<Task, Node>, wakeup: map<Task, int>, order: map<Task, int>)
    reads sched.Values`key, event.Values`key
  {
    && wakeup.Keys == sched.Keys && order.Keys == event.Keys
    && (forall t :: t in sched ==> sched[t].key == wakeup[t]) && (forall t :: t in event ==> event[t].key == order[t])
  }

  lemma NotAmong(m: map<Task, Node>, ts: seq<Task>, s: seq<Node>, n: Node)
    requires Rep(m, ts, s) && forall t :: t in m ==> m[t] != n
    ensures n !in s
  {
  }

  lemma FirstOfRep(m: map<Task, Node>, ts: seq<Task>, s: seq<Node>)
    requires Rep(m, ts, s) && ts != []
    ensures s != [] && ts[0] in m && s[0] == m[ts[0]] && First(s) == s[0]
  {
  }

  lemma PoppedIsWithout(s: seq<Node>)
    requires s != []
    ensures s[1..] == Without(s, 0)
  {
  }

  lemma HeldAfterRing(held: map<ListId, seq<Node>>, sched: map<Task, Node>, event: map<Task, Node>,
                      ready: seq<seq<Task>>, delayed: seq<Task>, waits: map<WaitId, seq<Task>>,
                      p: nat, ts: seq<Task>, s: seq<Node>)
    requires HeldOk(held, sched, event, ready, delayed, waits) && p < LEVELS && Rep(sched, ts, s)
    ensures HeldOk(held[ReadyRing(p) := s], sched, event, ready[p := ts], delayed, waits)
  {
    hide Rep;
  }

  lemma HeldAfterDelay(held: map<ListId, seq<Node>>, sched: map<Task, Node>, event: map<Task, Node>,
                       ready: seq<seq<Task>>, delayed: seq<Task>, waits: map<WaitId, seq<Task>>,
                       ts: seq<Task>, s: seq<Node>)
    requires HeldOk(held, sched, event, ready, delayed, waits) && Rep(sched, ts, s)
    ensures HeldOk(held[DelayList := s], sched, event, ready, ts, waits)
  {
    hide Rep;
  }

  lemma HeldAfterWait(held: map<ListId, seq<Node>>, sched: map<Task, Node>, event: map<Task, Node>,
                      ready: seq<seq<Task>>, delayed: seq<Task>, waits: map<WaitId, seq<Task>>,
                      w: WaitId, ts: seq<Task>, s: seq<Node>)
    requires HeldOk(held, sched, event, ready, delayed, waits) && Rep(event, ts, s)
    ensures HeldOk(held[WaitList(w) := s], sched, event, ready, delayed, waits[w := ts])
  {
    hide Rep;
  }

  /** The task at the cursor of a ring is next to run. Another one that enters does not change that; the first one to
      enter is next itself. */
  lemma TurnAfterEntering(ts: seq<Task>, c: nat, t: Task)
    requires if ts == [] then c == 0 else c < |ts|
    ensures Put(ts, c, t)[if ts == [] then 0 else c + 1] == if ts == [] then t else ts[c]
  {
  }

  /** Another one that leaves does not change it either; when the task at the cursor leaves, its successor is next. */
  lemma TurnAfterLeaving(ts: seq<Task>, c: nat, k: nat)
    requires T.Distinct(ts) && c < |ts| && k < |ts| && |ts| > 1
    ensures var rest, c' := Dropped(ts, ts[k]), CursorPosWithout(ts, c, k);
            0 <= c' < |rest| && rest[c'] == if c == k then ts[if k + 1 < |ts| then k + 1 else 0] else ts[c]
  {
    hide T.Distinct, Dropped;
    DroppedAt(ts, k);
  }

  lemma {:induction false} DroppedAt(ts: seq<Task>, k: nat)
    requires T.Distinct(ts) && k < |ts|
    ensures Dropped(ts, ts[k]) == ts[..k] + ts[k + 1..]
  {
    hide Dropped;
    if k == 0 {
      FirstDropped(ts);
    } else {
      assert ts[k] == ts[1..][k - 1] && ts[k] in ts[1..];
      DroppedAt(ts[1..], k - 1);
      DroppedLater(ts, ts[k]);
      assert [ts[0]] + (ts[1..][..k - 1] + ts[1..][k..]) == ts[..k] + ts[k + 1..];
    }
  }

  ghost predicate RanksOk(order: map<Task, int>, prio: map<Task, nat>) {
    order.Keys == prio.Keys && forall t :: t in prio ==> order[t] == Rank(prio[t])
  }

  lemma RanksAfterCreate(order: map<Task, int>, prio: map<Task, nat>, t: Task, level: nat)
    requires RanksOk(order, prio)
    ensures order.Keys == prio.Keys && RanksOk(order[t := Rank(level)], prio[t := level])
  {
    hide Rank;
  }

  lemma {:induction false} InsertedAt(s: seq<Task>, t: Task, key: map<Task, int>) returns (i: nat)
    requires t in key && forall x :: x in s ==> x in key
    ensures i <= |s| && Inserted(s, t, key) == Put(s, i, t)
    ensures (forall j :: 0 <= j < i ==> key[s[j]] < key[t]) && (i < |s| ==> key[t] <= key[s[i]])
  {
    if s == [] || key[t] <= key[s[0]] {
      i := 0;
    } else {
      var k := InsertedAt(s[1..], t, key);
      i := k + 1;
      assert Put(s, i, t) == [s[0]] + Put(s[1..], k, t);
      assert forall j :: 1 <= j < i ==> s[j] == s[1..][j - 1];
    }
  }

  /** A wait list with a task more, as a step of the kernel sees it. */
  lemma JoinedAt(s: Sys, t: Sys, x: Task, w: WaitId, order: map<Task, int>)
    requires w in s.waits && x in order && (forall y :: y in s.waits[w] ==> y in order) && RanksOk(order, s.prio)
    requires t.waits == s.waits[w := if w in s.sorted then Inserted(s.waits[w], x, order) else Put(s.waits[w], 0, x)]
    ensures Joins(s, t, x, w)
  {
    hide Inserted, Put;
    if w in s.sorted {
      var i := InsertedAt(s.waits[w], x, order);
      assert IsPlaceOf(s, x, w, i);
    } else {
      assert IsPlaceOf(s, x, w, 0);
    }
  }

  /** The order of the keys is that of the levels. */
  lemma LevelOrder(s: Sys, w: WaitId, order: map<Task, int>)
    requires w in s.waits && RanksOk(order, s.prio) && (forall x :: x in s.waits[w] ==> x in order)
    requires Ascending(s.waits[w], order)
    ensures s.InLevelOrder(w)
  {
    hide Ascending;
    forall i, j | 0 <= i < j < |s.waits[w]|
      ensures !s.IsBefore(s.waits[w][j], s.waits[w][i])
    {
      AscendingAt(s.waits[w], order, i, j);
    }
  }

  lemma {:induction false} AscendingAt(s: seq<Task>, key: map<Task, int>, i: nat, j: nat)
    requires (forall x :: x in s ==> x in key) && Ascending(s, key) && i < j < |s|
    ensures key[s[i]] <= key[s[j]]
  {
    if i == 0 {
      assert s[j] == s[1..][j - 1];
    } else {
      AscendingAt(s[1..], key, i - 1, j - 1);
    }
  }

  /** A task that is taken out of its wait list is out of all of them. */
  lemma UnwaitedIs(status: map<Task, State>, waits: map<WaitId, seq<Task>>, waitOf: map<Task, WaitId>, t: Task)
    requires WaitOk(status, waits, waitOf)
    ensures Unwaited(waits, waitOf, t).Keys == waits.Keys
    ensures forall w :: w in waits ==> Unwaited(waits, waitOf, t)[w] == Dropped(waits[w], t)
  {
    hide Dropped, T.Distinct;
    forall w | w in waits
      ensures Unwaited(waits, waitOf, t)[w] == Dropped(waits[w], t)
    {
      if t !in waits[w] {
        DropAbsent(waits[w], t);
      }
    }
  }

  ghost predicate TimesOk(delayed: seq<Task>, wakeup: map<Task, int>, from: int, to: int) {
    forall t :: t in delayed ==> t in wakeup && from <= wakeup[t] <= to
  }

  lemma EmptyHeld(held: map<ListId, seq<Node>>)
    requires EmptyUpTo(held, LEVELS)
    ensures HeldOk(held, map[], map[], seq(LEVELS, _ => []), [], map[])
  {
  }

  /** The delay list and the first `levels` ready rings, all empty. */
  ghost predicate EmptyUpTo(held: map<ListId, seq<Node>>, levels: nat) {
    && (forall id :: id in held ==> held[id] == [])
    && (forall id :: id in held <==> id == DelayList || (id.ReadyRing? && id.level < levels))
  }

  lemma NoRings()
    ensures EmptyUpTo(map[][DelayList := []], 0)
  {
  }

  lemma OneRingMore(held: map<ListId, seq<Node>>, levels: nat)
    requires EmptyUpTo(held, levels)
    ensures ReadyRing(levels) !in held && EmptyUpTo(held[ReadyRing(levels) := []], levels + 1)
  {
  }

  /** The lists of a kernel that has no tasks yet. */
  method EmptyLists() returns (kl: ListTable)
    ensures fresh(kl) && fresh(kl.log) && fresh(kl.lists.Values) && kl.nodes == {}
    ensures kl.Valid() && HeldOk(kl.held, map[], map[], seq(LEVELS, _ => []), [], map[])
  {
    hide ListTable.Valid, HeldOk, EmptyUpTo;
    kl := new ListTable();
    kl.AddList(DelayList);
    NoRings();
    for p := 0 to LEVELS
      invariant fresh(kl) && fresh(kl.log) && fresh(kl.lists.Values) && kl.nodes == {} && kl.Valid()
      invariant EmptyUpTo(kl.held, p)
    {
      kl.SameIds();
      OneRingMore(kl.held, p);
      kl.AddList(ReadyRing(p));
    }
    EmptyHeld(kl.held);
  }

  /** Nobody in `s` is less important than its first task, and that one is the most important exactly if all have the
      same level. */
  ghost predicate LeastFirst(s: seq<Task>, prio: map<Task, nat>)
    requires forall x :: x in s ==> x in prio
  {
    s != [] ==>
      && (forall x :: x in s ==> prio[x] <= prio[s[0]])
      && ((forall x :: x in s ==> prio[s[0]] <= prio[x]) <==> (forall x, y :: x in s && y in s ==> prio[x] == prio[y]))
  }

  /** A task more, with two new nodes. */
  lemma NodesAfterTask(count: nat, prio: map<Task, nat>, sched: map<Task, Node>, event: map<Task, Node>,
                       owner: map<Node, Task>, nodes: set<Node>, n: Node, e: Node, level: nat)
    requires NodesOk(count, prio, sched, event, owner, nodes) && n !in nodes && e !in nodes && n != e
    ensures NodesOk(count + 1, prio[count := level], sched[count := n], event[count := e],
                    owner[n := count][e := count], nodes + {n, e})
  {
  }

  lemma KeysAfterTask(sched: map<Task, Node>, event: map<Task, Node>, wakeup: map<Task, int>, order: map<Task, int>,
                      t: Task, n: Node, e: Node)
    requires KeysOk(sched, event, wakeup, order)
    ensures KeysOk(sched[t := n], event[t := e], wakeup[t := n.key], order[t := e.key])
  {
  }

  lemma NewTaskIsUnlisted(held: map<ListId, seq<Node>>, count: nat, prio: map<Task, nat>, sched: map<Task, Node>,
                          event: map<Task, Node>, owner: map<Node, Task>, nodes: set<Node>,
                          ready: seq<seq<Task>>, delayed: seq<Task>, waits: map<WaitId, seq<Task>>)
    requires NodesOk(count, prio, sched, event, owner, nodes) && HeldOk(held, sched, event, ready, delayed, waits)
    ensures count !in prio && count !in delayed && |ready| == LEVELS && forall p :: 0 <= p < LEVELS ==> count !in ready[p]
    ensures sched.Keys == event.Keys == prio.Keys
  {
    hide Injective;
  }

  /** The lists of the others are what they were. */
  lemma HeldAfterTask(held: map<ListId, seq<Node>>, sched: map<Task, Node>, event: map<Task, Node>,
                      ready: seq<seq<Task>>, delayed: seq<Task>, waits: map<WaitId, seq<Task>>,
                      t: Task, n: Node, e: Node)
    requires HeldOk(held, sched, event, ready, delayed, waits) && t !in sched && t !in event
    ensures HeldOk(held, sched[t := n], event[t := e], ready, delayed, waits)
  {
    hide Rep;
    forall p | 0 <= p < LEVELS
      ensures Rep(sched[t := n], ready[p], held[ReadyRing(p)])
    {
      RepMore(sched, ready[p], held[ReadyRing(p)], t, n);
    }
    RepMore(sched, delayed, held[DelayList], t, n);
    forall w | w in waits
      ensures Rep(event[t := e], waits[w], held[WaitList(w)])
    {
      RepMore(event, waits[w], held[WaitList(w)], t, e);
    }
  }

  /** Why a task is woken: it is first in a wait list, it is taken out of one, or it is the first sleeper and due. */
  datatype Cause = Front(wait: WaitId) | Middle | Due

  class Kernel {
    const kl: ListTable
    const maxDelay: int
    const taskLimit: nat
    var count: nat                     // tasks created
    var prio: map<Task, nat>
    var sched: map<Task, Node>         // in a ready ring or in the delay list
    var event: map<Task, Node>         // in a wait list, or free
    var owner: map<Node, Task>         // the task of a node
    var status: map<Task, State>
    var sorted: set<WaitId>            // the wait lists ordered by priority
    var now: int
    var nextUnblock: int
    ghost var order: map<Task, int>    // the keys of the event nodes
    ghost var wakeup: map<Task, int>   // the keys of the other ones
    ghost var ready: seq<seq<Task>>    // the ready rings, by level
    ghost var delayed: seq<Task>
    ghost var waits: map<WaitId, seq<Task>>
    ghost var waitOf: map<Task, WaitId>

    ghost predicate KeysTied()
      reads this`sched, this`event, this`wakeup, this`order, sched.Values`key, event.Values`key
    {
      KeysOk(sched, event, wakeup, order)
    }

    /** Each list is well formed and holds the nodes of the tasks that are said to be in it. */
    ghost predicate Tied()
      reads this`count, this`prio, this`sched, this`event, this`owner, this`order, this`wakeup
      reads this`ready, this`delayed, this`waits, kl, kl.lists.Values, kl.nodes, sched.Values, event.Values
    {
      && kl.Valid() && KeysTied() && count <= taskLimit && taskLimit + 1 < MAX_LEN
      && NodesOk(count, prio, sched, event, owner, kl.nodes)
      && HeldOk(kl.held, sched, event, ready, delayed, waits)
    }

    constructor (kl: ListTable, maxDelay: int, taskLimit: nat)
      requires taskLimit + 1 < MAX_LEN
      requires kl.Valid() && HeldOk(kl.held, map[], map[], seq(LEVELS, _ => []), [], map[])
      ensures Valid() && this.kl == kl && this.maxDelay == maxDelay && this.taskLimit == taskLimit
      ensures now == 0 && count == 0 && prio == map[] && status == map[] && wakeup == map[] && waits == map[] && sorted == {}
    {
      this.kl := kl;
      this.maxDelay, this.taskLimit := maxDelay, taskLimit;
      count, prio, sched, event, owner, status, sorted := 0, map[], map[], map[], map[], map[], {};
      now, nextUnblock := 0, maxDelay;
      order, wakeup, ready, delayed, waits, waitOf := map[], map[], seq(LEVELS, _ => []), [], map[], map[];
    }

    // ---------- one list at a time ----------

    /** A task in a list knows its node there. */
    lemma InList(m: map<Task, Node>, ts: seq<Task>, s: seq<Node>)
      requires Rep(m, ts, s) && T.Distinct(ts) && m.Keys == prio.Keys && Injective(m)
      requires forall t: Task :: t in prio <==> t < count
      ensures |s| <= count && (forall t :: t in ts ==> t in prio) && forall t :: t in prio ==> (m[t] in s <==> t in ts)
    {
      hide T.Distinct, Injective;
      AtMost(ts, count);
      forall t | t in prio
        ensures m[t] in s <==> t in ts
      {
        RepHas(m, ts, s, t);
      }
    }

    lemma RingFacts(p: nat)
      requires Tied() && p < LEVELS && |ready| == LEVELS && T.Distinct(ready[p])
      ensures ReadyRing(p) in kl.held && ReadyRing(p) in kl.lists && |ready| == LEVELS && sched.Keys == prio.Keys
      ensures Rep(sched, ready[p], kl.held[ReadyRing(p)]) && Injective(sched) && |ready[p]| == |kl.held[ReadyRing(p)]| <= count
      ensures forall t :: t in prio ==> (sched[t] in kl.held[ReadyRing(p)] <==> t in ready[p])
    {
      hide Rep, T.Distinct, ListTable.Valid, Injective;
      kl.SameIds();
      InList(sched, ready[p], kl.held[ReadyRing(p)]);
      LengthOfRep(sched, ready[p], kl.held[ReadyRing(p)]);
    }

    lemma DelayFacts()
      requires Tied() && T.Distinct(delayed)
      ensures DelayList in kl.held && DelayList in kl.lists && sched.Keys == event.Keys == prio.Keys
      ensures Rep(sched, delayed, kl.held[DelayList]) && Injective(sched) && |delayed| == |kl.held[DelayList]| <= count
      ensures forall t :: t in prio ==> (sched[t] in kl.held[DelayList] <==> t in delayed)
      ensures forall t :: t in delayed ==> t in prio
    {
      hide Rep, T.Distinct, ListTable.Valid, Injective;
      kl.SameIds();
      InList(sched, delayed, kl.held[DelayList]);
      LengthOfRep(sched, delayed, kl.held[DelayList]);
    }

    lemma WaitFacts(w: WaitId)
      requires Tied() && w in waits && T.Distinct(waits[w])
      ensures WaitList(w) in kl.held && WaitList(w) in kl.lists && sched.Keys == event.Keys == prio.Keys
      ensures Rep(event, waits[w], kl.held[WaitList(w)]) && Injective(event) && |waits[w]| == |kl.held[WaitList(w)]| <= count
      ensures forall t :: t in prio ==> (event[t] in kl.held[WaitList(w)] <==> t in waits[w])
      ensures forall t :: t in waits[w] ==> t in prio
    {
      hide Rep, T.Distinct, ListTable.Valid, Injective;
      kl.SameIds();
      InList(event, waits[w], kl.held[WaitList(w)]);
      LengthOfRep(event, waits[w], kl.held[WaitList(w)]);
    }

    lemma SchedIsFree(t: Task)
      requires Tied() && |ready| == LEVELS && t in prio && t !in delayed && forall p :: 0 <= p < LEVELS ==> t !in ready[p]
      ensures t in sched && sched[t].list == null && sched[t] in kl.nodes
    {
      hide ListTable.Valid, Rep, Injective;
      kl.ListedOrFree(sched[t]);
      forall id | id in kl.held
        ensures sched[t] !in kl.held[id]
      {
        match id
        case ReadyRing(p) => RepHas(sched, ready[p], kl.held[id], t);
        case DelayList => RepHas(sched, delayed, kl.held[id], t);
        case WaitList(w) => NotAmong(event, waits[w], kl.held[id], sched[t]);
      }
    }

    lemma EventIsFree(t: Task)
      requires Tied() && t in prio && forall w :: w in waits ==> t !in waits[w]
      ensures t in event && event[t].list == null && event[t] in kl.nodes
    {
      hide ListTable.Valid, Rep, Injective;
      kl.ListedOrFree(event[t]);
      forall id | id in kl.held
        ensures event[t] !in kl.held[id]
      {
        match id
        case ReadyRing(p) => NotAmong(sched, ready[p], kl.held[id], event[t]);
        case DelayList => NotAmong(sched, delayed, kl.held[id], event[t]);
        case WaitList(w) => RepHas(event, waits[w], kl.held[id], t);
      }
    }

    /** The task at position `k` of its ring has left it: the cursor stays on its task, or steps on to the next one. */
    ghost predicate LeftRing(t: Task, k: nat, ready0: seq<seq<Task>>, cur: map<ListId, int>)
      reads this`prio, kl`cur
    {
      && t in prio && prio[t] < |ready0| && k < |ready0[prio[t]]| && ready0[prio[t]][k] == t
      && ReadyRing(prio[t]) in cur
      && kl.cur == cur[ReadyRing(prio[t]) := CursorPosWithout(ready0[prio[t]], cur[ReadyRing(prio[t])], k)]
    }

    /** A task has entered its ring at the cursor, which stays on the task that is next to run. */
    ghost predicate EnteredRing(t: Task, i: nat, ready0: seq<seq<Task>>, cur: map<ListId, int>)
      reads this`prio, this`ready, kl`cur
    {
      && t in prio && prio[t] < |ready0| && i <= |ready0[prio[t]]|
      && ReadyRing(prio[t]) in cur && i == cur[ReadyRing(prio[t])]
      && ready == ready0[prio[t] := Put(ready0[prio[t]], i, t)]
      && kl.cur == cur[ReadyRing(prio[t]) := if ready0[prio[t]] == [] then 0 else i + 1]
    }

    /** `remove_from_ready_list`. */
    method LeaveReady(t: Task) returns (ghost k: nat)
      requires Tied() && |ready| == LEVELS && t in prio && prio[t] < LEVELS && t in ready[prio[t]] && T.Distinct(ready[prio[t]])
      modifies this`ready
      modifies kl`held, kl`cur, kl.lists.Values, kl.log`word, kl.nodes`prev, kl.nodes`next, kl.nodes`list
      ensures LeftRing(t, k, old(ready), old(kl.cur))
      ensures Tied() && ready == old(ready)[prio[t] := Dropped(old(ready)[prio[t]], t)]
    {
      hide Rep, Injective, T.Distinct, KeysTied, ListTable.Valid, Without, Dropped, With, Put, Inserted, IsSpot;
      hide NodesOk, HeldOk;
      RingFacts(prio[t]);
      ghost var ts, s := ready[prio[t]], kl.held[ReadyRing(prio[t])];
      k := kl.Remove(true, kl.lists[ReadyRing(prio[t])], sched[t], ReadyRing(prio[t]));
      RepDropped(sched, ts, s, t, k);
      HeldAfterRing(old(kl.held), sched, event, ready, delayed, waits, prio[t], Dropped(ts, t), Without(s, k));
      ready := ready[prio[t] := Dropped(ts, t)];
    }

    /** The list part of `add_to_ready_list`. */
    method EnterReady(t: Task) returns (ghost i: nat)
      requires Tied() && |ready| == LEVELS && t in prio && prio[t] < LEVELS && T.Distinct(ready[prio[t]])
      requires |ready| == LEVELS && t !in delayed && forall p :: 0 <= p < LEVELS ==> t !in ready[p]
      modifies this`ready
      modifies kl`held, kl`cur, kl.lists.Values, kl.log`word, kl.nodes`prev, kl.nodes`next, kl.nodes`list
      ensures Tied() && i <= |old(ready)[prio[t]]| && ready == old(ready)[prio[t] := Put(old(ready)[prio[t]], i, t)]
      ensures EnteredRing(t, i, old(ready), old(kl.cur))
    {
      hide Rep, Injective, T.Distinct, KeysTied, ListTable.Valid, Without, Dropped, With, Put, Inserted, IsSpot;
      hide NodesOk, HeldOk;
      RingFacts(prio[t]);
      ghost var ts, s := ready[prio[t]], kl.held[ReadyRing(prio[t])];
      SchedIsFree(t);
      i := kl.Insert(ReadyRing(prio[t]), sched[t], BeforeCursor);
      RepPut(sched, ts, s, t, i);
      HeldAfterRing(old(kl.held), sched, event, ready, delayed, waits, prio[t], Put(ts, i, t), With(s, i, sched[t]));
      ready := ready[prio[t] := Put(ts, i, t)];
    }

    /** `remove_from_delayed_list`, or the pop of the first sleeper. */
    method LeaveDelay(t: Task, pop: bool)
      requires Tied() && t in prio && t in delayed && T.Distinct(delayed) && (pop ==> delayed[0] == t)
      modifies this`delayed
      modifies kl`held, kl`cur, kl.lists.Values, kl.log`word, kl.nodes`prev, kl.nodes`next, kl.nodes`list
      ensures kl.cur == old(kl.cur)
      ensures Tied() && delayed == Dropped(old(delayed), t)
    {
      hide Rep, Injective, T.Distinct, KeysTied, ListTable.Valid, Without, Dropped, With, Put, Inserted, IsSpot;
      hide NodesOk, HeldOk;
      DelayFacts();
      ghost var s, k := kl.held[DelayList], 0;
      if pop {
        FirstOfRep(sched, delayed, s);
        kl.PopFront(DelayList, sched[t]);
        PoppedIsWithout(s);
      } else {
        k := kl.Remove(false, kl.lists[DelayList], sched[t], DelayList);
      }
      RepDropped(sched, delayed, s, t, k);
      HeldAfterDelay(old(kl.held), sched, event, ready, delayed, waits, Dropped(delayed, t), Without(s, k));
      delayed := Dropped(delayed, t);
    }

    lemma RepDelayed(s: seq<Node>, t: Task, i: nat)
      requires KeysTied() && sched.Keys == event.Keys == prio.Keys && Rep(sched, delayed, s) && t in prio
      requires IsSpot(s, sched[t], i) && forall x :: x in delayed ==> x in prio
      ensures t in wakeup && forall x :: x in delayed ==> x in wakeup
      ensures Rep(sched, Inserted(delayed, t, wakeup), With(s, i, sched[t]))
    {
      hide Rep, Inserted, With, IsSpot;
      KeysOfTasks();
      RepInserted(sched, delayed, s, t, wakeup, i);
    }

    /** The list part of `add_to_delayed_list`. */
    method EnterDelay(t: Task)
      requires Tied() && t in prio && T.Distinct(delayed)
      requires |ready| == LEVELS && t !in delayed && forall p :: 0 <= p < LEVELS ==> t !in ready[p]
      modifies this`delayed
      modifies kl`held, kl`cur, kl.lists.Values, kl.log`word, kl.nodes`prev, kl.nodes`next, kl.nodes`list
      ensures t in wakeup && forall x :: x in old(delayed) ==> x in wakeup
      ensures kl.cur == old(kl.cur)
      ensures Tied() && delayed == Inserted(old(delayed), t, wakeup)
    {
      hide Rep, Injective, T.Distinct, KeysTied, ListTable.Valid, Without, Dropped, With, Put, Inserted, IsSpot;
      hide NodesOk, HeldOk;
      DelayFacts();
      ghost var s := kl.held[DelayList];
      SchedIsFree(t);
      ghost var i := kl.Insert(DelayList, sched[t], InOrder(InsertSortedDelayList));
      RepDelayed(s, t, i);
      HeldAfterDelay(old(kl.held), sched, event, ready, delayed, waits, Inserted(delayed, t, wakeup), With(s, i, sched[t]));
      delayed := Inserted(delayed, t, wakeup);
    }

    lemma KeysOfTasks()
      requires KeysTied() && sched.Keys == event.Keys == prio.Keys
      ensures wakeup.Keys == order.Keys == prio.Keys
      ensures forall t :: t in prio ==> sched[t].key == wakeup[t] && event[t].key == order[t]
    {
    }

    /** Out of the middle of the wait list `l`. */
    method LeaveWait(t: Task, l: PList, ghost w: WaitId)
      requires Tied() && t in prio && w in waits && t in waits[w] && T.Distinct(waits[w])
      requires WaitList(w) in kl.lists && l == kl.lists[WaitList(w)]
      modifies this`waits
      modifies kl`held, kl`cur, kl.lists.Values, kl.log`word, kl.nodes`prev, kl.nodes`next, kl.nodes`list
      ensures kl.cur == old(kl.cur)
      ensures Tied() && waits == old(waits)[w := Dropped(old(waits)[w], t)]
    {
      hide Rep, Injective, T.Distinct, KeysTied, ListTable.Valid, Without, Dropped, With, Put, Inserted, IsSpot;
      hide NodesOk, HeldOk;
      WaitFacts(w);
      ghost var ts, s := waits[w], kl.held[WaitList(w)];
      ghost var k := kl.Remove(false, l, event[t], WaitList(w));
      RepDropped(event, ts, s, t, k);
      HeldAfterWait(old(kl.held), sched, event, ready, delayed, waits, w, Dropped(ts, t), Without(s, k));
      waits := waits[w := Dropped(ts, t)];
    }

    /** The first waiter. */
    method PopWaiter(t: Task, w: WaitId)
      requires Tied() && t in prio && w in waits && waits[w] != [] && t == waits[w][0] && T.Distinct(waits[w])
      modifies this`waits
      modifies kl`held, kl`cur, kl.lists.Values, kl.log`word, kl.nodes`prev, kl.nodes`next, kl.nodes`list
      ensures kl.cur == old(kl.cur)
      ensures Tied() && waits == old(waits)[w := Dropped(old(waits)[w], t)]
    {
      hide Rep, Injective, T.Distinct, KeysTied, ListTable.Valid, Without, Dropped, With, Put, Inserted, IsSpot;
      hide NodesOk, HeldOk;
      WaitFacts(w);
      ghost var ts, s := waits[w], kl.held[WaitList(w)];
      FirstOfRep(event, ts, s);
      kl.PopFront(WaitList(w), event[t]);
      PoppedIsWithout(s);
      RepDropped(event, ts, s, t, 0);
      HeldAfterWait(old(kl.held), sched, event, ready, delayed, waits, w, Dropped(ts, t), Without(s, 0));
      waits := waits[w := Dropped(ts, t)];
    }

    /** A wait list with one task more. */
    ghost function Joined(s: seq<Task>, t: Task, w: WaitId): seq<Task>
      requires t in order && forall x :: x in s ==> x in order
      reads this`order, this`sorted
    {
      if w in sorted then Inserted(s, t, order) else Put(s, 0, t)
    }

    lemma RepJoined(ts: seq<Task>, s: seq<Node>, t: Task, w: WaitId, i: nat)
      requires KeysTied() && sched.Keys == event.Keys == prio.Keys && Rep(event, ts, s) && t in prio && i <= |s|
      requires forall x :: x in ts ==> x in prio
      requires if w in sorted then IsSpot(s, event[t], i) else i == 0
      ensures t in order && forall x :: x in ts ==> x in order
      ensures Rep(event, Joined(ts, t, w), With(s, i, event[t]))
    {
      hide Rep, Put, Inserted, With, IsSpot;
      KeysOfTasks();
      if w in sorted {
        RepInserted(event, ts, s, t, order, i);
      } else {
        LengthOfRep(event, ts, s);
        RepPut(event, ts, s, t, 0);
      }
    }

    /** Into a wait list: by priority, or in front if it is not sorted. */
    method EnterWait(t: Task, w: WaitId)
      requires Tied() && t in prio && w in waits && T.Distinct(waits[w]) && forall v :: v in waits ==> t !in waits[v]
      modifies this`waits
      modifies kl`held, kl`cur, kl.lists.Values, kl.log`word, kl.nodes`prev, kl.nodes`next, kl.nodes`list
      ensures t in order && forall x :: x in old(waits)[w] ==> x in order
      ensures kl.cur == old(kl.cur)
      ensures Tied() && waits == old(waits)[w := Joined(old(waits)[w], t, w)]
    {
      hide Rep, Injective, T.Distinct, KeysTied, ListTable.Valid, Without, Dropped, With, Put, Inserted, IsSpot;
      hide NodesOk, HeldOk, Joined;
      WaitFacts(w);
      ghost var ts, s := waits[w], kl.held[WaitList(w)];
      EventIsFree(t);
      ghost var i := kl.Insert(WaitList(w), event[t], if w in sorted then InOrder(InsertSortedWaitList) else InFront);
      RepJoined(ts, s, t, w, i);
      HeldAfterWait(old(kl.held), sched, event, ready, delayed, waits, w, Joined(ts, t, w), With(s, i, event[t]));
      waits := waits[w := Joined(ts, t, w)];
    }

    /** `set_wakeup_time`. */
    method SetWakeup(t: Task, until: int)
      requires Tied() && t in prio
      modifies this`wakeup, sched.Values`key
      ensures Tied() && wakeup == old(wakeup)[t := until]
    {
      hide ListTable.Valid, HeldOk, NodesOk;
      OwnNode(t);
      KeysOfTasks();
      sched[t].key := until;
      wakeup := wakeup[t := until];
    }

    lemma OwnNode(t: Task)
      requires NodesOk(count, prio, sched, event, owner, kl.nodes) && t in prio
      ensures sched.Keys == event.Keys == prio.Keys && sched[t] in sched.Values
      ensures forall u :: u in prio ==> event[u] != sched[t] && (u != t ==> sched[u] != sched[t])
    {
    }

    // ---------- the tasks ----------

    /** Every task is in the ready ring of its level or in the delay list, and not in both; it is blocked exactly if it
        is delayed; only a delayed task is in a wait list; the delay list is in the order of the wake-up times and the
        sorted wait lists are in the order of the priorities; and nobody is to be woken before `nextUnblock`. */
    ghost predicate Valid()
      reads this, kl, kl.lists.Values, kl.nodes, sched.Values, event.Values
    {
      && Tied() && ReadyOk(prio, status, ready) && DelayOk(status, delayed, wakeup) && WaitOk(status, waits, waitOf)
      && SortedOk(waits, sorted, order) && RanksOk(order, prio)
      && TimesOk(delayed, wakeup, nextUnblock, maxDelay)
    }

    lemma Known(t: Task)
      requires Valid() && t in prio
      ensures status.Keys == prio.Keys == wakeup.Keys == order.Keys && |ready| == LEVELS && prio[t] < LEVELS
      ensures T.Distinct(delayed) && T.Distinct(ready[prio[t]]) && (t in delayed <==> status[t] == Blocked)
      ensures forall p :: 0 <= p < LEVELS ==> (t in ready[p] <==> p == prio[t] && status[t] == Ready)
      ensures forall w :: w in waits ==> T.Distinct(waits[w]) && (t in waits[w] <==> t in waitOf && waitOf[t] == w)
      ensures t in waitOf ==> waitOf[t] in waits && status[t] == Blocked
    {
      hide ListTable.Valid, NodesOk, HeldOk, KeysTied, T.Distinct, Ascending;
    }

    lemma WaitsOf(t: Task)
      requires WaitOk(status, waits, waitOf)
      ensures forall w :: w in waits ==> T.Distinct(waits[w]) && (t in waits[w] <==> t in waitOf && waitOf[t] == w)
      ensures t in waitOf ==> waitOf[t] in waits
    {
    }

    /** The container of the event node is the wait list that the task is in. */
    lemma Container(t: Task)
      requires Tied() && WaitOk(status, waits, waitOf) && t in prio
      ensures t in event && (event[t].list != null <==> t in waitOf)
      ensures t in waitOf ==> waitOf[t] in waits && WaitList(waitOf[t]) in kl.lists
                              && event[t].list == kl.lists[WaitList(waitOf[t])]
    {
      hide ListTable.Valid, NodesOk, HeldOk, KeysTied, T.Distinct, Rep, WaitOk;
      WaitsOf(t);
      if t in waitOf {
        WaitFacts(waitOf[t]);
        kl.OwnerOf(WaitList(waitOf[t]), event[t]);
      } else {
        EventIsFree(t);
      }
    }

    /** Out of its wait list, if it is in one: the first waiter is popped, others are taken out where they are. */
    method LeaveWaiters(t: Task, why: Cause)
      requires Tied() && WaitOk(status, waits, waitOf) && t in prio
      requires why.Front? ==> why.wait in waits && waits[why.wait] != [] && waits[why.wait][0] == t
      modifies this`waits
      modifies kl`held, kl`cur, kl.lists.Values, kl.log`word, kl.nodes`prev, kl.nodes`next, kl.nodes`list
      ensures kl.cur == old(kl.cur)
      ensures Tied() && waits == Unwaited(old(waits), waitOf, t)
    {
      hide ListTable.Valid, NodesOk, HeldOk, KeysTied, T.Distinct, Dropped, WaitOk;
      WaitsOf(t);
      if why.Front? {
        assert waits[why.wait][0] in waits[why.wait];
        PopWaiter(t, why.wait);
      } else {
        Container(t);
        if event[t].list != null {
          LeaveWait(t, event[t].list, waitOf[t]);
        }
      }
    }

    /** The tick pops a task off the delay list and then looks for its wait list, the others begin with the wait list. */
    method LeaveLists(t: Task, why: Cause)
      requires Tied() && WaitOk(status, waits, waitOf) && t in prio && t in delayed && T.Distinct(delayed)
      requires why.Front? ==> why.wait in waits && waits[why.wait] != [] && waits[why.wait][0] == t
      requires why.Due? ==> delayed[0] == t
      modifies this`delayed, this`waits
      modifies kl`held, kl`cur, kl.lists.Values, kl.log`word, kl.nodes`prev, kl.nodes`next, kl.nodes`list
      ensures kl.cur == old(kl.cur)
      ensures Tied() && delayed == Dropped(old(delayed), t) && waits == Unwaited(old(waits), waitOf, t)
    {
      hide Tied, T.Distinct, Dropped, WaitOk, Unwaited;
      if why.Due? {
        LeaveDelay(t, true);
        LeaveWaiters(t, why);
      } else {
        LeaveWaiters(t, why);
        LeaveDelay(t, false);
      }
    }

    /** The moves of a task that is woken. */
    method MoveToReady(t: Task, why: Cause) returns (ghost i: nat)
      requires WaitOk(status, waits, waitOf) && t in prio && t in delayed && T.Distinct(delayed)
      requires why.Front? ==> why.wait in waits && waits[why.wait] != [] && waits[why.wait][0] == t
      requires why.Due? ==> delayed[0] == t
      requires |ready| == LEVELS && prio[t] < LEVELS && T.Distinct(ready[prio[t]])
      requires (forall p :: 0 <= p < LEVELS ==> t !in ready[p]) && Tied()
      modifies this`ready, this`delayed, this`waits
      modifies kl`held, kl`cur, kl.lists.Values, kl.log`word, kl.nodes`prev, kl.nodes`next, kl.nodes`list
      ensures Tied() && delayed == Dropped(old(delayed), t) && waits == Unwaited(old(waits), waitOf, t)
      ensures i <= |old(ready)[prio[t]]| && ready == old(ready)[prio[t] := Put(old(ready)[prio[t]], i, t)]
      ensures EnteredRing(t, i, old(ready), old(kl.cur))
    {
      hide Tied, T.Distinct, Dropped, Put, WaitOk, Unwaited, EnteredRing;
      DroppedFrom(delayed, t);
      LeaveLists(t, why);
      i := EnterReady(t);
    }

    /** Out of the delay list and of its wait list, into the ready ring. */
    method Release(t: Task, why: Cause) returns (ghost i: nat)
      requires Valid() && t in prio && status[t] == Blocked
      requires why.Front? ==> why.wait in waits && waits[why.wait] != [] && waits[why.wait][0] == t
      requires why.Due? ==> delayed != [] && delayed[0] == t
      modifies this`status, this`ready, this`delayed, this`waits, this`waitOf
      modifies kl`held, kl`cur, kl.lists.Values, kl.log`word, kl.nodes`prev, kl.nodes`next, kl.nodes`list
      ensures Valid() && status == old(status)[t := Ready] && delayed == Dropped(old(delayed), t)
      ensures waits == Unwaited(old(waits), old(waitOf), t)
      ensures EnteredRing(t, i, old(ready), old(kl.cur))
    {
      hide EnteredRing;
      hide Tied, T.Distinct, Dropped, Put, ReadyOk, DelayOk, WaitOk, SortedOk, Unwaited, RanksOk, TimesOk;
      Known(t);
      i := MoveToReady(t, why);
      MarkReady(t, i, old(ready), old(delayed), old(waits));
    }

    /** The status of a task that has been moved to its ready ring. */
    method MarkReady(t: Task, ghost i: nat, ghost ready0: seq<seq<Task>>, ghost delayed0: seq<Task>,
                     ghost waits0: map<WaitId, seq<Task>>)
      requires ReadyOk(prio, status, ready0) && DelayOk(status, delayed0, wakeup) && WaitOk(status, waits0, waitOf)
      requires SortedOk(waits0, sorted, order) && RanksOk(order, prio) && TimesOk(delayed0, wakeup, nextUnblock, maxDelay)
      requires t in prio && t in status && status[t] == Blocked && i <= |ready0[prio[t]]|
      requires ready == ready0[prio[t] := Put(ready0[prio[t]], i, t)] && delayed == Dropped(delayed0, t)
      requires waits == Unwaited(waits0, waitOf, t) && Tied()
      modifies this`status, this`waitOf
      ensures Valid() && status == old(status)[t := Ready] && waitOf == old(waitOf) - {t}
    {
      hide Tied, T.Distinct, Dropped, Put, ReadyOk, DelayOk, WaitOk, SortedOk, Unwaited, RanksOk, TimesOk;
      Released(t, i, ready0, delayed0, waits0);
      waitOf := waitOf - {t};
      status := status[t := Ready];
    }

    lemma Released(t: Task, i: nat, ready0: seq<seq<Task>>, delayed0: seq<Task>, waits0: map<WaitId, seq<Task>>)
      requires ReadyOk(prio, status, ready0) && DelayOk(status, delayed0, wakeup) && WaitOk(status, waits0, waitOf)
      requires SortedOk(waits0, sorted, order) && t in prio && t in status && status[t] == Blocked
      requires i <= |ready0[prio[t]]| && delayed == Dropped(delayed0, t)
      requires TimesOk(delayed0, wakeup, nextUnblock, maxDelay)
      ensures ReadyOk(prio, status[t := Ready], ready0[prio[t] := Put(ready0[prio[t]], i, t)])
      ensures DelayOk(status[t := Ready], Dropped(delayed0, t), wakeup)
      ensures WaitOk(status[t := Ready], Unwaited(waits0, waitOf, t), waitOf - {t})
      ensures SortedOk(Unwaited(waits0, waitOf, t), sorted, order)
      ensures TimesOk(delayed, wakeup, nextUnblock, maxDelay)
    {
      hide T.Distinct, Dropped, Put, ReadyOk, DelayOk, WaitOk, SortedOk, Unwaited;
      ReadyAfterRelease(prio, status, ready0, t, i);
      DelayAfterRelease(status, delayed0, wakeup, t);
      WaitAfterRelease(status, waits0, waitOf, t);
      SortedAfterRelease(waits0, sorted, order, waitOf, t);
      DroppedFrom(delayed0, t);
    }

    lemma DroppedFrom(s: seq<Task>, t: Task)
      ensures forall x :: x in Dropped(s, t) <==> x != t && x in s
    {
      forall x
        ensures x in Dropped(s, t) <==> x != t && x in s
      {
        DroppedHas(s, t, x);
      }
    }

    /** A ready task gets its wake-up time and leaves its ring. */
    method LeaveForSleep(t: Task, until: int) returns (ghost k: nat)
      requires |ready| == LEVELS && t in prio && prio[t] < LEVELS && t in ready[prio[t]] && T.Distinct(ready[prio[t]])
      requires Tied()
      modifies this`wakeup, this`ready, sched.Values`key
      modifies kl`held, kl`cur, kl.lists.Values, kl.log`word, kl.nodes`prev, kl.nodes`next, kl.nodes`list
      ensures LeftRing(t, k, old(ready), old(kl.cur))
      ensures Tied() && wakeup == old(wakeup)[t := until]
      ensures ready == old(ready)[prio[t] := Dropped(old(ready)[prio[t]], t)]
    {
      hide Tied, LeftRing, T.Distinct, Dropped;
      SetWakeup(t, until);
      k := LeaveReady(t);
    }

    /** `add_to_delayed_list` of a task that has left its ready ring. */
    method GoToSleep(t: Task)
      requires |ready| == LEVELS && t in prio && t in wakeup && T.Distinct(delayed) && t !in delayed
      requires (forall p :: 0 <= p < LEVELS ==> t !in ready[p]) && Tied()
      modifies this`status, this`delayed, this`nextUnblock
      modifies kl`held, kl`cur, kl.lists.Values, kl.log`word, kl.nodes`prev, kl.nodes`next, kl.nodes`list
      ensures t in wakeup && forall x :: x in old(delayed) ==> x in wakeup
      ensures kl.cur == old(kl.cur)
      ensures Tied() && status == old(status)[t := Blocked] && delayed == Inserted(old(delayed), t, wakeup)
      ensures nextUnblock == if wakeup[t] < old(nextUnblock) then wakeup[t] else old(nextUnblock)
    {
      hide Tied, T.Distinct, Inserted, KeysTied, NodesOk;
      status := status[t := Blocked];
      EnterDelay(t);
      KeyOf(t);
      if sched[t].key < nextUnblock {
        nextUnblock := sched[t].key;
      }
    }

    lemma KeyOf(t: Task)
      requires Tied() && t in prio
      ensures t in sched && t in wakeup && sched[t].key == wakeup[t]
    {
      hide ListTable.Valid, HeldOk;
    }

    /** What is so of the lists when a ready task has gone to sleep. */
    lemma Slept(t: Task, until: int, ready0: seq<seq<Task>>, delayed0: seq<Task>, wakeup0: map<Task, int>,
                status0: map<Task, State>, next0: int)
      requires ReadyOk(prio, status0, ready0) && DelayOk(status0, delayed0, wakeup0)
      requires TimesOk(delayed0, wakeup0, next0, maxDelay) && until <= maxDelay
      requires t in prio && t in status0 && status0[t] == Ready
      ensures ReadyOk(prio, status0[t := Blocked], ready0[prio[t] := Dropped(ready0[prio[t]], t)])
      ensures forall x :: x in delayed0 ==> x in wakeup0
      ensures DelayOk(status0[t := Blocked], Inserted(delayed0, t, wakeup0[t := until]), wakeup0[t := until])
      ensures TimesOk(Inserted(delayed0, t, wakeup0[t := until]), wakeup0[t := until],
                      if until < next0 then until else next0, maxDelay)
    {
      hide T.Distinct, Dropped, Inserted, ReadyOk, DelayOk;
      Sleepers(t, ready0, delayed0, wakeup0, status0);
      ReadyAfterBlock(prio, status0, ready0, t);
      DelayAfterBlock(status0, delayed0, wakeup0, t, until);
      var key := wakeup0[t := until];
      forall x
        ensures x in Inserted(delayed0, t, key) <==> x == t || x in delayed0
      {
        InsertedHas(delayed0, t, key, x);
      }
    }

    lemma Sleepers(t: Task, ready0: seq<seq<Task>>, delayed0: seq<Task>, wakeup0: map<Task, int>, status0: map<Task, State>)
      requires ReadyOk(prio, status0, ready0) && DelayOk(status0, delayed0, wakeup0)
      requires t in prio && t in status0 && status0[t] == Ready
      ensures (forall x :: x in delayed0 ==> x in wakeup0) && t !in delayed0 && |ready0| == LEVELS && prio[t] < LEVELS
      ensures t in ready0[prio[t]] && T.Distinct(ready0[prio[t]]) && T.Distinct(delayed0)
      ensures forall p :: 0 <= p < LEVELS && p != prio[t] ==> t !in ready0[p]
    {
      hide T.Distinct, Ascending;
    }

    /** Into a wait list, if there is one, and into the delay list. */
    method LieDown(t: Task, joins: bool, w: WaitId)
      requires |ready| == LEVELS && t in prio && t in wakeup && T.Distinct(delayed) && t !in delayed
      requires forall p :: 0 <= p < LEVELS ==> t !in ready[p]
      requires joins ==> w in waits && T.Distinct(waits[w]) && forall v :: v in waits ==> t !in waits[v]
      requires Tied()
      modifies this`status, this`delayed, this`waits, this`nextUnblock
      modifies kl`held, kl`cur, kl.lists.Values, kl.log`word, kl.nodes`prev, kl.nodes`next, kl.nodes`list
      ensures t in wakeup && forall x :: x in old(delayed) ==> x in wakeup
      ensures Tied() && kl.cur == old(kl.cur) && status == old(status)[t := Blocked]
      ensures delayed == Inserted(old(delayed), t, wakeup)
      ensures joins ==> t in order && forall x :: x in old(waits)[w] ==> x in order
      ensures waits == if joins then old(waits)[w := Joined(old(waits)[w], t, w)] else old(waits)
      ensures nextUnblock == if wakeup[t] < old(nextUnblock) then wakeup[t] else old(nextUnblock)
    {
      hide Tied, T.Distinct, Inserted, Joined;
      if joins {
        EnterWait(t, w);
      }
      GoToSleep(t);
    }

    /** The moves of a task that blocks, with or without a wait list. */
    method SleepMoves(t: Task, until: int, joins: bool, w: WaitId) returns (ghost k: nat)
      requires |ready| == LEVELS && t in prio && prio[t] < LEVELS && t in ready[prio[t]] && T.Distinct(ready[prio[t]])
      requires T.Distinct(delayed) && t !in delayed && forall p :: 0 <= p < LEVELS && p != prio[t] ==> t !in ready[p]
      requires joins ==> w in waits && T.Distinct(waits[w]) && forall v :: v in waits ==> t !in waits[v]
      requires Tied()
      modifies this`status, this`ready, this`delayed, this`wakeup, this`waits, this`nextUnblock
      modifies sched.Values`key
      modifies kl`held, kl`cur, kl.lists.Values, kl.log`word, kl.nodes`prev, kl.nodes`next, kl.nodes`list
      ensures LeftRing(t, k, old(ready), old(kl.cur))
      ensures Tied() && status == old(status)[t := Blocked] && wakeup == old(wakeup)[t := until]
      ensures ready == old(ready)[prio[t] := Dropped(old(ready)[prio[t]], t)]
      ensures t in wakeup && forall x :: x in old(delayed) ==> x in wakeup
      ensures delayed == Inserted(old(delayed), t, wakeup)
      ensures joins ==> t in order && forall x :: x in old(waits)[w] ==> x in order
      ensures waits == if joins then old(waits)[w := Joined(old(waits)[w], t, w)] else old(waits)
      ensures nextUnblock == if until < old(nextUnblock) then until else old(nextUnblock)
    {
      hide Tied, LeftRing, T.Distinct, Dropped, Inserted, Joined;
      DroppedFrom(ready[prio[t]], t);
      k := LeaveForSleep(t, until);
      LieDown(t, joins, w);
    }

    lemma CanSleep(t: Task)
      requires Valid() && t in prio && status[t] == Ready
      ensures t in status && |ready| == LEVELS && prio[t] < LEVELS && t in ready[prio[t]] && T.Distinct(ready[prio[t]])
      ensures T.Distinct(delayed) && t !in delayed && forall p :: 0 <= p < LEVELS && p != prio[t] ==> t !in ready[p]
      ensures forall w :: w in waits ==> T.Distinct(waits[w]) && t !in waits[w]
      ensures order.Keys == prio.Keys
    {
      hide Tied, T.Distinct, Ascending, SortedOk;
    }

    /** `roll_forward_insert_into_delaylist`. */
    method DelayOnly(t: Task, until: int) returns (ghost k: nat)
      requires Valid() && t in prio && status[t] == Ready && until <= maxDelay
      modifies this`status, this`ready, this`delayed, this`wakeup, this`waits, this`nextUnblock
      modifies sched.Values`key
      modifies kl`held, kl`cur, kl.lists.Values, kl.log`word, kl.nodes`prev, kl.nodes`next, kl.nodes`list
      ensures LeftRing(t, k, old(ready), old(kl.cur))
      ensures Valid() && status == old(status)[t := Blocked] && wakeup == old(wakeup)[t := until] && waits == old(waits)
      ensures t in wakeup && forall x :: x in old(delayed) ==> x in wakeup
      ensures delayed == Inserted(old(delayed), t, wakeup)
    {
      hide Tied, LeftRing, T.Distinct, Dropped, Inserted, Joined, ReadyOk, DelayOk, WaitOk, SortedOk, RanksOk, TimesOk;
      CanSleep(t);
      Slept(t, until, ready, delayed, wakeup, status, nextUnblock);
      WaitWithoutWaiting(status, waits, waitOf, t);
      k := SleepMoves(t, until, false, 0);
    }

    /** `roll_forward_insert_into_waitlist` and its unsorted twin: ready ring, wait list, delay list. */
    method Block(t: Task, w: WaitId, until: int) returns (ghost k: nat)
      requires Valid() && t in prio && status[t] == Ready && w in waits && until <= maxDelay
      modifies this`status, this`ready, this`delayed, this`wakeup, this`waits, this`waitOf, this`nextUnblock
      modifies sched.Values`key
      modifies kl`held, kl`cur, kl.lists.Values, kl.log`word, kl.nodes`prev, kl.nodes`next, kl.nodes`list
      ensures LeftRing(t, k, old(ready), old(kl.cur))
      ensures Valid() && status == old(status)[t := Blocked] && wakeup == old(wakeup)[t := until]
      ensures t in wakeup && forall x :: x in old(delayed) ==> x in wakeup
      ensures delayed == Inserted(old(delayed), t, wakeup)
      ensures t in order && forall x :: x in old(waits)[w] ==> x in order
      ensures waits == old(waits)[w := Joined(old(waits)[w], t, w)]
    {
      hide Tied, LeftRing, T.Distinct, Dropped, Inserted, Joined, ReadyOk, DelayOk, WaitOk, SortedOk, RanksOk, TimesOk;
      CanSleep(t);
      Slept(t, until, ready, delayed, wakeup, status, nextUnblock);
      k := SleepMoves(t, until, true, w);
      Waits(t, w, old(waits), old(status));
      waitOf := waitOf[t := w];
    }

    /** What is so of the wait lists when a ready task has joined one. */
    lemma Waits(t: Task, w: WaitId, waits0: map<WaitId, seq<Task>>, status0: map<Task, State>)
      requires WaitOk(status0, waits0, waitOf) && SortedOk(waits0, sorted, order)
      requires t in status0 && status0[t] == Ready && w in waits0
      requires t in order && forall x :: x in waits0[w] ==> x in order
      ensures WaitOk(status0[t := Blocked], waits0[w := Joined(waits0[w], t, w)], waitOf[t := w])
      ensures SortedOk(waits0[w := Joined(waits0[w], t, w)], sorted, order)
    {
      hide T.Distinct, Ascending, Inserted, Put;
      var s := waits0[w];
      if w in sorted {
        InsertedIsDistinct(s, t, order);
        SortedAfterBlock(waits0, sorted, order, t, w);
        forall x
          ensures x in Inserted(s, t, order) <==> x == t || x in s
        {
          InsertedHas(s, t, order, x);
        }
      } else {
        PutIsDistinct(s, 0, t);
      }
      WaitAfterBlock(status0, waits0, waitOf, t, w, Joined(s, t, w));
    }

    ghost predicate IsFirstSleeper(node: Node?)
      reads this`owner, this`delayed, this`prio, this`wakeup, this`status, Opt(node)`key
    {
      if delayed == [] then node == null
      else
        var t := delayed[0];
        && node != null && node in owner && owner[node] == t && t in prio && t in wakeup && node.key == wakeup[t]
        && t in status && status[t] == Blocked
    }

    /** The first sleeper and its node. */
    lemma FirstSleeper(node: Node?)
      requires Valid() && DelayList in kl.held && node == First(kl.held[DelayList])
      ensures IsFirstSleeper(node)
    {
      hide ListTable.Valid, Ascending, Injective, ReadyOk, WaitOk, SortedOk;
      if delayed != [] {
        FirstOfRep(sched, delayed, kl.held[DelayList]);
      }
    }

    lemma HasDelayList()
      requires Tied()
      ensures DelayList in kl.held && kl.Valid()
    {
    }

    /** `peek_front` of the delay list. */
    method PeekSleeper() returns (node: Node?)
      requires Valid()
      ensures IsFirstSleeper(node)
    {
      hide Tied, ReadyOk, DelayOk, WaitOk, SortedOk;
      HasDelayList();
      node := kl.Front(DelayList);
      FirstSleeper(node);
    }

    /** The first sleeper is due: wake it. */
    method ReleaseFirst(t: Task, ghost status0: map<Task, State>, ghost delayed0: seq<Task>,
                        ghost waits0: map<WaitId, seq<Task>>)
      requires delayed != [] && t == delayed[0] && t in prio && t in status && status[t] == Blocked
      requires t in wakeup && wakeup[t] <= now && Awake(status, delayed, waits, status0, delayed0, waits0, wakeup, now)
      requires Valid()
      modifies this`status, this`ready, this`delayed, this`waits, this`waitOf
      modifies kl`held, kl`cur, kl.lists.Values, kl.log`word, kl.nodes`prev, kl.nodes`next, kl.nodes`list
      ensures Valid() && Awake(status, delayed, waits, status0, delayed0, waits0, wakeup, now)
      ensures |delayed| < |old(delayed)|
    {
      hide Tied, T.Distinct, Dropped, Awake, Unwaited, ReadyOk, DelayOk, WaitOk, SortedOk, RanksOk, TimesOk;
      OneShorter();
      AwakeStep(status, delayed, waits, waitOf, status0, delayed0, waits0, wakeup, now, t);
      ghost var i := Release(t, Due);
    }

    /** The loop of `process_tick`: release sleepers while the first one is due. */
    method ReleaseDue() returns (node: Node?)
      requires Valid()
      modifies this`status, this`ready, this`delayed, this`waits, this`waitOf
      modifies kl`held, kl`cur, kl.lists.Values, kl.log`word, kl.nodes`prev, kl.nodes`next, kl.nodes`list
      ensures Valid() && Awake(status, delayed, waits, old(status), old(delayed), old(waits), wakeup, now)
      ensures if delayed == [] then node == null
              else node != null && delayed[0] in wakeup && node.key == wakeup[delayed[0]] && wakeup[delayed[0]] > now
    {
      hide Valid, Awake;
      AwakeAtFirst();
      node := PeekSleeper();
      while node != null && node.key <= now
        invariant Valid() && Awake(status, delayed, waits, old(status), old(delayed), old(waits), wakeup, now)
        invariant IsFirstSleeper(node)
        decreases |delayed|
      {
        ReleaseFirst(owner[node], old(status), old(delayed), old(waits));
        node := PeekSleeper();
      }
    }

    lemma AwakeAtFirst()
      requires Valid()
      ensures Awake(status, delayed, waits, status, delayed, waits, wakeup, now)
    {
      hide Tied, T.Distinct, Ascending;
    }

    lemma OneShorter()
      requires Valid() && delayed != []
      ensures |Dropped(delayed, delayed[0])| < |delayed|
    {
      hide Tied, ReadyOk, WaitOk, SortedOk;
      FirstDropped(delayed);
    }

    /** `process_tick`. Whoever is due has left the delay list and its wait list and is ready; nobody else has. */
    method DoTick()
      requires Valid()
      modifies this`status, this`ready, this`delayed, this`waits, this`waitOf, this`now, this`nextUnblock
      modifies kl`held, kl`cur, kl.lists.Values, kl.log`word, kl.nodes`prev, kl.nodes`next, kl.nodes`list
      ensures Valid() && now == old(now) + 1 && status.Keys == old(status).Keys == wakeup.Keys
      ensures forall t :: t in status ==>
        status[t] == if old(status)[t] == Blocked && wakeup[t] <= now then Ready else old(status)[t]
      ensures (forall t :: t in old(delayed) ==> t in wakeup) && delayed == Pending(old(delayed), wakeup, now)
      ensures waits.Keys == old(waits).Keys
      ensures forall w :: w in waits ==>
        (forall t :: t in old(waits)[w] ==> t in wakeup) && waits[w] == Pending(old(waits)[w], wakeup, now)
    {
      hide Tied, T.Distinct, Ascending, ReadyOk, DelayOk, WaitOk, SortedOk, RanksOk, Pending, Awake;
      now := now + 1;
      AwakeAtFirst();
      if now >= nextUnblock {
        var node := ReleaseDue();
        SleepersSorted();
        nextUnblock := if node == null then maxDelay else node.key;
      }
      SleepersSorted();
      AllDue(old(status), old(delayed), old(waits));
    }

    lemma SleepersSorted()
      requires DelayOk(status, delayed, wakeup)
      ensures forall t :: t in delayed ==> t in wakeup && delayed[0] in wakeup && wakeup[delayed[0]] <= wakeup[t]
    {
      if delayed != [] {
        FirstIsLeast(delayed, wakeup);
      }
    }

    /** When the first sleeper is not due, nobody is. */
    lemma AllDue(status0: map<Task, State>, delayed0: seq<Task>, waits0: map<WaitId, seq<Task>>)
      requires Awake(status, delayed, waits, status0, delayed0, waits0, wakeup, now)
      requires DelayOk(status, delayed, wakeup) && WaitOk(status, waits, waitOf)
      requires forall t :: t in delayed ==> t in wakeup && wakeup[t] > now
      ensures status.Keys == status0.Keys == wakeup.Keys && waits.Keys == waits0.Keys
      ensures forall t :: t in status ==>
        status[t] == if status0[t] == Blocked && wakeup[t] <= now then Ready else status0[t]
      ensures (forall t :: t in delayed0 ==> t in wakeup) && delayed == Pending(delayed0, wakeup, now)
      ensures forall w :: w in waits ==>
        (forall t :: t in waits0[w] ==> t in wakeup) && waits[w] == Pending(waits0[w], wakeup, now)
    {
      hide Pending, T.Distinct, Ascending;
      NoneExpired(delayed, wakeup, now);
      forall w | w in waits
        ensures Pending(waits[w], wakeup, now) == waits[w]
      {
        NoneExpired(waits[w], wakeup, now);
      }
    }

    lemma WaitIds(w: WaitId)
      requires Tied()
      ensures kl.Valid() && (WaitList(w) in kl.lists <==> w in waits) && (w in waits <==> WaitList(w) in kl.held)
    {
      hide ListTable.Valid, NodesOk, Rep;
      kl.SameIds();
    }

    /** The first waiter and its node. */
    lemma FirstWaiter(w: WaitId, node: Node?)
      requires Valid() && w in waits && WaitList(w) in kl.held && node == First(kl.held[WaitList(w)])
      ensures if waits[w] == [] then node == null
              else node != null && node in owner && owner[node] == waits[w][0] && waits[w][0] in prio
                   && waits[w][0] in status && status[waits[w][0]] == Blocked
    {
      hide ListTable.Valid, Injective, ReadyOk, DelayOk, SortedOk, T.Distinct;
      if waits[w] != [] {
        FirstOfRep(event, waits[w], kl.held[WaitList(w)]);
        assert waits[w][0] in waits[w];
      }
    }

    /** `roll_forward_pop_remove_from_waitlist`: wake the front waiter, if there is one. In a sorted list that is the one
        with the largest level value, and nobody in it is less important. */
    method DoWakeFront(w: WaitId)
      requires Valid() && w in waits
      modifies this`status, this`ready, this`delayed, this`waits, this`waitOf
      modifies kl`held, kl`cur, kl.lists.Values, kl.log`word, kl.nodes`prev, kl.nodes`next, kl.nodes`list
      ensures Valid()
      ensures var s := old(waits)[w];
        if s == [] then status == old(status) && waits == old(waits)
        else s[0] in old(status) && old(status)[s[0]] == Blocked && status == old(status)[s[0] := Ready]
             && waits == old(waits)[w := s[1..]]
      ensures var s := old(waits)[w]; (forall x :: x in s ==> x in prio) && (w in sorted ==> LeastFirst(s, prio))
    {
      hide Tied, ReadyOk, DelayOk, WaitOk, SortedOk, RanksOk, TimesOk, Dropped, T.Distinct, LeastFirst;
      WaitIds(w);
      LeastIsFirst(w);
      var node := kl.Front(WaitList(w));
      FirstWaiter(w, node);
      if node != null {
        PoppedWaiter(w);
        ghost var i := Release(owner[node], Front(w));
      }
    }

    lemma LeastIsFirst(w: WaitId)
      requires Valid() && w in waits
      ensures (forall x :: x in waits[w] ==> x in prio) && (w in sorted ==> LeastFirst(waits[w], prio))
    {
      hide Tied, T.Distinct, Ascending;
      if w in sorted && waits[w] != [] {
        FrontIsLeastImportant(waits[w], prio, order);
      }
    }

    lemma PoppedWaiter(w: WaitId)
      requires Valid() && w in waits && waits[w] != []
      ensures Unwaited(waits, waitOf, waits[w][0]) == waits[w := waits[w][1..]]
    {
      hide Tied, ReadyOk, DelayOk, SortedOk;
      assert waits[w][0] in waits[w];
      FirstDropped(waits[w]);
    }

    // ---------- new tasks and wait lists ----------

    /** `initialize_task`: two nodes, in no list. */
    method AddTask(level: nat) returns (t: Task)
      requires |ready| == LEVELS && level < LEVELS && count < taskLimit && Tied()
      modifies this`count, this`prio, this`sched, this`event, this`owner, this`wakeup, this`order, kl`nodes
      ensures t == old(count) && count == t + 1 && t !in old(prio) && prio == old(prio)[t := level] && Tied()
      ensures wakeup == old(wakeup)[t := 0] && order == old(order)[t := Rank(level)]
      ensures fresh(kl.nodes - old(kl.nodes))
      ensures t !in delayed && forall p :: 0 <= p < LEVELS ==> t !in ready[p]
    {
      hide ListTable.Valid, NodesOk, HeldOk, KeysOk;
      t := count;
      var n := kl.AddNode(0);
      var e := kl.AddNode(Rank(level));
      Enrol(n, e, level, old(kl.nodes));
    }

    method Enrol(n: Node, e: Node, level: nat, ghost nodes: set<Node>)
      requires level < LEVELS && count < taskLimit && taskLimit + 1 < MAX_LEN
      requires n !in nodes && e !in nodes && n != e && kl.nodes == nodes + {n} + {e} && n.key == 0 && e.key == Rank(level)
      requires kl.Valid() && KeysTied() && NodesOk(count, prio, sched, event, owner, nodes)
      requires HeldOk(kl.held, sched, event, ready, delayed, waits)
      modifies this`count, this`prio, this`sched, this`event, this`owner, this`wakeup, this`order
      ensures count == old(count) + 1 && old(count) !in old(prio) && prio == old(prio)[old(count) := level]
      ensures wakeup == old(wakeup)[old(count) := 0] && order == old(order)[old(count) := Rank(level)]
      ensures old(count) !in delayed && |ready| == LEVELS && forall p :: 0 <= p < LEVELS ==> old(count) !in ready[p]
      ensures Tied()
    {
      hide ListTable.Valid, NodesOk, HeldOk, KeysOk;
      ghost var t := count;
      NewTaskIsUnlisted(kl.held, count, prio, sched, event, owner, nodes, ready, delayed, waits);
      NodesAfterTask(count, prio, sched, event, owner, nodes, n, e, level);
      assert kl.nodes == nodes + {n, e};
      HeldAfterTask(kl.held, sched, event, ready, delayed, waits, t, n, e);
      KeysAfterTask(sched, event, wakeup, order, t, n, e);
      Record(n, e, level);
    }

    /** The stores of a new task. */
    method Record(n: Node, e: Node, level: nat)
      modifies this`count, this`prio, this`sched, this`event, this`owner, this`wakeup, this`order
      ensures count == old(count) + 1 && prio == old(prio)[old(count) := level]
      ensures sched == old(sched)[old(count) := n] && event == old(event)[old(count) := e]
      ensures owner == old(owner)[n := old(count)][e := old(count)]
      ensures wakeup == old(wakeup)[old(count) := 0] && order == old(order)[old(count) := Rank(level)]
    {
      sched, event := sched[count := n], event[count := e];
      owner := owner[n := count];
      owner := owner[e := count];
      prio, wakeup, order := prio[count := level], wakeup[count := 0], order[count := Rank(level)];
      count := count + 1;
    }

    ghost function Footprint(): set<object>
      reads this, kl
    {
      {this, kl, kl.log} + (set l | l in kl.lists.Values) + (set n | n in kl.nodes)
    }

    /** What the steps are about. */
    ghost function Abs(): Sys
      reads this
    {
      Sys(now, count, prio, status, wakeup, waits, sorted)
    }

    ghost function Max(): Limits {
      Limits(taskLimit, maxDelay)
    }

    lemma AbsOk()
      requires Valid()
      ensures Abs().Ok() && count <= taskLimit && status.Keys == prio.Keys == wakeup.Keys
    {
      hide ListTable.Valid, HeldOk, KeysTied, T.Distinct, Ascending, TimesOk, Injective, RanksOk, Sys.InLevelOrder;
      forall w | w in waits && w in sorted
        ensures Abs().InLevelOrder(w)
      {
        LevelOrder(Abs(), w, order);
      }
    }

    /** `create_task_static`: a new task starts in the ready ring of its level. */
    method DoCreate(level: nat)
      requires Valid() && level < LEVELS && count < taskLimit
      modifies this`count, this`prio, this`sched, this`event, this`owner, this`wakeup, this`order, this`status, this`ready
      modifies kl`nodes, kl`held, kl`cur, kl.lists.Values, kl.log`word, kl.nodes`prev, kl.nodes`next, kl.nodes`list
      ensures Valid() && count == old(count) + 1
      ensures prio == old(prio)[old(count) := level] && status == old(status)[old(count) := Ready]
      ensures wakeup == old(wakeup)[old(count) := 0]
      ensures fresh(kl.nodes - old(kl.nodes))
    {
      hide Tied, T.Distinct, Ascending, Put, ReadyOk, DelayOk, WaitOk, SortedOk, TimesOk, RanksOk, Rank, ListTable.Valid;
      hide EnteredRing;
      RingsKnown();
      RanksAfterCreate(order, prio, count, level);
      ghost var prio0, wakeup0, order0, ready0 := prio, wakeup, order, ready;
      var t := AddTask(level);
      ghost var i := EnterReady(t);
      Created(t, level, i, prio0, wakeup0, order0, ready0);
      status := status[t := Ready];
    }

    lemma RingsKnown()
      requires Valid()
      ensures |ready| == LEVELS && forall p :: 0 <= p < LEVELS ==> T.Distinct(ready[p])
    {
      hide Tied, T.Distinct, DelayOk, WaitOk, SortedOk;
    }

    lemma Created(t: Task, level: nat, i: nat, prio0: map<Task, nat>, wakeup0: map<Task, int>, order0: map<Task, int>,
                  ready0: seq<seq<Task>>)
      requires ReadyOk(prio0, status, ready0) && DelayOk(status, delayed, wakeup0) && WaitOk(status, waits, waitOf)
      requires SortedOk(waits, sorted, order0) && order0.Keys == prio0.Keys && t !in prio0 && level < LEVELS
      requires TimesOk(delayed, wakeup0, nextUnblock, maxDelay) && i <= |ready0[level]|
      ensures ReadyOk(prio0[t := level], status[t := Ready], ready0[level := Put(ready0[level], i, t)])
      ensures DelayOk(status[t := Ready], delayed, wakeup0[t := 0]) && WaitOk(status[t := Ready], waits, waitOf)
      ensures SortedOk(waits, sorted, order0[t := Rank(level)])
      ensures TimesOk(delayed, wakeup0[t := 0], nextUnblock, maxDelay)
    {
      hide T.Distinct, Ascending, Put, SortedOk;
      ReadyAfterCreate(prio0, status, ready0, t, level, i);
      DelayAfterCreate(status, delayed, wakeup0, t);
      WaitAfterCreate(status, waits, waitOf, t);
      SortedAfterCreate(waits, sorted, order0, t, Rank(level));
    }

    /** The wait list of a new semaphore, queue or event group. */
    method DoNewWaitList(w: WaitId, isSorted: bool)
      requires Valid() && w !in waits
      modifies this`waits, this`sorted, kl`lists, kl`held, kl`cur
      ensures Valid() && waits == old(waits)[w := []]
      ensures forall v :: v in sorted <==> if v == w then isSorted else v in old(sorted)
      ensures fresh(kl.lists.Values - old(kl.lists.Values))
    {
      hide T.Distinct, Ascending, ReadyOk, DelayOk, TimesOk, ListTable.Valid, NodesOk, KeysOk, HeldOk, WaitOk, SortedOk;
      WaitIds(w);
      kl.AddList(WaitList(w));
      HeldAfterWait(old(kl.held), sched, event, ready, delayed, waits, w, [], []);
      WaitAfterNewList(status, waits, waitOf, w);
      RecordWaitList(w, isSorted);
      SortedAfterNewList(old(waits), old(sorted), order, w, sorted);
    }

    method RecordWaitList(w: WaitId, isSorted: bool)
      modifies this`waits, this`sorted
      ensures waits == old(waits)[w := []] && forall v :: v in sorted <==> if v == w then isSorted else v in old(sorted)
    {
      waits := waits[w := []];
      sorted := if isSorted then sorted + {w} else sorted - {w};
    }

    lemma JoinedHere(s: Sys, t: Task, w: WaitId)
      requires RanksOk(order, prio) && s.prio == prio && s.sorted == sorted && w in s.waits
      requires t in order && forall x :: x in s.waits[w] ==> x in order
      requires waits == s.waits[w := Joined(s.waits[w], t, w)]
      ensures Joins(s, Abs(), t, w)
    {
      hide RanksOk, Inserted, Put, Joins;
      JoinedAt(s, Abs(), t, w, order);
    }

    /** Who waits is in the table. */
    lemma WaitersKnown(t: Task)
      requires Valid()
      ensures Abs().Waits(t) <==> t in waitOf
      ensures t in waitOf ==> t in prio
      ensures Unwaited(waits, waitOf, t).Keys == waits.Keys
      ensures forall w :: w in waits ==> Unwaited(waits, waitOf, t)[w] == Dropped(waits[w], t)
    {
      hide Tied, DelayOk, SortedOk, TimesOk, RanksOk, Dropped, Unwaited, T.Distinct;
      UnwaitedIs(status, waits, waitOf, t);
      if t in waitOf {
        assert Abs().WaitsIn(t, waitOf[t]);
      }
    }

    method StepBlock(t: Task, w: WaitId, until: int)
      requires Valid()
      modifies this`status, this`ready, this`delayed, this`wakeup, this`waits, this`waitOf, this`nextUnblock
      modifies sched.Values`key
      modifies kl`held, kl`cur, kl.lists.Values, kl.log`word, kl.nodes`prev, kl.nodes`next, kl.nodes`list
      ensures Valid() && Effect(BlockOn(t, w, until), old(Abs()), Abs(), Max())
    {
      hide Tied, ReadyOk, DelayOk, WaitOk, SortedOk, RanksOk, TimesOk, Inserted, Pending, LeastFirst, Joined, Joins, Sys.Ok;
      WaitIds(w);
      AbsOk();
      if t in prio && t in status && status[t] == Ready && WaitList(w) in kl.lists && until <= maxDelay {
        TakeBlock(t, w, until);
      }
    }

    method TakeBlock(t: Task, w: WaitId, until: int)
      requires Valid() && t in prio && t in status && status[t] == Ready && w in waits && until <= maxDelay
      modifies this`status, this`ready, this`delayed, this`wakeup, this`waits, this`waitOf, this`nextUnblock
      modifies sched.Values`key
      modifies kl`held, kl`cur, kl.lists.Values, kl.log`word, kl.nodes`prev, kl.nodes`next, kl.nodes`list
      ensures Valid() && Effect(BlockOn(t, w, until), old(Abs()), Abs(), Max())
    {
      hide Tied, ReadyOk, DelayOk, WaitOk, SortedOk, RanksOk, TimesOk, Inserted, Pending, LeastFirst, Joined, Joins, Effect;
      ghost var s := Abs();
      ghost var k := Block(t, w, until);
      JoinedHere(s, t, w);
      Blocks(s, Abs(), t, w, until, Max());
    }

    method StepDelay(t: Task, until: int)
      requires Valid()
      modifies this`status, this`ready, this`delayed, this`wakeup, this`waits, this`nextUnblock
      modifies sched.Values`key
      modifies kl`held, kl`cur, kl.lists.Values, kl.log`word, kl.nodes`prev, kl.nodes`next, kl.nodes`list
      ensures Valid() && Effect(Event.Delay(t, until), old(Abs()), Abs(), Max())
    {
      hide Tied, ReadyOk, DelayOk, WaitOk, SortedOk, RanksOk, TimesOk, Inserted, Pending, LeastFirst, Joined, Joins, Sys.Ok;
      AbsOk();
      if t in prio && t in status && status[t] == Ready && until <= maxDelay {
        ghost var k := DelayOnly(t, until);
      }
    }

    method StepWakeFront(w: WaitId)
      requires Valid()
      modifies this`status, this`ready, this`delayed, this`waits, this`waitOf
      modifies kl`held, kl`cur, kl.lists.Values, kl.log`word, kl.nodes`prev, kl.nodes`next, kl.nodes`list
      ensures Valid() && Effect(WakeFront(w), old(Abs()), Abs(), Max())
    {
      hide Tied, ReadyOk, DelayOk, WaitOk, SortedOk, RanksOk, TimesOk, Inserted, Pending, LeastFirst, Joined, Joins, Sys.Ok;
      WaitIds(w);
      if WaitList(w) in kl.lists {
        DoWakeFront(w);
      }
    }

    method StepWakeTask(t: Task)
      requires Valid()
      modifies this`status, this`ready, this`delayed, this`waits, this`waitOf
      modifies kl`held, kl`cur, kl.lists.Values, kl.log`word, kl.nodes`prev, kl.nodes`next, kl.nodes`list
      ensures Valid() && Effect(WakeTask(t), old(Abs()), Abs(), Max())
    {
      hide Tied, ReadyOk, DelayOk, WaitOk, SortedOk, RanksOk, TimesOk, Inserted, Pending, LeastFirst, Joined, Joins, Sys.Ok;
      hide Sys.Waits, Dropped, Unwaited;
      WaitersKnown(t);
      if t in prio {
        Known(t);
        Container(t);
        if event[t].list != null {
          ghost var i := Release(t, Middle);
        }
      }
    }

    method StepNew(level: nat)
      requires Valid()
      modifies this`count, this`prio, this`sched, this`event, this`owner, this`wakeup, this`order, this`status, this`ready
      modifies kl`nodes, kl`held, kl`cur, kl.lists.Values, kl.log`word, kl.nodes`prev, kl.nodes`next, kl.nodes`list
      ensures Valid() && Effect(Create(level), old(Abs()), Abs(), Max()) && fresh(kl.nodes - old(kl.nodes))
    {
      hide Tied, ReadyOk, DelayOk, WaitOk, SortedOk, RanksOk, TimesOk, Inserted, Pending, LeastFirst, Joined, Joins, Sys.Ok;
      if count < taskLimit && level < LEVELS {
        DoCreate(level);
      }
    }

    method StepNewWaitList(w: WaitId, isSorted: bool)
      requires Valid()
      modifies this`waits, this`sorted, kl`lists, kl`held, kl`cur
      ensures Valid() && Effect(NewWaitList(w, isSorted), old(Abs()), Abs(), Max())
      ensures fresh(kl.lists.Values - old(kl.lists.Values))
    {
      hide Tied, ReadyOk, DelayOk, WaitOk, SortedOk, RanksOk, TimesOk, Inserted, Pending, LeastFirst, Joined, Joins, Sys.Ok;
      WaitIds(w);
      if WaitList(w) !in kl.lists {
        DoNewWaitList(w, isSorted);
      }
    }

    method StepTick()
      requires Valid()
      modifies this`status, this`ready, this`delayed, this`waits, this`waitOf, this`now, this`nextUnblock
      modifies kl`held, kl`cur, kl.lists.Values, kl.log`word, kl.nodes`prev, kl.nodes`next, kl.nodes`list
      ensures Valid() && Effect(Tick, old(Abs()), Abs(), Max())
    {
      hide Tied, ReadyOk, DelayOk, WaitOk, SortedOk, RanksOk, TimesOk, Inserted, Pending, LeastFirst, Joined, Joins, Sys.Ok;
      DoTick();
    }

    lemma NodesKnown()
      requires Valid()
      ensures forall n :: n in sched.Values ==> n in kl.nodes
    {
      hide ListTable.Valid, Rep, HeldOk, ReadyOk, DelayOk, WaitOk, SortedOk, RanksOk, TimesOk;
    }

    /** One kernel step. A step that the state does not admit is not taken. */
    method Step(e: Event)
      requires Valid()
      modifies this, kl, kl.lists.Values, kl.log, kl.nodes
      ensures Valid() && Effect(e, old(Abs()), Abs(), Max()) && fresh(Footprint() - old(Footprint()))
    {
      hide Valid, Effect, Abs;
      NodesKnown();
      match e
      case Create(level) => StepNew(level);
      case NewWaitList(w, isSorted) => StepNewWaitList(w, isSorted);
      case BlockOn(t, w, until) => StepBlock(t, w, until);
      case Delay(t, until) => StepDelay(t, until);
      case WakeFront(w) => StepWakeFront(w);
      case WakeTask(t) => StepWakeTask(t);
      case Tick => StepTick();
    }

    /** Every run of kernel steps: `tr` are the states in between, each the effect of its step. Time has gone on by the
        ticks, and every task asked for was made as long as there was room. */
    method Run(events: seq<Event>) returns (ghost tr: seq<Sys>)
      requires Valid()
      modifies this, kl, kl.lists.Values, kl.log, kl.nodes
      ensures Valid() && IsRun(events, tr, Max()) && tr[0] == old(Abs()) && tr[|events|] == Abs()
      ensures now == old(now) + Ticks(events)
      ensures count == if old(count) + Creates(events) < taskLimit then old(count) + Creates(events) else taskLimit
    {
      hide Valid, Effect, IsRun, Sys.Ok;
      AbsOk();
      tr := [Abs()];
      RunStarts(tr[0], Max());
      assert events[..0] == [];
      for i := 0 to |events|
        invariant Valid() && fresh(Footprint() - old(Footprint()))
        invariant |tr| == i + 1 && IsRun(events[..i], tr, Max()) && tr[0] == old(Abs()) && tr[i] == Abs()
      {
        Step(events[i]);
        AbsOk();
        RunMore(events, tr, Max(), i, Abs());
        tr := tr + [Abs()];
      }
      assert events[..|events|] == events;
      TimeAndTasks(events, tr, Max());
    }
  }

  /** A kernel from its start, through any run. */
  method RunFromStart(maxDelay: int, taskLimit: nat, events: seq<Event>) returns (k: Kernel, ghost tr: seq<Sys>)
    requires taskLimit + 1 < MAX_LEN
    ensures k.Valid() && IsRun(events, tr, Limits(taskLimit, maxDelay))
    ensures tr[0] == Sys(0, 0, map[], map[], map[], map[], {}) && tr[|events|] == k.Abs()
    ensures k.now == Ticks(events) && k.count == if Creates(events) < taskLimit then Creates(events) else taskLimit
  {
    hide Kernel.Valid, HeldOk, ListTable.Valid, IsRun;
    var kl := EmptyLists();
    k := new Kernel(kl, maxDelay, taskLimit);
    tr := k.Run(events);
  }

  lemma TwoWaiters(order: map<Task, int>)
    requires order == map[0 := Rank(1), 1 := Rank(5)]
    ensures Inserted([], 0, order) == [0] && Inserted([0], 1, order) == [1, 0]
  {
  }

  /** A task of level 1 and one of level 5. */
  ghost predicate TwoTasks(k: Kernel)
    reads k, k.kl, k.kl.lists.Values, k.kl.nodes, k.sched.Values, k.event.Values
  {
    k.Valid() && k.prio == map[0 := 1, 1 := 5] && k.order == map[0 := Rank(1), 1 := Rank(5)] && 0 in k.sorted
  }

  method BlockFirst(k: Kernel)
    requires TwoTasks(k) && k.status == map[0 := Ready, 1 := Ready] && k.waits == map[0 := []] && k.maxDelay >= 10
    modifies k`status, k`ready, k`delayed, k`wakeup, k`waits, k`waitOf, k`nextUnblock
    modifies k.sched.Values`key, k.kl`held, k.kl`cur, k.kl.lists.Values, k.kl.log`word
    modifies k.kl.nodes`prev, k.kl.nodes`next, k.kl.nodes`list
    ensures TwoTasks(k) && k.status == map[0 := Blocked, 1 := Ready] && k.waits == map[0 := [0]]
  {
    hide Kernel.Valid, Inserted, Put, Rank;
    TwoWaiters(k.order);
    ghost var at := k.Block(0, 0, 10);
  }

  method BlockSecond(k: Kernel)
    requires TwoTasks(k) && k.status == map[0 := Blocked, 1 := Ready] && k.waits == map[0 := [0]] && k.maxDelay >= 10
    modifies k`status, k`ready, k`delayed, k`wakeup, k`waits, k`waitOf, k`nextUnblock
    modifies k.sched.Values`key, k.kl`held, k.kl`cur, k.kl.lists.Values, k.kl.log`word
    modifies k.kl.nodes`prev, k.kl.nodes`next, k.kl.nodes`list
    ensures TwoTasks(k) && k.status == map[0 := Blocked, 1 := Blocked] && k.waits == map[0 := [1, 0]]
  {
    hide Kernel.Valid, Inserted, Put, Rank;
    TwoWaiters(k.order);
    ghost var at := k.Block(1, 0, 10);
  }

  method WakeOne(k: Kernel)
    requires TwoTasks(k) && k.status == map[0 := Blocked, 1 := Blocked] && k.waits == map[0 := [1, 0]]
    modifies k`status, k`ready, k`delayed, k`waits, k`waitOf
    modifies k.kl`held, k.kl`cur, k.kl.lists.Values, k.kl.log`word
    modifies k.kl.nodes`prev, k.kl.nodes`next, k.kl.nodes`list
    ensures TwoTasks(k) && k.status == map[0 := Blocked, 1 := Ready]
  {
    hide Kernel.Valid, LeastFirst, Rank;
    k.DoWakeFront(0);
  }

  /** The two wait in a sorted list, the more important one first. The one that is woken is the other. */
  method LessImportantFirst(k: Kernel)
    requires TwoTasks(k) && k.status == map[0 := Ready, 1 := Ready] && k.waits == map[0 := []] && k.maxDelay >= 10
    modifies k`status, k`ready, k`delayed, k`wakeup, k`waits, k`waitOf, k`nextUnblock
    modifies k.sched.Values`key, k.kl`held, k.kl`cur, k.kl.lists.Values, k.kl.log`word
    modifies k.kl.nodes`prev, k.kl.nodes`next, k.kl.nodes`list
    ensures TwoTasks(k) && k.status == map[0 := Blocked, 1 := Ready]
  {
    hide TwoTasks;
    BlockFirst(k);
    BlockSecond(k);
    WakeOne(k);
  }
}
