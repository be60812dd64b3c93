/** Lists of tasks, and what the scheduler promises about them: which lists a task is in, and in which order. */
module TaskLists {
  type Task = nat
  type WaitId = nat

  const LEVELS: nat := 8

  datatype State = Ready | Blocked

  /** Wait lists are sorted upwards by `Ord` of `Priority`, where a larger value is the lesser one. */
  function Rank(level: nat): int {
    -(level as int)
  }

  // ---------- sequences of tasks ----------

  ghost predicate Distinct(s: seq<Task>) {
    s == [] || (s[0] !in s[1..] && Distinct(s[1..]))
  }

  ghost predicate Ascending(s: seq<Task>, key: map<Task, int>)
    requires forall x :: x in s ==> x in key
  {
    s == [] || ((forall x :: x in s[1..] ==> key[s[0]] <= key[x]) && Ascending(s[1..], key))
  }

  /** Insertion before the first element whose key is not below. */
  function Inserted(s: seq<Task>, t: Task, key: map<Task, int>): seq<Task>
    requires t in key && forall x :: x in s ==> x in key
  {
    if s == [] || key[t] <= key[s[0]] then [t] + s else [s[0]] + Inserted(s[1..], t, key)
  }

  function Dropped(s: seq<Task>, t: Task): seq<Task> {
    if s == [] then [] else if s[0] == t then Dropped(s[1..], t) else [s[0]] + Dropped(s[1..], t)
  }

  lemma {:induction false} InsertedHas(s: seq<Task>, t: Task, key: map<Task, int>, x: Task)
    requires t in key && forall x :: x in s ==> x in key
    ensures x in Inserted(s, t, key) <==> x == t || x in s
  {
    if s != [] && key[t] > key[s[0]] {
      InsertedHas(s[1..], t, key, x);
    }
  }

  lemma {:induction false} InsertedIsDistinct(s: seq<Task>, t: Task, key: map<Task, int>)
    requires t in key && (forall x :: x in s ==> x in key) && Distinct(s) && t !in s
    ensures Distinct(Inserted(s, t, key))
  {
    if s == [] || key[t] <= key[s[0]] {
      assert ([t] + s)[1..] == s;
    } else {
      InsertedIsDistinct(s[1..], t, key);
      InsertedHas(s[1..], t, key, s[0]);
      assert ([s[0]] + Inserted(s[1..], t, key))[1..] == Inserted(s[1..], t, key);
    }
  }

  lemma {:induction false} InsertedIsAscending(s: seq<Task>, t: Task, key: map<Task, int>)
    requires t in key && (forall x :: x in s ==> x in key) && Ascending(s, key)
    ensures forall x :: x in Inserted(s, t, key) ==> x in key
    ensures Ascending(Inserted(s, t, key), key)
  {
    forall x | x in Inserted(s, t, key)
      ensures x in key
    {
      InsertedHas(s, t, key, x);
    }
    if s == [] || key[t] <= key[s[0]] {
      assert ([t] + s)[1..] == s;
      assert forall x :: x in s ==> x in s[1..] || x == s[0];
    } else {
      var rest := Inserted(s[1..], t, key);
      InsertedIsAscending(s[1..], t, key);
      forall x | x in rest
        ensures key[s[0]] <= key[x]
      {
        InsertedHas(s[1..], t, key, x);
      }
      assert ([s[0]] + rest)[1..] == rest;
    }
  }

  lemma {:induction false} DroppedHas(s: seq<Task>, t: Task, x: Task)
    ensures x in Dropped(s, t) <==> x != t && x in s
  {
    if s != [] {
      DroppedHas(s[1..], t, x);
    }
  }

  lemma {:induction false} DroppedIsDistinct(s: seq<Task>, t: Task)
    requires Distinct(s)
    ensures Distinct(Dropped(s, t))
  {
    if s != [] {
      DroppedIsDistinct(s[1..], t);
      DroppedHas(s[1..], t, s[0]);
      assert ([s[0]] + Dropped(s[1..], t))[1..] == Dropped(s[1..], t);
    }
  }

  lemma {:induction false} DroppedIsAscending(s: seq<Task>, t: Task, key: map<Task, int>)
    requires (forall x :: x in s ==> x in key) && Ascending(s, key)
    ensures forall x :: x in Dropped(s, t) ==> x in key
    ensures Ascending(Dropped(s, t), key)
  {
    forall x | x in Dropped(s, t)
      ensures x in key
    {
      DroppedHas(s, t, x);
    }
    if s != [] {
      var rest := Dropped(s[1..], t);
      DroppedIsAscending(s[1..], t, key);
      forall x | x in rest
        ensures key[s[0]] <= key[x]
      {
        DroppedHas(s[1..], t, x);
      }
      assert ([s[0]] + rest)[1..] == rest;
    }
  }

  /** Without its first element, a list without repetitions is what dropping it leaves. */
  lemma {:induction false} DropAbsent(s: seq<Task>, t: Task)
    requires t !in s
    ensures Dropped(s, t) == s
  {
    if s != [] {
      DropAbsent(s[1..], t);
    }
  }

  /** The tasks of a list whose time has not come. */
  function Pending(s: seq<Task>, wakeup: map<Task, int>, now: int): seq<Task>
    requires forall x :: x in s ==> x in wakeup
  {
    if s == [] then []
    else if wakeup[s[0]] > now then [s[0]] + Pending(s[1..], wakeup, now) else Pending(s[1..], wakeup, now)
  }

  lemma {:induction false} PendingHas(s: seq<Task>, wakeup: map<Task, int>, now: int, x: Task)
    requires forall y :: y in s ==> y in wakeup
    ensures x in Pending(s, wakeup, now) <==> x in s && wakeup[x] > now
  {
    if s != [] {
      PendingHas(s[1..], wakeup, now, x);
    }
  }

  lemma {:induction false} DropExpired(s: seq<Task>, t: Task, wakeup: map<Task, int>, now: int)
    requires t in wakeup && wakeup[t] <= now && forall x :: x in s ==> x in wakeup
    ensures forall x :: x in Dropped(s, t) ==> x in wakeup
    ensures Pending(Dropped(s, t), wakeup, now) == Pending(s, wakeup, now)
  {
    forall x | x in Dropped(s, t)
      ensures x in wakeup
    {
      DroppedHas(s, t, x);
    }
    if s != [] {
      DropExpired(s[1..], t, wakeup, now);
      assert ([s[0]] + Dropped(s[1..], t))[1..] == Dropped(s[1..], t);
    }
  }

  lemma {:induction false} NoneExpired(s: seq<Task>, wakeup: map<Task, int>, now: int)
    requires forall x :: x in s ==> x in wakeup && wakeup[x] > now
    ensures Pending(s, wakeup, now) == s
  {
    if s != [] {
      NoneExpired(s[1..], wakeup, now);
    }
  }

  lemma FirstIsLeast(s: seq<Task>, key: map<Task, int>)
    requires s != [] && (forall x :: x in s ==> x in key) && Ascending(s, key)
    ensures forall x :: x in s ==> key[s[0]] <= key[x]
  {
    assert forall x :: x in s ==> x == s[0] || x in s[1..];
  }

  // ---------- which lists a task is in ----------

  /** A task is in the ready ring of its level exactly if it is ready. */
  ghost predicate ReadyOk(prio: map<Task, nat>, status: map<Task, State>, ready: seq<seq<Task>>) {
    && status.Keys == prio.Keys && |ready| == LEVELS
    && (forall t :: t in prio ==> prio[t] < LEVELS)
    && (forall p :: 0 <= p < LEVELS ==> Distinct(ready[p]))
    && (forall p, t :: 0 <= p < LEVELS ==> (t in ready[p] <==> t in prio && prio[t] == p && status[t] == Ready))
  }

  /** A task is in the delay list exactly if it is blocked; the list is in the order of the wake-up times. */
  ghost predicate DelayOk(status: map<Task, State>, delayed: seq<Task>, wakeup: map<Task, int>) {
    && wakeup.Keys == status.Keys && Distinct(delayed)
    && (forall t :: t in delayed <==> t in status && status[t] == Blocked)
    && Ascending(delayed, wakeup)
  }

  /** Only a blocked task is in a wait list, and in one at most. */
  ghost predicate WaitOk(status: map<Task, State>, waits: map<WaitId, seq<Task>>, waitOf: map<Task, WaitId>) {
    && (forall w :: w in waits ==> Distinct(waits[w]))
    && (forall w, t :: w in waits ==> (t in waits[w] <==> t in waitOf && waitOf[t] == w))
    && (forall t :: t in waitOf ==> waitOf[t] in waits && t in status && status[t] == Blocked)
  }

  /** `t` between the elements of `s` at `i`. */
  function Put(s: seq<Task>, i: nat, t: Task): seq<Task>
    requires i <= |s|
  {
    s[..i] + [t] + s[i..]
  }

  lemma {:induction false} PutIsDistinct(s: seq<Task>, i: nat, t: Task)
    requires i <= |s| && Distinct(s) && t !in s
    ensures Distinct(Put(s, i, t)) && forall x :: x in Put(s, i, t) <==> x == t || x in s
  {
    if i == 0 {
      assert Put(s, 0, t) == [t] + s && ([t] + s)[1..] == s;
    } else {
      PutIsDistinct(s[1..], i - 1, t);
      assert Put(s, i, t) == [s[0]] + Put(s[1..], i - 1, t);
      assert ([s[0]] + Put(s[1..], i - 1, t))[1..] == Put(s[1..], i - 1, t);
      assert s == [s[0]] + s[1..];
    }
  }

  /** One task has changed its status, and its ring with it. */
  lemma ReadyWith(prio: map<Task, nat>, status: map<Task, State>, ready: seq<seq<Task>>, t: Task, st: State, r: seq<Task>)
    requires ReadyOk(prio, status, ready) && t in prio && Distinct(r)
    requires forall x :: x in r <==> if x == t then st == Ready else x in ready[prio[t]]
    ensures ReadyOk(prio, status[t := st], ready[prio[t] := r])
  {
    hide Distinct;
    var ready', status' := ready[prio[t] := r], status[t := st];
    forall p, x | 0 <= p < LEVELS
      ensures x in ready'[p] <==> x in prio && prio[x] == p && status'[x] == Ready
    {
      assert x in ready[p] <==> x in prio && prio[x] == p && status[x] == Ready;
    }
  }

  lemma ReadyAfterRelease(prio: map<Task, nat>, status: map<Task, State>, ready: seq<seq<Task>>, t: Task, i: nat)
    requires ReadyOk(prio, status, ready) && t in prio && status[t] == Blocked
    requires i <= |ready[prio[t]]|
    ensures ReadyOk(prio, status[t := Ready], ready[prio[t] := Put(ready[prio[t]], i, t)])
  {
    hide Distinct, Put;
    PutIsDistinct(ready[prio[t]], i, t);
    ReadyWith(prio, status, ready, t, Ready, Put(ready[prio[t]], i, t));
  }

  lemma ReadyAfterBlock(prio: map<Task, nat>, status: map<Task, State>, ready: seq<seq<Task>>, t: Task)
    requires ReadyOk(prio, status, ready) && t in prio
    ensures ReadyOk(prio, status[t := Blocked], ready[prio[t] := Dropped(ready[prio[t]], t)])
  {
    hide Distinct, Dropped;
    var r := ready[prio[t]];
    DroppedIsDistinct(r, t);
    forall x
      ensures x in Dropped(r, t) <==> x != t && x in r
    {
      DroppedHas(r, t, x);
    }
    ReadyWith(prio, status, ready, t, Blocked, Dropped(r, t));
  }

  /** A new task starts ready. */
  lemma ReadyAfterCreate(prio: map<Task, nat>, status: map<Task, State>, ready: seq<seq<Task>>,
                         t: Task, level: nat, i: nat)
    requires ReadyOk(prio, status, ready) && t !in prio && level < LEVELS && i <= |ready[level]|
    ensures ReadyOk(prio[t := level], status[t := Ready], ready[level := Put(ready[level], i, t)])
  {
    hide Distinct, Put;
    PutIsDistinct(ready[level], i, t);
  }

  lemma DelayAfterRelease(status: map<Task, State>, delayed: seq<Task>, wakeup: map<Task, int>, t: Task)
    requires DelayOk(status, delayed, wakeup) && t in status
    ensures DelayOk(status[t := Ready], Dropped(delayed, t), wakeup)
  {
    hide Distinct, Ascending, Dropped;
    DroppedIsDistinct(delayed, t);
    DroppedIsAscending(delayed, t, wakeup);
    forall x
      ensures x in Dropped(delayed, t) <==> x != t && x in delayed
    {
      DroppedHas(delayed, t, x);
    }
  }

  /** The wake-up time is set while the task is in no delay list. */
  lemma {:induction false} OtherKeys(s: seq<Task>, key: map<Task, int>, t: Task, v: int)
    requires (forall x :: x in s ==> x in key) && Ascending(s, key) && t !in s
    ensures Ascending(s, key[t := v])
  {
    if s != [] {
      OtherKeys(s[1..], key, t, v);
    }
  }

  lemma DelayAfterBlock(status: map<Task, State>, delayed: seq<Task>, wakeup: map<Task, int>, t: Task, until: int)
    requires DelayOk(status, delayed, wakeup) && t in status && status[t] == Ready
    ensures DelayOk(status[t := Blocked], Inserted(delayed, t, wakeup[t := until]), wakeup[t := until])
  {
    hide Distinct, Ascending, Inserted;
    var key := wakeup[t := until];
    OtherKeys(delayed, wakeup, t, until);
    InsertedIsDistinct(delayed, t, key);
    InsertedIsAscending(delayed, t, key);
    forall x
      ensures x in Inserted(delayed, t, key) <==> x == t || x in delayed
    {
      InsertedHas(delayed, t, key, x);
    }
  }

  lemma DelayAfterCreate(status: map<Task, State>, delayed: seq<Task>, wakeup: map<Task, int>, t: Task)
    requires DelayOk(status, delayed, wakeup) && t !in status
    ensures DelayOk(status[t := Ready], delayed, wakeup[t := 0])
  {
    hide Distinct, Ascending;
    OtherKeys(delayed, wakeup, t, 0);
  }

  function Unwaited(waits: map<WaitId, seq<Task>>, waitOf: map<Task, WaitId>, t: Task): map<WaitId, seq<Task>> {
    if t in waitOf && waitOf[t] in waits then waits[waitOf[t] := Dropped(waits[waitOf[t]], t)] else waits
  }

  lemma WaitAfterRelease(status: map<Task, State>, waits: map<WaitId, seq<Task>>, waitOf: map<Task, WaitId>, t: Task)
    requires WaitOk(status, waits, waitOf) && t in status
    ensures WaitOk(status[t := Ready], Unwaited(waits, waitOf, t), waitOf - {t})
  {
    hide Distinct, Dropped;
    if t in waitOf {
      var w := waitOf[t];
      DroppedIsDistinct(waits[w], t);
      forall x
        ensures x in Dropped(waits[w], t) <==> x != t && x in waits[w]
      {
        DroppedHas(waits[w], t, x);
      }
    }
  }

  lemma WaitAfterBlock(status: map<Task, State>, waits: map<WaitId, seq<Task>>, waitOf: map<Task, WaitId>,
                       t: Task, w: WaitId, s: seq<Task>)
    requires WaitOk(status, waits, waitOf) && t in status && status[t] == Ready && w in waits
    requires Distinct(s) && forall x :: x in s <==> x == t || x in waits[w]
    ensures WaitOk(status[t := Blocked], waits[w := s], waitOf[t := w])
  {
    hide Distinct;
  }

  lemma WaitAfterCreate(status: map<Task, State>, waits: map<WaitId, seq<Task>>, waitOf: map<Task, WaitId>, t: Task)
    requires WaitOk(status, waits, waitOf) && t !in status
    ensures WaitOk(status[t := Ready], waits, waitOf)
  {
    hide Distinct;
  }

  lemma WaitAfterNewList(status: map<Task, State>, waits: map<WaitId, seq<Task>>, waitOf: map<Task, WaitId>, w: WaitId)
    requires WaitOk(status, waits, waitOf) && w !in waits
    ensures WaitOk(status, waits[w := []], waitOf)
  {
  }

  lemma WaitWithoutWaiting(status: map<Task, State>, waits: map<WaitId, seq<Task>>, waitOf: map<Task, WaitId>, t: Task)
    requires WaitOk(status, waits, waitOf) && t in status
    ensures WaitOk(status[t := Blocked], waits, waitOf)
  {
    hide Distinct;
  }

  ghost predicate WaitersHaveOrder(s: seq<Task>, order: map<Task, int>) {
    forall x :: x in s ==> x in order
  }

  lemma FirstDropped(s: seq<Task>)
    requires s != [] && Distinct(s)
    ensures Dropped(s, s[0]) == s[1..]
  {
    DropAbsent(s[1..], s[0]);
  }

  // ---------- the order of the sorted wait lists ----------

  /** The sorted wait lists are so by the order that the source gives to priorities. */
  ghost predicate SortedOk(waits: map<WaitId, seq<Task>>, sorted: set<WaitId>, order: map<Task, int>) {
    forall w :: w in waits && w in sorted ==> WaitersHaveOrder(waits[w], order) && Ascending(waits[w], order)
  }

  lemma SortedAfterRelease(waits: map<WaitId, seq<Task>>, sorted: set<WaitId>, order: map<Task, int>,
                           waitOf: map<Task, WaitId>, t: Task)
    requires SortedOk(waits, sorted, order)
    ensures SortedOk(Unwaited(waits, waitOf, t), sorted, order)
  {
    hide Ascending, Dropped;
    if t in waitOf && waitOf[t] in waits && waitOf[t] in sorted {
      DroppedIsAscending(waits[waitOf[t]], t, order);
    }
  }

  lemma SortedAfterBlock(waits: map<WaitId, seq<Task>>, sorted: set<WaitId>, order: map<Task, int>, t: Task, w: WaitId)
    requires SortedOk(waits, sorted, order) && t in order && w in waits && w in sorted
    ensures SortedOk(waits[w := Inserted(waits[w], t, order)], sorted, order)
  {
    hide Ascending, Inserted;
    InsertedIsAscending(waits[w], t, order);
  }

  lemma SortedAfterCreate(waits: map<WaitId, seq<Task>>, sorted: set<WaitId>, order: map<Task, int>, t: Task, v: int)
    requires SortedOk(waits, sorted, order) && t !in order
    ensures SortedOk(waits, sorted, order[t := v])
  {
    hide Ascending;
    forall w | w in waits && w in sorted
      ensures Ascending(waits[w], order[t := v])
    {
      OtherKeys(waits[w], order, t, v);
    }
  }

  lemma SortedAfterNewList(waits: map<WaitId, seq<Task>>, sorted: set<WaitId>, order: map<Task, int>, w: WaitId,
                           now: set<WaitId>)
    requires SortedOk(waits, sorted, order) && w !in waits && forall v :: v != w ==> (v in now <==> v in sorted)
    ensures SortedOk(waits[w := []], now, order)
  {
  }

  /** The first waiter of a sorted list has the largest level value, which is the least important one. It has the
      most important level exactly if all waiters have the same. */
  lemma FrontIsLeastImportant(s: seq<Task>, prio: map<Task, nat>, order: map<Task, int>)
    requires s != [] && (forall x :: x in s ==> x in prio && x in order && order[x] == Rank(prio[x])) && Ascending(s, order)
    ensures forall x :: x in s ==> prio[x] <= prio[s[0]]
    ensures (forall x :: x in s ==> prio[s[0]] <= prio[x]) <==> (forall x, y :: x in s && y in s ==> prio[x] == prio[y])
  {
    hide Ascending;
    FirstIsLeast(s, order);
    assert s[0] in s;
  }

  // ---------- the tick ----------

  ghost predicate Timed(s: seq<Task>, wakeup: map<Task, int>) {
    forall t :: t in s ==> t in wakeup
  }

  /** Compared to an earlier state: whoever was blocked and is due may be awake, everybody else is as before, and
      leaving out the due ones from each list gives the same as it gave then. */
  ghost predicate Awake(status: map<Task, State>, delayed: seq<Task>, waits: map<WaitId, seq<Task>>,
                        status0: map<Task, State>, delayed0: seq<Task>, waits0: map<WaitId, seq<Task>>,
                        wakeup: map<Task, int>, now: int) {
    && Timed(delayed, wakeup) && Timed(delayed0, wakeup) && waits.Keys == waits0.Keys
    && (forall w :: w in waits ==> Timed(waits[w], wakeup) && Timed(waits0[w], wakeup))
    && status.Keys == status0.Keys == wakeup.Keys
    && (forall t :: t in status && status[t] != status0[t] ==> status0[t] == Blocked && status[t] == Ready && wakeup[t] <= now)
    && Pending(delayed, wakeup, now) == Pending(delayed0, wakeup, now)
    && (forall w :: w in waits ==> Pending(waits[w], wakeup, now) == Pending(waits0[w], wakeup, now))
  }

  lemma AwakeStep(status: map<Task, State>, delayed: seq<Task>, waits: map<WaitId, seq<Task>>, waitOf: map<Task, WaitId>,
                  status0: map<Task, State>, delayed0: seq<Task>, waits0: map<WaitId, seq<Task>>,
                  wakeup: map<Task, int>, now: int, t: Task)
    requires Awake(status, delayed, waits, status0, delayed0, waits0, wakeup, now)
    requires t in wakeup && wakeup[t] <= now && status[t] == Blocked
    ensures Awake(status[t := Ready], Dropped(delayed, t), Unwaited(waits, waitOf, t), status0, delayed0, waits0, wakeup, now)
  {
    hide Dropped, Pending;
    DropExpired(delayed, t, wakeup, now);
    if t in waitOf && waitOf[t] in waits {
      DropExpired(waits[waitOf[t]], t, wakeup, now);
    }
  }
}
