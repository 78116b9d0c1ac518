/** Cron ticks: the poll loop and the catch-up of missed ticks (scheduler/cron_executor.go, scheduler/catchup.go). */
module Ticks {
  import opened Text

  /** The only thing assumed of a cron expression: the next time is later. */
  type Schedule = f: int -> int | forall t :: f(t) > t witness (t: int) => t + 1

  // ----- The ticks of a schedule -----

  function Iterate(next: Schedule, start: int, n: nat): int
    decreases n
  {
    if n == 0 then start else Iterate(next, next(start), n - 1)
  }

  ghost predicate OnOrbit(next: Schedule, start: int, t: int) {
    exists n :: Iterate(next, start, n) == t
  }

  /** The ticks up to now, the first one at start. */
  function Due(next: Schedule, start: int, now: int): seq<int>
    decreases if start <= now then now - start + 1 else 0
  {
    if start > now then [] else [start] + Due(next, next(start), now)
  }

  /** The first tick after now. */
  function Upcoming(next: Schedule, start: int, now: int): int
    decreases if start <= now then now - start + 1 else 0
  {
    if start > now then start else Upcoming(next, next(start), now)
  }

  predicate Ascending(ticks: seq<int>) {
    forall i, j :: 0 <= i < j < |ticks| ==> ticks[i] < ticks[j]
  }

  lemma {:induction false} DueAscends(next: Schedule, start: int, now: int)
    ensures Ascending(Due(next, start, now))
    ensures forall k :: 0 <= k < |Due(next, start, now)| ==> start <= Due(next, start, now)[k] <= now
    decreases if start <= now then now - start + 1 else 0
  {
    if start <= now {
      DueAscends(next, next(start), now);
    }
  }

  lemma {:induction false} DueIsIterate(next: Schedule, start: int, now: int, k: nat)
    requires k < |Due(next, start, now)|
    ensures Due(next, start, now)[k] == Iterate(next, start, k)
    decreases k
  {
    if k > 0 {
      DueIsIterate(next, next(start), now, k - 1);
    }
  }

  lemma {:induction false} OrbitIsDue(next: Schedule, start: int, now: int, n: nat)
    requires Iterate(next, start, n) <= now
    ensures n < |Due(next, start, now)| && Due(next, start, now)[n] == Iterate(next, start, n)
    decreases n
  {
    OrbitGrows(next, start, n);
    if n > 0 {
      OrbitIsDue(next, next(start), now, n - 1);
    }
  }

  lemma {:induction false} OrbitGrows(next: Schedule, start: int, n: nat)
    ensures start + n <= Iterate(next, start, n)
    decreases n
  {
    if n > 0 {
      OrbitGrows(next, next(start), n - 1);
    }
  }

  /** Due lists each point of the orbit up to now once, in order, and nothing else. */
  lemma DueIsOrbit(next: Schedule, start: int, now: int, t: int)
    ensures Ascending(Due(next, start, now))
    ensures t in Due(next, start, now) <==> OnOrbit(next, start, t) && t <= now
  {
    var due := Due(next, start, now);
    DueAscends(next, start, now);
    if t in due {
      var k :| 0 <= k < |due| && due[k] == t;
      DueIsIterate(next, start, now, k);
    }
    if OnOrbit(next, start, t) && t <= now {
      var n :| Iterate(next, start, n) == t;
      OrbitIsDue(next, start, now, n);
    }
  }

  lemma {:induction false} UpcomingIsFirstAfter(next: Schedule, start: int, now: int)
    ensures Upcoming(next, start, now) > now
    ensures Upcoming(next, start, now) == Iterate(next, start, |Due(next, start, now)|)
    decreases if start <= now then now - start + 1 else 0
  {
    if start <= now {
      UpcomingIsFirstAfter(next, next(start), now);
    }
  }

  function Later(a: int, b: int): int {
    if a < b then b else a
  }

  /** Polling twice does what polling once at the later time does, also when the clock went backwards. */
  lemma {:induction false} PollsCompose(next: Schedule, start: int, t1: int, t2: int)
    ensures Due(next, start, t1) + Due(next, Upcoming(next, start, t1), t2) == Due(next, start, Later(t1, t2))
    ensures Upcoming(next, Upcoming(next, start, t1), t2) == Upcoming(next, start, Later(t1, t2))
    decreases if start <= t1 then t1 - start + 1 else 0
  {
    if start <= t1 {
      PollsCompose(next, next(start), t1, t2);
    } else if t2 < t1 {
      assert Due(next, start, t2) == [];
    }
  }

  // ----- The poll loop -----

  class CronEntry {
    const schedule: Schedule
    var next: int

    /** The first tick is the one after registration. */
    constructor (schedule: Schedule, now: int)
      ensures this.schedule == schedule && next == schedule(now) && next > now
    {
      this.schedule := schedule;
      next := schedule(now);
    }
  }

  /** What a cron entry belongs to: a registered DAG or a schedule added at run time. */
  datatype Owner = Dag(name: string) | Runtime(id: string)

  /** DAGs without a cron trigger have no entry; whether an owner is enabled counts for runtime schedules only. */
  datatype Slot = Slot(enabled: bool, cron: CronEntry?)

  predicate Active(owner: Owner, slot: Slot) {
    slot.cron != null && (owner.Runtime? ==> slot.enabled)
  }

  datatype Fire = Fire(owner: Owner, tick: int)

  function Fires(owner: Owner, ticks: seq<int>): seq<Fire> {
    seq(|ticks|, k requires 0 <= k < |ticks| => Fire(owner, ticks[k]))
  }

  /** The ticks fired for one owner, in order. */
  function TicksOf(fires: seq<Fire>, owner: Owner): seq<int> {
    if fires == [] then []
    else
      var last := fires[|fires| - 1];
      TicksOf(fires[..|fires| - 1], owner) + if last.owner == owner then [last.tick] else []
  }

  lemma {:induction false} TicksOfAppend(a: seq<Fire>, b: seq<Fire>, owner: Owner)
    ensures TicksOf(a + b, owner) == TicksOf(a, owner) + TicksOf(b, owner)
  {
    if b == [] {
      assert a + b == a;
    } else {
      assert (a + b)[..|a + b| - 1] == a + b[..|b| - 1];
      TicksOfAppend(a, b[..|b| - 1], owner);
    }
  }

  lemma FiresInit(owner: Owner, ticks: seq<int>)
    requires ticks != []
    ensures Fires(owner, ticks)[..|ticks| - 1] == Fires(owner, ticks[..|ticks| - 1])
    ensures Fires(owner, ticks)[|ticks| - 1] == Fire(owner, ticks[|ticks| - 1])
  {
  }

  lemma {:induction false} TicksOfFires(owner: Owner, ticks: seq<int>, other: Owner)
    ensures TicksOf(Fires(owner, ticks), other) == if owner == other then ticks else []
    decreases |ticks|
  {
    if ticks != [] {
      TicksOfFires(owner, ticks[..|ticks| - 1], other);
      FiresInit(owner, ticks);
      assert ticks[..|ticks| - 1] + [ticks[|ticks| - 1]] == ticks;
    }
  }

  /** What is still to be fired for this entry completes what is due. */
  ghost predicate Remaining(schedule: Schedule, owner: Owner, now: int,
      start: int, before: seq<Fire>, next: int, fires: seq<Fire>)
  {
    && fires + Fires(owner, Due(schedule, next, now)) == before + Fires(owner, Due(schedule, start, now))
    && Upcoming(schedule, next, now) == Upcoming(schedule, start, now)
  }

  lemma FireOne(schedule: Schedule, owner: Owner, now: int, start: int, before: seq<Fire>, next: int, fires: seq<Fire>)
    requires Remaining(schedule, owner, now, start, before, next, fires) && next <= now
    ensures Remaining(schedule, owner, now, start, before, schedule(next), fires + [Fire(owner, next)])
  {
    FiresCons(owner, next, Due(schedule, schedule(next), now));
    Reassociate(fires, Fire(owner, next), Fires(owner, Due(schedule, schedule(next), now)));
  }

  lemma FiresCons(owner: Owner, tick: int, ticks: seq<int>)
    ensures Fires(owner, [tick] + ticks) == [Fire(owner, tick)] + Fires(owner, ticks)
  {
    assert forall k :: 0 < k < |ticks| + 1 ==> ([tick] + ticks)[k] == ticks[k - 1];
  }

  lemma Reassociate(a: seq<Fire>, x: Fire, b: seq<Fire>)
    ensures a + ([x] + b) == (a + [x]) + b
  {
  }

  method FireEntry(ce: CronEntry, owner: Owner, before: seq<Fire>, now: int) returns (fires: seq<Fire>)
    modifies ce
    ensures ce.next == Upcoming(ce.schedule, old(ce.next), now)
    ensures fires == before + Fires(owner, Due(ce.schedule, old(ce.next), now))
  {
    fires := before;
    ghost var start := ce.next;
    while ce.next <= now
      invariant Remaining(ce.schedule, owner, now, start, before, ce.next, fires)
      decreases now - ce.next
    {
      FireOne(ce.schedule, owner, now, start, before, ce.next, fires);
      fires := fires + [Fire(owner, ce.next)];
      ce.next := ce.schedule(ce.next);
    }
  }

  // ----- All entries -----

  type Slots = map<Owner, Slot>

  /** No two owners share an entry. */
  ghost predicate Separate(slots: Slots) {
    forall k, m :: k in slots && m in slots && k != m && slots[k].cron != null ==> slots[k].cron != slots[m].cron
  }

  ghost function Entries(slots: Slots): set<CronEntry> {
    set k | k in slots && slots[k].cron != null :: slots[k].cron
  }

  ghost function Nexts(slots: Slots): map<Owner, int>
    reads Entries(slots)
  {
    map k | k in slots && slots[k].cron != null :: slots[k].cron.next
  }

  ghost function TimesAfter(slots: Slots, nexts: map<Owner, int>, done: set<Owner>, now: int): map<Owner, int> {
    map k | k in nexts :: NextAfter(slots, nexts[k], k, done, now)
  }

  ghost function NextAfter(slots: Slots, next: int, k: Owner, done: set<Owner>, now: int): int {
    if k in done && k in slots && Active(k, slots[k]) then Upcoming(slots[k].cron.schedule, next, now) else next
  }

  ghost function TicksDue(slots: Slots, nexts: map<Owner, int>, k: Owner, done: set<Owner>, now: int): seq<int> {
    if k in done && k in slots && Active(k, slots[k]) && k in nexts then Due(slots[k].cron.schedule, nexts[k], now) else []
  }

  ghost predicate FiredDue(slots: Slots, nexts: map<Owner, int>, done: set<Owner>, now: int,
      before: seq<Fire>, fires: seq<Fire>)
  {
    forall k :: TicksOf(fires, k) == TicksOf(before, k) + TicksDue(slots, nexts, k, done, now)
  }

  lemma FiredOneMore(slots: Slots, nexts: map<Owner, int>, done: set<Owner>, now: int, before: seq<Fire>,
      fires: seq<Fire>, o: Owner)
    requires FiredDue(slots, nexts, done, now, before, fires) && o !in done
    ensures FiredDue(slots, nexts, done + {o}, now, before, fires + Fires(o, TicksDue(slots, nexts, o, {o}, now)))
  {
    forall k
      ensures TicksOf(fires + Fires(o, TicksDue(slots, nexts, o, {o}, now)), k) ==
        TicksOf(before, k) + TicksDue(slots, nexts, k, done + {o}, now)
    {
      DueOneMore(slots, nexts, k, done, o, now);
      AddTicks(fires, o, TicksDue(slots, nexts, o, {o}, now), k, TicksOf(before, k),
        TicksDue(slots, nexts, k, done, now));
    }
  }

  lemma AddTicks(fires: seq<Fire>, o: Owner, due: seq<int>, k: Owner, a: seq<int>, b: seq<int>)
    requires TicksOf(fires, k) == a + b
    ensures TicksOf(fires + Fires(o, due), k) == a + (b + if k == o then due else [])
  {
    TicksOfAppend(fires, Fires(o, due), k);
    TicksOfFires(o, due, k);
  }

  lemma DueOneMore(slots: Slots, nexts: map<Owner, int>, k: Owner, done: set<Owner>, o: Owner, now: int)
    requires o !in done
    ensures TicksDue(slots, nexts, k, done + {o}, now) ==
      TicksDue(slots, nexts, k, done, now) + if k == o then TicksDue(slots, nexts, o, {o}, now) else []
  {
  }

  /** One owner's entry fires, all other entries keep their time. */
  method FireSlot(slots: Slots, o: Owner, before: seq<Fire>, now: int) returns (fires: seq<Fire>)
    requires Separate(slots) && o in slots
    modifies Entries(slots)
    ensures Nexts(slots) == TimesAfter(slots, old(Nexts(slots)), {o}, now)
    ensures fires == before + Fires(o, TicksDue(slots, old(Nexts(slots)), o, {o}, now))
  {
    ghost var nexts := Nexts(slots);
    if Active(o, slots[o]) {
      var ce := slots[o].cron;
      assert ce in Entries(slots) && nexts[o] == ce.next;
      fires := FireEntry(ce, o, before, now);
      assert slots[o].cron.next == NextAfter(slots, nexts[o], o, {o}, now);
      forall k | k in nexts && k != o
        ensures slots[k].cron.next == nexts[k]
      {
        assert slots[k].cron != ce;
      }
    } else {
      fires := before;
      assert TicksDue(slots, nexts, o, {o}, now) == [];
    }
    OneTimeMoved(slots, nexts, Nexts(slots), o, now);
  }

  lemma OneTimeMoved(slots: Slots, nexts: map<Owner, int>, nexts': map<Owner, int>, o: Owner, now: int)
    requires nexts'.Keys == nexts.Keys
    requires forall k :: k in nexts && k != o ==> nexts'[k] == nexts[k]
    requires o in nexts ==> nexts'[o] == NextAfter(slots, nexts[o], o, {o}, now)
    ensures nexts' == TimesAfter(slots, nexts, {o}, now)
  {
  }

  lemma TimesCompose(slots: Slots, nexts: map<Owner, int>, done: set<Owner>, o: Owner, now: int)
    requires o !in done
    ensures TimesAfter(slots, TimesAfter(slots, nexts, done, now), {o}, now) == TimesAfter(slots, nexts, done + {o}, now)
    ensures TicksDue(slots, TimesAfter(slots, nexts, done, now), o, {o}, now) == TicksDue(slots, nexts, o, {o}, now)
  {
  }

  method FireSlots(slots: Slots, before: seq<Fire>, now: int) returns (fires: seq<Fire>)
    requires Separate(slots)
    modifies Entries(slots)
    ensures Nexts(slots) == TimesAfter(slots, old(Nexts(slots)), slots.Keys, now)
    ensures FiredDue(slots, old(Nexts(slots)), slots.Keys, now, before, fires)
  {
    fires := before;
    ghost var nexts := Nexts(slots);
    var left := slots.Keys;
    while left != {}
      invariant left <= slots.Keys
      invariant Nexts(slots) == TimesAfter(slots, nexts, slots.Keys - left, now)
      invariant FiredDue(slots, nexts, slots.Keys - left, now, before, fires)
      decreases |left|
    {
      var o :| o in left;
      ghost var done := slots.Keys - left;
      ghost var soFar := fires;
      TimesCompose(slots, nexts, done, o, now);
      FiredOneMore(slots, nexts, done, now, before, fires, o);
      fires := FireSlot(slots, o, fires, now);
      left := left - {o};
      assert slots.Keys - left == done + {o};
    }
    assert slots.Keys - left == slots.Keys;
  }

  // ----- Runs of polls -----

  function Latest(polls: seq<int>): (t: int)
    requires polls != []
    ensures t in polls && forall p :: p in polls ==> p <= t
  {
    if |polls| == 1 then polls[0]
    else
      assert polls == polls[..|polls| - 1] + [polls[|polls| - 1]];
      Later(Latest(polls[..|polls| - 1]), polls[|polls| - 1])
  }

  /** Each active entry fired exactly the ticks from its old time up to now, and waits for the first one after. */
  ghost predicate CaughtUp(slots: Slots, nexts: map<Owner, int>, nexts': map<Owner, int>, now: int, fires: seq<Fire>) {
    nexts' == TimesAfter(slots, nexts, slots.Keys, now) && FiredDue(slots, nexts, slots.Keys, now, [], fires)
  }

  /** The points of the orbit up to now, each once and in order, and the first one after. */
  ghost predicate FiredOrbit(next: Schedule, start: int, now: int, ticks: seq<int>, upcoming: int) {
    && Ascending(ticks)
    && (forall t :: t in ticks <==> OnOrbit(next, start, t) && t <= now)
    && upcoming > now && OnOrbit(next, start, upcoming)
    && forall t :: OnOrbit(next, start, t) && t > now ==> t >= upcoming
  }

  lemma {:induction false} IterateFrom(next: Schedule, start: int, m: nat, n: nat)
    requires m <= n
    ensures Iterate(next, start, m) <= Iterate(next, start, n)
    decreases n
  {
    if m > 0 {
      IterateFrom(next, next(start), m - 1, n - 1);
    } else {
      OrbitGrows(next, start, n);
    }
  }

  lemma DueIsFiredOrbit(next: Schedule, start: int, now: int)
    ensures FiredOrbit(next, start, now, Due(next, start, now), Upcoming(next, start, now))
  {
    DueAscends(next, start, now);
    UpcomingIsFirstAfter(next, start, now);
    forall t
      ensures t in Due(next, start, now) <==> OnOrbit(next, start, t) && t <= now
    {
      DueIsOrbit(next, start, now, t);
    }
    forall t | OnOrbit(next, start, t) && t > now
      ensures t >= Upcoming(next, start, now)
    {
      UpcomingIsLeast(next, start, now, t);
    }
  }

  lemma UpcomingIsLeast(next: Schedule, start: int, now: int, t: int)
    requires OnOrbit(next, start, t) && t > now
    ensures t >= Upcoming(next, start, now)
  {
    var n: nat :| Iterate(next, start, n) == t;
    var m := |Due(next, start, now)|;
    UpcomingIsFirstAfter(next, start, now);
    if n < m {
      DueIsIterate(next, start, now, n);
      DueAscends(next, start, now);
    } else {
      IterateFrom(next, start, m, n);
    }
  }

  lemma TicksCaughtUp(slots: Slots, nexts: map<Owner, int>, nexts': map<Owner, int>, now: int, fires: seq<Fire>,
      k: Owner)
    requires CaughtUp(slots, nexts, nexts', now, fires)
    ensures TicksOf(fires, k) == TicksDue(slots, nexts, k, slots.Keys, now)
  {
    DropEmpty(TicksDue(slots, nexts, k, slots.Keys, now));
    assert TicksOf(fires, k) == TicksOf([], k) + TicksDue(slots, nexts, k, slots.Keys, now);
  }

  /** That is, for each owner: the entry of a DAG, or of an enabled runtime schedule, has fired its orbit up to now; a
      disabled one has fired nothing and stays as it is, and owners without an entry have nothing to fire. */
  lemma CaughtUpMeans(slots: Slots, nexts: map<Owner, int>, nexts': map<Owner, int>, now: int, fires: seq<Fire>,
      k: Owner)
    requires CaughtUp(slots, nexts, nexts', now, fires)
    requires k in nexts <==> k in slots && slots[k].cron != null
    ensures k in nexts' <==> k in nexts
    ensures k in nexts && (k.Dag? || slots[k].enabled) ==>
      FiredOrbit(slots[k].cron.schedule, nexts[k], now, TicksOf(fires, k), nexts'[k])
    ensures k in nexts && k.Runtime? && !slots[k].enabled ==> TicksOf(fires, k) == [] && nexts'[k] == nexts[k]
    ensures k !in nexts ==> TicksOf(fires, k) == []
  {
    TicksCaughtUp(slots, nexts, nexts', now, fires, k);
    if k in nexts {
      DueIsFiredOrbit(slots[k].cron.schedule, nexts[k], now);
    }
  }

  lemma CaughtUpTwice(slots: Slots, a: map<Owner, int>, b: map<Owner, int>, c: map<Owner, int>, t1: int, t2: int,
      fires: seq<Fire>, more: seq<Fire>)
    requires CaughtUp(slots, a, b, t1, fires) && CaughtUp(slots, b, c, t2, more)
    ensures CaughtUp(slots, a, c, Later(t1, t2), fires + more)
  {
    TimesTwice(slots, a, t1, t2);
    forall k
      ensures TicksOf(fires + more, k) == TicksOf([], k) + TicksDue(slots, a, k, slots.Keys, Later(t1, t2))
    {
      FiredTwiceAt(slots, a, b, t1, t2, fires, more, k);
    }
  }

  lemma FiredTwiceAt(slots: Slots, a: map<Owner, int>, b: map<Owner, int>, t1: int, t2: int,
      fires: seq<Fire>, more: seq<Fire>, k: Owner)
    requires b == TimesAfter(slots, a, slots.Keys, t1)
    requires TicksOf(fires, k) == TicksOf([], k) + TicksDue(slots, a, k, slots.Keys, t1)
    requires TicksOf(more, k) == TicksOf([], k) + TicksDue(slots, b, k, slots.Keys, t2)
    ensures TicksOf(fires + more, k) == TicksOf([], k) + TicksDue(slots, a, k, slots.Keys, Later(t1, t2))
  {
    TicksOfAppend(fires, more, k);
    TicksTwice(slots, a, k, t1, t2);
    DropEmpty(TicksDue(slots, a, k, slots.Keys, t1));
    DropEmpty(TicksDue(slots, b, k, slots.Keys, t2));
    DropEmpty(TicksDue(slots, a, k, slots.Keys, Later(t1, t2)));
  }

  lemma DropEmpty(ticks: seq<int>)
    ensures [] + ticks == ticks
  {
  }

  lemma TimesTwice(slots: Slots, a: map<Owner, int>, t1: int, t2: int)
    ensures TimesAfter(slots, TimesAfter(slots, a, slots.Keys, t1), slots.Keys, t2) ==
      TimesAfter(slots, a, slots.Keys, Later(t1, t2))
  {
    forall k | k in a
      ensures NextAfter(slots, NextAfter(slots, a[k], k, slots.Keys, t1), k, slots.Keys, t2) ==
        NextAfter(slots, a[k], k, slots.Keys, Later(t1, t2))
    {
      NextTwice(slots, a[k], k, t1, t2);
    }
  }

  lemma TicksTwice(slots: Slots, a: map<Owner, int>, k: Owner, t1: int, t2: int)
    ensures TicksDue(slots, a, k, slots.Keys, t1) +
      TicksDue(slots, TimesAfter(slots, a, slots.Keys, t1), k, slots.Keys, t2) ==
      TicksDue(slots, a, k, slots.Keys, Later(t1, t2))
  {
    if k in slots && Active(k, slots[k]) && k in a {
      PollsCompose(slots[k].cron.schedule, a[k], t1, t2);
    }
  }

  lemma NextTwice(slots: Slots, next: int, k: Owner, t1: int, t2: int)
    ensures NextAfter(slots, NextAfter(slots, next, k, slots.Keys, t1), k, slots.Keys, t2) ==
      NextAfter(slots, next, k, slots.Keys, Later(t1, t2))
  {
    if k in slots && Active(k, slots[k]) {
      PollsCompose(slots[k].cron.schedule, next, t1, t2);
    }
  }

  class CronScheduler {
    var slots: Slots
    var catchupDone: set<string>

    constructor ()
      ensures slots == map[] && catchupDone == {}
    {
      slots := map[];
      catchupDone := {};
    }

    method FireDueCronEntries(now: int) returns (fires: seq<Fire>)
      requires Separate(slots)
      modifies Entries(slots)
      ensures slots == old(slots)
      ensures CaughtUp(slots, old(Nexts(slots)), Nexts(slots), now, fires)
    {
      fires := FireSlots(slots, [], now);
    }

    /** However often and at whatever times the loop polls, it fires what one poll at the latest time would. */
    method Poll(polls: seq<int>) returns (fires: seq<Fire>)
      requires Separate(slots) && polls != []
      modifies Entries(slots)
      ensures slots == old(slots)
      ensures CaughtUp(slots, old(Nexts(slots)), Nexts(slots), Latest(polls), fires)
    {
      fires := FireDueCronEntries(polls[0]);
      ghost var start := old(Nexts(slots));
      for i := 1 to |polls|
        invariant slots == old(slots)
        invariant CaughtUp(slots, start, Nexts(slots), Latest(polls[..i]), fires)
      {
        ghost var middle := Nexts(slots);
        ghost var soFar := fires;
        assert polls[..i + 1][..i] == polls[..i];
        var more := FireDueCronEntries(polls[i]);
        CaughtUpTwice(slots, start, middle, Nexts(slots), Latest(polls[..i]), polls[i], soFar, more);
        fires := fires + more;
      }
      assert polls[..|polls|] == polls;
    }

    /** True for the first call with this name only. */
    method CatchupOnce(name: string) returns (first: bool)
      modifies this`catchupDone
      ensures first <==> name !in old(catchupDone)
      ensures catchupDone == old(catchupDone) + {name}
    {
      if name in catchupDone {
        first := false;
      } else {
        catchupDone := catchupDone + {name};
        first := true;
      }
    }
  }

  // ----- Catch-up of missed ticks -----

  /** The ticks after the end of the last run, up to now. */
  function Missed(schedule: Schedule, lastEnd: int, now: int): seq<int> {
    Due(schedule, schedule(lastEnd), now)
  }

  lemma CollectOne(next: Schedule, all: seq<int>, t: int, now: int, missed: seq<int>)
    requires t <= now && all + Due(next, t, now) == missed
    ensures (all + [t]) + Due(next, next(t), now) == missed
    ensures |all| < |missed| && missed[..|all|] == all
  {
  }

  /** The ticks from t up to now; with a positive limit, no more than that many. */
  method CollectTicks(next: Schedule, start: int, now: int, mode: string, limit: int)
      returns (all: seq<int>, truncated: bool)
    ensures truncated <==> mode == "all" && 0 < limit < |Due(next, start, now)|
    ensures all == if truncated then Due(next, start, now)[..limit] else Due(next, start, now)
  {
    ghost var missed := Due(next, start, now);
    all := [];
    var t := start;
    while t <= now
      invariant all + Due(next, t, now) == missed
      invariant mode == "all" && limit > 0 ==> |all| <= limit
      decreases now - t
    {
      CollectOne(next, all, t, now, missed);
      if mode == "all" && limit > 0 && |all + [t]| > limit {
        return (all + [t])[..limit], true;
      }
      all := all + [t];
      t := next(t);
    }
    truncated := false;
  }

  /** A nil schedule is None, and so is the zero time of a DAG without an anchor. */
  method MissedTicks(schedule: Option<Schedule>, lastEnd: Option<int>, now: int, mode: string, limit: int)
      returns (ticks: seq<int>, truncated: bool)
    ensures (schedule.None? || lastEnd.None? || mode !in ["once", "all"]) ==> ticks == [] && !truncated
    ensures (schedule.Some? && lastEnd.Some? && mode == "once") ==>
      var missed := Missed(schedule.value, lastEnd.value, now);
      !truncated && ticks == if missed == [] then [] else [missed[|missed| - 1]]
    ensures (schedule.Some? && lastEnd.Some? && mode == "all") ==>
      var missed := Missed(schedule.value, lastEnd.value, now);
      (truncated <==> 0 < limit < |missed|) && ticks == if 0 < limit < |missed| then missed[..limit] else missed
  {
    if schedule.None? || lastEnd.None? {
      return [], false;
    }
    if mode != "once" && mode != "all" {
      return [], false;
    }
    var all;
    all, truncated := CollectTicks(schedule.value, schedule.value(lastEnd.value), now, mode, limit);
    if |all| == 0 {
      return [], false;
    }
    if mode == "once" {
      return all[|all| - 1..], false;
    }
    ticks := all;
  }

  /** Missed ticks are the ascending orbit points after the last run's end, up to now. */
  lemma MissedIsOrbit(schedule: Schedule, lastEnd: int, now: int, t: int)
    ensures Ascending(Missed(schedule, lastEnd, now))
    ensures t in Missed(schedule, lastEnd, now) <==> OnOrbit(schedule, schedule(lastEnd), t) && lastEnd < t <= now
  {
    DueAscends(schedule, schedule(lastEnd), now);
    DueIsOrbit(schedule, schedule(lastEnd), now, t);
    if OnOrbit(schedule, schedule(lastEnd), t) {
      var n :| Iterate(schedule, schedule(lastEnd), n) == t;
      OrbitGrows(schedule, schedule(lastEnd), n);
    }
  }
}
