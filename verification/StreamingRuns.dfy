/** The registry of streaming-probe runs: reference counts, cancellation tombstones and eviction of idle
    runs. A run's context is known by its number; `cancelled` are the contexts cancelled so far. */
module StreamingRuns {
  import opened Collections

  const RETENTION := 15 * 60
  const CAPACITY := 64

  datatype Run = Run(ctx: nat, active: int, touched: int)

  type Items = map<string, Run>

  /** `held` are the acquisitions outstanding and `peak` the most runs that were ever active at once. */
  datatype State = State(items: Items, cancelled: set<nat>, next: nat, held: multiset<(string, nat)>, peak: nat)

  const START := State(map[], {}, 0, multiset{}, 0)

  /** The eviction that a full registry makes is part of the event: `victim` is the idle run it picks. */
  datatype Event =
    | Acquire(id: string, now: int, victim: Option<string>)
    | Release(id: string, ctx: nat, now: int)
    | Cancel(id: string, now: int, victim: Option<string>)

  predicate IsStale(run: Run, now: int) {
    run.active == 0 && now - run.touched > RETENTION
  }

  function Recent(items: Items, now: int): Items {
    map k | k in items && !IsStale(items[k], now) :: items[k]
  }

  ghost function Contexts(items: Items): set<nat> {
    set k | k in items :: items[k].ctx
  }

  ghost function ActiveKeys(items: Items): set<string> {
    set k | k in items && items[k].active > 0
  }

  /** An idle run that no idle run has been untouched for longer than. */
  ghost predicate IsOldestIdle(items: Items, key: string) {
    key in items && items[key].active == 0 &&
    forall k :: k in items && items[k].active == 0 ==> items[key].touched <= items[k].touched
  }

  /** A victim is picked exactly when a run has to be added to a full registry that has an idle run. */
  ghost predicate IsVictim(items: Items, id: string, victim: Option<string>) {
    if id in items || |items| < CAPACITY then victim.None?
    else match victim
      case None => forall k :: k in items ==> items[k].active != 0
      case Some(v) => IsOldestIdle(items, v)
  }

  function Without(items: Items, victim: Option<string>): Items {
    if victim.Some? then items - {victim.value} else items
  }

  /** The new run, if one is needed, joins the survivors. */
  function Placed(kept: Items, id: string, ctx: nat, now: int): Items {
    if id in kept then kept else kept[id := Run(ctx, 0, now)]
  }

  function NextContext(kept: Items, id: string, next: nat): nat {
    if id in kept then next else next + 1
  }

  /** The run of `id`, found or created, with everything that is evicted on the way. */
  ghost function Located(s: State, id: string, now: int, victim: Option<string>): State {
    var kept := Without(Recent(s.items, now), victim);
    s.(items := Placed(kept, id, s.next, now), next := NextContext(kept, id, s.next),
       cancelled := s.cancelled + (Contexts(s.items) - Contexts(kept)))
  }

  function Max(a: nat, b: nat): nat {
    if a < b then b else a
  }

  /** A release changes its own run, which would be out of reach once another run had taken its place. */
  function Released(items: Items, id: string, ctx: nat, now: int): Items {
    if id in items && items[id].ctx == ctx
    then items[id := items[id].(active := items[id].active - 1, touched := now)]
    else items
  }

  ghost function Acquired(l: State, id: string): State
    requires id in l.items
  {
    var items := l.items[id := l.items[id].(active := l.items[id].active + 1)];
    l.(items := items, held := l.held + multiset{(id, l.items[id].ctx)}, peak := Max(l.peak, |ActiveKeys(items)|))
  }

  function Tombstoned(l: State, id: string, now: int): State
    requires id in l.items
  {
    l.(items := l.items[id := l.items[id].(touched := now)], cancelled := l.cancelled + {l.items[id].ctx})
  }

  ghost predicate Enabled(s: State, e: Event) {
    match e
    case Acquire(id, now, victim) => id != "" && IsVictim(Recent(s.items, now), id, victim)
    case Release(id, ctx, _) => (id, ctx) in s.held
    case Cancel(id, now, victim) => id != "" && IsVictim(Recent(s.items, now), id, victim)
  }

  ghost function Next(s: State, e: Event): State
    requires Enabled(s, e)
  {
    match e
    case Acquire(id, now, victim) => Acquired(Located(s, id, now, victim), id)
    case Release(id, ctx, now) =>
      s.(items := Released(s.items, id, ctx, now), held := s.held - multiset{(id, ctx)})
    case Cancel(id, now, victim) => Tombstoned(Located(s, id, now, victim), id, now)
  }

  // ---------- the invariant ----------

  ghost predicate DistinctContexts(items: Items) {
    forall a, b :: a in items && b in items && a != b ==> items[a].ctx != items[b].ctx
  }

  /** Each run has as many users as there are acquisitions outstanding, and an acquired run is registered. */
  ghost predicate Counted(items: Items, held: multiset<(string, nat)>) {
    (forall k :: k in items ==> items[k].active == held[(k, items[k].ctx)]) &&
    forall h :: h in held ==> h.0 in items && items[h.0].ctx == h.1
  }

  /** A context that is not registered any more has been cancelled. */
  ghost predicate GoneAreCancelled(items: Items, cancelled: set<nat>, next: nat) {
    forall c: nat :: c < next ==> c in cancelled || c in Contexts(items)
  }

  ghost predicate Bounded(items: Items, peak: nat) {
    |ActiveKeys(items)| <= peak && |items| <= Max(CAPACITY, 1 + peak)
  }

  /** Every context handed out is that of one registered run or has been cancelled. */
  ghost predicate Accounted(items: Items, cancelled: set<nat>, next: nat) {
    DistinctContexts(items) && (forall k :: k in items ==> items[k].ctx < next) &&
    GoneAreCancelled(items, cancelled, next)
  }

  ghost predicate Inv(s: State) {
    Accounted(s.items, s.cancelled, s.next) && Counted(s.items, s.held) && Bounded(s.items, s.peak)
  }

  lemma EvictionKeepsCounted(items: Items, held: multiset<(string, nat)>, kept: Items)
    requires Counted(items, held) && forall k :: k in kept ==> k in items && kept[k] == items[k]
    requires forall k :: k in items && k !in kept ==> items[k].active == 0
    ensures Counted(kept, held)
  {
  }

  lemma SmallerMap(items: Items, kept: Items)
    requires forall k :: k in kept ==> k in items && kept[k] == items[k]
    requires forall k :: k in items && k !in kept ==> items[k].active == 0
    ensures |kept| <= |items| && ActiveKeys(kept) == ActiveKeys(items)
  {
    SubsetSize(kept.Keys, items.Keys);
    assert |kept| == |kept.Keys| && |items| == |items.Keys|;
    forall k | k in ActiveKeys(items)
      ensures k in ActiveKeys(kept)
    {
    }
  }

  /** What the sweep and the eviction leave. */
  ghost predicate Survivors(items: Items, kept: Items) {
    (forall k :: k in kept ==> k in items && kept[k] == items[k]) &&
    forall k :: k in items && k !in kept ==> items[k].active == 0
  }

  lemma KeptSurvive(s: State, id: string, now: int, victim: Option<string>)
    requires IsVictim(Recent(s.items, now), id, victim)
    ensures Survivors(s.items, Without(Recent(s.items, now), victim))
    ensures id in Recent(s.items, now) ==> id in Without(Recent(s.items, now), victim)
  {
  }

  lemma AllActive(items: Items, kept: Items)
    requires Survivors(items, kept) && forall k :: k in kept ==> kept[k].active > 0
    ensures |kept| <= |ActiveKeys(items)|
  {
    SmallerMap(items, kept);
    assert ActiveKeys(kept) == kept.Keys;
  }

  /** Where a run has to be added there is room for it: the registry is below its capacity, or every run in
      it is active. */
  lemma RoomForOne(s: State, id: string, now: int, victim: Option<string>)
    requires Inv(s) && IsVictim(Recent(s.items, now), id, victim)
    ensures var kept := Without(Recent(s.items, now), victim);
            |kept| <= Max(CAPACITY, 1 + s.peak) && (id !in kept ==> |kept| + 1 <= Max(CAPACITY, 1 + s.peak))
  {
    var recent := Recent(s.items, now);
    var kept := Without(recent, victim);
    KeptSurvive(s, id, now, victim);
    SmallerMap(s.items, kept);
    SmallerMap(s.items, recent);
    if id !in recent && |recent| >= CAPACITY {
      if victim.Some? {
        assert |kept.Keys| == |recent.Keys - {victim.value}|;
      } else {
        AllActive(s.items, recent);
      }
    }
  }

  lemma PlacedKeepsContexts(items: Items, kept: Items, id: string, next: nat, now: int)
    requires Survivors(items, kept) && DistinctContexts(items) && forall k :: k in items ==> items[k].ctx < next
    ensures DistinctContexts(Placed(kept, id, next, now))
    ensures forall k :: k in Placed(kept, id, next, now) ==>
              Placed(kept, id, next, now)[k].ctx < NextContext(kept, id, next)
  {
  }

  lemma PlacedKeepsCounted(items: Items, kept: Items, held: multiset<(string, nat)>, id: string, next: nat, now: int)
    requires Survivors(items, kept) && Counted(items, held) && forall k :: k in items ==> items[k].ctx < next
    ensures Counted(Placed(kept, id, next, now), held)
  {
    EvictionKeepsCounted(items, held, kept);
    assert held[(id, next)] == 0;
  }

  lemma PlacedKeepsGone(items: Items, kept: Items, cancelled: set<nat>, id: string, next: nat, now: int)
    requires Survivors(items, kept) && GoneAreCancelled(items, cancelled, next)
    ensures GoneAreCancelled(Placed(kept, id, next, now), cancelled + (Contexts(items) - Contexts(kept)),
                             NextContext(kept, id, next))
  {
    var placed := Placed(kept, id, next, now);
    forall c: nat | c < NextContext(kept, id, next) && (c == next || c in Contexts(kept))
      ensures c in Contexts(placed)
    {
      if c == next && id !in kept {
        assert placed[id].ctx == c;
      } else {
        var k :| k in kept && kept[k].ctx == c;
        assert placed[k].ctx == c;
      }
    }
  }

  lemma PlacedKeepsBounded(items: Items, kept: Items, id: string, next: nat, now: int, peak: nat)
    requires Survivors(items, kept) && Bounded(items, peak)
    requires id !in kept ==> |kept| + 1 <= Max(CAPACITY, 1 + peak)
    ensures Bounded(Placed(kept, id, next, now), peak)
  {
    var placed := Placed(kept, id, next, now);
    SmallerMap(items, kept);
    assert ActiveKeys(placed) == ActiveKeys(kept);
    if id !in kept {
      assert placed.Keys == kept.Keys + {id};
      assert |placed.Keys| == |kept.Keys| + 1;
    }
  }

  lemma LocatedKeepsInv(s: State, id: string, now: int, victim: Option<string>)
    requires Inv(s) && IsVictim(Recent(s.items, now), id, victim)
    ensures Inv(Located(s, id, now, victim)) && id in Located(s, id, now, victim).items
    ensures Located(s, id, now, victim).held == s.held && Located(s, id, now, victim).peak == s.peak
  {
    var kept := Without(Recent(s.items, now), victim);
    KeptSurvive(s, id, now, victim);
    RoomForOne(s, id, now, victim);
    PlacedKeepsContexts(s.items, kept, id, s.next, now);
    PlacedKeepsCounted(s.items, kept, s.held, id, s.next, now);
    PlacedKeepsGone(s.items, kept, s.cancelled, id, s.next, now);
    PlacedKeepsBounded(s.items, kept, id, s.next, now, s.peak);
  }

  /** A run may be updated at its place as long as its context and its count stay right. */
  lemma UpdateKeepsRegistry(items: Items, id: string, run: Run, cancelled: set<nat>, next: nat)
    requires id in items && run.ctx == items[id].ctx
    requires Accounted(items, cancelled, next)
    ensures Accounted(items[id := run], cancelled, next)
    ensures items[id := run].Keys == items.Keys && |items[id := run]| == |items|
  {
    var changed := items[id := run];
    assert changed.Keys == items.Keys;
    assert |changed.Keys| == |items.Keys|;
    forall c | c in Contexts(items)
      ensures c in Contexts(changed)
    {
      var k :| k in items && items[k].ctx == c;
      assert changed[k].ctx == c;
    }
  }

  lemma CountChange(items: Items, held: multiset<(string, nat)>, id: string, run: Run, changed: multiset<(string, nat)>)
    requires Counted(items, held) && id in items && run.ctx == items[id].ctx
    requires run.active == changed[(id, run.ctx)]
    requires forall h :: h != (id, run.ctx) ==> changed[h] == held[h]
    ensures Counted(items[id := run], changed)
  {
    forall h | h in changed
      ensures h.0 in items[id := run] && items[id := run][h.0].ctx == h.1
    {
      if h != (id, run.ctx) {
        assert held[h] > 0;
      }
    }
  }

  lemma ActiveAfterUpdate(items: Items, id: string, run: Run)
    requires id in items && (run.active > 0 ==> items[id].active > 0)
    ensures |ActiveKeys(items[id := run])| <= |ActiveKeys(items)|
  {
    SubsetSize(ActiveKeys(items[id := run]), ActiveKeys(items));
  }

  lemma PeakKeepsBounded(items: Items, id: string, run: Run, peak: nat)
    requires id in items && |items| <= Max(CAPACITY, 1 + peak)
    ensures Bounded(items[id := run], Max(peak, |ActiveKeys(items[id := run])|))
  {
    assert items[id := run].Keys == items.Keys;
    assert |items[id := run].Keys| == |items.Keys|;
  }

  lemma AcquiredKeepsInv(l: State, id: string)
    requires Inv(l) && id in l.items
    ensures Inv(Acquired(l, id))
  {
    var run := l.items[id].(active := l.items[id].active + 1);
    UpdateKeepsRegistry(l.items, id, run, l.cancelled, l.next);
    CountChange(l.items, l.held, id, run, l.held + multiset{(id, run.ctx)});
    PeakKeepsBounded(l.items, id, run, l.peak);
    var items, held := l.items[id := run], l.held + multiset{(id, run.ctx)};
    assert Acquired(l, id) == State(items, l.cancelled, l.next, held, Max(l.peak, |ActiveKeys(items)|));
  }

  lemma TombstonedKeepsInv(l: State, id: string, now: int)
    requires Inv(l) && id in l.items
    ensures Inv(Tombstoned(l, id, now))
  {
    var run := l.items[id].(touched := now);
    UpdateKeepsRegistry(l.items, id, run, l.cancelled, l.next);
    CountChange(l.items, l.held, id, run, l.held);
    ActiveAfterUpdate(l.items, id, run);
  }

  lemma ReleaseKeepsInv(s: State, id: string, ctx: nat, now: int)
    requires Inv(s) && Enabled(s, Release(id, ctx, now))
    ensures Inv(Next(s, Release(id, ctx, now)))
  {
    assert id in s.items && s.items[id].ctx == ctx;
    var run := s.items[id].(active := s.items[id].active - 1, touched := now);
    UpdateKeepsRegistry(s.items, id, run, s.cancelled, s.next);
    CountChange(s.items, s.held, id, run, s.held - multiset{(id, ctx)});
    ActiveAfterUpdate(s.items, id, run);
  }

  lemma AcquireKeepsInv(s: State, id: string, now: int, victim: Option<string>)
    requires Inv(s) && IsVictim(Recent(s.items, now), id, victim)
    ensures DistinctContexts(Located(s, id, now, victim).items)
    ensures Inv(Acquired(Located(s, id, now, victim), id))
  {
    LocatedKeepsInv(s, id, now, victim);
    AcquiredKeepsInv(Located(s, id, now, victim), id);
  }

  lemma CancelKeepsInv(s: State, id: string, now: int, victim: Option<string>)
    requires Inv(s) && IsVictim(Recent(s.items, now), id, victim)
    ensures DistinctContexts(Located(s, id, now, victim).items)
    ensures Inv(Tombstoned(Located(s, id, now, victim), id, now))
  {
    LocatedKeepsInv(s, id, now, victim);
    TombstonedKeepsInv(Located(s, id, now, victim), id, now);
  }

  lemma StepKeepsInv(s: State, e: Event)
    requires Inv(s) && Enabled(s, e)
    ensures Inv(Next(s, e)) && s.cancelled <= Next(s, e).cancelled
  {
    match e
    case Acquire(id, now, victim) => AcquireKeepsInv(s, id, now, victim);
    case Release(id, ctx, now) => ReleaseKeepsInv(s, id, ctx, now);
    case Cancel(id, now, victim) => CancelKeepsInv(s, id, now, victim);
  }

  ghost function Dropped(items: Items, kept: set<string>): set<nat> {
    set k | k in items && k !in kept :: items[k].ctx
  }

  lemma DropOne(items: Items, kept: set<string>, key: string)
    requires key in items
    ensures Dropped(items, kept - {key}) == Dropped(items, kept) + {items[key].ctx}
    ensures Dropped(items, items.Keys) == {}
  {
    assert items[key].ctx in Dropped(items, kept - {key});
    forall k | k in items && k !in kept
      ensures items[k].ctx in Dropped(items, kept - {key})
    {
    }
  }

  lemma EvictedTwice(cancelled: set<nat>, items: Items, recent: Items, kept: Items)
    requires forall k :: k in recent ==> k in items && recent[k] == items[k]
    requires forall k :: k in kept ==> k in recent && kept[k] == recent[k]
    ensures cancelled + (Contexts(items) - Contexts(recent)) + (Contexts(recent) - Contexts(kept)) ==
            cancelled + (Contexts(items) - Contexts(kept))
  {
    forall c | c in Contexts(kept)
      ensures c in Contexts(recent)
    {
      var k :| k in kept && kept[k].ctx == c;
      assert recent[k].ctx == c;
    }
    forall c | c in Contexts(recent)
      ensures c in Contexts(items)
    {
      var k :| k in recent && recent[k].ctx == c;
      assert items[k].ctx == c;
    }
  }

  ghost predicate PartlySwept(before: Items, items: Items, todo: set<string>, now: int) {
    todo <= items.Keys <= before.Keys && (forall k :: k in items ==> items[k] == before[k]) &&
    (forall k :: k in before && k !in items ==> IsStale(before[k], now)) &&
    forall k :: k in items && k !in todo ==> !IsStale(items[k], now)
  }

  lemma SweepStep(before: Items, was: Items, items: Items, todo: set<string>, key: string, now: int)
    requires key !in todo && PartlySwept(before, was, todo + {key}, now)
    requires items == if IsStale(was[key], now) then was - {key} else was
    ensures PartlySwept(before, items, todo, now)
    ensures Dropped(before, items.Keys) ==
            Dropped(before, was.Keys) + if IsStale(was[key], now) then {was[key].ctx} else {}
  {
    DropOne(before, was.Keys, key);
    assert IsStale(was[key], now) ==> items.Keys == was.Keys - {key};
  }

  /** With distinct contexts, the contexts that leave the registry are those of the runs that leave it. */
  lemma DroppedContexts(items: Items, kept: Items)
    requires DistinctContexts(items) && forall k :: k in kept ==> k in items && kept[k] == items[k]
    ensures Contexts(items) - Contexts(kept) == Dropped(items, kept.Keys)
  {
    assert forall k :: k in kept ==> kept[k].ctx in Contexts(kept);
    forall c | c in Contexts(items) && c !in Contexts(kept)
      ensures exists k :: k in items && k !in kept && items[k].ctx == c
    {
      var k :| k in items && items[k].ctx == c;
    }
  }

  // ---------- whole runs ----------

  ghost predicate IsRun(s: State, events: seq<Event>)
    decreases |events|
  {
    events == [] || (Enabled(s, events[0]) && IsRun(Next(s, events[0]), events[1..]))
  }

  ghost function After(s: State, events: seq<Event>): State
    requires IsRun(s, events)
    decreases |events|
  {
    if events == [] then s else After(Next(s, events[0]), events[1..])
  }

  /** In every reachable state each registered run has as many users as there are acquisitions outstanding,
      an acquired run is registered, and the registry is within its bound; a context once cancelled stays so. */
  lemma {:induction false} RunKeepsInv(s: State, events: seq<Event>)
    requires Inv(s) && IsRun(s, events)
    ensures Inv(After(s, events)) && s.cancelled <= After(s, events).cancelled
    decreases |events|
  {
    if events != [] {
      StepKeepsInv(s, events[0]);
      RunKeepsInv(Next(s, events[0]), events[1..]);
    }
  }

  ghost function Busy(s: State): nat {
    |ActiveKeys(s.items)|
  }

  /** The most runs that are active at once in a state of the run. */
  ghost function MostActive(s: State, events: seq<Event>): (most: nat)
    requires IsRun(s, events)
    ensures Busy(s) <= most
    decreases |events|
  {
    if events == [] then Busy(s) else Max(Busy(s), MostActive(Next(s, events[0]), events[1..]))
  }

  lemma PeakMoves(s: State, e: Event)
    requires Inv(s) && Enabled(s, e)
    ensures Inv(Next(s, e)) && Busy(s) <= s.peak && Next(s, e).peak == Max(s.peak, Busy(Next(s, e)))
  {
    StepKeepsInv(s, e);
  }

  lemma {:induction false} PeakIsMostActive(s: State, events: seq<Event>)
    requires Inv(s) && IsRun(s, events)
    ensures After(s, events).peak == Max(s.peak, MostActive(s, events))
    decreases |events|
  {
    if events != [] {
      var t := Next(s, events[0]);
      PeakMoves(s, events[0]);
      PeakIsMostActive(t, events[1..]);
      assert After(s, events) == After(t, events[1..]);
      assert MostActive(s, events) == Max(Busy(s), MostActive(t, events[1..]));
    }
  }

  /** From the empty registry on: no more runs than the capacity, or than one above the most that were ever
      active at once; each run counts its outstanding acquisitions, and none of an acquired run is lost. */
  lemma {:induction false} ReachableIsBounded(events: seq<Event>)
    requires IsRun(START, events)
    ensures var n := |After(START, events).items|; n <= 64 || n <= 1 + MostActive(START, events)
    ensures Counted(After(START, events).items, After(START, events).held)
  {
    StartKeepsInv();
    BoundedAfter(START, events);
  }

  lemma {:induction false} BoundedAfter(s: State, events: seq<Event>)
    requires Inv(s) && s.peak == 0 && IsRun(s, events)
    ensures |After(s, events).items| <= Max(CAPACITY, 1 + MostActive(s, events))
    ensures Counted(After(s, events).items, After(s, events).held)
  {
    RunKeepsInv(s, events);
    PeakIsMostActive(s, events);
    InvBounds(After(s, events));
  }

  lemma InvBounds(s: State)
    requires Inv(s)
    ensures |s.items| <= Max(CAPACITY, 1 + s.peak) && Counted(s.items, s.held)
  {
  }

  lemma StartKeepsInv()
    ensures Inv(START)
  {
    assert ActiveKeys(START.items) == {};
  }

  // ---------- eviction and tombstones ----------

  /** The step drops the run of `id`, which is idle: it was left alone for longer than the retention, or it
      has to make room. */
  ghost predicate Evicts(s: State, e: Event, id: string) {
    id in s.items && !e.Release? && (IsStale(s.items[id], e.now) || e.victim == Some(id))
  }

  lemma KeptUnlessEvicted(s: State, now: int, victim: Option<string>, asked: string, id: string)
    requires id in s.items && s.items[id].ctx < s.next && IsVictim(Recent(s.items, now), asked, victim)
    ensures var l := Located(s, asked, now, victim);
            (id in l.items && l.items[id].ctx == s.items[id].ctx) <==>
              !(IsStale(s.items[id], now) || victim == Some(id))
    ensures IsStale(s.items[id], now) || victim == Some(id) ==> s.items[id].active == 0
  {
    KeptSurvive(s, asked, now, victim);
  }

  /** A step takes the run of an id away exactly when it evicts it, and a run with users is never evicted. */
  lemma LostIsEvicted(s: State, e: Event, id: string)
    requires Inv(s) && Enabled(s, e) && id in s.items
    ensures (id in Next(s, e).items && Next(s, e).items[id].ctx == s.items[id].ctx) <==> !Evicts(s, e, id)
    ensures Evicts(s, e, id) ==> s.items[id].active == 0 && s.held[(id, s.items[id].ctx)] == 0
    ensures s.cancelled <= Next(s, e).cancelled
  {
    if !e.Release? {
      KeptUnlessEvicted(s, e.now, e.victim, e.id, id);
    }
  }

  lemma DroppedIsEvicted(items: Items, now: int, victim: Option<string>, ctx: nat)
    requires ctx in Contexts(items) && ctx !in Contexts(Without(Recent(items, now), victim))
    ensures exists k :: k in items && items[k].ctx == ctx && (IsStale(items[k], now) || victim == Some(k))
  {
    var kept := Without(Recent(items, now), victim);
    assert forall k :: k in kept ==> kept[k].ctx in Contexts(kept);
    var k :| k in items && items[k].ctx == ctx;
    assert k !in kept;
  }

  /** A context is cancelled by a cancellation of its own id, or while no one uses its run. */
  lemma CancelledForAReason(s: State, e: Event, ctx: nat)
    requires Inv(s) && Enabled(s, e) && ctx in Next(s, e).cancelled && ctx !in s.cancelled
    ensures || (e.Cancel? && e.id in Next(s, e).items && ctx == Next(s, e).items[e.id].ctx)
            || exists k :: k in s.items && s.items[k].ctx == ctx && Evicts(s, e, k)
  {
    if !e.Release? && !(e.Cancel? && ctx == Next(s, e).items[e.id].ctx) {
      DroppedIsEvicted(s.items, e.now, e.victim, ctx);
      var k :| k in s.items && s.items[k].ctx == ctx && (IsStale(s.items[k], e.now) || e.victim == Some(k));
      assert Evicts(s, e, k);
    }
  }

  // ---------- when a run is touched ----------

  /** A run carries the time when it was made, last released or last cancelled, whichever is the latest: an
      acquisition leaves the time of a run that is there. */
  lemma TouchedWhen(s: State, e: Event, k: string)
    requires Inv(s) && Enabled(s, e) && k in Next(s, e).items
    ensures var run := Next(s, e).items[k];
            run.touched == if e.id == k && !e.Acquire? then e.now
                           else if k in s.items && s.items[k].ctx == run.ctx then s.items[k].touched
                           else e.now
  {
    if e.Release? {
      assert s.held[(e.id, e.ctx)] > 0;
    }
  }

  /** Whatever the state, the run of an id that is cancelled is there afterwards, cancelled and touched now. */
  lemma CancelTouches(s: State, id: string, now: int, victim: Option<string>)
    requires Enabled(s, Cancel(id, now, victim))
    ensures var t := Next(s, Cancel(id, now, victim));
            id in t.items && t.items[id].touched == now && t.items[id].ctx in t.cancelled
  {
  }

  /** A release leaves the run that was handed out, with one user less and touched now. */
  lemma ReleaseTouches(s: State, id: string, ctx: nat, now: int)
    requires Inv(s) && Enabled(s, Release(id, ctx, now))
    ensures var t := Next(s, Release(id, ctx, now));
            id in s.items && id in t.items && t.items[id] == Run(ctx, s.items[id].active - 1, now)
  {
    assert s.held[(id, ctx)] > 0;
  }

  ghost predicate NeverEvicted(s: State, events: seq<Event>, id: string)
    requires IsRun(s, events)
    decreases |events|
  {
    events == [] || (!Evicts(s, events[0], id) && NeverEvicted(Next(s, events[0]), events[1..], id))
  }

  /** The run of the id is registered and cancelled. */
  ghost predicate Tombstone(s: State, id: string) {
    id in s.items && s.items[id].ctx in s.cancelled
  }

  /** A cancelled run stays cancelled and stays the run of its id until it is evicted. */
  lemma {:induction false} TombstoneStays(s: State, events: seq<Event>, id: string)
    requires Inv(s) && IsRun(s, events) && NeverEvicted(s, events, id)
    requires Tombstone(s, id)
    ensures Tombstone(After(s, events), id) && After(s, events).items[id].ctx == s.items[id].ctx
    decreases |events|
  {
    if events != [] {
      LostIsEvicted(s, events[0], id);
      StepKeepsInv(s, events[0]);
      TombstoneStays(Next(s, events[0]), events[1..], id);
    }
  }

  /** A cancellation leaves a tombstone, whether or not the id had a run. */
  lemma CancelLeavesTombstone(s: State, id: string, now: int, victim: Option<string>)
    requires Inv(s) && Enabled(s, Cancel(id, now, victim))
    ensures Inv(Next(s, Cancel(id, now, victim))) && Tombstone(Next(s, Cancel(id, now, victim)), id)
  {
    StepKeepsInv(s, Cancel(id, now, victim));
  }

  /** From a tombstone on, every acquisition of the id receives the cancelled context, for as long as the
      idle run is not evicted. */
  lemma CancelledIdCannotRestart(s: State, events: seq<Event>, id: string, now: int, victim: Option<string>)
    requires Inv(s) && Tombstone(s, id) && IsRun(s, events) && NeverEvicted(s, events, id)
    requires Enabled(After(s, events), Acquire(id, now, victim)) &&
             !Evicts(After(s, events), Acquire(id, now, victim), id)
    ensures var u := Next(After(s, events), Acquire(id, now, victim));
            Tombstone(u, id) && u.items[id].ctx == s.items[id].ctx
  {
    TombstoneStays(s, events, id);
    RunKeepsInv(s, events);
    LostIsEvicted(After(s, events), Acquire(id, now, victim), id);
  }

  /** The runs that can outlast the one of `id`, being active or touched `since`, are all among `others`. */
  ghost predicate Rivals(s: State, id: string, since: int, others: set<string>) {
    forall k :: k in s.items && k != id && (s.items[k].active > 0 || s.items[k].touched >= since) ==> k in others
  }

  /** The step happens within the retention, and asks for a run of `others` if not for that of `id`. */
  predicate Mild(e: Event, id: string, since: int, others: set<string>) {
    since <= e.now <= since + RETENTION && (e.Release? || e.id == id || e.id in others)
  }

  lemma RivalsCrowdOut(s: State, e: Event, id: string, since: int, others: set<string>)
    requires Inv(s) && Enabled(s, e) && Mild(e, id, since, others) && Rivals(s, id, since, others)
    requires id in s.items && s.items[id].touched >= since && |others| < CAPACITY
    ensures !Evicts(s, e, id)
  {
    if Evicts(s, e, id) {
      var recent := Recent(s.items, e.now);
      assert e.victim == Some(id) && id in recent && e.id !in recent;
      FewRivals(recent, id, e.id, others);
    }
  }

  lemma FewRivals(recent: Items, id: string, asked: string, others: set<string>)
    requires asked in others && recent.Keys <= others - {asked} + {id}
    ensures |recent| <= |others|
  {
    SubsetSize(recent.Keys, others - {asked} + {id});
    assert |others| == |others - {asked}| + 1;
    assert |recent.Keys| == |recent|;
  }

  lemma StepKeepsRivals(s: State, e: Event, id: string, since: int, others: set<string>)
    requires Inv(s) && Enabled(s, e) && Mild(e, id, since, others) && Rivals(s, id, since, others)
    requires id in s.items && s.items[id].touched >= since && !Evicts(s, e, id)
    ensures Rivals(Next(s, e), id, since, others)
    ensures id in Next(s, e).items && Next(s, e).items[id].touched >= since
  {
    LostIsEvicted(s, e, id);
    forall k | k in Next(s, e).items && k != id && k != e.id
      ensures k in s.items && Next(s, e).items[k] == s.items[k]
    {
      OthersKeepRun(s, e, k);
    }
    if e.Release? {
      assert s.held[(e.id, e.ctx)] > 0;
    }
  }

  lemma OthersKeepRun(s: State, e: Event, k: string)
    requires Enabled(s, e) && k in Next(s, e).items && k != e.id
    ensures k in s.items && Next(s, e).items[k] == s.items[k]
  {
  }

  /** A tombstone cannot go as long as the time since it was touched is within the retention, and the ids
      that were active then, were touched then or have been asked for since are fewer than the capacity. */
  lemma {:induction false} TombstoneCannotGo(s: State, events: seq<Event>, id: string, since: int, others: set<string>)
    requires Inv(s) && IsRun(s, events) && Rivals(s, id, since, others) && |others| < CAPACITY
    requires id in s.items && s.items[id].touched >= since
    requires forall e :: e in events ==> Mild(e, id, since, others)
    ensures NeverEvicted(s, events, id)
    decreases |events|
  {
    if events != [] {
      assert events[0] in events;
      RivalsCrowdOut(s, events[0], id, since, others);
      StepKeepsRivals(s, events[0], id, since, others);
      StepKeepsInv(s, events[0]);
      TombstoneCannotGo(Next(s, events[0]), events[1..], id, since, others);
    }
  }

  /** So a tombstone stays one within the retention: whatever is acquired, released and cancelled meanwhile,
      the run of the id is the cancelled one, acquired or not. */
  lemma CancelledStaysCancelled(s: State, events: seq<Event>, id: string, since: int, others: set<string>)
    requires Inv(s) && Tombstone(s, id) && IsRun(s, events) && Rivals(s, id, since, others) && |others| < CAPACITY
    requires s.items[id].touched >= since && forall e :: e in events ==> Mild(e, id, since, others)
    ensures Tombstone(After(s, events), id) && After(s, events).items[id].ctx == s.items[id].ctx
  {
    TombstoneCannotGo(s, events, id, since, others);
    TombstoneStays(s, events, id);
  }

  /** An id that is cancelled at `now` cannot restart in the fifteen minutes after that: every acquisition of it
      receives the cancelled context, as long as the ids that are active or touched at `now` or later, or are asked
      for meanwhile, are fewer than 64. */
  lemma CancelledCannotRestart(s: State, id: string, now: int, victim: Option<string>, events: seq<Event>, later: int,
                               pushed: Option<string>, others: set<string>)
    requires Inv(s) && Enabled(s, Cancel(id, now, victim)) && |others| < 64
    requires forall k :: k in s.items && k != id && (s.items[k].active > 0 || s.items[k].touched >= now) ==> k in others
    requires forall e :: e in events ==>
               now <= e.now <= now + 15 * 60 && (e.Release? || e.id == id || e.id in others)
    requires now <= later <= now + 15 * 60
    requires IsRun(Next(s, Cancel(id, now, victim)), events)
    requires Enabled(After(Next(s, Cancel(id, now, victim)), events), Acquire(id, later, pushed))
    ensures var t := Next(s, Cancel(id, now, victim));
            var u := Next(After(t, events), Acquire(id, later, pushed));
            id in t.items && t.items[id].ctx in t.cancelled &&
            id in u.items && u.items[id].ctx == t.items[id].ctx && u.items[id].ctx in u.cancelled &&
            (id, t.items[id].ctx) in u.held
  {
    var t := Next(s, Cancel(id, now, victim));
    CancelLeavesTombstone(s, id, now, victim);
    CancelTouches(s, id, now, victim);
    CancelKeepsRivals(s, id, now, victim, others);
    assert Rivals(t, id, now, others) && forall e :: e in events ==> Mild(e, id, now, others);
    TombstoneIsAcquired(t, events, id, now, later, pushed, others);
  }

  lemma TombstoneIsAcquired(t: State, events: seq<Event>, id: string, since: int, later: int, pushed: Option<string>,
                            others: set<string>)
    requires Inv(t) && Tombstone(t, id) && IsRun(t, events) && Rivals(t, id, since, others) && |others| < CAPACITY
    requires t.items[id].touched >= since && forall e :: e in events ==> Mild(e, id, since, others)
    requires Enabled(After(t, events), Acquire(id, later, pushed)) && since <= later <= since + RETENTION
    ensures var u := Next(After(t, events), Acquire(id, later, pushed));
            Tombstone(u, id) && u.items[id].ctx == t.items[id].ctx && (id, u.items[id].ctx) in u.held
  {
    var acquire := Acquire(id, later, pushed);
    RunAppends(t, events, acquire);
    assert forall e :: e in events + [acquire] ==> Mild(e, id, since, others);
    CancelledStaysCancelled(t, events + [acquire], id, since, others);
  }

  lemma StepTakesNoContext(s: State, e: Event, ctx: nat)
    requires Inv(s) && Enabled(s, e) && ctx < s.next && ctx !in Contexts(s.items)
    ensures ctx < Next(s, e).next && ctx !in Contexts(Next(s, e).items)
  {
    forall k | k in Next(s, e).items
      ensures Next(s, e).items[k].ctx != ctx
    {
      KeepsOrMakes(s, e, k);
      assert k in s.items ==> s.items[k].ctx in Contexts(s.items);
    }
  }

  lemma KeepsOrMakes(s: State, e: Event, k: string)
    requires Inv(s) && Enabled(s, e) && k in Next(s, e).items
    ensures Next(s, e).items[k].ctx == s.next || (k in s.items && Next(s, e).items[k].ctx == s.items[k].ctx)
  {
    if k != e.id {
      OthersKeepRun(s, e, k);
    } else if e.Release? {
      assert s.held[(e.id, e.ctx)] > 0;
    }
  }

  lemma {:induction false} GoneContextStaysGone(s: State, events: seq<Event>, ctx: nat)
    requires Inv(s) && IsRun(s, events) && ctx < s.next && ctx !in Contexts(s.items)
    ensures ctx !in Contexts(After(s, events).items)
    decreases |events|
  {
    if events != [] {
      StepTakesNoContext(s, events[0], ctx);
      StepKeepsInv(s, events[0]);
      GoneContextStaysGone(Next(s, events[0]), events[1..], ctx);
    }
  }

  lemma EvictedIsGone(s: State, e: Event, id: string)
    requires Inv(s) && Enabled(s, e) && Evicts(s, e, id)
    ensures s.items[id].ctx !in Contexts(Next(s, e).items) && s.items[id].ctx < Next(s, e).next
  {
    LostIsEvicted(s, e, id);
    if k :| k in Next(s, e).items && Next(s, e).items[k].ctx == s.items[id].ctx {
      NoneTakesContext(s, e, id, k);
    }
  }

  /** Through any run the run of an id stays the one of its context exactly if it is never evicted: a context that has
      left the registry does not come back. */
  lemma {:induction false} RestartsExactlyIfEvicted(s: State, events: seq<Event>, id: string)
    requires Inv(s) && IsRun(s, events) && id in s.items
    ensures id in After(s, events).items && After(s, events).items[id].ctx == s.items[id].ctx <==>
            NeverEvicted(s, events, id)
    decreases |events|
  {
    if events != [] {
      var t := Next(s, events[0]);
      StepKeepsInv(s, events[0]);
      LostIsEvicted(s, events[0], id);
      if Evicts(s, events[0], id) {
        EvictedIsGone(s, events[0], id);
        GoneContextStaysGone(t, events[1..], s.items[id].ctx);
        assert id in After(s, events).items ==> After(s, events).items[id].ctx in Contexts(After(s, events).items);
      } else {
        RestartsExactlyIfEvicted(t, events[1..], id);
      }
    }
  }

  lemma CancelKeepsRivals(s: State, id: string, now: int, victim: Option<string>, others: set<string>)
    requires Enabled(s, Cancel(id, now, victim)) && Rivals(s, id, now, others)
    ensures Rivals(Next(s, Cancel(id, now, victim)), id, now, others)
  {
    forall k | k in Next(s, Cancel(id, now, victim)).items && k != id
      ensures k in s.items && Next(s, Cancel(id, now, victim)).items[k] == s.items[k]
    {
      OthersKeepRun(s, Cancel(id, now, victim), k);
    }
  }

  lemma {:induction false} RunAppends(s: State, events: seq<Event>, e: Event)
    requires IsRun(s, events) && Enabled(After(s, events), e)
    ensures IsRun(s, events + [e]) && After(s, events + [e]) == Next(After(s, events), e)
    decreases |events|
  {
    if events == [] {
      assert events + [e] == [e] && [e][1..] == [];
    } else {
      RunAppends(Next(s, events[0]), events[1..], e);
      assert (events + [e])[1..] == events[1..] + [e];
    }
  }

  // ---------- a registry full of active runs ----------

  function Name(n: nat): (name: string)
    ensures |name| == n && forall i :: 0 <= i < n ==> name[i] == 'a'
  {
    seq(n, _ => 'a')
  }

  /** Only the names up to the one of `n` letters are there, each with one user. */
  ghost predicate Crowd(items: Items, n: nat) {
    |items| == n && (n > 0 ==> "a" in items && items["a"] == Run(0, 1, 0)) &&
    forall k :: k in items ==> items[k].active == 1 && 0 < |k| <= n && k[0] == 'a'
  }

  lemma SizeAfterPut(items: Items, id: string, run: Run)
    ensures |items[id := run]| == |items| + if id in items then 0 else 1
  {
    assert items[id := run].Keys == items.Keys + {id};
    assert |items[id := run].Keys| == |items[id := run]| && |items.Keys| == |items|;
  }

  /** While every run is active nothing is swept or pushed out. */
  lemma JoinsActive(s: State, e: Event, id: string, now: int)
    requires id != "" && id !in s.items && forall k :: k in s.items ==> s.items[k].active > 0
    requires e == Acquire(id, now, None) || e == Cancel(id, now, None)
    ensures Enabled(s, e) && Next(s, e).next == s.next + 1
    ensures Next(s, e).items == s.items[id := Run(s.next, if e.Acquire? then 1 else 0, now)]
  {
    assert Recent(s.items, now) == s.items;
  }

  lemma PushesOut(s: State, id: string, now: int, victim: string)
    requires id != "" && id !in s.items && |s.items| >= CAPACITY && IsOldestIdle(s.items, victim)
    requires now - s.items[victim].touched <= RETENTION
    ensures Enabled(s, Acquire(id, now, Some(victim)))
    ensures Next(s, Acquire(id, now, Some(victim))).items == (s.items - {victim})[id := Run(s.next, 1, now)]
  {
    assert Recent(s.items, now) == s.items;
  }

  lemma CrowdGrows(s: State, n: nat)
    requires n < 64 && Crowd(s.items, n) && s.next == n
    ensures var e := Acquire(Name(n + 1), 0, None);
            Enabled(s, e) && Next(s, e).next == n + 1 && Crowd(Next(s, e).items, n + 1)
  {
    JoinsActive(s, Acquire(Name(n + 1), 0, None), Name(n + 1), 0);
    SizeAfterPut(s.items, Name(n + 1), Run(s.next, 1, 0));
    assert n == 0 ==> Name(n + 1) == "a";
  }

  lemma {:induction false} Fill(n: nat) returns (events: seq<Event>)
    requires n <= 64
    ensures |events| == n && IsRun(START, events) && After(START, events).next == n
    ensures Crowd(After(START, events).items, n)
  {
    if n == 0 {
      events := [];
    } else {
      events := Fill(n - 1);
      var e := Acquire(Name(n), 0, None);
      CrowdGrows(After(START, events), n - 1);
      RunAppends(START, events, e);
      events := events + [e];
    }
  }

  /** "b" is cancelled at 100 and "a" released at 200: the tombstone is the oldest of two idle runs of 65. */
  ghost predicate TwoIdle(items: Items) {
    && |items| == 65 && "a" in items && "b" in items && "c" !in items
    && items["a"] == Run(0, 0, 200) && items["b"] == Run(64, 0, 100)
    && forall k :: k in items && k != "a" && k != "b" ==> items[k].active == 1
  }

  lemma CancelInCrowd(s: State)
    requires Inv(s) && Crowd(s.items, 64) && s.next == 64
    ensures var e := Cancel("b", 100, None);
            Enabled(s, e) && Next(s, e).items == s.items["b" := Run(64, 0, 100)] && Next(s, e).next == 65 &&
            |Next(s, e).items| == 65 && ("a", 0) in Next(s, e).held
  {
    JoinsActive(s, Cancel("b", 100, None), "b", 100);
    SizeAfterPut(s.items, "b", Run(64, 0, 100));
    IsHeld(s, "a");
  }

  lemma IsHeld(s: State, id: string)
    requires Inv(s) && id in s.items && s.items[id].active > 0
    ensures (id, s.items[id].ctx) in s.held
  {
  }

  lemma ReleaseInCrowd(s: State, crowd: Items)
    requires Crowd(crowd, 64) && s.items == crowd["b" := Run(64, 0, 100)] && |s.items| == 65 && ("a", 0) in s.held
    ensures Enabled(s, Release("a", 0, 200)) && TwoIdle(Next(s, Release("a", 0, 200)).items)
  {
    SizeAfterPut(s.items, "a", Run(0, 0, 200));
    assert Next(s, Release("a", 0, 200)).items == s.items["a" := Run(0, 0, 200)];
  }

  /** The request for "c" pushes "b" out. */
  lemma ThirdPushesOut(s: State)
    requires TwoIdle(s.items)
    ensures var e := Acquire("c", 300, Some("b"));
            Enabled(s, e) && Next(s, e).items == (s.items - {"b"})["c" := Run(s.next, 1, 300)] &&
            |Next(s, e).items| == 65
  {
    PushesOut(s, "c", 300, "b");
    var kept := s.items - {"b"};
    assert kept.Keys == s.items.Keys - {"b"};
    assert |kept.Keys| == |kept| && |s.items.Keys| == |s.items|;
    SizeAfterPut(kept, "c", Run(s.next, 1, 300));
  }

  /** So the next request for "b" makes a new run. */
  lemma SecondRestarts(s: State, before: Items, ctx: nat)
    requires TwoIdle(before) && s.items == (before - {"b"})["c" := Run(ctx, 1, 300)] && |s.items| == 65
    ensures var e := Acquire("b", 400, Some("a"));
            Enabled(s, e) && "b" in Next(s, e).items && Next(s, e).items["b"].ctx == s.next
  {
    PushesOut(s, "b", 400, "a");
  }

  ghost predicate OnlyIssued(s: State) {
    (forall k :: k in s.items ==> s.items[k].ctx < s.next) && forall c :: c in s.cancelled ==> c < s.next
  }

  lemma StepKeepsOnlyIssued(s: State, e: Event)
    requires OnlyIssued(s) && Enabled(s, e)
    ensures OnlyIssued(Next(s, e))
  {
  }

  /** A context that was cancelled or is registered has been handed out before. */
  lemma {:induction false} RunKeepsOnlyIssued(s: State, events: seq<Event>)
    requires OnlyIssued(s) && IsRun(s, events)
    ensures OnlyIssued(After(s, events))
    decreases |events|
  {
    if events != [] {
      StepKeepsOnlyIssued(s, events[0]);
      RunKeepsOnlyIssued(Next(s, events[0]), events[1..]);
    }
  }

  lemma NewIsUncancelled(s: State, events: seq<Event>, e: Event)
    requires OnlyIssued(s) && IsRun(s, events) && Enabled(After(s, events), e) && e.Acquire?
    requires e.id in Next(After(s, events), e).items
    requires Next(After(s, events), e).items[e.id].ctx == After(s, events).next
    ensures Next(After(s, events), e).items[e.id].ctx !in Next(After(s, events), e).cancelled
  {
    RunKeepsOnlyIssued(s, events);
  }

  lemma CancelAfterFill() returns (events: seq<Event>, crowd: Items)
    ensures |events| == 65 && events[64] == Cancel("b", 100, None) && IsRun(START, events) && Crowd(crowd, 64)
    ensures var s := After(START, events);
            s.items == crowd["b" := Run(64, 0, 100)] && |s.items| == 65 && ("a", 0) in s.held
  {
    var fill := Fill(64);
    StartKeepsInv();
    RunKeepsInv(START, fill);
    crowd := After(START, fill).items;
    CancelInCrowd(After(START, fill));
    RunAppends(START, fill, Cancel("b", 100, None));
    events := fill + [Cancel("b", 100, None)];
  }

  lemma OneMore(events: seq<Event>, e: Event) returns (more: seq<Event>)
    requires |events| >= 64 && IsRun(START, events) && Enabled(After(START, events), e)
    ensures |more| == |events| + 1 && more[64..] == events[64..] + [e]
    ensures IsRun(START, more) && After(START, more) == Next(After(START, events), e)
  {
    RunAppends(START, events, e);
    more := events + [e];
  }

  lemma ReleaseAfterCancel() returns (events: seq<Event>)
    ensures |events| == 66 && events[64..] == [Cancel("b", 100, None), Release("a", 0, 200)]
    ensures IsRun(START, events) && TwoIdle(After(START, events).items)
  {
    var before, crowd := CancelAfterFill();
    ReleaseInCrowd(After(START, before), crowd);
    events := OneMore(before, Release("a", 0, 200));
  }

  lemma AcquireAfterRelease() returns (events: seq<Event>, before: Items, ctx: nat)
    ensures |events| == 67
    ensures events[64..] == [Cancel("b", 100, None), Release("a", 0, 200), Acquire("c", 300, Some("b"))]
    ensures IsRun(START, events) && TwoIdle(before) && |After(START, events).items| == 65
    ensures After(START, events).items == (before - {"b"})["c" := Run(ctx, 1, 300)]
  {
    var two := ReleaseAfterCancel();
    var s := After(START, two);
    before, ctx := s.items, s.next;
    ThirdPushesOut(s);
    events := OneMore(two, Acquire("c", 300, Some("b")));
  }

  /** Why the ids that are active count too: with 64 active runs, one request for one other id pushes the cancelled
      run out once an active run has ended, and the cancelled id restarts 300 seconds after its cancellation. */
  lemma OneOtherIdMayPushOut() returns (events: seq<Event>)
    ensures |events| == 67
    ensures events[64..] == [Cancel("b", 100, None), Release("a", 0, 200), Acquire("c", 300, Some("b"))]
    ensures IsRun(START, events) && Enabled(After(START, events), Acquire("b", 400, Some("a")))
    ensures var u := Next(After(START, events), Acquire("b", 400, Some("a")));
            "b" in u.items && u.items["b"].ctx !in u.cancelled
  {
    var before, ctx;
    events, before, ctx := AcquireAfterRelease();
    SecondRestarts(After(START, events), before, ctx);
    NewIsUncancelled(START, events, Acquire("b", 400, Some("a")));
  }

  /** A run that has been idle for more than fifteen minutes is gone after the next acquisition or cancellation,
      and its context is cancelled. */
  lemma IdleIsSwept(s: State, e: Event, id: string)
    requires Inv(s) && Enabled(s, e) && !e.Release?
    requires id in s.items && s.items[id].active == 0 && e.now - s.items[id].touched > 15 * 60
    ensures s.items[id].ctx !in Contexts(Next(s, e).items) && s.items[id].ctx in Next(s, e).cancelled
  {
    LostIsEvicted(s, e, id);
    EvictedIsGone(s, e, id);
    StepKeepsInv(s, e);
  }

  lemma NoneTakesContext(s: State, e: Event, id: string, k: string)
    requires Inv(s) && Enabled(s, e) && id in s.items && k in Next(s, e).items
    requires Next(s, e).items[k].ctx == s.items[id].ctx
    ensures k == id
  {
  }

  // ---------- the registry ----------

  class StreamingRun {
    const ctx: nat
    var active: int
    var touched: int

    constructor (ctx: nat, now: int)
      ensures this.ctx == ctx && active == 0 && touched == now
    {
      this.ctx := ctx;
      active := 0;
      touched := now;
    }

    function Value(): Run
      reads this
    {
      Run(ctx, active, touched)
    }
  }

  class Registry {
    var items: map<string, StreamingRun>
    var cancelled: set<nat>
    var next: nat
    /** Every run ever made: a caller may still hold one. */
    ghost var made: set<StreamingRun>
    ghost var held: multiset<(string, nat)>
    ghost var peak: nat

    ghost function Values(): Items
      reads this, items.Values
    {
      map k | k in items :: items[k].Value()
    }

    ghost function Abs(): State
      reads this, items.Values
    {
      State(Values(), cancelled, next, held, peak)
    }

    ghost predicate Tracked()
      reads this
    {
      items.Values <= made && (forall r :: r in made ==> r.ctx < next) &&
      forall a, b :: a in made && b in made && a.ctx == b.ctx ==> a == b
    }

    ghost predicate Valid()
      reads this, items.Values
    {
      Tracked() && Inv(Abs())
    }

    constructor ()
      ensures Valid() && Abs() == START
    {
      items, cancelled, next := map[], {}, 0;
      made, held, peak := {}, multiset{}, 0;
      new;
      assert ActiveKeys(START.items) == {};
    }

    /** Cancels and removes a run that has been idle for longer than the retention. */
    method SweepOne(key: string, now: int)
      requires key in items
      modifies this`items, this`cancelled
      ensures items.Values <= old(items.Values)
      ensures Values() == (if IsStale(old(items[key].Value()), now) then old(Values()) - {key} else old(Values()))
      ensures cancelled == old(cancelled) + if IsStale(old(items[key].Value()), now) then {old(items[key].ctx)} else {}
    {
      var run := items[key];
      if run.active == 0 && now - run.touched > RETENTION {
        cancelled := cancelled + {run.ctx};
        items := items - {key};
      }
    }

    method SweepNext(key: string, now: int, ghost todo: set<string>, ghost before: Items, ghost gone: set<nat>)
      requires key in items && key !in todo && PartlySwept(before, Values(), todo + {key}, now)
      requires cancelled == gone + Dropped(before, Values().Keys)
      modifies this`items, this`cancelled
      ensures items.Values <= old(items.Values) && PartlySwept(before, Values(), todo, now)
      ensures cancelled == gone + Dropped(before, Values().Keys)
    {
      ghost var was := Values();
      assert key in was && was[key] == items[key].Value();
      SweepOne(key, now);
      SweepStep(before, was, Values(), todo, key, now);
    }

    /** Sweeps all runs, in any order. */
    method Sweep(now: int)
      requires DistinctContexts(Values())
      modifies this`items, this`cancelled
      ensures Values() == Recent(old(Values()), now) && items.Values <= old(items.Values)
      ensures cancelled == old(cancelled) + (Contexts(old(Values())) - Contexts(Values()))
    {
      ghost var before := Values();
      var todo := items.Keys;
      assert Dropped(before, before.Keys) == {};
      while todo != {}
        invariant items.Values <= old(items.Values)
        invariant PartlySwept(before, Values(), todo, now)
        invariant cancelled == old(cancelled) + Dropped(before, Values().Keys)
        decreases todo
      {
        var key :| key in todo;
        assert todo - {key} + {key} == todo && key in Values();
        todo := todo - {key};
        SweepNext(key, now, todo, before, old(cancelled));
      }
      assert Values() == Recent(before, now);
      DroppedContexts(before, Values());
    }

    /** The idle run that has been untouched for longest, if a run is idle. */
    method OldestIdle() returns (oldest: Option<string>)
      ensures oldest.None? ==> forall k :: k in items ==> items[k].active != 0
      ensures oldest.Some? ==> IsOldestIdle(Values(), oldest.value)
    {
      oldest := None;
      var todo := items.Keys;
      while todo != {}
        invariant todo <= items.Keys
        invariant oldest.None? ==> forall k :: k in items && k !in todo ==> items[k].active != 0
        invariant oldest.Some? ==> oldest.value in items && items[oldest.value].active == 0
        invariant oldest.Some? ==> forall k :: k in items && k !in todo && items[k].active == 0 ==>
          items[oldest.value].touched <= items[k].touched
        decreases todo
      {
        var key :| key in todo;
        todo := todo - {key};
        if items[key].active == 0 && (oldest.None? || items[key].touched < items[oldest.value].touched) {
          oldest := Some(key);
        }
      }
    }

    /** Makes room in a full registry, where an idle run allows it. */
    method EvictOldestIdle() returns (victim: Option<string>)
      requires Tracked() && DistinctContexts(Values())
      modifies this`items, this`cancelled
      ensures victim.None? ==> forall k :: k in old(items) ==> old(items[k].active) != 0
      ensures victim.Some? ==> IsOldestIdle(old(Values()), victim.value)
      ensures Values() == Without(old(Values()), victim) && items.Values <= old(items.Values)
      ensures cancelled == old(cancelled) + (Contexts(old(Values())) - Contexts(Values()))
    {
      ghost var before := Values();
      victim := OldestIdle();
      DroppedContexts(before, Without(before, victim));
      if victim.Some? {
        DropOne(before, before.Keys, victim.value);
        cancelled := cancelled + {items[victim.value].ctx};
        items := items - {victim.value};
        assert before.Keys - {victim.value} == Without(before, victim).Keys;
      }
      assert Values() == Without(before, victim);
    }

    /** Makes a run for `id`, which has none. */
    method MakeRun(id: string, now: int) returns (run: StreamingRun)
      requires Tracked() && id !in items
      modifies this`items, this`next, this`made
      ensures Tracked() && items == old(items)[id := run] && fresh(run) && made == old(made) + {run}
      ensures Values() == old(Values())[id := Run(old(next), 0, now)] && next == old(next) + 1
    {
      run := new StreamingRun(next, now);
      items := items[id := run];
      next := next + 1;
      made := made + {run};
    }

    /** The run of `id`: found, or made with an idle run evicted if the registry is full. */
    method RunOf(id: string, now: int) returns (run: StreamingRun, ghost victim: Option<string>)
      requires Tracked() && DistinctContexts(Values())
      modifies this`items, this`cancelled, this`next, this`made
      ensures IsVictim(Recent(old(Values()), now), id, victim)
      ensures Tracked() && Abs() == Located(old(Abs()), id, now, victim)
      ensures id in items && items[id] == run && old(made) <= made && DistinctContexts(Values())
      ensures run in old(items.Values) || fresh(run)
    {
      ghost var before := Abs();
      assert forall k :: k in before.items ==> before.items[k].ctx < before.next;
      victim := Evict(id, now);
      ghost var kept := Values();
      KeptSurvive(before, id, now, victim);
      PlacedKeepsContexts(before.items, kept, id, before.next, now);
      if id !in items {
        run := MakeRun(id, now);
      } else {
        run := items[id];
      }
      assert Values() == Placed(kept, id, before.next, now);
      assert next == NextContext(kept, id, before.next);
      assert Abs() == Located(before, id, now, victim);
    }

    method Evict(id: string, now: int) returns (ghost victim: Option<string>)
      requires Tracked() && DistinctContexts(Values())
      modifies this`items, this`cancelled
      ensures Tracked() && items.Values <= old(items.Values) && items.Keys == Values().Keys
      ensures IsVictim(Recent(old(Values()), now), id, victim)
      ensures Values() == Without(Recent(old(Values()), now), victim)
      ensures cancelled == old(cancelled) + (Contexts(old(Values())) - Contexts(Values()))
    {
      ghost var before := Values();
      Sweep(now);
      assert DistinctContexts(Recent(before, now));
      victim := MakeRoom(id);
      EvictedTwice(old(cancelled), before, Recent(before, now), Values());
    }

    /** Evicts an idle run if a run has to be made for `id` and the registry is full. */
    method MakeRoom(id: string) returns (ghost victim: Option<string>)
      requires Tracked() && DistinctContexts(Values())
      modifies this`items, this`cancelled
      ensures Tracked() && items.Values <= old(items.Values)
      ensures IsVictim(old(Values()), id, victim) && Values() == Without(old(Values()), victim)
      ensures cancelled == old(cancelled) + (Contexts(old(Values())) - Contexts(Values()))
    {
      victim := None;
      assert Values().Keys == items.Keys && |Values().Keys| == |items.Keys|;
      if id !in items && |items| >= CAPACITY {
        victim := EvictOldestIdle();
      }
    }

    /** Changes one run, which is registered under one id only. */
    method Update(id: string, run: StreamingRun, active: int, touched: int)
      requires DistinctContexts(Values()) && id in items && items[id] == run
      modifies run`active, run`touched
      ensures Values() == old(Values())[id := Run(run.ctx, active, touched)]
      ensures run.active == active && run.touched == touched
    {
      ghost var before := Values();
      assert forall k :: k in items && k != id ==> before[k].ctx != before[id].ctx;
      run.active := active;
      run.touched := touched;
      assert forall k :: k in items && k != id ==> items[k].Value() == before[k];
    }

    /** Hands out the context of the run of `id` and counts its new user; the empty id has no run, and its
        context cannot be cancelled. */
    method Acquire(id: string, now: int) returns (run: Option<StreamingRun>, ghost victim: Option<string>)
      requires Valid()
      modifies this, items.Values
      ensures Valid() && old(made) <= made
      ensures id == "" ==> run.None? && Abs() == old(Abs())
      ensures id != "" ==>
        run.Some? && run.value in made && Enabled(old(Abs()), Event.Acquire(id, now, victim)) &&
        Abs() == Next(old(Abs()), Event.Acquire(id, now, victim)) && (id, run.value.ctx) in held
    {
      run, victim := None, None;
      if id == "" { return; }
      var r;
      r, victim := AcquireRun(id, now);
      run := Some(r);
    }

    method AcquireRun(id: string, now: int) returns (run: StreamingRun, ghost victim: Option<string>)
      requires Valid()
      modifies this, items.Values
      ensures Valid() && old(made) <= made && run in made && (id, run.ctx) in held
      ensures IsVictim(Recent(old(Values()), now), id, victim)
      ensures Abs() == Acquired(Located(old(Abs()), id, now, victim), id)
    {
      ghost var before := Abs();
      run, victim := TakeRun(id, now);
      AcquireKeepsInv(before, id, now, victim);
    }

    method TakeRun(id: string, now: int) returns (run: StreamingRun, ghost victim: Option<string>)
      requires Tracked() && DistinctContexts(Values())
      modifies this, items.Values
      ensures Tracked() && old(made) <= made && run in made && (id, run.ctx) in held
      ensures IsVictim(Recent(old(Values()), now), id, victim)
      ensures Abs() == Acquired(Located(old(Abs()), id, now, victim), id)
    {
      run, victim := RunOf(id, now);
      Count(id, run);
    }

    method Count(id: string, run: StreamingRun)
      requires Tracked() && DistinctContexts(Values()) && id in items && items[id] == run
      modifies this`held, this`peak, run`active, run`touched
      ensures Abs() == Acquired(old(Abs()), id) && Tracked()
      ensures held == old(held) + multiset{(id, run.ctx)}
    {
      ghost var before := Values();
      assert before[id] == run.Value();
      Update(id, run, run.active + 1, run.touched);
      ghost var after := Values();
      assert after == before[id := before[id].(active := before[id].active + 1)];
      held := held + multiset{(id, run.ctx)};
      peak := Max(peak, |ActiveKeys(after)|);
      assert Values() == after;
    }

    method Uncount(id: string, run: StreamingRun, now: int)
      requires Tracked() && DistinctContexts(Values()) && id in items && items[id] == run
      modifies this`held, run`active, run`touched
      ensures Values() == Released(old(Values()), id, run.ctx, now) && Tracked()
      ensures held == old(held) - multiset{(id, run.ctx)}
    {
      Update(id, run, run.active - 1, now);
      held := held - multiset{(id, run.ctx)};
    }

    method CancelRun(id: string, run: StreamingRun, now: int)
      requires Tracked() && DistinctContexts(Values()) && id in items && items[id] == run
      modifies this`cancelled, run`active, run`touched
      ensures Abs() == Tombstoned(old(Abs()), id, now) && Tracked()
    {
      Update(id, run, run.active, now);
      cancelled := cancelled + {run.ctx};
    }

    /** Ends one use of a run that was handed out for `id`. */
    method Release(id: string, run: StreamingRun, now: int)
      requires Valid() && run in made && (id, run.ctx) in held
      modifies this`held, run`active, run`touched
      ensures Valid() && Abs() == Next(old(Abs()), Event.Release(id, run.ctx, now))
      ensures id in items && items[id] == run && run.active == old(run.active) - 1 && run.touched == now
    {
      ghost var before := Abs();
      ReleaseKeepsInv(before, id, run.ctx, now);
      assert id in items && items[id].ctx == run.ctx;
      Uncount(id, run, now);
      assert Abs() == Next(before, Event.Release(id, run.ctx, now));
      assert Values()[id] == run.Value();
    }

    /** Cancels the run of `id`, making one to stand for the cancellation if there is none. */
    method Cancel(id: string, now: int) returns (ghost victim: Option<string>)
      requires Valid()
      modifies this, items.Values
      ensures Valid() && old(made) <= made
      ensures id == "" ==> Abs() == old(Abs())
      ensures id != "" ==>
        Enabled(old(Abs()), Event.Cancel(id, now, victim)) && Abs() == Next(old(Abs()), Event.Cancel(id, now, victim))
      ensures id != "" ==> id in items && items[id].touched == now && items[id].ctx in cancelled
    {
      victim := None;
      if id == "" { return; }
      ghost var before := Abs();
      victim := LeaveTombstone(id, now);
      CancelKeepsInv(before, id, now, victim);
      CancelTouches(before, id, now, victim);
      assert Values()[id] == items[id].Value();
    }

    method LeaveTombstone(id: string, now: int) returns (ghost victim: Option<string>)
      requires Tracked() && DistinctContexts(Values())
      modifies this, items.Values
      ensures Tracked() && old(made) <= made
      ensures IsVictim(Recent(old(Values()), now), id, victim)
      ensures Abs() == Tombstoned(Located(old(Abs()), id, now, victim), id, now)
    {
      var run;
      run, victim := RunOf(id, now);
      CancelRun(id, run, now);
    }
  }
}
