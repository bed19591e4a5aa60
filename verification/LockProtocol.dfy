/**
 Concurrent folds and liquidations as an interleaving of small steps. A task takes its position locks
 one by one in ascending order, reads each key, writes each key and then lets the locks go.
 */
module LockProtocol {
  import opened Arithmetic
  import opened PositionFolding
  import opened PositionCaching
  import opened Liquidation
  import opened Primitives

  // ---- What one task does to the keys it locks ----

  /** A liquidation also knows whether every broadcast of it lands; if one fails, all its keys are forgotten. */
  datatype Job = FoldJob(key: Key, leg: Leg) | LiquidateJob(keys: seq<Key>, marks: Marks, landed: bool) {
    function Keys(): seq<Key> {
      match this
      case FoldJob(k, _) => [k]
      case LiquidateJob(ks, _, _) => ks
    }
    /** Distinct keys in ascending order, as the liquidation sorts them. */
    predicate Sorted() {
      Keys() != [] && (forall i, j :: 0 <= i < j < |Keys()| ==> Keys()[i] < Keys()[j])
    }
  }

  datatype Write = Keep | Store(position: Position) | Evict

  function WriteOf(p: Position): Write {
    if p.signedSize == 0 then Evict else Store(p)
  }

  /** Writes, returned collateral deltas, and the realized part a fold returns beside its delta. */
  datatype Effects = Effects(writes: seq<Write>, deltas: seq<int>, realized: seq<int>)

  function HeldOf(keys: seq<Key>, seen: seq<Option<Position>>): seq<Held>
    requires |keys| == |seen|
  {
    if keys == [] then []
    else (match seen[0] case None => [] case Some(p) => [Held(keys[0], p)]) + HeldOf(keys[1..], seen[1..])
  }

  /** The outcome of a task as a function of what it read under its locks. */
  function Effect(job: Job, seen: seq<Option<Position>>): (e: Effects)
    requires |seen| == |job.Keys()|
    ensures |e.writes| == |job.Keys()|
  {
    match job
    case FoldJob(_, leg) =>
      var p := Loaded(seen[0], leg.leverage);
      var o := Applied(p, leg.fill);
      Effects([WriteOf(WithLeg(p, leg))], [o.delta + leg.extra], [o.realized])
    case LiquidateJob(keys, marks, landed) =>
      var held := HeldOf(keys, seen);
      var requirement, collateral := Requirement(held, marks), EffectiveCollateral(held);
      if requirement <= collateral then
        Effects(seq(|keys|, _ => Keep), [], [])
      else
        var bps := CloseBps(requirement, collateral);
        Effects(if landed then seq(|keys|, i requires 0 <= i < |keys| => LegWrite(keys[i], seen[i], bps, marks))
                else seq(|keys|, _ => Evict),
                seq(|held|, i requires 0 <= i < |held| => LegDelta(held[i], bps, marks)),
                [])
  }

  function LegWrite(k: Key, read: Option<Position>, bps: nat, marks: Marks): Write {
    match read
    case None => Keep
    case Some(p) => WriteOf(LegAfter(Held(k, p), bps, marks))
  }

  // ---- Cache entries ----

  function Written(e: Option<Position>, w: Write): Option<Position> {
    match w
    case Keep => e
    case Store(p) => Some(p)
    case Evict => None
  }

  function ApplyWrite(cache: Cache, k: Key, w: Write): Cache {
    match w
    case Keep => cache
    case Store(p) => cache[k := p]
    case Evict => cache - {k}
  }

  lemma EntryAfterWrite(cache: Cache, chain: Chain, k: Key, w: Write, other: Key)
    ensures Entry(ApplyWrite(cache, k, w), k) == Written(Entry(cache, k), w)
    ensures other != k ==> Entry(ApplyWrite(cache, k, w), other) == Entry(cache, other)
    ensures other != k ==> Read(ApplyWrite(cache, k, w), chain, other) == Read(cache, chain, other)
  {}

  function ReadAll(cache: Cache, chain: Chain, keys: seq<Key>): (r: seq<Option<Position>>)
    ensures |r| == |keys|
  {
    seq(|keys|, i requires 0 <= i < |keys| => Read(cache, chain, keys[i]))
  }

  function WriteAll(cache: Cache, keys: seq<Key>, ws: seq<Write>): Cache
    requires |keys| == |ws|
  {
    if keys == [] then cache
    else
      var n := |keys| - 1;
      ApplyWrite(WriteAll(cache, keys[..n], ws[..n]), keys[n], ws[n])
  }

  lemma {:induction false} WriteAllEntry(cache: Cache, keys: seq<Key>, ws: seq<Write>, k: Key)
    requires |keys| == |ws|
    requires forall i, j :: 0 <= i < j < |keys| ==> keys[i] < keys[j]
    ensures k !in keys ==> Entry(WriteAll(cache, keys, ws), k) == Entry(cache, k)
    ensures forall i :: 0 <= i < |keys| && keys[i] == k ==>
              Entry(WriteAll(cache, keys, ws), k) == Written(Entry(cache, k), ws[i])
  {
    if keys != [] {
      WriteAllEntry(cache, keys[..|keys| - 1], ws[..|keys| - 1], k);
    }
  }

  // ---- Running one task at a time ----

  /** The cache after some tasks, and what each of them read. */
  datatype SerialState = SerialState(cache: Cache, seen: map<nat, seq<Option<Position>>>)

  /** What the chain answers a task, key by key: a task reads every key once, and the chain may move in between. */
  type Views = seq<Chain>

  function ViewOf(views: Views, t: nat): Chain {
    if t < |views| then views[t] else map[]
  }

  function RunJob(jobs: seq<Job>, views: Views, s: SerialState, t: nat): SerialState
    requires t < |jobs|
  {
    var keys := jobs[t].Keys();
    var seen := ReadAll(s.cache, ViewOf(views, t), keys);
    SerialState(WriteAll(s.cache, keys, Effect(jobs[t], seen).writes), s.seen[t := seen])
  }

  function Serial(jobs: seq<Job>, views: Views, init: Cache, order: seq<nat>): SerialState
    requires forall i :: 0 <= i < |order| ==> order[i] < |jobs|
  {
    if order == [] then SerialState(init, map[])
    else RunJob(jobs, views, Serial(jobs, views, init, order[..|order| - 1]), order[|order| - 1])
  }

  /** A fold run on its own is exactly the program's read-fold-write on its key. */
  lemma FoldJobIsLoadAndFold(cache: Cache, chain: Chain, k: Key, leg: Leg)
    ensures var job := FoldJob(k, leg);
      var e := Effect(job, ReadAll(cache, chain, [k]));
      var r := LoadAndFold(cache, chain, k, leg);
      WriteAll(cache, [k], e.writes) == r.cache && e.deltas == [r.delta] && e.realized == [r.realized]
  {
    hide Applied;
  }

  lemma {:induction false} HeldOfLast(keys: seq<Key>, seen: seq<Option<Position>>)
    requires |keys| == |seen| > 0
    ensures var n := |keys| - 1;
      HeldOf(keys, seen)
      == HeldOf(keys[..n], seen[..n]) + (match seen[n] case None => [] case Some(p) => [Held(keys[n], p)])
    decreases |keys|
  {
    var n := |keys| - 1;
    if n > 0 {
      HeldOfLast(keys[1..], seen[1..]);
      assert keys[1..][..n - 1] == keys[..n][1..] && seen[1..][..n - 1] == seen[..n][1..];
    } else {
      assert keys[1..] == [] && HeldOf(keys[1..], seen[1..]) == [] && HeldOf(keys[..0], seen[..0]) == [];
    }
  }

  /** What a liquidation holds is exactly what it read, key by key. */
  lemma {:induction false} HeldIsWhatWasRead(keys: seq<Key>, seen: seq<Option<Position>>, k: Key, p: Position)
    requires |keys| == |seen|
    ensures Held(k, p) in HeldOf(keys, seen) <==> exists i :: 0 <= i < |keys| && keys[i] == k && seen[i] == Some(p)
    ensures |HeldOf(keys, seen)| <= |keys|
    decreases |keys|
  {
    if keys != [] {
      var rest := HeldOf(keys[1..], seen[1..]);
      HeldIsWhatWasRead(keys[1..], seen[1..], k, p);
      if Held(k, p) in rest {
        var j :| 0 <= j < |keys[1..]| && keys[1..][j] == k && seen[1..][j] == Some(p);
        assert keys[j + 1] == k && seen[j + 1] == Some(p);
      }
      if i :| 0 <= i < |keys| && keys[i] == k && seen[i] == Some(p) && i > 0 {
        assert keys[1..][i - 1] == k && seen[1..][i - 1] == Some(p);
      }
    }
  }

  /** A breached liquidation run on its own writes what the sizing of its held legs leaves in the cache. */
  lemma {:induction false} LegWritesAreSizing(cache: Cache, keys: seq<Key>, seen: seq<Option<Position>>, bps: nat,
                                              marks: Marks)
    requires |keys| == |seen|
    ensures WriteAll(cache, keys, seq(|keys|, i requires 0 <= i < |keys| => LegWrite(keys[i], seen[i], bps, marks)))
         == CacheAfterLegs(cache, HeldOf(keys, seen), bps, marks)
    decreases |keys|
  {
    hide LegAfter;
    if keys != [] {
      var n := |keys| - 1;
      var ws := seq(|keys|, i requires 0 <= i < |keys| => LegWrite(keys[i], seen[i], bps, marks));
      HeldOfLast(keys, seen);
      LegWritesAreSizing(cache, keys[..n], seen[..n], bps, marks);
      assert ws[..n] == seq(n, i requires 0 <= i < n => LegWrite(keys[..n][i], seen[..n][i], bps, marks));
      match seen[n] {
        case None =>
          assert HeldOf(keys[..n], seen[..n]) + [] == HeldOf(keys[..n], seen[..n]);
        case Some(p) =>
          var h := HeldOf(keys, seen);
          assert h[..|h| - 1] == HeldOf(keys[..n], seen[..n]) && h[|h| - 1] == Held(keys[n], p);
      }
    }
  }

  lemma {:induction false} NothingWritten(cache: Cache, keys: seq<Key>, ws: seq<Write>)
    requires |keys| == |ws| && forall i :: 0 <= i < |ws| ==> ws[i] == Keep
    ensures WriteAll(cache, keys, ws) == cache
  {
    if keys != [] {
      NothingWritten(cache, keys[..|keys| - 1], ws[..|ws| - 1]);
    }
  }

  function KeySet(keys: seq<Key>): set<Key> {
    set k | k in keys
  }

  lemma KeySetGrows(keys: seq<Key>, k: Key)
    ensures KeySet(keys + [k]) == KeySet(keys) + {k}
  {}

  lemma {:induction false} AllEvicted(cache: Cache, keys: seq<Key>, ws: seq<Write>)
    requires |keys| == |ws| && forall i :: 0 <= i < |ws| ==> ws[i] == Evict
    ensures WriteAll(cache, keys, ws) == cache - KeySet(keys)
  {
    if keys != [] {
      var n := |keys| - 1;
      AllEvicted(cache, keys[..n], ws[..n]);
      assert keys == keys[..n] + [keys[n]];
      KeySetGrows(keys[..n], keys[n]);
    }
  }

  lemma {:induction false} SizedLegDeltas(hs: seq<Held>, bps: nat, marks: Marks)
    ensures var legs := SizedLegs(hs, bps, marks);
      && |legs| == |hs|
      && forall i :: 0 <= i < |hs| ==> legs[i].key == hs[i].key && legs[i].delta == LegDelta(hs[i], bps, marks)
  {
    hide LegDelta;
    if hs != [] {
      SizedLegDeltas(hs[..|hs| - 1], bps, marks);
    }
  }

  /**
   A liquidation run on its own: nothing when healthy, otherwise the sizing of every leg it read, all of which is
   forgotten again when a broadcast fails.
   */
  lemma LiquidateJobIsSizing(cache: Cache, chain: Chain, keys: seq<Key>, marks: Marks, landed: bool)
    ensures var seen := ReadAll(cache, chain, keys);
      var held, e := HeldOf(keys, seen), Effect(LiquidateJob(keys, marks, landed), seen);
      var requirement, collateral := Requirement(held, marks), EffectiveCollateral(held);
      var bps := CloseBps(requirement, collateral);
      if requirement <= collateral then WriteAll(cache, keys, e.writes) == cache && e.deltas == []
      else && WriteAll(cache, keys, e.writes)
              == (if landed then CacheAfterLegs(cache, held, bps, marks) else cache - KeySet(keys))
           && |e.deltas| == |SizedLegs(held, bps, marks)|
           && forall i :: 0 <= i < |e.deltas| ==> e.deltas[i] == SizedLegs(held, bps, marks)[i].delta
  {
    hide WriteAll, SizedLegs, LegDelta, CacheAfterLegs, CloseBps, HeldOf, Requirement, EffectiveCollateral;
    var seen := ReadAll(cache, chain, keys);
    var held, e := HeldOf(keys, seen), Effect(LiquidateJob(keys, marks, landed), seen);
    var bps := CloseBps(Requirement(held, marks), EffectiveCollateral(held));
    if Requirement(held, marks) <= EffectiveCollateral(held) {
      NothingWritten(cache, keys, e.writes);
    } else {
      SizedLegDeltas(held, bps, marks);
      if landed {
        LegWritesAreSizing(cache, keys, seen, bps, marks);
      } else {
        AllEvicted(cache, keys, e.writes);
      }
    }
  }

  /** Every leg a liquidation caches belongs to a key it locked. */
  lemma {:induction false} SizingStaysWithinKeys(cache: Cache, hs: seq<Held>, bps: nat, marks: Marks, keys: set<Key>)
    requires forall i :: 0 <= i < |hs| ==> hs[i].key in keys
    ensures CacheAfterLegs(cache, hs, bps, marks) - keys == cache - keys
  {
    hide LegAfter;
    if hs != [] {
      SizingStaysWithinKeys(cache, hs[..|hs| - 1], bps, marks, keys);
    }
  }

  lemma {:induction false} HeldAreAmongKeys(keys: seq<Key>, seen: seq<Option<Position>>)
    requires |keys| == |seen|
    ensures forall i :: 0 <= i < |HeldOf(keys, seen)| ==> HeldOf(keys, seen)[i].key in keys
  {
    if keys != [] {
      HeldAreAmongKeys(keys[1..], seen[1..]);
    }
  }

  // ---- Interleaved execution ----

  /** A lock is held by a task as the `index`-th of its keys. */
  datatype Lock = Lock(task: nat, index: nat)

  /** `log` lists the tasks in the order in which they completed their locking. */
  datatype State = State(cache: Cache, owner: map<Key, Lock>, pc: seq<nat>, seen: seq<seq<Option<Position>>>,
                         log: seq<nat>)

  datatype System = System(jobs: seq<Job>, views: Views, init: Cache) {
    predicate Valid() {
      forall t :: 0 <= t < |jobs| ==> jobs[t].Sorted()
    }
    function Size(t: nat): nat
      requires t < |jobs|
    {
      |jobs[t].Keys()|
    }
    function KeyOf(t: nat, i: nat): Key
      requires t < |jobs| && i < Size(t)
    {
      jobs[t].Keys()[i]
    }
    function Boot(): (s: State)
      ensures Fits(s)
    {
      State(init, map[], seq(|jobs|, _ => 0), seq(|jobs|, _ => []), [])
    }
    predicate TaskFits(s: State, t: nat)
      requires t < |jobs| == |s.pc| == |s.seen|
    {
      |s.seen[t]| == Max(0, Min(s.pc[t] - Size(t), Size(t)))
    }
    predicate Fits(s: State) {
      && |s.pc| == |s.seen| == |jobs|
      && (forall t :: 0 <= t < |jobs| ==> TaskFits(s, t))
      && (forall i :: 0 <= i < |s.log| ==> s.log[i] < |jobs|)
    }
    predicate Done(s: State, t: nat)
      requires Fits(s) && t < |jobs|
    {
      s.pc[t] >= 4 * Size(t)
    }
    predicate Runnable(s: State, t: nat)
      requires Fits(s)
    {
      t < |jobs| && !Done(s, t) && (s.pc[t] < Size(t) ==> KeyOf(t, s.pc[t]) !in s.owner)
    }

    // The four kinds of atomic step of a task with `n` keys: n acquisitions, n reads, n writes, n releases.

    function Acquire(s: State, t: nat): State
      requires Fits(s) && t < |jobs| && s.pc[t] < Size(t)
    {
      s.(pc := s.pc[t := s.pc[t] + 1],
         owner := s.owner[KeyOf(t, s.pc[t]) := Lock(t, s.pc[t])],
         log := if s.pc[t] + 1 == Size(t) then s.log + [t] else s.log)
    }
    function ReadKey(s: State, t: nat): State
      requires Fits(s) && t < |jobs| && Size(t) <= s.pc[t] < 2 * Size(t)
    {
      s.(pc := s.pc[t := s.pc[t] + 1],
         seen := s.seen[t := s.seen[t] + [Read(s.cache, ViewOf(views, t), KeyOf(t, s.pc[t] - Size(t)))]])
    }
    function WriteKey(s: State, t: nat): State
      requires Fits(s) && t < |jobs| && 2 * Size(t) <= s.pc[t] < 3 * Size(t)
    {
      var i := s.pc[t] - 2 * Size(t);
      assert TaskFits(s, t);
      s.(pc := s.pc[t := s.pc[t] + 1],
         cache := ApplyWrite(s.cache, KeyOf(t, i), Effect(jobs[t], s.seen[t]).writes[i]))
    }
    function Release(s: State, t: nat): State
      requires Fits(s) && t < |jobs| && 3 * Size(t) <= s.pc[t] < 4 * Size(t)
    {
      s.(pc := s.pc[t := s.pc[t] + 1], owner := s.owner - {KeyOf(t, s.pc[t] - 3 * Size(t))})
    }
    function Step(s: State, t: nat): State
      requires Fits(s) && Runnable(s, t)
    {
      if s.pc[t] < Size(t) then Acquire(s, t)
      else if s.pc[t] < 2 * Size(t) then ReadKey(s, t)
      else if s.pc[t] < 3 * Size(t) then WriteKey(s, t)
      else Release(s, t)
    }
  }

  lemma StepFits(y: System, s: State, t: nat)
    requires y.Fits(s) && y.Runnable(s, t)
    ensures y.Fits(y.Step(s, t))
  {
    hide Effect;
    var r := y.Step(s, t);
    assert y.TaskFits(s, t);
    forall u | 0 <= u < |y.jobs| ensures y.TaskFits(r, u) {
      assert y.TaskFits(s, u);
    }
  }

  predicate Schedulable(y: System, s: State, schedule: seq<nat>)
    requires y.Fits(s)
    decreases |schedule|
  {
    schedule != [] ==>
      && y.Runnable(s, schedule[0])
      && (StepFits(y, s, schedule[0]); Schedulable(y, y.Step(s, schedule[0]), schedule[1..]))
  }

  function Execute(y: System, s: State, schedule: seq<nat>): (r: State)
    requires y.Fits(s) && Schedulable(y, s, schedule)
    ensures y.Fits(r)
    decreases |schedule|
  {
    if schedule == [] then s
    else StepFits(y, s, schedule[0]); Execute(y, y.Step(s, schedule[0]), schedule[1..])
  }

  // ---- Invariants ----

  predicate Holds(y: System, s: State, t: nat, i: nat)
    requires y.Fits(s)
  {
    t < |y.jobs| && i < y.Size(t) && i < s.pc[t] <= 3 * y.Size(t) + i
  }

  /** Locks are held exactly by the tasks that took them and have not let them go. */
  ghost predicate LocksAgree(y: System, s: State)
    requires y.Fits(s)
  {
    && (forall t, i :: Holds(y, s, t, i) ==> y.KeyOf(t, i) in s.owner && s.owner[y.KeyOf(t, i)] == Lock(t, i))
    && (forall k :: k in s.owner ==>
          Holds(y, s, s.owner[k].task, s.owner[k].index) && y.KeyOf(s.owner[k].task, s.owner[k].index) == k)
  }

  ghost predicate LogAgrees(y: System, s: State)
    requires y.Fits(s)
  {
    && (forall t :: 0 <= t < |y.jobs| ==> (t in s.log <==> s.pc[t] >= y.Size(t)))
    && (forall i, j :: 0 <= i < j < |s.log| ==> s.log[i] != s.log[j])
  }

  /** The tasks of the log run one at a time. */
  function Ideal(y: System, s: State): SerialState
    requires y.Fits(s)
  {
    Serial(y.jobs, y.views, y.init, s.log)
  }

  /** What a task past its locking has read is what it reads when run alone at its place in the log. */
  ghost predicate SeenAgrees(y: System, s: State, ideal: SerialState, t: nat)
    requires y.Fits(s) && t < |y.jobs|
  {
    s.pc[t] >= y.Size(t) ==>
      && t in ideal.seen && |ideal.seen[t]| == y.Size(t)
      && s.seen[t] <= ideal.seen[t]
  }

  /** The key's holder has all its locks and has not written this key yet. */
  predicate Pending(y: System, s: State, k: Key)
    requires y.Fits(s)
  {
    k in s.owner &&
    var l := s.owner[k];
    l.task < |y.jobs| && l.index < y.Size(l.task) && y.Size(l.task) <= s.pc[l.task] <= 2 * y.Size(l.task) + l.index
  }

  /**
   A key still to be written holds what its task reads when run alone, and the write will bring it to the
   ideal cache; every other key is there already.
   */
  ghost predicate KeyAgrees(y: System, s: State, ideal: SerialState, k: Key)
    requires y.Fits(s)
  {
    if Pending(y, s, k) then
      var l := s.owner[k];
      && l.task in ideal.seen && |ideal.seen[l.task]| == y.Size(l.task)
      && Read(s.cache, ViewOf(y.views, l.task), k) == ideal.seen[l.task][l.index]
      && Entry(ideal.cache, k)
         == Written(Entry(s.cache, k), Effect(y.jobs[l.task], ideal.seen[l.task]).writes[l.index])
    else
      Entry(s.cache, k) == Entry(ideal.cache, k)
  }

  ghost predicate DataAgrees(y: System, s: State, ideal: SerialState)
    requires y.Fits(s)
  {
    && (forall t :: 0 <= t < |y.jobs| ==> SeenAgrees(y, s, ideal, t))
    && (forall k :: KeyAgrees(y, s, ideal, k))
  }

  ghost predicate Inv(y: System, s: State) {
    y.Fits(s) && LocksAgree(y, s) && LogAgrees(y, s) && DataAgrees(y, s, Ideal(y, s))
  }

  lemma BootInv(y: System)
    requires y.Valid()
    ensures Inv(y, y.Boot())
  {
    hide Effect;
    var s := y.Boot();
    forall t | 0 <= t < |y.jobs| ensures y.Size(t) > 0 && y.TaskFits(s, t) {
      assert y.jobs[t].Sorted();
    }
  }

  // ---- Every step keeps them ----

  lemma AcquireLocks(y: System, s: State, t: nat, r: State)
    requires y.Fits(s) && LocksAgree(y, s) && y.Runnable(s, t) && y.Fits(r)
    requires s.pc[t] < y.Size(t) && r == y.Acquire(s, t)
    ensures LocksAgree(y, r)
  {
    assert forall u, i :: Holds(y, r, u, i) <==> Holds(y, s, u, i) || (u == t && i == s.pc[t]);
  }

  lemma KeepLocks(y: System, s: State, t: nat, r: State)
    requires y.Fits(s) && LocksAgree(y, s) && y.Runnable(s, t) && y.Fits(r)
    requires y.Size(t) <= s.pc[t] < 3 * y.Size(t) && r.owner == s.owner && r.pc == s.pc[t := s.pc[t] + 1]
    ensures LocksAgree(y, r)
  {
    assert forall u, i :: Holds(y, r, u, i) <==> Holds(y, s, u, i);
  }

  lemma HoldsAfterRelease(y: System, s: State, t: nat, r: State, u: nat, i: nat)
    requires y.Fits(s) && y.Runnable(s, t) && y.Fits(r) && 3 * y.Size(t) <= s.pc[t] && r == y.Release(s, t)
    ensures Holds(y, r, u, i) <==> Holds(y, s, u, i) && !(u == t && i == s.pc[t] - 3 * y.Size(t))
  {}

  /** A holder that has not released keeps its own lock. */
  lemma ReleaseKeepsHolder(y: System, s: State, t: nat, r: State, u: nat, i: nat)
    requires y.Valid() && y.Fits(s) && LocksAgree(y, s) && y.Runnable(s, t) && y.Fits(r)
    requires 3 * y.Size(t) <= s.pc[t] && r == y.Release(s, t) && Holds(y, r, u, i)
    ensures y.KeyOf(u, i) in r.owner && r.owner[y.KeyOf(u, i)] == Lock(u, i)
  {
    var j := s.pc[t] - 3 * y.Size(t);
    HoldsAfterRelease(y, s, t, r, u, i);
    assert Holds(y, s, t, j);
    hide Holds, System.Fits;
  }

  lemma OwnerHolds(y: System, s: State, k: Key)
    requires y.Fits(s) && LocksAgree(y, s) && k in s.owner
    ensures Holds(y, s, s.owner[k].task, s.owner[k].index) && y.KeyOf(s.owner[k].task, s.owner[k].index) == k
  {
    hide Holds, System.Fits;
  }

  lemma ReleaseKeepsOwner(y: System, s: State, t: nat, r: State, k: Key)
    requires y.Valid() && y.Fits(s) && LocksAgree(y, s) && y.Runnable(s, t) && y.Fits(r)
    requires 3 * y.Size(t) <= s.pc[t] && r == y.Release(s, t) && k in r.owner
    ensures Holds(y, r, r.owner[k].task, r.owner[k].index) && y.KeyOf(r.owner[k].task, r.owner[k].index) == k
  {
    hide LocksAgree, System.Fits, System.Valid, System.TaskFits, System.Runnable;
    OwnerHolds(y, s, k);
    HoldsAfterRelease(y, s, t, r, s.owner[k].task, s.owner[k].index);
    hide Holds;
  }

  lemma ReleaseLocks(y: System, s: State, t: nat, r: State)
    requires y.Valid() && y.Fits(s) && LocksAgree(y, s) && y.Runnable(s, t) && y.Fits(r)
    requires 3 * y.Size(t) <= s.pc[t] && r == y.Release(s, t)
    ensures LocksAgree(y, r)
  {
    hide System.Fits, System.Release, System.Valid;
    forall u, i | Holds(y, r, u, i) ensures y.KeyOf(u, i) in r.owner && r.owner[y.KeyOf(u, i)] == Lock(u, i) {
      ReleaseKeepsHolder(y, s, t, r, u, i);
    }
    forall k | k in r.owner
      ensures Holds(y, r, r.owner[k].task, r.owner[k].index) && y.KeyOf(r.owner[k].task, r.owner[k].index) == k
    {
      ReleaseKeepsOwner(y, s, t, r, k);
    }
  }

  lemma StepLocks(y: System, s: State, t: nat, r: State)
    requires y.Valid() && y.Fits(s) && LocksAgree(y, s) && y.Runnable(s, t) && y.Fits(r) && r == y.Step(s, t)
    ensures LocksAgree(y, r)
  {
    hide Effect, LocksAgree;
    if s.pc[t] < y.Size(t) {
      AcquireLocks(y, s, t, r);
    } else if s.pc[t] < 3 * y.Size(t) {
      KeepLocks(y, s, t, r);
    } else {
      ReleaseLocks(y, s, t, r);
    }
  }

  lemma StepLog(y: System, s: State, t: nat, r: State)
    requires y.Valid() && y.Fits(s) && LogAgrees(y, s) && y.Runnable(s, t) && y.Fits(r) && r == y.Step(s, t)
    ensures LogAgrees(y, r)
  {
    hide Effect, Read, ApplyWrite, System.TaskFits;
    assert y.jobs[t].Sorted();
    assert r.pc == s.pc[t := s.pc[t] + 1];
    if s.pc[t] + 1 == y.Size(t) {
      assert r.log == s.log + [t] && t !in s.log;
      forall u | 0 <= u < |y.jobs| ensures u in r.log <==> r.pc[u] >= y.Size(u) {
        assert u in r.log <==> u in s.log || u == t;
      }
    } else {
      assert r.log == s.log;
    }
  }

  /** Locking before the last lock, and releasing, touch neither data nor log. */
  lemma StepLockOnly(y: System, s: State, t: nat, r: State, ideal: SerialState)
    requires y.Fits(s) && LocksAgree(y, s) && y.Runnable(s, t) && y.Fits(r) && r == y.Step(s, t)
    requires s.pc[t] + 1 < y.Size(t) || s.pc[t] >= 3 * y.Size(t)
    requires DataAgrees(y, s, ideal)
    ensures DataAgrees(y, r, ideal)
  {
    hide Effect;
    forall u | 0 <= u < |y.jobs| ensures SeenAgrees(y, r, ideal, u) {
      assert SeenAgrees(y, s, ideal, u);
    }
    forall k ensures KeyAgrees(y, r, ideal, k) {
      assert KeyAgrees(y, s, ideal, k);
      assert Pending(y, r, k) <==> Pending(y, s, k);
    }
  }

  lemma StepRead(y: System, s: State, t: nat, r: State, ideal: SerialState)
    requires y.Fits(s) && LocksAgree(y, s) && y.Runnable(s, t) && y.Fits(r)
    requires y.Size(t) <= s.pc[t] < 2 * y.Size(t) && r == y.ReadKey(s, t)
    requires DataAgrees(y, s, ideal)
    ensures DataAgrees(y, r, ideal)
  {
    hide Effect, Read, Written;
    var i := s.pc[t] - y.Size(t);
    assert y.TaskFits(s, t) && Holds(y, s, t, i);
    assert KeyAgrees(y, s, ideal, y.KeyOf(t, i));
    forall u | 0 <= u < |y.jobs| ensures SeenAgrees(y, r, ideal, u) {
      assert SeenAgrees(y, s, ideal, u);
    }
    forall k ensures KeyAgrees(y, r, ideal, k) {
      assert KeyAgrees(y, s, ideal, k);
      assert Pending(y, r, k) <==> Pending(y, s, k);
    }
  }

  lemma StepWrite(y: System, s: State, t: nat, r: State, ideal: SerialState)
    requires y.Valid() && y.Fits(s) && LocksAgree(y, s) && y.Runnable(s, t) && y.Fits(r)
    requires 2 * y.Size(t) <= s.pc[t] < 3 * y.Size(t) && r == y.WriteKey(s, t)
    requires DataAgrees(y, s, ideal)
    ensures DataAgrees(y, r, ideal)
  {
    hide Effect, Read, Written, ApplyWrite, Entry;
    var w := s.pc[t] - 2 * y.Size(t);
    assert SeenAgrees(y, s, ideal, t);
    forall u | 0 <= u < |y.jobs| ensures SeenAgrees(y, r, ideal, u) {
      assert SeenAgrees(y, s, ideal, u);
    }
    forall k ensures KeyAgrees(y, r, ideal, k) {
      assert KeyAgrees(y, s, ideal, k);
      WriteOneKey(y, s, t, r, ideal, k);
    }
  }

  lemma WriteOneKey(y: System, s: State, t: nat, r: State, ideal: SerialState, k: Key)
    requires y.Valid() && y.Fits(s) && LocksAgree(y, s) && y.Runnable(s, t) && y.Fits(r)
    requires 2 * y.Size(t) <= s.pc[t] < 3 * y.Size(t) && r == y.WriteKey(s, t)
    requires SeenAgrees(y, s, ideal, t) && KeyAgrees(y, s, ideal, k)
    ensures KeyAgrees(y, r, ideal, k)
  {
    hide Effect, Read, Written, ApplyWrite, Entry;
    var w := s.pc[t] - 2 * y.Size(t);
    assert y.TaskFits(s, t) && s.seen[t] == ideal.seen[t];
    assert Holds(y, s, t, w);
    forall chain ensures k != y.KeyOf(t, w) ==> Read(r.cache, chain, k) == Read(s.cache, chain, k) {
      EntryAfterWrite(s.cache, chain, y.KeyOf(t, w), Effect(y.jobs[t], s.seen[t]).writes[w], k);
    }
    EntryAfterWrite(s.cache, map[], y.KeyOf(t, w), Effect(y.jobs[t], s.seen[t]).writes[w], k);
    if k == y.KeyOf(t, w) {
      assert Pending(y, s, k) && !Pending(y, r, k);
    } else {
      assert Pending(y, r, k) <==> Pending(y, s, k);
    }
  }

  /** The last lock: from here on the task counts as run in the ideal order, though it has not read yet. */
  lemma StepCommit(y: System, s: State, t: nat, r: State, before: SerialState, after: SerialState)
    requires y.Valid() && y.Fits(s) && LocksAgree(y, s) && y.Runnable(s, t) && y.Fits(r)
    requires s.pc[t] + 1 == y.Size(t) && r == y.Acquire(s, t)
    requires DataAgrees(y, s, before) && after == RunJob(y.jobs, y.views, before, t)
    ensures DataAgrees(y, r, after)
  {
    hide Effect;
    var keys := y.jobs[t].Keys();
    assert y.TaskFits(s, t);
    forall u | 0 <= u < |y.jobs| ensures SeenAgrees(y, r, after, u) {
      assert SeenAgrees(y, s, before, u);
    }
    forall k ensures KeyAgrees(y, r, after, k) {
      CommitKey(y, s, t, r, before, after, k);
    }
  }

  lemma CommitKey(y: System, s: State, t: nat, r: State, before: SerialState, after: SerialState, k: Key)
    requires y.Valid() && y.Fits(s) && LocksAgree(y, s) && y.Runnable(s, t) && y.Fits(r)
    requires s.pc[t] + 1 == y.Size(t) && r == y.Acquire(s, t)
    requires KeyAgrees(y, s, before, k) && after == RunJob(y.jobs, y.views, before, t)
    ensures KeyAgrees(y, r, after, k)
  {
    hide Effect, WriteAll, Read, Written, Entry, System.TaskFits;
    var keys := y.jobs[t].Keys();
    assert y.jobs[t].Sorted();
    WriteAllEntry(before.cache, keys, Effect(y.jobs[t], after.seen[t]).writes, k);
    if k in keys {
      CommitOwnKey(y, s, t, r, k);
      ReadByEntry(s.cache, before.cache, ViewOf(y.views, t), k);
    } else {
      assert Pending(y, r, k) <==> Pending(y, s, k);
    }
  }

  lemma CommitOwnKey(y: System, s: State, t: nat, r: State, k: Key)
    requires y.Valid() && y.Fits(s) && LocksAgree(y, s) && y.Runnable(s, t) && y.Fits(r)
    requires s.pc[t] + 1 == y.Size(t) && r == y.Acquire(s, t) && k in y.jobs[t].Keys()
    ensures !Pending(y, s, k) && k in r.owner && r.owner[k].task == t
    ensures r.owner[k].index < y.Size(t) && y.KeyOf(t, r.owner[k].index) == k
  {
    hide System.TaskFits;
    assert y.jobs[t].Sorted();
    var keys := y.jobs[t].Keys();
    var i :| 0 <= i < |keys| && keys[i] == k;
    assert Holds(y, s, t, i) || i == s.pc[t];
  }

  lemma StepInv(y: System, s: State, t: nat)
    requires y.Valid() && Inv(y, s) && y.Runnable(s, t)
    ensures y.Fits(y.Step(s, t)) && Inv(y, y.Step(s, t))
  {
    hide Effect, DataAgrees, LocksAgree, LogAgrees;
    StepFits(y, s, t);
    var n, pc, r := y.Size(t), s.pc[t], y.Step(s, t);
    StepLocks(y, s, t, r);
    StepLog(y, s, t, r);
    if pc + 1 < n || pc >= 3 * n {
      StepLockOnly(y, s, t, r, Ideal(y, s));
    } else if pc + 1 == n {
      assert r.log[..|r.log| - 1] == s.log;
      StepCommit(y, s, t, r, Ideal(y, s), Ideal(y, r));
    } else if pc < 2 * n {
      StepRead(y, s, t, r, Ideal(y, s));
    } else {
      StepWrite(y, s, t, r, Ideal(y, s));
    }
  }

  lemma {:induction false} ExecuteInv(y: System, s: State, schedule: seq<nat>)
    requires y.Valid() && Inv(y, s) && Schedulable(y, s, schedule)
    ensures Inv(y, Execute(y, s, schedule))
    decreases |schedule|
  {
    hide LocksAgree, LogAgrees, DataAgrees;
    if schedule != [] {
      StepInv(y, s, schedule[0]);
      ExecuteInv(y, y.Step(s, schedule[0]), schedule[1..]);
    }
  }

  // ---- Serialisability ----

  ghost predicate AllDone(y: System, s: State)
    requires y.Fits(s)
  {
    forall t :: 0 <= t < |y.jobs| ==> y.Done(s, t)
  }

  /** When every task is done, nothing is pending: cache and reads are the ideal ones. */
  lemma FinishedAgrees(y: System, s: State)
    requires y.Valid() && Inv(y, s) && AllDone(y, s)
    ensures s.cache == Ideal(y, s).cache
    ensures forall t :: 0 <= t < |y.jobs| ==>
              && t in s.log && t in Ideal(y, s).seen
              && s.seen[t] == Ideal(y, s).seen[t] && |s.seen[t]| == |y.jobs[t].Keys()|
  {
    hide Effect, Serial, Read, Written, Entry;
    var ideal := Ideal(y, s);
    forall t | 0 <= t < |y.jobs|
      ensures t in s.log && t in ideal.seen && s.seen[t] == ideal.seen[t] && |s.seen[t]| == |y.jobs[t].Keys()|
    {
      assert y.jobs[t].Sorted() && y.Done(s, t) && y.TaskFits(s, t) && SeenAgrees(y, s, ideal, t);
    }
    forall k ensures Entry(s.cache, k) == Entry(ideal.cache, k) {
      assert KeyAgrees(y, s, ideal, k);
      assert k in s.owner && s.owner[k].task < |y.jobs| ==> y.Done(s, s.owner[k].task);
      assert !Pending(y, s, k);
    }
    SameEntries(s.cache, ideal.cache);
  }

  /**
   Whatever the interleaving: once all tasks are done, the cache is what running them one at a time in the
   logged order leaves, every task did and returned exactly what it does and returns in that run, and the log
   contains every task once.
   */
  lemma InterleavingsAreSerial(y: System, schedule: seq<nat>)
    requires y.Valid() && Schedulable(y, y.Boot(), schedule)
    requires AllDone(y, Execute(y, y.Boot(), schedule))
    ensures IsSerial(y, y.views, Execute(y, y.Boot(), schedule))
  {
    hide Effect, Serial, LocksAgree, DataAgrees, AllDone, Execute, Schedulable;
    BootInv(y);
    ExecuteInv(y, y.Boot(), schedule);
    FinishedAgrees(y, Execute(y, y.Boot(), schedule));
  }

  /**
   The cache and every task's writes, deltas and realized parts are those of the logged order, each task once in it.
   */
  ghost predicate IsSerial(y: System, views: Views, s: State)
    requires y.Fits(s)
  {
    var serial := Serial(y.jobs, views, y.init, s.log);
    && s.cache == serial.cache
    && (forall t :: 0 <= t < |y.jobs| ==>
          && t in s.log && t in serial.seen && |s.seen[t]| == |serial.seen[t]| == |y.jobs[t].Keys()|
          && Effect(y.jobs[t], s.seen[t]) == Effect(y.jobs[t], serial.seen[t]))
    && (forall i, j :: 0 <= i < j < |s.log| ==> s.log[i] != s.log[j])
  }

  lemma SameEntries(a: Cache, b: Cache)
    requires forall k :: Entry(a, k) == Entry(b, k)
    ensures a == b
  {
    forall k ensures (k in a <==> k in b) && (k in a ==> a[k] == b[k]) {
      assert Entry(a, k) == Entry(b, k);
    }
  }

  // ---- While the chain moves ----

  /** One turn of the scheduler: the task that steps, and what the chain holds at that moment. */
  datatype Turn = Turn(task: nat, chain: Chain)

  predicate IsReading(y: System, s: State, t: nat)
    requires y.Fits(s)
  {
    t < |y.jobs| && y.Size(t) <= s.pc[t] < 2 * y.Size(t)
  }

  function ReadingKey(y: System, s: State, t: nat): Key
    requires y.Fits(s) && IsReading(y, s, t)
  {
    y.KeyOf(t, s.pc[t] - y.Size(t))
  }

  /** A step against the chain of the moment; only reads look at it. */
  function LiveStep(y: System, s: State, turn: Turn): State
    requires y.Fits(s) && y.Runnable(s, turn.task)
  {
    var t := turn.task;
    if IsReading(y, s, t) then
      s.(pc := s.pc[t := s.pc[t] + 1],
         seen := s.seen[t := s.seen[t] + [Read(s.cache, turn.chain, ReadingKey(y, s, t))]])
    else y.Step(s, t)
  }

  lemma LiveStepFits(y: System, s: State, turn: Turn)
    requires y.Fits(s) && y.Runnable(s, turn.task)
    ensures y.Fits(LiveStep(y, s, turn))
    ensures LiveStep(y, s, turn).pc == s.pc[turn.task := s.pc[turn.task] + 1]
  {
    hide Effect, Read, ApplyWrite;
    StepFits(y, s, turn.task);
    var r := LiveStep(y, s, turn);
    assert y.TaskFits(s, turn.task);
    forall u | 0 <= u < |y.jobs| ensures y.TaskFits(r, u) {
      assert y.TaskFits(s, u) && y.TaskFits(y.Step(s, turn.task), u);
    }
  }

  predicate LiveSchedulable(y: System, s: State, turns: seq<Turn>)
    requires y.Fits(s)
    decreases |turns|
  {
    turns != [] ==>
      && y.Runnable(s, turns[0].task)
      && (LiveStepFits(y, s, turns[0]); LiveSchedulable(y, LiveStep(y, s, turns[0]), turns[1..]))
  }

  function LiveExecute(y: System, s: State, turns: seq<Turn>): (r: State)
    requires y.Fits(s) && LiveSchedulable(y, s, turns)
    ensures y.Fits(r)
    decreases |turns|
  {
    if turns == [] then s
    else LiveStepFits(y, s, turns[0]); LiveExecute(y, LiveStep(y, s, turns[0]), turns[1..])
  }

  function Tasks(turns: seq<Turn>): seq<nat> {
    if turns == [] then [] else [turns[0].task] + Tasks(turns[1..])
  }

  /** The views answer every read of the run as the chain of its moment does. */
  predicate Foresees(y: System, views: Views, s: State, turns: seq<Turn>)
    requires y.Fits(s) && LiveSchedulable(y, s, turns)
    decreases |turns|
  {
    turns != [] ==>
      var t := turns[0].task;
      && (IsReading(y, s, t) ==>
            var k := ReadingKey(y, s, t); ChainAt(ViewOf(views, t), k) == ChainAt(turns[0].chain, k))
      && (LiveStepFits(y, s, turns[0]); Foresees(y, views, LiveStep(y, s, turns[0]), turns[1..]))
  }

  /** A foreseen run against the moving chain is a run against the views. */
  lemma {:induction false} ForeseenRun(y: System, views: Views, s: State, turns: seq<Turn>)
    requires y.Fits(s) && LiveSchedulable(y, s, turns) && Foresees(y, views, s, turns)
    ensures var z := System(y.jobs, views, y.init);
      z.Fits(s) && Schedulable(z, s, Tasks(turns)) && Execute(z, s, Tasks(turns)) == LiveExecute(y, s, turns)
    decreases |turns|
  {
    hide Effect, ApplyWrite;
    var z := System(y.jobs, views, y.init);
    SameFits(y, z, s);
    if turns != [] {
      var turn := turns[0];
      var next := LiveStep(y, s, turn);
      assert z.Runnable(s, turn.task);
      LiveStepFits(y, s, turn);
      StepFits(z, s, turn.task);
      assert z.Step(s, turn.task) == next;
      ForeseenRun(y, views, next, turns[1..]);
      assert Tasks(turns)[1..] == Tasks(turns[1..]);
    }
  }

  lemma SameFits(y: System, z: System, s: State)
    requires y.jobs == z.jobs && y.Fits(s)
    ensures z.Fits(s)
  {
    forall t | 0 <= t < |z.jobs| ensures z.TaskFits(s, t) {
      assert y.TaskFits(s, t);
    }
  }

  function Answering(view: Chain, k: Key, c: ChainPosition): Chain {
    view[k := c]
  }

  /** Changing what a task was answered for a key it has already read changes nothing to come. */
  lemma {:induction false} PastReadsAreFree(y: System, views: Views, s: State, turns: seq<Turn>, t: nat, i: nat,
                                            c: ChainPosition)
    requires y.Valid() && y.Fits(s) && LiveSchedulable(y, s, turns) && Foresees(y, views, s, turns)
    requires |views| == |y.jobs| && t < |y.jobs| && i < y.Size(t) && s.pc[t] > y.Size(t) + i
    ensures Foresees(y, views[t := Answering(views[t], y.KeyOf(t, i), c)], s, turns)
    decreases |turns|
  {
    hide Effect, Read, ApplyWrite;
    if turns != [] {
      assert y.jobs[t].Sorted();
      LiveStepFits(y, s, turns[0]);
      PastReadsAreFree(y, views, LiveStep(y, s, turns[0]), turns[1..], t, i, c);
    }
  }

  lemma {:induction false} ForesightExists(y: System, s: State, turns: seq<Turn>) returns (views: Views)
    requires y.Valid() && y.Fits(s) && LiveSchedulable(y, s, turns)
    ensures |views| == |y.jobs| && Foresees(y, views, s, turns)
    decreases |turns|
  {
    hide Effect, Read, ApplyWrite;
    if turns == [] {
      views := seq(|y.jobs|, _ => map[]);
    } else {
      var t, next := turns[0].task, LiveStep(y, s, turns[0]);
      LiveStepFits(y, s, turns[0]);
      views := ForesightExists(y, next, turns[1..]);
      if IsReading(y, s, t) {
        var k := ReadingKey(y, s, t);
        PastReadsAreFree(y, views, next, turns[1..], t, s.pc[t] - y.Size(t), ChainAt(turns[0].chain, k));
        views := views[t := Answering(views[t], k, ChainAt(turns[0].chain, k))];
      }
    }
  }

  /**
   Serialisability while confirmations move the chain under the tasks: there is a one-at-a-time run, in the logged
   order, in which every read is answered as the chain of its moment answered it, and it ends with the same cache and
   every task returns the same deltas and realized parts.
   */
  lemma LiveInterleavingsAreSerial(y: System, turns: seq<Turn>)
    requires y.Valid() && LiveSchedulable(y, y.Boot(), turns) && AllDone(y, LiveExecute(y, y.Boot(), turns))
    ensures exists views: Views ::
              Foresees(y, views, y.Boot(), turns) && IsSerial(y, views, LiveExecute(y, y.Boot(), turns))
  {
    var views := ForesightExists(y, y.Boot(), turns);
    var z := System(y.jobs, views, y.init);
    assert z.Valid() && z.Boot() == y.Boot();
    ForeseenRun(y, views, y.Boot(), turns);
    SameVerdicts(y, z, LiveExecute(y, y.Boot(), turns));
    InterleavingsAreSerial(z, Tasks(turns));
    hide Effect, Serial, Execute, LiveExecute, Schedulable, LiveSchedulable, Foresees, AllDone, IsSerial;
  }

  lemma SameVerdicts(y: System, z: System, s: State)
    requires y.jobs == z.jobs && y.init == z.init && y.Fits(s)
    ensures z.Fits(s) && (AllDone(y, s) ==> AllDone(z, s))
    ensures forall views :: IsSerial(z, views, s) ==> IsSerial(y, views, s)
  {
    hide Effect, Serial;
    SameFits(y, z, s);
    if AllDone(y, s) {
      forall t | 0 <= t < |z.jobs| ensures z.Done(s, t) {
        assert y.Done(s, t);
      }
    }
  }

  // ---- No deadlock, and an end ----

  function KeyBound(jobs: seq<Job>): nat {
    if jobs == [] then 0 else Max(KeyBound(jobs[..|jobs| - 1]), MaxKey(jobs[|jobs| - 1].Keys()) + 1)
  }

  function MaxKey(keys: seq<Key>): nat {
    if keys == [] then 0 else Max(MaxKey(keys[..|keys| - 1]), keys[|keys| - 1])
  }

  lemma {:induction false} KeyBelowMax(keys: seq<Key>, i: nat)
    requires i < |keys|
    ensures keys[i] <= MaxKey(keys)
  {
    if i < |keys| - 1 {
      KeyBelowMax(keys[..|keys| - 1], i);
    }
  }

  lemma {:induction false} KeyBelowBound(jobs: seq<Job>, t: nat, i: nat)
    requires t < |jobs| && i < |jobs[t].Keys()|
    ensures jobs[t].Keys()[i] < KeyBound(jobs)
  {
    if t < |jobs| - 1 {
      KeyBelowBound(jobs[..|jobs| - 1], t, i);
    } else {
      KeyBelowMax(jobs[t].Keys(), i);
    }
  }

  /**
   Following a blocked task to the holder of the key it wants leads to ever larger keys, and so to a task that can
   move.
   */
  lemma {:induction false} FindRunnable(y: System, s: State, t: nat) returns (u: nat)
    requires y.Valid() && y.Fits(s) && LocksAgree(y, s) && t < |y.jobs| && !y.Done(s, t)
    ensures y.Runnable(s, u)
    decreases if s.pc[t] < y.Size(t) then KeyBound(y.jobs) - y.KeyOf(t, s.pc[t]) else 0
  {
    u := t;
    if !y.Runnable(s, t) {
      var wanted := y.KeyOf(t, s.pc[t]);
      var holder := s.owner[wanted];
      assert Holds(y, s, holder.task, holder.index);
      if y.Runnable(s, holder.task) {
        u := holder.task;
      } else {
        assert y.jobs[holder.task].Sorted();
        assert wanted < y.KeyOf(holder.task, s.pc[holder.task]);
        KeyBelowBound(y.jobs, holder.task, s.pc[holder.task]);
        u := FindRunnable(y, s, holder.task);
      }
    }
  }

  /** In every reachable state, if some task is unfinished then some task can move. */
  lemma NoDeadlock(y: System, schedule: seq<nat>)
    requires y.Valid() && Schedulable(y, y.Boot(), schedule)
    ensures var s := Execute(y, y.Boot(), schedule);
      AllDone(y, s) || exists u :: y.Runnable(s, u)
  {
    BootInv(y);
    ExecuteInv(y, y.Boot(), schedule);
    var s := Execute(y, y.Boot(), schedule);
    if t :| 0 <= t < |y.jobs| && !y.Done(s, t) {
      var u := FindRunnable(y, s, t);
    }
  }

  /** However the chain moves under the tasks. */
  lemma LiveNoDeadlock(y: System, turns: seq<Turn>)
    requires y.Valid() && LiveSchedulable(y, y.Boot(), turns)
    ensures var s := LiveExecute(y, y.Boot(), turns);
      AllDone(y, s) || exists u :: y.Runnable(s, u)
  {
    var views := ForesightExists(y, y.Boot(), turns);
    var z := System(y.jobs, views, y.init);
    assert z.Valid() && z.Boot() == y.Boot();
    ForeseenRun(y, views, y.Boot(), turns);
    NoDeadlock(z, Tasks(turns));
    var s := LiveExecute(y, y.Boot(), turns);
    if AllDone(z, s) {
      SameVerdicts(z, y, s);
    } else {
      var u :| z.Runnable(s, u);
      assert y.Runnable(s, u);
    }
    hide Effect, Execute, LiveExecute, Schedulable, LiveSchedulable, Foresees;
  }

  /** Steps still to be taken by tasks `from` onward. */
  function Remaining(y: System, s: State, from: nat): int
    requires y.Fits(s) && from <= |y.jobs|
    decreases |y.jobs| - from
  {
    if from == |y.jobs| then 0 else 4 * y.Size(from) - s.pc[from] + Remaining(y, s, from + 1)
  }

  lemma {:induction false} StepTakesOne(y: System, s: State, t: nat, from: nat)
    requires y.Fits(s) && y.Runnable(s, t) && y.Fits(y.Step(s, t)) && from <= |y.jobs|
    ensures Remaining(y, y.Step(s, t), from) == Remaining(y, s, from) - (if from <= t then 1 else 0)
    decreases |y.jobs| - from
  {
    hide Effect, Read, ApplyWrite;
    if from < |y.jobs| {
      StepTakesOne(y, s, t, from + 1);
    }
  }

  lemma {:induction false} ScheduleTakesItsLength(y: System, s: State, schedule: seq<nat>)
    requires y.Fits(s) && Schedulable(y, s, schedule)
    ensures Remaining(y, Execute(y, s, schedule), 0) == Remaining(y, s, 0) - |schedule|
    decreases |schedule|
  {
    if schedule != [] {
      StepFits(y, s, schedule[0]);
      StepTakesOne(y, s, schedule[0], 0);
      ScheduleTakesItsLength(y, y.Step(s, schedule[0]), schedule[1..]);
    }
  }

  ghost predicate WithinProgram(y: System, s: State)
    requires y.Fits(s)
  {
    forall t :: 0 <= t < |y.jobs| ==> s.pc[t] <= 4 * y.Size(t)
  }

  lemma {:induction false} ExecuteStaysWithinProgram(y: System, s: State, schedule: seq<nat>)
    requires y.Fits(s) && Schedulable(y, s, schedule) && WithinProgram(y, s)
    ensures WithinProgram(y, Execute(y, s, schedule))
    decreases |schedule|
  {
    hide Effect, Read, ApplyWrite;
    if schedule != [] {
      StepFits(y, s, schedule[0]);
      ExecuteStaysWithinProgram(y, y.Step(s, schedule[0]), schedule[1..]);
    }
  }

  lemma {:induction false} RemainingIsNatural(y: System, s: State, from: nat)
    requires y.Fits(s) && WithinProgram(y, s) && from <= |y.jobs|
    ensures Remaining(y, s, from) >= 0
    ensures Remaining(y, s, from) == 0 ==> forall t :: from <= t < |y.jobs| ==> y.Done(s, t)
    decreases |y.jobs| - from
  {
    if from < |y.jobs| {
      RemainingIsNatural(y, s, from + 1);
    }
  }

  /** No schedule is longer than four steps per key, and one that long has finished every task. */
  lemma EveryScheduleEnds(y: System, schedule: seq<nat>)
    requires y.Valid() && Schedulable(y, y.Boot(), schedule)
    ensures |schedule| <= Remaining(y, y.Boot(), 0)
    ensures |schedule| == Remaining(y, y.Boot(), 0) ==> AllDone(y, Execute(y, y.Boot(), schedule))
  {
    ScheduleTakesItsLength(y, y.Boot(), schedule);
    ExecuteStaysWithinProgram(y, y.Boot(), schedule);
    RemainingIsNatural(y, Execute(y, y.Boot(), schedule), 0);
  }

  /** The same against a moving chain. */
  lemma LiveScheduleEnds(y: System, turns: seq<Turn>)
    requires y.Valid() && LiveSchedulable(y, y.Boot(), turns)
    ensures |turns| <= Remaining(y, y.Boot(), 0)
    ensures |turns| == Remaining(y, y.Boot(), 0) ==> AllDone(y, LiveExecute(y, y.Boot(), turns))
  {
    var views := ForesightExists(y, y.Boot(), turns);
    var z := System(y.jobs, views, y.init);
    assert z.Valid() && z.Boot() == y.Boot();
    ForeseenRun(y, views, y.Boot(), turns);
    EveryScheduleEnds(z, Tasks(turns));
    SameRemaining(y, z, y.Boot(), 0);
    TasksLength(turns);
    SameVerdicts(z, y, LiveExecute(y, y.Boot(), turns));
    hide Effect, Execute, LiveExecute, Schedulable, LiveSchedulable, Foresees;
  }

  lemma {:induction false} SameRemaining(y: System, z: System, s: State, from: nat)
    requires y.jobs == z.jobs && y.Fits(s) && z.Fits(s) && from <= |y.jobs|
    ensures Remaining(z, s, from) == Remaining(y, s, from)
    decreases |y.jobs| - from
  {
    if from < |y.jobs| {
      SameRemaining(y, z, s, from + 1);
    }
  }

  lemma {:induction false} TasksLength(turns: seq<Turn>)
    ensures |Tasks(turns)| == |turns|
  {
    if turns != [] {
      TasksLength(turns[1..]);
    }
  }

  /**
   Sorting is what prevents deadlock: two liquidations that take the same two locks in opposite order can block each
   other.
   */
  lemma UnsortedLocksDeadlock(views: Views, marks: Marks, landed: bool)
    ensures exists y: System, schedule ::
      && y.jobs == [LiquidateJob([0, 1], marks, landed), LiquidateJob([1, 0], marks, landed)]
      && Schedulable(y, y.Boot(), schedule)
      && var s := Execute(y, y.Boot(), schedule);
         !AllDone(y, s) && !exists u :: y.Runnable(s, u)
  {
    hide Effect, Read, ApplyWrite;
    var y := System([LiquidateJob([0, 1], marks, landed), LiquidateJob([1, 0], marks, landed)], views, map[]);
    var s0 := y.Boot();
    assert y.Size(0) == 2 && y.Size(1) == 2 && y.KeyOf(0, 0) == 0 && y.KeyOf(1, 0) == 1;
    assert y.TaskFits(s0, 0) && y.TaskFits(s0, 1);
    var s1 := y.Step(s0, 0);
    StepFits(y, s0, 0);
    var s2 := y.Step(s1, 1);
    StepFits(y, s1, 1);
    assert [0, 1][1..] == [1] && [1][1..] == [];
    assert Schedulable(y, s2, []) && Execute(y, s2, []) == s2;
    assert Schedulable(y, s1, [1]) && Execute(y, s1, [1]) == s2;
    assert Schedulable(y, s0, [0, 1]) && Execute(y, s0, [0, 1]) == s2;
    assert y.KeyOf(0, 1) in s2.owner && y.KeyOf(1, 1) in s2.owner;
    assert !y.Done(s2, 0);
  }
}
