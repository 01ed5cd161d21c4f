/**
 The two-tier cache as a history of timed operations.

 One operation, including the promotion that a Get may trigger, is one step. The second tier may
 fail on any access, and either tier may lose entries at any moment (`Lose`): that is how capacity
 evictions, early removal of an expired key and the remote store's own evictions appear here.
 */
module TierModel {
  import opened CacheTypes

  datatype Config = Config(defaultTTL: int, negativeTTL: int, promotionTTL: int, hasL2: bool, l2Writes: bool) {
    function TTL(negative: bool): int {
      if negative then negativeTTL else defaultTTL
    }

    function PromotionTTL(negative: bool): int {
      if negative && negativeTTL < promotionTTL then negativeTTL else promotionTTL
    }

    predicate UsesL2() {
      hasL2 && l2Writes
    }
  }

  datatype Item = Item(value: Bytes, negative: bool)

  /** A second-tier entry. The remote store keeps an entry set without a positive TTL for ever. */
  datatype Remote = Remote(item: Item, expiresAt: Option<int>) {
    predicate Readable(now: int) {
      expiresAt.Some? ==> now <= expiresAt.value
    }
  }

  datatype Tiers = Tiers(l1: map<Key, Entry>, l2: map<Key, Remote>)

  /** What became of a second-tier write: stored, stored but reported as failed, or not stored. */
  datatype Outcome = Stored | Unacknowledged | Lost

  datatype Op =
    | Get(key: Key, readable: bool)
    | Set(key: Key, item: Item, ttl: int, remote: Outcome)
    | Delete(key: Key, remote: Outcome)
    | Clear(remote: Outcome)
    | Lose(local: set<Key>, away: set<Key>)

  datatype Event = Event(now: int, op: Op)

  function ItemOf(e: Entry): Item {
    Item(e.value, e.negative)
  }

  function RemoteExpiry(now: int, ttl: int): Option<int> {
    if ttl > 0 then Some(now + ttl) else None
  }

  predicate L1Hit(t: Tiers, k: Key, now: int) {
    k in t.l1 && !t.l1[k].IsExpired(now)
  }

  predicate L2Hit(cfg: Config, t: Tiers, k: Key, now: int) {
    cfg.hasL2 && k in t.l2 && t.l2[k].Readable(now)
  }

  function Answer(cfg: Config, t: Tiers, now: int, k: Key, readable: bool): Option<Item> {
    if L1Hit(t, k, now) then Some(ItemOf(t.l1[k]))
    else if readable && L2Hit(cfg, t, k, now) then Some(t.l2[k].item)
    else None
  }

  function Promoted(cfg: Config, now: int, item: Item): Entry {
    Entry(item.value, now + cfg.PromotionTTL(item.negative), item.negative)
  }

  function AfterGet(cfg: Config, t: Tiers, now: int, k: Key, readable: bool): Tiers {
    if L1Hit(t, k, now) then t
    else if readable && L2Hit(cfg, t, k, now) then t.(l1 := t.l1[k := Promoted(cfg, now, t.l2[k].item)])
    else t.(l1 := t.l1 - {k})
  }

  function AfterSet(cfg: Config, t: Tiers, now: int, k: Key, item: Item, ttl: int, remote: Outcome): Tiers {
    Tiers(t.l1[k := Entry(item.value, now + ttl, item.negative)],
          if cfg.UsesL2() && !remote.Lost? then t.l2[k := Remote(item, RemoteExpiry(now, ttl))] else t.l2)
  }

  function Step(cfg: Config, t: Tiers, ev: Event): Tiers {
    match ev.op
    case Get(k, readable) => AfterGet(cfg, t, ev.now, k, readable)
    case Set(k, item, ttl, remote) => AfterSet(cfg, t, ev.now, k, item, ttl, remote)
    case Delete(k, remote) => Tiers(t.l1 - {k}, if cfg.hasL2 && !remote.Lost? then t.l2 - {k} else t.l2)
    case Clear(remote) => Tiers(map[], if cfg.hasL2 && !remote.Lost? then map[] else t.l2)
    case Lose(local, away) => Tiers(t.l1 - local, t.l2 - away)
  }

  function Run(cfg: Config, trace: seq<Event>): Tiers {
    if trace == [] then Tiers(map[], map[])
    else Step(cfg, Run(cfg, trace[..|trace| - 1]), trace[|trace| - 1])
  }

  /** What the Get at position `i` of the history returns; None on a miss or for another operation. */
  function Served(cfg: Config, trace: seq<Event>, i: nat): Option<Item>
    requires i < |trace|
  {
    if trace[i].op.Get? then
      Answer(cfg, Run(cfg, trace[..i]), trace[i].now, trace[i].op.key, trace[i].op.readable)
    else None
  }

  lemma RunExtends(cfg: Config, trace: seq<Event>, ev: Event)
    ensures Run(cfg, trace + [ev]) == Step(cfg, Run(cfg, trace), ev)
  {
    assert (trace + [ev])[..|trace|] == trace;
  }

  /** An operation on one key leaves what both tiers hold for every other key alone. */
  lemma OthersUntouched(cfg: Config, t: Tiers, ev: Event, x: Key)
    requires ev.op.Get? || ev.op.Set? || ev.op.Delete?
    requires ev.op.key != x
    ensures var t' := Step(cfg, t, ev);
      && (x in t'.l1 <==> x in t.l1) && (x in t.l1 ==> t'.l1[x] == t.l1[x])
      && (x in t'.l2 <==> x in t.l2) && (x in t.l2 ==> t'.l2[x] == t.l2[x])
  {
  }

  /**
   What comes right behind a write, after any history and whatever became of the second-tier write: a Get
   within the TTL is served the item just stored; after a Delete or Clear that reached the second tier, nothing.
   */
  lemma ReadYourWrites(cfg: Config, trace: seq<Event>, write: Event, later: int, k: Key, readable: bool)
    requires write.op.Set? || write.op.Delete? || write.op.Clear?
    requires !write.op.Clear? ==> write.op.key == k
    ensures var answer := Served(cfg, trace + [write] + [Event(later, Get(k, readable))], |trace| + 1);
      && (write.op.Set? && later <= write.now + write.op.ttl ==> answer == Some(write.op.item))
      && (!write.op.Set? && (cfg.hasL2 ==> !write.op.remote.Lost?) ==> answer == None)
  {
    var h := trace + [write] + [Event(later, Get(k, readable))];
    assert h[..|trace| + 1] == trace + [write];
    RunExtends(cfg, trace, write);
  }

  // ------------------------------------------------------------------ staleness

  function Max(a: int, b: int): int {
    if a < b then b else a
  }

  /**
   How long after its store an item may still be served: its own TTL plus one promotion, which for a
   negative item lasts the smaller of the two configured TTLs.
   */
  function Lifetime(cfg: Config, ttl: int, negative: bool): int {
    ttl + Max(0, if negative && cfg.negativeTTL < cfg.promotionTTL then cfg.negativeTTL else cfg.promotionTTL)
  }

  predicate Stores(ev: Event, k: Key, item: Item) {
    ev.op.Set? && ev.op.key == k && ev.op.item == item
  }

  /** The entry that this store leaves behind runs out in every tier it reaches. */
  predicate RunsOut(cfg: Config, ev: Event) {
    ev.op.Set? && (ev.op.ttl > 0 || !cfg.UsesL2())
  }

  ghost predicate BackedLocally(cfg: Config, trace: seq<Event>, k: Key, e: Entry) {
    exists j :: 0 <= j < |trace| && Stores(trace[j], k, ItemOf(e)) &&
      (RunsOut(cfg, trace[j]) ==> e.expiresAt <= trace[j].now + Lifetime(cfg, trace[j].op.ttl, e.negative))
  }

  ghost predicate BackedRemotely(cfg: Config, trace: seq<Event>, k: Key, r: Remote) {
    exists j :: 0 <= j < |trace| && Stores(trace[j], k, r.item) && cfg.UsesL2() &&
      (RunsOut(cfg, trace[j]) ==> r.expiresAt == Some(trace[j].now + trace[j].op.ttl))
  }

  ghost predicate AllBacked(cfg: Config, trace: seq<Event>, t: Tiers) {
    && (forall k :: k in t.l1 ==> BackedLocally(cfg, trace, k, t.l1[k]))
    && (forall k :: k in t.l2 ==> BackedRemotely(cfg, trace, k, t.l2[k]))
  }

  lemma BackingSurvives(cfg: Config, trace: seq<Event>, ev: Event, t: Tiers)
    requires AllBacked(cfg, trace, t)
    ensures AllBacked(cfg, trace + [ev], t)
  {
    forall k | k in t.l1 ensures BackedLocally(cfg, trace + [ev], k, t.l1[k]) {
      var j :| 0 <= j < |trace| && Stores(trace[j], k, ItemOf(t.l1[k])) &&
        (RunsOut(cfg, trace[j]) ==>
          t.l1[k].expiresAt <= trace[j].now + Lifetime(cfg, trace[j].op.ttl, t.l1[k].negative));
      assert (trace + [ev])[j] == trace[j];
    }
    forall k | k in t.l2 ensures BackedRemotely(cfg, trace + [ev], k, t.l2[k]) {
      var j :| 0 <= j < |trace| && Stores(trace[j], k, t.l2[k].item) && cfg.UsesL2() &&
        (RunsOut(cfg, trace[j]) ==> t.l2[k].expiresAt == Some(trace[j].now + trace[j].op.ttl));
      assert (trace + [ev])[j] == trace[j];
    }
  }

  /** However often an item is promoted again, its first-tier copy outlives its store by one lifetime at most. */
  lemma PromotionBacked(cfg: Config, trace: seq<Event>, k: Key, r: Remote, now: int)
    requires BackedRemotely(cfg, trace, k, r) && r.Readable(now)
    ensures BackedLocally(cfg, trace, k, Promoted(cfg, now, r.item))
  {
    var j :| 0 <= j < |trace| && Stores(trace[j], k, r.item) && cfg.UsesL2() &&
      (RunsOut(cfg, trace[j]) ==> r.expiresAt == Some(trace[j].now + trace[j].op.ttl));
    assert ItemOf(Promoted(cfg, now, r.item)) == r.item;
  }

  lemma StepKeepsBacking(cfg: Config, trace: seq<Event>, ev: Event, t: Tiers)
    requires AllBacked(cfg, trace, t)
    ensures AllBacked(cfg, trace + [ev], Step(cfg, t, ev))
  {
    var trace' := trace + [ev];
    BackingSurvives(cfg, trace, ev, t);
    match ev.op
    case Get(k, readable) =>
      if !L1Hit(t, k, ev.now) && readable && L2Hit(cfg, t, k, ev.now) {
        PromotionBacked(cfg, trace', k, t.l2[k], ev.now);
      }
    case Set(k, item, ttl, remote) =>
      assert trace'[|trace|] == ev && Stores(ev, k, item);
      var t' := Step(cfg, t, ev);
      assert ItemOf(t'.l1[k]) == item;
      assert BackedLocally(cfg, trace', k, t'.l1[k]);
      if cfg.UsesL2() && !remote.Lost? {
        assert BackedRemotely(cfg, trace', k, t'.l2[k]);
      }
    case _ =>
  }

  lemma {:induction false} RunsAreBacked(cfg: Config, trace: seq<Event>)
    ensures AllBacked(cfg, trace, Run(cfg, trace))
  {
    if trace != [] {
      var before, last := trace[..|trace| - 1], trace[|trace| - 1];
      RunsAreBacked(cfg, before);
      StepKeepsBacking(cfg, before, last, Run(cfg, before));
      assert before + [last] == trace;
    }
  }

  /** The Get at `i`, if it hits, serves an item no later than one lifetime after some earlier store of it. */
  ghost predicate ServedInTime(cfg: Config, trace: seq<Event>, i: nat)
    requires i < |trace|
  {
    var r := Served(cfg, trace, i);
    r.Some? ==>
      (exists j ::
        && 0 <= j < i && Stores(trace[j], trace[i].op.key, r.value)
        && trace[i].now <= trace[j].now + Lifetime(cfg, trace[j].op.ttl, r.value.negative))
  }

  /** A hit on tiers that `trace` backs: some store of the item in `trace` is at most one lifetime ago. */
  ghost predicate StoredInTime(cfg: Config, trace: seq<Event>, now: int, k: Key, item: Item) {
    exists j ::
      && 0 <= j < |trace| && Stores(trace[j], k, item)
      && (RunsOut(cfg, trace[j]) ==> now <= trace[j].now + Lifetime(cfg, trace[j].op.ttl, item.negative))
  }

  lemma BackedHitInTime(cfg: Config, trace: seq<Event>, t: Tiers, now: int, k: Key, readable: bool)
    requires AllBacked(cfg, trace, t) && Answer(cfg, t, now, k, readable).Some?
    ensures StoredInTime(cfg, trace, now, k, Answer(cfg, t, now, k, readable).value)
  {
    if L1Hit(t, k, now) {
      var e := t.l1[k];
      var j :| 0 <= j < |trace| && Stores(trace[j], k, ItemOf(e)) &&
        (RunsOut(cfg, trace[j]) ==> e.expiresAt <= trace[j].now + Lifetime(cfg, trace[j].op.ttl, e.negative));
    } else {
      var r := t.l2[k];
      var j :| 0 <= j < |trace| && Stores(trace[j], k, r.item) && cfg.UsesL2() &&
        (RunsOut(cfg, trace[j]) ==> r.expiresAt == Some(trace[j].now + trace[j].op.ttl));
    }
  }

  /**
   Staleness, over every history: a hit is backed by an earlier store of the same key, value and
   flag, and if the stores run out it comes at most TTL plus promotion TTL after that store.
   Neither lost writes nor repeated promotion nor evictions extend this.
   */
  lemma StalenessBound(cfg: Config, trace: seq<Event>, i: nat)
    requires i < |trace| && Served(cfg, trace, i).Some?
    ensures var item := Served(cfg, trace, i).value;
      exists j ::
        && 0 <= j < i && Stores(trace[j], trace[i].op.key, item)
        && (RunsOut(cfg, trace[j]) ==> trace[i].now <= trace[j].now + Lifetime(cfg, trace[j].op.ttl, item.negative))
  {
    var before, ev := trace[..i], trace[i];
    var item := Served(cfg, trace, i).value;
    RunsAreBacked(cfg, before);
    BackedHitInTime(cfg, before, Run(cfg, before), ev.now, ev.op.key, ev.op.readable);
    var j :| 0 <= j < |before| && Stores(before[j], ev.op.key, item)
      && (RunsOut(cfg, before[j]) ==> ev.now <= before[j].now + Lifetime(cfg, before[j].op.ttl, item.negative));
    assert before[j] == trace[j];
  }

  /** Every store of the history uses the configured TTL for its kind (`SetWithDefaultTTL`). */
  ghost predicate DefaultTTLs(cfg: Config, trace: seq<Event>) {
    forall i :: 0 <= i < |trace| && trace[i].op.Set? ==> trace[i].op.ttl == cfg.TTL(trace[i].op.item.negative)
  }

  /** What a configuration must satisfy for entries to run out in both tiers. */
  predicate TTLsRunOut(cfg: Config) {
    cfg.UsesL2() ==> cfg.defaultTTL > 0 && cfg.negativeTTL > 0
  }

  lemma DefaultStaleness(cfg: Config, trace: seq<Event>, i: nat)
    requires TTLsRunOut(cfg) && DefaultTTLs(cfg, trace) && i < |trace|
    ensures ServedInTime(cfg, trace, i)
    ensures Served(cfg, trace, i).Some? ==>
      var item := Served(cfg, trace, i).value;
      exists j ::
        && 0 <= j < i && Stores(trace[j], trace[i].op.key, item)
        && (!item.negative ==> trace[i].now <= trace[j].now + cfg.defaultTTL + Max(0, cfg.promotionTTL))
        && (item.negative ==>
              && trace[i].now <= trace[j].now + cfg.negativeTTL + Max(0, cfg.negativeTTL)
              && trace[i].now <= trace[j].now + cfg.negativeTTL + Max(0, cfg.promotionTTL))
  {
    if Served(cfg, trace, i).Some? {
      StalenessBound(cfg, trace, i);
    }
  }

  /** A history that stores one item, loses the first-tier copy, and reads at `t1` and again at `t2`. */
  function ReadBack(cfg: Config, k: Key, item: Item, t1: int, t2: int): seq<Event> {
    [Event(0, Set(k, item, cfg.TTL(item.negative), Stored)), Event(t1, Lose({k}, {})),
     Event(t1, Get(k, true)), Event(t2, Get(k, true))]
  }

  lemma ReadBackServes(cfg: Config, k: Key, item: Item, t1: int, t2: int)
    requires cfg.UsesL2()
    requires cfg.TTL(item.negative) > 0 ==> t1 <= cfg.TTL(item.negative)
    requires t2 <= t1 + cfg.PromotionTTL(item.negative)
    ensures Served(cfg, ReadBack(cfg, k, item, t1, t2), 2) == Some(item)
    ensures Served(cfg, ReadBack(cfg, k, item, t1, t2), 3) == Some(item)
  {
    var h := ReadBack(cfg, k, item, t1, t2);
    assert h[..0] == [] && h[..1] == [] + [h[0]] && h[..2] == h[..1] + [h[1]] && h[..3] == h[..2] + [h[2]];
    RunExtends(cfg, [], h[0]);
    RunExtends(cfg, h[..1], h[1]);
    RunExtends(cfg, h[..2], h[2]);
  }

  /** The bound is attained: an item can be served at the very last instant it allows. */
  lemma StalenessBoundReached(cfg: Config, k: Key, item: Item)
    requires cfg.UsesL2() && TTLsRunOut(cfg) && 0 <= cfg.promotionTTL
    ensures var ttl := if item.negative then cfg.negativeTTL else cfg.defaultTTL;
      var shorter := item.negative && cfg.negativeTTL < cfg.promotionTTL;
      var promotion := if shorter then cfg.negativeTTL else cfg.promotionTTL;
      var h := ReadBack(cfg, k, item, ttl, ttl + promotion);
      && DefaultTTLs(cfg, h) && h[0].op == Set(k, item, ttl, Stored)
      && h[3].now == h[0].now + ttl + promotion && Served(cfg, h, 3) == Some(item)
  {
    var ttl := cfg.TTL(item.negative);
    ReadBackServes(cfg, k, item, ttl, ttl + cfg.PromotionTTL(item.negative));
  }

  /**
   The staleness bound holds of every history with default TTLs exactly for the configurations
   whose TTLs run out: with a second tier in use, one non-positive TTL lets an item live for ever.
   */
  lemma StalenessBoundedExactlyWhen(cfg: Config)
    ensures (forall trace: seq<Event>, i: nat :: i < |trace| && DefaultTTLs(cfg, trace) ==> ServedInTime(cfg, trace, i))
      <==> TTLsRunOut(cfg)
  {
    if TTLsRunOut(cfg) {
      forall trace: seq<Event>, i: nat | i < |trace| && DefaultTTLs(cfg, trace)
        ensures ServedInTime(cfg, trace, i)
      {
        DefaultStaleness(cfg, trace, i);
      }
    } else {
      var item := Item([], cfg.defaultTTL > 0);
      var late := Max(0, Lifetime(cfg, cfg.TTL(item.negative), item.negative)) + 1;
      var h := ReadBack(cfg, "k", item, late, late + cfg.PromotionTTL(item.negative));
      ReadBackServes(cfg, "k", item, late, late + cfg.PromotionTTL(item.negative));
      assert DefaultTTLs(cfg, h);
      assert !ServedInTime(cfg, h, 2);
    }
  }

  // ------------------------------------------------------------------ agreement

  /** The item of the latest Set of `k` that no Delete of `k` or Clear follows. */
  function Latest(trace: seq<Event>, k: Key): Option<Item> {
    if trace == [] then None
    else
      var earlier := Latest(trace[..|trace| - 1], k);
      match trace[|trace| - 1].op
      case Set(x, item, _, _) => if x == k then Some(item) else earlier
      case Delete(x, _) => if x == k then None else earlier
      case Clear(_) => None
      case _ => earlier
  }

  /** The operation fails to reach the second tier and an entry it should have replaced or removed stays there. */
  predicate LeavesBehind(cfg: Config, t: Tiers, op: Op) {
    cfg.hasL2 &&
    match op
    case Set(k, _, _, remote) => remote.Lost? && k in t.l2
    case Delete(k, remote) => remote.Lost? && k in t.l2
    case Clear(remote) => remote.Lost? && t.l2 != map[]
    case _ => false
  }

  ghost predicate NothingLeftBehind(cfg: Config, trace: seq<Event>) {
    forall i :: 0 <= i < |trace| ==> !LeavesBehind(cfg, Run(cfg, trace[..i]), trace[i].op)
  }

  ghost predicate TiersAgree(cfg: Config, trace: seq<Event>, t: Tiers) {
    && (forall k :: k in t.l1 ==> Latest(trace, k) == Some(ItemOf(t.l1[k])))
    && (forall k :: k in t.l2 ==> Latest(trace, k) == Some(t.l2[k].item))
    && (!cfg.UsesL2() ==> t.l2 == map[])
  }

  lemma StepKeepsAgreement(cfg: Config, trace: seq<Event>, ev: Event, t: Tiers)
    requires TiersAgree(cfg, trace, t) && !LeavesBehind(cfg, t, ev.op)
    ensures TiersAgree(cfg, trace + [ev], Step(cfg, t, ev))
  {
    var trace' := trace + [ev];
    assert trace'[..|trace|] == trace;
    match ev.op
    case Set(k, item, ttl, remote) =>
      assert Latest(trace', k) == Some(item);
      assert forall x :: x != k ==> Latest(trace', x) == Latest(trace, x);
    case Delete(k, remote) =>
      assert forall x :: x != k ==> Latest(trace', x) == Latest(trace, x);
    case _ =>
  }

  lemma {:induction false} RunsAgree(cfg: Config, trace: seq<Event>)
    requires NothingLeftBehind(cfg, trace)
    ensures TiersAgree(cfg, trace, Run(cfg, trace))
  {
    if trace != [] {
      var n := |trace| - 1;
      var before, last := trace[..n], trace[n];
      forall i | 0 <= i < n ensures !LeavesBehind(cfg, Run(cfg, before[..i]), before[i].op) {
        assert before[..i] == trace[..i];
      }
      RunsAgree(cfg, before);
      StepKeepsAgreement(cfg, before, last, Run(cfg, before));
      assert before + [last] == trace;
    }
  }

  /**
   Two-tier agreement, over every history from empty tiers in which no failed second-tier write
   leaves an older entry behind: every hit serves the latest Set of its key not yet deleted, across
   evictions, expiry in either tier, failed reads and promotions.
   */
  lemma HitsServeLatest(cfg: Config, trace: seq<Event>, i: nat)
    requires i < |trace| && NothingLeftBehind(cfg, trace[..i])
    requires Served(cfg, trace, i).Some?
    ensures Latest(trace[..i], trace[i].op.key) == Served(cfg, trace, i)
  {
    RunsAgree(cfg, trace[..i]);
  }

  /** The Get at `i` misses the first tier and reads a second-tier entry that is not the latest item. */
  ghost predicate ReadsOlder(cfg: Config, trace: seq<Event>, i: nat)
    requires i < |trace|
  {
    var t, now := Run(cfg, trace[..i]), trace[i].now;
    match trace[i].op
    case Get(k, readable) =>
      && !L1Hit(t, k, now) && readable && L2Hit(cfg, t, k, now)
      && Latest(trace[..i], k) != Some(t.l2[k].item)
    case _ => false
  }

  /** The Get at `i`, if it hits, serves the latest item. */
  ghost predicate HitAgrees(cfg: Config, trace: seq<Event>, i: nat)
    requires i < |trace|
  {
    Served(cfg, trace, i).Some? ==> Served(cfg, trace, i) == Latest(trace[..i], trace[i].op.key)
  }

  ghost predicate FirstTierAgrees(trace: seq<Event>, t: Tiers) {
    forall k :: k in t.l1 ==> Latest(trace, k) == Some(ItemOf(t.l1[k]))
  }

  lemma LatestStep(trace: seq<Event>, ev: Event, k: Key)
    ensures Latest(trace + [ev], k) ==
      match ev.op
      case Set(x, item, _, _) => if x == k then Some(item) else Latest(trace, k)
      case Delete(x, _) => if x == k then None else Latest(trace, k)
      case Clear(_) => None
      case _ => Latest(trace, k)
  {
    assert (trace + [ev])[..|trace|] == trace;
  }

  /** Only a read of an older second-tier entry can put something else than the latest item into the first tier. */
  lemma FirstTierStep(cfg: Config, trace: seq<Event>, ev: Event, t: Tiers)
    requires FirstTierAgrees(trace, t)
    requires var op := ev.op;
      op.Get? && !L1Hit(t, op.key, ev.now) && op.readable && L2Hit(cfg, t, op.key, ev.now) ==>
        Latest(trace, op.key) == Some(t.l2[op.key].item)
    ensures FirstTierAgrees(trace + [ev], Step(cfg, t, ev))
  {
    var t' := Step(cfg, t, ev);
    forall k | k in t'.l1 ensures Latest(trace + [ev], k) == Some(ItemOf(t'.l1[k])) {
      LatestStep(trace, ev, k);
    }
  }

  lemma {:induction false} FirstTierStaysLatest(cfg: Config, trace: seq<Event>, n: nat)
    requires n <= |trace| && forall i: nat :: i < n ==> !ReadsOlder(cfg, trace, i)
    ensures FirstTierAgrees(trace[..n], Run(cfg, trace[..n]))
  {
    if n > 0 {
      FirstTierStaysLatest(cfg, trace, n - 1);
      assert !ReadsOlder(cfg, trace, n - 1);
      assert trace[..n] == trace[..n - 1] + [trace[n - 1]];
      FirstTierStep(cfg, trace[..n - 1], trace[n - 1], Run(cfg, trace[..n - 1]));
      RunExtends(cfg, trace[..n - 1], trace[n - 1]);
    }
  }

  /**
   Exactly when the tiers agree, over every history at all, lost writes included: every hit serves the
   latest item if and only if no Get that misses the first tier reads a second-tier entry that is not
   the latest item. So a wrong answer always enters through such a read; hits in the first tier can only repeat it.
   */
  lemma HitsAgreeExactlyWhen(cfg: Config, trace: seq<Event>)
    ensures (forall i: nat :: i < |trace| ==> HitAgrees(cfg, trace, i)) <==>
      (forall i: nat :: i < |trace| ==> !ReadsOlder(cfg, trace, i))
  {
    if forall i: nat :: i < |trace| ==> !ReadsOlder(cfg, trace, i) {
      forall i: nat | i < |trace| ensures HitAgrees(cfg, trace, i) {
        FirstTierStaysLatest(cfg, trace, i);
        assert !ReadsOlder(cfg, trace, i);
      }
    } else {
      var i: nat :| i < |trace| && ReadsOlder(cfg, trace, i);
      assert !HitAgrees(cfg, trace, i);
    }
  }

  /** A stored item, a lost store of another one, the loss of the first-tier copy, and two Gets. */
  function LostAndReadTwice(k: Key, older: Item, newer: Item): seq<Event> {
    [Event(0, Set(k, older, 0, Stored)), Event(0, Set(k, newer, 0, Lost)), Event(0, Lose({k}, {})),
     Event(0, Get(k, true)), Event(0, Get(k, true))]
  }

  /** And it is repeated: the second Get hits the first tier, and still serves the older item. */
  lemma OlderItemRepeated(cfg: Config, k: Key, older: Item, newer: Item)
    requires cfg.UsesL2() && older != newer && cfg.PromotionTTL(older.negative) >= 0
    ensures var h := LostAndReadTwice(k, older, newer);
      && ReadsOlder(cfg, h, 3) && Served(cfg, h, 3) == Some(older)
      && L1Hit(Run(cfg, h[..4]), k, 0) && Served(cfg, h, 4) == Some(older) && Latest(h[..4], k) == Some(newer)
  {
    var h := LostAndReadTwice(k, older, newer);
    assert h[..0] == [] && h[..1] == [] + [h[0]] && h[..2] == h[..1] + [h[1]];
    assert h[..3] == h[..2] + [h[2]] && h[..4] == h[..3] + [h[3]];
    RunExtends(cfg, [], h[0]);
    RunExtends(cfg, h[..1], h[1]);
    RunExtends(cfg, h[..2], h[2]);
    RunExtends(cfg, h[..3], h[3]);
    LatestStep(h[..1], h[1], k);
    LatestStep(h[..2], h[2], k);
    LatestStep(h[..3], h[3], k);
  }

  /** The history goes on with the loss of the first-tier copy of `k` and a Get of `k`. */
  function ThenReadRemotely(trace: seq<Event>, now: int, k: Key): seq<Event> {
    trace + [Event(now, Lose({k}, {}))] + [Event(now, Get(k, true))]
  }

  /** That Get hits, and serves something other than the latest item. */
  ghost predicate ServesOther(cfg: Config, trace: seq<Event>, now: int, k: Key) {
    var h := ThenReadRemotely(trace, now, k);
    var served := Served(cfg, h, |trace| + 1);
    served.Some? && served != Latest(h[..|trace| + 1], k)
  }

  /**
   Such a Get, after any history at all, serves something other than the latest item exactly when the
   second tier holds a readable entry that differs from it.
   */
  lemma ServesOtherExactlyWhen(cfg: Config, trace: seq<Event>, now: int, k: Key)
    ensures var l2 := Run(cfg, trace).l2;
      ServesOther(cfg, trace, now, k) <==>
        cfg.hasL2 && k in l2 && l2[k].Readable(now) && Latest(trace, k) != Some(l2[k].item)
  {
    var lose := Event(now, Lose({k}, {}));
    assert ThenReadRemotely(trace, now, k)[..|trace| + 1] == trace + [lose];
    RunExtends(cfg, trace, lose);
    assert (trace + [lose])[..|trace|] == trace;
  }

  /**
   The condition of `HitsServeLatest` cannot be dropped, for any of the three writes: a lost Set is
   visible afterwards exactly when the second tier still holds a readable entry with another item, a
   lost Delete or Clear exactly when it still holds a readable entry.
   */
  lemma LostWriteVisibleExactlyWhen(cfg: Config, trace: seq<Event>, now: int, k: Key, item: Item, ttl: int)
    requires cfg.hasL2
    ensures var l2 := Run(cfg, trace).l2;
      var holds := k in l2 && l2[k].Readable(now);
      && (ServesOther(cfg, trace + [Event(now, Set(k, item, ttl, Lost))], now, k) <==> holds && l2[k].item != item)
      && (ServesOther(cfg, trace + [Event(now, Delete(k, Lost))], now, k) <==> holds)
      && (ServesOther(cfg, trace + [Event(now, Clear(Lost))], now, k) <==> holds)
  {
    LostWriteKeeps(cfg, trace, Event(now, Set(k, item, ttl, Lost)), k);
    LostWriteKeeps(cfg, trace, Event(now, Delete(k, Lost)), k);
    LostWriteKeeps(cfg, trace, Event(now, Clear(Lost)), k);
  }

  lemma LostWriteKeeps(cfg: Config, trace: seq<Event>, ev: Event, k: Key)
    requires ev.op.Set? || ev.op.Delete? || ev.op.Clear?
    requires ev.op.remote.Lost? && (ev.op.Clear? || ev.op.key == k)
    ensures Latest(trace + [ev], k) == if ev.op.Set? then Some(ev.op.item) else None
    ensures var l2 := Run(cfg, trace).l2;
      ServesOther(cfg, trace + [ev], ev.now, k) <==>
        cfg.hasL2 && k in l2 && l2[k].Readable(ev.now) && Latest(trace + [ev], k) != Some(l2[k].item)
  {
    RunExtends(cfg, trace, ev);
    assert (trace + [ev])[..|trace|] == trace;
    ServesOtherExactlyWhen(cfg, trace + [ev], ev.now, k);
  }

  /** A Set, the loss of its first-tier copy, and a Get at `later`, behind any history. */
  function StoreAndRead(trace: seq<Event>, now: int, store: Op, later: int, readable: bool): seq<Event>
    requires store.Set?
  {
    trace + [Event(now, store)] + [Event(now, Lose({store.key}, {}))] + [Event(later, Get(store.key, readable))]
  }

  /**
   Round trip through the second tier, behind any history: once the first-tier copy is gone, a Get
   brings back what the Set put there if the write reached the second tier, the read succeeds, and
   the TTL is not positive or not yet over. If the write did not reach it, the Get brings back what
   the second tier held before, as long as that can be read.
   */
  lemma RemoteRoundTrip(cfg: Config, trace: seq<Event>, now: int, store: Op, later: int, readable: bool)
    requires store.Set?
    ensures var answer := Served(cfg, StoreAndRead(trace, now, store, later, readable), |trace| + 2);
      var before := Run(cfg, trace);
      if cfg.UsesL2() && !store.remote.Lost? then
        answer == if readable && (store.ttl <= 0 || later <= now + store.ttl) then Some(store.item) else None
      else
        answer == if readable && L2Hit(cfg, before, store.key, later) then Some(before.l2[store.key].item) else None
  {
    var set1, lose := Event(now, store), Event(now, Lose({store.key}, {}));
    assert StoreAndRead(trace, now, store, later, readable)[..|trace| + 2] == trace + [set1] + [lose];
    RunExtends(cfg, trace, set1);
    RunExtends(cfg, trace + [set1], lose);
  }
}

/** The second tier: a remote store whose accesses may fail. */
module RedisCache {
  import opened CacheTypes
  import opened TierModel

  class RedisCache {
    var data: map<Key, Remote>

    constructor ()
      ensures data == map[]
    {
      data := map[];
    }

    /** `readable` is false when the store cannot be reached or the stored text does not decode. */
    method Get(key: Key, now: int, readable: bool) returns (r: Option<Item>)
      ensures r == if readable && key in data && data[key].Readable(now) then Some(data[key].item) else None
    {
      if readable && key in data && data[key].Readable(now) {
        return Some(data[key].item);
      }
      return None;
    }

    method Set(key: Key, item: Item, ttl: int, now: int, outcome: Outcome) returns (ok: bool)
      modifies this
      ensures ok == outcome.Stored?
      ensures data == if outcome.Lost? then old(data) else old(data)[key := Remote(item, RemoteExpiry(now, ttl))]
    {
      if !outcome.Lost? {
        data := data[key := Remote(item, RemoteExpiry(now, ttl))];
      }
      return outcome.Stored?;
    }

    method Delete(key: Key, outcome: Outcome) returns (ok: bool)
      modifies this
      ensures ok == outcome.Stored?
      ensures data == if outcome.Lost? then old(data) else old(data) - {key}
    {
      if !outcome.Lost? {
        data := data - {key};
      }
      return outcome.Stored?;
    }

    method Clear(outcome: Outcome) returns (ok: bool)
      modifies this
      ensures ok == outcome.Stored?
      ensures data == if outcome.Lost? then old(data) else map[]
    {
      if !outcome.Lost? {
        data := map[];
      }
      return outcome.Stored?;
    }
  }
}

/**
 The two-tier cache over the in-memory tier and an optional remote tier. Every operation is proved
 to be one step of `TierModel`, up to the entries that the in-memory tier evicts on the way.
 */
module TieredCache {
  import opened CacheTypes
  import opened TierModel
  import opened Lru
  import M = MemoryModel
  import MC = MemoryCache
  import RC = RedisCache

  /** `after` is what `Step` makes of `before`, less some first-tier entries lost to eviction. */
  ghost predicate Refines(cfg: Config, before: Tiers, ev: Event, after: Tiers) {
    exists lost: set<Key> :: after == Step(cfg, Step(cfg, before, ev), Event(ev.now, Lose(lost, {})))
  }

  lemma RefinesUpToEviction(cfg: Config, before: Tiers, ev: Event, after: Tiers)
    requires after.l2 == Step(cfg, before, ev).l2
    requires forall k :: k in after.l1 ==> k in Step(cfg, before, ev).l1 && after.l1[k] == Step(cfg, before, ev).l1[k]
    ensures Refines(cfg, before, ev, after)
  {
    var full := Step(cfg, before, ev);
    var lost := full.l1.Keys - after.l1.Keys;
    assert after.l1 == full.l1 - lost;
    assert after.l2 == full.l2 - {};
    assert after == Step(cfg, full, Event(ev.now, Lose(lost, {})));
  }

  /** `events` with a loss of first-tier entries after each. */
  ghost function Weave(events: seq<Event>, losses: seq<set<Key>>): seq<Event>
    requires |events| == |losses|
  {
    if events == [] then []
    else
      var n := |events| - 1;
      Weave(events[..n], losses[..n]) + [events[n], Event(events[n].now, Lose(losses[n], {}))]
  }

  /** `views[i]` is what the tiers hold before operation `i` of a run of the methods below. */
  ghost predicate MethodRun(cfg: Config, views: seq<Tiers>, events: seq<Event>) {
    && |views| == |events| + 1 && views[0] == Tiers(map[], map[])
    && forall i :: 0 <= i < |events| ==> Refines(cfg, views[i], events[i], views[i + 1])
  }

  /** Every run of the methods below is a history of `TierModel`, so the theorems there apply to it. */
  lemma {:induction false} RunsAreHistories(cfg: Config, views: seq<Tiers>, events: seq<Event>)
    returns (losses: seq<set<Key>>)
    requires MethodRun(cfg, views, events)
    ensures |losses| == |events| && Run(cfg, Weave(events, losses)) == views[|events|]
  {
    losses := [];
    if events != [] {
      var n := |events| - 1;
      var earlier := RunsAreHistories(cfg, views[..n + 1], events[..n]);
      assert Refines(cfg, views[n], events[n], views[n + 1]);
      var lost: set<Key> :|
        views[n + 1] == Step(cfg, Step(cfg, views[n], events[n]), Event(events[n].now, Lose(lost, {})));
      losses := earlier + [lost];
      assert losses[..n] == earlier;
      var h, loss := Weave(events[..n], earlier), Event(events[n].now, Lose(lost, {}));
      RunExtends(cfg, h, events[n]);
      RunExtends(cfg, h + [events[n]], loss);
      assert Weave(events, losses) == h + [events[n]] + [loss];
    }
  }

  /** Fewer first-tier entries are backed, and agree, by the same history. */
  lemma FewerEntries(cfg: Config, trace: seq<Event>, ev: Event, t: Tiers, after: Tiers)
    requires AllBacked(cfg, trace + [ev], Step(cfg, t, ev)) && Refines(cfg, t, ev, after)
    ensures AllBacked(cfg, trace + [ev], after)
    ensures TiersAgree(cfg, trace + [ev], Step(cfg, t, ev)) ==> TiersAgree(cfg, trace + [ev], after)
  {
  }

  /** No failed second-tier write of the first `n` operations leaves an older entry behind. */
  ghost predicate NoneLeftBehind(cfg: Config, views: seq<Tiers>, events: seq<Event>, n: nat)
    requires n <= |events| < |views|
  {
    forall i :: 0 <= i < n ==> !LeavesBehind(cfg, views[i], events[i].op)
  }

  lemma {:induction false} MethodRunsAreBacked(cfg: Config, views: seq<Tiers>, events: seq<Event>, n: nat)
    requires MethodRun(cfg, views, events) && n <= |events|
    ensures AllBacked(cfg, events[..n], views[n])
    ensures NoneLeftBehind(cfg, views, events, n) ==> TiersAgree(cfg, events[..n], views[n])
  {
    if n > 0 {
      var before, ev := events[..n - 1], events[n - 1];
      MethodRunsAreBacked(cfg, views, events, n - 1);
      assert events[..n] == before + [ev];
      StepKeepsBacking(cfg, before, ev, views[n - 1]);
      assert Refines(cfg, views[n - 1], ev, views[n]);
      FewerEntries(cfg, before, ev, views[n - 1], views[n]);
      if NoneLeftBehind(cfg, views, events, n) {
        StepKeepsAgreement(cfg, before, ev, views[n - 1]);
      }
    }
  }

  /**
   What a Get of the class answers at operation `n` of a run of its methods: an item that an earlier
   operation stored at most one lifetime ago, and the latest one if no failed write left an older
   entry behind.
   */
  lemma MethodAnswers(cfg: Config, views: seq<Tiers>, events: seq<Event>, n: nat)
    requires MethodRun(cfg, views, events) && n < |events| && events[n].op.Get?
    requires Answer(cfg, views[n], events[n].now, events[n].op.key, events[n].op.readable).Some?
    ensures var k, now := events[n].op.key, events[n].now;
      var item := Answer(cfg, views[n], now, k, events[n].op.readable).value;
      && StoredInTime(cfg, events[..n], now, k, item)
      && (NoneLeftBehind(cfg, views, events, n) ==> Latest(events[..n], k) == Some(item))
  {
    MethodRunsAreBacked(cfg, views, events, n);
    BackedHitInTime(cfg, events[..n], views[n], events[n].now, events[n].op.key, events[n].op.readable);
  }

  /** A promoted entry lasts the promotion TTL, a negative one the smaller of that and the negative TTL. */
  function PromotedEntry(cfg: Config, item: Item, now: int): Entry {
    if item.negative && cfg.negativeTTL < cfg.promotionTTL then Entry(item.value, now + cfg.negativeTTL, true)
    else Entry(item.value, now + cfg.promotionTTL, item.negative)
  }

  /** What a look at the first tier finds, and what it leaves there. */
  lemma LookedAt(m: M.Mem, key: Key, now: int)
    requires m.Valid()
    ensures var (looked, r) := M.Get(m, key, now);
      && looked.Valid() && M.Apply(m, M.OpGet(key, now)) == looked
      && (r.Some? <==> key in m.lru.entries && !m.lru.entries[key].IsExpired(now))
      && (r.Some? ==> r.value == m.lru.entries[key] && looked.lru.entries == m.lru.entries)
      && (r.None? ==> looked.lru.entries == m.lru.entries - {key})
  {
    M.ApplyKeepsValid(m, M.OpGet(key, now));
  }

  /** The first tier after a Get that answers `r`: looked at, and given the promoted entry if only the second had it. */
  function AfterLook(cfg: Config, m: M.Mem, r: Option<Item>, key: Key, now: int): M.Mem
    requires m.Valid()
  {
    var looked := M.Apply(m, M.OpGet(key, now));
    if r.None? || key in looked.lru.entries then looked else M.Set(looked, key, PromotedEntry(cfg, r.value, now))
  }

  class TieredCache {
    const l1: MC.MemoryCache
    const l2: RC.RedisCache?
    const config: Config

    ghost predicate Valid()
      reads this, l1
    {
      l1.Valid() && config.hasL2 == (l2 != null)
    }

    ghost function View(): Tiers
      reads this, l1, l2
    {
      Tiers(l1.cache.entries, if l2 == null then map[] else l2.data)
    }

    constructor (l1: MC.MemoryCache, l2: RC.RedisCache?, config: Config)
      requires l1.Valid()
      ensures this.l1 == l1 && this.l2 == l2 && this.config == config.(hasL2 := l2 != null)
      ensures Valid()
    {
      this.l1 := l1;
      this.l2 := l2;
      this.config := config.(hasL2 := l2 != null);
    }

    /**
     `NewTieredCache`: the first tier starts empty, the second with what the remote store holds. Fails
     exactly on a non-positive number of first-tier entries, or if a configured remote store cannot be reached.
     */
    static method New(maxEntries: int, maxSize: int, l2: RC.RedisCache?, reached: bool, config: Config)
      returns (t: TieredCache?)
      ensures t == null <==> maxEntries <= 0 || (l2 != null && !reached)
      ensures t != null ==>
        && fresh(t) && fresh(t.l1) && t.Valid() && t.l2 == l2 && t.config == config.(hasL2 := l2 != null)
        && t.View() == Tiers(map[], if l2 == null then map[] else l2.data)
        && t.l1.State() == M.Empty(maxEntries, maxSize)
    {
      var l1 := MC.MemoryCache.New(maxEntries, maxSize);
      if l1 == null || (l2 != null && !reached) {
        return null;
      }
      t := new TieredCache(l1, l2, config);
    }

    method Get(key: Key, now: int, readable: bool) returns (r: Option<Item>)
      requires Valid()
      modifies l1
      ensures Valid()
      ensures r == Answer(config, old(View()), now, key, readable)
      ensures Refines(config, old(View()), Event(now, TierModel.Get(key, readable)), View())
      ensures View().l2 == old(View().l2)
      ensures l1.State() == AfterLook(config, old(l1.State()), r, key, now)
      ensures L1Hit(old(View()), key, now) ==> View().l1 == old(View().l1)
      ensures r.None? ==> View().l1 == old(View().l1) - {key}
      ensures r.Some? && !L1Hit(old(View()), key, now) ==>
        M.LeavesWarmest(M.Apply(old(l1.State()), M.OpGet(key, now)), key, PromotedEntry(config, r.value, now), l1.cache)
    {
      hide M.LeavesWarmest, M.Fits, M.Set, M.Get, M.Apply, Refines;
      ghost var before := View();
      LookedAt(l1.State(), key, now);
      var entry := l1.Get(key, now);
      if entry.Some? {
        r := Some(ItemOf(entry.value));
      } else if l2 == null {
        r := None;
      } else {
        r := l2.Get(key, now, readable);
        if r.Some? {
          PromoteToL1(key, r.value, now);
        }
      }
      RefinesUpToEviction(config, before, Event(now, TierModel.Get(key, readable)), View());
    }

    method PromoteToL1(key: Key, item: Item, now: int)
      requires Valid()
      modifies l1
      ensures Valid()
      ensures l1.State() == M.Set(old(l1.State()), key, PromotedEntry(config, item, now))
      ensures var shorter := item.negative && config.negativeTTL < config.promotionTTL;
        var ttl := if shorter then config.negativeTTL else config.promotionTTL;
        key in View().l1 && View().l1[key] == Entry(item.value, now + ttl, item.negative)
      ensures forall k :: k in View().l1 && k != key ==> k in old(View().l1) && View().l1[k] == old(View().l1)[k]
      ensures M.LeavesWarmest(old(l1.State()), key, PromotedEntry(config, item, now), l1.cache)
      ensures M.Fits(old(l1.State()), key, item.value) ==>
        View().l1 == old(View().l1)[key := PromotedEntry(config, item, now)]
      ensures View().l2 == old(View().l2)
    {
      hide M.LeavesWarmest, M.Fits, M.Set;
      var ttl := config.promotionTTL;
      if item.negative {
        ttl := if config.negativeTTL < config.promotionTTL then config.negativeTTL else config.promotionTTL;
      }
      M.SetShape(l1.State(), key, Entry(item.value, now + ttl, item.negative));
      l1.Set(key, item.value, ttl, item.negative, now);
    }

    method Set(key: Key, item: Item, ttl: int, now: int, remote: Outcome)
      requires Valid()
      modifies l1, l2
      ensures Valid()
      ensures key in View().l1 && View().l1[key] == Entry(item.value, now + ttl, item.negative)
      ensures Refines(config, old(View()), Event(now, TierModel.Set(key, item, ttl, remote)), View())
      ensures l1.State() == M.Set(old(l1.State()), key, Entry(item.value, now + ttl, item.negative))
      ensures M.LeavesWarmest(old(l1.State()), key, Entry(item.value, now + ttl, item.negative), l1.cache)
      ensures M.Fits(old(l1.State()), key, item.value) ==>
        View().l1 == old(View().l1)[key := Entry(item.value, now + ttl, item.negative)]
      ensures View().l2 ==
        if l2 != null && config.l2Writes && !remote.Lost? then
          old(View().l2)[key := Remote(item, if ttl > 0 then Some(now + ttl) else None)]
        else old(View().l2)
    {
      hide M.LeavesWarmest, M.Fits, M.Set, Refines;
      ghost var before := View();
      M.SetShape(l1.State(), key, Entry(item.value, now + ttl, item.negative));
      l1.Set(key, item.value, ttl, item.negative, now);
      if l2 != null && config.l2Writes {
        var _ := l2.Set(key, item, ttl, now, remote);
      }
      RefinesUpToEviction(config, before, Event(now, TierModel.Set(key, item, ttl, remote)), View());
    }

    method SetWithDefaultTTL(key: Key, item: Item, now: int, remote: Outcome)
      requires Valid()
      modifies l1, l2
      ensures Valid()
      ensures var ttl := if item.negative then config.negativeTTL else config.defaultTTL;
        key in View().l1 && View().l1[key] == Entry(item.value, now + ttl, item.negative)
      ensures var ttl := if item.negative then config.negativeTTL else config.defaultTTL;
        var stored := TierModel.Set(key, item, ttl, remote);
        Refines(config, old(View()), Event(now, stored), View())
      ensures var ttl := if item.negative then config.negativeTTL else config.defaultTTL;
        var entry := Entry(item.value, now + ttl, item.negative);
        && l1.State() == M.Set(old(l1.State()), key, entry)
        && M.LeavesWarmest(old(l1.State()), key, entry, l1.cache)
        && (M.Fits(old(l1.State()), key, item.value) ==> View().l1 == old(View().l1)[key := entry])
    {
      var ttl := config.defaultTTL;
      if item.negative {
        ttl := config.negativeTTL;
      }
      Set(key, item, ttl, now, remote);
    }

    method Delete(key: Key, now: int, remote: Outcome) returns (ok: bool)
      requires Valid()
      modifies l1, l2
      ensures Valid()
      ensures ok == (l2 != null ==> remote.Stored?)
      ensures Refines(config, old(View()), Event(now, TierModel.Delete(key, remote)), View())
      ensures l1.State() == M.Delete(old(l1.State()), key) && View().l1 == old(View().l1) - {key}
      ensures View().l2 == if remote.Lost? then old(View().l2) else old(View().l2) - {key}
    {
      ghost var before := View();
      l1.Delete(key);
      ok := true;
      if l2 != null {
        ok := l2.Delete(key, remote);
      }
      RefinesUpToEviction(config, before, Event(now, TierModel.Delete(key, remote)), View());
    }

    method Clear(now: int, remote: Outcome) returns (ok: bool)
      requires Valid()
      modifies l1, l2
      ensures Valid()
      ensures ok == (l2 != null ==> remote.Stored?)
      ensures Refines(config, old(View()), Event(now, TierModel.Clear(remote)), View())
      ensures l1.State() == M.Clear(old(l1.State())) && View().l1 == map[]
      ensures View().l2 == if remote.Lost? then old(View().l2) else map[]
    {
      ghost var before := View();
      l1.Clear();
      ok := true;
      if l2 != null {
        ok := l2.Clear(remote);
      }
      RefinesUpToEviction(config, before, Event(now, TierModel.Clear(remote)), View());
    }
  }
}
