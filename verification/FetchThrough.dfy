/**
 The two fetch entry points as they run when no other caller is about: probe, double check, fetch,
 store. `Flight` is about what happens when callers interleave.
 */
module FetchThrough {
  import opened CacheTypes
  import opened TierModel
  import F = Flight
  import LookupErrors
  import M = MemoryModel
  import TC = TieredCache

  /** When the accesses of one call happen, and how those of the second tier go. */
  datatype Course = Course(probedAt: int, probeReads: bool, checkedAt: int, checkReads: bool, storedAt: int,
    remote: Outcome)

  /** The tiers, and the state of the first one with its order and counters. */
  datatype View = View(tiers: Tiers, memory: M.Mem)

  /** What was observed at the start, after the probe, after the double check and at the end. */
  datatype Views = Views(start: View, probed: View, checked: View, end: View)

  ghost function Now(t: TC.TieredCache): View
    requires t.Valid()
    reads t, t.l1, t.l2
  {
    View(t.View(), t.l1.State())
  }

  const MISSING := F.Fail(LookupErrors.Sentinel(LookupErrors.NotFound))

  /** What the first look at the cache finds. */
  function Probed(cfg: Config, key: Key, course: Course, v: Views): Option<Item> {
    Answer(cfg, v.start.tiers, course.probedAt, key, course.probeReads)
  }

  /** What the double check finds. */
  function Checked(cfg: Config, key: Key, course: Course, v: Views): Option<Item> {
    Answer(cfg, v.probed.tiers, course.checkedAt, key, course.checkReads)
  }

  /** The call fetches: both looks at the cache missed. */
  predicate MissesTwice(cfg: Config, key: Key, course: Course, v: Views) {
    Probed(cfg, key, course, v).None? && Checked(cfg, key, course, v).None?
  }

  /** A Get leads from one view to the next: the tiers up to eviction, the first one exactly. */
  ghost predicate Looks(cfg: Config, key: Key, now: int, readable: bool, before: View, after: View) {
    && TC.Refines(cfg, before.tiers, Event(now, Get(key, readable)), after.tiers)
    && before.memory.Valid()
    && after.memory == TC.AfterLook(cfg, before.memory, Answer(cfg, before.tiers, now, key, readable), key, now)
  }

  /** The call is one Get, and a second one if the first missed. */
  ghost predicate LooksTwice(cfg: Config, key: Key, course: Course, v: Views) {
    && Looks(cfg, key, course.probedAt, course.probeReads, v.start, v.probed)
    && if Probed(cfg, key, course, v).Some? then v.checked == v.probed
       else Looks(cfg, key, course.checkedAt, course.checkReads, v.probed, v.checked)
  }

  /**
   At the end the item is in the first tier with this TTL, put there by one Set; if it fits, every
   other entry of that tier is still there.
   */
  ghost predicate Stores(cfg: Config, key: Key, item: Item, ttl: int, course: Course, v: Views) {
    var entry, l1 := Entry(item.value, course.storedAt + ttl, item.negative), v.end.tiers.l1;
    && key in l1 && l1[key] == entry
    && TC.Refines(cfg, v.checked.tiers, Event(course.storedAt, Set(key, item, ttl, course.remote)), v.end.tiers)
    && v.checked.memory.Valid() && v.end.memory == M.Set(v.checked.memory, key, entry)
    && (M.Fits(v.checked.memory, key, item.value) ==> l1 == v.checked.tiers.l1[key := entry])
  }

  /** A Get, as a step from view to view. */
  method Look(t: TC.TieredCache, key: Key, now: int, readable: bool) returns (r: Option<Item>)
    requires t.Valid()
    modifies t.l1
    ensures t.Valid() && r == Answer(t.config, old(t.View()), now, key, readable)
    ensures Looks(t.config, key, now, readable, old(Now(t)), Now(t))
  {
    hide Answer, TC.AfterLook, TC.Refines, M.LeavesWarmest;
    r := t.Get(key, now, readable);
  }

  /** A store with the configured TTL, as the last step of a call. */
  method Store(t: TC.TieredCache, key: Key, item: Item, course: Course, ghost v: Views)
    requires t.Valid() && v.checked == Now(t)
    modifies t.l1, t.l2
    ensures t.Valid()
    ensures var ttl := if item.negative then t.config.negativeTTL else t.config.defaultTTL;
      Stores(t.config, key, item, ttl, course, v.(end := Now(t)))
  {
    hide M.Set, M.Fits, TC.Refines, M.LeavesWarmest;
    t.SetWithDefaultTTL(key, item, course.storedAt, course.remote);
  }

  method GetOrFetch(t: TC.TieredCache, key: Key, result: F.Fetched, course: Course)
    returns (reply: F.Reply, cached: bool, ghost v: Views)
    requires t.Valid()
    modifies t.l1, t.l2
    ensures t.Valid() && v.start == old(Now(t)) && v.end == Now(t) && LooksTwice(t.config, key, course, v)
    ensures var probed, checked := Probed(t.config, key, course, v), Checked(t.config, key, course, v);
      cached == probed.Some? &&
      reply == if probed.Some? then F.Value(probed.value.value)
        else if checked.Some? then F.Value(checked.value.value)
        else if result.Got? then F.Value(result.value)
        else F.Fail(result.err)
    ensures if MissesTwice(t.config, key, course, v) && result.Got? then
        Stores(t.config, key, Item(result.value, false), t.config.defaultTTL, course, v)
      else v.end == v.checked
  {
    hide Answer, Looks, Stores;
    v := Views(Now(t), Now(t), Now(t), Now(t));
    var entry := Look(t, key, course.probedAt, course.probeReads);
    v := v.(probed := Now(t), checked := Now(t), end := Now(t));
    if entry.Some? {
      return F.Value(entry.value.value), true, v;
    }
    entry := Look(t, key, course.checkedAt, course.checkReads);
    v := v.(checked := Now(t), end := Now(t));
    if entry.Some? {
      return F.Value(entry.value.value), false, v;
    }
    match result {
      case Failed(e) => return F.Fail(e), false, v;
      case Got(value) =>
        Store(t, key, Item(value, false), course, v);
        return F.Value(value), false, v.(end := Now(t));
    }
  }

  method GetOrFetchWithNegative(t: TC.TieredCache, key: Key, result: F.Fetched, course: Course)
    returns (reply: F.Reply, cached: bool, ghost v: Views)
    requires t.Valid()
    modifies t.l1, t.l2
    ensures t.Valid() && v.start == old(Now(t)) && v.end == Now(t) && LooksTwice(t.config, key, course, v)
    ensures var probed, checked := Probed(t.config, key, course, v), Checked(t.config, key, course, v);
      cached == probed.Some? &&
      reply == if probed.Some? then (if probed.value.negative then MISSING else F.Value(probed.value.value))
        else if checked.Some? then (if checked.value.negative then MISSING else F.Value(checked.value.value))
        else if result.Got? then F.Value(result.value)
        else if result.err.Is(LookupErrors.NotFound) then MISSING
        else F.Fail(result.err)
    ensures if MissesTwice(t.config, key, course, v) && result.Got? then
        Stores(t.config, key, Item(result.value, false), t.config.defaultTTL, course, v)
      else if MissesTwice(t.config, key, course, v) && result.err.Is(LookupErrors.NotFound) then
        Stores(t.config, key, Item([], true), t.config.negativeTTL, course, v)
      else v.end == v.checked
  {
    hide Answer, Looks, Stores;
    v := Views(Now(t), Now(t), Now(t), Now(t));
    var entry := Look(t, key, course.probedAt, course.probeReads);
    v := v.(probed := Now(t), checked := Now(t), end := Now(t));
    if entry.Some? {
      if entry.value.negative {
        return F.Fail(LookupErrors.Sentinel(LookupErrors.NotFound)), true, v;
      }
      return F.Value(entry.value.value), true, v;
    }
    entry := Look(t, key, course.checkedAt, course.checkReads);
    v := v.(checked := Now(t), end := Now(t));
    if entry.Some? {
      if entry.value.negative {
        return F.Fail(LookupErrors.Sentinel(LookupErrors.NotFound)), false, v;
      }
      return F.Value(entry.value.value), false, v;
    }
    match result {
      case Failed(e) =>
        if e.Is(LookupErrors.NotFound) {
          Store(t, key, Item([], true), course, v);
          return F.Fail(LookupErrors.Sentinel(LookupErrors.NotFound)), false, v.(end := Now(t));
        }
        return F.Fail(e), false, v;
      case Got(value) =>
        Store(t, key, Item(value, false), course, v);
        return F.Value(value), false, v.(end := Now(t));
    }
  }
}
