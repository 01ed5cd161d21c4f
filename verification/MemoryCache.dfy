/** Values stored by both cache tiers. */
module CacheTypes {
  newtype Octet = n: int | 0 <= n < 256

  type Key = string
  type Bytes = seq<Octet>

  datatype Option<+T> = None | Some(value: T)

  /** An entry of the in-memory tier. `expiresAt` is the last instant at which the entry may be served. */
  datatype Entry = Entry(value: Bytes, expiresAt: int, negative: bool) {
    predicate IsExpired(now: int) {
      now > expiresAt
    }
  }
}

/**
 The contract of the bounded LRU map that the in-memory tier is built on.
 `order` lists the resident keys from least to most recently used.
 */
module Lru {
  import opened CacheTypes

  datatype Lru = Lru(capacity: nat, order: seq<Key>, entries: map<Key, Entry>) {
    /** The entry map and the recency list agree, and the capacity is respected. */
    ghost predicate Valid() {
      && 0 < capacity
      && |order| <= capacity
      && NoDuplicates(order)
      && (forall k :: k in order <==> k in entries)
    }

    /** Marks `k` as the most recently used key. */
    function Touch(k: Key): Lru {
      this.(order := Without(order, k) + [k])
    }

    /** Drops `k`; the owner's eviction callback runs for it. */
    function Remove(k: Key): Lru {
      this.(order := Without(order, k), entries := entries - {k})
    }

    /** Inserts or overwrites. The callback runs only for the key that `Displaced` names. */
    function Add(k: Key, e: Entry): Lru
      requires Valid()
    {
      if k in entries then
        Lru(capacity, Without(order, k) + [k], entries[k := e])
      else if |order| < capacity then
        Lru(capacity, order + [k], entries[k := e])
      else
        Lru(capacity, order[1..] + [k], (entries - {order[0]})[k := e])
    }

    /** The key pushed out by `Add(k, _)`, if any: never on an overwrite. */
    function Displaced(k: Key): Option<Key>
      requires Valid()
    {
      if k !in entries && |order| == capacity then Some(order[0]) else None
    }
  }

  ghost predicate NoDuplicates(s: seq<Key>) {
    forall i, j :: 0 <= i < j < |s| ==> s[i] != s[j]
  }

  function Without(s: seq<Key>, k: Key): (r: seq<Key>)
    ensures forall x :: x in r <==> x in s && x != k
    ensures |r| <= |s|
    ensures k !in s ==> r == s
  {
    if s == [] then []
    else if s[0] == k then Without(s[1..], k)
    else [s[0]] + Without(s[1..], k)
  }

  /** Total length of the values that `order` names. */
  ghost function Resident(order: seq<Key>, entries: map<Key, Entry>): nat
    requires forall k :: k in order ==> k in entries
  {
    if order == [] then 0
    else
      assert forall k :: k in order[1..] ==> k in order;
      |entries[order[0]].value| + Resident(order[1..], entries)
  }

  lemma {:induction false} WithoutKeepsNoDuplicates(s: seq<Key>, k: Key)
    requires NoDuplicates(s)
    ensures NoDuplicates(Without(s, k))
    ensures k in s ==> |Without(s, k)| == |s| - 1
  {
    if s != [] {
      WithoutKeepsNoDuplicates(s[1..], k);
      if s[0] == k {
        assert k !in s[1..];
      } else {
        var r := Without(s[1..], k);
        assert s[0] !in r;
        forall i, j | 0 <= i < j < |[s[0]] + r| ensures ([s[0]] + r)[i] != ([s[0]] + r)[j] {
          if i > 0 {
            assert r[i - 1] != r[j - 1];
          }
        }
      }
    }
  }

  lemma {:induction false} ResidentConcat(a: seq<Key>, b: seq<Key>, m: map<Key, Entry>)
    requires forall k :: k in a + b ==> k in m
    ensures forall k :: k in a ==> k in a + b
    ensures forall k :: k in b ==> k in a + b
    ensures Resident(a + b, m) == Resident(a, m) + Resident(b, m)
  {
    assert forall k :: k in a || k in b ==> k in a + b;
    if a == [] {
      assert a + b == b;
    } else {
      assert a + b == [a[0]] + (a[1..] + b);
      assert (a + b)[1..] == a[1..] + b;
      assert forall k :: k in a[1..] + b ==> k in a + b;
      ResidentConcat(a[1..], b, m);
    }
  }

  /** Only the entries that `order` names matter. */
  lemma {:induction false} ResidentFrame(order: seq<Key>, m: map<Key, Entry>, m': map<Key, Entry>)
    requires forall k :: k in order ==> k in m && k in m' && m[k].value == m'[k].value
    ensures Resident(order, m) == Resident(order, m')
  {
    if order != [] {
      assert forall k :: k in order[1..] ==> k in order;
      ResidentFrame(order[1..], m, m');
    }
  }

  lemma {:induction false} ResidentWithout(order: seq<Key>, k: Key, m: map<Key, Entry>)
    requires NoDuplicates(order) && k in order
    requires forall x :: x in order ==> x in m
    ensures Resident(Without(order, k), m) == Resident(order, m) - |m[k].value|
  {
    assert forall x :: x in order[1..] ==> x in order;
    if order[0] == k {
      assert k !in order[1..];
      assert Without(order, k) == Without(order[1..], k) == order[1..];
    } else {
      ResidentWithout(order[1..], k, m);
      var r := Without(order[1..], k);
      assert ([order[0]] + r)[1..] == r;
    }
  }
}

/**
 What each operation of the in-memory tier does to its state, and the laws of its byte counter.

 `Drift` is the amount by which the counter falls short of the bytes really resident. The code
 subtracts some entries twice (once itself and once through the eviction callback), so the drift
 is part of what it does; the laws below say exactly when it moves.
 */
module MemoryModel {
  import opened CacheTypes
  import opened Lru

  datatype Mem = Mem(lru: Lru, maxSize: int, sizeBytes: int, hits: nat, misses: nat, evictions: nat) {
    ghost predicate Valid() {
      lru.Valid()
    }

    ghost function ResidentBytes(): nat
      requires Valid()
    {
      Resident(lru.order, lru.entries)
    }

    ghost function Drift(): int
      requires Valid()
    {
      ResidentBytes() - sizeBytes
    }
  }

  function Empty(capacity: nat, maxSize: int): Mem {
    Mem(Lru(capacity, [], map[]), maxSize, 0, 0, 0, 0)
  }

  /** The eviction callback. */
  function OnEvict(m: Mem, e: Entry): Mem {
    m.(sizeBytes := m.sizeBytes - |e.value|, evictions := m.evictions + 1)
  }

  function RemoveKey(m: Mem, k: Key): Mem
    requires k in m.lru.entries
  {
    OnEvict(m, m.lru.entries[k]).(lru := m.lru.Remove(k))
  }

  function Get(m: Mem, k: Key, now: int): (Mem, Option<Entry>) {
    if k !in m.lru.entries then
      (m.(misses := m.misses + 1), None)
    else
      var e := m.lru.entries[k];
      if e.IsExpired(now) then
        var gone := RemoveKey(m, k);
        (gone.(sizeBytes := gone.sizeBytes - |e.value|, misses := m.misses + 1), None)
      else
        (m.(lru := m.lru.Touch(k), hits := m.hits + 1), Some(e))
  }

  /** Evicts from the cold end until `incoming` bytes fit or nothing is left. */
  function MakeRoom(m: Mem, incoming: nat): Mem
    requires forall k :: k in m.lru.order ==> k in m.lru.entries
    requires NoDuplicates(m.lru.order)
    decreases |m.lru.order|
  {
    if m.sizeBytes + incoming <= m.maxSize || m.lru.order == [] then m
    else
      WithoutKeepsNoDuplicates(m.lru.order, m.lru.order[0]);
      MakeRoom(RemoveKey(m, m.lru.order[0]), incoming)
  }

  function Insert(m: Mem, k: Key, e: Entry): Mem
    requires m.Valid()
  {
    var shown := match m.lru.Displaced(k) { case None => m case Some(x) => OnEvict(m, m.lru.entries[x]) };
    shown.(lru := m.lru.Add(k, e), sizeBytes := shown.sizeBytes + |e.value|)
  }

  function Discount(m: Mem, k: Key): Mem {
    if k in m.lru.entries then m.(sizeBytes := m.sizeBytes - |m.lru.entries[k].value|) else m
  }

  function Set(m: Mem, k: Key, e: Entry): Mem
    requires m.Valid()
  {
    if m.maxSize > 0 then
      MakeRoomKeepsValid(Discount(m, k), |e.value|);
      Insert(MakeRoom(Discount(m, k), |e.value|), k, e)
    else
      Insert(m, k, e)
  }

  function Delete(m: Mem, k: Key): Mem {
    if k in m.lru.entries then RemoveKey(Discount(m, k), k) else m
  }

  function Clear(m: Mem): Mem {
    m.(lru := Lru(m.lru.capacity, [], map[]), sizeBytes := 0, evictions := m.evictions + |m.lru.order|)
  }

  datatype Op =
    | OpGet(key: Key, now: int)
    | OpSet(key: Key, entry: Entry)
    | OpDelete(key: Key)
    | OpClear

  function Apply(m: Mem, op: Op): (m': Mem)
    requires m.Valid()
    ensures m'.Valid() && m'.maxSize == m.maxSize && m'.lru.capacity == m.lru.capacity
  {
    ApplyKeepsValid(m, op);
    match op
    case OpGet(k, now) => Get(m, k, now).0
    case OpSet(k, e) => Set(m, k, e)
    case OpDelete(k) => Delete(m, k)
    case OpClear => Clear(m)
  }

  function Run(m: Mem, ops: seq<Op>): (m': Mem)
    requires m.Valid()
    ensures m'.Valid() && m'.maxSize == m.maxSize
  {
    if ops == [] then m else Apply(Run(m, ops[..|ops| - 1]), ops[|ops| - 1])
  }

  // ---------------------------------------------------------------- structure

  lemma RemoveKeyKeepsValid(m: Mem, k: Key)
    requires m.Valid() && k in m.lru.entries
    ensures RemoveKey(m, k).Valid()
    ensures RemoveKey(m, k).Drift() == m.Drift()
  {
    var m' := RemoveKey(m, k);
    WithoutKeepsNoDuplicates(m.lru.order, k);
    ResidentWithout(m.lru.order, k, m.lru.entries);
    ResidentFrame(m'.lru.order, m.lru.entries, m'.lru.entries);
  }

  lemma {:induction false} MakeRoomKeepsValid(m: Mem, incoming: nat)
    requires m.Valid()
    ensures MakeRoom(m, incoming).Valid()
    ensures MakeRoom(m, incoming).Drift() == m.Drift()
    ensures MakeRoom(m, incoming).maxSize == m.maxSize
    ensures MakeRoom(m, incoming).lru.capacity == m.lru.capacity
    decreases |m.lru.order|
  {
    if m.sizeBytes + incoming > m.maxSize && m.lru.order != [] {
      var first := m.lru.order[0];
      RemoveKeyKeepsValid(m, first);
      WithoutKeepsNoDuplicates(m.lru.order, first);
      MakeRoomKeepsValid(RemoveKey(m, first), incoming);
    }
  }

  lemma TouchKeepsValid(m: Mem, k: Key)
    requires m.Valid() && k in m.lru.entries
    ensures m.(lru := m.lru.Touch(k)).Valid()
    ensures m.(lru := m.lru.Touch(k)).Drift() == m.Drift()
  {
    var rest := Without(m.lru.order, k);
    WithoutKeepsNoDuplicates(m.lru.order, k);
    ResidentWithout(m.lru.order, k, m.lru.entries);
    ResidentConcat(rest, [k], m.lru.entries);
  }

  lemma OverwriteAccounting(m: Mem, k: Key, e: Entry)
    requires m.Valid() && k in m.lru.entries
    ensures Insert(m, k, e).Valid()
    ensures Insert(m, k, e).Drift() == m.Drift() - |m.lru.entries[k].value|
  {
    var l, l', rest := m.lru, Insert(m, k, e).lru, Without(m.lru.order, k);
    WithoutKeepsNoDuplicates(l.order, k);
    ResidentWithout(l.order, k, l.entries);
    assert l'.order == rest + [k];
    ResidentFrame(rest, l.entries, l'.entries);
    ResidentConcat(rest, [k], l'.entries);
  }

  lemma FreshAccounting(m: Mem, k: Key, e: Entry)
    requires m.Valid() && k !in m.lru.entries && |m.lru.order| < m.lru.capacity
    ensures Insert(m, k, e).Valid()
    ensures Insert(m, k, e).Drift() == m.Drift()
  {
    var l, l' := m.lru, Insert(m, k, e).lru;
    ResidentFrame(l.order, l.entries, l'.entries);
    ResidentConcat(l.order, [k], l'.entries);
  }

  lemma DisplacingAccounting(m: Mem, k: Key, e: Entry)
    requires m.Valid() && k !in m.lru.entries && |m.lru.order| == m.lru.capacity
    ensures Insert(m, k, e).Valid()
    ensures Insert(m, k, e).Drift() == m.Drift()
  {
    var l, l', kept := m.lru, Insert(m, k, e).lru, m.lru.order[1..];
    assert l'.order == kept + [k];
    assert l.order[0] !in kept;
    ResidentFrame(kept, l.entries, l'.entries);
    ResidentConcat(kept, [k], l'.entries);
  }

  /** An insertion accounts for itself, for what it displaces, but not for a value it overwrites. */
  lemma InsertAccounting(m: Mem, k: Key, e: Entry)
    requires m.Valid()
    ensures Insert(m, k, e).Valid()
    ensures Insert(m, k, e).Drift() == m.Drift() - if k in m.lru.entries then |m.lru.entries[k].value| else 0
  {
    if k in m.lru.entries {
      OverwriteAccounting(m, k, e);
    } else if |m.lru.order| < m.lru.capacity {
      FreshAccounting(m, k, e);
    } else {
      DisplacingAccounting(m, k, e);
    }
  }

  lemma ApplyKeepsValid(m: Mem, op: Op)
    requires m.Valid()
    ensures op.OpGet? ==> Get(m, op.key, op.now).0.Valid()
    ensures op.OpSet? ==> Set(m, op.key, op.entry).Valid() && Set(m, op.key, op.entry).lru.capacity == m.lru.capacity
    ensures op.OpSet? ==> Set(m, op.key, op.entry).maxSize == m.maxSize
    ensures op.OpDelete? ==> Delete(m, op.key).Valid()
  {
    match op
    case OpGet(k, now) =>
      if k in m.lru.entries {
        RemoveKeyKeepsValid(m, k);
        TouchKeepsValid(m, k);
      }
    case OpSet(k, e) =>
      if m.maxSize > 0 {
        MakeRoomKeepsValid(Discount(m, k), |e.value|);
        InsertAccounting(MakeRoom(Discount(m, k), |e.value|), k, e);
      } else {
        InsertAccounting(m, k, e);
      }
    case OpDelete(k) =>
      if k in m.lru.entries {
        RemoveKeyKeepsValid(Discount(m, k), k);
      }
    case OpClear =>
  }

  // ------------------------------------------------------- what a Set evicts

  /** How many entries the eviction loop removes. */
  ghost function Evictions(m: Mem, incoming: nat): nat
    requires m.Valid()
    decreases |m.lru.order|
  {
    if m.sizeBytes + incoming <= m.maxSize || m.lru.order == [] then 0
    else
      RemoveKeyKeepsValid(m, m.lru.order[0]);
      WithoutKeepsNoDuplicates(m.lru.order, m.lru.order[0]);
      1 + Evictions(RemoveKey(m, m.lru.order[0]), incoming)
  }

  ghost function ColdBytes(m: Mem, n: nat): nat
    requires m.Valid() && n <= |m.lru.order|
  {
    Resident(m.lru.order[..n], m.lru.entries)
  }

  /** One turn of the loop drops the coldest key and leaves the rest of the recency list alone. */
  lemma RemoveColdest(m: Mem)
    requires m.Valid() && m.lru.order != []
    ensures RemoveKey(m, m.lru.order[0]).Valid()
    ensures RemoveKey(m, m.lru.order[0]).lru.order == m.lru.order[1..]
  {
    var o := m.lru.order;
    RemoveKeyKeepsValid(m, o[0]);
    assert o[0] !in o[1..];
    assert Without(o, o[0]) == Without(o[1..], o[0]);
  }

  lemma ColdBytesAfterColdest(m: Mem, j: nat)
    requires m.Valid() && 0 < j <= |m.lru.order|
    requires RemoveKey(m, m.lru.order[0]).Valid()
    requires RemoveKey(m, m.lru.order[0]).lru.order == m.lru.order[1..]
    ensures ColdBytes(m, j) == |m.lru.entries[m.lru.order[0]].value| + ColdBytes(RemoveKey(m, m.lru.order[0]), j - 1)
  {
    var o := m.lru.order;
    var next := RemoveKey(m, o[0]);
    assert o[..j][1..] == o[1..][..j - 1] == next.lru.order[..j - 1];
    ResidentFrame(o[1..][..j - 1], m.lru.entries, next.lru.entries);
  }

  lemma {:induction false} MakeRoomKeepsSuffix(m: Mem, incoming: nat)
    requires m.Valid()
    ensures var n, m' := Evictions(m, incoming), MakeRoom(m, incoming);
      && n <= |m.lru.order|
      && m'.lru.order == m.lru.order[n..]
      && m'.evictions == m.evictions + n
      && (forall k :: k in m'.lru.entries ==> k in m.lru.entries && m'.lru.entries[k] == m.lru.entries[k])
    decreases |m.lru.order|
  {
    if m.sizeBytes + incoming > m.maxSize && m.lru.order != [] {
      RemoveColdest(m);
      MakeRoomKeepsSuffix(RemoveKey(m, m.lru.order[0]), incoming);
    }
  }

  /** One turn of the loop. */
  lemma MakeRoomOnce(m: Mem, incoming: nat, next: Mem)
    requires m.Valid() && m.sizeBytes + incoming > m.maxSize && m.lru.order != []
    requires next == RemoveKey(m, m.lru.order[0]) && next.Valid()
    ensures MakeRoom(m, incoming) == MakeRoom(next, incoming)
    ensures Evictions(m, incoming) == 1 + Evictions(next, incoming)
    ensures next.sizeBytes == m.sizeBytes - |m.lru.entries[m.lru.order[0]].value| && next.maxSize == m.maxSize
  {
  }

  lemma {:induction false} MakeRoomStops(m: Mem, incoming: nat)
    requires m.Valid()
    ensures var n := Evictions(m, incoming);
      && n <= |m.lru.order|
      && MakeRoom(m, incoming).sizeBytes == m.sizeBytes - ColdBytes(m, n)
      && (n == |m.lru.order| || m.sizeBytes - ColdBytes(m, n) + incoming <= m.maxSize)
    decreases |m.lru.order|
  {
    if m.sizeBytes + incoming > m.maxSize && m.lru.order != [] {
      var next := RemoveKey(m, m.lru.order[0]);
      RemoveColdest(m);
      MakeRoomOnce(m, incoming, next);
      MakeRoomStops(next, incoming);
      ColdBytesAfterColdest(m, 1 + Evictions(next, incoming));
    }
  }

  lemma {:induction false} EvictionNeeded(m: Mem, incoming: nat, j: nat)
    requires m.Valid() && j < Evictions(m, incoming) <= |m.lru.order|
    ensures m.sizeBytes - ColdBytes(m, j) + incoming > m.maxSize
    decreases |m.lru.order|
  {
    if j > 0 {
      RemoveColdest(m);
      EvictionNeeded(RemoveKey(m, m.lru.order[0]), incoming, j - 1);
      ColdBytesAfterColdest(m, j);
    }
  }

  /**
   The loop drops exactly the shortest cold prefix that makes room, or everything: it stops at the
   first length at which the value fits.
   */
  lemma MakeRoomDropsShortestPrefix(m: Mem, incoming: nat)
    requires m.Valid()
    ensures Evictions(m, incoming) <= |m.lru.order|
    ensures MakeRoom(m, incoming).sizeBytes == m.sizeBytes - ColdBytes(m, Evictions(m, incoming))
    ensures Evictions(m, incoming) == |m.lru.order| ||
            m.sizeBytes - ColdBytes(m, Evictions(m, incoming)) + incoming <= m.maxSize
    ensures forall j: nat :: j < Evictions(m, incoming) ==> m.sizeBytes - ColdBytes(m, j) + incoming > m.maxSize
  {
    MakeRoomStops(m, incoming);
    forall j: nat | j < Evictions(m, incoming)
      ensures m.sizeBytes - ColdBytes(m, j) + incoming > m.maxSize
    {
      EvictionNeeded(m, incoming, j);
    }
  }

  ghost function Position(s: seq<Key>, k: Key): (p: nat)
    requires k in s
    ensures p < |s| && s[p] == k
  {
    if s[0] == k then 0 else 1 + Position(s[1..], k)
  }

  lemma ColdBytesGrow(m: Mem, i: nat, j: nat)
    requires m.Valid() && i <= j <= |m.lru.order|
    ensures ColdBytes(m, i) <= ColdBytes(m, j)
  {
    var o := m.lru.order;
    assert o[..i] + o[i..j] == o[..j];
    ResidentConcat(o[..i], o[i..j], m.lru.entries);
  }

  /**
   Does a replacing Set push out the very entry it replaces? True when the bytes kept after
   discounting the old value and everything colder than it still leave no room.
   */
  ghost predicate EvictsOwnKey(m: Mem, k: Key, e: Entry)
    requires m.Valid()
  {
    && m.maxSize > 0
    && k in m.lru.entries
    && m.sizeBytes - |m.lru.entries[k].value| - ColdBytes(m, Position(m.lru.order, k)) + |e.value| > m.maxSize
  }

  lemma DiscountKeepsColdBytes(m: Mem, k: Key, j: nat)
    requires m.Valid() && j <= |m.lru.order|
    ensures Discount(m, k).Valid() && ColdBytes(Discount(m, k), j) == ColdBytes(m, j)
  {
  }

  lemma InSuffixExactlyWhen(s: seq<Key>, k: Key, n: nat)
    requires NoDuplicates(s) && k in s && n <= |s|
    ensures k in s[n..] <==> n <= Position(s, k)
  {
    var p := Position(s, k);
    if n <= p {
      assert s[n..][p - n] == k;
    } else {
      assert forall i :: n <= i < |s| ==> s[i] != s[p];
    }
  }

  /** The key goes when eviction reaches its position, and stays when it stops before. */
  lemma EvictedByPosition(d: Mem, k: Key, incoming: nat)
    requires d.Valid() && k in d.lru.entries
    ensures k !in MakeRoom(d, incoming).lru.entries <==> Position(d.lru.order, k) < Evictions(d, incoming)
  {
    MakeRoomKeepsValid(d, incoming);
    MakeRoomKeepsSuffix(d, incoming);
    InSuffixExactlyWhen(d.lru.order, k, Evictions(d, incoming));
  }

  lemma OwnKeyEvictedExactlyWhen(m: Mem, k: Key, e: Entry)
    requires m.Valid() && m.maxSize > 0 && k in m.lru.entries
    ensures k !in MakeRoom(Discount(m, k), |e.value|).lru.entries <==> EvictsOwnKey(m, k, e)
  {
    var d, p := Discount(m, k), Position(m.lru.order, k);
    var n := Evictions(d, |e.value|);
    EvictedByPosition(d, k, |e.value|);
    MakeRoomDropsShortestPrefix(d, |e.value|);
    DiscountKeepsColdBytes(m, k, p);
    DiscountKeepsColdBytes(m, k, n);
    if p < n {
      assert d.sizeBytes - ColdBytes(d, p) + |e.value| > m.maxSize;
    } else {
      ColdBytesGrow(m, n, p);
    }
  }

  // ------------------------------------------------------------ byte accounting

  /** How much one operation adds to the drift. */
  ghost function Contribution(m: Mem, op: Op): int
    requires m.Valid()
  {
    match op
    case OpGet(k, now) => if k in m.lru.entries && m.lru.entries[k].IsExpired(now) then |m.lru.entries[k].value| else 0
    case OpDelete(k) => if k in m.lru.entries then |m.lru.entries[k].value| else 0
    case OpSet(k, e) =>
      if k !in m.lru.entries then 0
      else if m.maxSize <= 0 then -|m.lru.entries[k].value|
      else if EvictsOwnKey(m, k, e) then |m.lru.entries[k].value|
      else 0
    case OpClear => -m.Drift()
  }

  /** The conservation law of one operation, with and without a size limit. */
  lemma DriftStep(m: Mem, op: Op)
    requires m.Valid()
    ensures Apply(m, op).Drift() == m.Drift() + Contribution(m, op)
  {
    match op
    case OpGet(k, now) =>
      if k in m.lru.entries {
        RemoveKeyKeepsValid(m, k);
        TouchKeepsValid(m, k);
      }
    case OpSet(k, e) =>
      if m.maxSize > 0 {
        var d := Discount(m, k);
        MakeRoomKeepsValid(d, |e.value|);
        MakeRoomKeepsSuffix(d, |e.value|);
        InsertAccounting(MakeRoom(d, |e.value|), k, e);
        if k in m.lru.entries {
          OwnKeyEvictedExactlyWhen(m, k, e);
        }
      } else {
        InsertAccounting(m, k, e);
      }
    case OpDelete(k) =>
      if k in m.lru.entries {
        RemoveKeyKeepsValid(Discount(m, k), k);
      }
    case OpClear =>
  }

  /** Operation `i` of the run from the empty cache moves the counter away from the resident bytes. */
  ghost predicate DriftsAt(start: Mem, ops: seq<Op>, i: nat)
    requires start.Valid() && i < |ops|
  {
    !ops[i].OpClear? && Contribution(Run(start, ops[..i]), ops[i]) != 0
  }

  /** No Clear comes after operation `i`. */
  ghost predicate SinceClear(ops: seq<Op>, i: nat) {
    forall j :: i < j < |ops| ==> !ops[j].OpClear?
  }

  ghost predicate NoDriftSinceClear(start: Mem, ops: seq<Op>)
    requires start.Valid()
  {
    forall i: nat :: i < |ops| && SinceClear(ops, i) ==> !DriftsAt(start, ops, i)
  }

  lemma NoDriftStep(start: Mem, before: seq<Op>, last: Op)
    requires start.Valid()
    ensures NoDriftSinceClear(start, before + [last]) <==>
      (last.OpClear? || (NoDriftSinceClear(start, before) && Contribution(Run(start, before), last) == 0))
  {
    var ops, n := before + [last], |before|;
    assert ops[..n] == before;
    assert SinceClear(ops, n);
    forall i: nat | i < n
      ensures DriftsAt(start, ops, i) <==> DriftsAt(start, before, i)
      ensures SinceClear(ops, i) <==> SinceClear(before, i) && !last.OpClear?
    {
      assert before[..i] == ops[..i];
      assert ops[n] == last;
      assert forall j :: i < j < n ==> ops[j] == before[j];
    }
    if NoDriftSinceClear(start, ops) && !last.OpClear? {
      assert !DriftsAt(start, ops, n);
    }
  }

  /** One more operation at the end of a run. */
  lemma CounterStep(start: Mem, before: seq<Op>, last: Op)
    requires start.Valid() && start.maxSize > 0
    ensures var d, c := Run(start, before).Drift(), Contribution(Run(start, before), last);
      && Run(start, before + [last]).Drift() == d + c
      && (if last.OpClear? then c == -d else c >= 0)
  {
    assert (before + [last])[..|before|] == before;
    DriftStep(Run(start, before), last);
  }

  /** The counter is never ahead of the resident bytes, and level with them exactly without drift. */
  ghost predicate DriftLaw(start: Mem, ops: seq<Op>)
    requires start.Valid()
  {
    Run(start, ops).Drift() >= 0 && (Run(start, ops).Drift() == 0 <==> NoDriftSinceClear(start, ops))
  }

  lemma NoDriftAtStart(start: Mem)
    requires start.Valid() && start.Drift() == 0
    ensures DriftLaw(start, [])
  {
  }

  lemma DriftLawStep(start: Mem, before: seq<Op>, last: Op, ops: seq<Op>)
    requires start.Valid() && start.maxSize > 0 && ops == before + [last]
    ensures DriftLaw(start, before) ==> DriftLaw(start, ops)
  {
    CounterStep(start, before, last);
    NoDriftStep(start, before, last);
  }

  lemma {:induction false} DriftZeroExactlyWhen(start: Mem, ops: seq<Op>)
    requires start.Valid() && start.maxSize > 0 && start.Drift() == 0
    ensures DriftLaw(start, ops)
  {
    hide DriftLaw;
    if ops == [] {
      NoDriftAtStart(start);
    } else {
      var before, last := ops[..|ops| - 1], ops[|ops| - 1];
      DriftZeroExactlyWhen(start, before);
      assert ops == before + [last];
      DriftLawStep(start, before, last, ops);
    }
  }

  /**
   With a size limit, over every run from the empty cache: the counter never exceeds the resident
   bytes, and it equals them exactly when no operation since the last Clear was a Delete of a
   non-empty entry, a Get of an expired non-empty one, or a Set that evicted the entry it replaced.
   */
  lemma CounterExactExactlyWhen(capacity: nat, maxSize: int, ops: seq<Op>)
    requires 0 < capacity && 0 < maxSize
    ensures var m := Run(Empty(capacity, maxSize), ops);
      && m.sizeBytes <= m.ResidentBytes()
      && (m.sizeBytes == m.ResidentBytes() <==> NoDriftSinceClear(Empty(capacity, maxSize), ops))
  {
    DriftZeroExactlyWhen(Empty(capacity, maxSize), ops);
  }

  /** An insertion makes `k` the warmest key and touches no other surviving entry. */
  lemma InsertShape(m: Mem, k: Key, e: Entry)
    requires m.Valid()
    ensures var l := Insert(m, k, e).lru;
      && l.order != [] && l.order[|l.order| - 1] == k
      && k in l.entries && l.entries[k] == e
      && (forall x :: x in l.entries && x != k ==> x in m.lru.entries && l.entries[x] == m.lru.entries[x])
  {
  }

  /** A Set keeps the new entry, whatever it evicts, and changes no other entry that survives. */
  lemma SetShape(m: Mem, k: Key, e: Entry)
    requires m.Valid()
    ensures var l := Set(m, k, e).lru;
      && l.order != [] && l.order[|l.order| - 1] == k
      && k in l.entries && l.entries[k] == e
      && (forall x :: x in l.entries && x != k ==> x in m.lru.entries && l.entries[x] == m.lru.entries[x])
  {
    if m.maxSize > 0 {
      var d := Discount(m, k);
      MakeRoomKeepsValid(d, |e.value|);
      MakeRoomKeepsSuffix(d, |e.value|);
      InsertShape(MakeRoom(d, |e.value|), k, e);
    } else {
      InsertShape(m, k, e);
    }
  }

  /** With the `n` coldest entries gone, and the replaced value discounted, the new value fits the limit. */
  ghost predicate Room(m: Mem, k: Key, e: Entry, n: nat)
    requires m.Valid() && n <= |m.lru.order|
  {
    var own := if k in m.lru.entries then |m.lru.entries[k].value| else 0;
    m.sizeBytes - own - ColdBytes(m, n) + |e.value| <= m.maxSize
  }

  /**
   How many of the coldest entries a Set pushes out: the fewest that make room under a size limit, or
   all of them; if there is room, the coldest one for a new key at capacity, and otherwise none.
   */
  ghost predicate PushesOut(m: Mem, k: Key, e: Entry, n: nat)
    requires m.Valid()
  {
    && n <= |m.lru.order|
    && if m.maxSize > 0 && !Room(m, k, e, 0) then
         (n == |m.lru.order| || Room(m, k, e, n)) && forall j: nat :: j < n ==> !Room(m, k, e, j)
       else n == if k !in m.lru.entries && |m.lru.order| == m.lru.capacity then 1 else 0
  }

  /** What the eviction loop leaves: the warmest entries, behind the fewest that make room. */
  lemma MakeRoomLeavesWarmest(m: Mem, k: Key, e: Entry) returns (n: nat)
    requires m.Valid()
    ensures n <= |m.lru.order| && (n == |m.lru.order| || Room(m, k, e, n))
    ensures forall j: nat :: j < n ==> !Room(m, k, e, j)
    ensures var r := MakeRoom(Discount(m, k), |e.value|);
      && r.Valid() && r.lru.capacity == m.lru.capacity && r.lru.order == m.lru.order[n..]
      && r.evictions == m.evictions + n
      && forall x :: x in r.lru.entries ==> x in m.lru.entries && r.lru.entries[x] == m.lru.entries[x]
  {
    var d := Discount(m, k);
    n := Evictions(d, |e.value|);
    MakeRoomKeepsValid(d, |e.value|);
    MakeRoomKeepsSuffix(d, |e.value|);
    MakeRoomDropsShortestPrefix(d, |e.value|);
    forall j: nat | j <= |m.lru.order|
      ensures Room(m, k, e, j) <==> d.sizeBytes - ColdBytes(d, j) + |e.value| <= d.maxSize
    {
      DiscountKeepsColdBytes(m, k, j);
    }
  }

  /** How an insertion changes the recency list. */
  lemma InsertOrder(m: Mem, k: Key, e: Entry)
    requires m.Valid()
    ensures var full := k !in m.lru.entries && |m.lru.order| == m.lru.capacity;
      var kept := if full then m.lru.order[1..] else m.lru.order;
      Insert(m, k, e).lru.order == Without(kept, k) + [k]
  {
    if k !in m.lru.entries && |m.lru.order| == m.lru.capacity {
      assert k !in m.lru.order[1..];
    }
  }

  /**
   What a Set leaves, exactly: the entries warmer than those it pushes out, in their order and
   unchanged, and the new one as the warmest.
   */
  lemma SetLeaves(m: Mem, k: Key, e: Entry) returns (n: nat)
    requires m.Valid()
    ensures PushesOut(m, k, e, n)
    ensures var l := Set(m, k, e).lru;
      && l.order == Without(m.lru.order[n..], k) + [k]
      && (forall x :: x in l.entries <==> x == k || x in m.lru.order[n..])
      && (forall x :: x in l.entries && x != k ==> x in m.lru.entries && l.entries[x] == m.lru.entries[x])
      && k in l.entries && l.entries[k] == e
      && Set(m, k, e).evictions == m.evictions + n
  {
    var r := m;
    n := 0;
    if m.maxSize > 0 {
      n := MakeRoomLeavesWarmest(m, k, e);
      r := MakeRoom(Discount(m, k), |e.value|);
    }
    ApplyKeepsValid(m, OpSet(k, e));
    SetShape(m, k, e);
    InsertOrder(r, k, e);
    if k !in r.lru.entries && |r.lru.order| == r.lru.capacity {
      n := n + 1;
      assert m.lru.order[n - 1..][1..] == m.lru.order[n..];
    }
  }

  /** `after` holds the new entry as the warmest, and of `m` exactly the entries warmer than those pushed out. */
  ghost predicate LeavesWarmest(m: Mem, k: Key, e: Entry, after: Lru)
    requires m.Valid()
  {
    exists n: nat :: PushesOut(m, k, e, n) && Left(m, k, e, after, n)
  }

  ghost predicate Left(m: Mem, k: Key, e: Entry, after: Lru, n: nat) {
    && n <= |m.lru.order|
    && after.order == Without(m.lru.order[n..], k) + [k]
    && (forall x :: x in after.entries <==> x == k || x in m.lru.order[n..])
    && (forall x :: x in after.entries && x != k ==> x in m.lru.entries && after.entries[x] == m.lru.entries[x])
    && k in after.entries && after.entries[k] == e
  }

  /** A value under this key pushes nothing out: there is a place for it, and room under the size limit. */
  predicate Fits(m: Mem, k: Key, value: Bytes) {
    && (k in m.lru.entries || |m.lru.order| < m.lru.capacity)
    && (m.maxSize > 0 ==>
          m.sizeBytes - (if k in m.lru.entries then |m.lru.entries[k].value| else 0) + |value| <= m.maxSize)
  }

  /**
   The frame of a Set: it keeps exactly the entries warmer than those it pushes out, and if the value
   fits it pushes none out, so that every other entry stays as it is.
   */
  lemma SetFrame(m: Mem, k: Key, e: Entry)
    requires m.Valid()
    ensures LeavesWarmest(m, k, e, Set(m, k, e).lru)
    ensures Fits(m, k, e.value) ==> Set(m, k, e).lru.entries == m.lru.entries[k := e]
  {
    var n := SetLeaves(m, k, e);
    assert Left(m, k, e, Set(m, k, e).lru, n);
    if Fits(m, k, e.value) {
      assert m.lru.order[0..] == m.lru.order;
      assert n == 0;
    }
  }

  lemma {:induction false} WithoutFromMiddle(a: seq<Key>, k: Key, b: seq<Key>)
    requires k !in a && k !in b
    ensures Without(a + [k] + b, k) == a + b
  {
    var s := a + [k] + b;
    if a == [] {
      assert s[1..] == b && a + b == b;
    } else {
      assert s[1..] == a[1..] + [k] + b && [a[0]] + (a[1..] + b) == a + b;
      WithoutFromMiddle(a[1..], k, b);
    }
  }

  /** A hit hands out the entry and makes its key the warmest; all others keep their order, and nothing else changes. */
  lemma HitWarms(m: Mem, k: Key, now: int, a: seq<Key>, b: seq<Key>)
    requires m.Valid() && m.lru.order == a + [k] + b && k in m.lru.entries && now <= m.lru.entries[k].expiresAt
    ensures var (m', r) := Get(m, k, now);
      && r == Some(m.lru.entries[k])
      && m' == m.(lru := m.lru.(order := a + b + [k]), hits := m.hits + 1)
  {
    forall i | 0 <= i < |a| ensures a[i] != k {
      assert m.lru.order[i] == a[i] && m.lru.order[|a|] == k;
    }
    forall i | 0 <= i < |b| ensures b[i] != k {
      assert m.lru.order[|a| + 1 + i] == b[i] && m.lru.order[|a|] == k;
    }
    WithoutFromMiddle(a, k, b);
  }

  /** After every Set under a size limit, the counter is within it or the new entry stands alone. */
  lemma SetRespectsBudget(m: Mem, k: Key, e: Entry)
    requires m.Valid() && m.maxSize > 0
    ensures var m' := Set(m, k, e);
      && m'.Valid()
      && (m'.sizeBytes <= m'.maxSize || m'.lru.order == [k])
      && (|e.value| <= m.maxSize && m'.Drift() >= 0 ==> m'.ResidentBytes() <= m.maxSize + m'.Drift())
  {
    ApplyKeepsValid(m, OpSet(k, e));
    var d := Discount(m, k);
    MakeRoomKeepsValid(d, |e.value|);
    MakeRoomKeepsSuffix(d, |e.value|);
    MakeRoomDropsShortestPrefix(d, |e.value|);
    var r := MakeRoom(d, |e.value|);
    if r.lru.order == [] {
      var l := Set(m, k, e).lru;
      SetShape(m, k, e);
      assert l.order == [k] && l.order[1..] == [];
      assert Resident(l.order, l.entries) == |l.entries[k].value| + Resident(l.order[1..], l.entries);
    }
  }

  lemma RunExtends(m: Mem, ops: seq<Op>, op: Op)
    requires m.Valid()
    ensures Run(m, ops + [op]) == Apply(Run(m, ops), op)
  {
    assert (ops + [op])[..|ops|] == ops;
  }

  // ---------------------------------------------------- recency, and the statistics

  /** The operation uses `k`: it sets it, or gets it while its entry is not expired. */
  predicate Uses(m: Mem, op: Op, k: Key) {
    match op
    case OpSet(x, _) => x == k
    case OpGet(x, now) => x == k && k in m.lru.entries && now <= m.lru.entries[k].expiresAt
    case _ => false
  }

  /** The position, counted from one, of the last operation of the run that uses `k`; zero if there is none. */
  ghost function LastUse(start: Mem, ops: seq<Op>, k: Key): nat
    requires start.Valid()
  {
    if ops == [] then 0
    else if Uses(Run(start, ops[..|ops| - 1]), ops[|ops| - 1], k) then |ops|
    else LastUse(start, ops[..|ops| - 1], k)
  }

  ghost predicate Ascending(s: seq<Key>, f: Key -> nat) {
    forall i, j :: 0 <= i < j < |s| ==> f(s[i]) < f(s[j])
  }

  lemma {:induction false} WithoutAscends(s: seq<Key>, k: Key, f: Key -> nat)
    requires Ascending(s, f)
    ensures Ascending(Without(s, k), f)
    ensures s != [] ==> forall x :: x in Without(s, k) ==> f(s[0]) <= f(x)
  {
    if s != [] {
      WithoutAscends(s[1..], k, f);
      forall x | x in Without(s, k) ensures f(s[0]) <= f(x) {
        var i :| 0 <= i < |s| && s[i] == x;
      }
      if s[0] != k {
        forall x | x in Without(s[1..], k) ensures f(s[0]) < f(x) {
          var i :| 0 <= i < |s[1..]| && s[1..][i] == x;
          assert s[i + 1] == x;
        }
      }
    }
  }

  /** One key moves to the end, behind the last use of all the others. */
  lemma AppendAscends(s: seq<Key>, k: Key, f: Key -> nat, g: Key -> nat)
    requires Ascending(s, f) && k !in s
    requires forall x :: x in s ==> g(x) == f(x) && f(x) < g(k)
    ensures Ascending(s + [k], g)
  {
  }

  /** What an operation makes of the recency list: a suffix of it, one key less, and perhaps that key at the end. */
  lemma OrderStep(m: Mem, op: Op) returns (n: nat, k: Key)
    requires m.Valid()
    ensures n <= |m.lru.order|
    ensures Apply(m, op).lru.order == Without(m.lru.order[n..], k) + if Uses(m, op, k) then [k] else []
    ensures forall x :: x != k ==> !Uses(m, op, x)
  {
    n, k := 0, "";
    assert m.lru.order[0..] == m.lru.order;
    match op
    case OpGet(x, now) =>
      k := x;
    case OpSet(x, e) =>
      k := x;
      n := SetLeaves(m, x, e);
    case OpDelete(x) =>
      k := x;
    case OpClear =>
      n := |m.lru.order|;
  }

  lemma {:induction false} UsedBefore(start: Mem, ops: seq<Op>, k: Key)
    requires start.Valid()
    ensures LastUse(start, ops, k) <= |ops|
  {
    if ops != [] {
      UsedBefore(start, ops[..|ops| - 1], k);
    }
  }

  /**
   The recency list over every run: it lists the resident keys in the order of their last use, so what
   goes first, under pressure, is what has not been used for longest.
   */
  lemma {:induction false} RecencyIsLastUse(capacity: nat, maxSize: int, ops: seq<Op>)
    requires 0 < capacity
    ensures var start := Empty(capacity, maxSize);
      Ascending(Run(start, ops).lru.order, k => LastUse(start, ops, k))
  {
    var start := Empty(capacity, maxSize);
    if ops != [] {
      var before, last := ops[..|ops| - 1], ops[|ops| - 1];
      var f, g := (k: Key) => LastUse(start, before, k), (k: Key) => LastUse(start, ops, k);
      RecencyIsLastUse(capacity, maxSize, before);
      var m := Run(start, before);
      var n, k := OrderStep(m, last);
      var rest := m.lru.order[n..];
      WithoutAscends(rest, k, f);
      forall x | x in Without(rest, k) ensures g(x) == f(x) && f(x) < |ops| {
        UsedBefore(start, before, x);
      }
      if Uses(m, last, k) {
        AppendAscends(Without(rest, k), k, f, g);
      } else {
        assert Without(rest, k) + [] == Without(rest, k);
      }
    }
  }

  /** The Set brings in an entry that was not there, or that it has just pushed out itself. */
  ghost predicate Arrives(m: Mem, op: Op)
    requires m.Valid()
  {
    op.OpSet? && (op.key !in m.lru.entries || EvictsOwnKey(m, op.key, op.entry))
  }

  predicate Hits(m: Mem, op: Op) {
    op.OpGet? && Uses(m, op, op.key)
  }

  ghost function Arrivals(start: Mem, ops: seq<Op>): nat
    requires start.Valid()
  {
    if ops == [] then 0
    else
      var before, last := ops[..|ops| - 1], ops[|ops| - 1];
      Arrivals(start, before) + if Arrives(Run(start, before), last) then 1 else 0
  }

  ghost function HitCount(start: Mem, ops: seq<Op>): nat
    requires start.Valid()
  {
    if ops == [] then 0
    else
      var before, last := ops[..|ops| - 1], ops[|ops| - 1];
      HitCount(start, before) + if Hits(Run(start, before), last) then 1 else 0
  }

  function GetCount(ops: seq<Op>): nat {
    if ops == [] then 0 else GetCount(ops[..|ops| - 1]) + if ops[|ops| - 1].OpGet? then 1 else 0
  }

  /** A Set counts one eviction for every entry it pushes out. */
  lemma SetCounts(m: Mem, k: Key, e: Entry)
    requires m.Valid()
    ensures var m' := Set(m, k, e);
      && m'.evictions + |m'.lru.order| == m.evictions + |m.lru.order| + (if Arrives(m, OpSet(k, e)) then 1 else 0)
      && m'.hits == m.hits && m'.misses == m.misses
  {
    var n := SetLeaves(m, k, e);
    var rest := m.lru.order[n..];
    WithoutKeepsNoDuplicates(rest, k);
    SetKeepsHits(m, k, e);
    if k in m.lru.entries && m.maxSize > 0 {
      OwnKeyEvictedExactlyWhen(m, k, e);
      MakeRoomKeepsValid(Discount(m, k), |e.value|);
      MakeRoomKeepsSuffix(Discount(m, k), |e.value|);
    }
  }

  lemma {:induction false} MakeRoomKeepsHits(m: Mem, incoming: nat)
    requires m.Valid()
    ensures MakeRoom(m, incoming).hits == m.hits && MakeRoom(m, incoming).misses == m.misses
    decreases |m.lru.order|
  {
    if m.sizeBytes + incoming > m.maxSize && m.lru.order != [] {
      RemoveColdest(m);
      MakeRoomKeepsHits(RemoveKey(m, m.lru.order[0]), incoming);
    }
  }

  lemma SetKeepsHits(m: Mem, k: Key, e: Entry)
    requires m.Valid()
    ensures Set(m, k, e).hits == m.hits && Set(m, k, e).misses == m.misses
  {
    if m.maxSize > 0 {
      MakeRoomKeepsValid(Discount(m, k), |e.value|);
      MakeRoomKeepsHits(Discount(m, k), |e.value|);
    }
  }

  /** What one operation adds to the statistics. */
  lemma CountsStep(m: Mem, op: Op)
    requires m.Valid()
    ensures var m' := Apply(m, op);
      && m'.evictions + |m'.lru.order| == m.evictions + |m.lru.order| + (if Arrives(m, op) then 1 else 0)
      && m'.hits == m.hits + (if Hits(m, op) then 1 else 0)
      && m'.hits + m'.misses == m.hits + m.misses + (if op.OpGet? then 1 else 0)
  {
    match op
    case OpGet(k, now) =>
      if k in m.lru.entries {
        WithoutKeepsNoDuplicates(m.lru.order, k);
      }
    case OpSet(k, e) => SetCounts(m, k, e);
    case OpDelete(k) =>
      if k in m.lru.entries {
        WithoutKeepsNoDuplicates(m.lru.order, k);
      }
    case OpClear =>
  }

  /**
   The statistics over every run: a Get is either a hit or a miss, a hit being a Get of a resident entry
   not yet expired; and every entry that ever came in is resident or has been counted as evicted.
   */
  lemma {:induction false} StatisticsAddUp(capacity: nat, maxSize: int, ops: seq<Op>)
    requires 0 < capacity
    ensures var start := Empty(capacity, maxSize);
      var m := Run(start, ops);
      && m.hits == HitCount(start, ops) && m.hits + m.misses == GetCount(ops)
      && m.evictions + |m.lru.order| == Arrivals(start, ops)
  {
    if ops != [] {
      StatisticsAddUp(capacity, maxSize, ops[..|ops| - 1]);
      CountsStep(Run(Empty(capacity, maxSize), ops[..|ops| - 1]), ops[|ops| - 1]);
    }
  }

  /** Only a Set can raise the counter, and only a Set can add an entry. */
  lemma OthersOnlyShrink(m: Mem, op: Op)
    requires m.Valid() && !op.OpSet? && (m.Drift() >= 0 || !op.OpClear?)
    ensures op.OpClear? || Apply(m, op).sizeBytes <= m.sizeBytes
    ensures op.OpClear? ==> Apply(m, op).sizeBytes == 0
    ensures |Apply(m, op).lru.order| <= |m.lru.order|
    ensures forall k :: k in Apply(m, op).lru.entries ==>
      k in m.lru.entries && Apply(m, op).lru.entries[k] == m.lru.entries[k]
  {
    match op
    case OpGet(k, now) =>
      if k in m.lru.entries {
        WithoutKeepsNoDuplicates(m.lru.order, k);
      }
    case OpDelete(k) =>
      if k in m.lru.entries {
        WithoutKeepsNoDuplicates(m.lru.order, k);
      }
    case _ =>
  }

  lemma EmptyIsZero(m: Mem)
    requires m.Valid() && m.lru.order == []
    ensures m.sizeBytes == -m.Drift()
  {
  }

  /**
   The budget over every run from the empty cache: the counter is within it, or one entry too large
   for it stands alone.
   */
  lemma {:induction false} RunsRespectBudget(capacity: nat, maxSize: int, ops: seq<Op>)
    requires 0 < capacity && 0 < maxSize
    ensures var m := Run(Empty(capacity, maxSize), ops); m.sizeBytes <= maxSize || |m.lru.order| == 1
  {
    var start := Empty(capacity, maxSize);
    if ops != [] {
      var before, last := ops[..|ops| - 1], ops[|ops| - 1];
      RunsRespectBudget(capacity, maxSize, before);
      DriftZeroExactlyWhen(start, before);
      DriftZeroExactlyWhen(start, ops);
      var m, m' := Run(start, before), Run(start, ops);
      match last
      case OpSet(k, e) => SetRespectsBudget(m, k, e);
      case _ =>
        OthersOnlyShrink(m, last);
        if m'.lru.order == [] {
          EmptyIsZero(m');
        }
    }
  }

  ghost predicate AllFit(maxSize: int, ops: seq<Op>) {
    forall i :: 0 <= i < |ops| && ops[i].OpSet? ==> |ops[i].entry.value| <= maxSize
  }

  /**
   When every value fits the limit, over every run from the empty cache: the counter is within the
   limit, the resident bytes exceed it by the drift at most, and without drift not at all.
   */
  lemma {:induction false} FittingRunsRespectBudget(capacity: nat, maxSize: int, ops: seq<Op>)
    requires 0 < capacity && 0 < maxSize && AllFit(maxSize, ops)
    ensures var m := Run(Empty(capacity, maxSize), ops);
      && m.sizeBytes <= maxSize
      && m.ResidentBytes() <= maxSize + m.Drift()
      && (NoDriftSinceClear(Empty(capacity, maxSize), ops) ==> m.ResidentBytes() <= maxSize)
  {
    var start := Empty(capacity, maxSize);
    DriftZeroExactlyWhen(start, ops);
    if ops != [] {
      var before, last := ops[..|ops| - 1], ops[|ops| - 1];
      FittingRunsRespectBudget(capacity, maxSize, before);
      DriftZeroExactlyWhen(start, before);
      match last
      case OpSet(k, e) => SetRespectsBudget(Run(start, before), k, e);
      case _ => OthersOnlyShrink(Run(start, before), last);
    }
  }

  // ------------------------------------------------- how far the budget can be missed

  /** Operations together with the moments at which they are made. */
  datatype Log = Log(ops: seq<Op>, times: seq<int>) {
    function Then(op: Op, t: int): Log {
      Log(ops + [op], times + [t])
    }

    /** The clock never goes back and stands at `until` at the latest; every Set has a positive TTL. */
    predicate Timed(until: int) {
      && |times| == |ops|
      && (forall i, j :: 0 <= i < j < |times| ==> times[i] <= times[j])
      && (forall i :: 0 <= i < |ops| ==> times[i] <= until && OnTime(ops[i], times[i]))
    }
  }

  predicate OnTime(op: Op, t: int) {
    match op
    case OpGet(_, now) => now == t
    case OpSet(_, e) => t < e.expiresAt
    case _ => true
  }

  lemma ThenTimed(log: Log, op: Op, t: int)
    requires log.Timed(t) && OnTime(op, t)
    ensures log.Then(op, t).Timed(t)
  {
  }

  /** What takes an entry away and subtracts it twice: a Delete, or a Get of the expired entry. */
  datatype Drop = ByDelete | ByGet {
    function Of(k: Key, now: int): Op {
      if ByDelete? then OpDelete(k) else OpGet(k, now)
    }

    predicate Made(op: Op) {
      if ByDelete? then op.OpDelete? else op.OpGet?
    }
  }

  ghost function Payload(n: nat, expiresAt: int): Entry {
    Entry(seq(n, _ => 0 as Octet), expiresAt, false)
  }

  /** A Set of a new key that fits both limits only appends. */
  lemma SetThatFits(m: Mem, k: Key, e: Entry)
    requires m.Valid() && k !in m.lru.entries
    requires |m.lru.order| < m.lru.capacity && m.sizeBytes + |e.value| <= m.maxSize
    ensures Set(m, k, e).lru == Lru(m.lru.capacity, m.lru.order + [k], m.lru.entries[k := e])
    ensures Set(m, k, e).sizeBytes == m.sizeBytes + |e.value|
  {
  }

  lemma DropOnlyKey(m: Mem, kind: Drop, now: int)
    requires m.Valid() && m.lru.order == ["a"] && m.lru.entries["a"].expiresAt < now
    ensures Apply(m, kind.Of("a", now)).lru.order == [] && Apply(m, kind.Of("a", now)).lru.entries == map[]
    ensures Apply(m, kind.Of("a", now)).sizeBytes == m.sizeBytes - 2 * |m.lru.entries["a"].value|
  {
    assert Without(["a"], "a") == Without(["a"][1..], "a");
    assert Apply(m, kind.Of("a", now)).lru.entries.Keys == {};
  }

  /** An entry is set at `t` with the shortest positive TTL and dropped at `t + 2`. */
  lemma OneRound(m: Mem, kind: Drop, t: int)
    requires m.Valid() && m.lru == Lru(m.lru.capacity, [], map[]) && 0 < m.maxSize && m.sizeBytes <= 0
    ensures var m' := Apply(Apply(m, OpSet("a", Payload(m.maxSize, t + 1))), kind.Of("a", t + 2));
      m'.lru == m.lru && m'.sizeBytes == m.sizeBytes - m.maxSize
  {
    SetThatFits(m, "a", Payload(m.maxSize, t + 1));
    DropOnlyKey(Apply(m, OpSet("a", Payload(m.maxSize, t + 1))), kind, t + 2);
  }

  function Times(n: nat, x: int): int {
    if n == 0 then 0 else Times(n - 1, x) + x
  }

  lemma {:induction false} TimesIsProduct(n: nat, x: int)
    ensures Times(n, x) == n * x
  {
    if n > 0 {
      TimesIsProduct(n - 1, x);
      assert n * x == (n - 1) * x + x;
    }
  }

  lemma NeverAhead(n: nat, x: nat)
    ensures Times(n, x) >= 0
  {
  }

  /** Every operation is a drop or the Set of a value of exactly this size. */
  predicate FilledOrDropped(ops: seq<Op>, size: nat, kind: Drop) {
    forall op :: op in ops ==> (op.OpSet? && |op.entry.value| == size) || kind.Made(op)
  }

  /** `log` with one more round after it. */
  ghost function RoundAfter(log: Log, size: nat, kind: Drop, t: int): Log {
    log.Then(OpSet("a", Payload(size, t + 1)), t).Then(kind.Of("a", t + 2), t + 2)
  }

  lemma RoundLogged(log: Log, size: nat, kind: Drop, t: int)
    requires log.Timed(t) && FilledOrDropped(log.ops, size, kind)
    ensures RoundAfter(log, size, kind, t).Timed(t + 2)
    ensures FilledOrDropped(RoundAfter(log, size, kind, t).ops, size, kind)
  {
    var set1 := OpSet("a", Payload(size, t + 1));
    ThenTimed(log, set1, t);
    ThenTimed(log.Then(set1, t), kind.Of("a", t + 2), t + 2);
  }

  /** After `log` the cache is empty and its counter `n` entries of the limit's size short. */
  ghost predicate Short(m0: Mem, log: Log, kind: Drop, n: nat)
    requires m0.Valid() && m0.maxSize > 0
  {
    var m := Run(m0, log.ops);
    && log.Timed(2 * n) && FilledOrDropped(log.ops, m0.maxSize, kind)
    && m.lru == Lru(m0.lru.capacity, [], map[]) && m.sizeBytes == -Times(n, m0.maxSize)
  }

  lemma RoundRuns(m0: Mem, log: Log, kind: Drop, t: int)
    requires m0.Valid() && m0.maxSize > 0
    requires var m := Run(m0, log.ops); m.lru == Lru(m.lru.capacity, [], map[]) && m.sizeBytes <= 0
    ensures var m, m' := Run(m0, log.ops), Run(m0, RoundAfter(log, m0.maxSize, kind, t).ops);
      m'.lru == m.lru && m'.sizeBytes == m.sizeBytes - m0.maxSize
  {
    var set1 := OpSet("a", Payload(m0.maxSize, t + 1));
    RunExtends(m0, log.ops, set1);
    RunExtends(m0, log.ops + [set1], kind.Of("a", t + 2));
    OneRound(Run(m0, log.ops), kind, t);
  }

  lemma OneMoreRound(m0: Mem, earlier: Log, kind: Drop, n: nat) returns (log: Log)
    requires m0.Valid() && m0.maxSize > 0 && Short(m0, earlier, kind, n)
    ensures Short(m0, log, kind, n + 1)
  {
    hide Run;
    NeverAhead(n, m0.maxSize);
    RoundLogged(earlier, m0.maxSize, kind, 2 * n);
    RoundRuns(m0, earlier, kind, 2 * n);
    log := RoundAfter(earlier, m0.maxSize, kind, 2 * n);
  }

  lemma ShortAtStart(m0: Mem, kind: Drop)
    requires m0.Valid() && m0.maxSize > 0 && m0.lru.order == [] && m0.lru.entries == map[] && m0.sizeBytes == 0
    ensures Short(m0, Log([], []), kind, 0)
  {
  }

  /** `n` rounds of setting and dropping one entry leave the cache empty and the counter `n` entries short. */
  lemma {:induction false} DropRounds(m0: Mem, kind: Drop, n: nat) returns (log: Log)
    requires m0.Valid() && m0.maxSize > 0 && m0.lru.order == [] && m0.lru.entries == map[] && m0.sizeBytes == 0
    ensures Short(m0, log, kind, n)
  {
    if n == 0 {
      ShortAtStart(m0, kind);
      log := Log([], []);
    } else {
      var earlier := DropRounds(m0, kind, n - 1);
      log := OneMoreRound(m0, earlier, kind, n - 1);
    }
  }

  function NumberedKey(n: nat): (k: Key)
    ensures |k| == n
  {
    seq(n, _ => 'k')
  }

  /** The state holds exactly `n` numbered keys of the limit's size each. */
  ghost predicate Filled(m: Mem, n: nat) {
    && m.Valid() && |m.lru.order| == n
    && (forall k :: k in m.lru.order ==> |k| < n)
    && m.ResidentBytes() == Times(n, m.maxSize)
  }

  lemma FillOne(m: Mem, n: nat, expiresAt: int)
    requires Filled(m, n) && n < m.lru.capacity && m.sizeBytes <= 0 < m.maxSize
    ensures var m' := Apply(m, OpSet(NumberedKey(n), Payload(m.maxSize, expiresAt)));
      Filled(m', n + 1) && m'.sizeBytes == m.sizeBytes + m.maxSize && m'.lru.capacity == m.lru.capacity
  {
    var k, p := NumberedKey(n), Payload(m.maxSize, expiresAt);
    SetThatFits(m, k, p);
    DriftStep(m, OpSet(k, p));
  }

  /** After `log` exactly `k` keys of the limit's size are resident and the counter is `n` of them short. */
  ghost predicate FilledShort(m0: Mem, log: Log, kind: Drop, n: nat, k: nat)
    requires m0.Valid() && m0.maxSize > 0
  {
    var m := Run(m0, log.ops);
    && log.Timed(2 * n) && FilledOrDropped(log.ops, m0.maxSize, kind)
    && Filled(m, k) && m.lru.capacity == m0.lru.capacity
    && m.sizeBytes == Times(k, m0.maxSize) - Times(n, m0.maxSize)
  }

  lemma ShortIsEmpty(m0: Mem, log: Log, kind: Drop, n: nat)
    requires m0.Valid() && m0.maxSize > 0
    ensures Short(m0, log, kind, n) ==> FilledShort(m0, log, kind, n, 0)
  {
  }

  /** As long as the counter is not ahead of nothing, one more key fits. */
  lemma FillMore(m0: Mem, log: Log, kind: Drop, n: nat, k: nat)
    requires m0.Valid() && m0.maxSize > 0 && k <= n && k < m0.lru.capacity
    ensures var last := OpSet(NumberedKey(k), Payload(m0.maxSize, 2 * n + 1));
      FilledShort(m0, log, kind, n, k) ==> FilledShort(m0, log.Then(last, 2 * n), kind, n, k + 1)
  {
    hide Run;
    if FilledShort(m0, log, kind, n, k) {
      var last := OpSet(NumberedKey(k), Payload(m0.maxSize, 2 * n + 1));
      TimesGrow(k, n, m0.maxSize);
      FillOne(Run(m0, log.ops), k, 2 * n + 1);
      RunExtends(m0, log.ops, last);
      ThenTimed(log, last, 2 * n);
    }
  }

  lemma {:induction false} TimesGrow(k: nat, n: nat, x: int)
    requires k <= n && 0 <= x
    ensures Times(k, x) <= Times(n, x)
  {
    if k < n {
      TimesGrow(k, n - 1, x);
    }
  }

  /** `n` rounds, and then `k` keys of the limit's size each, set one after another. */
  lemma {:induction false} FillAfterRounds(m0: Mem, kind: Drop, n: nat, k: nat) returns (log: Log)
    requires m0.Valid() && m0.maxSize > 0 && m0.lru.order == [] && m0.lru.entries == map[] && m0.sizeBytes == 0
    requires k <= n + 1 && k <= m0.lru.capacity
    ensures FilledShort(m0, log, kind, n, k)
  {
    hide Run, FilledShort, Short;
    if k == 0 {
      log := DropRounds(m0, kind, n);
      ShortIsEmpty(m0, log, kind, n);
    } else {
      var earlier := FillAfterRounds(m0, kind, n, k - 1);
      FillMore(m0, earlier, kind, n, k - 1);
      log := earlier.Then(OpSet(NumberedKey(k - 1), Payload(m0.maxSize, 2 * n + 1)), 2 * n);
    }
  }

  /** With one key more than rounds, the counter is within the limit and so many limits are resident. */
  lemma FilledMissesBudget(m0: Mem, log: Log, kind: Drop, n: nat)
    requires m0.Valid() && m0.maxSize > 0
    ensures FilledShort(m0, log, kind, n, n + 1) ==>
      && log.Timed(2 * n) && AllFit(m0.maxSize, log.ops) && (forall op :: op in log.ops ==> op.OpSet? || kind.Made(op))
      && Run(m0, log.ops).sizeBytes <= m0.maxSize
      && Run(m0, log.ops).ResidentBytes() == (n + 1) * m0.maxSize
  {
    hide Run;
    TimesIsProduct(n + 1, m0.maxSize);
    if FilledShort(m0, log, kind, n, n + 1) {
      forall i | 0 <= i < |log.ops| && log.ops[i].OpSet? ensures |log.ops[i].entry.value| <= m0.maxSize {
        assert log.ops[i] in log.ops;
      }
    }
  }

  /**
   The budget bounds the counter, not the resident bytes, and the gap has no bound of its own: for
   every limit, and every `n` within capacity, a run in which every value fits ends with the counter
   within the limit and `n` times the limit resident. Deletes do that, and so do Gets of expired
   entries alone, on a clock that never goes back and with positive TTLs only.
   */
  lemma BudgetMultiplied(capacity: nat, maxSize: nat, n: nat, kind: Drop) returns (log: Log)
    requires 0 < n <= capacity && 0 < maxSize
    ensures log.Timed(2 * n) && AllFit(maxSize, log.ops)
    ensures forall op :: op in log.ops ==> op.OpSet? || kind.Made(op)
    ensures var m := Run(Empty(capacity, maxSize), log.ops);
      m.sizeBytes <= maxSize && m.ResidentBytes() == n * maxSize
  {
    hide Run, FilledShort, AllFit;
    log := FillAfterRounds(Empty(capacity, maxSize), kind, n - 1, n);
    FilledMissesBudget(Empty(capacity, maxSize), log, kind, n - 1);
  }
}

/** The in-memory tier: an LRU map with expiry and a byte budget. */
module MemoryCache {
  import opened CacheTypes
  import opened Lru
  import M = MemoryModel

  class MemoryCache {
    var cache: Lru
    const maxSize: int
    var sizeBytes: int
    var hits: nat
    var misses: nat
    var evictions: nat

    ghost predicate Valid()
      reads this
    {
      cache.Valid()
    }

    ghost function State(): M.Mem
      reads this
    {
      M.Mem(cache, maxSize, sizeBytes, hits, misses, evictions)
    }

    /** The LRU library refuses a non-positive capacity, so `New` does not get here with one. */
    constructor (maxEntries: nat, maxSize: int)
      requires 0 < maxEntries
      ensures Valid() && State() == M.Empty(maxEntries, maxSize)
    {
      this.cache := Lru(maxEntries, [], map[]);
      this.maxSize := maxSize;
      this.sizeBytes, this.hits, this.misses, this.evictions := 0, 0, 0, 0;
    }

    /** Fails, without a cache, exactly on a non-positive number of entries. */
    static method New(maxEntries: int, maxSize: int) returns (c: MemoryCache?)
      ensures c == null <==> maxEntries <= 0
      ensures c != null ==> fresh(c) && c.Valid() && c.State() == M.Empty(maxEntries, maxSize)
    {
      if maxEntries <= 0 {
        return null;
      }
      c := new MemoryCache(maxEntries, maxSize);
    }

    method OnEvict(entry: Entry)
      modifies this`sizeBytes, this`evictions
      ensures State() == M.OnEvict(old(State()), entry)
    {
      sizeBytes := sizeBytes - |entry.value|;
      evictions := evictions + 1;
    }

    /** `lru.Remove`: drops the key and runs the callback. */
    method RemoveKey(key: Key)
      requires Valid() && key in cache.entries
      modifies this`cache, this`sizeBytes, this`evictions
      ensures Valid() && State() == M.RemoveKey(old(State()), key)
    {
      M.RemoveKeyKeepsValid(State(), key);
      var entry := cache.entries[key];
      cache := cache.Remove(key);
      OnEvict(entry);
    }

    method Get(key: Key, now: int) returns (r: Option<Entry>)
      requires Valid()
      modifies this
      ensures Valid() && (State(), r) == M.Get(old(State()), key, now)
    {
      M.ApplyKeepsValid(State(), M.OpGet(key, now));
      if key !in cache.entries {
        misses := misses + 1;
        return None;
      }
      var entry := cache.entries[key];
      if entry.IsExpired(now) {
        RemoveKey(key);
        sizeBytes := sizeBytes - |entry.value|;
        misses := misses + 1;
        return None;
      }
      cache := cache.Touch(key);
      hits := hits + 1;
      return Some(entry);
    }

    /** `lru.Add`: a new key at capacity pushes out the coldest entry, through the callback. */
    method AddToLru(key: Key, entry: Entry)
      requires Valid()
      modifies this
      ensures State().(sizeBytes := State().sizeBytes + |entry.value|) == M.Insert(old(State()), key, entry)
    {
      match cache.Displaced(key) {
        case None =>
          cache := cache.Add(key, entry);
        case Some(k) =>
          var gone := cache.entries[k];
          cache := cache.Add(key, entry);
          OnEvict(gone);
      }
    }

    method Set(key: Key, value: Bytes, ttl: int, negative: bool, now: int)
      requires Valid()
      modifies this
      ensures Valid() && State() == M.Set(old(State()), key, Entry(value, now + ttl, negative))
      ensures M.LeavesWarmest(old(State()), key, Entry(value, now + ttl, negative), cache)
      ensures M.Fits(old(State()), key, value) ==>
        cache.entries == old(cache.entries)[key := Entry(value, now + ttl, negative)]
    {
      var entry := Entry(value, now + ttl, negative);
      ghost var start := State();
      hide M.LeavesWarmest, M.Fits;
      M.SetFrame(start, key, entry);
      M.ApplyKeepsValid(start, M.OpSet(key, entry));
      if maxSize > 0 {
        if key in cache.entries {
          sizeBytes := sizeBytes - |cache.entries[key].value|;
        }
        ghost var discounted := State();
        assert discounted == M.Discount(start, key);
        while sizeBytes + |value| > maxSize && cache.order != []
          invariant Valid()
          invariant M.MakeRoom(State(), |value|) == M.MakeRoom(discounted, |value|)
          decreases |cache.order|
        {
          WithoutKeepsNoDuplicates(cache.order, cache.order[0]);
          RemoveKey(cache.order[0]);
        }
      }
      ghost var roomy := State();
      M.InsertAccounting(roomy, key, entry);
      AddToLru(key, entry);
      sizeBytes := sizeBytes + |value|;
    }

    method Delete(key: Key)
      requires Valid()
      modifies this
      ensures Valid() && State() == M.Delete(old(State()), key)
    {
      if key in cache.entries {
        sizeBytes := sizeBytes - |cache.entries[key].value|;
        RemoveKey(key);
      }
    }

    /** `lru.Purge` runs the callback for every entry; the counter is then set to zero. */
    method Clear()
      requires Valid()
      modifies this
      ensures Valid() && State() == M.Clear(old(State()))
    {
      evictions := evictions + |cache.order|;
      cache := Lru(cache.capacity, [], map[]);
      sizeBytes := 0;
    }
  }
}
