/** One cache level as a value: the LRU and LFU eviction policies of the
    engine (EvictionPolicy, LRUPolicy, LFUPolicy), each operation a function
    from the old level to the result and the new level. */
module EvictionPolicies {
  import opened CacheTypes
  import opened OrderedDicts

  datatype Policy = LRU | LFU

  /** A level: its policy, its size bound, the ordered store `cache` and,
      for LFU, the Counter `frequency` (an ordered map to counts of its own,
      whose order is the eviction tie-break). An LRU level keeps `frequency`
      empty. */
  datatype Level = Level(policy: Policy, size: int, cache: ODict<Value>, frequency: ODict<nat>)

  /** How many entries a level of the given size can hold: a size of zero or
      less admits none, because the first put then tries to evict from an
      empty store and raises. */
  function Capacity(size: int): nat {
    if size < 0 then 0 else size
  }

  /** What every level keeps under get, put and remove: well-formed tables,
      no more entries than its capacity, and for LFU a count for every stored
      key. A standalone remove may leave counts for keys no longer stored. */
  predicate LevelValid(l: Level) {
    l.cache.Valid() && l.frequency.Valid() &&
    |l.cache.keys| <= Capacity(l.size) &&
    (l.policy == LRU ==> l.frequency.keys == []) &&
    (l.policy == LFU ==> forall k :: k in l.cache.vals ==> k in l.frequency.vals)
  }

  /** LevelValid, and for LFU the Counter holds exactly the stored keys. */
  predicate Synced(l: Level) {
    LevelValid(l) &&
    (l.policy == LFU ==> forall k :: k in l.frequency.vals ==> k in l.cache.vals)
  }

  /** A freshly constructed level. */
  function NewLevel(policy: Policy, size: int): (l: Level)
    ensures Synced(l)
    ensures l.policy == policy && l.size == size && l.cache.keys == [] && l.frequency.keys == []
  {
    Level(policy, size, Empty(), Empty())
  }

  // ---------------------------------------------------------------- Counter

  /** `counter[k]`: a Counter reads 0 for a key it does not hold. */
  function Count(counts: map<Key, nat>, k: Key): nat {
    if k in counts then counts[k] else 0
  }

  /** `counter[k] += 1`. */
  function Increment(f: ODict<nat>, k: Key): (r: ODict<nat>)
    ensures f.Valid() ==> r.Valid()
    ensures Count(r.vals, k) == Count(f.vals, k) + 1
  {
    Assign(f, k, Count(f.vals, k) + 1)
  }

  /** `counter[k] += 1` and then `counter[k] = 1` on a counted key: the
      count is 1 and the key keeps its place in the Counter. */
  lemma IncrementThenReset(f: ODict<nat>, k: Key)
    requires k in f.vals
    ensures Assign(Increment(f, k), k, 1) == ODict(f.keys, f.vals[k := 1])
  {
    AssignTwice(f, k, Count(f.vals, k) + 1, 1);
  }

  /** `min(counter, key=lambda k: counter[k])`: Python's min scans the keys
      in iteration order and replaces its candidate only by a strictly
      smaller one, so it yields the first key of minimal count. */
  function FirstMinimumIndex(keys: seq<Key>, counts: map<Key, nat>): (i: nat)
    requires keys != []
    ensures i < |keys|
    ensures forall j :: 0 <= j < |keys| ==> Count(counts, keys[i]) <= Count(counts, keys[j])
    ensures forall j :: 0 <= j < i ==> Count(counts, keys[i]) < Count(counts, keys[j])
  {
    if |keys| == 1 then 0
    else
      var i := FirstMinimumIndex(keys[..|keys| - 1], counts);
      if Count(counts, keys[|keys| - 1]) < Count(counts, keys[i]) then |keys| - 1 else i
  }

  // ---------------------------------------------------------------- get

  /** What a level's get returns, with the level afterwards. */
  datatype Lookup = Lookup(value: Option<Value>, level: Level)

  /** LRUPolicy.get: a hit moves the key to the tail. */
  function LruGet(l: Level, key: Key): (r: Lookup)
    requires l.cache.Valid()
    ensures r.level.cache.vals == l.cache.vals && r.level.frequency == l.frequency
    ensures key in l.cache.vals ==> && r.value == Some(l.cache.vals[key])
                                    && |r.level.cache.keys| == |l.cache.keys|
                                    && r.level.cache.keys[|r.level.cache.keys| - 1] == key
    ensures key !in l.cache.vals ==> r == Lookup(None, l)
  {
    if key in l.cache.vals then Lookup(Some(l.cache.vals[key]), l.(cache := MoveToEnd(l.cache, key)))
    else Lookup(None, l)
  }

  /** LFUPolicy.get: a hit adds one to the key's count. */
  function LfuGet(l: Level, key: Key): (r: Lookup)
    ensures r.level.cache == l.cache
    ensures key in l.cache.vals ==> && r.value == Some(l.cache.vals[key])
                                    && Count(r.level.frequency.vals, key) == Count(l.frequency.vals, key) + 1
    ensures key !in l.cache.vals ==> r == Lookup(None, l)
  {
    if key in l.cache.vals then Lookup(Some(l.cache.vals[key]), l.(frequency := Increment(l.frequency, key)))
    else Lookup(None, l)
  }

  /** get, dispatched on the level's policy. A hit returns the stored value
      and changes neither the stored values nor the set of keys; a miss
      returns None and changes nothing. */
  function LevelGet(l: Level, key: Key): (r: Lookup)
    requires LevelValid(l)
    ensures r.value == if key in l.cache.vals then Some(l.cache.vals[key]) else None
    ensures key !in l.cache.vals ==> r.level == l
    ensures LevelValid(r.level) && (Synced(l) ==> Synced(r.level))
    ensures r.level.policy == l.policy && r.level.size == l.size
    ensures r.level.cache.vals == l.cache.vals && |r.level.cache.keys| == |l.cache.keys|
  {
    match l.policy
    case LRU => LruGet(l, key)
    case LFU => LfuGet(l, key)
  }

  // ---------------------------------------------------------------- put

  /** LRUPolicy.put: an existing key moves to the tail; a new key at or over
      the size evicts the head first (raising on an empty store); then the
      value is written. */
  function LruPut(l: Level, key: Key, value: Value): (r: Result<Level>)
    requires l.cache.Valid()
    ensures r.Err? <==> key !in l.cache.vals && |l.cache.keys| >= l.size && l.cache.keys == []
    ensures r.Err? ==> r.error == EmptyCachePop
    ensures r.Ok? ==> key in r.value.cache.vals && r.value.cache.vals[key] == value
    ensures r.Ok? ==> r.value.frequency == l.frequency && r.value.cache.Valid()
  {
    if key in l.cache.vals then
      Ok(l.(cache := Assign(MoveToEnd(l.cache, key), key, value)))
    else if |l.cache.keys| >= l.size then
      if l.cache.keys == [] then Err(EmptyCachePop)
      else Ok(l.(cache := Assign(PopFirst(l.cache), key, value)))
    else
      Ok(l.(cache := Assign(l.cache, key, value)))
  }

  /** LFUPolicy.put: an existing key gets the value and one more count in
      place; a new key at or over the size evicts the first key of least
      count from both tables (raising when the Counter is empty or the victim
      is not stored); then the value is written and the count set to 1. */
  function LfuPut(l: Level, key: Key, value: Value): (r: Result<Level>)
    requires LevelValid(l)
    ensures r.Err? ==> key !in l.cache.vals && |l.cache.keys| >= l.size
    ensures r.Err? ==> r.error == (if l.frequency.keys == [] then EmptyCounterMin else EvictedKeyMissing)
    ensures r.Ok? ==> && key in r.value.cache.vals && r.value.cache.vals[key] == value
                      && Count(r.value.frequency.vals, key) == 1
  {
    if key in l.cache.vals then
      var cache1, frequency1 := Assign(l.cache, key, value), Increment(l.frequency, key);
      Ok(l.(cache := Assign(cache1, key, value), frequency := Assign(frequency1, key, 1)))
    else if |l.cache.keys| >= l.size then
      if l.frequency.keys == [] then Err(EmptyCounterMin)
      else
        var victim := l.frequency.keys[FirstMinimumIndex(l.frequency.keys, l.frequency.vals)];
        if victim !in l.cache.vals then Err(EvictedKeyMissing)
        else
          var cache1, frequency1 := Delete(l.cache, victim), Delete(l.frequency, victim);
          Ok(l.(cache := Assign(cache1, key, value), frequency := Assign(frequency1, key, 1)))
    else
      Ok(l.(cache := Assign(l.cache, key, value), frequency := Assign(l.frequency, key, 1)))
  }

  /** put, dispatched on the level's policy. Every successful put leaves the
      key stored with the new value (and, for LFU, with a count of exactly 1)
      and keeps the level within its capacity. No put that needs no eviction
      can fail; on a level whose Counter matches its store, put fails exactly
      when the size is not positive. */
  function LevelPut(l: Level, key: Key, value: Value): (r: Result<Level>)
    requires LevelValid(l)
    ensures r.Ok? ==> LevelValid(r.value) && r.value.policy == l.policy && r.value.size == l.size
    ensures r.Ok? ==> key in r.value.cache.vals && r.value.cache.vals[key] == value
    ensures r.Ok? && l.policy == LFU ==> Count(r.value.frequency.vals, key) == 1
    ensures key in l.cache.vals || |l.cache.keys| < l.size ==> r.Ok?
    ensures Synced(l) ==> (r.Ok? <==> l.size > 0) && (r.Ok? ==> Synced(r.value))
  {
    match l.policy
    case LRU => LruPut(l, key, value)
    case LFU =>
      LfuPutSynced(l, key, value);
      LfuPut(l, key, value)
  }

  /** On an LFU level whose Counter matches its store, put fails exactly
      when the size is not positive and keeps the Counter matching. */
  lemma LfuPutSynced(l: Level, key: Key, value: Value)
    requires LevelValid(l) && l.policy == LFU
    ensures var r := LfuPut(l, key, value);
            && (r.Ok? ==> LevelValid(r.value) && r.value.policy == l.policy && r.value.size == l.size)
            && (Synced(l) ==> (r.Ok? <==> l.size > 0) && (r.Ok? ==> Synced(r.value)))
  {
    if Synced(l) && key !in l.cache.vals && |l.cache.keys| >= l.size > 0 {
      LfuPutEvictsLeastFrequent(l, key, value);
    }
  }

  // ---------------------------------------------------------------- remove

  /** EvictionPolicy.remove: deletes the key from the store only, never from
      the LFU Counter; a no-op for an absent key. */
  function LevelRemove(l: Level, key: Key): (r: Level)
    requires LevelValid(l)
    ensures LevelValid(r) && r.policy == l.policy && r.size == l.size
    ensures r.cache.vals == l.cache.vals - {key} && r.frequency == l.frequency
    ensures |r.cache.keys| == |l.cache.keys| - (if key in l.cache.vals then 1 else 0)
    ensures key !in l.cache.vals ==> r == l
  {
    if key in l.cache.vals then l.(cache := Delete(l.cache, key)) else l
  }

  // ---------------------------------------------------------------- properties

  /** An LFU put of a new key into a full level whose Counter matches its
      store evicts the first key of least count in Counter order, from both
      tables, and keeps every other entry and count. Both tables keep the
      order of the remaining keys and list the new key last, so the Counter
      order that breaks the next tie is known after every eviction. */
  lemma LfuPutEvictsLeastFrequent(l: Level, key: Key, value: Value)
    requires Synced(l) && l.policy == LFU
    requires key !in l.cache.vals && |l.cache.keys| >= l.size > 0
    ensures l.frequency.keys != []
    ensures var i := FirstMinimumIndex(l.frequency.keys, l.frequency.vals);
            var victim := l.frequency.keys[i];
            && victim in l.cache.vals
            && (forall k :: k in l.frequency.vals ==> Count(l.frequency.vals, victim) <= Count(l.frequency.vals, k))
            && (forall j :: 0 <= j < i ==> Count(l.frequency.vals, victim) < Count(l.frequency.vals, l.frequency.keys[j]))
            && LfuPut(l, key, value).Ok?
            && var r := LfuPut(l, key, value).value;
            && r.cache.vals == (l.cache.vals - {victim})[key := value]
            && r.frequency.vals == (l.frequency.vals - {victim})[key := 1]
            && r.cache.keys == Without(l.cache.keys, victim) + [key]
            && r.frequency.keys == Without(l.frequency.keys, victim) + [key]
  {
    assert key !in l.frequency.vals;
    var k0 := l.cache.keys[0];
    assert k0 in l.frequency.vals;
    var i := FirstMinimumIndex(l.frequency.keys, l.frequency.vals);
    var victim := l.frequency.keys[i];
    forall k | k in l.frequency.vals
      ensures Count(l.frequency.vals, victim) <= Count(l.frequency.vals, k)
    {
      assert l.frequency.keys[IndexOf(l.frequency.keys, k)] == k;
    }
    assert key !in Delete(l.frequency, victim).vals;
    assert key !in Delete(l.cache, victim).vals;
  }

  /** LRU get on a hit: the key becomes the most recent (last), the stored
      keys and values stay as they were, and every other pair of keys keeps
      its relative order, so the key is now evicted after all of them. */
  lemma LruGetMovesHitToTail(l: Level, key: Key, a: Key, b: Key)
    requires LevelValid(l) && l.policy == LRU && key in l.cache.vals
    ensures var r := LevelGet(l, key).level;
            && r.cache.keys[|r.cache.keys| - 1] == key
            && (forall x :: x in r.cache.keys <==> x in l.cache.keys)
            && (a != key && b != key ==> (Before(r.cache.keys, a, b) <==> Before(l.cache.keys, a, b)))
            && (a in l.cache.keys && a != key ==> Before(r.cache.keys, a, key))
  {
    var w := Without(l.cache.keys, key);
    WithoutContents(l.cache.keys, key);
    if a != key && b != key {
      WithoutKeepsOrder(l.cache.keys, key, a, b);
      if a in w && b in w { AppendKeepsOrder(w, key, a, b); }
    }
    if a in l.cache.keys && a != key { AppendKeepsOrder(w, key, a, a); }
  }

  /** LRU put of a stored key: no eviction, the same keys, the key last and
      mapped to the new value, the other keys in their old relative order. */
  lemma LruPutExistingKey(l: Level, key: Key, value: Value, a: Key, b: Key)
    requires LevelValid(l) && l.policy == LRU && key in l.cache.vals
    ensures LevelPut(l, key, value).Ok?
    ensures var r := LevelPut(l, key, value).value;
            && |r.cache.keys| == |l.cache.keys|
            && (forall x :: x in r.cache.keys <==> x in l.cache.keys)
            && r.cache.keys[|r.cache.keys| - 1] == key
            && r.cache.vals == l.cache.vals[key := value]
            && (a != key && b != key ==> (Before(r.cache.keys, a, b) <==> Before(l.cache.keys, a, b)))
  {
    LruGetMovesHitToTail(l, key, a, b);
  }

  /** LRU put of a new key into a full level evicts exactly the head (the
      least recently used key) and appends the new key. */
  lemma LruPutEvictsHead(l: Level, key: Key, value: Value)
    requires LevelValid(l) && l.policy == LRU
    requires key !in l.cache.vals && |l.cache.keys| >= l.size > 0
    ensures LevelPut(l, key, value).Ok?
    ensures var r := LevelPut(l, key, value).value;
            && r.cache.keys == l.cache.keys[1..] + [key]
            && r.cache.vals == (l.cache.vals - {l.cache.keys[0]})[key := value]
            && |r.cache.keys| == l.size
  {
  }

  /** LRU put of a new key into a level with room evicts nothing and appends. */
  lemma LruPutAppends(l: Level, key: Key, value: Value)
    requires LevelValid(l) && l.policy == LRU
    requires key !in l.cache.vals && |l.cache.keys| < l.size
    ensures LevelPut(l, key, value) == Ok(l.(cache := ODict(l.cache.keys + [key], l.cache.vals[key := value])))
  {
  }

  /** LFU get on a hit adds one to that key's count and to no other, keeps
      the Counter's order and leaves the store untouched. */
  lemma LfuGetCountsHit(l: Level, key: Key)
    requires LevelValid(l) && l.policy == LFU && key in l.cache.vals
    ensures var r := LevelGet(l, key).level;
            && r.cache == l.cache
            && r.frequency.keys == l.frequency.keys
            && r.frequency.vals == l.frequency.vals[key := l.frequency.vals[key] + 1]
  {
  }

  /** LFU put of a stored key: the value is overwritten in place (the key
      keeps its position in both tables) and the count ends at exactly 1,
      whatever it was before. */
  lemma LfuPutExistingKey(l: Level, key: Key, value: Value)
    requires LevelValid(l) && l.policy == LFU && key in l.cache.vals
    ensures LevelPut(l, key, value).Ok?
    ensures var r := LevelPut(l, key, value).value;
            && r.cache.keys == l.cache.keys && r.frequency.keys == l.frequency.keys
            && r.cache.vals == l.cache.vals[key := value]
            && r.frequency.vals == l.frequency.vals[key := 1]
  {
    assert LevelPut(l, key, value) == LfuPut(l, key, value);
    IncrementThenReset(l.frequency, key);
    AssignTwice(l.cache, key, value, value);
  }

  /** remove takes the key out of the LFU store but leaves its count in the
      Counter, so the level no longer has its Counter matching its store. */
  lemma RemoveLeavesCount(l: Level, key: Key)
    requires Synced(l) && l.policy == LFU && key in l.cache.vals
    ensures var r := LevelRemove(l, key);
            && key !in r.cache.vals && key in r.frequency.vals
            && Count(r.frequency.vals, key) == Count(l.frequency.vals, key)
            && !Synced(r)
  {
  }

  /** The stale count a standalone remove leaves behind can be chosen for
      eviction: on an LFU level of size 1, put `a`, remove `a`, put `b`, and
      a put of a third key `c` picks `a` (first in Counter order, count 1),
      which the store no longer holds, so the pop raises. */
  lemma StaleCountBreaksEviction(a: Key, b: Key, c: Key, x: Value, y: Value, z: Value)
    requires a != b && b != c
    ensures var l1 := LevelPut(NewLevel(LFU, 1), a, x);
            && l1.Ok?
            && var l2 := LevelPut(LevelRemove(l1.value, a), b, y);
            && l2.Ok?
            && LevelPut(l2.value, c, z) == Err(EvictedKeyMissing)
  {
    StaleCountSetup(a, b, c, x, y);
    StaleVictimRaises(LevelPut(LevelRemove(LevelPut(NewLevel(LFU, 1), a, x).value, a), b, y).value, c, z);
  }

  /** The level StaleCountBreaksEviction reaches before its last put: full,
      holding neither `a` nor `c`, with `a` first among the least counted. */
  lemma StaleCountSetup(a: Key, b: Key, c: Key, x: Value, y: Value)
    requires a != b && b != c
    ensures var l1 := LevelPut(NewLevel(LFU, 1), a, x);
            && l1.Ok?
            && var l2 := LevelPut(LevelRemove(l1.value, a), b, y);
            && l2.Ok?
            && LevelValid(l2.value) && l2.value.policy == LFU
            && c !in l2.value.cache.vals && |l2.value.cache.keys| >= l2.value.size
            && l2.value.frequency.keys != []
            && l2.value.frequency.keys[FirstMinimumIndex(l2.value.frequency.keys, l2.value.frequency.vals)] !in l2.value.cache.vals
  {
    FirstPutCounted(a, x);
    RemoveThenPutNew(LevelPut(NewLevel(LFU, 1), a, x).value, a, b, c, y);
  }

  /** The first put into a fresh LFU level of size 1 stores the key and
      counts it once. */
  lemma FirstPutCounted(a: Key, x: Value)
    ensures var l1 := LevelPut(NewLevel(LFU, 1), a, x);
            && l1.Ok? && LevelValid(l1.value) && l1.value.policy == LFU && l1.value.size == 1
            && l1.value.cache.vals.Keys == {a} && |l1.value.cache.keys| == 1
            && l1.value.frequency.keys == [a] && l1.value.frequency.vals == map[a := 1]
  {
    PutNewWithRoom(NewLevel(LFU, 1), a, x);
  }

  /** Removing the only key `a` and putting `b` fills the level with `b`
      while the Counter still lists `a` first. */
  lemma RemoveThenPutNew(l1: Level, a: Key, b: Key, c: Key, y: Value)
    requires LevelValid(l1) && l1.policy == LFU && l1.size == 1 && a != b && b != c
    requires l1.cache.vals.Keys == {a} && |l1.cache.keys| == 1
    requires l1.frequency.keys == [a] && l1.frequency.vals == map[a := 1]
    ensures var l2 := LevelPut(LevelRemove(l1, a), b, y);
            && l2.Ok?
            && LevelValid(l2.value) && l2.value.policy == LFU
            && c !in l2.value.cache.vals && |l2.value.cache.keys| >= l2.value.size
            && l2.value.frequency.keys != []
            && l2.value.frequency.keys[FirstMinimumIndex(l2.value.frequency.keys, l2.value.frequency.vals)] !in l2.value.cache.vals
  {
    var r := LevelRemove(l1, a);
    assert r.cache.vals.Keys == {};
    PutNewWithRoom(r, b, y);
    StaleCountFirst(l1.frequency, a, b);
  }

  /** A Counter that counted `a` once and then `b` once lists `a` first and
      min picks it. */
  lemma StaleCountFirst(f: ODict<nat>, a: Key, b: Key)
    requires f.keys == [a] && f.vals == map[a := 1] && a != b
    ensures var g := Assign(f, b, 1);
            g.keys != [] && g.keys[FirstMinimumIndex(g.keys, g.vals)] == a
  {
    var g := Assign(f, b, 1);
    assert g.keys == [a, b];
    TiedCountsPickFirst(g.keys, g.vals);
  }

  /** An LFU put of a new key into a full level raises when the key of least
      count is one the store does not hold. */
  lemma StaleVictimRaises(l: Level, key: Key, value: Value)
    requires LevelValid(l) && l.policy == LFU
    requires key !in l.cache.vals && |l.cache.keys| >= l.size && l.frequency.keys != []
    requires l.frequency.keys[FirstMinimumIndex(l.frequency.keys, l.frequency.vals)] !in l.cache.vals
    ensures LevelPut(l, key, value) == Err(EvictedKeyMissing)
  {
    assert !Synced(l);
  }

  /** A put of a new key into a level with room evicts nothing: the key is
      appended to the store and, for LFU, to the Counter with a count of 1. */
  lemma PutNewWithRoom(m: Level, key: Key, value: Value)
    requires LevelValid(m) && key !in m.cache.vals && |m.cache.keys| < m.size
    ensures LevelPut(m, key, value) ==
              Ok(if m.policy == LRU then m.(cache := Assign(m.cache, key, value))
                 else m.(cache := Assign(m.cache, key, value), frequency := Assign(m.frequency, key, 1)))
  {
  }

  /** A run of puts, in order, of the keys `ks`, all with the same value;
      the first failing put ends the run. */
  function PutAll(l: Level, ks: seq<Key>, value: Value): (r: Result<Level>)
    requires LevelValid(l)
    ensures r.Ok? ==> LevelValid(r.value) && r.value.policy == l.policy && r.value.size == l.size
  {
    if ks == [] then Ok(l)
    else match PutAll(l, ks[..|ks| - 1], value)
      case Err(e) => Err(e)
      case Ok(m) => LevelPut(m, ks[|ks| - 1], value)
  }

  /** Putting at most `size` distinct keys into an empty level evicts
      nothing: the store (and, for LFU, the Counter) lists them in the order
      they were put, and every LFU count is 1. */
  lemma {:induction false} FillsInOrder(l: Level, ks: seq<Key>, value: Value)
    requires LevelValid(l) && l.cache.keys == [] && l.frequency.keys == []
    requires Distinct(ks) && |ks| <= l.size
    ensures PutAll(l, ks, value).Ok?
    ensures var r := PutAll(l, ks, value).value;
            && r.cache.keys == ks
            && (r.policy == LFU ==> r.frequency.keys == ks && forall k :: k in ks ==> r.frequency.vals[k] == 1)
  {
    if ks != [] {
      var front := ks[..|ks| - 1];
      assert Distinct(front);
      FillsInOrder(l, front, value);
      FrontThenLast(ks);
      FillStep(PutAll(l, front, value).value, ks[|ks| - 1], value);
    }
  }

  /** One step of FillsInOrder: a new key put into a level with room goes
      last in the store and, for LFU, last in the Counter with a count of 1. */
  lemma FillStep(m: Level, key: Key, value: Value)
    requires LevelValid(m) && key !in m.cache.keys && |m.cache.keys| < m.size
    requires m.policy == LFU ==> m.frequency.keys == m.cache.keys &&
                                 forall k :: k in m.frequency.keys ==> m.frequency.vals[k] == 1
    ensures LevelPut(m, key, value).Ok?
    ensures var r := LevelPut(m, key, value).value;
            && r.cache.keys == m.cache.keys + [key]
            && (r.policy == LFU ==> r.frequency.keys == m.cache.keys + [key] &&
                                    forall k :: k in r.frequency.keys ==> r.frequency.vals[k] == 1)
  {
    PutNewWithRoom(m, key, value);
  }

  /** When every LFU count ties, a put of a new key into a full level evicts
      the first key in Counter order. */
  lemma LfuTieEvictsFirstCounted(m: Level, key: Key, value: Value)
    requires Synced(m) && m.policy == LFU && m.frequency.keys == m.cache.keys
    requires forall k :: k in m.frequency.keys ==> m.frequency.vals[k] == 1
    requires key !in m.cache.vals && |m.cache.keys| == m.size > 0
    ensures LevelPut(m, key, value).Ok?
    ensures LevelPut(m, key, value).value.cache.keys == m.cache.keys[1..] + [key]
  {
    TiedCountsPickFirst(m.frequency.keys, m.frequency.vals);
    var victim := m.cache.keys[0];
    var cache1 := PopFirst(m.cache);
    assert cache1 == Delete(m.cache, victim);
    var r := m.(cache := Assign(cache1, key, value), frequency := Assign(Delete(m.frequency, victim), key, 1));
    assert LfuPut(m, key, value) == Ok(r);
  }

  /** When every key counts 1, min over the Counter picks its first key. */
  lemma TiedCountsPickFirst(keys: seq<Key>, counts: map<Key, nat>)
    requires keys != [] && forall k :: k in keys ==> k in counts && counts[k] == 1
    ensures FirstMinimumIndex(keys, counts) == 0
  {
    var i := FirstMinimumIndex(keys, counts);
    assert keys[0] in keys && keys[i] in keys;
    assert Count(counts, keys[i]) == 1 == Count(counts, keys[0]);
  }

  /** Putting `size + 1` distinct keys into an empty level evicts exactly
      the first one put: for LRU it is the least recent, for LFU every count
      ties at 1 and the Counter lists the first one put first. */
  lemma OverflowEvictsFirst(l: Level, ks: seq<Key>, value: Value)
    requires LevelValid(l) && l.cache.keys == [] && l.frequency.keys == []
    requires Distinct(ks) && l.size > 0 && |ks| == l.size + 1
    ensures PutAll(l, ks, value).Ok?
    ensures PutAll(l, ks, value).value.cache.keys == ks[1..]
  {
    var front := ks[..|ks| - 1];
    var last := ks[|ks| - 1];
    assert Distinct(front);
    FillsInOrder(l, front, value);
    var m := PutAll(l, front, value).value;
    assert PutAll(l, ks, value) == LevelPut(m, last, value);
    assert last !in front;
    assert |m.cache.keys| == m.size;
    if l.policy == LFU {
      assert Synced(m);
      LfuTieEvictsFirstCounted(m, last, value);
    } else {
      LruPutEvictsHead(m, last, value);
    }
    DropFirstOfSnoc(ks);
  }

  /** A non-empty sequence is its front followed by its last element; kept
      as a lemma so that FillsInOrder's context does not carry the sequence
      axioms it needs. */
  lemma FrontThenLast(ks: seq<Key>)
    requires ks != []
    ensures ks == ks[..|ks| - 1] + [ks[|ks| - 1]]
  {
  }

  /** Dropping the head of a sequence commutes with splitting off its last
      element; kept as a lemma for the same reason. */
  lemma DropFirstOfSnoc(ks: seq<Key>)
    requires |ks| >= 2
    ensures ks[1..] == ks[..|ks| - 1][1..] + [ks[|ks| - 1]]
  {
  }
}
