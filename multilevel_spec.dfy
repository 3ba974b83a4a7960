/** The multilevel cache system (MultilevelCacheSystem) as a value: a list
    of levels, index 0 first, and each operation a function from the old
    list to the result and the new list. */
module MultilevelSpec {
  import opened CacheTypes
  import opened OrderedDicts
  import opened EvictionPolicies

  /** Every level keeps its invariant and its LFU Counter matches its store:
      true of every list the system's operations produce. */
  predicate AllSynced(ls: seq<Level>) {
    forall i :: 0 <= i < |ls| ==> Synced(ls[i])
  }

  /** Index of the first level holding the key, scanning from level 0. */
  function FirstHolder(ls: seq<Level>, key: Key): (r: Option<nat>)
    ensures r.Some? ==> r.value < |ls| && key in ls[r.value].cache.vals
    ensures forall j :: 0 <= j < |ls| && (r.None? || j < r.value) ==> key !in ls[j].cache.vals
  {
    if ls == [] then None
    else if key in ls[0].cache.vals then Some(0)
    else match FirstHolder(ls[1..], key)
      case None => None
      case Some(i) => Some(i + 1)
  }

  /** The first holder is the level that holds the key after levels that
      do not. */
  lemma FirstHolderAt(ls: seq<Level>, key: Key, i: nat)
    requires i < |ls| && key in ls[i].cache.vals
    requires forall j :: 0 <= j < i ==> key !in ls[j].cache.vals
    ensures FirstHolder(ls, key) == Some(i)
  {
    var first := FirstHolder(ls, key);
    assert first.Some? && first.value >= i;
  }

  /** No level holds the key: there is no first holder. */
  lemma FirstHolderNone(ls: seq<Level>, key: Key)
    requires forall j :: 0 <= j < |ls| ==> key !in ls[j].cache.vals
    ensures FirstHolder(ls, key).None?
  {
  }

  /** One step of _move_up on a level, by its effect: when the level holds
      the key, the key goes last in the store and maps to the value, nothing
      is evicted, and for LFU the Counter keeps its order (the tie-break
      order) with the key's count reset to 1. RefreshSteps shows that this is
      what the get, remove and put of the step do. */
  function Refresh(l: Level, key: Key, value: Value): (r: Level)
    ensures r.policy == l.policy && r.size == l.size
    ensures key !in l.cache.vals ==> r == l
    ensures key in l.cache.vals ==> && r.cache.vals == l.cache.vals[key := value]
                                    && r.cache.keys != [] && r.cache.keys[|r.cache.keys| - 1] == key
    ensures l.cache.Valid() ==> |r.cache.keys| == |l.cache.keys|
    ensures l.policy == LFU && key in l.cache.vals ==>
              r.frequency.keys == l.frequency.keys && Count(r.frequency.vals, key) == 1
  {
    if key !in l.cache.vals then l
    else
      var cache := ODict(Without(l.cache.keys, key) + [key], l.cache.vals[key := value]);
      if l.policy == LRU then l.(cache := cache)
      else l.(cache := cache, frequency := ODict(l.frequency.keys, l.frequency.vals[key := 1]))
  }

  /** On a level that holds the key, the get, remove and put of a _move_up
      step all succeed and leave the level as Refresh describes. */
  lemma RefreshSteps(l: Level, key: Key, value: Value)
    requires Synced(l) && key in l.cache.vals
    ensures var removed := LevelRemove(LevelGet(l, key).level, key);
            LevelPut(removed, key, value) == Ok(Refresh(l, key, value))
  {
    if l.policy == LRU {
      RefreshLru(l, key, value);
    } else {
      RefreshLfu(l, key, value);
    }
  }

  /** _move_up: Refresh on every level from index 1 on; level 0 is left alone. */
  function MoveUp(ls: seq<Level>, key: Key, value: Value): (r: seq<Level>)
    requires AllSynced(ls)
    ensures |r| == |ls| && AllSynced(r)
  {
    RefreshAllKeepSynced(ls, key, value);
    seq(|ls|, j requires 0 <= j < |ls| => if j == 0 then ls[0] else Refresh(ls[j], key, value))
  }

  /** What the system's get returns, with the levels afterwards. */
  datatype SystemLookup = SystemLookup(value: Option<Value>, levels: seq<Level>)

  /** get: the first level (from 0) whose get hits supplies the value, and
      _move_up then runs with it; no hit anywhere returns None. */
  function SystemGet(ls: seq<Level>, key: Key): (r: SystemLookup)
    requires AllSynced(ls)
    ensures |r.levels| == |ls| && AllSynced(r.levels)
  {
    match FirstHolder(ls, key)
    case None => SystemLookup(None, ls)
    case Some(i) =>
      var hit := LevelGet(ls[i], key);
      SystemLookup(hit.value, MoveUp(ls[i := hit.level], key, hit.value.value))
  }

  /** put: write into level 0 (raising when there is none, or when level 0
      raises), then _move_up. */
  function SystemPut(ls: seq<Level>, key: Key, value: Value): (r: Result<seq<Level>>)
    requires AllSynced(ls)
    ensures r.Ok? ==> |r.value| == |ls| && AllSynced(r.value)
  {
    if ls == [] then Err(NoLevels)
    else match LevelPut(ls[0], key, value)
      case Err(e) => Err(e)
      case Ok(first) => Ok(MoveUp(ls[0 := first], key, value))
  }

  /** addCacheLevel: 'LRU' and 'LFU' append one empty level at the end; any
      other name raises and leaves the list as it was. */
  function AddLevel(ls: seq<Level>, size: int, policyName: string): (r: Result<seq<Level>>)
    ensures r.Ok? <==> policyName == "LRU" || policyName == "LFU"
    ensures r.Err? ==> r.error == UnsupportedPolicy
    ensures r.Ok? ==> |r.value| == |ls| + 1 && r.value[..|ls|] == ls
    ensures r.Ok? ==> var added := r.value[|ls|];
                      && added.size == size && added.cache.keys == [] && added.frequency.keys == []
                      && (added.policy == LRU <==> policyName == "LRU")
  {
    if policyName == "LRU" then Ok(ls + [NewLevel(LRU, size)])
    else if policyName == "LFU" then Ok(ls + [NewLevel(LFU, size)])
    else Err(UnsupportedPolicy)
  }

  /** removeCacheLevel: an index in range removes that level and shifts the
      later ones down by one; any other index raises and changes nothing. */
  function RemoveLevel(ls: seq<Level>, index: int): (r: Result<seq<Level>>)
    ensures r.Ok? <==> 0 <= index < |ls|
    ensures r.Err? ==> r.error == LevelOutOfRange
    ensures r.Ok? ==> |r.value| == |ls| - 1
    ensures r.Ok? ==> forall j :: 0 <= j < |r.value| ==> r.value[j] == ls[if j < index then j else j + 1]
  {
    if 0 <= index < |ls| then Ok(ls[..index] + ls[index + 1..]) else Err(LevelOutOfRange)
  }

  // ---------------------------------------------------------------- properties

  /** RefreshSteps on an LRU level: the get moves the key last, the remove
      deletes it, and the put appends it again with the value. */
  lemma RefreshLru(l: Level, key: Key, value: Value)
    requires Synced(l) && l.policy == LRU && key in l.cache.vals
    ensures LevelPut(LevelRemove(LevelGet(l, key).level, key), key, value) == Ok(Refresh(l, key, value))
  {
    var removed := l.(cache := Delete(l.cache, key));
    MoveToEndThenDelete(l.cache, key);
    assert LevelRemove(LevelGet(l, key).level, key) == removed;
    PutNewWithRoom(removed, key, value);
    DeleteThenAssign(l.cache, key, value);
  }

  /** RefreshSteps on an LFU level: LfuSteps, with the count reset to 1 in
      place of the one the get added. */
  lemma RefreshLfu(l: Level, key: Key, value: Value)
    requires Synced(l) && l.policy == LFU && key in l.cache.vals
    ensures LevelPut(LevelRemove(LevelGet(l, key).level, key), key, value) == Ok(Refresh(l, key, value))
  {
    var cache := ODict(Without(l.cache.keys, key) + [key], l.cache.vals[key := value]);
    var frequency := ODict(l.frequency.keys, l.frequency.vals[key := 1]);
    assert Refresh(l, key, value) == l.(cache := cache, frequency := frequency);
    LfuSteps(l, key, value);
    DeleteThenAssign(l.cache, key, value);
    IncrementThenReset(l.frequency, key);
  }

  /** The get, remove and put of a _move_up step on an LFU level: the get
      counts the key, the remove takes it out of the store only, and the put
      finds room for it, writing the value and resetting the count to 1. */
  lemma LfuSteps(l: Level, key: Key, value: Value)
    requires Synced(l) && l.policy == LFU && key in l.cache.vals
    ensures LevelPut(LevelRemove(LevelGet(l, key).level, key), key, value) ==
            Ok(l.(cache := Assign(Delete(l.cache, key), key, value),
                  frequency := Assign(Increment(l.frequency, key), key, 1)))
  {
    var removed := l.(cache := Delete(l.cache, key), frequency := Increment(l.frequency, key));
    assert LevelRemove(LevelGet(l, key).level, key) == removed;
    PutNewWithRoom(removed, key, value);
  }

  /** Refresh puts the key back into the store, so an LFU level whose
      Counter matched its store before matches it again. */
  lemma RefreshKeepsSynced(l: Level, key: Key, value: Value)
    requires Synced(l)
    ensures Synced(Refresh(l, key, value))
  {
    if key in l.cache.vals {
      RefreshSteps(l, key, value);
    }
  }

  lemma RefreshAllKeepSynced(ls: seq<Level>, key: Key, value: Value)
    requires AllSynced(ls)
    ensures forall j :: 0 <= j < |ls| ==> Synced(Refresh(ls[j], key, value))
  {
    forall j | 0 <= j < |ls| {
      RefreshKeepsSynced(ls[j], key, value);
    }
  }

  /** _move_up leaves level 0 alone, never adds the key to a level that did
      not hold it and never evicts: every level keeps its keys, and each
      level from 1 on that held the key now maps it to the value. */
  lemma MoveUpInPlace(ls: seq<Level>, key: Key, value: Value, j: nat)
    requires AllSynced(ls) && j < |ls|
    ensures var r := MoveUp(ls, key, value);
            && (forall x :: x in r[j].cache.vals <==> x in ls[j].cache.vals)
            && (j == 0 || key !in ls[j].cache.vals ==> r[j] == ls[j])
            && (j > 0 && key in ls[j].cache.vals ==> r[j].cache.vals == ls[j].cache.vals[key := value])
  {
    if j > 0 && key in ls[j].cache.vals {
      RefreshKeepsSynced(ls[j], key, value);
    }
  }

  /** A level's get keeps its Counter matching its store, so the list of
      levels stays synced once the hit level is replaced. */
  lemma HitKeepsSynced(ls: seq<Level>, key: Key, i: nat)
    requires AllSynced(ls) && i < |ls|
    ensures AllSynced(ls[i := LevelGet(ls[i], key).level])
  {
  }

  /** put when level 0 takes the write: _move_up runs on the list with the
      new level 0, every level stays synced and only level 0 holds entries. */
  lemma SystemPutAt(ls: seq<Level>, key: Key, value: Value)
    requires AllSynced(ls) && OnlyFirstLevelHolds(ls)
    requires ls != [] && LevelPut(ls[0], key, value).Ok?
    ensures var mid := ls[0 := LevelPut(ls[0], key, value).value];
            && AllSynced(mid)
            && SystemPut(ls, key, value) == Ok(MoveUp(mid, key, value))
            && OnlyFirstLevelHolds(MoveUp(mid, key, value))
  {
    SystemPutKeepsUpperEmpty(ls, key, value);
  }

  /** get when level `i` is the first holder: that level counts the hit,
      _move_up runs with the value found there, and only level 0 holds
      entries afterwards. */
  lemma SystemGetAt(ls: seq<Level>, key: Key, i: nat)
    requires AllSynced(ls) && OnlyFirstLevelHolds(ls) && FirstHolder(ls, key) == Some(i)
    ensures var hit := LevelGet(ls[i], key);
            var mid := ls[i := hit.level];
            && hit.value.Some? && AllSynced(mid)
            && SystemGet(ls, key) == SystemLookup(hit.value, MoveUp(mid, key, hit.value.value))
            && OnlyFirstLevelHolds(MoveUp(mid, key, hit.value.value))
  {
    HitKeepsSynced(ls, key, i);
    SystemGetKeepsUpperEmpty(ls, key);
  }

  /** get with no level holding the key returns None and changes nothing. */
  lemma SystemGetMiss(ls: seq<Level>, key: Key)
    requires AllSynced(ls)
    requires forall j :: 0 <= j < |ls| ==> key !in ls[j].cache.vals
    ensures SystemGet(ls, key) == SystemLookup(None, ls)
  {
  }

  /** get when level `i` is the first holding the key: it returns that
      level's value; a level `j` before `i` is unchanged (it does not gain
      the key); no level gains or loses a key; a level from 1 on that holds
      the key maps it to the returned value. */
  lemma SystemGetHit(ls: seq<Level>, key: Key, i: nat, j: nat)
    requires AllSynced(ls) && i < |ls| && key in ls[i].cache.vals
    requires forall m :: 0 <= m < i ==> key !in ls[m].cache.vals
    requires j < |ls|
    ensures var r := SystemGet(ls, key);
            && r.value == Some(ls[i].cache.vals[key])
            && (j < i ==> r.levels[j] == ls[j])
            && (forall x :: x in r.levels[j].cache.vals <==> x in ls[j].cache.vals)
            && (j >= 1 && key in ls[j].cache.vals ==> r.levels[j].cache.vals[key] == ls[i].cache.vals[key])
  {
    var hit := LevelGet(ls[i], key);
    var mid := ls[i := hit.level];
    assert FirstHolder(ls, key) == Some(i);
    MoveUpInPlace(mid, key, hit.value.value, j);
  }

  /** put fails exactly when there is no level or level 0 has a size that is
      not positive; otherwise level 0 maps the key to the value, and every
      other level keeps its keys and maps the key to the value if it held it. */
  lemma SystemPutWrites(ls: seq<Level>, key: Key, value: Value)
    requires AllSynced(ls)
    ensures var r := SystemPut(ls, key, value);
            && (r.Ok? <==> |ls| > 0 && ls[0].size > 0)
            && (ls == [] ==> r == Err(NoLevels))
            && (r.Ok? ==> key in r.value[0].cache.vals && r.value[0].cache.vals[key] == value)
            && (r.Ok? ==> forall j :: 1 <= j < |ls| ==>
                  && (forall x :: x in r.value[j].cache.vals <==> x in ls[j].cache.vals)
                  && (key in ls[j].cache.vals ==> r.value[j].cache.vals[key] == value)
                  && (key !in ls[j].cache.vals ==> r.value[j] == ls[j]))
  {
    if ls != [] && ls[0].size > 0 {
      var first := LevelPut(ls[0], key, value).value;
      var mid := ls[0 := first];
      forall j | 0 <= j < |ls|
        ensures var r := MoveUp(mid, key, value);
                && (forall x :: x in r[j].cache.vals <==> x in mid[j].cache.vals)
                && (j == 0 || key !in mid[j].cache.vals ==> r[j] == mid[j])
                && (j > 0 && key in mid[j].cache.vals ==> r[j].cache.vals == mid[j].cache.vals[key := value])
      {
        MoveUpInPlace(mid, key, value, j);
      }
    }
  }

  /** Removing level `i` and then adding a level: the levels before `i`
      stay, those after it move down by one, and the new level is last. */
  lemma RemoveThenAdd(ls: seq<Level>, i: int, size: int, policyName: string)
    requires 0 <= i < |ls| && (policyName == "LRU" || policyName == "LFU")
    ensures RemoveLevel(ls, i).Ok?
    ensures AddLevel(RemoveLevel(ls, i).value, size, policyName).Ok?
    ensures var r := AddLevel(RemoveLevel(ls, i).value, size, policyName).value;
            && |r| == |ls|
            && (forall j :: 0 <= j < i ==> r[j] == ls[j])
            && (forall j :: i <= j < |ls| - 1 ==> r[j] == ls[j + 1])
            && r[|ls| - 1].cache.keys == [] && r[|ls| - 1].size == size
  {
    var removed := RemoveLevel(ls, i).value;
    var r := AddLevel(removed, size, policyName).value;
    assert forall j :: 0 <= j < |removed| ==> r[j] == removed[j];
  }

  // ---------------------------------------------------------------- reachable states

  /** Only level 0 holds entries. */
  predicate OnlyFirstLevelHolds(ls: seq<Level>) {
    forall j :: 1 <= j < |ls| ==> ls[j].cache.keys == []
  }

  /** No level after level 0 holds the key. */
  lemma UpperLevelsLackKey(ls: seq<Level>, key: Key)
    requires AllSynced(ls) && OnlyFirstLevelHolds(ls)
    ensures forall j :: 1 <= j < |ls| ==> key !in ls[j].cache.vals
  {
    forall j | 1 <= j < |ls|
      ensures key !in ls[j].cache.vals
    {
      assert ls[j].cache.Valid();
    }
  }

  /** addCacheLevel keeps every level synced and entries out of the levels
      after level 0: the new level is empty. */
  lemma AddLevelKeepsInvariant(ls: seq<Level>, size: int, policyName: string)
    requires AllSynced(ls) && OnlyFirstLevelHolds(ls)
    ensures AddLevel(ls, size, policyName).Ok? ==>
              AllSynced(AddLevel(ls, size, policyName).value) && OnlyFirstLevelHolds(AddLevel(ls, size, policyName).value)
  {
    var r := AddLevel(ls, size, policyName);
    if r.Ok? {
      assert forall j :: 0 <= j < |ls| ==> r.value[j] == ls[j];
    }
  }

  /** removeCacheLevel keeps every level synced and entries out of the
      levels after level 0: levels only move to lower indices. */
  lemma RemoveLevelKeepsInvariant(ls: seq<Level>, index: int)
    requires AllSynced(ls) && OnlyFirstLevelHolds(ls)
    ensures RemoveLevel(ls, index).Ok? ==>
              AllSynced(RemoveLevel(ls, index).value) && OnlyFirstLevelHolds(RemoveLevel(ls, index).value)
  {
  }

  /** get keeps entries out of the levels after level 0. */
  lemma SystemGetKeepsUpperEmpty(ls: seq<Level>, key: Key)
    requires AllSynced(ls) && OnlyFirstLevelHolds(ls)
    ensures OnlyFirstLevelHolds(SystemGet(ls, key).levels)
  {
    UpperLevelsLackKey(ls, key);
    if FirstHolder(ls, key).Some? {
      forall j | 0 <= j < |ls| {
        SystemGetHit(ls, key, FirstHolder(ls, key).value, j);
      }
    }
  }

  /** put keeps entries out of the levels after level 0: it writes level 0
      and _move_up finds the key in no other level. */
  lemma SystemPutKeepsUpperEmpty(ls: seq<Level>, key: Key, value: Value)
    requires AllSynced(ls) && OnlyFirstLevelHolds(ls)
    ensures SystemPut(ls, key, value).Ok? ==> OnlyFirstLevelHolds(SystemPut(ls, key, value).value)
  {
    UpperLevelsLackKey(ls, key);
    SystemPutWrites(ls, key, value);
  }

  /** So in every reachable state, get finds a key in level 0 or nowhere. */
  lemma GetHitsOnlyFirstLevel(ls: seq<Level>, key: Key)
    requires OnlyFirstLevelHolds(ls) && AllSynced(ls)
    ensures FirstHolder(ls, key) == None || FirstHolder(ls, key) == Some(0)
  {
    if FirstHolder(ls, key).Some? {
      var i := FirstHolder(ls, key).value;
      assert ls[i].cache.Valid();
    }
  }
}
