/** MultilevelCacheSystem as the object the engine updates in place: an
    ordered list of level objects, level 0 first. */
module MultilevelCache {
  import opened CacheTypes
  import opened EvictionPolicies
  import opened CacheLevels
  import Spec = MultilevelSpec

  /** The values of a list of level objects. */
  function StatesOf(ls: seq<CacheLevel>): (r: seq<Level>)
    reads ls
    ensures |r| == |ls| && forall i :: 0 <= i < |ls| ==> r[i] == ls[i].State()
  {
    seq(|ls|, i requires 0 <= i < |ls| reads ls => ls[i].State())
  }

  /** Levels that went through _move_up level by level make up the list
      that MultilevelSpec.MoveUp gives. */
  lemma MoveUpMatches(after: seq<Level>, before: seq<Level>, key: Key, value: Value)
    requires Spec.AllSynced(before) && |after| == |before|
    requires forall j :: 0 <= j < |before| ==>
               after[j] == if j == 0 then before[j] else Spec.Refresh(before[j], key, value)
    ensures after == Spec.MoveUp(before, key, value)
  {
  }

  class MultilevelCacheSystem {
    var levels: seq<CacheLevel>
    /** The level objects the methods may change: every current level. */
    ghost var Repr: set<CacheLevel>

    /** The value of every level, in order. */
    function Levels(): seq<Level>
      reads this, levels
    {
      StatesOf(levels)
    }

    /** Each level is its own object, keeps its invariant and has its LFU
        Counter matching its store, and only level 0 holds entries (every
        operation keeps this, see MultilevelSpec.OnlyFirstLevelHolds). */
    ghost predicate Valid()
      reads this, levels
    {
      (forall j :: 0 <= j < |levels| ==> levels[j] in Repr) &&
      (forall i, j :: 0 <= i < j < |levels| ==> levels[i] != levels[j]) &&
      Spec.AllSynced(Levels()) &&
      Spec.OnlyFirstLevelHolds(Levels())
    }

    /** The invariant holds once the levels are distinct members of Repr
        whose values form a reachable list. */
    lemma ValidWhen(ls: seq<Level>)
      requires forall j :: 0 <= j < |levels| ==> levels[j] in Repr
      requires forall i, j :: 0 <= i < j < |levels| ==> levels[i] != levels[j]
      requires Levels() == ls && Spec.AllSynced(ls) && Spec.OnlyFirstLevelHolds(ls)
      ensures Valid()
    {
    }

    constructor ()
      ensures Valid() && Levels() == []
    {
      levels := [];
      Repr := {};
    }

    /** addCacheLevel: appends a new empty level, or raises for an unknown
        policy name. */
    method AddCacheLevel(size: int, evictionPolicy: string) returns (outcome: Outcome)
      requires Valid()
      modifies this
      ensures Valid()
      ensures outcome == ToOutcome(Spec.AddLevel(old(Levels()), size, evictionPolicy))
      ensures Levels() == match Spec.AddLevel(old(Levels()), size, evictionPolicy)
                          case Ok(ls) => ls
                          case Err(_) => old(Levels())
      ensures outcome.Pass? ==> levels[..|levels| - 1] == old(levels) && fresh(levels[|levels| - 1])
      ensures outcome.Fail? ==> levels == old(levels)
    {
      ghost var before := Levels();
      var policy: Policy;
      if evictionPolicy == "LRU" {
        policy := LRU;
      } else if evictionPolicy == "LFU" {
        policy := LFU;
      } else {
        return Fail(UnsupportedPolicy);
      }
      var level := new CacheLevel(policy, size);
      assert Levels() == before;
      Spec.AddLevelKeepsInvariant(before, size, evictionPolicy);
      levels := levels + [level];
      Repr := Repr + {level};
      assert Levels() == before + [NewLevel(policy, size)];
      outcome := Pass;
    }

    /** removeCacheLevel: removes the level at an index in range, or raises. */
    method RemoveCacheLevel(level: int) returns (outcome: Outcome)
      requires Valid()
      modifies this
      ensures Valid()
      ensures outcome.Pass? ==> 0 <= level < |old(levels)| && Repr == old(Repr) - {old(levels)[level]}
      ensures outcome.Fail? ==> Repr == old(Repr)
      ensures outcome == ToOutcome(Spec.RemoveLevel(old(Levels()), level))
      ensures Levels() == match Spec.RemoveLevel(old(Levels()), level)
                          case Ok(ls) => ls
                          case Err(_) => old(Levels())
    {
      ghost var before := Levels();
      Spec.RemoveLevelKeepsInvariant(before, level);
      if 0 <= level < |levels| {
        ghost var after := Spec.RemoveLevel(before, level).value;
        Repr := Repr - {levels[level]};
        levels := levels[..level] + levels[level + 1..];
        assert Levels() == after;
        ValidWhen(after);
        outcome := Pass;
      } else {
        outcome := Fail(LevelOutOfRange);
      }
    }

    /** get: asks the levels in order and stops at the first hit, which then
        runs _move_up with the value found. */
    method Get(key: Key) returns (value: Option<Value>)
      requires Valid()
      modifies Repr
      ensures Valid()
      ensures Spec.SystemLookup(value, Levels()) == Spec.SystemGet(old(Levels()), key)
    {
      ghost var start := Levels();
      var i;
      ghost var mid;
      i, value, mid := Probe(key, start);
      if value.Some? {
        Spec.SystemGetAt(start, key, i);
        MoveUpAll(mid, key, value.value);
      } else {
        assert Levels() == start;
      }
    }

    /** The loop of get: asks each level in turn until one hits. Only the
        level that hit changes (an LFU level counts the hit); `mid` is the
        list of values afterwards. */
    method Probe(key: Key, ghost start: seq<Level>) returns (i: nat, value: Option<Value>, ghost mid: seq<Level>)
      requires |levels| == |start|
      requires forall j :: 0 <= j < |levels| ==> levels[j] in Repr && levels[j].State() == start[j]
      requires forall j :: 0 <= j < |start| ==> LevelValid(start[j])
      requires forall i, j :: 0 <= i < j < |levels| ==> levels[i] != levels[j]
      modifies Repr
      ensures value.None? ==> Spec.FirstHolder(start, key).None? && mid == start
      ensures value.Some? ==> && Spec.FirstHolder(start, key) == Some(i)
                              && value == LevelGet(start[i], key).value
                              && mid == start[i := LevelGet(start[i], key).level]
      ensures |mid| == |levels| && forall j :: 0 <= j < |levels| ==> levels[j].State() == mid[j]
    {
      i := 0;
      mid := start;
      while i < |levels|
        invariant 0 <= i <= |levels|
        invariant forall j :: 0 <= j < |levels| ==> levels[j].State() == start[j]
        invariant forall j :: 0 <= j < i ==> key !in start[j].cache.vals
      {
        value := levels[i].Get(key);
        if value.Some? {
          mid := start[i := levels[i].State()];
          Spec.FirstHolderAt(start, key, i);
          return;
        }
        i := i + 1;
      }
      value := None;
      Spec.FirstHolderNone(start, key);
    }

    /** put: writes level 0, then runs _move_up; raises when there is no
        level or level 0 raises. */
    method Put(key: Key, value: Value) returns (outcome: Outcome)
      requires Valid()
      modifies Repr
      ensures Valid()
      ensures outcome == ToOutcome(Spec.SystemPut(old(Levels()), key, value))
      ensures Levels() == match Spec.SystemPut(old(Levels()), key, value)
                          case Ok(ls) => ls
                          case Err(_) => old(Levels())
    {
      ghost var start := Levels();
      if |levels| == 0 {
        return Fail(NoLevels);
      }
      outcome := levels[0].Put(key, value);
      if outcome.Fail? {
        assert Levels() == start;
        return;
      }
      ghost var mid := start[0 := levels[0].State()];
      assert forall j :: 0 <= j < |levels| ==> levels[j].State() == mid[j];
      Spec.SystemPutAt(start, key, value);
      MoveUpAll(mid, key, value);
    }

    /** _move_up over this system's levels, whose values are `mid`; the
        invariant holds again afterwards. */
    method MoveUpAll(ghost mid: seq<Level>, key: Key, value: Value)
      requires Spec.AllSynced(mid) && Spec.OnlyFirstLevelHolds(Spec.MoveUp(mid, key, value))
      requires |levels| == |mid|
      requires forall j :: 0 <= j < |levels| ==> levels[j] in Repr && levels[j].State() == mid[j]
      requires forall i, j :: 0 <= i < j < |levels| ==> levels[i] != levels[j]
      modifies Repr
      ensures Valid() && Levels() == Spec.MoveUp(mid, key, value)
    {
      MoveUp(levels, key, value, mid, Repr);
      ValidWhen(Spec.MoveUp(mid, key, value));
    }

    /** _move_up, on the list of levels `ls` whose values are `before`:
        every level from 1 on that holds the key gets it, removes it and puts
        the value back, all within that same level. */
    static method MoveUp(ls: seq<CacheLevel>, key: Key, value: Value,
                         ghost before: seq<Level>, ghost footprint: set<CacheLevel>)
      requires |ls| == |before| && Spec.AllSynced(before)
      requires forall j :: 0 <= j < |ls| ==> ls[j] in footprint && ls[j].State() == before[j]
      requires forall i, j :: 0 <= i < j < |ls| ==> ls[i] != ls[j]
      modifies footprint
      ensures StatesOf(ls) == Spec.MoveUp(before, key, value)
    {
      var i := 1;
      while i < |ls|
        invariant 1 <= i && (i <= |ls| || i == 1)
        invariant forall j :: 0 <= j < |ls| ==>
                    ls[j].State() == if 1 <= j < i then Spec.Refresh(before[j], key, value) else before[j]
      {
        RefreshLevel(ls[i], key, value);
        i := i + 1;
      }
      MoveUpMatches(StatesOf(ls), before, key, value);
    }

    /** One iteration of _move_up's loop, on one level. */
    static method RefreshLevel(level: CacheLevel, key: Key, value: Value)
      requires Synced(level.State())
      modifies level
      ensures level.State() == Spec.Refresh(old(level.State()), key, value)
    {
      var found := level.Get(key);
      if found.Some? {
        Spec.RefreshSteps(old(level.State()), key, value);
        level.Remove(key);
        var outcome := level.Put(key, value);
      }
    }
  }
}
