/** A cache level as the object the engine updates in place: the store and
    the LFU Counter are fields that get, put and remove reassign. */
module CacheLevels {
  import opened CacheTypes
  import opened OrderedDicts
  import opened EvictionPolicies

  class CacheLevel {
    const policy: Policy
    const size: int
    var cache: ODict<Value>
    var frequency: ODict<nat>

    /** The level's current value. */
    function State(): Level
      reads this
    {
      Level(policy, size, cache, frequency)
    }

    ghost predicate Valid()
      reads this
    {
      LevelValid(State())
    }

    constructor (policy: Policy, size: int)
      ensures Valid() && State() == NewLevel(policy, size)
    {
      this.policy := policy;
      this.size := size;
      cache := Empty();
      frequency := Empty();
    }

    /** get: the stored value or None, with the policy's bookkeeping on a hit. */
    method Get(key: Key) returns (value: Option<Value>)
      requires Valid()
      modifies this
      ensures Valid()
      ensures Lookup(value, State()) == LevelGet(old(State()), key)
    {
      if key in cache.vals {
        if policy == LRU {
          cache := MoveToEnd(cache, key);
        } else {
          frequency := Increment(frequency, key);
        }
        value := Some(cache.vals[key]);
      } else {
        value := None;
      }
    }

    /** put, dispatched on the policy; on failure the exception is raised
        before anything changes. */
    method Put(key: Key, value: Value) returns (outcome: Outcome)
      requires Valid()
      modifies this
      ensures Valid()
      ensures outcome == ToOutcome(LevelPut(old(State()), key, value))
      ensures State() == match LevelPut(old(State()), key, value)
                         case Ok(l) => l
                         case Err(_) => old(State())
    {
      if policy == LRU {
        outcome := PutLru(key, value);
      } else {
        outcome := PutLfu(key, value);
      }
    }

    /** LRUPolicy.put. */
    method PutLru(key: Key, value: Value) returns (outcome: Outcome)
      requires Valid() && policy == LRU
      modifies this
      ensures outcome == ToOutcome(LruPut(old(State()), key, value))
      ensures State() == match LruPut(old(State()), key, value)
                         case Ok(l) => l
                         case Err(_) => old(State())
    {
      if key in cache.vals {
        cache := MoveToEnd(cache, key);
      } else if |cache.keys| >= size {
        if cache.keys == [] {
          return Fail(EmptyCachePop);
        }
        cache := PopFirst(cache);
      }
      cache := Assign(cache, key, value);
      outcome := Pass;
    }

    /** LFUPolicy.put. */
    method PutLfu(key: Key, value: Value) returns (outcome: Outcome)
      requires Valid() && policy == LFU
      modifies this
      ensures outcome == ToOutcome(LfuPut(old(State()), key, value))
      ensures State() == match LfuPut(old(State()), key, value)
                         case Ok(l) => l
                         case Err(_) => old(State())
    {
      if key in cache.vals {
        cache := Assign(cache, key, value);
        frequency := Increment(frequency, key);
      } else if |cache.keys| >= size {
        if frequency.keys == [] {
          return Fail(EmptyCounterMin);
        }
        var victim := frequency.keys[FirstMinimumIndex(frequency.keys, frequency.vals)];
        if victim !in cache.vals {
          return Fail(EvictedKeyMissing);
        }
        cache := Delete(cache, victim);
        frequency := Delete(frequency, victim);
      }
      cache := Assign(cache, key, value);
      frequency := Assign(frequency, key, 1);
      outcome := Pass;
    }

    /** remove: deletes the key from the store only. */
    method Remove(key: Key)
      requires Valid()
      modifies this
      ensures Valid()
      ensures State() == LevelRemove(old(State()), key)
    {
      if key in cache.vals {
        cache := Delete(cache, key);
      }
    }
  }
}
