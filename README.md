# Multilevel cache engine, modelled in Dafny

This project models the engine of a small Python multilevel cache. The engine
appears twice in the repository: `code.py` and `code1.0.py` hold the same
classes, and `code1.0.py` adds progress prints. The model covers these parts:

- **EvictionPolicy / LRUPolicy / LFUPolicy**: one cache level with a size
  bound.
  - The store `cache` is an insertion-ordered dictionary (`OrderedDict`).
  - An LFU level also keeps a `Counter` of use counts. The Counter has an
    insertion order of its own, and that order breaks ties when choosing
    what to evict.
- **MultilevelCacheSystem**: an ordered list of levels, with level 0 first.
  - `addCacheLevel` appends a level and `removeCacheLevel` pops one.
  - `get` asks each level in turn and stops at the first hit.
  - `put` writes level 0.
  - Both `get` and `put` then run `_move_up`. On every level from index 1
    on that holds the key, it runs get, remove and put of the key on that
    same level.

The model has two layers.

- **Values and functions** (modules `OrderedDicts`, `EvictionPolicies` and
  `MultilevelSpec`):
  - `ODict` models Python's ordered dictionary as a sequence of distinct
    keys plus a map.
  - `Level` is one level as a value.
  - Every operation is a function from the old state to the result and the
    new state.
  - The properties are proved as lemmas about these functions.
- **Objects** (modules `CacheLevels` and `MultilevelCache`):
  - `CacheLevel` and `MultilevelCacheSystem` are classes whose methods
    update their fields in place, as the Python objects do.
  - Each method ensures that its new state and result are the function
    layer's answer for its old state.
  - `get`'s scan and `_move_up`'s pass over the levels are loops with
    invariants.

Python exceptions are error values, and a failing operation leaves the state
as it was. Each Python raise point has one error value:

| error value | Python raise point |
|---|---|
| `EmptyCachePop` | `popitem` on an empty store |
| `EmptyCounterMin` | `min` over an empty Counter |
| `EvictedKeyMissing` | `pop` of an evicted key that the store lacks |
| `UnsupportedPolicy` | an unknown policy name |
| `LevelOutOfRange` | an index out of range |
| `NoLevels` | `levels[0]` on an empty list |

Keys and values are strings, as the source annotates them.

Two behaviours of the code are worth knowing.

- **`_move_up` never moves anything between levels.** Each level that holds
  the key just refreshes it in place.
  - For LFU, `remove` deletes the key from the store only. So the put that
    follows leaves the key's position in the Counter unchanged and resets
    its count to 1 (`Refresh`).
  - Nothing ever adds a key to a level other than level 0. `_move_up` only
    puts a key back into a level that held it a moment before, and added
    levels start empty. Hence in every reachable state only level 0 holds
    entries (`OnlyFirstLevelHolds`). It is proved to be preserved by every
    operation and is part of the system's invariant. In reachable states,
    therefore, `get` hits level 0 or nothing, and `_move_up` changes no
    level.
- **A standalone `remove` on an LFU level leaves the key's count behind.**
  A later eviction can then choose that stale key and raise
  (`StaleCountBreaksEviction`). `_move_up` always puts the key back right
  after removing it, so this does not happen inside the system.

The code does not check a level's size. A level of size zero or less
stores nothing: its first put tries to evict from an empty store and raises.
The model has this as `Capacity` and as the error paths of `LevelPut`.

## Model

Functions and lemmas of the value layer cite `code.py`. Class methods cite
`code1.0.py`, where the same code sits a few lines lower after the added
prints. Line numbers up to 85 are the same in both files.

| member | source | states |
|---|---|---|
| `OrderedDicts.Assign` | code.py:43 | `d[k] = v`: the key maps to the value and every other entry is kept; the dictionary stays well-formed and grows by one exactly for a new key |
| `OrderedDicts.AssignKeepsOrder` | code.py:43 | where `d[k] = v` leaves the keys: a stored key keeps its position, a new key goes after every stored one, stored pairs keep their relative order |
| `OrderedDicts.MoveToEnd` | code.py:31 | `move_to_end`: same entries, key now last |
| `OrderedDicts.Delete` | code.py:20 | `del d[k]` / `pop(k)`: the key's entry is gone, the rest stays well-formed |
| `OrderedDicts.PopFirst` | code.py:42 | `popitem(last=False)`: removes exactly the first key; the order of the rest is kept |
| `OrderedDicts.WithoutKeepsOrder` | code.py:31 | cutting a key out of the order keeps the relative order of every other pair |
| `OrderedDicts.AppendKeepsOrder` | code.py:43 | appending a new key keeps the old order and puts every old key before it |
| `OrderedDicts.DeleteThenAssign` | code.py:113-114 | delete then assign moves the key last with the new value |
| `OrderedDicts.MoveToEndThenDelete` | code.py:112-113 | deleting a key just moved last equals deleting it where it stood |
| `OrderedDicts.AssignTwice` | code.py:61-68 | two writes to a present key: the second wins and the key stays in place |
| `EvictionPolicies.NewLevel` | code.py:7-9 | a new level is empty (store and Counter) and synced |
| `EvictionPolicies.Increment` | code.py:54 | `counter[k] += 1` raises the key's count by one (missing keys count 0) |
| `EvictionPolicies.IncrementThenReset` | code.py:62-69 | increment then `counter[k] = 1` leaves the count 1 and the Counter order as it was |
| `EvictionPolicies.FirstMinimumIndex` | code.py:65 | `min(counter, key=...)`: a key of least count, and strictly smaller than every key before it, so the first such key |
| `EvictionPolicies.LruGet` | code.py:27-33 | an LRU hit returns the stored value and moves the key last with the same entries; a miss returns None and changes nothing (order of the others: `LruGetMovesHitToTail`) |
| `EvictionPolicies.LfuGet` | code.py:51-56 | an LFU hit returns the stored value, leaves the store alone and adds one to the key's count; a miss changes nothing (Counter order: `LfuGetCountsHit`) |
| `EvictionPolicies.LevelGet` | code.py:27-56 | a hit returns the stored value, a miss returns None and changes nothing; stored values, size and validity are kept |
| `EvictionPolicies.LruPut` | code.py:35-43 | LRUPolicy.put fails exactly when a new key meets a full and empty store (`popitem` on an empty store, so size ≤ 0); on success the key maps to the value and the store stays well-formed (capacity and positions: `LevelPut`, `LruPutExistingKey`, `LruPutEvictsHead`, `LruPutAppends`) |
| `EvictionPolicies.LfuPut` | code.py:58-69 | LFUPolicy.put fails only for a new key at capacity, with `EmptyCounterMin` for an empty Counter and `EvictedKeyMissing` otherwise; on success the key maps to the value with a count of exactly 1 (victim choice: `LfuPutEvictsLeastFrequent`) |
| `EvictionPolicies.LfuPutSynced` | code.py:58-69 | on a synced LFU level, put fails exactly when the size is not positive and keeps the level synced and within capacity |
| `EvictionPolicies.LevelPut` | code.py:35-69 | on success the key maps to the value (LFU count exactly 1) and the level stays within capacity; a put needing no eviction never fails; a synced level fails exactly when its size is not positive |
| `EvictionPolicies.LevelRemove` | code.py:18-20 | deletes the key from the store only; the Counter is untouched; an absent key changes nothing |
| `EvictionPolicies.LfuPutEvictsLeastFrequent` | code.py:63-69 | a new key in a full synced LFU level evicts the first key of least count from both tables and keeps every other entry and count; both key orders are the old order without the victim, with the new key last |
| `EvictionPolicies.LruGetMovesHitToTail` | code.py:27-33 | an LRU hit moves the key last, keeps the key set and the relative order of the others |
| `EvictionPolicies.LruPutExistingKey` | code.py:37-43 | LRU put of a stored key: no eviction, same keys, key last with the new value, others in order |
| `EvictionPolicies.LruPutEvictsHead` | code.py:40-43 | LRU put of a new key into a full level evicts exactly the head and appends the key; the size is kept |
| `EvictionPolicies.LruPutAppends` | code.py:40-43 | LRU put of a new key with room appends it and evicts nothing |
| `EvictionPolicies.LfuGetCountsHit` | code.py:51-56 | an LFU hit adds one to that key's count only; the store and the Counter order are unchanged |
| `EvictionPolicies.LfuPutExistingKey` | code.py:60-69 | LFU put of a stored key overwrites in place and leaves its count at exactly 1 |
| `EvictionPolicies.RemoveLeavesCount` | code.py:18-20 | remove on an LFU level keeps the key's count, so the Counter no longer matches the store |
| `EvictionPolicies.StaleCountBreaksEviction` | code.py:58-69 | size-1 LFU level: put a, remove a, put b, then put c raises, because min picks the stale a |
| `EvictionPolicies.StaleVictimRaises` | code.py:65-66 | if the key of least count is not stored, a put that must evict raises |
| `EvictionPolicies.StaleCountFirst` | code.py:65 | a Counter that counted a and then b once each yields a from min |
| `EvictionPolicies.PutNewWithRoom` | code.py:63-69 | a new key with room is appended to the store (LFU: and the Counter, count 1) |
| `EvictionPolicies.FillsInOrder` | code.py:35-69 | putting up to `size` distinct keys into an empty level evicts nothing and lists them in put order (LFU counts all 1) |
| `EvictionPolicies.FillStep` | code.py:63-69 | one step of the fill: the key goes last in store and Counter |
| `EvictionPolicies.LfuTieEvictsFirstCounted` | code.py:63-67 | with all counts tied, LFU evicts the first key in Counter order |
| `EvictionPolicies.TiedCountsPickFirst` | code.py:65 | when every count is 1, min picks the Counter's first key |
| `EvictionPolicies.OverflowEvictsFirst` | code.py:40-67 | `size + 1` distinct puts into an empty level evict exactly the first key put, for both policies |
| `MultilevelSpec.FirstHolder` | code.py:96-101 | the lowest index whose level holds the key; no level before it holds it |
| `MultilevelSpec.FirstHolderAt` | code.py:96-101 | the scan stops at the first level that holds the key |
| `MultilevelSpec.FirstHolderNone` | code.py:96-102 | no level holds the key: no first holder |
| `MultilevelSpec.Refresh` | code.py:112-114 | one `_move_up` step by its effect: a level without the key is unchanged; a level with it keeps its size and key count, maps the key to the value with the key last, and for LFU keeps the Counter order with the key's count 1 (that this is what get, remove and put do: `RefreshSteps`) |
| `MultilevelSpec.RefreshSteps` | code.py:110-114 | on a level holding the key, the get, remove and put of `_move_up` all succeed and together give `Refresh` |
| `MultilevelSpec.RefreshLru` | code.py:110-114 | the same for an LRU level |
| `MultilevelSpec.RefreshLfu` | code.py:110-114 | the same for an LFU level |
| `MultilevelSpec.LfuSteps` | code.py:110-114 | on LFU the steps count the hit, delete from the store only, then append with count 1 |
| `MultilevelSpec.RefreshKeepsSynced` | code.py:110-114 | a refreshed level keeps its Counter matching its store |
| `MultilevelSpec.RefreshAllKeepSynced` | code.py:110-114 | the same for every level of a list |
| `MultilevelSpec.MoveUp` | code.py:110-114 | `_move_up` keeps the number of levels and every level synced |
| `MultilevelSpec.MoveUpInPlace` | code.py:110-114 | `_move_up` leaves level 0 and every level without the key as they were, keeps each level's key set, and maps the key to the value where it was held |
| `MultilevelSpec.SystemGet` | code.py:94-102 | get keeps the number of levels and every level synced |
| `MultilevelSpec.SystemGetMiss` | code.py:94-102 | no level holds the key: None, nothing changes |
| `MultilevelSpec.SystemGetHit` | code.py:94-102 | first holder i: returns level i's value; levels before i are unchanged; no level gains or loses a key; upper holders map the key to that value |
| `MultilevelSpec.SystemGetAt` | code.py:96-101 | a hit at i is level i's get followed by `_move_up` with the value found |
| `MultilevelSpec.HitKeepsSynced` | code.py:97 | the hit level's get keeps every level synced |
| `MultilevelSpec.SystemPut` | code.py:104-108 | a successful put keeps the number of levels and every level synced |
| `MultilevelSpec.SystemPutWrites` | code.py:104-108 | put fails exactly with no level or a level 0 of non-positive size; otherwise level 0 maps key to value and other levels keep their keys, refreshing the key where held |
| `MultilevelSpec.SystemPutAt` | code.py:104-108 | a successful put is level 0's put followed by `_move_up` |
| `MultilevelSpec.AddLevel` | code.py:77-85 | 'LRU'/'LFU' append exactly one empty level of that policy and size; any other name raises with no change |
| `MultilevelSpec.RemoveLevel` | code.py:87-92 | an index in range removes that level and shifts the later ones down; otherwise raises with no change |
| `MultilevelSpec.RemoveThenAdd` | code.py:77-92 | removing level i then adding a level: earlier levels stay, later ones move down, the new one is last |
| `MultilevelSpec.UpperLevelsLackKey` | code.py:104-114 | when only level 0 holds entries, no upper level holds the key |
| `MultilevelSpec.AddLevelKeepsInvariant` | code.py:77-85 | adding a level keeps every level synced and entries only in level 0 |
| `MultilevelSpec.RemoveLevelKeepsInvariant` | code.py:87-92 | removing a level keeps the same |
| `MultilevelSpec.SystemGetKeepsUpperEmpty` | code.py:94-114 | get keeps entries only in level 0 |
| `MultilevelSpec.SystemPutKeepsUpperEmpty` | code.py:104-114 | put keeps entries only in level 0 |
| `MultilevelSpec.GetHitsOnlyFirstLevel` | code.py:94-102 | in reachable states get finds the key in level 0 or nowhere |
| `CacheLevels.CacheLevel.constructor` | code1.0.py:7-10 | a new level object is empty and valid |
| `CacheLevels.CacheLevel.Get` | code1.0.py:26-56 | updates the level in place to `LevelGet`'s level and returns its value |
| `CacheLevels.CacheLevel.Put` | code1.0.py:35-69 | dispatches on the policy; the new state and outcome are `LevelPut`'s; a failure changes nothing |
| `CacheLevels.CacheLevel.PutLru` | code1.0.py:35-43 | LRUPolicy.put in place, matching `LruPut` |
| `CacheLevels.CacheLevel.PutLfu` | code1.0.py:58-69 | LFUPolicy.put in place, matching `LfuPut` |
| `CacheLevels.CacheLevel.Remove` | code1.0.py:18-20 | removes in place, matching `LevelRemove` |
| `MultilevelCache.MoveUpMatches` | code1.0.py:113-117 | levels refreshed one by one from index 1 make up `MoveUp`'s list |
| `MultilevelCache.MultilevelCacheSystem.constructor` | code1.0.py:73-75 | starts with no levels, invariant established |
| `MultilevelCache.MultilevelCacheSystem.ValidWhen` | code1.0.py:72-117 | distinct level objects whose values are synced with entries only in level 0 satisfy the invariant |
| `MultilevelCache.MultilevelCacheSystem.AddCacheLevel` | code1.0.py:77-86 | appends one fresh level object, or fails with no change; the list of values is `AddLevel`'s; keeps the invariant |
| `MultilevelCache.MultilevelCacheSystem.RemoveCacheLevel` | code1.0.py:88-94 | the list of values is `RemoveLevel`'s; the removed level object leaves `Repr`; keeps the invariant |
| `MultilevelCache.MultilevelCacheSystem.Get` | code1.0.py:96-104 | result and new levels are `SystemGet`'s; keeps the invariant |
| `MultilevelCache.MultilevelCacheSystem.Probe` | code1.0.py:98-101 | the scan loop: stops at the first holder and returns its value, or finds none; only the level that hit changes, by its get |
| `MultilevelCache.MultilevelCacheSystem.Put` | code1.0.py:106-110 | outcome and new levels are `SystemPut`'s; a failure changes nothing; keeps the invariant |
| `MultilevelCache.MultilevelCacheSystem.MoveUpAll` | code1.0.py:113-117 | `_move_up` over the system's levels gives `MoveUp`'s list and restores the invariant |
| `MultilevelCache.MultilevelCacheSystem.MoveUp` | code1.0.py:113-117 | the loop from index 1 refreshes each level object in place; the resulting values are `MoveUp`'s list |
| `MultilevelCache.MultilevelCacheSystem.RefreshLevel` | code1.0.py:115-117 | one loop step (get, then remove and put on a hit) leaves the level at `Refresh` of its old value |

## Left out

- `threading.Lock` and every `with self.lock` block: every method is modelled
  as one atomic step, and concurrency is not modelled.
- `print` calls, `__str__` and `displayCache`: output only.
- `main` in `code1.0.py` (an interactive `input()` loop) and the sample
  driver at the end of `code.py`: they drive the engine and are not part of
  it.
- The abstract `get`/`put` of `EvictionPolicy` that raise
  `NotImplementedError`. The two policies are a tag (`Policy`) on one level
  type, and every operation dispatches on it.
- Values are strings, as annotated. A value of `None`, which the source's
  `get` would read as a miss, is not modelled.
- `MultilevelCacheSystem.Get` and `Put` are split into helper methods:
  `Probe` is the scan loop, `MoveUpAll` and `MoveUp` are `_move_up`, and
  `RefreshLevel` is one iteration of it. Together they run the same steps
  in the same order as the source.
- If a step of `_move_up` raised partway, the Python object would keep the
  levels already refreshed. The model does not represent that partial
  update. Under the system's invariant no step of `_move_up` can raise
  (`RefreshSteps`).
