/** Values shared by every layer of the multilevel cache model: keys and
    values (both strings in the cache system), optional results, and the
    exceptions the engine raises, turned into error values. */
module CacheTypes {

  type Key = string
  type Value = string

  /** A lookup result: `None` where the engine returns Python's None. */
  datatype Option<T> = None | Some(value: T)

  /** The exceptions the engine can raise. */
  datatype Error =
    | EmptyCachePop       // OrderedDict.popitem on an empty LRU store (KeyError)
    | EmptyCounterMin     // min() over an empty LFU frequency table (ValueError)
    | EvictedKeyMissing   // OrderedDict.pop of the chosen LFU victim that the store lacks (KeyError)
    | UnsupportedPolicy   // addCacheLevel with a policy name other than LRU or LFU (ValueError)
    | LevelOutOfRange     // removeCacheLevel with an index outside the level list (IndexError)
    | NoLevels            // put while no level exists: levels[0] on an empty list (IndexError)

  /** The outcome of an operation that computes a new value or raises. */
  datatype Result<T> = Ok(value: T) | Err(error: Error)

  /** The outcome of an operation that changes state in place or raises. */
  datatype Outcome = Pass | Fail(error: Error)

  function ToOutcome<T>(r: Result<T>): Outcome {
    match r
    case Ok(_) => Pass
    case Err(e) => Fail(e)
  }
}
