/**
 * `LBPCB_FAIL_SN`: the module-level dictionary that counts how often each
 * known failing board serial number turns up. Its keys are fixed by a
 * literal seed of ten serial numbers, each counted from zero; the scans only
 * ever add one to the count of a key that is already there.
 */
module FailureRegistry {
  import opened Wrappers

  /** The ten serial numbers the dictionary is seeded with. */
  const SEED_SERIALS: set<string> := {
    "1821925953098", "1822025953976",
    "1822325950716", "1822325950442",
    "1822625959024", "1822625959209",
    "1822625957788", "1822325958301",
    "1822625957789", "1822625958383"
  }

  /** The count map after `if id in counts: counts[id] += 1` (a `None` id is never a key). */
  function Observed(counts: map<string, nat>, id: Option<string>): map<string, nat> {
    if id.Some? && id.value in counts then counts[id.value := counts[id.value] + 1] else counts
  }

  /** The count map after observing each id of `ids` in turn. */
  function ObservedAll(counts: map<string, nat>, ids: seq<Option<string>>): map<string, nat>
    decreases |ids|
  {
    if ids == [] then counts else ObservedAll(Observed(counts, ids[0]), ids[1..])
  }

  /** How many of `ids` are `key`. */
  function Occurrences(ids: seq<Option<string>>, key: string): nat
    decreases |ids|
  {
    if ids == [] then 0 else (if ids[0] == Some(key) then 1 else 0) + Occurrences(ids[1..], key)
  }

  /**
   * Observing never adds or removes a key; each key's count rises by the
   * number of times it was observed, and a missing or unknown id changes
   * nothing.
   */
  lemma {:induction false} ObservedAllCounts(counts: map<string, nat>, ids: seq<Option<string>>)
    ensures ObservedAll(counts, ids).Keys == counts.Keys
    ensures forall k :: k in counts ==> ObservedAll(counts, ids)[k] == counts[k] + Occurrences(ids, k)
    decreases |ids|
  {
    if ids != [] {
      ObservedAllCounts(Observed(counts, ids[0]), ids[1..]);
    }
  }

  /** Observing a list of ids, then more, is observing both in turn. */
  lemma {:induction false} ObservedAllAppend(counts: map<string, nat>, ids: seq<Option<string>>, more: seq<Option<string>>)
    ensures ObservedAll(counts, ids + more) == ObservedAll(ObservedAll(counts, ids), more)
    decreases |ids|
  {
    if ids == [] {
      assert ids + more == more;
    } else {
      assert (ids + more)[1..] == ids[1..] + more;
      ObservedAllAppend(Observed(counts, ids[0]), ids[1..], more);
    }
  }

  /** The dictionary, updated in place by the scans. */
  class Registry {
    var counts: map<string, nat>

    /** The key set is the seed's. */
    ghost predicate Valid()
      reads this
    {
      counts.Keys == SEED_SERIALS
    }

    /** The literal seed: every known serial at zero. */
    constructor ()
      ensures Valid()
      ensures forall k :: k in counts ==> counts[k] == 0
    {
      counts := map k | k in SEED_SERIALS :: 0;
    }

    /** Python's `id in LBPCB_FAIL_SN`. */
    function Has(id: Option<string>): bool
      reads this
    {
      id.Some? && id.value in counts
    }

    /**
     * Python's `LBPCB_FAIL_SN[id] += 1`: the count rises by one, or, when
     * `id` is not a key, the `KeyError` is reported and nothing changes.
     */
    method Increment(id: Option<string>) returns (ok: bool)
      requires Valid()
      modifies this
      ensures Valid()
      ensures ok == old(Has(id))
      ensures counts == Observed(old(counts), id)
    {
      ok := Has(id);
      if ok {
        counts := counts[id.value := counts[id.value] + 1];
      }
    }

    /** The guarded update `if id in LBPCB_FAIL_SN: LBPCB_FAIL_SN[id] += 1`. */
    method Observe(id: Option<string>)
      requires Valid()
      modifies this
      ensures Valid()
      ensures counts == Observed(old(counts), id)
    {
      if Has(id) {
        var _ := Increment(id);
      }
    }
  }
}
