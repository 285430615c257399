/** Totals of finite maps of naturals whose missing entries read as zero. */
module Sums {

  function At<K>(entries: map<K, nat>, key: K): nat {
    if key in entries then entries[key] else 0
  }

  ghost function SumOver<K>(keys: set<K>, entries: map<K, nat>): nat {
    if keys == {} then 0
    else
      var key :| key in keys;
      At(entries, key) + SumOver(keys - {key}, entries)
  }

  ghost function Sum<K>(entries: map<K, nat>): nat {
    SumOver(entries.Keys, entries)
  }

  lemma {:induction false} SumOverRemove<K>(keys: set<K>, entries: map<K, nat>, key: K)
    requires key in keys
    ensures SumOver(keys, entries) == At(entries, key) + SumOver(keys - {key}, entries)
    decreases keys
  {
    var picked :| picked in keys && SumOver(keys, entries) == At(entries, picked) + SumOver(keys - {picked}, entries);
    if picked != key {
      SumOverRemove(keys - {picked}, entries, key);
      SumOverRemove(keys - {key}, entries, picked);
      assert keys - {picked} - {key} == keys - {key} - {picked};
    }
  }

  lemma {:induction false} SumOverPointwise<K>(keys: set<K>, a: map<K, nat>, b: map<K, nat>)
    requires forall key :: key in keys ==> At(a, key) == At(b, key)
    ensures SumOver(keys, a) == SumOver(keys, b)
    decreases keys
  {
    if keys != {} {
      var key :| key in keys;
      SumOverRemove(keys, a, key);
      SumOverRemove(keys, b, key);
      SumOverPointwise(keys - {key}, a, b);
    }
  }

  /** Keys without an entry add nothing. */
  lemma {:induction false} SumOverExtra<K>(keys: set<K>, entries: map<K, nat>)
    requires entries.Keys <= keys
    ensures SumOver(keys, entries) == Sum(entries)
    decreases keys
  {
    if exists extra :: extra in keys && extra !in entries.Keys {
      var extra :| extra in keys && extra !in entries.Keys;
      SumOverRemove(keys, entries, extra);
      SumOverExtra(keys - {extra}, entries);
    } else {
      assert keys == entries.Keys;
    }
  }

  lemma SumUpdate<K>(entries: map<K, nat>, key: K, value: nat)
    ensures Sum(entries[key := value]) == Sum(entries) - At(entries, key) + value
  {
    var updated := entries[key := value];
    var keys := entries.Keys + {key};
    assert updated.Keys == keys;
    SumOverExtra(keys, entries);
    SumOverRemove(keys, entries, key);
    SumOverRemove(keys, updated, key);
    SumOverPointwise(keys - {key}, entries, updated);
  }

  lemma EntryBelowSum<K>(entries: map<K, nat>, key: K)
    ensures At(entries, key) <= Sum(entries)
  {
    if key in entries {
      SumOverRemove(entries.Keys, entries, key);
    }
  }
}
