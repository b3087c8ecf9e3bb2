/**
 * A keyed map filled entry by entry, as JavaScript's `Map.set` and the `Map`
 * constructor fill one: a later entry for a key replaces an earlier one.
 */
module KeyedMaps {
  import opened Wrappers

  /**
   * A keyed registry filled in order: each entry either sets its key (a later
   * entry replacing an earlier one, as `Map.set` does) or is skipped (`None`).
   */
  function Registered<V>(entries: seq<Option<(string, V)>>): map<string, V>
  {
    if entries == [] then map[]
    else
      var r := Registered(entries[..|entries| - 1]);
      match entries[|entries| - 1]
      case None => r
      case Some((k, v)) => r[k := v]
  }

  /** Entry `i` sets `key`. */
  predicate SetsKey<V>(entries: seq<Option<(string, V)>>, i: int, key: string) {
    0 <= i < |entries| && entries[i].Some? && entries[i].value.0 == key
  }

  /** Entry `i` is the last one that sets `key`. */
  predicate LastSetting<V>(entries: seq<Option<(string, V)>>, i: int, key: string) {
    SetsKey(entries, i, key) && forall j :: i < j < |entries| ==> !SetsKey(entries, j, key)
  }

  /** A key is registered exactly when some entry sets it. */
  lemma {:induction false} RegisteredKeys<V>(entries: seq<Option<(string, V)>>, key: string)
    ensures key in Registered(entries) <==> exists i :: SetsKey(entries, i, key)
  {
    if entries != [] {
      var n := |entries| - 1;
      var init := entries[..n];
      RegisteredKeys(init, key);
      if exists i :: SetsKey(entries, i, key) {
        var i :| SetsKey(entries, i, key);
        if i < n { assert init[i] == entries[i] && SetsKey(init, i, key); }
      }
      assert key in Registered(entries) <==> key in Registered(init) || SetsKey(entries, n, key);
      if exists i :: SetsKey(init, i, key) {
        var i :| SetsKey(init, i, key);
        assert entries[i] == init[i] && SetsKey(entries, i, key);
      }
    }
  }

  /** A registered key holds the value of the last entry that set it. */
  lemma {:induction false} RegisteredLastWins<V>(entries: seq<Option<(string, V)>>, key: string)
    requires key in Registered(entries)
    ensures exists i :: LastSetting(entries, i, key) && Registered(entries)[key] == entries[i].value.1
  {
    var n := |entries| - 1;
    if SetsKey(entries, n, key) {
      assert LastSetting(entries, n, key);
    } else {
      var init := entries[..n];
      RegisteredLastWins(init, key);
      var i :| LastSetting(init, i, key) && Registered(init)[key] == init[i].value.1;
      assert entries[i] == init[i];
      forall j | i < j < |entries| ensures !SetsKey(entries, j, key) {
        if j < n { assert entries[j] == init[j] && !SetsKey(init, j, key); }
      }
      assert LastSetting(entries, i, key);
    }
  }
}
