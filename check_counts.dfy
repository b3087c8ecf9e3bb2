/**
 * The sensor-count report: sensors counted by asset type, their types listed
 * by asset id, and the per-asset detail line. Python dictionaries iterate in
 * insertion order, so each dictionary is modelled as a map together with the
 * order its keys were first inserted.
 */
module CheckCounts {
  import opened SensorRows
  import Text

  /** `defaultdict(int)` after `d[k] += 1` for each key in turn. */
  function Counts(keys: seq<string>): map<string, nat>
  {
    if keys == [] then map[]
    else
      var m := Counts(keys[..|keys| - 1]);
      var k := keys[|keys| - 1];
      m[k := (if k in m then m[k] else 0) + 1]
  }

  /** The order in which keys first appear: the iteration order of a dictionary filled from `keys`. */
  function KeyOrder(keys: seq<string>): seq<string>
  {
    if keys == [] then []
    else
      var o := KeyOrder(keys[..|keys| - 1]);
      var k := keys[|keys| - 1];
      if k in o then o else o + [k]
  }

  /** Sum of a dictionary's values, visited in the given key order. */
  function Total(order: seq<string>, m: map<string, nat>): nat
  {
    if order == [] then 0
    else
      var k := order[|order| - 1];
      Total(order[..|order| - 1], m) + (if k in m then m[k] else 0)
  }

  /** No key occurs twice. */
  predicate NoDuplicates(order: seq<string>) {
    forall i, j :: 0 <= i < j < |order| ==> order[i] != order[j]
  }

  /** The key order lists every key once, and exactly the keys that occur. */
  lemma {:induction false} KeyOrderFacts(keys: seq<string>)
    ensures NoDuplicates(KeyOrder(keys))
    ensures forall k :: k in KeyOrder(keys) <==> k in keys
  {
    if keys != [] {
      var init := keys[..|keys| - 1];
      KeyOrderFacts(init);
      assert keys == init + [keys[|keys| - 1]];
    }
  }

  /** Each count is the key's number of occurrences; a key is present exactly when it occurs. */
  lemma {:induction false} CountsExact(keys: seq<string>, k: string)
    ensures k in Counts(keys) <==> k in keys
    ensures k in Counts(keys) ==> Counts(keys)[k] == multiset(keys)[k]
  {
    if keys != [] {
      var init := keys[..|keys| - 1];
      CountsExact(init, k);
      assert keys == init + [keys[|keys| - 1]];
    }
  }

  /** Bumping one listed key's count raises the total by one. */
  lemma {:induction false} TotalBump(order: seq<string>, m: map<string, nat>, k: string)
    requires NoDuplicates(order) && k in order
    ensures Total(order, m[k := (if k in m then m[k] else 0) + 1]) == Total(order, m) + 1
  {
    var n := |order| - 1;
    var init := order[..n];
    if order[n] != k {
      assert k in init;
      TotalBump(init, m, k);
    } else {
      assert k !in init;
      TotalIgnores(init, m, k, (if k in m then m[k] else 0) + 1);
    }
  }

  /** Changing the count of a key that is not listed leaves the total alone. */
  lemma {:induction false} TotalIgnores(order: seq<string>, m: map<string, nat>, k: string, v: nat)
    requires k !in order
    ensures Total(order, m[k := v]) == Total(order, m)
  {
    if order != [] {
      TotalIgnores(order[..|order| - 1], m, k, v);
    }
  }

  /** The counts, summed over the dictionary, give the number of keys counted. */
  lemma {:induction false} CountsTotal(keys: seq<string>)
    ensures Total(KeyOrder(keys), Counts(keys)) == |keys|
  {
    if keys != [] {
      var init := keys[..|keys| - 1];
      var k := keys[|keys| - 1];
      CountsTotal(init);
      KeyOrderFacts(init);
      CountsExact(init, k);
      var o := KeyOrder(init);
      var m := Counts(init);
      if k in o {
        TotalBump(o, m, k);
      } else {
        TotalIgnores(o, m, k, 1);
        assert (o + [k])[..|o|] == o;
      }
    }
  }

  /** `by_asset`: `defaultdict(list)` after appending each sensor's type under its asset id. */
  function TypesByAsset(ss: seq<Sensor>): map<string, seq<string>>
  {
    if ss == [] then map[]
    else
      var m := TypesByAsset(ss[..|ss| - 1]);
      var s := ss[|ss| - 1];
      m[s.assetId := (if s.assetId in m then m[s.assetId] else []) + [s.sensorType]]
  }

  /** The types of the sensors on asset `a`, in input order. */
  function TypesOf(ss: seq<Sensor>, a: string): seq<string>
  {
    if ss == [] then []
    else TypesOf(ss[..|ss| - 1], a) + (if ss[|ss| - 1].assetId == a then [ss[|ss| - 1].sensorType] else [])
  }

  /** `by_asset[a]` lists the types of the sensors on `a` in input order, and its length is how often `a` occurs. */
  lemma {:induction false} TypesByAssetExact(ss: seq<Sensor>, a: string)
    ensures a in TypesByAsset(ss) <==> a in AssetIds(ss)
    ensures a in TypesByAsset(ss) ==> TypesByAsset(ss)[a] == TypesOf(ss, a)
    ensures |TypesOf(ss, a)| == multiset(AssetIds(ss))[a]
  {
    if ss != [] {
      var init := ss[..|ss| - 1];
      var s := ss[|ss| - 1];
      TypesByAssetExact(init, a);
      var ids := AssetIds(init);
      assert AssetIds(ss) == ids + [s.assetId];
      assert multiset(AssetIds(ss)) == multiset(ids) + multiset{s.assetId};
      assert a in AssetIds(ss) <==> a in ids || a == s.assetId;
      if a !in ids {
        assert multiset(ids)[a] == 0;
      }
    }
  }

  /** Lengths of the `by_asset` lists. */
  function Lengths(m: map<string, seq<string>>): map<string, nat> {
    map a | a in m :: |m[a]|
  }

  /** The `by_asset` list lengths, summed in dictionary order, give the number of sensors. */
  lemma ListLengthsTotal(ss: seq<Sensor>)
    ensures Total(KeyOrder(AssetIds(ss)), Lengths(TypesByAsset(ss))) == |ss|
  {
    var ids := AssetIds(ss);
    assert Lengths(TypesByAsset(ss)) == Counts(ids) by {
      forall a ensures a in Lengths(TypesByAsset(ss)) <==> a in Counts(ids) {
        TypesByAssetExact(ss, a);
        CountsExact(ids, a);
      }
      forall a | a in Counts(ids) ensures Lengths(TypesByAsset(ss))[a] == Counts(ids)[a] {
        TypesByAssetExact(ss, a);
        CountsExact(ids, a);
      }
    }
    CountsTotal(ids);
  }

  /** The `by_type` counts, summed in dictionary order, give the number of sensors. */
  lemma TypeCountsTotal(ss: seq<Sensor>)
    ensures Total(KeyOrder(AssetTypes(ss)), Counts(AssetTypes(ss))) == |ss|
  {
    CountsTotal(AssetTypes(ss));
  }

  /** Counting one more key: the dictionary as the loop body updates it. */
  lemma CountsSnoc(keys: seq<string>, k: string)
    ensures Counts(keys + [k]) == Counts(keys)[k := (if k in Counts(keys) then Counts(keys)[k] else 0) + 1]
    ensures KeyOrder(keys + [k]) == if k in Counts(keys) then KeyOrder(keys) else KeyOrder(keys) + [k]
  {
    assert (keys + [k])[..|keys|] == keys;
    KeyOrderFacts(keys);
    CountsExact(keys, k);
  }

  lemma TypesByAssetSnoc(ss: seq<Sensor>, s: Sensor)
    ensures TypesByAsset(ss + [s]) ==
              TypesByAsset(ss)[s.assetId := (if s.assetId in TypesByAsset(ss) then TypesByAsset(ss)[s.assetId] else []) + [s.sensorType]]
    ensures AssetTypes(ss + [s]) == AssetTypes(ss) + [s.assetType]
    ensures AssetIds(ss + [s]) == AssetIds(ss) + [s.assetId]
    ensures s.assetId in TypesByAsset(ss) <==> s.assetId in Counts(AssetIds(ss))
  {
    assert (ss + [s])[..|ss|] == ss;
    TypesByAssetExact(ss, s.assetId);
    CountsExact(AssetIds(ss), s.assetId);
  }

  /** `d[k] += 1` on a `defaultdict(int)`: a missing key is inserted (at the end of the order) with 0 first. */
  method Increment(d: map<string, nat>, order: seq<string>, k: string) returns (d': map<string, nat>, order': seq<string>)
    ensures d' == d[k := (if k in d then d[k] else 0) + 1]
    ensures order' == if k in d then order else order + [k]
  {
    d', order' := d, order;
    if k !in d' {
      order' := order' + [k];
      d' := d'[k := 0];
    }
    d' := d'[k := d'[k] + 1];
  }

  /** `d[k].append(v)` on a `defaultdict(list)`: a missing key is inserted (at the end of the order) with `[]` first. */
  method Append(d: map<string, seq<string>>, order: seq<string>, k: string, v: string)
    returns (d': map<string, seq<string>>, order': seq<string>)
    ensures d' == d[k := (if k in d then d[k] else []) + [v]]
    ensures order' == if k in d then order else order + [k]
  {
    d', order' := d, order;
    if k !in d' {
      order' := order' + [k];
      d' := d'[k := []];
    }
    d' := d'[k := d'[k] + [v]];
  }

  /**
   * The aggregation loop. Besides the two dictionaries it yields their key
   * orders, which is the order the report prints them in.
   */
  method Aggregate(ss: seq<Sensor>)
    returns (byType: map<string, nat>, typeOrder: seq<string>, byAsset: map<string, seq<string>>, assetOrder: seq<string>)
    ensures byType == Counts(AssetTypes(ss)) && typeOrder == KeyOrder(AssetTypes(ss))
    ensures byAsset == TypesByAsset(ss) && assetOrder == KeyOrder(AssetIds(ss))
  {
    byType, typeOrder, byAsset, assetOrder := map[], [], map[], [];
    var i := 0;
    while i < |ss|
      invariant 0 <= i <= |ss|
      invariant byType == Counts(AssetTypes(ss[..i])) && typeOrder == KeyOrder(AssetTypes(ss[..i]))
      invariant byAsset == TypesByAsset(ss[..i]) && assetOrder == KeyOrder(AssetIds(ss[..i]))
    {
      var s := ss[i];
      assert ss[..i + 1] == ss[..i] + [s];
      TypesByAssetSnoc(ss[..i], s);
      CountsSnoc(AssetTypes(ss[..i]), s.assetType);
      CountsSnoc(AssetIds(ss[..i]), s.assetId);
      byType, typeOrder := Increment(byType, typeOrder, s.assetType);
      byAsset, assetOrder := Append(byAsset, assetOrder, s.assetId, s.sensorType);
      i := i + 1;
    }
    assert ss[..|ss|] == ss;
  }

  /** One line of the details report. */
  datatype Detail = Detail(name: string, shortId: string, count: nat, types: seq<string>)

  /**
   * The detail line for one asset. `lookup` is the names the edges query
   * returned for this id: the first one is used, else "Node/Unknown"; the id
   * is cut to its first 8 characters.
   */
  function AssetDetail(assetId: string, types: seq<string>, lookup: seq<string>): (r: Detail)
    ensures r.name == if lookup != [] then lookup[0] else "Node/Unknown"
    ensures r.shortId <= assetId && |r.shortId| == if |assetId| < 8 then |assetId| else 8
    ensures r.count == |types| && r.types == types
  {
    Detail(if lookup != [] then lookup[0] else "Node/Unknown", Text.Take(assetId, 8), |types|, types)
  }

  /** The details section: one line per asset, in dictionary order; `lookups` holds each asset's query result. */
  function Report(assetOrder: seq<string>, byAsset: map<string, seq<string>>, lookups: map<string, seq<string>>): (r: seq<Detail>)
    requires forall a :: a in assetOrder ==> a in byAsset
    ensures |r| == |assetOrder|
    ensures forall i :: 0 <= i < |r| ==>
              r[i] == AssetDetail(assetOrder[i], byAsset[assetOrder[i]], if assetOrder[i] in lookups then lookups[assetOrder[i]] else [])
  {
    seq(|assetOrder|, i requires 0 <= i < |assetOrder| =>
      AssetDetail(assetOrder[i], byAsset[assetOrder[i]], if assetOrder[i] in lookups then lookups[assetOrder[i]] else []))
  }

  /** The report has one line per distinct asset id, each of which has a `by_asset` entry. */
  lemma ReportCoversSensors(ss: seq<Sensor>, lookups: map<string, seq<string>>)
    ensures forall a :: a in KeyOrder(AssetIds(ss)) ==> a in TypesByAsset(ss)
    ensures NoDuplicates(KeyOrder(AssetIds(ss)))
    ensures |Report(KeyOrder(AssetIds(ss)), TypesByAsset(ss), lookups)| == |KeyOrder(AssetIds(ss))|
    ensures forall a :: a in AssetIds(ss) <==> a in KeyOrder(AssetIds(ss))
  {
    KeyOrderFacts(AssetIds(ss));
    forall a | a in KeyOrder(AssetIds(ss)) ensures a in TypesByAsset(ss) {
      TypesByAssetExact(ss, a);
    }
  }
}
