/**
 * The column map of an export: an ordered PHP array from column name to header label, and the
 * default one built from the exporter's columns that are enabled by default.
 */
module ColumnMaps {
  import opened Wrappers

  /** An ordered string-keyed array: its entries in insertion order. */
  type ColumnMap = seq<(string, string)>

  /** `array_keys($map)`. */
  function Keys(m: ColumnMap): (ks: seq<string>)
    ensures |ks| == |m| && forall i :: 0 <= i < |m| ==> ks[i] == m[i].0
  {
    seq(|m|, i requires 0 <= i < |m| => m[i].0)
  }

  /** A PHP array never holds a key twice. */
  predicate DistinctKeys(m: ColumnMap) {
    forall i, j :: 0 <= i < j < |m| ==> m[i].0 != m[j].0
  }

  /** The position of key `k`, if it is present (the first one, should it repeat). */
  function IndexOfKey(m: ColumnMap, k: string): (r: Option<nat>)
    ensures r.None? <==> k !in Keys(m)
    ensures r.Some? ==> r.value < |m| && m[r.value].0 == k && forall i :: 0 <= i < r.value ==> m[i].0 != k
    decreases |m|
  {
    if m == [] then None
    else if m[0].0 == k then Some(0)
    else
      match IndexOfKey(m[1..], k)
      case None =>
        assert Keys(m) == [m[0].0] + Keys(m[1..]);
        None
      case Some(i) =>
        assert Keys(m) == [m[0].0] + Keys(m[1..]);
        Some(i + 1)
  }

  /** `$map[$k]`, if set. */
  function Lookup(m: ColumnMap, k: string): Option<string> {
    match IndexOfKey(m, k)
    case None => None
    case Some(i) => Some(m[i].1)
  }

  /**
   * `$map[$k] = $v`: an existing key keeps its place and takes the new value, a new key goes at
   * the end; every other key keeps its value.
   */
  function Put(m: ColumnMap, k: string, v: string): (r: ColumnMap)
    ensures Lookup(r, k) == Some(v)
    ensures forall j :: j != k ==> Lookup(r, j) == Lookup(m, j)
    ensures k in Keys(m) ==> Keys(r) == Keys(m)
    ensures k !in Keys(m) ==> Keys(r) == Keys(m) + [k]
    ensures DistinctKeys(m) ==> DistinctKeys(r)
  {
    match IndexOfKey(m, k)
    case Some(i) =>
      var r := m[i := (k, v)];
      assert Keys(r) == Keys(m);
      forall j | j != k ensures Lookup(r, j) == Lookup(m, j) {
        LookupSameKeys(m, r, j);
      }
      r
    case None =>
      var r := m + [(k, v)];
      assert Keys(r) == Keys(m) + [k];
      forall j | j != k ensures Lookup(r, j) == Lookup(m, j) {
        LookupExtend(m, (k, v), j);
      }
      r
  }

  /** Two maps with the same keys in the same places agree on every key whose entry is untouched. */
  lemma {:induction false} LookupSameKeys(m: ColumnMap, r: ColumnMap, j: string)
    requires Keys(r) == Keys(m)
    requires forall i :: 0 <= i < |m| && m[i].0 == j ==> r[i] == m[i]
    ensures Lookup(r, j) == Lookup(m, j)
  {
    var a, b := IndexOfKey(m, j), IndexOfKey(r, j);
    if a.Some? && b.Some? {
      assert r[a.value].0 == j;
      assert m[b.value].0 == j;
    }
  }

  /** Appending an entry for a different key leaves the lookup of `j` as it was. */
  lemma {:induction false} LookupExtend(m: ColumnMap, e: (string, string), j: string)
    requires e.0 != j
    ensures Lookup(m + [e], j) == Lookup(m, j)
  {
    var r := m + [e];
    assert Keys(r) == Keys(m) + [e.0];
    var a, b := IndexOfKey(m, j), IndexOfKey(r, j);
    if a.Some? && b.Some? {
      assert r[a.value].0 == j;
      assert m[b.value].0 == j;
    }
  }

  /** One of the exporter's columns, as the default map sees it. */
  datatype Offer = Offer(name: string, enabled: bool, header: string)

  /**
   * `collect($columns)->filter(enabled by default)->mapWithKeys(name => label)->all()`: each
   * enabled column in order writes its label under its name.
   */
  function DefaultColumnMap(columns: seq<Offer>): ColumnMap {
    if columns == [] then []
    else
      var m := DefaultColumnMap(columns[..|columns| - 1]);
      var c := columns[|columns| - 1];
      if c.enabled then Put(m, c.name, c.header) else m
  }

  /** Some column named `k` is enabled by default. */
  predicate Enabled(columns: seq<Offer>, k: string) {
    exists i :: 0 <= i < |columns| && columns[i].enabled && columns[i].name == k
  }

  /** The label the last enabled column named `k` gives, if any: the reference for the map's values. */
  function LastEnabledLabel(columns: seq<Offer>, k: string): (r: Option<string>)
    ensures r.None? <==> !Enabled(columns, k)
    ensures r.Some? ==>
      exists i :: (0 <= i < |columns| && columns[i] == Offer(k, true, r.value) &&
        forall j :: i < j < |columns| ==> !(columns[j].enabled && columns[j].name == k))
  {
    if columns == [] then None
    else
      var c := columns[|columns| - 1];
      var init := columns[..|columns| - 1];
      if c.enabled && c.name == k then Some(c.header)
      else
        var r := LastEnabledLabel(init, k);
        assert forall i :: 0 <= i < |init| ==> init[i] == columns[i];
        if r.Some? then
          var i :| 0 <= i < |init| && init[i] == Offer(k, true, r.value) &&
            forall j :: i < j < |init| ==> !(init[j].enabled && init[j].name == k);
          assert columns[i] == Offer(k, true, r.value);
          r
        else r
  }

  /** The first position of an enabled column named `k`. */
  function FirstEnabled(columns: seq<Offer>, k: string): (i: nat)
    requires Enabled(columns, k)
    ensures i < |columns| && columns[i].enabled && columns[i].name == k
    ensures forall j :: 0 <= j < i ==> !(columns[j].enabled && columns[j].name == k)
  {
    if columns[0].enabled && columns[0].name == k then 0
    else
      assert Enabled(columns[1..], k) by {
        var i :| 0 <= i < |columns| && columns[i].enabled && columns[i].name == k;
        assert columns[1..][i - 1] == columns[i];
      }
      1 + FirstEnabled(columns[1..], k)
  }

  /**
   * The default map holds one entry per enabled column name, each name once, and its value is
   * the label of the last enabled column with that name (a later column overwrites an earlier one).
   */
  lemma {:induction false} DefaultColumnMapContents(columns: seq<Offer>)
    ensures DistinctKeys(DefaultColumnMap(columns))
    ensures forall k :: Lookup(DefaultColumnMap(columns), k) == LastEnabledLabel(columns, k)
    ensures forall k :: k in Keys(DefaultColumnMap(columns)) <==> Enabled(columns, k)
  {
    var m := DefaultColumnMap(columns);
    if columns != [] {
      var init := columns[..|columns| - 1];
      DefaultColumnMapContents(init);
      assert forall i :: 0 <= i < |init| ==> init[i] == columns[i];
      forall k ensures k in Keys(m) <==> Lookup(m, k).Some? {
      }
    }
  }

  /** Every key of `m` is an enabled name, and the keys come in the order their names are first enabled. */
  predicate KeysInOrder(columns: seq<Offer>, m: ColumnMap) {
    && (forall a :: 0 <= a < |m| ==> Enabled(columns, m[a].0))
    && (forall a, b :: 0 <= a < b < |m| ==> FirstEnabled(columns, m[a].0) < FirstEnabled(columns, m[b].0))
  }

  /** The keys of the default map come in the order in which their names are first enabled. */
  lemma {:induction false} DefaultColumnMapOrder(columns: seq<Offer>)
    ensures KeysInOrder(columns, DefaultColumnMap(columns))
  {
    if columns != [] {
      var n := |columns| - 1;
      var init := columns[..n];
      var c := columns[n];
      var prev := DefaultColumnMap(init);
      DefaultColumnMapContents(init);
      DefaultColumnMapOrder(init);
      KeysInOrderPrefix(columns, n, prev);
      var m := DefaultColumnMap(columns);
      if c.enabled && c.name !in Keys(prev) {
        assert m == prev + [(c.name, c.header)];
        assert !Enabled(init, c.name);
        KeysInOrderAppend(columns, prev, c.name, c.header);
      } else {
        assert Keys(m) == Keys(prev);
        KeysInOrderSameKeys(columns, prev, m);
      }
    }
  }

  /** Key order with respect to a prefix of the columns carries over to all of them. */
  lemma {:induction false} KeysInOrderPrefix(columns: seq<Offer>, n: nat, m: ColumnMap)
    requires n <= |columns| && KeysInOrder(columns[..n], m)
    ensures KeysInOrder(columns, m)
  {
    forall a | 0 <= a < |m| ensures Enabled(columns, m[a].0) && FirstEnabled(columns, m[a].0) == FirstEnabled(columns[..n], m[a].0) {
      FirstEnabledPrefix(columns, n, m[a].0);
    }
  }

  /** Appending a name first enabled by the last column keeps the order. */
  lemma {:induction false} KeysInOrderAppend(columns: seq<Offer>, m: ColumnMap, k: string, v: string)
    requires |columns| >= 1 && KeysInOrder(columns, m)
    requires columns[|columns| - 1].enabled && columns[|columns| - 1].name == k
    requires !Enabled(columns[..|columns| - 1], k)
    requires forall a :: 0 <= a < |m| ==> FirstEnabled(columns, m[a].0) < |columns| - 1
    ensures KeysInOrder(columns, m + [(k, v)])
  {
    var n := |columns| - 1;
    assert columns[n].enabled && columns[n].name == k;
    assert FirstEnabled(columns, k) == n;
    var r := m + [(k, v)];
    assert forall a :: 0 <= a < |m| ==> r[a] == m[a];
  }

  /** A map with the same keys in the same places is in order when the other one is. */
  lemma {:induction false} KeysInOrderSameKeys(columns: seq<Offer>, m: ColumnMap, r: ColumnMap)
    requires KeysInOrder(columns, m) && Keys(r) == Keys(m)
    ensures KeysInOrder(columns, r)
  {
    assert forall a :: 0 <= a < |r| ==> r[a].0 == Keys(r)[a] == m[a].0;
  }

  /** The first enabled position of a name enabled within a prefix is the same in the whole list. */
  lemma {:induction false} FirstEnabledPrefix(columns: seq<Offer>, n: nat, k: string)
    requires n <= |columns| && Enabled(columns[..n], k)
    ensures Enabled(columns, k) && FirstEnabled(columns, k) == FirstEnabled(columns[..n], k)
  {
    var i := FirstEnabled(columns[..n], k);
    assert columns[..n][i] == columns[i];
  }

  /** The default map is empty exactly when no column is enabled by default. */
  lemma {:induction false} DefaultColumnMapEmpty(columns: seq<Offer>)
    ensures DefaultColumnMap(columns) == [] <==> forall i :: 0 <= i < |columns| ==> !columns[i].enabled
  {
    DefaultColumnMapContents(columns);
    var m := DefaultColumnMap(columns);
    if m == [] {
      forall i | 0 <= i < |columns| ensures !columns[i].enabled {
        if columns[i].enabled {
          assert Enabled(columns, columns[i].name);
        }
      }
    } else {
      assert m[0].0 in Keys(m);
    }
  }
}
