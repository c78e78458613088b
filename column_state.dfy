/**
 * The value pipeline of one export column: reading a value off a record (`data_get`), the
 * related-records reduction of `getStateFromRecord`, the separator split and default of
 * `getState`, the derived label of `getLabel`, and the eager-load update of `applyEagerLoading`.
 */
module ColumnState {
  import opened Wrappers
  import opened Strings
  import opened Values
  import opened Knobs
  import opened CellState

  /** What a column's closures are called with: the current record and the exporter's options. */
  datatype CellContext = CellContext(record: Option<Record>, options: map<string, Value>)

  /** A column's configuration, each "value or closure" setting still unevaluated. */
  datatype Settings = Settings(
    name: string,
    labelSetting: Knob<CellContext, Option<string>>,
    enabledByDefault: Knob<CellContext, bool>,
    defaultState: Knob<CellContext, Value>,
    stateUsing: Knob<CellContext, Value>,
    separator: Knob<CellContext, Option<string>>,
    distinctList: Knob<CellContext, bool>)

  /** `is_null($this->getStateUsing)`: a closure is never null, a plain value may be. */
  predicate IsUnset(k: Knob<CellContext, Value>) {
    k.Literal? && k.value == Null
  }

  // data_get

  /** `$model->getAttribute($key)`: an attribute value, else the loaded relation value, else null. */
  function AttributeOf(r: Record, key: string): Value {
    if key in r.attributes then r.attributes[key]
    else
      match RelationValue(r, key)
      case One(x) => Model(x)
      case Many(ms) => Collection(ms)
      case Missing => Null
  }

  /** `data_get($target, $segments)` through models and string-keyed arrays; anything else gives null. */
  function DataGetPath(target: Value, segments: seq<string>): Value
    decreases |segments|
  {
    if segments == [] then target
    else
      match target
      case Model(r) => DataGetPath(AttributeOf(r, segments[0]), segments[1..])
      case Dict(m) => if segments[0] in m then DataGetPath(m[segments[0]], segments[1..]) else Null
      case _ => Null
  }

  /** `data_get($record, $key)`. */
  function DataGet(r: Record, key: string): Value {
    DataGetPath(Model(r), Explode(".", key))
  }

  /** An undotted key reads the attribute, or the loaded relation of that name. */
  lemma {:induction false} DataGetPlainKey(r: Record, key: string)
    requires '.' !in key
    ensures DataGet(r, key) == AttributeOf(r, key)
  {
    assert Implode(".", [key]) == key;
    ExplodeImplode('.', [key]);
    assert DataGetPath(Model(r), [key]) == DataGetPath(AttributeOf(r, key), []);
  }

  // The reduction of getStateFromRecord

  /** The attribute value read off each related record, in order. */
  function Pluck(records: seq<Record>, attribute: string): (vs: seq<Value>)
    ensures |vs| == |records| && forall i :: 0 <= i < |records| ==> vs[i] == DataGet(records[i], attribute)
  {
    seq(|records|, i requires 0 <= i < |records| => DataGet(records[i], attribute))
  }

  /** The `reduce` that pushes each value unless it is blank. */
  function DropBlank(vs: seq<Value>): seq<Value> {
    if vs == [] then []
    else DropBlank(vs[..|vs| - 1]) + (if Blank(vs[|vs| - 1]) then [] else [vs[|vs| - 1]])
  }

  /** Dropping blanks keeps exactly the filled values, never more than there were. */
  lemma {:induction false} DropBlankKeeps(vs: seq<Value>)
    ensures |DropBlank(vs)| <= |vs|
    ensures forall v :: v in DropBlank(vs) <==> v in vs && Filled(v)
  {
    if vs != [] {
      var init := vs[..|vs| - 1];
      DropBlankKeeps(init);
      assert vs == init + [vs[|vs| - 1]];
    }
  }

  predicate NoDuplicates(s: seq<Value>) {
    forall i, j :: 0 <= i < j < |s| ==> s[i] != s[j]
  }

  /** `->unique()->values()`: the first occurrence of each value, in order. */
  function Unique(s: seq<Value>): seq<Value> {
    if s == [] then []
    else
      var init := s[..|s| - 1];
      Unique(init) + (if s[|s| - 1] in init then [] else [s[|s| - 1]])
  }

  /** Index of the first occurrence of `x` in `s`. */
  function FirstIndex(s: seq<Value>, x: Value): (i: nat)
    requires x in s
    ensures i < |s| && s[i] == x && x !in s[..i]
  {
    if s[0] == x then 0 else 1 + FirstIndex(s[1..], x)
  }

  lemma {:induction false} FirstIndexInPrefix(s: seq<Value>, n: nat, x: Value)
    requires n <= |s| && x in s[..n]
    ensures FirstIndex(s, x) == FirstIndex(s[..n], x)
  {
    var i, j := FirstIndex(s, x), FirstIndex(s[..n], x);
    assert s[..n][j] == s[j];
    assert s[..n][..j] == s[..j];
  }

  /**
   * `unique` keeps each value once, keeps every value, and lists them in the order of their
   * first occurrences.
   */
  lemma {:induction false} UniqueSpec(s: seq<Value>)
    ensures NoDuplicates(Unique(s))
    ensures |Unique(s)| <= |s|
    ensures forall x :: x in Unique(s) <==> x in s
    ensures forall i, j :: 0 <= i < j < |Unique(s)| ==> FirstIndex(s, Unique(s)[i]) < FirstIndex(s, Unique(s)[j])
  {
    if s != [] {
      var init := s[..|s| - 1];
      var x := s[|s| - 1];
      UniqueSpec(init);
      assert s == init + [x];
      var u := Unique(init);
      var r := Unique(s);
      forall y | y in u ensures FirstIndex(s, y) == FirstIndex(init, y) {
        assert y in init;
        FirstIndexInPrefix(s, |s| - 1, y);
      }
      if x !in init {
        assert r == u + [x];
        assert FirstIndex(s, x) == |s| - 1;
        forall i, j | 0 <= i < j < |r| ensures FirstIndex(s, r[i]) < FirstIndex(s, r[j]) {
          assert r[i] == u[i];
          if j < |u| {
            assert r[j] == u[j];
          }
        }
      } else {
        assert r == u;
      }
    }
  }

  /** The relationship branch of `getStateFromRecord`: the non-blank values, null, one scalar, or a list. */
  function Collapse(values: seq<Value>, distinct: bool, toMany: bool): Value {
    var state := if distinct then Unique(values) else values;
    if |state| == 0 then Null
    else if |state| < 2 && !toMany then state[0]
    else List(state)
  }

  /** `getStateFromRecord($record)`. */
  function StateFromRecord(schema: Schema, name: string, distinct: bool, record: Record): Value {
    var c := RootCursor(record);
    if RelationshipOf(schema, c, name, None).Some? then
      var rels := RelationList(schema, c, name);
      var values := DropBlank(Pluck(Results(record, rels), FullAttributeName(schema, c, name)));
      Collapse(values, distinct, HasMultiple(record, rels))
    else
      DataGet(record, name)
  }

  /**
   * Collapsing filled values gives null exactly when there are none; otherwise one of them
   * as a scalar, or a list holding exactly them (each once for a distinct list). A to-many hop
   * always gives a list, and one or no value without such a hop never does.
   */
  lemma {:induction false} CollapseShape(values: seq<Value>, distinct: bool, toMany: bool)
    requires forall v :: v in values ==> Filled(v)
    ensures Collapse(values, distinct, toMany) == Null <==> values == []
    ensures var r := Collapse(values, distinct, toMany);
      r != Null ==> r in values || (r.List? && |r.items| >= 1 && forall v :: v in r.items <==> v in values)
    ensures var r := Collapse(values, distinct, toMany);
      toMany && values != [] ==> r.List? && forall v :: v in r.items <==> v in values
    ensures var r := Collapse(values, distinct, toMany);
      distinct && r.List? && r !in values ==> NoDuplicates(r.items)
    ensures |values| == 1 && !toMany ==> Collapse(values, distinct, toMany) == values[0]
    ensures |values| >= 2 && !distinct ==> Collapse(values, distinct, toMany) == List(values)
  {
    var r := Collapse(values, distinct, toMany);
    if !distinct {
      assert r == if |values| == 0 then Null else if |values| < 2 && !toMany then values[0] else List(values);
      if values != [] {
        assert values[0] in values;
      }
    } else {
      UniqueSpec(values);
      var state := Unique(values);
      assert r == if |state| == 0 then Null else if |state| < 2 && !toMany then state[0] else List(state);
      if values != [] {
        assert values[0] in state;
        if |state| < 2 && !toMany {
          assert state[0] in values;
          assert Filled(state[0]);
        }
        if |values| == 1 {
          assert state == values;
        }
      }
    }
  }


  /**
   * Through a relationship the state is null exactly when no related record has a filled
   * value; otherwise it is one such value, or a list holding exactly the filled values; after a
   * to-many hop it is always such a list.
   */
  lemma {:induction false} StateFromRecordShape(schema: Schema, name: string, distinct: bool, record: Record)
    requires RelationshipOf(schema, RootCursor(record), name, None).Some?
    ensures var c := RootCursor(record);
      var rels := RelationList(schema, c, name);
      var found := Pluck(Results(record, rels), FullAttributeName(schema, c, name));
      var state := StateFromRecord(schema, name, distinct, record);
      && (state == Null <==> forall v :: v in found ==> Blank(v))
      && (state != Null ==>
            ((state in found && Filled(state)) ||
             (state.List? && |state.items| >= 1 && forall v :: v in state.items <==> v in found && Filled(v))))
      && (HasMultiple(record, rels) && state != Null ==> state.List? && forall v :: v in state.items <==> v in found && Filled(v))
  {
    var c := RootCursor(record);
    var rels := RelationList(schema, c, name);
    var found := Pluck(Results(record, rels), FullAttributeName(schema, c, name));
    var kept := DropBlank(found);
    DropBlankKeeps(found);
    CollapseShape(kept, distinct, HasMultiple(record, rels));
    if kept != [] {
      assert kept[0] in kept;
    }
  }

  /** If every hop along the relationship is to-one, the state is null or the one related record's filled value. */
  lemma {:induction false} ToOneStateIsScalar(schema: Schema, name: string, distinct: bool, record: Record)
    requires RelationshipOf(schema, RootCursor(record), name, None).Some?
    requires !HasMultiple(record, RelationList(schema, RootCursor(record), name))
    ensures var c := RootCursor(record);
      var found := Pluck(Results(record, RelationList(schema, c, name)), FullAttributeName(schema, c, name));
      var state := StateFromRecord(schema, name, distinct, record);
      |found| <= 1 && (state == Null || (found == [state] && Filled(state)))
  {
    var c := RootCursor(record);
    var rels := RelationList(schema, c, name);
    SingleValuedPath(record, rels);
    var found := Pluck(Results(record, rels), FullAttributeName(schema, c, name));
    DropBlankKeeps(found);
    var kept := DropBlank(found);
    CollapseShape(kept, distinct, false);
    if kept != [] {
      assert kept[0] in kept;
    }
  }

  // getState

  /** The separator step of `getState`: a string and a truthy separator give the exploded pieces. */
  function SplitState(state: Value, separator: Option<string>): (r: Value)
    ensures !state.Str? || separator.None? || !Truthy(separator.value) ==> r == state
  {
    if state.Str? && separator.Some? && Truthy(separator.value) then
      var pieces := Explode(separator.value, state.s);
      if |pieces| == 1 && Blank(Str(pieces[0])) then List([])
      else List(seq(|pieces|, i requires 0 <= i < |pieces| => Str(pieces[i])))
    else state
  }

  /** The strings of a list of string values. */
  function Texts(items: seq<Value>): seq<string>
    requires forall i :: 0 <= i < |items| ==> items[i].Str?
  {
    seq(|items|, i requires 0 <= i < |items| => items[i].s)
  }

  /**
   * A split string is a list of separator-free strings that joins back to the original; it is
   * the empty list only when the string is blank and has no separator.
   */
  lemma {:induction false} SplitStateRoundTrip(s: string, separator: string)
    requires Truthy(separator)
    ensures var r := SplitState(Str(s), Some(separator));
      && r.List?
      && (forall i :: 0 <= i < |r.items| ==> r.items[i].Str? && !Contains(r.items[i].s, separator))
      && (r.items == [] <==> !Contains(s, separator) && Blank(Str(s)))
      && (r.items != [] ==> Implode(separator, Texts(r.items)) == s)
  {
    var pieces := Explode(separator, s);
    ExplodePieces(separator, s);
    var r := SplitState(Str(s), Some(separator));
    if r.items != [] {
      assert Texts(r.items) == pieces;
    }
  }

  /** `explode(',', 'tag1,tag2,tag3')` gives the three tags. */
  lemma {:induction false} TagsPieces(s: string)
    requires s == "tag1,tag2,tag3"
    ensures Explode(",", s) == ["tag1", "tag2", "tag3"]
  {
    var parts := ["tag1", "tag2", "tag3"];
    assert Implode([','], parts) == s;
    assert forall k :: 0 <= k < |parts| ==> ',' !in parts[k];
    ExplodeImplode(',', parts);
  }

  /** `'tag1,tag2,tag3'` split on `,` gives the three tags. */
  lemma {:induction false} SplitTagsExample(s: string)
    requires s == "tag1,tag2,tag3"
    ensures SplitState(Str(s), Some(",")) == List([Str("tag1"), Str("tag2"), Str("tag3")])
  {
    TagsPieces(s);
    var pieces := Explode(",", s);
    assert Truthy(",");
    assert |pieces| == 3;
    assert seq(|pieces|, i requires 0 <= i < |pieces| => Str(pieces[i])) == [Str("tag1"), Str("tag2"), Str("tag3")];
  }

  /** The separator "0" is falsy in PHP, so it splits nothing. */
  lemma {:induction false} ZeroSeparatorExample()
    ensures SplitState(Str("a0b"), Some("0")) == Str("a0b")
  {
  }

  /** The state before splitting: the override when one is configured, else the record's own state. */
  function RawState(schema: Schema, s: Settings, context: CellContext): Value
    requires context.record.Some?
  {
    if !IsUnset(s.stateUsing) then s.stateUsing.Evaluate(context)
    else StateFromRecord(schema, s.name, s.distinctList.Evaluate(context), context.record.value)
  }

  /** `getState()`: no record gives null; the override or the record's state, split, with blank replaced by the default. */
  function State(schema: Schema, s: Settings, context: CellContext): Value {
    if context.record.None? then Null
    else
      var split := SplitState(RawState(schema, s, context), s.separator.Evaluate(context));
      if Blank(split) then s.defaultState.Evaluate(context) else split
  }

  /**
   * No record gives null. With a record, the state is filled or else it is the default; a filled
   * split state is kept as is, and a blank one gives way to the default.
   */
  lemma {:induction false} StateSpec(schema: Schema, s: Settings, context: CellContext)
    ensures context.record.None? ==> State(schema, s, context) == Null
    ensures context.record.Some? ==>
      Filled(State(schema, s, context)) || State(schema, s, context) == s.defaultState.Evaluate(context)
    ensures context.record.Some? ==>
      var split := SplitState(RawState(schema, s, context), s.separator.Evaluate(context));
      (Filled(split) ==> State(schema, s, context) == split) &&
      (Blank(split) ==> State(schema, s, context) == s.defaultState.Evaluate(context))
  {
  }

  /**
   * With an override configured the relationship schema plays no part, and when the override,
   * the separator and the default are plain values, neither does the record.
   */
  lemma {:induction false} OverrideIgnoresRecord(schema1: Schema, schema2: Schema, s: Settings,
                                                 context1: CellContext, context2: CellContext)
    requires !IsUnset(s.stateUsing)
    ensures State(schema1, s, context1) == State(schema2, s, context1)
    ensures (s.stateUsing.Literal? && s.separator.Literal? && s.defaultState.Literal? &&
             context1.record.Some? && context2.record.Some?) ==>
      State(schema1, s, context1) == State(schema2, s, context2)
  {
  }

  /** A filled override that is not split comes out of `getState` unchanged, whatever the record holds. */
  lemma {:induction false} OverrideWins(schema: Schema, s: Settings, context: CellContext, v: Value)
    requires context.record.Some? && s.stateUsing == Literal(v) && Filled(v)
    requires !v.Str? || s.separator.Evaluate(context).None?
    ensures State(schema, s, context) == v
  {
  }

  // getLabel

  /** `->replace(['-', '_'], ' ')`. */
  function SpaceSeparators(s: string): (r: string)
    ensures |r| == |s| && forall i :: 0 <= i < |s| ==> r[i] != '-' && r[i] != '_'
  {
    seq(|s|, i requires 0 <= i < |s| => if s[i] == '-' || s[i] == '_' then ' ' else s[i])
  }

  /** The part of the name the label is made from: the last segment before the last dot. */
  function LabelSource(name: string): string {
    AfterLast(BeforeLast(name, '.'), '.')
  }

  /** The label derived from a column name: kebab-cased, separators turned into spaces, first letter upper-cased. */
  function DerivedLabel(name: string): (r: string)
    ensures forall i :: 0 <= i < |r| ==> r[i] != '-' && r[i] != '_'
  {
    var spaced := SpaceSeparators(Kebab(LabelSource(name)));
    assert forall i :: 0 <= i < |spaced| ==> spaced[i] != '-' && spaced[i] != '_';
    UcFirst(spaced)
  }

  /** `getLabel()`: the configured label, or the derived one. */
  function Label(s: Settings, context: CellContext): (r: string)
    ensures s.labelSetting.Evaluate(context).Some? ==> r == s.labelSetting.Evaluate(context).value
    ensures s.labelSetting.Evaluate(context).None? ==> r == DerivedLabel(s.name)
  {
    s.labelSetting.Evaluate(context).GetOr(DerivedLabel(s.name))
  }

  /**
   * The label is read from the segment just before the last dot: an undotted name is used
   * whole, and in `a.b` it is the last segment of `a`.
   */
  lemma {:induction false} LabelSourceSegment(a: string, b: string)
    requires '.' !in b
    ensures LabelSource(b) == b
    ensures LabelSource(a + "." + b) == AfterLast(a, '.')
  {
    LastIndexOfSplit(a, '.', b);
    assert a + "." + b == a + ['.'] + b;
    assert (a + "." + b)[..|a|] == a;
  }

  /** An undotted name with no upper-case letter and no space is labelled by spacing its separators and capitalising it. */
  lemma {:induction false} PlainNameLabel(name: string)
    requires '.' !in name
    requires forall i :: 0 <= i < |name| ==> !IsUpper(name[i]) && !IsSpace(name[i])
    ensures DerivedLabel(name) == UcFirst(SpaceSeparators(name))
  {
    LabelSourceSegment("", name);
    KebabIdentity(name);
  }

  /** The character facts about `first_name` that the label example needs. */
  lemma {:induction false} FirstNameIsPlain(name: string)
    requires name == "first_name"
    ensures '.' !in name
    ensures forall i :: 0 <= i < |name| ==> !IsUpper(name[i]) && !IsSpace(name[i])
    ensures UcFirst(SpaceSeparators(name)) == "First name"
  {
  }

  /** `first_name` is labelled `First name`. */
  lemma {:induction false} FirstNameLabelExample(name: string)
    requires name == "first_name"
    ensures DerivedLabel(name) == "First name"
  {
    FirstNameIsPlain(name);
    PlainNameLabel(name);
  }

  // applyEagerLoading

  /** What `with([$name])` adds for a dotted name: every dotted prefix, the name itself included. */
  function NestedNames(name: string): set<string> {
    var parts := Explode(".", name);
    set i | 1 <= i <= |parts| :: Implode(".", parts[..i])
  }

  lemma {:induction false} NameInNestedNames(name: string)
    ensures name in NestedNames(name)
  {
    var parts := Explode(".", name);
    assert parts[..|parts|] == parts;
  }

  /** `applyEagerLoading($query)` on the set of relation names the query already eager-loads. */
  function EagerLoads(schema: Schema, model: Cursor, name: string, loads: set<string>): set<string> {
    if !HasRelationship(schema, model, name) then loads
    else
      match RelationshipName(schema, model, name)
      case None => loads
      case Some(relationshipName) =>
        if relationshipName in loads then loads else loads + NestedNames(relationshipName)
  }

  /**
   * Eager loading never drops a load; it adds the relationship name (with its dotted
   * prefixes) exactly when the column has a relationship not loaded yet, and nothing otherwise.
   */
  lemma {:induction false} EagerLoadsSpec(schema: Schema, model: Cursor, name: string, loads: set<string>)
    ensures loads <= EagerLoads(schema, model, name, loads)
    ensures HasRelationship(schema, model, name) ==>
      RelationshipName(schema, model, name).value in EagerLoads(schema, model, name, loads)
    ensures EagerLoads(schema, model, name, loads) != loads <==>
      HasRelationship(schema, model, name) && RelationshipName(schema, model, name).value !in loads
    ensures HasRelationship(schema, model, name) ==>
      EagerLoads(schema, model, name, loads) <= loads + NestedNames(RelationshipName(schema, model, name).value)
  {
    HasRelationshipIff(schema, model, name);
    if HasRelationship(schema, model, name) {
      NameInNestedNames(RelationshipName(schema, model, name).value);
    }
  }

  /** Applying eager loading twice is the same as applying it once. */
  lemma {:induction false} EagerLoadsIdempotent(schema: Schema, model: Cursor, name: string, loads: set<string>)
    ensures EagerLoads(schema, model, name, EagerLoads(schema, model, name, loads)) == EagerLoads(schema, model, name, loads)
  {
    EagerLoadsSpec(schema, model, name, loads);
  }
}
