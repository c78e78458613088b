/**
 * The two objects that turn a record into a row: `ExportColumn`, which holds one column's
 * settings and resolves its cell, and `Exporter`, which owns the columns and produces a row per
 * record. They live in one module because each holds a reference to the other.
 */
module Exporting {
  import opened Wrappers
  import opened Strings
  import opened Values
  import opened Knobs
  import opened CellState
  import opened ColumnState
  import opened ColumnMaps
  import opened ExportFormats
  import opened ExportRecords

  /** `make()`'s `InvalidArgumentException`: a column needs a name. */
  datatype MakeError = BlankName

  /** The settings a column starts with: no label, enabled, no default, no override, no separator, not distinct. */
  function InitialSettings(name: string): Settings {
    Settings(name, Literal(None), Literal(true), Literal(Null), Literal(Null), Literal(None), Literal(false))
  }

  /** `make($name)` refuses a missing name (no subclass names a default one) and a blank one. */
  predicate RejectsName(name: Option<string>) {
    name.None? || Blank(Str(name.value))
  }

  /** `make('')` throws, and so do a missing and a whitespace-only name; `0` is a valid name. */
  lemma {:induction false} RejectedNames()
    ensures RejectsName(None) && RejectsName(Some("")) && RejectsName(Some(" \t"))
    ensures !RejectsName(Some("0")) && !RejectsName(Some("name"))
  {
    BlankString("");
    BlankString(" \t");
    BlankString("0");
    BlankString("name");
  }

  class ExportColumn {
    var name: string
    var labelSetting: Knob<CellContext, Option<string>>
    var exporter: Exporter?
    var enabledByDefault: Knob<CellContext, bool>
    var defaultState: Knob<CellContext, Value>
    var stateUsing: Knob<CellContext, Value>
    var separator: Knob<CellContext, Option<string>>
    var distinctList: Knob<CellContext, bool>

    /** `new ExportColumn($name)`. */
    constructor(name: string)
      ensures Config() == InitialSettings(name) && exporter == null
    {
      this.name := name;
      labelSetting := Literal(None);
      exporter := null;
      enabledByDefault := Literal(true);
      defaultState := Literal(Null);
      stateUsing := Literal(Null);
      separator := Literal(None);
      distinctList := Literal(false);
    }

    /** `ExportColumn::make($name)`: a fresh column with that name, or the error for a blank name. */
    static method Make(name: Option<string>) returns (r: Result<ExportColumn, MakeError>)
      ensures r.Failure? <==> RejectsName(name)
      ensures r.Success? ==> fresh(r.value) && r.value.Config() == InitialSettings(name.value) && r.value.exporter == null
    {
      if name.None? || Blank(Str(name.value)) {
        return Failure(BlankName);
      }
      var column := new ExportColumn(name.value);
      return Success(column);
    }

    /** The column's configuration as a value. */
    function Config(): Settings
      reads this
    {
      Settings(name, labelSetting, enabledByDefault, defaultState, stateUsing, separator, distinctList)
    }

    /** What the column's closures receive: the exporter's current record and its options, if it has an exporter. */
    function Context(): CellContext
      reads this, exporter
    {
      if exporter == null then CellContext(None, map[]) else CellContext(exporter.record, exporter.options)
    }

    /** `name($name)`. */
    method SetName(name: string) returns (self: ExportColumn)
      modifies this`name
      ensures self == this && Config() == old(Config()).(name := name)
    {
      this.name := name;
      return this;
    }

    /** `label($label)`. */
    method SetLabel(newLabel: Knob<CellContext, Option<string>>) returns (self: ExportColumn)
      modifies this`labelSetting
      ensures self == this && Config() == old(Config()).(labelSetting := newLabel)
    {
      labelSetting := newLabel;
      return this;
    }

    /** `exporter($exporter)`. */
    method SetExporter(exporter: Exporter?) returns (self: ExportColumn)
      modifies this`exporter
      ensures self == this && this.exporter == exporter
    {
      this.exporter := exporter;
      return this;
    }

    /** `enabledByDefault($condition)`. */
    method SetEnabledByDefault(condition: Knob<CellContext, bool>) returns (self: ExportColumn)
      modifies this`enabledByDefault
      ensures self == this && Config() == old(Config()).(enabledByDefault := condition)
    {
      enabledByDefault := condition;
      return this;
    }

    /** `distinctList($condition)`; called without an argument it turns the setting on. */
    method SetDistinctList(condition: Knob<CellContext, bool> := Literal(true)) returns (self: ExportColumn)
      modifies this`distinctList
      ensures self == this && Config() == old(Config()).(distinctList := condition)
    {
      distinctList := condition;
      return this;
    }

    /** `getStateUsing($callback)`, and its alias `state($state)`. */
    method SetStateUsing(callback: Knob<CellContext, Value>) returns (self: ExportColumn)
      modifies this`stateUsing
      ensures self == this && Config() == old(Config()).(stateUsing := callback)
    {
      stateUsing := callback;
      return this;
    }

    /** `default($state)`. */
    method SetDefault(state: Knob<CellContext, Value>) returns (self: ExportColumn)
      modifies this`defaultState
      ensures self == this && Config() == old(Config()).(defaultState := state)
    {
      defaultState := state;
      return this;
    }

    /** `separator($separator)`; called without an argument it splits on a comma. */
    method SetSeparator(separator: Knob<CellContext, Option<string>> := Literal(Some(","))) returns (self: ExportColumn)
      modifies this`separator
      ensures self == this && Config() == old(Config()).(separator := separator)
    {
      this.separator := separator;
      return this;
    }

    /** `getStateFromRecord($record)`: through the relationship when the name has one, else `data_get`. */
    method GetStateFromRecord(schema: Schema, record: Record) returns (state: Value)
      ensures state == StateFromRecord(schema, name, distinctList.Evaluate(Context()), record)
    {
      var c := RootCursor(record);
      var relationship := GetRelationship(schema, c, name, None);
      if relationship.Some? {
        var relationshipAttribute := GetFullAttributeName(schema, c, name);
        var results := GetRelationshipResults(schema, record, name, None);
        var kept := DropBlank(Pluck(results, relationshipAttribute));
        var values := if distinctList.Evaluate(Context()) then Unique(kept) else kept;
        if |values| == 0 {
          return Null;
        }
        if |values| < 2 {
          var multiple := HasMultipleRelationship(schema, record, name);
          if !multiple {
            return values[0];
          }
        }
        return List(values);
      }
      return DataGet(record, name);
    }

    /**
     * `getState()`: null without a current record; else the override or the record's state,
     * split on a truthy separator when it is a string, and replaced by the default when blank.
     */
    method GetState(schema: Schema) returns (state: Value)
      ensures state == State(schema, Config(), Context())
    {
      var context := Context();
      if context.record.None? {
        return Null;
      }
      var record := context.record.value;
      if !IsUnset(stateUsing) {
        state := stateUsing.Evaluate(context);
      } else {
        state := GetStateFromRecord(schema, record);
      }
      var separatorValue := separator.Evaluate(context);
      if state.Str? && separatorValue.Some? && Truthy(separatorValue.value) {
        var pieces := Explode(separatorValue.value, state.s);
        if |pieces| == 1 && Blank(Str(pieces[0])) {
          state := List([]);
        } else {
          state := List(seq(|pieces|, i requires 0 <= i < |pieces| => Str(pieces[i])));
        }
      }
      if Blank(state) {
        state := defaultState.Evaluate(context);
      }
    }
  }

  /** Each column paired with its name, in declaration order. */
  function Named(columns: seq<ExportColumn>): (r: seq<(string, ExportColumn)>)
    reads set c | c in columns
    ensures |r| == |columns| && forall i :: 0 <= i < |columns| ==> r[i] == (columns[i].name, columns[i])
  {
    seq(|columns|, i requires 0 <= i < |columns| reads set c | c in columns => (columns[i].name, columns[i]))
  }

  /** The `array_reduce` of `getCachedColumns`: each column stored under its name in turn. */
  function IndexByName(named: seq<(string, ExportColumn)>): map<string, ExportColumn> {
    if named == [] then map[]
    else
      var last := named[|named| - 1];
      IndexByName(named[..|named| - 1])[last.0 := last.1]
  }

  /**
   * The index holds exactly the declared names, and under each name the last column declared
   * with it: a later declaration replaces an earlier one.
   */
  lemma {:induction false} IndexByNameSpec(named: seq<(string, ExportColumn)>)
    ensures forall k :: k in IndexByName(named) <==> exists i :: 0 <= i < |named| && named[i].0 == k
    ensures forall k :: k in IndexByName(named) ==>
      exists i :: (0 <= i < |named| && named[i] == (k, IndexByName(named)[k]) &&
        forall j :: i < j < |named| ==> named[j].0 != k)
  {
    if named != [] {
      var init := named[..|named| - 1];
      var last := named[|named| - 1];
      IndexByNameSpec(init);
      var m := IndexByName(named);
      assert forall i :: 0 <= i < |init| ==> init[i] == named[i];
      forall k | k in m
        ensures exists i :: (0 <= i < |named| && named[i] == (k, m[k]) && forall j :: i < j < |named| ==> named[j].0 != k)
      {
        if k == last.0 {
          assert named[|named| - 1] == (k, m[k]);
        } else {
          var i :| 0 <= i < |init| && init[i] == (k, IndexByName(init)[k]) && forall j :: i < j < |init| ==> init[j].0 != k;
          assert named[i] == (k, m[k]);
        }
      }
    }
  }

  /** Every declared name is a key of the index. */
  lemma {:induction false} IndexByNameHas(named: seq<(string, ExportColumn)>, i: nat)
    requires i < |named|
    ensures named[i].0 in IndexByName(named)
  {
    if i < |named| - 1 {
      IndexByNameHas(named[..|named| - 1], i);
    }
  }

  /** `getFormats()` of the base exporter: `[Csv, Xlsx]`. */
  function DefaultFormats(): (r: seq<ExportFormat>)
    ensures |r| == 2 && r[0] == Csv && r[1] == Xlsx
  {
    [Csv, Xlsx]
  }

  /** `getCsvDelimiter()`. */
  const CsvDelimiter: string := ","

  /** `getFileDisk()` of the base class: the `exports.file_disk` setting, `local` when it is not set. */
  function DefaultFileDisk(configured: Option<string>): (r: string)
    ensures configured.Some? ==> r == configured.value
    ensures configured.None? ==> r == "local"
  {
    configured.GetOr("local")
  }

  class Exporter {
    const exportRecord: Export
    const columnMap: ColumnMap
    const options: map<string, Value>
    /** What `static::getColumns()` returns. */
    const declared: seq<ExportColumn>
    var record: Option<Record>
    var cachedColumns: Option<map<string, ExportColumn>>

    constructor(exportRecord: Export, columnMap: ColumnMap, options: map<string, Value>, declared: seq<ExportColumn>)
      ensures this.exportRecord == exportRecord && this.columnMap == columnMap
      ensures this.options == options && this.declared == declared
      ensures record.None? && cachedColumns.None?
    {
      this.exportRecord := exportRecord;
      this.columnMap := columnMap;
      this.options := options;
      this.declared := declared;
      record := None;
      cachedColumns := None;
    }

    /** Once the columns are cached, the cache indexes the declared columns by name and each points back here. */
    predicate Valid()
      reads this, set c | c in declared
    {
      cachedColumns.Some? ==>
        cachedColumns.value == IndexByName(Named(declared)) && forall c :: c in declared ==> c.exporter == this
    }

    /** `getOptions()`. */
    function GetOptions(): (r: map<string, Value>)
      ensures r == options
    {
      options
    }

    /**
     * `getCachedColumns()`: computed once, by pointing every declared column at this exporter and
     * indexing them by name; later calls return the cache and change nothing.
     */
    method GetCachedColumns() returns (columns: map<string, ExportColumn>)
      requires Valid()
      modifies this`cachedColumns, declared
      ensures Valid() && cachedColumns == Some(columns)
      ensures columns == IndexByName(Named(declared))
      ensures forall c :: c in declared ==> c.Config() == old(c.Config()) && c.exporter == this
      ensures old(cachedColumns).Some? ==> columns == old(cachedColumns).value
    {
      if cachedColumns.Some? {
        return cachedColumns.value;
      }
      columns := map[];
      var i := 0;
      while i < |declared|
        invariant 0 <= i <= |declared|
        invariant cachedColumns.None?
        invariant columns == IndexByName(Named(declared)[..i])
        invariant forall c :: c in declared ==> c.Config() == old(c.Config())
        invariant forall j :: 0 <= j < i ==> declared[j].exporter == this
      {
        var column := declared[i];
        ghost var before := Named(declared);
        var self := column.SetExporter(this);
        assert Named(declared) == before;
        assert Named(declared)[..i + 1][..i] == Named(declared)[..i];
        columns := columns[column.name := column];
        i := i + 1;
      }
      assert Named(declared)[..i] == Named(declared);
      cachedColumns := Some(columns);
    }

    /**
     * `__invoke($record)`: makes `record` the current record, then emits one cell per column-map
     * key, in key order: the formatted state of the column cached under that key.
     */
    method Invoke(rec: Record, format: (Settings, CellContext) -> Value) returns (row: seq<Value>)
      requires Valid()
      requires forall i :: 0 <= i < |columnMap| ==> exists j :: 0 <= j < |declared| && declared[j].name == columnMap[i].0
      modifies this`record, this`cachedColumns, declared
      ensures Valid() && record == Some(rec) && cachedColumns == Some(IndexByName(Named(declared)))
      ensures forall c :: c in declared ==> c.Config() == old(c.Config()) && c.Context() == CellContext(Some(rec), options)
      ensures |row| == |columnMap|
      ensures forall i :: 0 <= i < |row| ==>
        columnMap[i].0 in cachedColumns.value &&
        row[i] == format(cachedColumns.value[columnMap[i].0].Config(), CellContext(Some(rec), options))
    {
      record := Some(rec);
      var columns := GetCachedColumns();
      forall j | 0 <= j < |declared| ensures declared[j].name == old(declared[j].name) {
        assert declared[j] in declared;
      }
      assert forall i :: 0 <= i < |columnMap| ==> exists j :: 0 <= j < |declared| && declared[j].name == columnMap[i].0;
      forall i | 0 <= i < |columnMap| ensures columnMap[i].0 in columns {
        var j :| 0 <= j < |declared| && declared[j].name == columnMap[i].0;
        IndexByNameHas(Named(declared), j);
      }
      row := Cells(columns, Keys(columnMap), CellContext(Some(rec), options), format);
    }
  }

  /** The `foreach` of `__invoke`: the formatted state of the column under each key, in key order. */
  method Cells(columns: map<string, ExportColumn>, keys: seq<string>, context: CellContext,
               format: (Settings, CellContext) -> Value) returns (row: seq<Value>)
    requires forall k :: k in keys ==> k in columns
    ensures |row| == |keys| && forall i :: 0 <= i < |keys| ==> row[i] == format(columns[keys[i]].Config(), context)
  {
    row := [];
    var i := 0;
    while i < |keys|
      invariant 0 <= i <= |keys| && |row| == i
      invariant forall k :: 0 <= k < i ==> row[k] == format(columns[keys[k]].Config(), context)
    {
      row := row + [format(columns[keys[i]].Config(), context)];
      i := i + 1;
    }
  }
}
