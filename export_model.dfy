/**
 * The `Export` Eloquent model: one export run's record, its row counters and progress, the
 * storage directory its files live in, and the table it is saved to.
 */
module ExportRecords {
  import opened Wrappers
  import opened Strings
  import opened ExportStatuses
  import opened Storage

  /** The export's creator: the morph key and class, and whether that class is `Authenticatable`. */
  datatype Creator = Creator(id: int, typeName: string, authenticatable: bool)

  /** The columns of one saved `exports` row. */
  datatype Row = Row(
    exporter: string,
    fileDisk: string,
    fileName: string,
    totalRows: int,
    processedRows: int,
    successfulRows: int,
    status: ExportStatus,
    completedAt: Option<int>,
    creator: Option<Creator>)

  /** The `exports` table: its saved rows by primary key, and the next auto-increment key. */
  class Table {
    var rows: map<nat, Row>
    var nextId: nat

    constructor()
      ensures rows == map[] && nextId == 1
    {
      rows := map[];
      nextId := 1;
    }

    /** Every saved key was handed out before. */
    predicate Valid()
      reads this
    {
      forall k :: k in rows ==> k < nextId
    }
  }

  class Export {
    var id: Option<nat>
    var exporter: string
    var fileDisk: string
    var fileName: string
    var totalRows: int
    var processedRows: int
    var successfulRows: int
    var status: ExportStatus
    var completedAt: Option<int>
    var creator: Option<Creator>

    /** `app(Export::class)`: a fresh, unsaved model. */
    constructor()
      ensures id.None? && creator.None? && completedAt.None?
      ensures exporter == "" && fileDisk == "" && fileName == ""
      ensures totalRows == 0 && processedRows == 0 && successfulRows == 0 && status == Pending
    {
      id := None;
      exporter := "";
      fileDisk := "";
      fileName := "";
      totalRows := 0;
      processedRows := 0;
      successfulRows := 0;
      status := Pending;
      completedAt := None;
      creator := None;
    }

    /** The model's attributes as a table row. */
    function Attributes(): Row
      reads this
    {
      Row(exporter, fileDisk, fileName, totalRows, processedRows, successfulRows, status, completedAt, creator)
    }

    /** `save()`: the first save inserts the row under a new key, a later one updates it. */
    method Save(table: Table)
      modifies this`id, table
      ensures old(id).Some? ==> id == old(id) && table.nextId == old(table.nextId)
      ensures old(id).None? ==> id == Some(old(table.nextId)) && table.nextId == old(table.nextId) + 1
      ensures table.rows == old(table.rows)[id.value := Attributes()]
      ensures old(table.Valid()) && (old(id).Some? ==> old(id).value < old(table.nextId)) ==> table.Valid()
    {
      if id.None? {
        id := Some(table.nextId);
        table.nextId := table.nextId + 1;
      }
      table.rows := table.rows[id.value := Attributes()];
    }

    /** `getKey()` as PHP interpolates it into a string: the decimal key, or nothing before the first save. */
    function Key(): (r: string)
      reads this
      ensures id.Some? ==> r == NatToString(id.value)
      ensures id.None? ==> r == ""
    {
      if id.Some? then NatToString(id.value) else ""
    }

    /** `getFailedRowsCount()`: the rows not exported successfully. */
    function FailedRowsCount(): (r: int)
      reads this
      ensures r + successfulRows == totalRows
    {
      totalRows - successfulRows
    }

    /**
     * `progressPercentage()`, before rounding: zero for an empty export, otherwise the processed
     * share of the total, in percent.
     */
    function ProgressPercentage(): (r: real)
      reads this
      ensures totalRows <= 0 ==> r == 0.0
      ensures totalRows > 0 ==> r * (totalRows as real) == (processedRows as real) * 100.0
    {
      if totalRows <= 0 then 0.0 else (processedRows as real) / (totalRows as real) * 100.0
    }

    /** `getFileDirectory()`: `exports/` followed by the key. */
    function FileDirectory(): (r: string)
      reads this
      ensures StartsWith(r, "exports/") && r[|"exports/"|..] == Key()
    {
      "exports" + Separator + Key()
    }

    /** `deleteFileDirectory()` on the export's disk: purge the directory when it exists, else change nothing. */
    method DeleteFileDirectory(disk: Disk)
      modifies disk
      ensures old(disk.DirectoryExists(FileDirectory())) ==>
        disk.files == PurgeFiles(old(disk.files), FileDirectory()) &&
        disk.directories == PurgeDirectories(old(disk.directories), FileDirectory())
      ensures !old(disk.DirectoryExists(FileDirectory())) ==>
        disk.files == old(disk.files) && disk.directories == old(disk.directories)
      ensures old(disk.Valid()) ==> disk.Valid() && disk.files == PurgeFiles(old(disk.files), FileDirectory())
    {
      var directory := FileDirectory();
      if disk.DirectoryExists(directory) {
        disk.DeleteDirectory(directory);
      } else if disk.Valid() {
        AbsentDirectoryHoldsNothing(disk.files, disk.directories, directory);
      }
    }
  }

  /**
   * The percentage is not clamped: with a positive total it lies between 0 and 100 exactly when
   * the processed count lies between 0 and the total, and it exceeds 100 exactly when more rows
   * were processed than the total.
   */
  lemma {:induction false} ProgressBounds(e: Export)
    requires e.totalRows > 0
    ensures 0.0 <= e.ProgressPercentage() <= 100.0 <==> 0 <= e.processedRows <= e.totalRows
    ensures e.ProgressPercentage() > 100.0 <==> e.processedRows > e.totalRows
    ensures e.ProgressPercentage() == 100.0 <==> e.processedRows == e.totalRows
  {
    var t := e.totalRows as real;
    var r := e.ProgressPercentage();
    assert r * t == (e.processedRows as real) * 100.0;
  }

  /** `x/` and `y/` both start `q`, and neither `x` nor `y` holds a `/`: then `x == y`. */
  lemma {:induction false} SlashFreePrefixes(x: string, y: string, q: string)
    requires '/' !in x && '/' !in y
    requires StartsWith(q, x + "/") && StartsWith(q, y + "/")
    ensures x == y
  {
    assert q[|x|] == '/' && q[|y|] == '/';
    if |x| == |y| {
      assert x == (x + "/")[..|x|] == q[..|x|] == (y + "/")[..|y|] == y;
    }
  }

  /**
   * Saved exports with different keys have directories with no path in common, so deleting
   * one export's directory never touches another's files.
   */
  lemma {:induction false} DirectoriesDisjoint(a: Export, b: Export, p: string)
    requires a.id.Some? && b.id.Some? && a.id != b.id
    ensures a.FileDirectory() != b.FileDirectory()
    ensures Under(a.FileDirectory(), p) ==> !Under(b.FileDirectory(), p)
  {
    var x, y := a.Key(), b.Key();
    assert '/' !in x && '/' !in y;
    if x == y {
      NatToStringInjective(a.id.value, b.id.value);
    }
    assert a.FileDirectory() == "exports/" + x;
    assert b.FileDirectory() == "exports/" + y;
    if Under(a.FileDirectory(), p) && Under(b.FileDirectory(), p) {
      var q := p[|"exports/"|..];
      assert "exports/" + x + "/" == "exports/" + (x + "/");
      assert "exports/" + y + "/" == "exports/" + (y + "/");
      StartsWithConcat(p, "exports/", x + "/");
      StartsWithConcat(p, "exports/", y + "/");
      SlashFreePrefixes(x, y, q);
      assert false;
    }
  }
}
