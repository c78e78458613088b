/**
 * `ExportManager`: the builder that configures an export and `start()`, which counts the rows,
 * checks the limits, settles the column map, creates and saves the `Export` record, clears its
 * directory, and plans the chain of jobs that will write the files.
 */
module Manager {
  import opened Wrappers
  import opened Strings
  import opened Values
  import opened Knobs
  import opened ColumnState
  import opened ColumnMaps
  import opened ExportFormats
  import opened ExportStatuses
  import opened ExportRecords
  import opened Storage
  import opened Exporting

  /** What `start()` needs to know about the query: its row count and its `limit`, if one is set. */
  datatype QuerySource = QuerySource(count: nat, limit: Option<nat>)

  /**
   * What `start()` uses of an exporter class: its name, its declared columns, and the disk,
   * file-name stem (the pluralised, kebab-cased model name) and formats it offers.
   */
  datatype ExporterClass = ExporterClass(
    name: string,
    columns: seq<Settings>,
    fileDisk: string,
    fileNameStem: string,
    formats: seq<ExportFormat>)

  /** An exporter class that overrides none of the base class's disk and format choices. */
  function BaseExporterClass(name: string, columns: seq<Settings>, configuredDisk: Option<string>, stem: string): (e: ExporterClass)
    ensures e.formats == DefaultFormats() && e.fileDisk == DefaultFileDisk(configuredDisk)
  {
    ExporterClass(name, columns, DefaultFileDisk(configuredDisk), stem, DefaultFormats())
  }

  /** `getFileName($export)` of the base exporter: the stem, a dash, and the export's key. */
  function ExporterFileName(exporter: ExporterClass, id: nat): (r: string)
    ensures StartsWith(r, exporter.fileNameStem + "-")
  {
    assert (exporter.fileNameStem + "-" + NatToString(id))[..|exporter.fileNameStem + "-"|] == exporter.fileNameStem + "-";
    exporter.fileNameStem + "-" + NatToString(id)
  }

  /** The jobs `start()` chains. */
  datatype Job = PrepareCsv(jobClass: string, chunkSize: int) | CreateXlsxFile | Completion(formats: seq<ExportFormat>)

  /** `start()`'s exceptions. */
  datatype StartError = RowLimitExceeded(maxRows: int) | NoColumnsSelected | DiskNotConfigured(disk: string)

  /** A started export: the saved record, the column map and options it was started with, and the job chain dispatched. */
  datatype Started = Started(exportRecord: Export, columnMap: ColumnMap, options: map<string, Value>, chain: seq<Job>)

  /** The number of rows to export: the records given, else the query's rows up to its limit. */
  function TotalRows(records: Option<seq<Record>>, query: QuerySource): nat {
    var fromRecords := records.Some? && |records.value| > 0;
    if fromRecords then |records.value|
    else if query.limit.Some? && query.limit.value > 0 && query.limit.value < query.count then query.limit.value
    else query.count
  }

  /**
   * A non-empty records list is counted as is; otherwise (no list, or an empty one) the query
   * is counted, never above a positive limit, and exactly when there is none.
   */
  lemma {:induction false} TotalRowsSpec(records: Option<seq<Record>>, query: QuerySource)
    ensures records.Some? && records.value != [] ==> TotalRows(records, query) == |records.value|
    ensures !(records.Some? && records.value != []) ==>
      && TotalRows(records, query) <= query.count
      && (query.limit.Some? && query.limit.value > 0 ==> TotalRows(records, query) == Min(query.count, query.limit.value))
      && (query.limit.None? || query.limit.value == 0 ==> TotalRows(records, query) == query.count)
  {
  }

  function Min(a: nat, b: nat): nat {
    if a < b then a else b
  }

  /** An unset limit never fails; a set one fails exactly when it is below the total. */
  predicate ExceedsLimit(maxRows: Option<int>, totalRows: nat) {
    maxRows.Some? && maxRows.value < totalRows
  }

  /** The context a class's own columns see when `start()` reads them: no exporter, so no record and no options. */
  const Detached: CellContext := CellContext(None, map[])

  /** Each declared column as the default map sees it: its name, whether it is enabled, its label. */
  function Offers(columns: seq<Settings>): (r: seq<Offer>)
    ensures |r| == |columns|
    ensures forall i :: 0 <= i < |columns| ==>
      r[i] == Offer(columns[i].name, columns[i].enabledByDefault.Evaluate(Detached), Label(columns[i], Detached))
  {
    seq(|columns|, i requires 0 <= i < |columns| =>
      Offer(columns[i].name, columns[i].enabledByDefault.Evaluate(Detached), Label(columns[i], Detached)))
  }

  /** The column map `start()` works with: the one given, else the default one. */
  function ColumnMapFor(given: Option<ColumnMap>, exporter: ExporterClass): ColumnMap {
    if given.Some? then given.value else DefaultColumnMap(Offers(exporter.columns))
  }

  /**
   * `Bus::chain([...])`: the batch, an XLSX build when XLSX is wanted without CSV, the
   * completion job, and an XLSX build when both are wanted.
   */
  function Chain(batch: Job, formats: seq<ExportFormat>): seq<Job> {
    var hasCsv := Csv in formats;
    var hasXlsx := Xlsx in formats;
    [batch] + (if hasXlsx && !hasCsv then [CreateXlsxFile] else []) + [Completion(formats)] +
    (if hasXlsx && hasCsv then [CreateXlsxFile] else [])
  }

  /** The positions of the jobs in a chain that satisfy `p`. */
  function Positions(chain: seq<Job>, complete: bool): set<nat> {
    set i: nat | i < |chain| && (if complete then chain[i].Completion? else chain[i] == CreateXlsxFile)
  }

  /**
   * The batch comes first and the completion job exactly once; there is one XLSX build before
   * the completion exactly when XLSX is requested without CSV, one after it exactly when both
   * are requested, and none when XLSX is not requested.
   */
  lemma {:induction false} ChainShape(jobClass: string, chunkSize: int, formats: seq<ExportFormat>)
    ensures var chain := Chain(PrepareCsv(jobClass, chunkSize), formats);
      && chain[0] == PrepareCsv(jobClass, chunkSize)
      && (exists c :: (Positions(chain, true) == {c} && chain[c] == Completion(formats)
            && (c > 1 <==> Xlsx in formats && Csv !in formats)
            && (c < |chain| - 1 <==> Xlsx in formats && Csv in formats)))
      && (Positions(chain, false) == {} <==> Xlsx !in formats)
      && |Positions(chain, false)| <= 1
  {
    var chain := Chain(PrepareCsv(jobClass, chunkSize), formats);
    var hasCsv, hasXlsx := Csv in formats, Xlsx in formats;
    if hasXlsx && !hasCsv {
      assert chain == [PrepareCsv(jobClass, chunkSize), CreateXlsxFile, Completion(formats)];
      assert Positions(chain, true) == {2};
      assert Positions(chain, false) == {1};
    } else if hasXlsx && hasCsv {
      assert chain == [PrepareCsv(jobClass, chunkSize), Completion(formats), CreateXlsxFile];
      assert Positions(chain, true) == {1};
      assert Positions(chain, false) == {2};
    } else {
      assert chain == [PrepareCsv(jobClass, chunkSize), Completion(formats)];
      assert Positions(chain, true) == {1};
      assert Positions(chain, false) == {};
    }
  }

  /** The default job class, when the manager names none. */
  const DefaultJob: string := "PrepareCsvExport"

  class ExportManager {
    var exporter: ExporterClass
    var job: Option<string>
    var chunkSize: int
    var maxRows: Option<int>
    var fileDisk: Option<string>
    /** The file-name setting; a closure receives the export, here its key. */
    var fileName: Knob<nat, Option<string>>
    var formats: Option<seq<ExportFormat>>
    var options: map<string, Value>

    /** A manager for `exporter` with every setting at its default. */
    constructor(exporter: ExporterClass)
      ensures this.exporter == exporter && job.None? && chunkSize == 100 && maxRows.None?
      ensures fileDisk.None? && fileName == Literal(None) && formats.None? && options == map[]
    {
      this.exporter := exporter;
      job := None;
      chunkSize := 100;
      maxRows := None;
      fileDisk := None;
      fileName := Literal(None);
      formats := None;
      options := map[];
    }

    /** `exporter($exporter)`. */
    method SetExporter(exporter: ExporterClass) returns (self: ExportManager)
      modifies this`exporter
      ensures self == this && this.exporter == exporter
    {
      this.exporter := exporter;
      return this;
    }

    /** `job($job)`. */
    method SetJob(job: Option<string>) returns (self: ExportManager)
      modifies this`job
      ensures self == this && this.job == job
    {
      this.job := job;
      return this;
    }

    /** `chunkSize($size)`. */
    method SetChunkSize(size: int) returns (self: ExportManager)
      modifies this`chunkSize
      ensures self == this && chunkSize == size
    {
      chunkSize := size;
      return this;
    }

    /** `maxRows($rows)`. */
    method SetMaxRows(rows: Option<int>) returns (self: ExportManager)
      modifies this`maxRows
      ensures self == this && maxRows == rows
    {
      maxRows := rows;
      return this;
    }

    /** `fileDisk($disk)`. */
    method SetFileDisk(disk: Option<string>) returns (self: ExportManager)
      modifies this`fileDisk
      ensures self == this && fileDisk == disk
    {
      fileDisk := disk;
      return this;
    }

    /** `fileName($name)`. */
    method SetFileName(name: Knob<nat, Option<string>>) returns (self: ExportManager)
      modifies this`fileName
      ensures self == this && fileName == name
    {
      fileName := name;
      return this;
    }

    /** `formats($formats)`. */
    method SetFormats(formats: Option<seq<ExportFormat>>) returns (self: ExportManager)
      modifies this`formats
      ensures self == this && this.formats == formats
    {
      this.formats := formats;
      return this;
    }

    /** `options($options)`. */
    method SetOptions(options: map<string, Value>) returns (self: ExportManager)
      modifies this`options
      ensures self == this && this.options == options
    {
      this.options := options;
      return this;
    }

    /** `getJob()`: the configured job class, else the CSV preparation job. */
    function GetJob(): (r: string)
      reads this
      ensures job.Some? ==> r == job.value
      ensures job.None? ==> r == DefaultJob
    {
      job.GetOr(DefaultJob)
    }

    /**
     * `start($query, $records, $columnMap, $creator)` at time `now`, on the `exports` table and
     * the configured disks. Too many rows or no columns fail before anything is created or saved.
     * Otherwise a new export is saved with the totals, status Processing, the manager's disk
     * over the exporter's, and a temporary name; its directory is cleared on that disk (which
     * must be configured); it is then renamed, the manager's name over the exporter's, and saved
     * again; and the chain for the requested formats, the manager's over the exporter's, is
     * dispatched.
     */
    method Start(query: QuerySource, records: Option<seq<Record>>, columnMap: Option<ColumnMap>,
                 creator: Option<Creator>, now: nat, table: Table, disks: map<string, Disk>)
      returns (r: Result<Started, StartError>)
      modifies table, set d | d in disks.Values
      ensures var total := TotalRows(records, query);
        r == Failure(RowLimitExceeded(maxRows.GetOr(total))) <==> ExceedsLimit(maxRows, total)
      ensures r == Failure(NoColumnsSelected) <==>
        !ExceedsLimit(maxRows, TotalRows(records, query)) && ColumnMapFor(columnMap, exporter) == []
      ensures r.Failure? && !r.error.DiskNotConfigured? ==>
        table.rows == old(table.rows) && table.nextId == old(table.nextId) &&
        forall d :: d in disks.Values ==> d.files == old(d.files) && d.directories == old(d.directories)
      ensures r.Failure? && r.error.DiskNotConfigured? ==>
        r.error.disk == fileDisk.GetOr(exporter.fileDisk) && r.error.disk !in disks &&
        table.nextId == old(table.nextId) + 1 &&
        table.rows == old(table.rows)[old(table.nextId) :=
          FirstSaveRow(exporter.name, r.error.disk, now, TotalRows(records, query), creator)] &&
        forall d :: d in disks.Values ==> d.files == old(d.files) && d.directories == old(d.directories)
      ensures r.Success? ==>
        var e := r.value.exportRecord;
        var diskName := fileDisk.GetOr(exporter.fileDisk);
        var id := old(table.nextId);
        && fresh(e) && e.id == Some(id)
        && e.exporter == exporter.name && e.totalRows == TotalRows(records, query)
        && e.status == Processing && e.creator == creator
        && e.fileDisk == diskName
        && e.fileName == fileName.Evaluate(id).GetOr(ExporterFileName(exporter, id))
        && table.rows == old(table.rows)[id := e.Attributes()] && table.nextId == id + 1
        && diskName in disks
        && DiskAfterPurge(disks, diskName, "exports/" + NatToString(id))
        && r.value.columnMap == ColumnMapFor(columnMap, exporter) && r.value.columnMap != [] && r.value.options == options
        && r.value.chain == Chain(PrepareCsv(GetJob(), chunkSize), formats.GetOr(exporter.formats))
    {
      var totalRows := CountRows(records, query);
      var limit := maxRows.GetOr(totalRows);
      if limit < totalRows {
        return Failure(RowLimitExceeded(limit));
      }
      var map_ := if columnMap.Some? then columnMap.value else DefaultColumnMap(Offers(exporter.columns));
      if map_ == [] {
        return Failure(NoColumnsSelected);
      }
      var created := CreateExport(exporter, totalRows, creator, fileDisk.GetOr(exporter.fileDisk), fileName, now, table, disks);
      if created.Failure? {
        return Failure(created.error);
      }
      var chosen := formats.GetOr(exporter.formats);
      r := Success(Started(created.value, map_, options, Chain(PrepareCsv(GetJob(), chunkSize), chosen)));
    }
  }

  /** The row count `start()` computes, step by step. */
  method CountRows(records: Option<seq<Record>>, query: QuerySource) returns (totalRows: nat)
    ensures totalRows == TotalRows(records, query)
  {
    var fromRecords := records.Some? && |records.value| > 0;
    totalRows := if fromRecords then |records.value| else query.count;
    if !fromRecords && query.limit.Some? && query.limit.value > 0 {
      totalRows := if totalRows < query.limit.value then totalRows else query.limit.value;
    }
  }

  /** The row the first save of `start()` writes: the totals, status Processing and the temporary name. */
  function FirstSaveRow(exporterName: string, diskName: string, now: nat, totalRows: nat, creator: Option<Creator>): Row {
    Row(exporterName, diskName, "temp-" + NatToString(now), totalRows, 0, 0, Processing, None, creator)
  }

  /**
   * After `deleteFileDirectory()` on `disks[diskName]`: that disk has `dir` purged when the
   * directory existed and is as it was otherwise, and every other disk is as it was.
   */
  twostate predicate DiskAfterPurge(disks: map<string, Disk>, diskName: string, dir: string)
    requires diskName in disks
    reads set d | d in disks.Values
  {
    var disk := disks[diskName];
    && (old(disk.DirectoryExists(dir)) ==>
          disk.files == PurgeFiles(old(disk.files), dir) &&
          disk.directories == PurgeDirectories(old(disk.directories), dir))
    && (!old(disk.DirectoryExists(dir)) ==>
          disk.files == old(disk.files) && disk.directories == old(disk.directories))
    && forall d :: d in disks.Values && d != disk ==> d.files == old(d.files) && d.directories == old(d.directories)
  }

  /**
   * The part of `start()` that creates the export: a new record with the given totals, status
   * Processing and a temporary name, saved; its directory cleared on the named disk; then
   * renamed and saved again. A disk that is not configured fails after the first save.
   */
  method CreateExport(exporter: ExporterClass, totalRows: nat, creator: Option<Creator>, diskName: string,
                      fileName: Knob<nat, Option<string>>, now: nat, table: Table, disks: map<string, Disk>)
    returns (r: Result<Export, StartError>)
    modifies table, set d | d in disks.Values
    ensures r.Failure? ==>
      r == Failure(DiskNotConfigured(diskName)) && diskName !in disks &&
      table.nextId == old(table.nextId) + 1 &&
      table.rows == old(table.rows)[old(table.nextId) := FirstSaveRow(exporter.name, diskName, now, totalRows, creator)] &&
      forall d :: d in disks.Values ==> d.files == old(d.files) && d.directories == old(d.directories)
    ensures r.Success? ==>
      var e := r.value;
      var id := old(table.nextId);
      && fresh(e) && e.id == Some(id)
      && e.exporter == exporter.name && e.totalRows == totalRows
      && e.status == Processing && e.creator == creator && e.fileDisk == diskName
      && e.fileName == fileName.Evaluate(id).GetOr(ExporterFileName(exporter, id))
      && table.rows == old(table.rows)[id := e.Attributes()] && table.nextId == id + 1
      && diskName in disks
      && DiskAfterPurge(disks, diskName, "exports/" + NatToString(id))
  {
    var rec := NewExport(exporter.name, totalRows, creator, diskName, "temp-" + NatToString(now), table);
    if diskName !in disks {
      return Failure(DiskNotConfigured(diskName));
    }
    var id := rec.id.value;
    var disk := disks[diskName];
    assert rec.FileDirectory() == "exports/" + NatToString(id);
    rec.DeleteFileDirectory(disk);
    rec.fileName := fileName.Evaluate(id).GetOr(ExporterFileName(exporter, id));
    rec.Save(table);
    r := Success(rec);
  }

  /** `new Export`, filled in and saved for the first time, under a fresh key. */
  method NewExport(exporterName: string, totalRows: nat, creator: Option<Creator>, diskName: string,
                   tempName: string, table: Table)
    returns (rec: Export)
    modifies table
    ensures fresh(rec) && rec.id == Some(old(table.nextId)) && table.nextId == old(table.nextId) + 1
    ensures rec.exporter == exporterName && rec.totalRows == totalRows && rec.status == Processing
    ensures rec.creator == creator && rec.fileDisk == diskName && rec.fileName == tempName
    ensures rec.Attributes() == Row(exporterName, diskName, tempName, totalRows, 0, 0, Processing, None, creator)
    ensures table.rows == old(table.rows)[rec.id.value := rec.Attributes()]
  {
    rec := new Export();
    if creator.Some? {
      rec.creator := creator;
    }
    rec.exporter := exporterName;
    rec.totalRows := totalRows;
    rec.status := Processing;
    rec.fileDisk := diskName;
    rec.fileName := tempName;
    rec.Save(table);
  }
}
