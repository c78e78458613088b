/** The job that closes an export run: it marks the export completed and announces it. */
module Completion {
  import opened Wrappers
  import opened Values
  import opened ExportFormats
  import opened ExportStatuses
  import opened ExportRecords
  import opened ColumnMaps

  /** `ExportCompleted`: the event fired for the export that finished. */
  datatype Event = ExportCompleted(exportRecord: Export)

  /** The events fired so far, in order. */
  class EventLog {
    var events: seq<Event>

    constructor()
      ensures events == []
    {
      events := [];
    }
  }

  class ExportCompletion {
    const exportRecord: Export
    const columnMap: ColumnMap
    const formats: seq<ExportFormat>
    const options: map<string, Value>

    constructor(exportRecord: Export, columnMap: ColumnMap, formats: seq<ExportFormat>, options: map<string, Value>)
      ensures this.exportRecord == exportRecord && this.columnMap == columnMap
      ensures this.formats == formats && this.options == options
    {
      this.exportRecord := exportRecord;
      this.columnMap := columnMap;
      this.formats := formats;
      this.options := options;
    }

    /**
     * `handle()` at time `now`: the saved export becomes Completed with `completed_at` set to now,
     * and the row is updated; an `ExportCompleted` event for this export is fired exactly when
     * the creator is authenticatable. Nothing else about the export changes.
     */
    method Handle(now: int, table: Table, log: EventLog)
      requires exportRecord.id.Some?
      modifies exportRecord, table, log
      ensures exportRecord.status == Completed && exportRecord.completedAt == Some(now)
      ensures exportRecord.id == old(exportRecord.id) && exportRecord.exporter == old(exportRecord.exporter)
      ensures exportRecord.fileDisk == old(exportRecord.fileDisk) && exportRecord.fileName == old(exportRecord.fileName)
      ensures exportRecord.totalRows == old(exportRecord.totalRows) && exportRecord.processedRows == old(exportRecord.processedRows)
      ensures exportRecord.successfulRows == old(exportRecord.successfulRows) && exportRecord.creator == old(exportRecord.creator)
      ensures table.rows == old(table.rows)[exportRecord.id.value := exportRecord.Attributes()] && table.nextId == old(table.nextId)
      ensures old(exportRecord.creator).Some? && old(exportRecord.creator).value.authenticatable ==>
        log.events == old(log.events) + [ExportCompleted(exportRecord)]
      ensures !(old(exportRecord.creator).Some? && old(exportRecord.creator).value.authenticatable) ==>
        log.events == old(log.events)
    {
      exportRecord.completedAt := Some(now);
      exportRecord.status := Completed;
      exportRecord.Save(table);
      if !(exportRecord.creator.Some? && exportRecord.creator.value.authenticatable) {
        return;
      }
      log.events := log.events + [ExportCompleted(exportRecord)];
    }
  }
}
