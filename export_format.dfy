/** The export file formats, their tokens, extensions, MIME types and downloaders. */
module ExportFormats {
  import opened Wrappers

  /** The downloader a format is served by. */
  datatype DownloaderKind = CsvDownloader | XlsxDownloader

  /** A backed enum: each case carries its string token. */
  datatype ExportFormat = Csv | Xlsx {
    /** The enum's backing value. */
    function Value(): string {
      match this
      case Csv => "csv"
      case Xlsx => "xlsx"
    }

    /** `getExtension()`: the file extension is the token itself, so it parses back to the format. */
    function Extension(): (r: string)
      ensures From(r) == Some(this)
    {
      Value()
    }

    /** `getMimeType()`. */
    function MimeType(): (r: string)
      ensures this == Csv ==> r == "text/csv"
      ensures this == Xlsx ==> r == "application/vnd.openxmlformats-officedocument.spreadsheetml.sheet"
    {
      match this
      case Csv => "text/csv"
      case Xlsx => "application/vnd.openxmlformats-officedocument.spreadsheetml.sheet"
    }

    /** `getDownloader()`: the downloader class serving this format. */
    function Downloader(): (r: DownloaderKind)
      ensures r == CsvDownloader <==> this == Csv
    {
      match this
      case Csv => CsvDownloader
      case Xlsx => XlsxDownloader
    }
  }

  /** `ExportFormat::tryFrom($value)`: the case whose token is `value`, if any. */
  function From(value: string): (r: Option<ExportFormat>)
    ensures r.Some? ==> r.value.Value() == value
  {
    if value == "csv" then Some(Csv)
    else if value == "xlsx" then Some(Xlsx)
    else None
  }

  /** Parsing is total on the tokens and inverts `Value` in both directions. */
  lemma {:induction false} FromValueRoundTrip(f: ExportFormat, value: string)
    ensures From(f.Value()) == Some(f)
    ensures From(value) == Some(f) <==> f.Value() == value
  {
  }

  /** There are exactly the two formats, with distinct tokens, MIME types and downloaders. */
  lemma {:induction false} FormatsDistinct(f: ExportFormat, g: ExportFormat)
    ensures f == Csv || f == Xlsx
    ensures f != g ==> f.Value() != g.Value() && f.MimeType() != g.MimeType() && f.Downloader() != g.Downloader()
  {
  }
}
