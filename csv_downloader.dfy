/**
 * Serving a finished export: the CSV downloader, which streams the header file followed by
 * every CSV shard in the export's directory, and `Export::download`, which picks the
 * downloader from a format token.
 */
module Downloads {
  import opened Wrappers
  import opened Strings
  import opened Storage
  import opened ExportFormats
  import opened ExportRecords

  /** A streamed download: the name the browser saves it under, its Content-Type and its body. */
  datatype Response = Response(fileName: string, contentType: string, body: string)

  /** What `download()` produces: a streamed CSV, or the export handed to another downloader. */
  datatype Download = Streamed(response: Response) | HandedTo(downloader: DownloaderKind)

  /**
   * `abort(404)`, the `ValueError` of `ExportFormat::from` on an unknown token, and the
   * exception `Storage::disk` throws for a disk that is not configured.
   */
  datatype DownloadError = NotFound | UnknownFormat(token: string) | DiskNotConfigured(disk: string)

  /** A listed file the body includes: it ends in `.csv` but not in `headers.csv`. */
  predicate IsShard(file: string) {
    !EndsWith(file, "headers.csv") && EndsWith(file, ".csv")
  }

  /** The path of the header file in directory `dir`. */
  function HeadersPath(dir: string): string {
    dir + Separator + "headers.csv"
  }

  /** What `$disk->get($path)` echoes: the file's contents, nothing for a missing file. */
  function Content(files: map<string, string>, path: string): string {
    if path in files then files[path] else ""
  }

  /** The contents of the listed shards, in listing order. */
  function Shards(files: map<string, string>, listing: seq<string>): string {
    if listing == [] then ""
    else
      var last := listing[|listing| - 1];
      Shards(files, listing[..|listing| - 1]) + (if IsShard(last) then Content(files, last) else "")
  }

  /** The streamed body for a directory listing: the headers, then the shards. */
  function CsvBody(files: map<string, string>, dir: string, listing: seq<string>): string {
    Content(files, HeadersPath(dir)) + Shards(files, listing)
  }

  /** The shards of a listing, in order: the reference for what the body concatenates. */
  function ShardFiles(listing: seq<string>): (r: seq<string>)
    ensures forall f :: f in r <==> f in listing && IsShard(f)
  {
    if listing == [] then []
    else
      var last := listing[|listing| - 1];
      var init := listing[..|listing| - 1];
      assert listing == init + [last];
      ShardFiles(init) + (if IsShard(last) then [last] else [])
  }

  /** The contents of the given files, one after the other. */
  function Concat(files: map<string, string>, paths: seq<string>): string {
    if paths == [] then "" else Content(files, paths[0]) + Concat(files, paths[1..])
  }

  lemma {:induction false} ConcatAppend(files: map<string, string>, a: seq<string>, b: seq<string>)
    ensures Concat(files, a + b) == Concat(files, a) + Concat(files, b)
  {
    if a != [] {
      assert (a + b)[1..] == a[1..] + b;
      ConcatAppend(files, a[1..], b);
    } else {
      assert a + b == b;
    }
  }

  /** The body after the headers is exactly the listed shards' contents concatenated in listing order. */
  lemma {:induction false} ShardsAreFilteredFiles(files: map<string, string>, listing: seq<string>)
    ensures Shards(files, listing) == Concat(files, ShardFiles(listing))
  {
    if listing != [] {
      var last := listing[|listing| - 1];
      var init := listing[..|listing| - 1];
      ShardsAreFilteredFiles(files, init);
      ConcatAppend(files, ShardFiles(init), if IsShard(last) then [last] else []);
    }
  }

  /** The body of a concatenated listing is the bodies of the parts, concatenated. */
  lemma {:induction false} ShardsAppend(files: map<string, string>, a: seq<string>, b: seq<string>)
    ensures Shards(files, a + b) == Shards(files, a) + Shards(files, b)
    decreases |b|
  {
    if b != [] {
      var init := b[..|b| - 1];
      assert (a + b)[..|a + b| - 1] == a + init;
      assert (a + b)[|a + b| - 1] == b[|b| - 1];
      ShardsAppend(files, a, init);
    } else {
      assert a + b == a;
    }
  }

  /**
   * Files that are not shards add nothing: a non-CSV file, or the header file itself, can be
   * dropped from the listing without changing the body; so the headers appear only once.
   */
  lemma {:induction false} SkippedFilesAddNothing(files: map<string, string>, a: seq<string>, f: string, b: seq<string>, dir: string)
    requires !EndsWith(f, ".csv") || f == HeadersPath(dir)
    ensures !IsShard(f)
    ensures Shards(files, a + [f] + b) == Shards(files, a + b)
  {
    if f == HeadersPath(dir) {
      var h := "headers.csv";
      assert f == dir + Separator + h;
      assert f[|f| - |h|..] == h;
    }
    ShardsAppend(files, a + [f], b);
    ShardsAppend(files, a, [f]);
    ShardsAppend(files, a, b);
    assert Shards(files, [f]) == Shards(files, []) + "";
  }

  class CsvDownloader {
    constructor()
    {
    }

    /**
     * `__invoke($export)` on export `record`, with `disks` the configured disks: the export's
     * disk `Storage::disk($export->file_disk)` must be configured; a directory that does not exist
     * on it gives not-found; otherwise the download `{file_name}.csv` of type `text/csv`, whose
     * body is the header file followed by the shards of the directory listing `listing` (each file
     * directly in the directory once, in the backend's order; it is listed only when it exists).
     */
    method Invoke(record: Export, disks: map<string, Disk>) returns (r: Result<Response, DownloadError>, ghost listing: seq<string>)
      ensures r == Failure(DiskNotConfigured(record.fileDisk)) <==> record.fileDisk !in disks
      ensures record.fileDisk in disks ==>
        var disk := disks[record.fileDisk];
        && (r == Failure(NotFound) <==> !disk.Exists(record.FileDirectory()))
        && (r.Failure? ==> r.error == NotFound)
        && (r.Success? ==> forall p :: p in listing <==> p in disk.DirectFiles(record.FileDirectory()))
        && (r.Success? ==> forall i, j :: 0 <= i < j < |listing| ==> listing[i] != listing[j])
        && (r.Success? ==> r.value == Response(record.fileName + ".csv", "text/csv",
              CsvBody(disk.files, record.FileDirectory(), listing)))
    {
      listing := [];
      if record.fileDisk !in disks {
        return Failure(DiskNotConfigured(record.fileDisk)), listing;
      }
      var disk := disks[record.fileDisk];
      var directory := record.FileDirectory();
      if !disk.Exists(directory) {
        return Failure(NotFound), listing;
      }
      var files := disk.Files(directory);
      listing := files;
      var body := Stream(disk, directory, files);
      r := Success(Response(record.fileName + ".csv", "text/csv", body));
    }
  }

  /**
   * The streamed body: the headers file echoed first, then each listed file ending in `.csv`
   * but not in `headers.csv`, in listing order.
   */
  method Stream(disk: Disk, directory: string, files: seq<string>) returns (body: string)
    ensures body == CsvBody(disk.files, directory, files)
  {
    body := disk.Get(directory + Separator + "headers.csv");
    var i := 0;
    while i < |files|
      invariant 0 <= i <= |files|
      invariant body == Content(disk.files, HeadersPath(directory)) + Shards(disk.files, files[..i])
    {
      var file := files[i];
      assert files[..i + 1][..i] == files[..i];
      if EndsWith(file, "headers.csv") {
        i := i + 1;
        continue;
      }
      if !EndsWith(file, ".csv") {
        i := i + 1;
        continue;
      }
      body := body + disk.Get(file);
      i := i + 1;
    }
    assert files[..|files|] == files;
  }

  /**
   * `$export->download($format)`: an unknown token fails as `ExportFormat::from` does; `csv`
   * streams through the CSV downloader; `xlsx` hands the export to the XLSX downloader.
   */
  method DownloadExport(record: Export, disks: map<string, Disk>, format: string) returns (r: Result<Download, DownloadError>, ghost listing: seq<string>)
    ensures From(format).None? ==> r == Failure(UnknownFormat(format))
    ensures From(format) == Some(Xlsx) ==> r == Success(HandedTo(XlsxDownloader))
    ensures From(format) == Some(Csv) ==>
      (r == Failure(DiskNotConfigured(record.fileDisk)) <==> record.fileDisk !in disks)
    ensures From(format) == Some(Csv) && record.fileDisk in disks ==>
      var disk := disks[record.fileDisk];
      && (r == Failure(NotFound) <==> !disk.Exists(record.FileDirectory()))
      && (r.Success? ==> r.value == Streamed(Response(record.fileName + ".csv", "text/csv",
            CsvBody(disk.files, record.FileDirectory(), listing))))
      && (r.Success? ==> forall p :: p in listing <==> p in disk.DirectFiles(record.FileDirectory()))
  {
    listing := [];
    var formatEnum := From(format);
    if formatEnum.None? {
      return Failure(UnknownFormat(format)), listing;
    }
    match formatEnum.value.Downloader()
    case XlsxDownloader =>
      r := Success(HandedTo(XlsxDownloader));
    case CsvDownloader =>
      var downloader := new CsvDownloader();
      var response;
      response, listing := downloader.Invoke(record, disks);
      r := if response.Success? then Success(Streamed(response.value)) else Failure(response.error);
  }
}
