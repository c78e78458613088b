/**
 * A storage disk as the exports see it: files with their contents, and directories. Paths are
 * relative to the disk root and use `/` as the directory separator.
 */
module Storage {
  import opened Strings

  /** `DIRECTORY_SEPARATOR` on a POSIX host. */
  const Separator: string := "/"

  /** `p` lies somewhere inside directory `dir`. */
  predicate Under(dir: string, p: string) {
    StartsWith(p, dir + Separator)
  }

  /** `p` is an entry directly inside `dir`, not inside one of its sub-directories. */
  predicate DirectlyUnder(dir: string, p: string) {
    Under(dir, p) && '/' !in p[|dir| + 1..]
  }

  /** `deleteDirectory($dir)` on the file table: every file under the directory goes. */
  function PurgeFiles(files: map<string, string>, dir: string): (r: map<string, string>)
    ensures forall p :: p in r <==> p in files && !Under(dir, p)
    ensures forall p :: p in r ==> r[p] == files[p]
  {
    map p | p in files && !Under(dir, p) :: files[p]
  }

  /** `deleteDirectory($dir)` on the directory table: the directory and those below it go. */
  function PurgeDirectories(directories: set<string>, dir: string): (r: set<string>)
    ensures forall d :: d in r <==> d in directories && d != dir && !Under(dir, d)
  {
    set d | d in directories && d != dir && !Under(dir, d)
  }

  /**
   * A disk as a real filesystem holds it: every directory a file lies under exists. Laravel's
   * adapters create the parent directories of a file they write.
   */
  ghost predicate Closed(files: map<string, string>, directories: set<string>) {
    forall p, d :: p in files && Under(d, p) ==> d in directories
  }

  /** Lying under a directory that lies under `a` is lying under `a`. */
  lemma {:induction false} UnderTransitive(a: string, b: string, p: string)
    requires Under(a, b) && Under(b, p)
    ensures Under(a, p)
  {
    var n := |a + Separator|;
    assert p[..|b + Separator|][..n] == p[..n];
    assert (b + Separator)[..n] == b[..n];
  }

  /** Deleting a directory keeps a disk closed: no directory of a remaining file is removed. */
  lemma {:induction false} PurgeKeepsClosed(files: map<string, string>, directories: set<string>, dir: string)
    requires Closed(files, directories)
    ensures Closed(PurgeFiles(files, dir), PurgeDirectories(directories, dir))
  {
    var fs := PurgeFiles(files, dir);
    forall p, d | p in fs && Under(d, p)
      ensures d in PurgeDirectories(directories, dir)
    {
      if Under(dir, d) {
        UnderTransitive(dir, d, p);
      }
    }
  }

  /** On a closed disk a directory that does not exist holds no file, so purging it changes nothing. */
  lemma {:induction false} AbsentDirectoryHoldsNothing(files: map<string, string>, directories: set<string>, dir: string)
    requires Closed(files, directories) && dir !in directories
    ensures PurgeFiles(files, dir) == files
  {
  }

  class Disk {
    var files: map<string, string>
    var directories: set<string>

    constructor(files: map<string, string>, directories: set<string>)
      ensures this.files == files && this.directories == directories
    {
      this.files := files;
      this.directories := directories;
    }

    /** Every directory a file of this disk lies under exists. */
    ghost predicate Valid()
      reads this
    {
      Closed(files, directories)
    }

    /** `exists($path)`: a file or a directory is there. */
    predicate Exists(path: string)
      reads this
    {
      path in files || path in directories
    }

    /** `directoryExists($dir)`. */
    predicate DirectoryExists(dir: string)
      reads this
    {
      dir in directories
    }

    /** `get($path)`: the contents of a file; a missing file reads as nothing. */
    function Get(path: string): (r: string)
      reads this
      ensures path in files ==> r == files[path]
      ensures path !in files ==> r == ""
    {
      if path in files then files[path] else ""
    }

    /** The files `files($dir)` lists: those directly inside the directory. */
    function DirectFiles(dir: string): (r: set<string>)
      reads this
      ensures forall p :: p in r <==> p in files && DirectlyUnder(dir, p)
    {
      set p | p in files && DirectlyUnder(dir, p)
    }

    /**
     * `files($dir)`: the files directly inside the directory, each once, in an order the
     * storage backend chooses.
     */
    method Files(dir: string) returns (listing: seq<string>)
      ensures forall p :: p in listing <==> p in DirectFiles(dir)
      ensures forall i, j :: 0 <= i < j < |listing| ==> listing[i] != listing[j]
    {
      listing := [];
      var rest := DirectFiles(dir);
      while rest != {}
        invariant rest <= DirectFiles(dir)
        invariant forall p :: p in listing <==> p in DirectFiles(dir) && p !in rest
        invariant forall i, j :: 0 <= i < j < |listing| ==> listing[i] != listing[j]
        decreases |rest|
      {
        var p :| p in rest;
        listing := listing + [p];
        rest := rest - {p};
      }
    }

    /** `deleteDirectory($dir)`: the directory, everything below it, and nothing else goes. */
    method DeleteDirectory(dir: string)
      modifies this
      ensures files == PurgeFiles(old(files), dir)
      ensures directories == PurgeDirectories(old(directories), dir)
      ensures old(Valid()) ==> Valid()
    {
      if Valid() {
        PurgeKeepsClosed(files, directories, dir);
      }
      files := PurgeFiles(files, dir);
      directories := PurgeDirectories(directories, dir);
    }
  }

  /** Purging a directory twice is purging it once, and purging keeps the other directories' files. */
  lemma {:induction false} PurgeIdempotent(files: map<string, string>, directories: set<string>, dir: string)
    ensures PurgeFiles(PurgeFiles(files, dir), dir) == PurgeFiles(files, dir)
    ensures PurgeDirectories(PurgeDirectories(directories, dir), dir) == PurgeDirectories(directories, dir)
  {
  }

  /** After a purge nothing lies under the directory and the directory no longer exists. */
  lemma {:induction false} PurgeEmpties(files: map<string, string>, directories: set<string>, dir: string)
    ensures forall p :: p in PurgeFiles(files, dir) ==> !Under(dir, p)
    ensures dir !in PurgeDirectories(directories, dir)
  {
  }
}
