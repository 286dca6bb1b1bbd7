/** The filesystem as the CLI sees it: `existsSync`, recursive `mkdirSync`
    and `writeFileSync` over a set of directories and a map of files.
    Paths are sequences of segments, as `path.join` produces them from the
    current working directory and literal sub-paths. */
module Files {
  import opened Paths
  import opened Scripts

  /** What a written file holds: plain text (an installed skill document) or
      a generated JavaScript module, kept abstract as its imports, exports and
      literal body. */
  datatype FileContent = Text(text: string) | Script(source: Source)

  /** One filesystem call, in the order the program makes them. */
  datatype Effect = MakeDir(dir: Path) | WriteFile(path: Path, content: FileContent)

  class FileSystem {
    var dirs: set<Path>
    var files: map<Path, FileContent>
    /** Every mkdir and write so far, oldest first. */
    ghost var trace: seq<Effect>

    constructor (dirs0: set<Path>, files0: map<Path, FileContent>)
      ensures dirs == dirs0 && files == files0 && trace == []
    {
      dirs := dirs0;
      files := files0;
      trace := [];
    }

    /** `fs.existsSync(p)`: true for a directory and for a file. */
    predicate Exists(p: Path)
      reads this
    {
      p in dirs || p in files
    }

    /** Everything `existsSync` reports as present. */
    function Existing(): (r: set<Path>)
      reads this
      ensures forall p :: p in r <==> Exists(p)
    {
      dirs + files.Keys
    }

    /** `fs.mkdirSync(p, { recursive: true })`. */
    method MakeDirectory(p: Path)
      modifies this
      ensures dirs == old(dirs) + Ancestry(p)
      ensures files == old(files)
      ensures trace == old(trace) + [MakeDir(p)]
    {
      dirs := dirs + Ancestry(p);
      trace := trace + [MakeDir(p)];
    }

    /** `fs.writeFileSync(p, content)`: creates or replaces the file. */
    method Write(p: Path, content: FileContent)
      modifies this
      ensures files == old(files)[p := content]
      ensures dirs == old(dirs)
      ensures trace == old(trace) + [WriteFile(p, content)]
    {
      files := files[p := content];
      trace := trace + [WriteFile(p, content)];
    }
  }

  /** A filesystem in which every directory holding a file exists. */
  predicate WellFormed(dirs: set<Path>, files: map<Path, FileContent>) {
    forall p, k :: p in files && 1 <= k < |p| ==> p[..k] in dirs
  }

  /** In a well-formed filesystem, a directory that does not exist holds no
      file. */
  lemma AbsentDirIsEmpty(dirs: set<Path>, files: map<Path, FileContent>, dir: Path)
    requires WellFormed(dirs, files) && |dir| > 0 && dir !in dirs
    ensures forall p :: p in files ==> !Below(p, dir)
  {
  }

  /** The files map after a sequence of writes, applied in order. */
  function ApplyWrites(files: map<Path, FileContent>, writes: seq<(Path, FileContent)>): map<Path, FileContent>
    decreases |writes|
  {
    if |writes| == 0 then files
    else ApplyWrites(files[writes[0].0 := writes[0].1], writes[1..])
  }

  predicate DistinctPaths(writes: seq<(Path, FileContent)>) {
    forall i, j :: 0 <= i < j < |writes| ==> writes[i].0 != writes[j].0
  }

  /** Writing distinct paths: exactly those paths get their new content and
      every other file is left as it was. */
  lemma {:induction false} ApplyDistinctWrites(files: map<Path, FileContent>, writes: seq<(Path, FileContent)>)
    requires DistinctPaths(writes)
    ensures var r := ApplyWrites(files, writes);
      && r.Keys == files.Keys + (set i | 0 <= i < |writes| :: writes[i].0)
      && (forall i :: 0 <= i < |writes| ==> r[writes[i].0] == writes[i].1)
      && (forall p :: p in files && (forall i :: 0 <= i < |writes| ==> writes[i].0 != p) ==> r[p] == files[p])
    decreases |writes|
  {
    if |writes| > 0 {
      var f := files[writes[0].0 := writes[0].1];
      var rest := writes[1..];
      assert DistinctPaths(rest) by {
        forall i, j | 0 <= i < j < |rest| ensures rest[i].0 != rest[j].0 {
          assert rest[i] == writes[i + 1] && rest[j] == writes[j + 1];
        }
      }
      ApplyDistinctWrites(f, rest);
      var r := ApplyWrites(f, rest);
      assert (set i | 0 <= i < |writes| :: writes[i].0)
          == {writes[0].0} + (set i | 0 <= i < |rest| :: rest[i].0) by {
        forall i | 0 <= i < |writes| ensures writes[i].0 in {writes[0].0} + (set i | 0 <= i < |rest| :: rest[i].0) {
          if i > 0 { assert writes[i] == rest[i - 1]; }
        }
      }
      forall i | 0 <= i < |writes| ensures r[writes[i].0] == writes[i].1 {
        if i == 0 {
          forall k | 0 <= k < |rest| ensures rest[k].0 != writes[0].0 {
            assert rest[k] == writes[k + 1];
          }
        } else {
          assert writes[i] == rest[i - 1];
        }
      }
      forall p | p in files && (forall i :: 0 <= i < |writes| ==> writes[i].0 != p) ensures r[p] == files[p] {
        assert writes[0].0 != p;
        forall k | 0 <= k < |rest| ensures rest[k].0 != p {
          assert rest[k] == writes[k + 1];
        }
      }
    }
  }

  /** Writes into existing directories keep the filesystem well formed. */
  lemma {:induction false} WritesKeepWellFormed(dirs: set<Path>, files: map<Path, FileContent>, writes: seq<(Path, FileContent)>)
    requires WellFormed(dirs, files)
    requires forall i, k :: 0 <= i < |writes| && 1 <= k < |writes[i].0| ==> writes[i].0[..k] in dirs
    ensures WellFormed(dirs, ApplyWrites(files, writes))
    decreases |writes|
  {
    if |writes| > 0 {
      var f := files[writes[0].0 := writes[0].1];
      assert WellFormed(dirs, f);
      var rest := writes[1..];
      forall i, k | 0 <= i < |rest| && 1 <= k < |rest[i].0| ensures rest[i].0[..k] in dirs {
        assert rest[i] == writes[i + 1];
      }
      WritesKeepWellFormed(dirs, f, rest);
    }
  }
}
