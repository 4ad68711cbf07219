/** The parts of `std::path` and `std::fs` the generator relies on: joining
    paths, taking a path's file name, creating a directory and writing a
    file. The file system is a value; which paths cannot be created or
    written is given by the value itself, standing in for every cause of an
    I/O failure. Paths use `/` as their only separator. */
module Files {
  import opened Results
  import opened Bytes
  import opened JsonTree

  type Path = string

  /** What a written file holds: raw bytes, or a JSON document (its textual
      rendering is not modelled). */
  datatype FileContent = BinaryFile(bytes: seq<u8>) | JsonFile(json: Json)

  datatype IoError = IoError(path: Path)

  datatype FileSystem = FileSystem(files: map<Path, FileContent>, dirs: set<Path>, refused: set<Path>)

  /** `std::fs::write` / `File::create` + `write_all`: replaces the file's
      contents, or fails and changes nothing. */
  function WriteFile(fs: FileSystem, path: Path, content: FileContent): (r: Result<FileSystem, IoError>)
  {
    if path in fs.refused then Err(IoError(path))
    else Ok(fs.(files := fs.files[path := content]))
  }

  /** `std::fs::create_dir_all`. */
  function CreateDirAll(fs: FileSystem, dir: Path): (r: Result<FileSystem, IoError>)
  {
    if dir in fs.refused then Err(IoError(dir))
    else Ok(fs.(dirs := fs.dirs + {dir}))
  }

  /** `Path::join` (`PathBuf::push`): an absolute `p` replaces `base`;
      otherwise a separator is inserted unless `base` is empty or already
      ends with one. */
  function Join(base: Path, p: Path): (r: Path)
    ensures |p| > 0 ==> |r| >= |p| && r[|r| - |p|..] == p
  {
    if |p| > 0 && p[0] == '/' then p
    else if |base| > 0 && base[|base| - 1] != '/' then base + "/" + p
    else base + p
  }

  /** Where the segment ending at `end` starts: just after the last `/`
      before `end`, or at 0 if there is none. */
  function SegmentStart(p: Path, end: nat): (start: nat)
    requires end <= |p|
    ensures start <= end
    ensures forall k :: start <= k < end ==> p[k] != '/'
    ensures start == 0 || p[start - 1] == '/'
    decreases end
  {
    if end == 0 || p[end - 1] == '/' then end else SegmentStart(p, end - 1)
  }

  /** The characters after the last `/` of `p` (all of `p` if it has none). */
  function LastSegment(p: Path): (seg: string)
    ensures |seg| <= |p| && seg == p[|p| - |seg|..]
    ensures '/' !in seg
    ensures |seg| < |p| ==> p[|p| - |seg| - 1] == '/'
  {
    p[SegmentStart(p, |p|)..]
  }

  /** `Path::file_name`: the last component of the path after trailing
      separators and `.` components are dropped; `None` when that component
      is `..`, or when there is none (the empty path, `/`, `.`). */
  function FileName(p: Path): (r: Option<string>)
    decreases |p|
  {
    if |p| == 0 then None
    else if p[|p| - 1] == '/' then FileName(p[..|p| - 1])
    else
      var seg := LastSegment(p);
      var rest := p[..|p| - |seg|];
      if seg == "." then (if rest == "" then None else FileName(rest))
      else if seg == ".." then None
      else Some(seg)
  }

  /** A path whose last character is neither `/` nor `.` has a file name,
      and it is the text after the last separator. */
  lemma FileNameOfPlainEnding(p: Path)
    requires |p| > 0 && p[|p| - 1] != '/' && p[|p| - 1] != '.'
    ensures FileName(p) == Some(LastSegment(p)) && |LastSegment(p)| > 0
  {
  }

  /** The segment start is the only position with no separator from it
      to `end` that is 0 or follows a separator. */
  lemma SegmentStartUnique(p: Path, end: nat, j: nat)
    requires j <= end <= |p|
    requires forall k :: j <= k < end ==> p[k] != '/'
    requires j == 0 || p[j - 1] == '/'
    ensures SegmentStart(p, end) == j
  {
  }

  /** Appending to a text that is empty or ends with a separator, or
      appending a text that has a separator, leaves the last segment that of
      the appended text. */
  lemma LastSegmentOfConcat(a: Path, p: Path)
    requires |a| == 0 || a[|a| - 1] == '/' || '/' in p
    ensures LastSegment(a + p) == LastSegment(p)
  {
    var ap, r := a + p, SegmentStart(p, |p|);
    var j := |a| + r;
    forall k | j <= k < |ap|
      ensures ap[k] != '/'
    {
      assert ap[k] == p[k - |a|];
    }
    if r > 0 {
      assert ap[j - 1] == p[r - 1];
    }
    if j > 0 {
      assert ap[j - 1] == '/';
    }
    SegmentStartUnique(ap, |ap|, j);
    assert ap[j..] == p[r..];
  }

  /** Joining does not change the last segment of a non-empty path. */
  lemma LastSegmentOfJoin(base: Path, p: Path)
    requires |p| > 0
    ensures LastSegment(Join(base, p)) == LastSegment(p)
  {
    if p[0] == '/' {
    } else if |base| > 0 && base[|base| - 1] != '/' {
      assert base + "/" + p == (base + "/") + p;
      LastSegmentOfConcat(base + "/", p);
    } else {
      LastSegmentOfConcat(base, p);
    }
  }

  /** The file name of a directory joined with a name that does not end in
      `/` or `.` exists; it is the name itself when the name has no
      separator. */
  lemma FileNameOfJoin(dir: Path, name: Path)
    requires |name| > 0 && name[|name| - 1] != '/' && name[|name| - 1] != '.'
    ensures FileName(Join(dir, name)).Some?
    ensures '/' !in name ==> FileName(Join(dir, name)) == Some(name)
  {
    var p := Join(dir, name);
    assert p[|p| - 1] == name[|name| - 1];
    FileNameOfPlainEnding(p);
    LastSegmentOfJoin(dir, name);
    if '/' !in name {
      SegmentStartUnique(name, |name|, 0);
    }
  }

  /** Two relative (or two absolute) paths joined to the same base give the
      same path only if they were the same. */
  lemma JoinInjective(base: Path, p: Path, q: Path)
    requires |p| > 0 && |q| > 0 && (p[0] == '/' <==> q[0] == '/')
    requires Join(base, p) == Join(base, q)
    ensures p == q
  {
  }
}
