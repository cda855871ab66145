/** The filesystem as the server observes it through `Path::exists`,
    `Path::is_dir` and `fs::read_dir`: a map from locations to nodes, and
    the working directory, which is the document root. */
module FileSystem {
  import opened Wrappers
  import opened Utf8
  import opened Paths

  /** A location: the names leading to a node from the filesystem root. */
  type Location = seq<string>

  /** A regular file holds bytes; a directory lists its entries' names in
      the order `read_dir` yields them. */
  datatype Node = File(contents: seq<byte>) | Dir(names: seq<string>)

  datatype FileSystem = FileSystem(nodes: map<Location, Node>, cwd: Location)

  predicate IsDirAt(fs: FileSystem, loc: Location)
  {
    loc in fs.nodes && fs.nodes[loc].Dir?
  }

  /** The document root is a directory, and every name a directory lists is
      a normal name with a node of its own. Symbolic links are not modelled. */
  predicate WellFormed(fs: FileSystem)
  {
    && IsDirAt(fs, fs.cwd)
    && forall loc, i :: loc in fs.nodes && fs.nodes[loc].Dir? && 0 <= i < |fs.nodes[loc].names| ==>
         IsNormalName(fs.nodes[loc].names[i]) && loc + [fs.nodes[loc].names[i]] in fs.nodes
  }

  /** `..` at the root stays at the root. */
  function Parent(loc: Location): Location
  {
    if loc == [] then [] else loc[..|loc| - 1]
  }

  /** One piece of a path: empty pieces and `.` stay, `..` goes up. */
  function Step(loc: Location, seg: string): Location
  {
    if seg == "" || seg == "." then loc
    else if seg == ".." then Parent(loc)
    else loc + [seg]
  }

  /** Path resolution: every piece is looked up in the node reached so far,
      which must be a directory (so `a.txt/` fails when `a.txt` is a file). */
  function Walk(fs: FileSystem, loc: Location, segs: seq<string>): Option<Location>
    decreases |segs|
  {
    if segs == [] then Some(loc)
    else if !IsDirAt(fs, loc) then None
    else Walk(fs, Step(loc, segs[0]), segs[1..])
  }

  /** Where resolution of `p` starts: the root for an absolute path, the
      working directory otherwise. */
  function StartOf(fs: FileSystem, p: string): Location
  {
    if IsAbsolute(p) then [] else fs.cwd
  }

  /** The location `p` resolves to; the empty path resolves to nothing. */
  function Resolve(fs: FileSystem, p: string): Option<Location>
  {
    if p == [] then None else Walk(fs, StartOf(fs, p), Split(p))
  }

  /** stat(2): the node `p` names, if any. */
  function Stat(fs: FileSystem, p: string): Option<Node>
  {
    match Resolve(fs, p)
    case Some(loc) => if loc in fs.nodes then Some(fs.nodes[loc]) else None
    case None => None
  }

  /** `Path::exists`. */
  predicate Exists(fs: FileSystem, p: string)
  {
    Stat(fs, p).Some?
  }

  /** `Path::is_dir`: only a path that exists can be a directory. */
  predicate IsDir(fs: FileSystem, p: string)
    ensures IsDir(fs, p) ==> Exists(fs, p)
  {
    Stat(fs, p).Some? && Stat(fs, p).value.Dir?
  }

  /** `fs::read_dir`: the entries' names, or `None` (an error) when `p` does
      not name a directory. */
  function ReadDir(fs: FileSystem, p: string): (r: Option<seq<string>>)
    ensures r.Some? <==> IsDir(fs, p)
    ensures r.Some? ==> Stat(fs, p) == Some(Dir(r.value))
  {
    match Stat(fs, p)
    case Some(Dir(names)) => Some(names)
    case _ => None
  }

  /** Resolving a concatenation resolves the first part, then the second
      from where the first ended. */
  lemma {:induction false} WalkAppend(fs: FileSystem, loc: Location, a: seq<string>, b: seq<string>)
    ensures Walk(fs, loc, a + b) ==
      match Walk(fs, loc, a)
      case Some(mid) => Walk(fs, mid, b)
      case None => None
    decreases |a|
  {
    if a != [] {
      assert (a + b)[0] == a[0];
      assert (a + b)[1..] == a[1..] + b;
      WalkAppend(fs, Step(loc, a[0]), a[1..], b);
    } else {
      assert a + b == b;
    }
  }

  /** Every step of a resolution that succeeds starts from a directory:
      each proper prefix of the pieces resolves to a directory. */
  lemma {:induction false} WalkPrefixes(fs: FileSystem, loc: Location, segs: seq<string>)
    requires Walk(fs, loc, segs).Some?
    ensures forall k :: 0 <= k < |segs| ==>
      Walk(fs, loc, segs[..k]).Some? && IsDirAt(fs, Walk(fs, loc, segs[..k]).value)
    decreases |segs|
  {
    if segs != [] {
      var next := Step(loc, segs[0]);
      WalkPrefixes(fs, next, segs[1..]);
      forall k | 0 <= k < |segs|
        ensures Walk(fs, loc, segs[..k]).Some? && IsDirAt(fs, Walk(fs, loc, segs[..k]).value)
      {
        if k == 0 {
          assert segs[..0] == [];
        } else {
          assert segs[..k][0] == segs[0];
          assert segs[..k][1..] == segs[1..][..k - 1];
        }
      }
    }
  }

  /** stat(2) finds a node only through directories: each piece of the path
      but the last is looked up in a directory, so `exists`, `is_dir` and
      `read_dir` see nothing below a regular file. */
  lemma StatThroughDirectories(fs: FileSystem, p: string)
    requires Exists(fs, p)
    ensures p != []
    ensures forall k :: 0 <= k < |Split(p)| ==>
      Walk(fs, StartOf(fs, p), Split(p)[..k]).Some? &&
      IsDirAt(fs, Walk(fs, StartOf(fs, p), Split(p)[..k]).value)
  {
    WalkPrefixes(fs, StartOf(fs, p), Split(p));
  }

  /** A path that resolves one piece further went through a directory. */
  lemma WalkThroughDir(fs: FileSystem, loc: Location, a: seq<string>, x: string)
    requires Walk(fs, loc, a + [x]).Some?
    ensures Walk(fs, loc, a).Some? && IsDirAt(fs, Walk(fs, loc, a).value)
    ensures Walk(fs, loc, a + [x]) == Some(Step(Walk(fs, loc, a).value, x))
  {
    WalkAppend(fs, loc, a, [x]);
  }

  /** A leading `./` changes nothing: `./p` names what `p` names. */
  lemma CurDirPrefix(fs: FileSystem, p: string)
    requires p != [] && !IsAbsolute(p)
    ensures Resolve(fs, "./" + p) == Resolve(fs, p)
  {
    assert "./" + p == "." + [Separator] + p;
    SplitAppend(".", p);
    SplitSingle(".");
    assert Split("./" + p) == ["."] + Split(p);
    WalkAppend(fs, fs.cwd, ["."], Split(p));
    assert Split(p) != [];
  }

  /** `Path::join` (push) of a normal name names that child of the
      directory the path resolves to. */
  lemma ResolvePush(fs: FileSystem, p: string, n: string)
    requires p != [] && IsNormalName(n)
    ensures Resolve(fs, Push(p, n)) ==
      if Resolve(fs, p).Some? && IsDirAt(fs, Resolve(fs, p).value)
      then Some(Resolve(fs, p).value + [n]) else None
  {
    SplitSingle(n);
    PushSplit(p, n);
    var q := Push(p, n);
    assert q[0] == p[0];
    var start := StartOf(fs, p);
    assert StartOf(fs, q) == start;
    var sp := Split(p);
    if p[|p| - 1] == Separator {
      var front := sp[..|sp| - 1];
      assert p == p[..|p| - 1] + [Separator] + "";
      SplitAppend(p[..|p| - 1], "");
      assert sp == front + [""];
      WalkAppend(fs, start, front, [""]);
      WalkAppend(fs, start, front, [n]);
    } else {
      WalkAppend(fs, start, sp, [n]);
    }
  }
}
