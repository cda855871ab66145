/** The path resolver: from the request URI to a relative path
    (`request_path`), and from that path to the path looked up, with its
    existence and directory flags (`request_dirindex`). */
module Resolver {
  import opened Wrappers
  import opened Paths
  import opened FileSystem

  /** The request-target forms the HTTP layer distinguishes. For an
      absolute URI only the result of serializing its path matters; the
      serialization itself belongs to the URL library and is not modelled. */
  datatype RequestUri =
    | AbsolutePath(path: string)
    | AbsoluteUri(serializedPath: Option<string>)
    | Authority(authority: string)
    | Star

  /** `String::remove(0)`: drops the first character, whatever it is, and
      panics on an empty string. */
  function RemoveFirst(s: string): (r: Fallible<string>)
    ensures r.Ok? <==> s != []
    ensures r.Ok? ==> s == [s[0]] + r.value
  {
    if s == [] then Abort else Ok(s[1..])
  }

  /** `request_path`: the relative path a request asks for, `None` for a
      request-target that is neither a path nor an absolute URI. */
  function RequestPath(uri: RequestUri): (r: Fallible<Option<string>>)
    ensures r == Ok(None) <==> !uri.AbsolutePath? && !uri.AbsoluteUri?
    ensures uri.AbsolutePath? ==>
      r == (if uri.path == [] then Abort else Ok(Some(uri.path[1..])))
    ensures uri.AbsoluteUri? ==>
      r == (if uri.serializedPath == None || uri.serializedPath.value == [] then Abort
            else Ok(Some(uri.serializedPath.value[1..])))
  {
    match uri
    case AbsolutePath(path) =>
      (match RemoveFirst(path)
       case Ok(p) => Ok(Some(p))
       case Abort => Abort)
    case AbsoluteUri(serialized) =>
      (match serialized
       case None => Abort
       case Some(path) =>
         match RemoveFirst(path)
         case Ok(p) => Ok(Some(p))
         case Abort => Abort)
    case _ => Ok(None)
  }

  /** The path looked up for a request, and whether it exists and is a
      directory. */
  datatype Classification = Classification(path: string, pathExists: bool, isDir: bool)

  /** The path looked up for the relative path `p` (`set_file_name` at
      src/main.rs:70-72): `p` itself when it names a file, otherwise the
      default document inside it, which then becomes the file name. */
  function LookupPath(p: string): (r: string)
    ensures FileName(r).Some?
    ensures FileName(p).Some? ==> r == p
    ensures FileName(p).None? ==>
      r == Push(p, DefaultDocument) && FileName(r) == Some(DefaultDocument)
  {
    if FileName(p).None? then
      PushFileName(p, DefaultDocument);
      Push(p, DefaultDocument)
    else p
  }

  /** `request_dirindex`: panics on an absolute path; substitutes the
      default document when the path has no file name; reports existence
      and directory-ness of the (possibly substituted) path. */
  function RequestDirindex(fs: FileSystem, p: string): (r: Fallible<Classification>)
    ensures r.Abort? <==> IsAbsolute(p)
    ensures r.Ok? && FileName(p).Some? ==> r.value.path == p
    ensures r.Ok? && FileName(p).None? ==>
      r.value.path == Push(p, DefaultDocument) && FileName(r.value.path) == Some(DefaultDocument)
    ensures r.Ok? ==>
      r.value.pathExists == Exists(fs, r.value.path) && r.value.isDir == IsDir(fs, r.value.path)
    ensures r.Ok? && r.value.isDir ==> r.value.pathExists
    ensures r.Ok? ==> r.value.path == LookupPath(p)
  {
    if IsAbsolute(p) then Abort
    else
      var path := LookupPath(p);
      Ok(Classification(path, Exists(fs, path), IsDir(fs, path)))
  }

  /** Exactly the first character is dropped, whatever it is: `/` gives
      the empty path. */
  lemma PathFormDropsFirst(c: char, rest: string)
    ensures RequestPath(AbsolutePath([c] + rest)) == Ok(Some(rest))
    ensures RequestPath(AbsolutePath("/")) == Ok(Some(""))
  {
    assert ([c] + rest)[1..] == rest;
  }

  /** Only one separator is stripped, so `//etc` reaches the classifier as
      the absolute path `/etc` and the classifier panics. */
  lemma DoubleSlashAborts(fs: FileSystem)
    ensures RequestPath(AbsolutePath("//etc")) == Ok(Some("/etc"))
    ensures RequestDirindex(fs, "/etc") == Abort
  {
  }

  /** A trailing separator or `.` does not make a path name a directory:
      `n/` and `n/.` keep the file name `n` and are looked up as they are. */
  lemma TrailingSeparatorKept(fs: FileSystem, n: string)
    requires IsNormalName(n)
    ensures RequestDirindex(fs, n + "/").value.path == n + "/"
    ensures RequestDirindex(fs, n + "/.").value.path == n + "/."
  {
    FileNameIgnoresTrailing(n);
    SplitSingle(n);
    assert n + "/" == n + [Separator];
    assert n + "/." == n + [Separator] + ".";
  }

  /** The empty path names no file: `index.html` is looked up. */
  lemma EmptyGetsDefault(fs: FileSystem)
    ensures RequestDirindex(fs, "").value.path == "index.html"
  {
    assert FileName("") == None;
  }

  /** `.` names no file: `./index.html` is looked up. */
  lemma DotGetsDefault(fs: FileSystem)
    ensures RequestDirindex(fs, ".").value.path == "./index.html"
  {
    SplitSingle(".");
    assert FileName(".") == None;
    assert Push(".", DefaultDocument) == "./index.html";
  }

  /** A path ending in `..` names no file: `a/../index.html` is looked up. */
  lemma ParentGetsDefault(fs: FileSystem)
    ensures RequestDirindex(fs, "a/..").value.path == "a/../index.html"
  {
    FileNameParent("a");
    assert "a/.." == "a" + [Separator] + "..";
    assert FileName("a/..") == None;
    assert Push("a/..", DefaultDocument) == "a/../index.html";
  }
}
