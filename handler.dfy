/** The request handler (`request_handler`): sets the server header, then
    answers 400 for a target that is not a path, a listing for a directory
    or the document root, 404 for a missing path, 500 when the file cannot
    be opened, and otherwise the file's bytes. */
module Handler {
  import opened Wrappers
  import opened Utf8
  import opened Paths
  import opened FileSystem
  import opened Resolver
  import opened Listing
  import opened Http
  import opened Renderer
  import opened Streamer

  /** The branch the handler takes for a request. `Aborted` is a panic:
      an empty first character to drop, an unserializable URI, an absolute
      path. */
  datatype Outcome =
    | BadRequest
    | DirectoryListing(dirname: string)
    | NotFound
    | OpenFailed
    | Stream(path: string)
    | Aborted

  /** The decisions of `request_handler`, in its order: the request path,
      the classification, the listing test (a directory, or the empty path
      of the document root), the existence test, the opening of the file.
      Whether opening succeeds depends on more than the filesystem's shape
      (permissions, descriptors), so it is the parameter `openOk`. */
  function Dispatch(uri: RequestUri, fs: FileSystem, openOk: bool): (r: Outcome)
    ensures r.Stream? ==> Stat(fs, r.path).Some? && Stat(fs, r.path).value.File?
  {
    match RequestPath(uri)
    case Abort => Aborted
    case Ok(None) => BadRequest
    case Ok(Some(p)) => PathDispatch(p, fs, openOk)
  }

  /** The decisions after `request_path` returned the relative path `p`. */
  function PathDispatch(p: string, fs: FileSystem, openOk: bool): (r: Outcome)
    ensures r != BadRequest
    ensures r.Stream? ==> Stat(fs, r.path).Some? && Stat(fs, r.path).value.File?
  {
    match RequestDirindex(fs, p)
    case Abort => Aborted
    case Ok(c) =>
      if c.isDir || p == "" then DirectoryListing(p)
      else if !c.pathExists && !c.isDir then NotFound
      else if !openOk then OpenFailed
      else Stream(c.path)
  }

  /** The response as the client sees it, and whether the handler
      panicked. */
  datatype Reply = Reply(status: int, headers: map<string, string>, body: seq<byte>, aborted: bool)

  /** The headers every reply carries: the server identity. */
  function ServerHeaders(packageVersion: string): map<string, string>
  {
    map[ServerHeader := ServerId(packageVersion)]
  }

  /** What the handler leaves in the response for each outcome. A panic
      leaves the status and headers as set so far and the bytes written so
      far. */
  function Respond(fs: FileSystem, outcome: Outcome, packageVersion: string): (r: Reply)
    requires outcome.Stream? ==> Stat(fs, outcome.path).Some? && Stat(fs, outcome.path).value.File?
    ensures r.headers == ServerHeaders(packageVersion)
    ensures r.status == StatusBadRequest <==> outcome == BadRequest
    ensures r.status == StatusNotFound <==> outcome == NotFound
    ensures r.status == StatusInternalServerError <==> outcome == OpenFailed
    ensures r.status == StatusOk <==> outcome.DirectoryListing? || outcome.Stream? || outcome == Aborted
  {
    var headers := ServerHeaders(packageVersion);
    match outcome
    case BadRequest => Reply(StatusBadRequest, headers, ErrBadRequest, false)
    case DirectoryListing(dirname) =>
      Reply(StatusOk, headers, Rendered(fs, dirname).0, Rendered(fs, dirname).1)
    case NotFound => Reply(StatusNotFound, headers, ErrNotFound, false)
    case OpenFailed => Reply(StatusInternalServerError, headers, ErrInternalServerError, false)
    case Stream(path) => Reply(StatusOk, headers, Stat(fs, path).value.contents, false)
    case Aborted => Reply(StatusOk, headers, [], true)
  }

  /** The response to a request. */
  function Serve(uri: RequestUri, fs: FileSystem, openOk: bool, packageVersion: string): (r: Reply)
    ensures r.headers == ServerHeaders(packageVersion)
    ensures r.status == StatusOk || r.status == StatusBadRequest
      || r.status == StatusNotFound || r.status == StatusInternalServerError
    ensures r.status == StatusBadRequest ==> r.body == ErrBadRequest && !r.aborted
    ensures r.status == StatusNotFound ==> r.body == ErrNotFound && !r.aborted
    ensures r.status == StatusInternalServerError ==> r.body == ErrInternalServerError && !r.aborted
  {
    Respond(fs, Dispatch(uri, fs, openOk), packageVersion)
  }

  /** `request_handler` on a fresh response: the server header first, then
      the request path; a target that is not a path is answered 400. */
  method HandleRequest(uri: RequestUri, fs: FileSystem, openOk: bool, packageVersion: string, res: Response)
    returns (aborted: bool)
    requires WellFormed(fs)
    requires res.phase == Fresh && res.status == StatusOk && res.headers == map[] && res.body == []
    modifies res
    ensures Reply(res.status, res.headers, res.body, aborted) == Serve(uri, fs, openOk, packageVersion)
    ensures res.phase == Ended <==> !aborted
  {
    res.SetHeader(ServerHeader, ServerId(packageVersion));
    var requested := RequestPath(uri);
    if requested.Abort? {
      return true;
    }
    if requested.value.None? {
      res.SetStatus(StatusBadRequest);
      res.Send(ErrBadRequest);
      return false;
    }
    aborted := HandlePath(requested.value.value, fs, openOk, packageVersion, res);
  }

  /** The rest of `request_handler`, once the request path `p` is known. */
  method HandlePath(p: string, fs: FileSystem, openOk: bool, packageVersion: string, res: Response)
    returns (aborted: bool)
    requires WellFormed(fs)
    requires res.phase == Fresh && res.status == StatusOk
    requires res.headers == ServerHeaders(packageVersion) && res.body == []
    modifies res
    ensures Reply(res.status, res.headers, res.body, aborted) == Respond(fs, PathDispatch(p, fs, openOk), packageVersion)
    ensures res.phase == Ended <==> !aborted
  {
    var classified := RequestDirindex(fs, p);
    if classified.Abort? {
      return true;
    }
    var c := classified.value;
    if c.isDir || p == "" {
      aborted := RenderDirectory(res, fs, p);
      return;
    }
    if !c.pathExists && !c.isDir {
      res.SetStatus(StatusNotFound);
      res.Send(ErrNotFound);
      return false;
    }
    if !openOk {
      res.SetStatus(StatusInternalServerError);
      res.Send(ErrInternalServerError);
      return false;
    }
    var reader := new BufReader(Stat(fs, c.path).value.contents);
    StreamFile(res, reader);
    aborted := false;
  }

  /** 400 exactly for a request-target that is neither a path nor an
      absolute URI; the answer is then the fixed error page whatever the
      filesystem holds, so the filesystem is not consulted. */
  lemma BadRequestIff(uri: RequestUri, fs: FileSystem, openOk: bool, packageVersion: string)
    ensures Serve(uri, fs, openOk, packageVersion).status == StatusBadRequest <==>
      !uri.AbsolutePath? && !uri.AbsoluteUri?
  {
  }

  lemma BadRequestIgnoresFilesystem(uri: RequestUri, fs1: FileSystem, fs2: FileSystem,
                                    open1: bool, open2: bool, packageVersion: string)
    requires !uri.AbsolutePath? && !uri.AbsoluteUri?
    ensures Serve(uri, fs1, open1, packageVersion) == Serve(uri, fs2, open2, packageVersion)
    ensures Serve(uri, fs1, open1, packageVersion) ==
      Reply(StatusBadRequest, ServerHeaders(packageVersion), ErrBadRequest, false)
  {
  }

  /** An absolute URI is answered as its serialized path would be. */
  lemma AbsoluteUriLikePath(s: string, fs: FileSystem, openOk: bool)
    ensures Dispatch(AbsoluteUri(Some(s)), fs, openOk) == Dispatch(AbsolutePath(s), fs, openOk)
  {
  }

  /** The listing test comes before the existence test: `/` lists the
      document root whatever the filesystem holds, `index.html` included. */
  lemma RootAlwaysLists(fs: FileSystem, openOk: bool)
    ensures Dispatch(AbsolutePath("/"), fs, openOk) == DirectoryListing("")
  {
    assert RequestPath(AbsolutePath("/")) == Ok(Some(""));
    assert !IsAbsolute("");
  }

  /** After the leading `/` the request path is taken as it is: when it is
      not absolute, the outcome is the one the lookup path's node calls for. */
  lemma PathOutcome(c: char, p: string, fs: FileSystem, openOk: bool)
    requires p != [] && !IsAbsolute(p)
    ensures var q := LookupPath(p);
      Dispatch(AbsolutePath([c] + p), fs, openOk) ==
        if IsDir(fs, q) then DirectoryListing(p)
        else if !Exists(fs, q) then NotFound
        else if !openOk then OpenFailed
        else Stream(q)
  {
    assert ([c] + p)[1..] == p;
    assert RequestPath(AbsolutePath([c] + p)) == Ok(Some(p));
  }

  /** A path with a second leading separator reaches the classifier as an
      absolute path: the handler panics before writing anything. */
  lemma DoubleSlashAborts(rest: string, fs: FileSystem, openOk: bool, packageVersion: string)
    ensures Serve(AbsolutePath("//" + rest), fs, openOk, packageVersion) ==
      Reply(StatusOk, ServerHeaders(packageVersion), [], true)
  {
    assert ("//" + rest)[1..] == "/" + rest;
    assert RequestPath(AbsolutePath("//" + rest)) == Ok(Some("/" + rest));
  }

  /** Listings never panic: whenever the handler lists, `./` followed by
      the request path names a directory, because the listing test asked
      about that path or about the default document inside it. */
  lemma ListingReadable(uri: RequestUri, fs: FileSystem, openOk: bool)
    requires WellFormed(fs)
    requires Dispatch(uri, fs, openOk).DirectoryListing?
    ensures IsDir(fs, DirPath(Dispatch(uri, fs, openOk).dirname))
  {
    var p := RequestPath(uri).value.value;
    assert Dispatch(uri, fs, openOk) == PathDispatch(p, fs, openOk);
    PathListingReadable(p, fs, openOk);
  }

  lemma PathListingReadable(p: string, fs: FileSystem, openOk: bool)
    requires WellFormed(fs)
    requires PathDispatch(p, fs, openOk).DirectoryListing?
    ensures PathDispatch(p, fs, openOk).dirname == p
    ensures IsDir(fs, DirPath(p))
  {
    if p == "" {
      CwdListable(fs);
    } else {
      var c := RequestDirindex(fs, p).value;
      assert c.isDir && c.path == LookupPath(p);
      DirOfLookup(fs, p);
      CurDirPrefix(fs, p);
    }
  }

  /** `./` names the document root. */
  lemma CwdListable(fs: FileSystem)
    requires WellFormed(fs)
    ensures Resolve(fs, DirPath("")) == Some(fs.cwd)
    ensures IsDir(fs, DirPath(""))
  {
    assert DirPath("") == "." + [Separator] + "";
    SplitAppend(".", "");
    SplitSingle(".");
    assert Split("./") == [".", ""];
    assert Walk(fs, fs.cwd, [".", ""]) == Some(fs.cwd);
  }

  /** When the lookup path of `d` is a directory, so is `d`. */
  lemma DirOfLookup(fs: FileSystem, d: string)
    requires d != [] && !IsAbsolute(d)
    requires IsDir(fs, LookupPath(d))
    ensures IsDir(fs, d)
  {
    if FileName(d).None? {
      ResolvePush(fs, d, DefaultDocument);
    }
  }

  /** The document root is listed in full: its page names every entry of
      the working directory and never panics. */
  lemma RootListing(fs: FileSystem, openOk: bool, packageVersion: string)
    requires WellFormed(fs)
    ensures var r := Serve(AbsolutePath("/"), fs, openOk, packageVersion);
      && r.status == StatusOk && !r.aborted
      && r.body == Encode(Page("", Entries(fs, fs.cwd, fs.nodes[fs.cwd].names)))
  {
    RootAlwaysLists(fs, openOk);
    CwdListable(fs);
    assert ReadDir(fs, DirPath("")) == Some(fs.nodes[fs.cwd].names);
    assert Rendered(fs, "") == (Encode(Page("", Entries(fs, fs.cwd, fs.nodes[fs.cwd].names))), false);
  }

  /** A directory's name in the document root, with or without a trailing
      separator, resolves to that child. */
  lemma ChildResolves(fs: FileSystem, n: string)
    requires WellFormed(fs) && IsNormalName(n) && IsDirAt(fs, fs.cwd + [n])
    ensures Resolve(fs, n) == Some(fs.cwd + [n])
    ensures Resolve(fs, n + "/") == Some(fs.cwd + [n])
  {
    SplitSingle(n);
    assert n[0] != Separator;
    assert Walk(fs, fs.cwd, [n]) == Some(fs.cwd + [n]);
    SplitAppend(n, "");
    assert n + "/" == n + [Separator] + "";
    assert Split(n + "/") == [n, ""];
    assert (n + "/")[0] == n[0];
    assert Walk(fs, fs.cwd, [n, ""]) == Walk(fs, fs.cwd + [n], [""]);
  }

  /** A subdirectory is listed too, with or without a trailing separator. */
  lemma SubdirectoryLists(n: string, fs: FileSystem, openOk: bool)
    requires WellFormed(fs) && IsNormalName(n) && IsDirAt(fs, fs.cwd + [n])
    ensures Dispatch(AbsolutePath("/" + n), fs, openOk) == DirectoryListing(n)
    ensures Dispatch(AbsolutePath("/" + n + "/"), fs, openOk) == DirectoryListing(n + "/")
  {
    ChildResolves(fs, n);
    SplitSingle(n);
    assert LookupPath(n) == n;
    PathOutcome('/', n, fs, openOk);
    assert "/" + n == ['/'] + n;
    var m := n + "/";
    FileNameIgnoresTrailing(n);
    assert m == n + [Separator];
    assert LookupPath(m) == m;
    PathOutcome('/', m, fs, openOk);
    assert "/" + n + "/" == ['/'] + m;
  }

  /** A path with no file name serves its default document when that is a file. */
  lemma DefaultServed(uri: RequestUri, p: string, fs: FileSystem, data: seq<byte>, packageVersion: string)
    requires uri == AbsolutePath("/" + p)
    requires p != [] && !IsAbsolute(p) && FileName(p).None?
    requires Stat(fs, Push(p, DefaultDocument)) == Some(File(data))
    ensures Serve(uri, fs, true, packageVersion) ==
      Reply(StatusOk, ServerHeaders(packageVersion), data, false)
  {
    var q := Push(p, DefaultDocument);
    assert LookupPath(p) == q;
    assert !IsDir(fs, q) && Exists(fs, q);
    PathOutcome('/', p, fs, true);
    assert "/" + p == ['/'] + p;
    assert Dispatch(AbsolutePath("/" + p), fs, true) == Stream(q);
  }

  /** `.` names no file, and its default document is `./index.html`. */
  lemma DotDefault()
    ensures FileName(".").None? && Push(".", DefaultDocument) == "./index.html"
    ensures "/" + "." == "/."
  {
    SplitSingle(".");
  }

  /** `/.` names no file, so it serves `./index.html` where `/` lists. */
  lemma DotServesIndex(fs: FileSystem, data: seq<byte>, packageVersion: string)
    requires Stat(fs, "./index.html") == Some(File(data))
    ensures Serve(AbsolutePath("/."), fs, true, packageVersion) ==
      Reply(StatusOk, ServerHeaders(packageVersion), data, false)
  {
    DotDefault();
    DefaultServed(AbsolutePath("/."), ".", fs, data, packageVersion);
  }

  /** A file that opens is served byte for byte. */
  lemma FileServed(p: string, fs: FileSystem, data: seq<byte>, packageVersion: string)
    requires p != [] && !IsAbsolute(p) && FileName(p).Some?
    requires Stat(fs, p) == Some(File(data))
    ensures Serve(AbsolutePath("/" + p), fs, true, packageVersion) ==
      Reply(StatusOk, ServerHeaders(packageVersion), data, false)
  {
    PathOutcome('/', p, fs, true);
    assert "/" + p == ['/'] + p;
  }

  /** A file that does not open gets the fixed 500 page. */
  lemma OpenFailure(p: string, fs: FileSystem, data: seq<byte>, packageVersion: string)
    requires p != [] && !IsAbsolute(p) && FileName(p).Some?
    requires Stat(fs, p) == Some(File(data))
    ensures Serve(AbsolutePath("/" + p), fs, false, packageVersion) ==
      Reply(StatusInternalServerError, ServerHeaders(packageVersion), ErrInternalServerError, false)
  {
    PathOutcome('/', p, fs, false);
    assert "/" + p == ['/'] + p;
  }

  /** A lookup path that does not exist gets the fixed 404 page, whether
      or not the file could have been opened. */
  lemma MissingNotFound(p: string, fs: FileSystem, openOk: bool, packageVersion: string)
    requires p != [] && !IsAbsolute(p)
    requires !Exists(fs, LookupPath(p))
    ensures Serve(AbsolutePath("/" + p), fs, openOk, packageVersion) ==
      Reply(StatusNotFound, ServerHeaders(packageVersion), ErrNotFound, false)
  {
    PathOutcome('/', p, fs, openOk);
    assert "/" + p == ['/'] + p;
  }

  /** Nothing confines a request to the document root: `..` pieces are
      resolved like any others, so with the document root at `/top` the
      request `/../a/b` is answered with the file `/a/b`. */
  lemma ParentEscapesRoot(fs: FileSystem, top: string, a: string, b: string, data: seq<byte>,
                          packageVersion: string)
    requires IsNormalName(top) && IsNormalName(a) && IsNormalName(b)
    requires fs.cwd == [top] && IsDirAt(fs, [top]) && IsDirAt(fs, []) && IsDirAt(fs, [a])
    requires [a, b] in fs.nodes && fs.nodes[[a, b]] == File(data)
    ensures Serve(AbsolutePath("/../" + a + "/" + b), fs, true, packageVersion) ==
      Reply(StatusOk, ServerHeaders(packageVersion), data, false)
  {
    var p := "../" + a + "/" + b;
    assert "/../" + a + "/" + b == "/" + p;
    TraversalPath(a, b);
    TraversalResolves(fs, top, a, b);
    assert Stat(fs, p) == Some(File(data));
    FileServed(p, fs, data, packageVersion);
  }

  lemma TraversalResolves(fs: FileSystem, top: string, a: string, b: string)
    requires IsNormalName(top) && IsNormalName(a) && IsNormalName(b)
    requires fs.cwd == [top] && IsDirAt(fs, [top]) && IsDirAt(fs, []) && IsDirAt(fs, [a])
    ensures Resolve(fs, "../" + a + "/" + b) == Some([a, b])
  {
    TraversalPath(a, b);
    assert ["..", a, b][1..] == [a, b] && [a, b][1..] == [b];
    assert Step([], a) == [a] by { assert [] + [a] == [a]; }
    assert Step([a], b) == [a, b];
    assert Walk(fs, [top], ["..", a, b]) == Walk(fs, [], [a, b]);
    assert Walk(fs, [], [a, b]) == Walk(fs, [a], [b]);
    assert Walk(fs, [a], [b]) == Walk(fs, [a, b], []);
  }

  lemma TraversalPath(a: string, b: string)
    requires IsNormalName(a) && IsNormalName(b)
    ensures Split("../" + a + "/" + b) == ["..", a, b]
    ensures FileName("../" + a + "/" + b) == Some(b)
    ensures !IsAbsolute("../" + a + "/" + b)
  {
    var rest := a + "/" + b;
    assert rest == a + [Separator] + b;
    SplitAppend(a, b);
    assert "../" + a + "/" + b == ".." + [Separator] + rest;
    SplitAppend("..", rest);
    SplitSingle("..");
    SplitSingle(a);
    SplitSingle(b);
  }

  /** A document root holding the file `a.txt` and the directory `sub`. */
  function SampleRoot(): FileSystem
  {
    FileSystem(map[[] := Dir(["a.txt", "sub"]), ["a.txt"] := File([]), ["sub"] := Dir([])], [])
  }

  /** Listing that root links `a.txt` as it is and `sub` with a trailing
      separator on the link only. */
  lemma SampleListing(openOk: bool, packageVersion: string)
    ensures Serve(AbsolutePath("/"), SampleRoot(), openOk, packageVersion).body ==
      Encode(Page("", [Entry("a.txt", false), Entry("sub", true)]))
  {
    SampleRootWellFormed();
    RootListing(SampleRoot(), openOk, packageVersion);
    SampleEntries();
  }

  lemma SampleEntries()
    ensures Entries(SampleRoot(), [], ["a.txt", "sub"]) == [Entry("a.txt", false), Entry("sub", true)]
  {
    var fs := SampleRoot();
    assert ["a.txt", "sub"][..1] == ["a.txt"];
    assert ["a.txt"][..0] == [];
    assert IsDirAt(fs, [] + ["sub"]) by {
      assert [] + ["sub"] == ["sub"];
    }
    assert !IsDirAt(fs, [] + ["a.txt"]) by {
      assert [] + ["a.txt"] == ["a.txt"];
    }
  }

  lemma SampleItems()
    ensures Items([Entry("a.txt", false), Entry("sub", true)]) ==
      ItemOpen + "a.txt" + ItemMid + "a.txt" + ItemClose + ItemOpen + "sub/" + ItemMid + "sub" + ItemClose
  {
    var es := [Entry("a.txt", false), Entry("sub", true)];
    assert es[1..] == [Entry("sub", true)];
    assert Items(es) == Item(es[0]) + Item(es[1]);
  }

  lemma SampleRootWellFormed()
    ensures WellFormed(SampleRoot())
  {
    var fs := SampleRoot();
    assert IsNormalName("a.txt") && IsNormalName("sub");
    forall loc, i | loc in fs.nodes && fs.nodes[loc].Dir? && 0 <= i < |fs.nodes[loc].names|
      ensures IsNormalName(fs.nodes[loc].names[i]) && loc + [fs.nodes[loc].names[i]] in fs.nodes
    {
      assert loc == [];
      if i == 0 {
        assert loc + ["a.txt"] == ["a.txt"];
      } else {
        assert loc + ["sub"] == ["sub"];
      }
    }
  }
}
