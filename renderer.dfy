/** The directory renderer (`render_directory`): starts the response,
    writes the title and heading, lists the directory, closes the page. */
module Renderer {
  import opened Wrappers
  import opened Utf8
  import opened Paths
  import opened FileSystem
  import opened Listing
  import opened Http

  /** The path handed to `read_dir`: the directory name behind `./`. */
  function DirPath(dirname: string): string
  {
    "./" + dirname
  }

  /** The listed entries of the directory at `loc`: each name in iteration
      order, marked a directory when the node the name leads to is one. */
  function Entries(fs: FileSystem, loc: Location, names: seq<string>): (r: seq<Entry>)
    ensures |r| == |names|
    ensures forall i :: 0 <= i < |r| ==> r[i].name == names[i]
  {
    if names == [] then []
    else
      var last := names[|names| - 1];
      Entries(fs, loc, names[..|names| - 1]) + [Entry(last, IsDirAt(fs, loc + [last]))]
  }

  /** The bytes the renderer writes for `dirname`, and whether it panicked:
      when `read_dir` fails, the title and heading have already gone out. */
  function Rendered(fs: FileSystem, dirname: string): (r: (seq<byte>, bool))
    ensures r.1 <==> !IsDir(fs, DirPath(dirname))
  {
    match ReadDir(fs, DirPath(dirname))
    case None => (Encode(Title(dirname) + Heading(dirname)), true)
    case Some(names) =>
      (Encode(Page(dirname, Entries(fs, Resolve(fs, DirPath(dirname)).value, names))), false)
  }

  method RenderDirectory(res: Response, fs: FileSystem, dirname: string) returns (aborted: bool)
    requires WellFormed(fs)
    requires res.phase == Fresh
    modifies res
    ensures res.body == old(res.body) + Rendered(fs, dirname).0
    ensures aborted == Rendered(fs, dirname).1
    ensures res.phase == if aborted then Streaming else Ended
    ensures res.status == old(res.status) && res.headers == old(res.headers)
  {
    var path := DirPath(dirname);
    res.Start();
    res.Write(Encode(Title(dirname)));
    res.Write(Encode(Heading(dirname)));
    var dir := ReadDir(fs, path);
    if dir.None? {
      RenderedUnreadable(fs, dirname);
      return true;
    }
    ghost var loc := Resolve(fs, path).value;
    ListedNamesNormal(fs, loc);
    WriteListing(res, fs, path, loc, dir.value);
    WriteGrouping(old(res.body), Encode(Title(dirname)), Encode(Heading(dirname)), ItemBytes(fs, loc, dir.value), Encode(Footer));
    RenderedListing(fs, dirname, loc, dir.value);
    aborted := false;
  }

  /** The rest of a listing once the directory has been read: its items,
      the footer, and the end of the body. */
  method WriteListing(res: Response, fs: FileSystem, path: string, ghost loc: Location, names: seq<string>)
    requires Resolve(fs, path) == Some(loc) && IsDirAt(fs, loc)
    requires forall k :: 0 <= k < |names| ==> IsNormalName(names[k])
    requires res.phase == Streaming
    modifies res
    ensures res.body == old(res.body) + ItemBytes(fs, loc, names) + Encode(Footer)
    ensures res.phase == Ended
    ensures res.status == old(res.status) && res.headers == old(res.headers)
  {
    WriteItems(res, fs, path, loc, names);
    res.Write(Encode(Footer));
    res.End();
  }

  /** The `for entry in dir` loop over the directory `path` resolves to: one
      list item per entry, in order, each tagged by asking whether the
      entry's path is a directory. */
  method WriteItems(res: Response, fs: FileSystem, path: string, ghost loc: Location, names: seq<string>)
    requires Resolve(fs, path) == Some(loc) && IsDirAt(fs, loc)
    requires forall k :: 0 <= k < |names| ==> IsNormalName(names[k])
    requires res.phase == Streaming
    modifies res
    ensures res.body == old(res.body) + ItemBytes(fs, loc, names)
    ensures res.phase == Streaming
    ensures res.status == old(res.status) && res.headers == old(res.headers)
  {
    for i := 0 to |names|
      invariant res.body == old(res.body) + ItemBytes(fs, loc, names[..i])
      invariant res.phase == Streaming
      invariant res.status == old(res.status) && res.headers == old(res.headers)
    {
      var isDir := EntryIsDir(fs, path, loc, names[i]);
      assert names[..i + 1][..i] == names[..i];
      res.Write(Encode(Item(Entry(names[i], isDir))));
    }
    assert names[..|names|] == names;
  }

  /** `entry.path().is_dir()`: the entry's path is the directory path joined
      with its name, and that path names exactly the node the name leads
      to. */
  method EntryIsDir(fs: FileSystem, path: string, ghost loc: Location, name: string)
    returns (isDir: bool)
    requires Resolve(fs, path) == Some(loc) && IsDirAt(fs, loc)
    requires IsNormalName(name)
    ensures isDir == IsDirAt(fs, loc + [name])
  {
    isDir := IsDir(fs, Push(path, name));
    ResolvePush(fs, path, name);
  }

  /** The bytes of the list items of the directory at `loc`, one entry's
      item after another. */
  function ItemBytes(fs: FileSystem, loc: Location, names: seq<string>): seq<byte>
  {
    if names == [] then []
    else
      var last := names[|names| - 1];
      ItemBytes(fs, loc, names[..|names| - 1]) + Encode(Item(Entry(last, IsDirAt(fs, loc + [last]))))
  }

  /** The item bytes are the encoding of the items of the entries. */
  lemma {:induction false} ItemBytesEntries(fs: FileSystem, loc: Location, names: seq<string>)
    ensures ItemBytes(fs, loc, names) == Encode(Items(Entries(fs, loc, names)))
  {
    if names != [] {
      var n := |names|;
      var front := names[..n - 1];
      var e := Entry(names[n - 1], IsDirAt(fs, loc + [names[n - 1]]));
      ItemBytesEntries(fs, loc, front);
      ItemsAppend(Entries(fs, loc, front), e);
      EncodeAppend(Items(Entries(fs, loc, front)), Item(e));
    }
  }

  /** When the directory cannot be read, the renderer has written the title
      and the heading, and panics. */
  lemma RenderedUnreadable(fs: FileSystem, dirname: string)
    requires ReadDir(fs, DirPath(dirname)).None?
    ensures Rendered(fs, dirname) == (Encode(Title(dirname)) + Encode(Heading(dirname)), true)
  {
    EncodeAppend(Title(dirname), Heading(dirname));
  }

  /** When the directory can be read, the rendered bytes are the title,
      the heading, the items and the footer, one after another. */
  lemma RenderedListing(fs: FileSystem, dirname: string, loc: Location, names: seq<string>)
    requires ReadDir(fs, DirPath(dirname)) == Some(names) && Resolve(fs, DirPath(dirname)) == Some(loc)
    ensures Rendered(fs, dirname) ==
      (Encode(Title(dirname)) + Encode(Heading(dirname)) + ItemBytes(fs, loc, names) + Encode(Footer), false)
  {
    PageBytes(dirname, Entries(fs, loc, names));
    ItemBytesEntries(fs, loc, names);
  }

  /** The response body after the page is written: what was there, then the page's four parts. */
  lemma WriteGrouping(a: seq<byte>, b: seq<byte>, c: seq<byte>, d: seq<byte>, e: seq<byte>)
    ensures a + b + c + d + e == a + (b + c + d + e)
  {
  }

  /** A page's bytes are its parts' bytes, in order. */
  lemma PageBytes(dirname: string, es: seq<Entry>)
    ensures Encode(Page(dirname, es)) ==
      Encode(Title(dirname)) + Encode(Heading(dirname)) + Encode(Items(es)) + Encode(Footer)
  {
    EncodeAppend(Title(dirname), Heading(dirname));
    EncodeAppend(Title(dirname) + Heading(dirname), Items(es));
    EncodeAppend(Title(dirname) + Heading(dirname) + Items(es), Footer);
  }

  /** Every name a directory of a well-formed filesystem lists is a normal
      name. */
  lemma ListedNamesNormal(fs: FileSystem, loc: Location)
    requires WellFormed(fs) && IsDirAt(fs, loc)
    ensures forall k :: 0 <= k < |fs.nodes[loc].names| ==> IsNormalName(fs.nodes[loc].names[k])
  {
  }

  /** Each entry of a listing marks exactly the names that lead to a
      directory. */
  lemma {:induction false} EntriesMarkDirectories(fs: FileSystem, loc: Location, names: seq<string>)
    ensures forall i :: 0 <= i < |names| ==>
      Entries(fs, loc, names)[i] == Entry(names[i], IsDirAt(fs, loc + [names[i]]))
  {
    if names != [] {
      EntriesMarkDirectories(fs, loc, names[..|names| - 1]);
    }
  }

  /** On a well-formed filesystem the `/` suffix of a listed entry agrees
      with `is_dir` on the entry's own path, the directory path joined with
      the entry's name, as the source asks it. */
  lemma EntryTagsMarkDirectories(fs: FileSystem, dirname: string)
    requires WellFormed(fs)
    requires IsDir(fs, DirPath(dirname))
    ensures var names := ReadDir(fs, DirPath(dirname)).value;
      var es := Entries(fs, Resolve(fs, DirPath(dirname)).value, names);
      forall i :: 0 <= i < |es| ==> es[i] == Entry(names[i], IsDir(fs, Push(DirPath(dirname), names[i])))
  {
    var path := DirPath(dirname);
    var loc := Resolve(fs, path).value;
    var names := ReadDir(fs, path).value;
    assert names == fs.nodes[loc].names;
    var es := Entries(fs, loc, names);
    EntriesMarkDirectories(fs, loc, names);
    forall i | 0 <= i < |es|
      ensures es[i] == Entry(names[i], IsDir(fs, Push(path, names[i])))
    {
      assert IsNormalName(names[i]);
      ResolvePush(fs, path, names[i]);
    }
  }
}
