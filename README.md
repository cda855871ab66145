# hyttpd request handling, modelled in Dafny

hyttpd is a small static file server written in Rust on top of hyper. Each
request goes through these steps:

1. The handler sets the `Server` header.
2. It takes the relative path from the request-target (`request_path`).
3. It substitutes `index.html` when that path names no file, and asks the
   filesystem whether the result exists and whether it is a directory
   (`request_dirindex`).
4. It then answers in one of five ways:
   - 400 with a fixed page for a request-target that is not a path;
   - an HTML listing (`render_directory`) for a directory or for the
     document root;
   - 404 with a fixed page for a missing path;
   - 500 with a fixed page when the file cannot be opened;
   - otherwise, the file's bytes, copied by the `fill_buf`/`consume` loop.

This project models those steps and proves what each one promises.

Modules, one per concern of `src/main.rs`:

- `Wrappers`: `Option`, and `Fallible`. `Fallible` records a Rust panic as
  `Abort`.
- `Utf8`: bytes, the UTF-8 encoding behind `str::as_bytes`, and byte-string
  literals.
- `Paths`: the parts of `std::path` the server relies on, on Unix:
  - splitting at `/` and joining back;
  - `is_absolute`;
  - `file_name`;
  - `push`, which is also `set_file_name` when there is no file name, the
    only case the server reaches.
- `FileSystem`: the server's view of the filesystem.
  - It is a map from locations to files (bytes) and directories (entry
    names in iteration order), plus the working directory, which is the
    document root.
  - `stat` is a walk over the path's pieces. Every step needs a directory;
    `.` and empty pieces stay, and `..` goes up.
  - On top of `stat` are `exists`, `is_dir` and `read_dir`.
- `Resolver`: `request_path` and `request_dirindex`.
- `Listing`: the listing's exact text, and a parser that reads it back.
- `Http`: the response as a class, with status, headers, body bytes and a
  typestate (fresh, streaming, ended). It also holds the three error pages
  and the server identity.
- `Renderer`: `render_directory`. It is a method whose loop writes one list
  item per directory entry, proved against the page text from `Listing`.
- `Streamer`: `BufReader` as a class with `fill_buf` and `consume`, and the
  copy loop. The loop is proved to write exactly the file's bytes.
- `Handler`: the handler's decision (`Dispatch`), the reply it produces
  (`Serve`), and `HandleRequest`, the imperative handler proved equal to
  `Serve`.

Facts about the behaviour that the proofs make explicit:

- The listing test comes before the existence test. So `/` always lists
  the document root, even when an `index.html` exists there
  (`Handler.RootAlwaysLists`). But `/.` names no file, so it serves
  `./index.html` (`Handler.DotServesIndex`).
- Subdirectories are listed too, with or without a trailing `/`. The
  reason is that `request_dirindex` keeps a path that has a file name, and
  `file_name` skips trailing empty and `.` pieces: `sub`, `sub/` and
  `sub/.` all have the file name `sub`. `index.html` is appended only to
  paths whose last piece, once trailing `/` and `.` pieces are skipped, is
  `..` or missing, such as the empty path, `.`, `./` and `a/..`
  (`Paths.FileNameIsLast`, `Handler.SubdirectoryLists`,
  `Resolver.TrailingSeparatorKept`).
  - A reader might expect only the document root to be listed. The code
    lists every subdirectory, because `sub` and `sub/` keep their file
    name.
- Only one leading `/` is removed. So `//x` reaches `request_dirindex` as
  the absolute path `/x`, and the handler panics before writing anything
  (`Handler.DoubleSlashAborts`).
- Nothing else confines a request to the document root. `..` pieces
  resolve like any others, so `/../a/b` serves the file `a/b` next to the
  document root (`Handler.ParentEscapesRoot`).
- Every reply carries exactly the `Server` header.
- `Serve` is a function of the request, the filesystem and the open result.
  So repeating a request against an unchanged filesystem yields the same
  response.

## Model

| member | source | states |
|---|---|---|
| Utf8.EncodeChar | src/main.rs:87-90 | one Unicode scalar value becomes 1 to 4 bytes; a single byte, equal to the code, exactly when the code is below 0x80; every byte after the first is a continuation byte; the leading byte lies in the range its length requires |
| Utf8.Encode | src/main.rs:87-101 | `as_bytes` of a text: the bytes of each character in turn (defined, no contract of its own; its properties are the lemmas below) |
| Utf8.EncodeAppend | src/main.rs:87-90 | encoding two texts one after the other gives the same bytes as encoding their concatenation, so successive `write` calls of text add up to the text's bytes |
| Utf8.EncodeLength | src/main.rs:87-101 | a text of n characters encodes to between n and 4n bytes |
| Utf8.EncodeLengthAscii | src/main.rs:87-101 | a text encodes to exactly one byte per character exactly when it is ASCII |
| Utf8.EncodeAscii | src/main.rs:27-32 | ASCII text encodes to one byte per character, each byte the character's code |
| Utf8.ByteString | src/main.rs:27-32 | a byte-string literal has one byte per character, each the character's code |
| Utf8.ByteStringEncode | src/main.rs:27-32 | for ASCII text the byte-string literal and the UTF-8 encoding are the same bytes |
| Paths.Split | src/main.rs:63-80 | a path splits at `/` into at least one piece, and no piece contains `/` |
| Paths.SplitAppend | src/main.rs:63-80 | splitting `a/b` gives the pieces of `a` followed by the pieces of `b` |
| Paths.SplitSingle | src/main.rs:63-80 | a text without `/` is a single piece |
| Paths.SplitJoin | src/main.rs:63-80 | joining the pieces of a path with `/` gives the path back |
| Paths.JoinSplit | src/main.rs:63-80 | splitting pieces joined with `/` gives the pieces back, when no piece contains `/` |
| Paths.LastName | src/main.rs:70 | the name found is a normal name (not empty, `.` or `..`, no `/`) and is one of the pieces |
| Paths.LastNameIsLast | src/main.rs:70 | the name found is the last piece once trailing empty and `.` pieces are skipped; there is none when that piece is `..` or every piece is skipped |
| Paths.FileName | src/main.rs:70 | `file_name`, when present, is a normal name and one of the path's pieces |
| Paths.FileNameIsLast | src/main.rs:70 | `file_name` is the last piece of the path once trailing empty and `.` pieces are skipped, and is absent exactly when that piece is `..` or every piece is skipped |
| Paths.AbsoluteStartsAtRoot | src/main.rs:66 | `is_absolute` holds exactly when the path is not empty and its first piece is the empty name before the root `/` |
| Paths.Push | src/main.rs:71 | `PathBuf::push`, which is `set_file_name` on a path without a file name (defined; its properties are `PushShape`, `PushSplit` and `PushFileName`) |
| Paths.PushShape | src/main.rs:71 | an absolute name, or a push onto the empty path, gives the name alone; otherwise the path, then exactly one `/`, added only when the path does not end in one, then the name |
| Paths.PushSplit | src/main.rs:71 | pushing a relative name adds its pieces after the path's; a trailing empty piece of the path (a path ending in `/`) is replaced |
| Paths.PushFileName | src/main.rs:70-72 | after the default document is set, the path's file name is that name |
| Paths.FileNameIgnoresTrailing | src/main.rs:70 | `p/` and `p/.` have the file name of `p` |
| Paths.FileNameParent | src/main.rs:70 | a path ending in `..`, and `..` alone, have no file name |
| FileSystem.ReadDir | src/main.rs:92-95 | `read_dir` succeeds exactly when the path names a directory, and then yields that directory's own names in order |
| FileSystem.IsDir | src/main.rs:76 | `is_dir` holds only of a path that also `exists` |
| FileSystem.Stat | src/main.rs:76 | the node a path names, behind `exists` and `is_dir` (defined; its property is `StatThroughDirectories`) |
| FileSystem.WalkPrefixes | src/main.rs:74-77 | when resolution succeeds, every proper prefix of the pieces resolves to a directory |
| FileSystem.StatThroughDirectories | src/main.rs:74-77 | a path that exists is not empty, and every piece before its last is looked up in a directory, so nothing below a regular file exists |
| FileSystem.WalkAppend | src/main.rs:74-77 | resolving pieces `a` then `b` resolves `a` first, then goes on with `b` from where `a` ended |
| FileSystem.WalkThroughDir | src/main.rs:74-77 | when a path resolves, every location it passes through on the way is a directory |
| FileSystem.CurDirPrefix | src/main.rs:83-84 | `./p` names what `p` names, for a relative, non-empty `p` |
| FileSystem.ResolvePush | src/main.rs:96-98 | a directory path joined with a normal name names that child of the directory, and names nothing when the path is not a directory |
| Resolver.RemoveFirst | src/main.rs:46 | `remove(0)` succeeds exactly on a non-empty text and returns it without its first character; on an empty text it panics |
| Resolver.RequestPath | src/main.rs:41-61 | no path exactly for a target that is neither a path nor an absolute URI; for a path, the path without its first character; for an absolute URI, its serialized path without its first character; a panic when the text is empty or the URI has no serializable path |
| Resolver.RequestDirindex | src/main.rs:63-80 | panics exactly on an absolute path; keeps a path that has a file name; otherwise appends `index.html`, which becomes the file name (the returned path is `LookupPath` of the request path); the two flags say whether the returned path exists and whether it is a directory; a directory always exists |
| Resolver.PathFormDropsFirst | src/main.rs:43-48 | exactly the first character is dropped, whatever it is; `/` gives the empty path |
| Resolver.DoubleSlashAborts | src/main.rs:63-68 | `//etc` becomes the absolute path `/etc`, and the classifier panics on it |
| Resolver.TrailingSeparatorKept | src/main.rs:70-72 | for a normal name `n`, `n/` and `n/.` are each looked up as they are, with no `index.html` appended |
| Resolver.EmptyGetsDefault | src/main.rs:70-72 | the empty path is looked up as `index.html` |
| Resolver.DotGetsDefault | src/main.rs:70-72 | `.` is looked up as `./index.html` |
| Resolver.ParentGetsDefault | src/main.rs:70-72 | `a/..` is looked up as `a/../index.html` |
| Listing.ItemsAppend | src/main.rs:96-102 | the items of one more entry are the earlier items followed by that entry's item |
| Listing.Title | src/main.rs:87-88 | the first write: the title text with the directory name unescaped (defined; inverted by `PageRoundTrip`) |
| Listing.Heading | src/main.rs:89-90 | the second write: the heading and the opening of the list (defined; inverted by `PageRoundTrip`) |
| Listing.Item | src/main.rs:97-101 | one list item: the name with its `/` tag as the link target, the bare name as the text (defined; inverted by `ParseItemRoundTrip`) |
| Listing.Items | src/main.rs:96-102 | the items of the entries in iteration order (defined; inverted by `ParseItemsRoundTrip`) |
| Listing.Page | src/main.rs:86-105 | the whole page: title, heading, items, footer (defined; inverted by `PageRoundTrip`) |
| Listing.ParseItemRoundTrip | src/main.rs:99-101 | one list item reads back as its entry, name and directory mark, when the name has no `"` and no `<` |
| Listing.ItemNotFooter | src/main.rs:99-105 | no list item can be mistaken for the footer |
| Listing.ParseItemsRoundTrip | src/main.rs:96-105 | the items followed by the footer read back as the entries in order |
| Listing.PageRoundTrip | src/main.rs:82-107 | a listing page reads back as its directory name and its entries in order: the title, the heading, one item per entry with `/` marking directories on the link only, the footer |
| Http.Response.constructor | src/main.rs:109 | a response arrives with status 200, no headers and no body |
| Http.Response.SetStatus | src/main.rs:117 | sets the status and nothing else |
| Http.Response.SetHeader | src/main.rs:112 | sets one header and nothing else |
| Http.Response.Start | src/main.rs:86 | moves a fresh response to streaming, keeping status, headers and body |
| Http.Response.Write | src/main.rs:157 | appends the whole chunk to the body |
| Http.Response.End | src/main.rs:106 | ends the body and changes nothing else |
| Http.Response.Send | src/main.rs:120 | a whole body in one call: the body becomes these bytes and the response ends |
| Http.ServerIdVersion | src/main.rs:24-25 | `SERVER_VERSION` is `hyttpd/` followed by the package version verbatim, and two versions give the same value exactly when they are equal |
| Http.ErrorPageCode | src/main.rs:27-32 | an error page is an HTML page whose heading starts at byte 16 with its three-digit status code |
| Http.ErrorPagesNameStatus | src/main.rs:27-32 | the 400, 404 and 500 pages each carry their own status code there, so the three pages differ |
| Streamer.BufReader.constructor | src/main.rs:154 | a new reader has the whole file still to deliver |
| Streamer.BufReader.FillBuf | src/main.rs:156 | returns the buffered bytes, refilling an empty buffer from the file; nothing is lost or reordered; an empty result means the end of the file |
| Streamer.BufReader.Consume | src/main.rs:160 | drops the first `amt` buffered bytes, or the whole buffer when `amt` is larger |
| Streamer.StreamFile | src/main.rs:152-164 | the body gains exactly the file's bytes, in order; the reader is exhausted; the response ends with status and headers unchanged |
| Renderer.Entries | src/main.rs:96-102 | one entry per listed name, in iteration order, with that name |
| Renderer.Rendered | src/main.rs:82-107 | the bytes the renderer writes and whether it panics; it panics exactly when `./dirname` is not a directory |
| Renderer.EntriesMarkDirectories | src/main.rs:96-102 | entry i is the i-th listed name, marked exactly when the name leads to a directory |
| Renderer.EntryTagsMarkDirectories | src/main.rs:96-101 | on a well-formed filesystem each entry's directory mark equals `is_dir` on the entry's own path, the directory path joined with the name |
| Renderer.EntryIsDir | src/main.rs:98 | `entry.path().is_dir()` is true exactly when the entry's node is a directory |
| Renderer.WriteItems | src/main.rs:96-102 | the loop appends one item per entry, in order, and nothing else |
| Renderer.WriteListing | src/main.rs:96-106 | after reading the directory: the items, the footer, and the end of the body |
| Renderer.ItemBytesEntries | src/main.rs:96-102 | the items written one by one are the bytes of all the entries' items |
| Renderer.PageBytes | src/main.rs:87-105 | the page's bytes are those of the title, the heading, the items and the footer, in order |
| Renderer.RenderedUnreadable | src/main.rs:86-95 | when the directory cannot be read, the title and the heading have been written and the renderer panics |
| Renderer.RenderedListing | src/main.rs:86-106 | when the directory can be read, the renderer completes the page and does not panic |
| Renderer.ListedNamesNormal | src/main.rs:92-96 | every name a directory lists is a normal name |
| Renderer.RenderDirectory | src/main.rs:82-107 | the body gains exactly the rendered page (or its title and heading before a panic); the response ends unless it panicked; status and headers are unchanged |
| Resolver.LookupPath | src/main.rs:70-72 | the path looked up is the request path itself when that has a file name; otherwise it is the request path with `index.html` pushed onto it, whose file name is then `index.html`; either way it has a file name |
| Handler.Dispatch | src/main.rs:109-150 | a file is streamed only when the looked-up path names a regular file |
| Handler.PathDispatch | src/main.rs:124-150 | once a path is known the reply is never 400, and a file is streamed only when the path names a regular file |
| Handler.Respond | src/main.rs:112-164 | every reply carries exactly the `Server` header; 400, 404 and 500 each belong to exactly one outcome, and 200 to the listing, the file and a panic |
| Handler.Serve | src/main.rs:109-164 | every reply carries exactly the `Server` header and one of the statuses 200, 400, 404 and 500; each error status comes with its fixed page and never with a panic |
| Handler.HandleRequest | src/main.rs:109-164 | the response the handler leaves (status, headers, body, panic flag) is exactly `Serve` of the request, the filesystem and the open result, and it has been ended (`send` or `end`) exactly when the handler did not panic |
| Handler.HandlePath | src/main.rs:124-164 | the part after the request path leaves exactly the reply `Respond` gives for the outcome, ended exactly when it did not panic |
| Handler.BadRequestIff | src/main.rs:114-123 | the status is 400 exactly when the target is neither a path nor an absolute URI |
| Handler.BadRequestIgnoresFilesystem | src/main.rs:114-123 | then the reply is the fixed 400 page, the same whatever the filesystem holds and whether files open |
| Handler.AbsoluteUriLikePath | src/main.rs:41-61 | an absolute URI is handled exactly as a path equal to its serialized path |
| Handler.RootAlwaysLists | src/main.rs:128-131 | `/` lists the document root whatever the filesystem holds, `index.html` included |
| Handler.PathOutcome | src/main.rs:124-150 | for a relative path: a listing when the looked-up path is a directory, else 404 when it does not exist, else 500 when the file does not open, else the file |
| Handler.DoubleSlashAborts | src/main.rs:41-80 | a target starting with `//` panics with only the `Server` header set and nothing written |
| Handler.ListingReadable | src/main.rs:124-131 | whenever the handler lists, `./` followed by the request path names a directory, so `read_dir` never panics there |
| Handler.PathListingReadable | src/main.rs:124-131 | a listing of path `p` is a listing of `./p`, and `./p` is a directory |
| Handler.CwdListable | src/main.rs:83-84 | `./` names the document root, which is a directory |
| Handler.DirOfLookup | src/main.rs:70-77 | when the looked-up path of `d` is a directory, so is `d` |
| Handler.RootListing | src/main.rs:128-131 | `/` gets status 200 and the full listing of the document root, and never panics |
| Handler.ChildResolves | src/main.rs:74-77 | a directory's name in the document root, with or without a trailing `/`, names that directory |
| Handler.SubdirectoryLists | src/main.rs:124-131 | `/sub` and `/sub/` both list a subdirectory `sub` |
| Handler.DefaultServed | src/main.rs:124-164 | a relative request path without a file name, whose default document `index.html` is a regular file that opens, is answered 200 with exactly that file's bytes and only the `Server` header |
| Handler.DotServesIndex | src/main.rs:124-164 | `/.` serves the bytes of `./index.html` |
| Handler.FileServed | src/main.rs:141-164 | a regular file that opens is answered 200 with exactly its bytes and only the `Server` header |
| Handler.OpenFailure | src/main.rs:141-150 | a regular file that does not open is answered with the fixed 500 page |
| Handler.MissingNotFound | src/main.rs:133-139 | a looked-up path that does not exist is answered with the fixed 404 page, whether or not files open |
| Handler.ParentEscapesRoot | src/main.rs:63-80 | with the document root at `/top`, `/../a/b` is answered with the bytes of the file `/a/b` |
| Handler.TraversalResolves | src/main.rs:74-77 | `../a/b` names the file `a/b` next to the document root |
| Handler.TraversalPath | src/main.rs:63-72 | `../a/b` is relative, splits into `..`, `a` and `b`, and has the file name `b` |
| Handler.SampleListing | src/main.rs:82-107 | listing a root with the file `a.txt` and the directory `sub` gives the page with entries `a.txt` (unmarked) and `sub` (marked) |
| Handler.SampleEntries | src/main.rs:96-101 | in that root `a.txt` is not a directory and `sub` is |
| Handler.SampleItems | src/main.rs:99-101 | their items link `a.txt` and `sub/`, and show `a.txt` and `sub` |

## Left out

- `main`, the hyper server and listener, `HOST` and `PORT`, and the threads hyper runs the handler on. They are transport, not request handling.
- `log_request` and the `println!` calls. They only print.
- The clock read by `log_request`. It is used only for printing.
- The real filesystem. It is a map from locations to files and directories. Symbolic links, permissions and metadata errors are not modelled. Whether `File::open` succeeds is the parameter `openOk`.
- Entry errors of `read_dir` (`entry.unwrap()`) and names that are not valid Unicode (`to_str().unwrap()`). Names are strings here.
- Write, start, end and send failures of the transport, and short writes. Every write appends its whole chunk.
- The I/O error panic inside the copy loop (line 158).
- `serialize_path` of the URL library. Its result is the field `serializedPath` of an absolute URI.
- The value of `CARGO_PKG_VERSION`. It is the parameter `packageVersion` of `ServerId`.
- The headers hyper adds on its own (`Date`, `Content-Length`, `Transfer-Encoding`). A response starts with no headers here.
- What hyper does with a response after a panic. The model reports the panic, the status and headers set so far, and the bytes written so far.
- The message texts of `panic!`.
- Changes to the filesystem while a request is handled. The filesystem is one value for the whole request, so the `exists`/`is_dir` pair (line 76), `read_dir` (line 92), each entry's `is_dir` (line 98) and `File::open` (line 141) all see the same state. `Resolver.RequestDirindex`'s "a directory always exists" and the listing facts rely on this.
- FileSystem.WellFormed: does not require the converse, that every node below a directory is among the names the directory lists. So a node can exist without being listed. No proved property depends on that direction.
- The renderer and the handler require a well-formed filesystem. That means the document root is a directory, and every listed name is a normal name with a node of its own. A real filesystem normally has these properties, but the document root can be removed, and an entry can vanish between `read_dir` and `is_dir`.
- Renderer.Entries: marks an entry by the node its name leads to. The source asks `is_dir` of the entry's path. `Renderer.EntryTagsMarkDirectories` proves the two agree on a well-formed filesystem, and `Renderer.EntryIsDir` computes the mark with `is_dir`.
- Utf8.EncodeChar: states lengths, byte ranges and the one-byte case, but not how the code's bits are spread over the bytes.
- Utf8.ByteString: keeps a character above 0xFF to its low eight bits. Rust rejects such characters in byte-string literals, and none of the program's literals has one.
