/** The parts of Rust's `std::path` (Unix flavour) that the server relies on:
    splitting at separators, `is_absolute`, `file_name` and `PathBuf::push`. */
module Paths {
  import opened Wrappers

  const Separator: char := '/'

  /** The default document substituted for a path that names no file. */
  const DefaultDocument: string := "index.html"

  /** The pieces of `s` between separators, empty pieces included
      (`"a//b/"` gives `["a", "", "b", ""]`), as `str::split('/')` yields them. */
  function Split(s: string): (r: seq<string>)
    ensures |r| >= 1
    ensures forall i :: 0 <= i < |r| ==> Separator !in r[i]
    decreases |s|
  {
    if s == [] then [""]
    else
      var rest := Split(s[1..]);
      if s[0] == Separator then [""] + rest
      else [[s[0]] + rest[0]] + rest[1..]
  }

  /** The pieces put back together with one separator between neighbours. */
  function Join(segs: seq<string>): string
    requires |segs| >= 1
  {
    if |segs| == 1 then segs[0] else segs[0] + [Separator] + Join(segs[1..])
  }

  /** One character in front: a separator starts a new piece, any other
      character joins the first piece. */
  lemma SplitCons(c: char, s: string)
    ensures Split([c] + s) ==
      if c == Separator then [""] + Split(s) else [[c] + Split(s)[0]] + Split(s)[1..]
  {
    assert ([c] + s)[0] == c && ([c] + s)[1..] == s;
  }

  /** Putting a character in front of pieces followed by more pieces. */
  lemma ConsPieces(c: char, r: seq<string>, t: seq<string>)
    requires |r| >= 1
    ensures [""] + (r + t) == [""] + r + t
    ensures [[c] + (r + t)[0]] + (r + t)[1..] == [[c] + r[0]] + r[1..] + t
  {
    assert (r + t)[1..] == r[1..] + t;
  }

  /** Splitting at a separator splits the two sides independently. */
  lemma {:induction false} SplitAppend(a: string, b: string)
    ensures Split(a + [Separator] + b) == Split(a) + Split(b)
    decreases |a|
  {
    if a == [] {
      assert a + [Separator] + b == [Separator] + b;
      SplitCons(Separator, b);
    } else {
      var c := a[0];
      assert a == [c] + a[1..];
      assert a + [Separator] + b == [c] + (a[1..] + [Separator] + b);
      SplitAppend(a[1..], b);
      SplitCons(c, a[1..]);
      SplitCons(c, a[1..] + [Separator] + b);
      ConsPieces(c, Split(a[1..]), Split(b));
    }
  }

  /** A string without separators is a single piece. */
  lemma {:induction false} SplitSingle(s: string)
    requires Separator !in s
    ensures Split(s) == [s]
    decreases |s|
  {
    if s != [] {
      assert Separator !in s[1..] by {
        assert forall i :: 0 <= i < |s[1..]| ==> s[1..][i] == s[i + 1];
      }
      SplitSingle(s[1..]);
      assert [s[0]] + s[1..] == s;
    }
  }

  /** Joining the pieces of a string gives the string back. */
  lemma {:induction false} SplitJoin(s: string)
    ensures Join(Split(s)) == s
    decreases |s|
  {
    if s != [] {
      var rest := Split(s[1..]);
      SplitJoin(s[1..]);
      if s[0] == Separator {
        assert ([""] + rest)[1..] == rest;
        assert s == [Separator] + s[1..];
      } else if |rest| == 1 {
        assert s == [s[0]] + s[1..];
      } else {
        var r := [[s[0]] + rest[0]] + rest[1..];
        assert r[1..] == rest[1..];
        assert Join(rest) == rest[0] + [Separator] + Join(rest[1..]);
        assert s == [s[0]] + s[1..];
      }
    }
  }

  /** Splitting joined separator-free pieces gives the pieces back. */
  lemma {:induction false} JoinSplit(segs: seq<string>)
    requires |segs| >= 1
    requires forall i :: 0 <= i < |segs| ==> Separator !in segs[i]
    ensures Split(Join(segs)) == segs
    decreases |segs|
  {
    SplitSingle(segs[0]);
    if |segs| > 1 {
      JoinSplit(segs[1..]);
      SplitAppend(segs[0], Join(segs[1..]));
      assert [segs[0]] + segs[1..] == segs;
    }
  }

  /** `Path::is_absolute` on Unix: the path starts at the root. */
  predicate IsAbsolute(p: string)
  {
    |p| > 0 && p[0] == Separator
  }

  /** A path is absolute exactly when its first piece is the empty name
      before the root separator. */
  lemma AbsoluteStartsAtRoot(p: string)
    ensures IsAbsolute(p) <==> p != [] && Split(p)[0] == ""
  {
    if p != [] && p[0] != Separator {
      assert Split(p)[0] == [p[0]] + Split(p[1..])[0];
    }
  }

  /** A component `Path::components` reports as `Component::Normal`. */
  predicate IsNormalName(n: string)
  {
    n != "" && n != "." && n != ".." && Separator !in n
  }

  /** A piece `Path::components` drops: an empty piece or `.` after the
      first. */
  predicate Skipped(seg: string)
  {
    seg == "" || seg == "."
  }

  /** Every piece after position `k` is dropped. */
  predicate SkippedAfter(segs: seq<string>, k: nat)
  {
    forall j :: k < j < |segs| ==> Skipped(segs[j])
  }

  /** `Components::next_back` filtered to a normal name: trailing empty and
      `.` pieces are skipped; a `..` (or nothing left) means no file name. */
  function LastName(segs: seq<string>): (r: Option<string>)
    requires forall i :: 0 <= i < |segs| ==> Separator !in segs[i]
    ensures r.Some? ==> IsNormalName(r.value) && r.value in segs
    decreases |segs|
  {
    if segs == [] then None
    else
      var s := segs[|segs| - 1];
      if s == "" || s == "." then LastName(segs[..|segs| - 1])
      else if s == ".." then None
      else Some(s)
  }

  /** The name found is the last piece once the trailing dropped pieces are
      skipped; there is none when that piece is `..` or every piece is
      dropped. */
  lemma {:induction false} LastNameIsLast(segs: seq<string>)
    requires forall i :: 0 <= i < |segs| ==> Separator !in segs[i]
    ensures forall k :: 0 <= k < |segs| && !Skipped(segs[k]) && SkippedAfter(segs, k) ==>
      LastName(segs) == if segs[k] == ".." then None else Some(segs[k])
    ensures (forall k :: 0 <= k < |segs| ==> Skipped(segs[k])) ==> LastName(segs).None?
    decreases |segs|
  {
    if segs != [] {
      var n := |segs|;
      var front := segs[..n - 1];
      assert forall j :: 0 <= j < |front| ==> front[j] == segs[j];
      LastNameIsLast(front);
      if Skipped(segs[n - 1]) {
        forall k | 0 <= k < n && !Skipped(segs[k]) && SkippedAfter(segs, k)
          ensures LastName(segs) == if segs[k] == ".." then None else Some(segs[k])
        {
          assert k < n - 1;
          assert SkippedAfter(front, k);
        }
      } else {
        forall k | 0 <= k < n && !Skipped(segs[k]) && SkippedAfter(segs, k)
          ensures k == n - 1
        {
        }
      }
    }
  }

  /** `Path::file_name`: the last normal component, if the path ends in one. */
  function FileName(p: string): (r: Option<string>)
    ensures r.Some? ==> IsNormalName(r.value) && r.value in Split(p)
  {
    LastName(Split(p))
  }

  /** `file_name` is the last piece once trailing empty and `.` pieces are
      skipped, and there is none when that piece is `..` or every piece is
      skipped. */
  lemma FileNameIsLast(p: string)
    ensures var segs := Split(p);
      forall k :: 0 <= k < |segs| && !Skipped(segs[k]) && SkippedAfter(segs, k) ==>
        FileName(p) == if segs[k] == ".." then None else Some(segs[k])
    ensures (forall k :: 0 <= k < |Split(p)| ==> Skipped(Split(p)[k])) ==> FileName(p).None?
  {
    LastNameIsLast(Split(p));
  }

  /** `PathBuf::push`: an absolute `name` replaces the path; otherwise
      `name` is appended, with a separator unless the path is empty or
      already ends in one. */
  function Push(p: string, name: string): (r: string)
  {
    if IsAbsolute(name) then name
    else if p == [] then name
    else if p[|p| - 1] == Separator then p + name
    else p + [Separator] + name
  }

  /** What `push` leaves: the name alone when it is absolute or the path
      is empty; otherwise the path, then the name, with exactly one
      separator before the name, added only when the path does not
      already end in one. */
  lemma PushShape(p: string, name: string)
    ensures IsAbsolute(name) || p == [] ==> Push(p, name) == name
    ensures !IsAbsolute(name) && p != [] ==>
      var r := Push(p, name);
      && |p| + |name| <= |r| <= |p| + |name| + 1
      && r[..|p|] == p && r[|r| - |name|..] == name
      && r[|r| - |name| - 1] == Separator
      && (|r| == |p| + |name| <==> p[|p| - 1] == Separator)
  {
  }

  /** A relative pushed name becomes the final pieces: the path keeps its
      pieces except a trailing empty one. */
  lemma PushSplit(p: string, name: string)
    requires p != [] && !IsAbsolute(name)
    ensures p[|p| - 1] == Separator ==>
      Split(Push(p, name)) == Split(p)[..|Split(p)| - 1] + Split(name)
    ensures p[|p| - 1] != Separator ==>
      Split(Push(p, name)) == Split(p) + Split(name)
  {
    if p[|p| - 1] == Separator {
      var q := p[..|p| - 1];
      var sq := Split(q);
      assert Split(p) == sq + [""] by {
        assert p == q + [Separator] + "";
        SplitAppend(q, "");
      }
      assert Split(p)[..|Split(p)| - 1] == sq by {
        assert (sq + [""])[..|sq|] == sq;
      }
      assert Split(Push(p, name)) == sq + Split(name) by {
        assert Push(p, name) == q + [Separator] + name;
        SplitAppend(q, name);
      }
    } else {
      SplitAppend(p, name);
    }
  }

  /** After pushing a normal name, that name is the path's file name. */
  lemma PushFileName(p: string, name: string)
    requires IsNormalName(name)
    ensures FileName(Push(p, name)) == Some(name)
  {
    SplitSingle(name);
    if p != [] {
      PushSplit(p, name);
    }
  }

  /** A trailing separator or `.` does not change the file name:
      `sub/` and `sub/.` both have file name `sub`. */
  lemma FileNameIgnoresTrailing(p: string)
    ensures FileName(p + [Separator]) == FileName(p)
    ensures FileName(p + [Separator] + ".") == FileName(p)
  {
    SplitAppend(p, "");
    assert p + [Separator] == p + [Separator] + "";
    SplitAppend(p, ".");
    SplitSingle(".");
    assert (Split(p) + ["."])[..|Split(p)|] == Split(p);
    assert (Split(p) + [""])[..|Split(p)|] == Split(p);
  }

  /** A path ending in `..` has no file name. */
  lemma FileNameParent(p: string)
    ensures FileName(p + [Separator] + "..") == None
    ensures FileName("..") == None
  {
    SplitAppend(p, "..");
    SplitSingle("..");
  }
}
