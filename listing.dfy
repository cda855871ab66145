/** The text of a directory listing (`render_directory`), and a parser
    that reads the directory name and entries back from it. */
module Listing {
  import opened Wrappers

  /** One directory entry as listed: its name, and whether it is itself a
      directory. */
  datatype Entry = Entry(name: string, isDir: bool)

  const TitleOpen: string := "<html><head><title>Index of "
  const TitleClose: string := "</title></head>"
  const HeadingOpen: string := "<body><h1>Index of "
  const HeadingClose: string := "</h1><ul>\n"
  const ItemOpen: string := "<li><a href=\""
  const ItemMid: string := "\">"
  const ItemClose: string := "</a></li>\n"
  const Footer: string := "</ul></body></html>"

  /** The first write: the title, with the directory name unescaped. */
  function Title(d: string): string
  {
    TitleOpen + d + TitleClose
  }

  /** The second write: the heading and the opening of the list. */
  function Heading(d: string): string
  {
    HeadingOpen + d + HeadingClose
  }

  /** The suffix added to a directory's link target (never to its text). */
  function DirTag(isDir: bool): string
  {
    if isDir then "/" else ""
  }

  /** One list item: the name with its tag as the link, the bare name as
      the text. */
  function Item(e: Entry): string
  {
    ItemOpen + e.name + DirTag(e.isDir) + ItemMid + e.name + ItemClose
  }

  /** The list items in iteration order. */
  function Items(es: seq<Entry>): string
  {
    if es == [] then "" else Item(es[0]) + Items(es[1..])
  }

  /** The whole listing page. */
  function Page(d: string, es: seq<Entry>): string
  {
    Title(d) + Heading(d) + Items(es) + Footer
  }

  /** Adding an entry at the end adds its item at the end. */
  lemma {:induction false} ItemsAppend(es: seq<Entry>, e: Entry)
    ensures Items(es + [e]) == Items(es) + Item(e)
  {
    if es == [] {
      assert [] + [e] == [e];
      assert [e][1..] == [];
    } else {
      assert (es + [e])[0] == es[0];
      assert (es + [e])[1..] == es[1..] + [e];
      ItemsAppend(es[1..], e);
    }
  }

  /** A name the parser can recover: it holds neither a quote nor `<`. */
  predicate Plain(s: string)
  {
    '"' !in s && '<' !in s
  }

  /** What follows `p` in `s`, when `s` starts with `p`. */
  function StripPrefix(s: string, p: string): (r: Option<string>)
    ensures r.Some? <==> |p| <= |s| && s[..|p|] == p
    ensures r.Some? ==> s == p + r.value
  {
    if |p| <= |s| && s[..|p|] == p then Some(s[|p|..]) else None
  }

  lemma StripPrefixAppend(p: string, x: string)
    ensures StripPrefix(p + x, p) == Some(x)
  {
    assert (p + x)[..|p|] == p;
    assert (p + x)[|p|..] == x;
  }

  /** The position of the first `c` in `s`, or `|s|` when there is none. */
  function IndexOf(s: string, c: char): (k: nat)
    ensures k <= |s|
    ensures forall i :: 0 <= i < k ==> s[i] != c
    ensures k < |s| ==> s[k] == c
  {
    if s == [] then 0 else if s[0] == c then 0 else 1 + IndexOf(s[1..], c)
  }

  /** `s` cut before its first `c` (or not at all). */
  function Cut(s: string, c: char): (r: (string, string))
    ensures r.0 + r.1 == s && c !in r.0
    ensures r.1 == [] || r.1[0] == c
  {
    var k := IndexOf(s, c);
    assert s[..k] + s[k..] == s;
    (s[..k], s[k..])
  }

  /** Behind a stretch free of `c`, the cut falls where `c` follows. */
  lemma CutAt(a: string, b: string, c: char)
    requires c !in a && b != [] && b[0] == c
    ensures Cut(a + b, c) == (a, b)
  {
    var k := IndexOf(a + b, c);
    assert (a + b)[|a|] == c;
    assert k == |a|;
    assert (a + b)[..|a|] == a && (a + b)[|a|..] == b;
  }

  /** Reads one list item off the front of `s`, with what follows it. */
  function ParseItem(s: string): (r: Option<(Entry, string)>)
    ensures r.Some? ==> |r.value.1| < |s|
  {
    match StripPrefix(s, ItemOpen)
    case None => None
    case Some(r1) => ParseLink(r1)
  }

  /** The link target up to the closing quote, then the link text. */
  function ParseLink(s: string): (r: Option<(Entry, string)>)
    ensures r.Some? ==> |r.value.1| <= |s|
  {
    var (href, r2) := Cut(s, '"');
    match StripPrefix(r2, ItemMid)
    case None => None
    case Some(r3) => ParseText(href, r3)
  }

  /** The link text up to the next tag, the item's end, and the entry the
      target and text describe. */
  function ParseText(href: string, s: string): (r: Option<(Entry, string)>)
    ensures r.Some? ==> |r.value.1| <= |s|
  {
    var (name, r4) := Cut(s, '<');
    match StripPrefix(r4, ItemClose)
    case None => None
    case Some(rest) =>
      if href == name then Some((Entry(name, false), rest))
      else if href == name + "/" then Some((Entry(name, true), rest))
      else None
  }

  /** Reads list items up to the footer, which must end the text. */
  function ParseItems(s: string): Option<seq<Entry>>
    decreases |s|
  {
    if s == Footer then Some([])
    else
      match ParseItem(s)
      case None => None
      case Some((e, rest)) =>
        match ParseItems(rest)
        case None => None
        case Some(es) => Some([e] + es)
  }

  /** Reads the directory name and the entries back from a listing page. */
  function ParsePage(s: string): Option<(string, seq<Entry>)>
  {
    match StripPrefix(s, TitleOpen)
    case None => None
    case Some(r1) =>
      var (d, r2) := Cut(r1, '<');
      match StripPrefix(r2, TitleClose + Heading(d))
      case None => None
      case Some(r3) =>
        match ParseItems(r3)
        case None => None
        case Some(es) => Some((d, es))
  }

  lemma ParseTextRoundTrip(e: Entry, rest: string)
    requires '<' !in e.name
    ensures ParseText(e.name + DirTag(e.isDir), e.name + (ItemClose + rest)) == Some((e, rest))
  {
    CutAt(e.name, ItemClose + rest, '<');
    StripPrefixAppend(ItemClose, rest);
    assert e.name != e.name + "/";
  }

  lemma ParseLinkRoundTrip(href: string, tail: string)
    requires '"' !in href
    ensures ParseLink(href + (ItemMid + tail)) == ParseText(href, tail)
  {
    CutAt(href, ItemMid + tail, '"');
    StripPrefixAppend(ItemMid, tail);
  }

  /** One item reads back as the entry it was made from. */
  lemma ParseItemRoundTrip(e: Entry, rest: string)
    requires Plain(e.name)
    ensures ParseItem(Item(e) + rest) == Some((e, rest))
  {
    var href := e.name + DirTag(e.isDir);
    var tail := e.name + (ItemClose + rest);
    var r1 := href + (ItemMid + tail);
    assert Item(e) + rest == ItemOpen + r1;
    StripPrefixAppend(ItemOpen, r1);
    assert '"' !in href;
    ParseLinkRoundTrip(href, tail);
    ParseTextRoundTrip(e, rest);
  }

  /** An item is never the footer: they differ in their second character. */
  lemma ItemNotFooter(e: Entry, rest: string)
    ensures Item(e) + rest != Footer
  {
    assert (Item(e) + rest)[1] == 'l';
  }

  /** Behind the first item, the parser goes on with the remaining items. */
  lemma ParseItemsStep(es: seq<Entry>)
    requires es != [] && Plain(es[0].name)
    ensures ParseItems(Items(es) + Footer) ==
      var tail := ParseItems(Items(es[1..]) + Footer);
      if tail.Some? then Some([es[0]] + tail.value) else None
  {
    var rest := Items(es[1..]) + Footer;
    assert Items(es) + Footer == Item(es[0]) + rest;
    ItemNotFooter(es[0], rest);
    ParseItemRoundTrip(es[0], rest);
  }

  /** The items followed by the footer read back as the entries, in order. */
  lemma {:induction false} ParseItemsRoundTrip(es: seq<Entry>)
    requires forall i :: 0 <= i < |es| ==> Plain(es[i].name)
    ensures ParseItems(Items(es) + Footer) == Some(es)
  {
    if es == [] {
      assert Items(es) + Footer == Footer;
    } else {
      ParseItemsStep(es);
      ParseItemsRoundTrip(es[1..]);
      assert [es[0]] + es[1..] == es;
    }
  }

  /** The page's pieces, grouped the way the parser meets them. */
  lemma PageGrouping(a: string, b: string, c: string, h: string, i: string, f: string)
    ensures a + b + c + h + i + f == a + (b + ((c + h) + (i + f)))
  {
  }

  /** A listing page reads back as its directory name and entries: the
      page loses nothing, provided no name holds a quote or `<` (the
      listing does not escape them). */
  lemma PageRoundTrip(d: string, es: seq<Entry>)
    requires '<' !in d
    requires forall i :: 0 <= i < |es| ==> Plain(es[i].name)
    ensures ParsePage(Page(d, es)) == Some((d, es))
  {
    var mid := TitleClose + Heading(d);
    var tail := Items(es) + Footer;
    var r2 := mid + tail;
    assert StripPrefix(Page(d, es), TitleOpen) == Some(d + r2) by {
      PageGrouping(TitleOpen, d, TitleClose, Heading(d), Items(es), Footer);
      StripPrefixAppend(TitleOpen, d + r2);
    }
    assert Cut(d + r2, '<') == (d, r2) by {
      CutAt(d, r2, '<');
    }
    assert StripPrefix(r2, mid) == Some(tail) by {
      StripPrefixAppend(mid, tail);
    }
    ParseItemsRoundTrip(es);
  }
}
