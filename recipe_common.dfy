/**
 * The helpers of minitage.recipe.common that every minitage recipe shares:
 * `uniquify`, the `url|type|revision|directory|args` notation of
 * `divide_url`, `appendVar`, the table of source URLs a recipe builds from
 * its `url` and `urls` options, and the guess of the compilation directory
 * after unpacking.
 */
module RecipeCommon {
  import opened Wrappers
  import opened Text
  import opened Files

  // ---------------------------------------------------------------- uniquify

  /** The elements of `l`, each kept at its first occurrence. */
  function Dedup<T(==)>(l: seq<T>): seq<T>
  {
    if l == [] then []
    else
      var d := Dedup(l[..|l| - 1]);
      if l[|l| - 1] in d then d else d + [l[|l| - 1]]
  }

  /** Index of the first occurrence of `x` in `l`. */
  function First<T(==)>(l: seq<T>, x: T): (k: nat)
    requires x in l
    ensures k < |l| && l[k] == x && x !in l[..k]
  {
    if l[0] == x then 0
    else
      var k := First(l[1..], x);
      assert l[..k + 1] == [l[0]] + l[1..][..k];
      k + 1
  }

  /** Two first-occurrence indices of the same element agree. */
  lemma FirstUnique<T>(l: seq<T>, x: T, i: nat, j: nat)
    requires i < |l| && l[i] == x && x !in l[..i]
    requires j < |l| && l[j] == x && x !in l[..j]
    ensures i == j
  {
  }

  /**
   * `uniquify(l)` holds each element of `l` exactly once, ordered by first
   * occurrence in `l`.
   */
  lemma {:induction false} DedupSpec<T>(l: seq<T>)
    ensures forall x :: x in Dedup(l) <==> x in l
    ensures forall i, j :: 0 <= i < j < |Dedup(l)| ==> Dedup(l)[i] != Dedup(l)[j]
    ensures forall i, j :: 0 <= i < j < |Dedup(l)| ==> First(l, Dedup(l)[i]) < First(l, Dedup(l)[j])
  {
    if l != [] {
      var n := |l| - 1;
      var p := l[..n];
      DedupSpec(p);
      assert l == p + [l[n]];
      var d := Dedup(p);
      forall x | x in p
        ensures First(l, x) == First(p, x)
      {
        var k := First(p, x);
        assert l[..k] == p[..k];
        FirstUnique(l, x, First(l, x), k);
      }
      if l[n] !in d {
        var k := First(l, l[n]);
        assert k == n;
      }
    }
  }

  /** `uniquify(l)`. */
  method Uniquify<T(==)>(l: seq<T>) returns (result: seq<T>)
    ensures result == Dedup(l)
  {
    result := [];
    for i := 0 to |l|
      invariant result == Dedup(l[..i])
    {
      assert l[..i + 1][..i] == l[..i];
      if l[i] !in result {
        result := result + [l[i]];
      }
    }
    assert l[..|l|] == l;
  }

  // -------------------------------------------------------------- divide_url

  /** The five fields of `url|type|revision|directory|args`. */
  datatype UrlParts = UrlParts(url: string, kind: string, revision: string, directory: string, args: string)

  /** The stripped `i`-th `|`-field, or `''` when there are fewer fields. */
  function Field(parts: seq<string>, i: nat): string
  {
    if i < |parts| then Strip(parts[i]) else ""
  }

  /** The directory name derived from a URL: `://` becomes `/`, then every `/` becomes `.`. */
  function UrlDirectory(surl: string): (r: string)
    ensures !Contains(r, "/")
  {
    var r := Replace(Replace(surl, "://", "/"), "/", ".");
    JoinAvoids(".", Split(Replace(surl, "://", "/"), "/"), '/');
    NotContainsChar(r, "/", 0);
    r
  }

  /** `divide_url(url)`. */
  function DivideUrl(url: string): (r: UrlParts)
    ensures r.kind != ""
    ensures Contains(url, "file://") ==> r.directory == ""
  {
    var parts := Split(url, "|");
    var surl := Field(parts, 0);
    var kind := Field(parts, 1);
    var dir0 := Field(parts, 3);
    var dir1 := if dir0 == "" && surl != "" && Contains(surl, "//") then UrlDirectory(surl) else dir0;
    var args := if |parts| > 4 then Strip(Join("|", parts[4..])) else "";
    var dir := if Contains(url, "file://") then "" else dir1;
    UrlParts(surl, if kind == "" then "static" else kind, Field(parts, 2), dir, args)
  }

  /** Splitting `a|rest` on `|` yields `a` and then the pieces of `rest`, when `a` has no `|`. */
  lemma SplitBar(a: string, rest: string)
    requires forall i :: 0 <= i < |a| ==> a[i] != '|'
    ensures Split(a + "|" + rest, "|") == [a] + Split(rest, "|")
  {
    var s := a + "|" + rest;
    assert IsPrefix("|", s[|a|..]);
    forall j | 0 <= j < |a|
      ensures !IsPrefix("|", s[j..])
    {
      assert s[j..][0] == a[j];
    }
    assert IndexOf(s, "|") == Some(|a|) by {
      IndexOfFirst(s, "|", |a|);
    }
    assert s[|a| + 1..] == rest;
    assert s[..|a|] == a;
  }

  /** The first position where `p` starts is what `IndexOf` reports. */
  lemma IndexOfFirst(s: string, p: string, i: nat)
    requires i <= |s| && IsPrefix(p, s[i..])
    requires forall j :: 0 <= j < i ==> !IsPrefix(p, s[j..])
    ensures IndexOf(s, p) == Some(i)
  {
    var o := IndexOf(s, p);
    assert o.Some?;
    if o.value < i {
    } else if o.value > i {
    }
  }

  /** Fields without `|` joined by `|` split back into themselves. */
  lemma {:induction false} SplitJoinBar(parts: seq<string>)
    requires parts != []
    requires forall k, i :: 0 <= k < |parts| && 0 <= i < |parts[k]| ==> parts[k][i] != '|'
    ensures Split(Join("|", parts), "|") == parts
  {
    if |parts| == 1 {
      NotContainsChar(parts[0], "|", 0);
      assert IndexOf(parts[0], "|") == None;
    } else {
      SplitJoinBar(parts[1..]);
      JoinCons("|", parts[0], parts[1..]);
      assert [parts[0]] + parts[1..] == parts;
      SplitBar(parts[0], Join("|", parts[1..]));
    }
  }

  /** A field that needs no stripping and has no `|`. */
  predicate PlainField(s: string)
  {
    (s != [] ==> !IsWs(s[0]) && !IsWs(s[|s| - 1])) && forall i :: 0 <= i < |s| ==> s[i] != '|'
  }

  /**
   * `divide_url` reads back the fields the notation was written from: with a
   * type and a directory given and no `file://`, the four fields and the
   * re-joined remaining segments come back as they were.
   */
  lemma DivideUrlReadsBack(url: string, kind: string, revision: string, directory: string, args: seq<string>)
    requires url != [] && kind != [] && directory != []
    requires PlainField(url) && PlainField(kind) && PlainField(revision) && PlainField(directory)
    requires forall k, i :: 0 <= k < |args| && 0 <= i < |args[k]| ==> args[k][i] != '|'
    requires !Contains(Join("|", [url, kind, revision, directory] + args), "file://")
    ensures DivideUrl(Join("|", [url, kind, revision, directory] + args)) ==
      UrlParts(url, kind, revision, directory, if args == [] then "" else Strip(Join("|", args)))
  {
    var fields := [url, kind, revision, directory] + args;
    SplitJoinBar(fields);
    assert fields[4..] == args;
    PlainFields(url, kind, revision, directory, fields);
    DivideUrlOf(Join("|", fields), fields);
  }

  /** The stripped fields of the notation are the plain fields it was written from. */
  lemma PlainFields(url: string, kind: string, revision: string, directory: string, fields: seq<string>)
    requires |fields| >= 4 && fields[..4] == [url, kind, revision, directory]
    requires url != [] && kind != [] && directory != []
    requires PlainField(url) && PlainField(kind) && PlainField(revision) && PlainField(directory)
    ensures Field(fields, 0) == url && Field(fields, 1) == kind
    ensures Field(fields, 2) == revision && Field(fields, 3) == directory
  {
    assert fields[0] == url && fields[1] == kind && fields[2] == revision && fields[3] == directory;
    StripPlain(url);
    StripPlain(kind);
    StripPlain(directory);
    if revision != [] {
      StripPlain(revision);
    }
  }

  /** `divide_url` of a line with an explicit directory and no `file://`. */
  lemma DivideUrlOf(u: string, parts: seq<string>)
    requires Split(u, "|") == parts && |parts| >= 4
    requires Field(parts, 1) != "" && Field(parts, 3) != "" && !Contains(u, "file://")
    ensures DivideUrl(u) ==
      UrlParts(Field(parts, 0), Field(parts, 1), Field(parts, 2), Field(parts, 3),
        if |parts| > 4 then Strip(Join("|", parts[4..])) else "")
  {
  }

  /**
   * Without an explicit directory, a URL holding `//` names its directory
   * after itself, with `://` and `/` turned into dots; `file://` URLs get none.
   */
  lemma DivideUrlDirectory(url: string)
    ensures var parts := Split(url, "|");
      var surl := Field(parts, 0);
      && (Field(parts, 3) == "" && surl != "" && Contains(surl, "//") && !Contains(url, "file://") ==>
            DivideUrl(url).directory == UrlDirectory(surl))
      && (Field(parts, 3) != "" && !Contains(url, "file://") ==> DivideUrl(url).directory == Field(parts, 3))
      && (Field(parts, 3) == "" ==> !Contains(DivideUrl(url).directory, "/"))
  {
    NotContainsShort("", "/");
  }

  // --------------------------------------------------------------- appendVar

  /** The values that do not occur in `v` as substrings. */
  function Kept(v: string, values: seq<string>): (r: seq<string>)
    ensures forall k :: 0 <= k < |r| ==> r[k] in values && !Contains(v, r[k])
    ensures forall x :: x in values && !Contains(v, x) ==> x in r
  {
    if values == [] then []
    else if Contains(v, values[0]) then Kept(v, values[1..])
    else [values[0]] + Kept(v, values[1..])
  }

  /** `appendVar(var, values, separator, before)`. */
  function AppendVar(v: string, values: seq<string>, sep: string, before: bool): string
  {
    Placed(v, Join(sep, Kept(v, values)), sep, before)
  }

  /**
   * The old text and the joined new values, in the order `before` asks. With
   * `before` the separator is left out only when nothing is new; otherwise
   * only when the old text is empty.
   */
  function Placed(v: string, tmp: string, sep: string, before: bool): string
  {
    if before then v + (if tmp == "" then "" else sep) + tmp
    else tmp + (if v == "" then "" else sep) + v
  }

  /**
   * `before` appends the new values after the old text, otherwise they come
   * first. With `before` the separator is left out only when nothing is new,
   * and the old text is then returned unchanged; otherwise it is left out only
   * when the old text is empty.
   */
  lemma AppendVarSpec(v: string, values: seq<string>, sep: string)
    ensures var tmp := Join(sep, Kept(v, values));
      && AppendVar(v, values, sep, true) == (if tmp == "" then v else v + sep + tmp)
      && AppendVar(v, values, sep, false) == (if v == "" then tmp else tmp + sep + v)
      && IsPrefix(v, AppendVar(v, values, sep, true))
      && IsSuffix(v, AppendVar(v, values, sep, false))
  {
  }

  /**
   * The separator is kept next to an empty side: prepending onto empty old
   * text, or appending nothing new.
   */
  lemma LoneSeparator()
    ensures AppendVar("", ["a"], ":", true) == ":a"
    ensures AppendVar("x", ["x"], ":", false) == ":x"
  {
    assert Kept("", ["a"]) == ["a"];
    assert Kept("x", ["x"]) == [];
  }

  /**
   * Appending after the old text only what is missing makes a second append
   * of the same values a no-op; prepending, the second call still adds a
   * leading separator even though nothing is new.
   */
  lemma AppendVarTwice(v: string, values: seq<string>, sep: string)
    ensures var once := AppendVar(v, values, sep, true);
      AppendVar(once, values, sep, true) == once
    ensures var once := AppendVar(v, values, sep, false);
      once != "" ==> AppendVar(once, values, sep, false) == sep + once
  {
    var once := AppendVar(v, values, sep, true);
    AllPresent(v, values, sep, once, true);
    var pre := AppendVar(v, values, sep, false);
    AllPresent(v, values, sep, pre, false);
  }

  /** Every value occurs in the result of an append, so nothing is kept on a second one. */
  lemma AllPresent(v: string, values: seq<string>, sep: string, once: string, before: bool)
    requires once == AppendVar(v, values, sep, before)
    ensures Kept(once, values) == []
  {
    forall x | x in values
      ensures Contains(once, x)
    {
      Present(v, values, sep, once, before, x);
    }
    KeptNone(once, values);
  }

  /** One value occurs in the result of an append. */
  lemma Present(v: string, values: seq<string>, sep: string, once: string, before: bool, x: string)
    requires once == AppendVar(v, values, sep, before) && x in values
    ensures Contains(once, x)
  {
    var a, b, c, e := Around(v, values, sep, before);
    if Contains(v, x) {
      PresentIn(v, x, a, b);
    } else {
      KeptIn(v, values, sep, x);
      PresentIn(Join(sep, Kept(v, values)), x, c, e);
    }
  }

  /** Both the old text and the joined new values sit inside the result. */
  lemma Around(v: string, values: seq<string>, sep: string, before: bool) returns (a: string, b: string, c: string, e: string)
    ensures AppendVar(v, values, sep, before) == a + v + b
    ensures AppendVar(v, values, sep, before) == c + Join(sep, Kept(v, values)) + e
  {
    a, b, c, e := PlacedAround(v, Join(sep, Kept(v, values)), sep, before);
  }

  lemma PlacedAround(v: string, tmp: string, sep: string, before: bool) returns (a: string, b: string, c: string, e: string)
    ensures Placed(v, tmp, sep, before) == a + v + b
    ensures Placed(v, tmp, sep, before) == c + tmp + e
  {
    if before {
      a, b := [], (if tmp == "" then "" else sep) + tmp;
      c, e := v + (if tmp == "" then "" else sep), [];
    } else {
      a, b := tmp + (if v == "" then "" else sep), [];
      c, e := [], (if v == "" then "" else sep) + v;
    }
  }

  /** A value missing from the old text occurs in the joined new values. */
  lemma KeptIn(v: string, values: seq<string>, sep: string, x: string)
    requires x in values && !Contains(v, x)
    ensures Contains(Join(sep, Kept(v, values)), x)
  {
    var kept := Kept(v, values);
    var k :| 0 <= k < |kept| && kept[k] == x;
    var at := JoinOffset(sep, kept, k);
    ContainsAt(Join(sep, kept), x, at);
  }

  /** A string that occurs in `s` occurs in `a + s + b`. */
  lemma PresentIn(s: string, p: string, a: string, b: string)
    requires Contains(s, p)
    ensures Contains(a + s + b, p)
  {
    var t := a + s + b;
    assert t[|a|..|a| + |s|] == s;
    SubstringContains(s, p, t, |a|);
  }

  /** A string that occurs in a piece of `t` occurs in `t`. */
  lemma SubstringContains(s: string, p: string, t: string, off: nat)
    requires Contains(s, p) && off + |s| <= |t| && t[off..off + |s|] == s
    ensures Contains(t, p)
  {
    var i := IndexOf(s, p).value;
    assert t[off + i..off + i + |p|] == s[i..i + |p|];
    ContainsAt(t, p, off + i);
  }

  /** The `k`-th piece of a join sits at the returned offset. */
  lemma {:induction false} JoinOffset(sep: string, parts: seq<string>, k: nat) returns (at: nat)
    requires k < |parts|
    ensures at + |parts[k]| <= |Join(sep, parts)| && Join(sep, parts)[at..at + |parts[k]|] == parts[k]
  {
    if k == 0 {
      at := 0;
    } else {
      var inner := JoinOffset(sep, parts[1..], k - 1);
      at := |parts[0]| + |sep| + inner;
      var j := Join(sep, parts);
      assert j == parts[0] + sep + Join(sep, parts[1..]);
      assert j[at..at + |parts[k]|] == Join(sep, parts[1..])[inner..inner + |parts[k]|];
    }
  }

  /** With every value present, nothing is kept. */
  lemma KeptNone(v: string, values: seq<string>)
    requires forall x :: x in values ==> Contains(v, x)
    ensures Kept(v, values) == []
  {
  }

  // --------------------------------------------------------------- URL table

  /** `re.sub('/$', '', u)` on a line: one trailing `/` removed. */
  function DropSlash(u: string): (r: string)
    ensures IsPrefix(r, u) && |u| - 1 <= |r|
  {
    if IsSuffix("/", u) then u[..|u| - 1] else u
  }

  /** The non-empty strings of `lines`, each without its trailing `/`. */
  function CleanLines(lines: seq<string>): (r: seq<string>)
    ensures |r| <= |lines|
  {
    if lines == [] then []
    else (if lines[0] == "" then [] else [DropSlash(lines[0])]) + CleanLines(lines[1..])
  }

  /** `urls_list`: the `url` option, then the lines of the `urls` option, empty ones dropped. */
  function UrlsList(url: Option<string>, urls: string): seq<string>
  {
    Listed(url, Split(Strip(urls), "\n"))
  }

  /** The `url` option, then the non-empty `lines`, each without its trailing `/`. */
  function Listed(url: Option<string>, lines: seq<string>): seq<string>
  {
    var first := if url.Some? && url.value != "" then [DropSlash(url.value)] else [];
    first + CleanLines(lines)
  }

  /** Every line of `urls_list` is a non-empty line of the options, without its trailing `/`, and conversely. */
  lemma {:induction false} CleanLinesSpec(lines: seq<string>)
    ensures forall x :: x in CleanLines(lines) <==> exists u :: u in lines && u != "" && DropSlash(u) == x
  {
    if lines != [] {
      CleanLinesSpec(lines[1..]);
      assert forall u :: u in lines <==> u == lines[0] || u in lines[1..];
    }
  }

  /**
   * `urls_list` holds, the `url` option first, exactly the non-empty values
   * of the `url` option and of the lines of the `urls` option, each without
   * one trailing `/`.
   */
  lemma UrlsListSpec(url: Option<string>, urls: string)
    ensures var lines := Split(Strip(urls), "\n");
      forall x :: x in UrlsList(url, urls) <==>
        (url.Some? && url.value != "" && DropSlash(url.value) == x) ||
        exists u :: u in lines && u != "" && DropSlash(u) == x
    ensures url.Some? && url.value != "" ==> UrlsList(url, urls)[0] == DropSlash(url.value)
  {
    ListedSpec(url, Split(Strip(urls), "\n"));
  }

  lemma ListedSpec(url: Option<string>, lines: seq<string>)
    ensures forall x :: x in Listed(url, lines) <==>
        (url.Some? && url.value != "" && DropSlash(url.value) == x) ||
        exists u :: u in lines && u != "" && DropSlash(u) == x
    ensures url.Some? && url.value != "" ==> Listed(url, lines)[0] == DropSlash(url.value)
  {
    CleanLinesSpec(lines);
  }

  /** The defaults from the `scm`, `revision` and `scm-args` options. */
  datatype Defaults = Defaults(scm: string, revision: string, args: string)

  /** One entry of `self.urls`. */
  datatype UrlEntry = UrlEntry(url: string, kind: string, args: string, revision: string, directory: string)

  /** The entry `divide_url(kurl)` gives, empty fields taking their defaults. */
  function Entry(kurl: string, d: Defaults): (e: UrlEntry)
  {
    var p := DivideUrl(kurl);
    UrlEntry(p.url, if p.kind == "" then d.scm else p.kind,
      if p.args == "" then d.args else p.args,
      if p.revision == "" then d.revision else p.revision, p.directory)
  }

  /** The `scm` option never takes effect: `divide_url` always reports a type. */
  lemma ScmDefaultUnused(kurl: string, d: Defaults, scm: string)
    ensures Entry(kurl, d) == Entry(kurl, d.(scm := scm))
    ensures Entry(kurl, d).kind == DivideUrl(kurl).kind
  {
  }

  /** Empty revision and arguments take the option defaults, non-empty ones win. */
  lemma EntryDefaults(kurl: string, d: Defaults)
    ensures Entry(kurl, d).revision == (if DivideUrl(kurl).revision == "" then d.revision else DivideUrl(kurl).revision)
    ensures Entry(kurl, d).args == (if DivideUrl(kurl).args == "" then d.args else DivideUrl(kurl).args)
    ensures Entry(kurl, d).url == DivideUrl(kurl).url
  {
  }

  /**
   * The table a loop over `lines` fills: a line already present as a key is
   * skipped, any other is stored under the URL of its entry.
   */
  function Fill(lines: seq<string>, entry: string -> UrlEntry): map<string, UrlEntry>
  {
    if lines == [] then map[]
    else
      var t := Fill(lines[..|lines| - 1], entry);
      var kurl := lines[|lines| - 1];
      if kurl in t then t else t[entry(kurl).url := entry(kurl)]
  }

  /** `self.urls` after the loop over `urls_list`. */
  function Table(list: seq<string>, d: Defaults): map<string, UrlEntry>
  {
    Fill(list, kurl => Entry(kurl, d))
  }

  /** Build `self.urls` from `urls_list`. */
  method BuildUrls(list: seq<string>, d: Defaults) returns (urls: map<string, UrlEntry>)
    ensures urls == Table(list, d)
  {
    ghost var entry := kurl => Entry(kurl, d);
    urls := map[];
    for i := 0 to |list|
      invariant urls == Fill(list[..i], entry)
    {
      var kurl := list[i];
      PrefixSnoc(list, i);
      FillSnoc(list[..i], kurl, entry);
      if kurl !in urls {
        var e := Entry(kurl, d);
        assert e == entry(kurl);
        urls := urls[e.url := e];
      }
    }
    assert list[..|list|] == list;
  }

  /** The prefix one element longer. */
  lemma PrefixSnoc<T>(l: seq<T>, i: nat)
    requires i < |l|
    ensures l[..i + 1] == l[..i] + [l[i]]
  {
  }

  /** One more line: skipped when it is a key already, otherwise stored under its URL. */
  lemma FillSnoc(lines: seq<string>, kurl: string, entry: string -> UrlEntry)
    ensures Fill(lines + [kurl], entry) ==
      if kurl in Fill(lines, entry) then Fill(lines, entry) else Fill(lines, entry)[entry(kurl).url := entry(kurl)]
  {
    assert (lines + [kurl])[..|lines|] == lines;
  }

  /** Every key holds the entry of a line whose URL it is. */
  lemma {:induction false} FillKeys(lines: seq<string>, entry: string -> UrlEntry)
    ensures forall k :: k in Fill(lines, entry) ==>
      exists j :: 0 <= j < |lines| && entry(lines[j]).url == k && Fill(lines, entry)[k] == entry(lines[j])
  {
    if lines != [] {
      var n := |lines| - 1;
      var p := lines[..n];
      FillKeys(p, entry);
      assert lines == p + [lines[n]];
      FillSnoc(p, lines[n], entry);
      var t := Fill(p, entry);
      var t2 := Fill(lines, entry);
      forall k | k in t2
        ensures exists j :: 0 <= j < |lines| && entry(lines[j]).url == k && t2[k] == entry(lines[j])
      {
        if lines[n] !in t && k == entry(lines[n]).url {
          assert entry(lines[n]).url == k && t2[k] == entry(lines[n]);
        } else {
          var j :| 0 <= j < |p| && entry(p[j]).url == k && t[k] == entry(p[j]);
          assert lines[j] == p[j];
        }
      }
    }
  }

  /** Every line left its mark: it was a key already or its URL is one. */
  lemma {:induction false} FillCovers(lines: seq<string>, entry: string -> UrlEntry)
    ensures forall j :: 0 <= j < |lines| ==> lines[j] in Fill(lines, entry) || entry(lines[j]).url in Fill(lines, entry)
  {
    if lines != [] {
      var n := |lines| - 1;
      var p := lines[..n];
      FillCovers(p, entry);
      assert lines == p + [lines[n]];
      FillSnoc(p, lines[n], entry);
      var t2 := Fill(lines, entry);
      assert forall k :: k in Fill(p, entry) ==> k in t2;
      forall j | 0 <= j < |lines|
        ensures lines[j] in t2 || entry(lines[j]).url in t2
      {
        if j < n {
          assert lines[j] == p[j];
        }
      }
    }
  }

  /**
   * Every key of `self.urls` holds the entry `divide_url` makes of a line of
   * `urls_list` whose URL field it is, and every line of `urls_list` was a key
   * already or has its URL field as a key.
   */
  lemma TableSpec(list: seq<string>, d: Defaults)
    ensures forall k :: k in Table(list, d) ==>
      exists j :: 0 <= j < |list| && DivideUrl(list[j]).url == k && Table(list, d)[k] == Entry(list[j], d)
    ensures forall j :: 0 <= j < |list| ==> list[j] in Table(list, d) || DivideUrl(list[j]).url in Table(list, d)
  {
    FillKeys(list, kurl => Entry(kurl, d));
    FillCovers(list, kurl => Entry(kurl, d));
  }

  /**
   * Keys are URL fields but the skip test looks at the whole line, so a plain
   * URL after its `url|type` form is skipped, while the `url|type` form after
   * the plain URL replaces its entry.
   */
  lemma TableSkipsOnWholeLine(a: string, b: string, d: Defaults)
    requires DivideUrl(a).url == b && DivideUrl(b).url == b && a != b
    ensures Table([a, b], d) == map[b := Entry(a, d)]
    ensures Table([b, a], d) == map[b := Entry(a, d)]
  {
    FillSkipsOnWholeLine(a, b, kurl => Entry(kurl, d));
  }

  /** `TableSkipsOnWholeLine` for any entry function. */
  lemma FillSkipsOnWholeLine(a: string, b: string, entry: string -> UrlEntry)
    requires entry(a).url == b && entry(b).url == b && a != b
    ensures Fill([a, b], entry) == map[b := entry(a)]
    ensures Fill([b, a], entry) == map[b := entry(a)]
  {
    FillSnoc([], a, entry);
    assert [] + [a] == [a];
    FillSnoc([a], b, entry);
    assert [a] + [b] == [a, b];
    FillSnoc([], b, entry);
    assert [] + [b] == [b];
    FillSnoc([b], a, entry);
    assert [b] + [a] == [b, a];
  }

  // --------------------------------------------------------- _get_compil_dir

  /** An entry of the listing that `_get_compil_dir` counts: not hidden, not `PaxHeaders*`. */
  predicate Visible(name: string)
  {
    !IsPrefix(".", name) && !IsPrefix("PaxHeaders", name)
  }

  /** A visible entry of `dir` that is a directory when `dirs` holds, a plain file otherwise. */
  predicate Picked(t: Tree, dir: string, x: string, dirs: bool)
  {
    Visible(x) && (IsDir(t, PathJoin(dir, x)) == dirs)
  }

  /** The visible entries of `dir` that are directories (`isdir`) or not (`dirs` false), in listing order. */
  function VisibleOf(t: Tree, dir: string, names: seq<string>, dirs: bool): (r: seq<string>)
    ensures forall x :: x in r <==> x in names && Picked(t, dir, x, dirs)
  {
    if names == [] then []
    else
      var rest := VisibleOf(t, dir, names[1..], dirs);
      var x := names[0];
      if Picked(t, dir, x, dirs) then [x] + rest else rest
  }

  /** Why the compilation directory cannot be guessed: `os.listdir` failed. */
  datatype CompilError = NotADirectory(path: string)

  /** `_get_compil_dir(directory, filter)`. */
  function CompilDir(t: Tree, directory: string, filter: bool): Result<string, CompilError>
  {
    if directory !in t.dirs then Err(NotADirectory(directory))
    else if !filter then Ok(directory)
    else
      var names := t.dirs[directory];
      var f := VisibleOf(t, directory, names, false);
      var d := VisibleOf(t, directory, names, true);
      if |f| < 2 && d != [] then Ok(PathJoin(directory, d[0])) else Ok(directory)
  }

  /** The first listed entry satisfying the filter heads the filtered list. */
  lemma {:induction false} VisibleHead(t: Tree, dir: string, names: seq<string>, dirs: bool) returns (k: nat)
    requires VisibleOf(t, dir, names, dirs) != []
    ensures k < |names| && names[k] == VisibleOf(t, dir, names, dirs)[0]
    ensures forall j :: 0 <= j < k ==> !Picked(t, dir, names[j], dirs)
  {
    if !Picked(t, dir, names[0], dirs) {
      var k1 := VisibleHead(t, dir, names[1..], dirs);
      k := k1 + 1;
      forall j | 0 <= j < k
        ensures !Picked(t, dir, names[j], dirs)
      {
        if j > 0 {
          assert names[j] == names[1..][j - 1];
        }
      }
    } else {
      k := 0;
    }
  }

  /** Visible plain files, counted: at least two of them keep the compilation in `directory`. */
  lemma TwoFilesStay(t: Tree, directory: string, a: string, b: string)
    requires directory in t.dirs && a != b
    requires a in t.dirs[directory] && b in t.dirs[directory]
    requires Picked(t, directory, a, false) && Picked(t, directory, b, false)
    ensures CompilDir(t, directory, true) == Ok(directory)
  {
    var f := VisibleOf(t, directory, t.dirs[directory], false);
    var i :| 0 <= i < |f| && f[i] == a;
    var j :| 0 <= j < |f| && f[j] == b;
    assert i != j;
  }

  /**
   * With fewer than two visible plain files, compilation moves into the first
   * visible subdirectory of the listing, when there is one.
   */
  lemma CompilDirDescends(t: Tree, directory: string)
    requires directory in t.dirs
    requires |VisibleOf(t, directory, t.dirs[directory], false)| < 2
    ensures var names := t.dirs[directory];
      (exists x :: x in names && Picked(t, directory, x, true)) <==>
      exists k :: 0 <= k < |names| && CompilDir(t, directory, true) == Ok(PathJoin(directory, names[k]))
        && Picked(t, directory, names[k], true)
        && forall j :: 0 <= j < k ==> !Picked(t, directory, names[j], true)
  {
    var names := t.dirs[directory];
    var d := VisibleOf(t, directory, names, true);
    if d != [] {
      var k := VisibleHead(t, directory, names, true);
      assert d[0] in d;
    }
  }
}
