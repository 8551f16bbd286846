/**
 * The string and file helpers of minitage.core.common: `splitstrip`, the
 * `newline` rewriting of a configuration file, `is_local_url` and
 * `make_backup`.
 */
module CoreCommon {
  import opened Wrappers
  import opened Text
  import opened Files

  // ------------------------------------------------------------ splitstrip

  /** A line whose `strip()` is empty (see `BlankStrip`). */
  predicate Blank(s: string)
  {
    forall i :: 0 <= i < |s| ==> IsWs(s[i])
  }

  lemma BlankStrip(s: string)
    ensures Blank(s) <==> Strip(s) == []
  {
    StripBlank(s);
  }

  /** `l.split(token)`; no token splits on runs of whitespace. */
  function Pieces(l: string, token: Option<string>): seq<string>
    requires token.Some? ==> |token.value| > 0
  {
    if token.None? then SplitWs(l) else Split(l, token.value)
  }

  /** The pieces that are not blank, in order and unstripped. */
  function NonBlank(pieces: seq<string>): (r: seq<string>)
    ensures |r| <= |pieces|
  {
    if pieces == [] then []
    else if Blank(pieces[0]) then NonBlank(pieces[1..])
    else [pieces[0]] + NonBlank(pieces[1..])
  }

  /** `splitstrip(l, token)`. */
  function SplitStrip(l: string, token: Option<string>): seq<string>
    requires token.Some? ==> |token.value| > 0
  {
    NonBlank(Pieces(l, token))
  }

  /** A piece is kept iff it is one of the split pieces and not blank. */
  lemma {:induction false} NonBlankMember(pieces: seq<string>, x: string)
    ensures x in NonBlank(pieces) <==> x in pieces && !Blank(x)
  {
    if pieces != [] {
      NonBlankMember(pieces[1..], x);
      if x != pieces[0] && x in pieces {
        assert x in pieces[1..];
      }
    }
  }

  /** Pieces none of which is blank are kept whole. */
  lemma {:induction false} NonBlankAll(pieces: seq<string>)
    requires forall k :: 0 <= k < |pieces| ==> !Blank(pieces[k])
    ensures NonBlank(pieces) == pieces
  {
    if pieces != [] {
      NonBlankAll(pieces[1..]);
    }
  }

  /** Without a token, `splitstrip` is `split()`: whitespace splitting never yields a blank piece. */
  lemma SplitStripWhitespace(l: string)
    ensures SplitStrip(l, None) == SplitWs(l)
  {
    var ps := SplitWs(l);
    forall k | 0 <= k < |ps|
      ensures !Blank(ps[k])
    {
      assert !IsWs(ps[k][0]);
    }
    NonBlankAll(ps);
  }

  /** When no piece is blank, joining the result with the token gives the string back. */
  lemma SplitStripJoin(l: string, token: string)
    requires |token| > 0
    requires forall k :: 0 <= k < |Split(l, token)| ==> !Blank(Split(l, token)[k])
    ensures Join(token, SplitStrip(l, Some(token))) == l
  {
    NonBlankAll(Split(l, token));
    SplitJoin(l, token);
  }

  // --------------------------------------------------------------- newline

  /** The length of the first line of `s`, its `\n` included. */
  function LineLen(s: string): (n: nat)
    requires s != []
    ensures 0 < n <= |s|
    ensures forall i :: 0 <= i < n - 1 ==> s[i] != '\n'
    ensures n < |s| ==> s[n - 1] == '\n'
  {
    if s[0] == '\n' || |s| == 1 then 1 else 1 + LineLen(s[1..])
  }

  /** `readlines()`: the lines of `s`, each keeping its `\n`; the last one may lack it. */
  function Lines(s: string): (r: seq<string>)
    ensures s == [] <==> r == []
    decreases |s|
  {
    if s == [] then [] else var n := LineLen(s); [s[..n]] + Lines(s[n..])
  }

  /** Every line read is non-empty and holds no `\n` before its last character. */
  lemma {:induction false} LineRead(s: string, k: nat)
    requires k < |Lines(s)|
    ensures |Lines(s)[k]| > 0 && forall i :: 0 <= i < |Lines(s)[k]| - 1 ==> Lines(s)[k][i] != '\n'
    decreases |s|
  {
    var n := LineLen(s);
    if k > 0 {
      LineRead(s[n..], k - 1);
    }
  }

  /** `readlines` loses nothing: the lines put together are the text. */
  lemma {:induction false} LinesConcat(s: string)
    ensures Concat(Lines(s)) == s
    decreases |s|
  {
    if s != [] {
      var n := LineLen(s);
      LinesConcat(s[n..]);
      assert s == s[..n] + s[n..];
    }
  }

  /** The lines up to the last one that is not blank. */
  function Trim(ls: seq<string>): (r: seq<string>)
    ensures |r| <= |ls| && r == ls[..|r|]
    ensures r != [] ==> !Blank(r[|r| - 1])
  {
    if ls == [] then []
    else if Blank(ls[|ls| - 1]) then Trim(ls[..|ls| - 1])
    else ls
  }

  /** Only blank lines are dropped. */
  lemma {:induction false} TrimDrops(ls: seq<string>, k: nat)
    requires |Trim(ls)| <= k < |ls|
    ensures Blank(ls[k])
  {
    if k < |ls| - 1 {
      TrimDrops(ls[..|ls| - 1], k);
    }
  }

  /** A line as `newline` writes it: with a `\n` at its end. */
  function Terminated(line: string): string
  {
    if IsSuffix("\n", line) then line else line + "\n"
  }

  function Ended(ls: seq<string>): (r: seq<string>)
    ensures |r| == |ls| && forall k :: 0 <= k < |ls| ==> r[k] == Terminated(ls[k])
  {
    if ls == [] then [] else [Terminated(ls[0])] + Ended(ls[1..])
  }

  function Concat(ls: seq<string>): string
  {
    if ls == [] then [] else ls[0] + Concat(ls[1..])
  }

  /**
   * `newline`: the file's lines up to the last non-blank one, each ending in
   * `\n`, then one line holding just `\n`.
   */
  function Newline(content: string): string
  {
    Concat(Ended(Trim(Lines(content)))) + "\n"
  }

  /** A line that ends with its only `\n`. */
  predicate Proper(line: string)
  {
    |line| > 0 && line[|line| - 1] == '\n' && forall i :: 0 <= i < |line| - 1 ==> line[i] != '\n'
  }

  lemma {:induction false} LineLenProper(l: string, x: string)
    requires Proper(l)
    ensures LineLen(l + x) == |l|
    decreases |l|
  {
    if |l| > 1 {
      assert (l + x)[1..] == l[1..] + x;
      LineLenProper(l[1..], x);
    }
  }

  /** A proper line followed by more text is read back as that line first. */
  lemma LinesCons(l: string, x: string)
    requires Proper(l)
    ensures Lines(l + x) == [l] + Lines(x)
  {
    LineLenProper(l, x);
    assert (l + x)[..|l|] == l;
    assert (l + x)[|l|..] == x;
  }

  /** Reading back proper lines gives the same lines. */
  lemma {:induction false} LinesOfConcat(ls: seq<string>, rest: string)
    requires forall k :: 0 <= k < |ls| ==> Proper(ls[k])
    ensures Lines(Concat(ls) + rest) == ls + Lines(rest)
  {
    if ls != [] {
      var tail := Concat(ls[1..]) + rest;
      calc {
        Lines(Concat(ls) + rest);
        { assert Concat(ls) + rest == ls[0] + tail; }
        Lines(ls[0] + tail);
        { LinesCons(ls[0], tail); }
        [ls[0]] + Lines(tail);
        { LinesOfConcat(ls[1..], rest); }
        [ls[0]] + (ls[1..] + Lines(rest));
        { assert ls == [ls[0]] + ls[1..]; }
        ls + Lines(rest);
      }
    } else {
      assert Concat(ls) + rest == rest;
    }
  }

  /** Adding a `\n` neither makes a line blank nor unblank. */
  lemma TerminatedBlank(line: string)
    ensures Blank(Terminated(line)) <==> Blank(line)
  {
    if !IsSuffix("\n", line) {
      var t := line + "\n";
      assert forall i :: 0 <= i < |line| ==> t[i] == line[i];
      assert IsWs(t[|line|]);
    }
  }

  /** A line read by `readlines` becomes a proper line once terminated. */
  lemma TerminatedProper(line: string)
    requires |line| > 0 && forall i :: 0 <= i < |line| - 1 ==> line[i] != '\n'
    ensures Proper(Terminated(line))
  {
    if !IsSuffix("\n", line) {
      assert line[|line| - 1] != '\n' by {
        assert line[|line| - 1..] != "\n";
      }
    } else {
      assert line[|line| - 1..] == "\n";
    }
  }

  lemma {:induction false} EndedProper(ls: seq<string>)
    requires forall k :: 0 <= k < |ls| ==> Proper(ls[k])
    ensures Ended(ls) == ls
  {
    if ls != [] {
      assert IsSuffix("\n", ls[0]) by {
        assert ls[0][|ls[0]| - 1..] == [ls[0][|ls[0]| - 1]];
      }
      EndedProper(ls[1..]);
    }
  }

  /** What `newline` writes reads back as the kept lines, terminated, and one `\n` line. */
  lemma NewlineLines(content: string)
    ensures Lines(Newline(content)) == Ended(Trim(Lines(content))) + ["\n"]
  {
    var kept := Trim(Lines(content));
    var e := Ended(kept);
    forall k | 0 <= k < |e|
      ensures Proper(e[k])
    {
      assert kept[k] == Lines(content)[k];
      LineRead(content, k);
      TerminatedProper(kept[k]);
    }
    LinesOfConcat(e, "\n");
    assert Lines("\n") == ["\n"] by {
      LinesCons("\n", "");
      assert "\n" + "" == "\n";
    }
  }

  /** `newline` is idempotent: rewriting its own output changes nothing. */
  lemma NewlineIdempotent(content: string)
    ensures Newline(Newline(content)) == Newline(content)
  {
    var kept := Trim(Lines(content));
    var e := Ended(kept);
    NewlineLines(content);
    assert Blank("\n") by {
      assert IsWs("\n"[0]);
    }
    if e != [] {
      TerminatedBlank(kept[|kept| - 1]);
    }
    assert Trim(e + ["\n"]) == e by {
      assert (e + ["\n"])[..|e|] == e;
    }
    forall k | 0 <= k < |e|
      ensures Proper(e[k])
    {
      assert kept[k] == Lines(content)[k];
      LineRead(content, k);
      TerminatedProper(kept[k]);
    }
    EndedProper(e);
  }

  /**
   * `newline` on the file's content: the lines read, then the ones kept,
   * written back each with a `\n`, and one `\n` line after them.
   */
  method NewlineFile(content: string) returns (out: string)
    ensures out == Newline(content)
  {
    var lines := Lines(content);
    var res := KeptLines(lines);
    res := res + ["\n"];
    out := WriteLines(res);
    EndedAppend(Trim(lines), "\n");
    ConcatAppend(Ended(Trim(lines)), "\n");
  }

  /**
   * The reversed scan of `newline`: from the last line back, everything from
   * the first non-blank line met is kept, in the original order.
   */
  method KeptLines(lines: seq<string>) returns (res: seq<string>)
    ensures res == Trim(lines)
  {
    ghost var t := |Trim(lines)|;
    res := [];
    var begin := false;
    var i := |lines|;
    while i > 0
      invariant 0 <= i <= |lines|
      invariant begin == (i < t)
      invariant t <= |lines|
      invariant begin ==> res == lines[i..t]
      invariant !begin ==> res == []
    {
      i := i - 1;
      if i >= t {
        TrimDrops(lines, i);
      }
      BlankStrip(lines[i]);
      if Strip(lines[i]) != [] {
        begin := true;
      }
      if begin {
        res := [lines[i]] + res;
      }
    }
    assert begin ==> lines[0..t] == lines[..t];
  }

  /** The write loop of `newline`: each line, with `\n` added when it lacks one. */
  method WriteLines(res: seq<string>) returns (out: string)
    ensures out == Concat(Ended(res))
  {
    out := [];
    var j := 0;
    while j < |res|
      invariant 0 <= j <= |res|
      invariant out + Concat(Ended(res[j..])) == Concat(Ended(res))
    {
      assert res[j..][1..] == res[j + 1..];
      out := out + Terminated(res[j]);
      j := j + 1;
    }
    assert res[j..] == [];
  }

  lemma {:induction false} EndedAppend(ls: seq<string>, line: string)
    ensures Ended(ls + [line]) == Ended(ls) + [Terminated(line)]
  {
  }

  lemma {:induction false} ConcatAppend(ls: seq<string>, x: string)
    ensures Concat(ls + [x]) == Concat(ls) + x
  {
    if ls != [] {
      assert (ls + [x])[1..] == ls[1..] + [x];
      ConcatAppend(ls[1..], x);
    } else {
      assert [] + [x] == [x];
    }
  }

  // ---------------------------------------------------------- is_local_url

  /** `is_local_url`. */
  predicate IsLocalUrl(url: string)
  {
    Contains(url, "file://") || IsPrefix("./", url) || IsPrefix("/", url)
    || Contains(url, "localhost") || Contains(url, "127.0.0.1") || Contains(url, "::1")
  }

  lemma ContainsInside(a: string, s: string, b: string, p: string)
    requires Contains(s, p)
    ensures Contains(a + s + b, p)
  {
    var k := IndexOf(s, p).value;
    assert (a + s + b)[|a| + k..|a| + k + |p|] == s[k..k + |p|];
    ContainsAt(a + s + b, p, |a| + k);
  }

  /**
   * The markers are searched anywhere in the URL: a host that merely holds
   * `localhost`, or an IPv6 address ending in `::1`, counts as local.
   */
  lemma LocalMarkerAnywhere(a: string, m: string, b: string)
    requires m in ["file://", "localhost", "127.0.0.1", "::1"]
    ensures IsLocalUrl(a + m + b)
  {
    assert m[0..|m|] == m;
    ContainsAt(m, m, 0);
    ContainsInside(a, m, b, m);
  }

  lemma ContainsExtends(s: string, x: string, p: string)
    requires Contains(s, p)
    ensures Contains(s + x, p)
  {
    var k := IndexOf(s, p).value;
    assert (s + x)[k..k + |p|] == s[k..k + |p|];
    ContainsAt(s + x, p, k);
  }

  /** Whether a URL is local is settled by its beginning: appending keeps it local. */
  lemma LocalUrlExtends(url: string, x: string)
    requires IsLocalUrl(url)
    ensures IsLocalUrl(url + x)
  {
    if Contains(url, "file://") {
      ContainsExtends(url, x, "file://");
    } else if IsPrefix("./", url) {
      assert (url + x)[..2] == url[..2];
    } else if IsPrefix("/", url) {
      assert (url + x)[..1] == url[..1];
    } else if Contains(url, "localhost") {
      ContainsExtends(url, x, "localhost");
    } else if Contains(url, "127.0.0.1") {
      ContainsExtends(url, x, "127.0.0.1");
    } else {
      ContainsExtends(url, x, "::1");
    }
  }

  // ----------------------------------------------------------- make_backup

  function BackupName(fname: string, i: nat): string
  {
    fname + ".md5sum_mismatch." + NatStr(i)
  }

  lemma BackupNameInjective(fname: string, i: nat, j: nat)
    requires BackupName(fname, i) == BackupName(fname, j)
    ensures i == j
  {
    var p := fname + ".md5sum_mismatch.";
    assert BackupName(fname, i)[|p|..] == NatStr(i);
    assert BackupName(fname, j)[|p|..] == NatStr(j);
    NatStrInjective(i, j);
  }

  /** The existing paths that are backups of `fname` numbered `i` or more. */
  ghost function Taken(t: Tree, fname: string, i: nat): set<string>
  {
    set p | p in t.files + t.dirs.Keys && exists j: nat :: j >= i && p == BackupName(fname, j)
  }

  lemma TakenShrinks(t: Tree, fname: string, i: nat)
    requires Exists(t, BackupName(fname, i))
    ensures |Taken(t, fname, i + 1)| < |Taken(t, fname, i)|
  {
    var b := BackupName(fname, i);
    var later := Taken(t, fname, i + 1);
    assert b !in later by {
      if b in later {
        var j: nat :| j >= i + 1 && b == BackupName(fname, j);
        BackupNameInjective(fname, i, j);
      }
    }
    assert Taken(t, fname, i) == later + {b};
  }

  /** The first backup number from `i` on whose name is free. */
  function FreeIndex(t: Tree, fname: string, i: nat): (r: nat)
    ensures r >= i && !Exists(t, BackupName(fname, r))
    ensures forall j :: i <= j < r ==> Exists(t, BackupName(fname, j))
    decreases |Taken(t, fname, i)|
  {
    if Exists(t, BackupName(fname, i)) then
      TakenShrinks(t, fname, i);
      FreeIndex(t, fname, i + 1)
    else i
  }

  /** `os.rename(a, b)` of an existing path to a free name. */
  function Rename(t: Tree, a: string, b: string): (r: Tree)
    requires Exists(t, a) && !Exists(t, b)
    ensures !Exists(r, a) && Exists(r, b)
    ensures forall p :: p != a && p != b ==> (Exists(r, p) <==> Exists(t, p))
  {
    Tree(if a in t.dirs then (t.dirs - {a})[b := t.dirs[a]] else t.dirs,
         if a in t.files then t.files - {a} + {b} else t.files)
  }

  /** `make_backup`: the tree afterwards and the backup name returned. */
  function MakeBackup(t: Tree, fname: string): (Tree, string)
  {
    if !Exists(t, fname) then (t, "")
    else
      var b := BackupName(fname, FreeIndex(t, fname, 0));
      (Rename(t, fname, b), b)
  }

  /**
   * Without the file nothing happens and `''` comes back. Otherwise the file
   * moves to the smallest free `<fname>.md5sum_mismatch.<i>`, which is
   * returned, and `fname` no longer exists.
   */
  lemma MakeBackupSpec(t: Tree, fname: string)
    ensures !Exists(t, fname) ==> MakeBackup(t, fname) == (t, "")
    ensures Exists(t, fname) ==>
      var (t1, b) := MakeBackup(t, fname);
      var i := FreeIndex(t, fname, 0);
      && b == BackupName(fname, i)
      && !Exists(t, b) && (forall j :: 0 <= j < i ==> Exists(t, BackupName(fname, j)))
      && !Exists(t1, fname) && Exists(t1, b)
      && forall p :: p != fname && p != b ==> (Exists(t1, p) <==> Exists(t, p))
  {
    if Exists(t, fname) {
      var i := FreeIndex(t, fname, 0);
      var b := BackupName(fname, i);
      assert b != fname by {
        assert |b| > |fname|;
      }
    }
  }

  /** `make_backup` as its loop: try the numbers in turn until one is free, then rename. */
  method MakeBackupLoop(t0: Tree, fname: string) returns (t: Tree, backup: string)
    ensures (t, backup) == MakeBackup(t0, fname)
  {
    t := t0;
    var index := 0;
    backup := "";
    while Exists(t, fname)
      invariant Exists(t, fname) ==> t == t0 && FreeIndex(t0, fname, index) == FreeIndex(t0, fname, 0)
      invariant !Exists(t, fname) ==> (t, backup) == MakeBackup(t0, fname)
      decreases if Exists(t, fname) then 1 else 0, |Taken(t0, fname, index)|
    {
      backup := BackupName(fname, index);
      if !Exists(t, backup) {
        t := Rename(t, fname, backup);
        assert backup != fname by {
          assert |backup| > |fname|;
        }
      } else {
        TakenShrinks(t0, fname, index);
        index := index + 1;
      }
    }
  }
}
