/**
 * The parts of Python 2's byte-string API that the modelled code relies on:
 * prefix/suffix tests, substring search, `split`, `split()`, `strip()`,
 * `replace`, `join`, ASCII case mapping and decimal formatting.
 */
module Text {
  import opened Wrappers

  predicate IsPrefix(p: string, s: string) { |p| <= |s| && s[..|p|] == p }

  predicate IsSuffix(p: string, s: string) { |p| <= |s| && s[|s| - |p|..] == p }

  /** Index of the first occurrence of `p` in `s` (Python's `s.find(p)`). */
  function IndexOf(s: string, p: string): (r: Option<nat>)
    ensures r.Some? ==> r.value + |p| <= |s| && s[r.value..r.value + |p|] == p && IsPrefix(p, s[r.value..])
    ensures r.Some? ==> forall j :: 0 <= j < r.value ==> !IsPrefix(p, s[j..])
    ensures r.None? ==> forall j :: 0 <= j <= |s| ==> !IsPrefix(p, s[j..])
    decreases |s|
  {
    if IsPrefix(p, s) then Some(0)
    else if s == [] then None
    else
      var r := IndexOf(s[1..], p);
      TailShift(s);
      if r.None? then None
      else
        assert s[r.value + 1..] == s[1..][r.value..];
        Some(r.value + 1)
  }

  /** The suffixes of `s` past its first element are the suffixes of its tail. */
  lemma TailShift(s: string)
    requires s != []
    ensures forall j :: 1 <= j <= |s| ==> s[j..] == s[1..][j - 1..]
  {
  }

  /** Python's `p in s` for strings. */
  predicate Contains(s: string, p: string) { IndexOf(s, p).Some? }

  lemma ContainsAt(s: string, p: string, i: nat)
    requires i + |p| <= |s| && s[i..i + |p|] == p
    ensures Contains(s, p)
  {
    assert IsPrefix(p, s[i..]);
  }

  lemma NotContainsShort(s: string, p: string)
    requires |s| < |p|
    ensures !Contains(s, p)
  {
  }

  /** A character that never appears in `s` rules out every pattern holding it. */
  lemma NotContainsChar(s: string, p: string, k: nat)
    requires k < |p| && (forall i :: 0 <= i < |s| ==> s[i] != p[k])
    ensures !Contains(s, p)
  {
    forall j | 0 <= j <= |s| ensures !IsPrefix(p, s[j..]) {
      if j + |p| <= |s| { assert s[j..][..|p|][k] == s[j + k]; }
    }
  }

  function Join(sep: string, parts: seq<string>): (r: string)
    ensures parts == [] ==> r == []
    ensures |parts| == 1 ==> r == parts[0]
  {
    if parts == [] then [] else if |parts| == 1 then parts[0] else parts[0] + sep + Join(sep, parts[1..])
  }

  lemma Reassemble(s: string, p: string, i: nat)
    requires i + |p| <= |s| && s[i..i + |p|] == p
    ensures s[..i] + p + s[i + |p|..] == s
  {
    var t := s[..i] + p + s[i + |p|..];
    assert |t| == |s|;
    forall k | 0 <= k < |s| ensures t[k] == s[k] {
      if k < i { } else if k < i + |p| { assert p[k - i] == s[i..i + |p|][k - i]; } else { }
    }
  }

  lemma JoinCons(sep: string, a: string, tail: seq<string>)
    requires |tail| >= 1
    ensures Join(sep, [a] + tail) == a + sep + Join(sep, tail)
  {
    assert ([a] + tail)[1..] == tail;
  }

  /** Python's `s.split(sep)` for a non-empty separator. */
  function Split(s: string, sep: string): (r: seq<string>)
    requires |sep| > 0
    ensures |r| >= 1
    ensures forall k :: 0 <= k < |r| ==> !Contains(r[k], sep)
    decreases |s|
  {
    match IndexOf(s, sep)
    case None => [s]
    case Some(i) =>
      assert !Contains(s[..i], sep) by {
        forall j | 0 <= j <= i ensures !IsPrefix(sep, s[..i][j..]) {
          if j + |sep| <= i { assert s[..i][j..][..|sep|] == s[j..][..|sep|]; }
        }
      }
      [s[..i]] + Split(s[i + |sep|..], sep)
  }

  lemma {:induction false} SplitJoin(s: string, sep: string)
    requires |sep| > 0
    ensures Join(sep, Split(s, sep)) == s
    decreases |s|
  {
    var o := IndexOf(s, sep);
    if o.Some? {
      var i := o.value;
      var rest := s[i + |sep|..];
      SplitJoin(rest, sep);
      var tail := Split(rest, sep);
      assert Split(s, sep) == [s[..i]] + tail;
      JoinCons(sep, s[..i], tail);
      Reassemble(s, sep, i);
    } else {
      assert Split(s, sep) == [s];
    }
  }

  /** Python's `s.replace(pat, repl)`: every non-overlapping occurrence, left to right. */
  function Replace(s: string, pat: string, repl: string): string
    requires |pat| > 0
  {
    Join(repl, Split(s, pat))
  }

  lemma ReplaceAbsent(s: string, pat: string, repl: string)
    requires |pat| > 0 && !Contains(s, pat)
    ensures Replace(s, pat, repl) == s
  {
  }

  /** The whitespace bytes of Python 2's `str.split()` and `str.strip()`. */
  predicate IsWs(c: char) { c == ' ' || c == '\t' || c == '\n' || c == '\r' || c == '\U{0B}' || c == '\U{0C}' }

  predicate NoWs(s: string) { forall i :: 0 <= i < |s| ==> !IsWs(s[i]) }

  /** Length of the leading run of non-whitespace characters. */
  function WordLen(s: string): (n: nat)
    ensures n <= |s| && NoWs(s[..n]) && (n < |s| ==> IsWs(s[n]))
  {
    if s == [] || IsWs(s[0]) then 0 else 1 + WordLen(s[1..])
  }

  /** Python's `s.split()`: the maximal whitespace-free runs, in order. */
  function SplitWs(s: string): (r: seq<string>)
    ensures forall k :: 0 <= k < |r| ==> |r[k]| > 0 && NoWs(r[k])
    decreases |s|
  {
    if s == [] then []
    else if IsWs(s[0]) then SplitWs(s[1..])
    else var n := WordLen(s); [s[..n]] + SplitWs(s[n..])
  }

  lemma {:induction false} SplitWsBlank(s: string)
    requires forall i :: 0 <= i < |s| ==> IsWs(s[i])
    ensures SplitWs(s) == []
    decreases |s|
  {
    if s != [] { SplitWsBlank(s[1..]); }
  }

  function LStrip(s: string): (r: string)
    ensures |r| <= |s| && r == s[|s| - |r|..] && (r != [] ==> !IsWs(r[0]))
  {
    if s != [] && IsWs(s[0]) then
      var r := LStrip(s[1..]);
      assert s[1..][|s| - 1 - |r|..] == s[|s| - |r|..];
      r
    else s
  }

  function RStrip(s: string): (r: string)
    ensures |r| <= |s| && r == s[..|r|] && (r != [] ==> !IsWs(r[|r| - 1]))
  {
    if s != [] && IsWs(s[|s| - 1]) then RStrip(s[..|s| - 1]) else s
  }

  /** Python's `s.strip()`. */
  function Strip(s: string): (r: string)
    ensures r != [] ==> !IsWs(r[0]) && !IsWs(r[|r| - 1])
  {
    var r := LStrip(RStrip(s));
    assert r != [] ==> r[|r| - 1] == RStrip(s)[|RStrip(s)| - 1];
    r
  }

  predicate IsDigit(c: char) { '0' <= c <= '9' }
  predicate IsUpper(c: char) { 'A' <= c <= 'Z' }
  predicate IsLowerLetter(c: char) { 'a' <= c <= 'z' }
  predicate IsAlnum(c: char) { IsDigit(c) || IsUpper(c) || IsLowerLetter(c) }
  predicate AllAlnum(s: string) { forall i :: 0 <= i < |s| ==> IsAlnum(s[i]) }
  predicate AllDigits(s: string) { forall i :: 0 <= i < |s| ==> IsDigit(s[i]) }

  function LowerChar(c: char): char { if IsUpper(c) then c - 'A' + 'a' else c }
  function UpperChar(c: char): char { if IsLowerLetter(c) then c - 'a' + 'A' else c }

  /** Python 2's ASCII `s.lower()`. */
  function Lower(s: string): (r: string)
    ensures |r| == |s| && forall i :: 0 <= i < |s| ==> r[i] == LowerChar(s[i])
  {
    if s == [] then [] else [LowerChar(s[0])] + Lower(s[1..])
  }

  function DigitChar(d: nat): char
    requires d < 10
  {
    "0123456789"[d]
  }

  /** Python's `str(n)` for a natural number. */
  function NatStr(n: nat): (r: string)
    ensures |r| > 0 && AllDigits(r)
  {
    if n < 10 then [DigitChar(n)] else NatStr(n / 10) + [DigitChar(n % 10)]
  }

  /** Python's `str(i)` for an integer. */
  function IntStr(i: int): string
  {
    if i < 0 then "-" + NatStr(-i) else NatStr(i)
  }

  function DigitsValue(s: string): nat
    requires AllDigits(s)
  {
    if s == [] then 0 else 10 * DigitsValue(s[..|s| - 1]) + (s[|s| - 1] - '0') as nat
  }

  /** Python's `int(s)` on an already stripped string: an optional sign followed by digits. */
  function ParseInt(s: string): Option<int>
  {
    if |s| > 0 && (s[0] == '+' || s[0] == '-') then
      var d := s[1..];
      if |d| > 0 && AllDigits(d) then Some(if s[0] == '-' then -(DigitsValue(d) as int) else DigitsValue(d) as int)
      else None
    else if |s| > 0 && AllDigits(s) then Some(DigitsValue(s) as int)
    else None
  }

  /** Python's `os.path.join(a, b)` on POSIX paths. */
  function PathJoin(a: string, b: string): (r: string)
    ensures IsSuffix(b, r)
  {
    if IsPrefix("/", b) then b
    else if a == [] || IsSuffix("/", a) then a + b
    else a + "/" + b
  }

  /** The last `/`-separated component (`path.split(os.sep).pop()`). */
  function BaseName(path: string): (r: string)
    ensures !Contains(r, "/")
  {
    var parts := Split(path, "/");
    parts[|parts| - 1]
  }

  lemma NotContainsTail(s: string, p: string)
    requires !Contains(s, p) && |s| > 0
    ensures !Contains(s[1..], p) && !IsPrefix(p, s)
  {
    assert s[0..] == s;
    forall j | 0 <= j <= |s| - 1 ensures !IsPrefix(p, s[1..][j..]) {
      assert s[1..][j..] == s[j + 1..];
    }
  }

  /** A string without surrounding whitespace is its own `strip()`. */
  lemma StripPlain(s: string)
    requires s != [] && !IsWs(s[0]) && !IsWs(s[|s| - 1])
    ensures Strip(s) == s
  {
  }

  /** No part and not the separator holds `c`, so the joined string does not either. */
  lemma {:induction false} JoinAvoids(sep: string, parts: seq<string>, c: char)
    requires forall i :: 0 <= i < |sep| ==> sep[i] != c
    requires forall k :: 0 <= k < |parts| ==> !Contains(parts[k], [c])
    ensures forall i :: 0 <= i < |Join(sep, parts)| ==> Join(sep, parts)[i] != c
  {
    forall k | 0 <= k < |parts|
      ensures forall i :: 0 <= i < |parts[k]| ==> parts[k][i] != c
    {
      forall i | 0 <= i < |parts[k]|
        ensures parts[k][i] != c
      {
        if parts[k][i] == c {
          ContainsAt(parts[k], [c], i);
        }
      }
    }
    if |parts| > 1 {
      JoinAvoids(sep, parts[1..], c);
    }
  }

  /** Pieces of a split are pieces of the string, so a character `s` lacks they lack too. */
  lemma {:induction false} SplitAvoids(s: string, sep: string, c: char)
    requires |sep| > 0
    requires forall i :: 0 <= i < |s| ==> s[i] != c
    ensures forall k, i :: 0 <= k < |Split(s, sep)| && 0 <= i < |Split(s, sep)[k]| ==> Split(s, sep)[k][i] != c
    decreases |s|
  {
    match IndexOf(s, sep)
    case None =>
    case Some(i) =>
      var rest := s[i + |sep|..];
      SplitAvoids(rest, sep, c);
      assert Split(s, sep) == [s[..i]] + Split(rest, sep);
  }

  /** `replace` with a replacement lacking `c` keeps a string free of `c`. */
  lemma ReplaceAvoids(s: string, pat: string, repl: string, c: char)
    requires |pat| > 0
    requires forall i :: 0 <= i < |repl| ==> repl[i] != c
    requires (forall i :: 0 <= i < |s| ==> s[i] != c) || pat == [c]
    ensures forall i :: 0 <= i < |Replace(s, pat, repl)| ==> Replace(s, pat, repl)[i] != c
  {
    var parts := Split(s, pat);
    forall k | 0 <= k < |parts|
      ensures !Contains(parts[k], [c])
    {
      if pat == [c] {
      } else {
        SplitAvoids(s, pat, c);
        NotContainsChar(parts[k], [c], 0);
      }
    }
    JoinAvoids(repl, parts, c);
  }

  /** `s.replace(s, v)` is `v`. */
  lemma ReplaceWhole(s: string, v: string)
    requires |s| > 0
    ensures Replace(s, s, v) == v
  {
    assert IsPrefix(s, s);
    assert IndexOf(s, s) == Some(0);
    assert s[|s|..] == [];
    assert IndexOf([], s) == None;
    assert Split([], s) == [[]];
    assert Split(s, s) == [[]] + [[]];
  }
  /** `rstrip` removes only whitespace. */
  lemma {:induction false} RStripDrops(s: string)
    ensures forall i :: |RStrip(s)| <= i < |s| ==> IsWs(s[i])
    decreases |s|
  {
    if s != [] && IsWs(s[|s| - 1]) {
      RStripDrops(s[..|s| - 1]);
    }
  }

  /** `lstrip` removes only whitespace. */
  lemma {:induction false} LStripDrops(s: string)
    ensures forall i :: 0 <= i < |s| - |LStrip(s)| ==> IsWs(s[i])
    decreases |s|
  {
    if s != [] && IsWs(s[0]) {
      LStripDrops(s[1..]);
      forall i | 1 <= i < |s| - |LStrip(s)|
        ensures IsWs(s[i])
      {
        assert s[i] == s[1..][i - 1];
      }
    }
  }

  /** `s.strip()` is empty exactly when `s` is all whitespace. */
  lemma StripBlank(s: string)
    ensures Strip(s) == [] <==> forall i :: 0 <= i < |s| ==> IsWs(s[i])
  {
    var r := RStrip(s);
    RStripDrops(s);
    LStripDrops(r);
    if !forall i :: 0 <= i < |s| ==> IsWs(s[i]) {
      var i :| 0 <= i < |s| && !IsWs(s[i]);
      assert i < |r|;
      assert r[i] == s[i];
    }
  }

  /** Reading back the digits of `str(n)` gives `n`. */
  lemma {:induction false} NatStrValue(n: nat)
    ensures DigitsValue(NatStr(n)) == n
  {
    var s := NatStr(n);
    if n < 10 {
      assert s[..0] == [];
      assert "0123456789"[n] - '0' == n as char - 0 as char by {
        if n == 0 {} else if n == 1 {} else if n == 2 {} else if n == 3 {} else if n == 4 {}
        else if n == 5 {} else if n == 6 {} else if n == 7 {} else if n == 8 {} else {}
      }
    } else {
      NatStrValue(n / 10);
      var d := n % 10;
      assert s[..|s| - 1] == NatStr(n / 10);
      assert s[|s| - 1] == DigitChar(d);
      assert DigitChar(d) - '0' == d as char - 0 as char by {
        if d == 0 {} else if d == 1 {} else if d == 2 {} else if d == 3 {} else if d == 4 {}
        else if d == 5 {} else if d == 6 {} else if d == 7 {} else if d == 8 {} else {}
      }
    }
  }

  /** `int(str(i).strip())` gives `i` back. */
  lemma IntStrReads(i: int)
    ensures ParseInt(Strip(IntStr(i))) == Some(i)
  {
    IntStrStripped(i);
    var n: nat := if i < 0 then -i else i;
    NatStrValue(n);
    if i < 0 {
      assert IntStr(i)[1..] == NatStr(n);
    }
  }

  /** A printed number has no surrounding whitespace. */
  lemma IntStrStripped(i: int)
    ensures Strip(IntStr(i)) == IntStr(i)
  {
    var digits := NatStr(if i < 0 then -i else i);
    var s := IntStr(i);
    assert IsDigit(digits[0]) && IsDigit(digits[|digits| - 1]);
    assert s[|s| - 1] == digits[|digits| - 1];
    StripPlain(s);
  }

  /** Different numbers print differently. */
  lemma NatStrInjective(m: nat, n: nat)
    requires NatStr(m) == NatStr(n)
    ensures m == n
  {
    NatStrValue(m);
    NatStrValue(n);
  }
}
