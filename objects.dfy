/**
 * Minibuild descriptors and minilays (minitage/core/objects.py): the name
 * pattern, the file filter, the `[minibuild]` section validator with its fixed
 * order of errors, `${var}` substitution, the values `write` stores, and the
 * lazily filled minilay catalog.
 */
module Objects {
  import opened Wrappers
  import opened Text
  import Collections

  const ValidInstallMethods: seq<string> := ["buildout"]
  const ValidFetchMethods: seq<string> := ["svn", "hg", "static", "cvs", "bzr", "darcs", "git", "monotone"]

  // ---------------------------------------------------------------------------
  // check_minibuild_name: ^(M S)$ with
  //   M = [a-zA-Z0-9]+ ((-|.) [a-zA-Z0-9]+)*
  //   S = (MN | _X)*,  MN = -\d+ (\.\d+ | [a-z])*
  //   X = py2.4 | py2.5 | r(HEAD|TIP|\d+) | (tag|branch)([A-Z]|\d)(\.|[A-Z]|\d)* | (pre|p|beta|alpha|rc)\d*

  predicate AlnumWord(w: string) { |w| > 0 && AllAlnum(w) }

  /** The package-name part M. */
  predicate MainName(w: string)
    decreases |w|
  {
    AlnumWord(w) ||
    exists k | 0 < k < |w| :: AlnumWord(w[..k]) && (w[k] == '-' || w[k] == '.') && MainName(w[k + 1..])
  }

  /** The repeated `(\.\d+ | [a-z])*` tail of a major-minor suffix. */
  predicate VersionTail(w: string)
    decreases |w|
  {
    w == [] ||
    (IsLowerLetter(w[0]) && VersionTail(w[1..])) ||
    (w[0] == '.' && exists k | 1 < k <= |w| :: AllDigits(w[1..k]) && VersionTail(w[k..]))
  }

  /** A non-empty major-minor suffix MN. */
  predicate MajorMinor(w: string)
  {
    |w| > 1 && w[0] == '-' && exists k | 1 < k <= |w| :: AllDigits(w[1..k]) && VersionTail(w[k..])
  }

  predicate UpperOrDigit(c: char) { IsUpper(c) || IsDigit(c) }

  /** `(tag|branch)([A-Z]|\d)(\.|[A-Z]|\d)*` for the given keyword. */
  predicate ScmTag(w: string, p: string)
  {
    IsPrefix(p, w) && |w| > |p| && UpperOrDigit(w[|p|]) &&
    forall i :: |p| < i < |w| ==> w[i] == '.' || UpperOrDigit(w[i])
  }

  /** `(pre|p|beta|alpha|rc)\d*` for the given keyword. */
  predicate ReleaseTag(w: string, p: string)
  {
    IsPrefix(p, w) && AllDigits(w[|p|..])
  }

  /** The word after an underscore: python, revision, scm tag or release suffix. */
  predicate Tag(w: string)
  {
    w == "py2.4" || w == "py2.5" ||
    (|w| > 1 && w[0] == 'r' && (w[1..] == "HEAD" || w[1..] == "TIP" || AllDigits(w[1..]))) ||
    ScmTag(w, "tag") || ScmTag(w, "branch") ||
    ReleaseTag(w, "pre") || ReleaseTag(w, "p") || ReleaseTag(w, "beta") || ReleaseTag(w, "alpha") || ReleaseTag(w, "rc")
  }

  /** The version suffix S: any sequence of MN and `_X` pieces. */
  predicate Suffix(w: string)
    decreases |w|
  {
    w == [] ||
    exists k | 0 < k <= |w| ::
      (MajorMinor(w[..k]) || (w[0] == '_' && Tag(w[1..k]))) && Suffix(w[k..])
  }

  predicate WellNamed(w: string)
  {
    exists k | 0 < k <= |w| :: MainName(w[..k]) && Suffix(w[k..])
  }

  /**
   * `packageversion_re.match(name)`. Python's `$` also matches just before a
   * final newline, so a name followed by one "\n" is accepted as well.
   */
  predicate CheckMinibuildName(name: string)
  {
    WellNamed(name) || (|name| > 0 && name[|name| - 1] == '\n' && WellNamed(name[..|name| - 1]))
  }

  predicate NameChar(c: char) { IsAlnum(c) || c == '-' || c == '.' || c == '_' }
  predicate NameChars(w: string) { forall i :: 0 <= i < |w| ==> NameChar(w[i]) }
  predicate NameEnd(w: string) { |w| > 0 && (IsAlnum(w[|w| - 1]) || w[|w| - 1] == '.') }

  lemma {:induction false} MainNameShape(w: string)
    requires MainName(w)
    ensures NameChars(w) && IsAlnum(w[0]) && IsAlnum(w[|w| - 1])
    decreases |w|
  {
    if !AlnumWord(w) {
      var k :| 0 < k < |w| && AlnumWord(w[..k]) && (w[k] == '-' || w[k] == '.') && MainName(w[k + 1..]);
      var rest := w[k + 1..];
      MainNameShape(rest);
      forall i | 0 <= i < |w| ensures NameChar(w[i]) {
        if i < k { assert w[i] == w[..k][i]; } else if i > k { assert w[i] == rest[i - k - 1]; }
      }
      assert w[|w| - 1] == rest[|rest| - 1];
      assert w[0] == w[..k][0];
    }
  }

  lemma {:induction false} VersionTailShape(w: string)
    requires VersionTail(w)
    ensures NameChars(w) && (w != [] ==> IsAlnum(w[|w| - 1]))
    decreases |w|
  {
    if w != [] {
      if IsLowerLetter(w[0]) && VersionTail(w[1..]) {
        VersionTailShape(w[1..]);
        CutChars(w, 1);
      } else {
        var k :| 1 < k <= |w| && AllDigits(w[1..k]) && VersionTail(w[k..]);
        VersionTailShape(w[k..]);
        forall i | 0 <= i < k ensures NameChar(w[..k][i]) {
          if i > 0 { assert w[..k][i] == w[1..k][i - 1]; }
        }
        CutChars(w, k);
        assert w[k - 1] == w[1..k][k - 2];
      }
    }
  }

  lemma MajorMinorShape(w: string)
    requires MajorMinor(w)
    ensures NameChars(w) && IsAlnum(w[|w| - 1])
  {
    var k :| 1 < k <= |w| && AllDigits(w[1..k]) && VersionTail(w[k..]);
    VersionTailShape(w[k..]);
    MajorMinorHead(w, k);
  }

  lemma MajorMinorHead(w: string, k: nat)
    requires 1 < k <= |w| && w[0] == '-' && AllDigits(w[1..k]) && VersionTail(w[k..])
    requires NameChars(w[k..]) && (k < |w| ==> IsAlnum(w[|w| - 1]))
    ensures NameChars(w) && IsAlnum(w[|w| - 1])
  {
    forall i | 0 <= i < k ensures NameChar(w[..k][i]) {
      if i > 0 { assert w[..k][i] == w[1..k][i - 1]; }
    }
    CutChars(w, k);
    assert w[k - 1] == w[1..k][k - 2];
  }

  lemma ScmTagShape(w: string, p: string)
    requires ScmTag(w, p) && AllAlnum(p)
    ensures NameChars(w) && NameEnd(w)
  {
    forall i | 0 <= i < |w| ensures NameChar(w[i]) {
      if i < |p| { assert w[i] == w[..|p|][i]; }
    }
  }

  lemma ReleaseTagShape(w: string, p: string)
    requires ReleaseTag(w, p) && AlnumWord(p)
    ensures NameChars(w) && NameEnd(w)
  {
    forall i | 0 <= i < |w| ensures IsAlnum(w[i]) {
      if i < |p| { assert w[i] == w[..|p|][i]; } else { assert w[i] == w[|p|..][i - |p|]; }
    }
  }

  lemma RevisionTagShape(w: string)
    requires |w| > 1 && w[0] == 'r' && (w[1..] == "HEAD" || w[1..] == "TIP" || AllDigits(w[1..]))
    ensures NameChars(w) && NameEnd(w)
  {
    var t := w[1..];
    assert AllAlnum(t) by {
      if t == "HEAD" { } else if t == "TIP" { }
    }
    forall i | 0 <= i < |w| ensures IsAlnum(w[i]) {
      if i > 0 { assert w[i] == t[i - 1]; }
    }
  }

  lemma TagShape(w: string)
    requires Tag(w)
    ensures NameChars(w) && NameEnd(w)
  {
    if w == "py2.4" || w == "py2.5" {
      PyTagShape(w);
    } else if |w| > 1 && w[0] == 'r' && (w[1..] == "HEAD" || w[1..] == "TIP" || AllDigits(w[1..])) {
      RevisionTagShape(w);
    } else if ScmTag(w, "tag") || ScmTag(w, "branch") {
      if ScmTag(w, "tag") { ScmTagShape(w, "tag"); } else { ScmTagShape(w, "branch"); }
    } else {
      ReleaseTagsShape(w);
    }
  }

  lemma PyTagShape(w: string)
    requires w == "py2.4" || w == "py2.5"
    ensures NameChars(w) && NameEnd(w)
  {
  }

  lemma ReleaseTagsShape(w: string)
    requires ReleaseTag(w, "pre") || ReleaseTag(w, "p") || ReleaseTag(w, "beta") || ReleaseTag(w, "alpha") || ReleaseTag(w, "rc")
    ensures NameChars(w) && NameEnd(w)
  {
    if ReleaseTag(w, "pre") {
      ReleaseTagShape(w, "pre");
    } else if ReleaseTag(w, "p") {
      ReleaseTagShape(w, "p");
    } else if ReleaseTag(w, "beta") {
      ReleaseTagShape(w, "beta");
    } else if ReleaseTag(w, "alpha") {
      ReleaseTagShape(w, "alpha");
    } else {
      ReleaseTagShape(w, "rc");
    }
  }


  /** Name characters on both sides of a cut give name characters throughout. */
  lemma CutChars(w: string, k: nat)
    requires k <= |w| && NameChars(w[..k]) && NameChars(w[k..])
    ensures NameChars(w)
    ensures k < |w| ==> w[|w| - 1] == w[k..][|w| - k - 1]
  {
    forall i | 0 <= i < |w| ensures NameChar(w[i]) {
      if i < k { assert w[i] == w[..k][i]; } else { assert w[i] == w[k..][i - k]; }
    }
  }

  lemma {:induction false} SuffixShape(w: string)
    requires Suffix(w)
    ensures NameChars(w) && (w != [] ==> NameEnd(w))
    decreases |w|
  {
    if w != [] {
      var k :| 0 < k <= |w| && (MajorMinor(w[..k]) || (w[0] == '_' && Tag(w[1..k]))) && Suffix(w[k..]);
      SuffixShape(w[k..]);
      var head := w[..k];
      if MajorMinor(head) {
        MajorMinorShape(head);
      } else {
        TagShape(w[1..k]);
        assert head[1..] == w[1..k];
        CutChars(head, 1);
        if k > 1 { assert head[k - 1] == w[1..k][k - 2]; }
      }
      CutChars(w, k);
    }
  }

  lemma WellNamedShape(w: string)
    requires WellNamed(w)
    ensures |w| > 0 && IsAlnum(w[0]) && NameChars(w) && NameEnd(w)
  {
    var k :| 0 < k <= |w| && MainName(w[..k]) && Suffix(w[k..]);
    MainNameShape(w[..k]);
    SuffixShape(w[k..]);
    CutChars(w, k);
    assert w[0] == w[..k][0];
  }

  /**
   * Every accepted name, once the single trailing newline that `$` tolerates is
   * dropped, is non-empty, starts with an ASCII letter or digit, uses only
   * letters, digits, `-`, `.` and `_`, and ends with a letter, digit or `.`.
   */
  lemma AcceptedNameShape(name: string)
    requires CheckMinibuildName(name)
    ensures var w := if WellNamed(name) then name else name[..|name| - 1];
            |w| > 0 && IsAlnum(w[0]) && NameChars(w) && NameEnd(w)
    ensures NameChars(name) || name[|name| - 1] == '\n'
  {
    if WellNamed(name) { WellNamedShape(name); } else { WellNamedShape(name[..|name| - 1]); }
  }

  /** The pattern as written accepts a descriptor file named "zlib" followed by a newline. */
  lemma TrailingNewlineAccepted()
    ensures CheckMinibuildName("zlib\n") && !NameChars("zlib\n")
  {
    var w := "zlib";
    assert AlnumWord(w);
    assert MainName(w);
    assert Suffix(w[4..]);
    assert WellNamed(w) by { assert MainName(w[..4]) && Suffix(w[4..]); }
    assert "zlib\n"[..4] == w;
    assert !NameChar("zlib\n"[4]);
  }

  // ---------------------------------------------------------------------------
  // mfilter

  /** Files of a minilay that are never descriptors. */
  predicate MFilter(f: string)
  {
    IsPrefix(".", Lower(f)) || IsPrefix("readme", Lower(f)) ||
    IsSuffix(".svn", f) || IsSuffix(".sav", f) || IsSuffix("ignore", f)
  }

  /**
   * A well-formed descriptor name never starts with a dot, so among valid
   * names the filter only drops README files and the three suffixes.
   */
  lemma FilterOnValidNames(name: string)
    requires WellNamed(name)
    ensures MFilter(name) <==>
      IsPrefix("readme", Lower(name)) || IsSuffix(".svn", name) || IsSuffix(".sav", name) || IsSuffix("ignore", name)
  {
    WellNamedShape(name);
    assert Lower(name)[0] == LowerChar(name[0]);
  }

  // ---------------------------------------------------------------------------
  // Minibuild.load

  datatype LoadError =
    | InvalidMinibuildName
    | InvalidConfigFile
    | NoMinibuildSection
    | InvalidInstallMethod
    | MissingFetchMethod
    | InvalidFetchMethod
    | MissingCategory
    | InvalidCategory
    | EmptyMinibuild
      /** `re.findall` applied to a dependency list whose text holds `${` raises TypeError. */
    | VariableTypeError

  /** One configuration section: option names (already lower-cased by the parser) to values. */
  type Section = map<string, string>
  type ConfigFile = map<string, Section>

  /** The attributes of a loaded minibuild; `None` where the source leaves `None`. */
  datatype Descriptor = Descriptor(
    path: string,
    name: string,
    dependencies: seq<string>,
    rawDependencies: seq<string>,
    revision: int,
    installMethod: string,
    srcUri: string,
    srcType: Option<string>,
    srcOpts: Option<string>,
    srcMd5: Option<string>,
    category: Option<string>,
    url: string,
    description: string)

  function Get(sec: Section, key: string, default: string): string
  {
    if key in sec then sec[key] else default
  }

  /** `section.get(key, False)` used as a condition. */
  predicate Truthy(sec: Section, key: string) { key in sec && sec[key] != "" }

  /** `[x for x in xs if x not in ys]`. */
  function Without(xs: seq<string>, ys: seq<string>): (r: seq<string>)
    ensures forall x :: x in r <==> x in xs && x !in ys
    ensures |r| <= |xs|
  {
    if xs == [] then []
    else if xs[0] in ys then Without(xs[1..], ys)
    else [xs[0]] + Without(xs[1..], ys)
  }

  /** The `dependencies` attribute: OS-specific additions first, or the OS replacement list. */
  function ComputedDependencies(sec: Section, uname: string): seq<string>
  {
    var base := SplitWs(Get(sec, "dependencies", ""));
    var withOs := if Truthy(sec, "dependencies-" + uname)
                  then Without(SplitWs(sec["dependencies-" + uname]), base) + base
                  else base;
    var over := SplitWs(Get(sec, "dependencies-" + uname + "-replace", ""));
    if over != [] then over else withOs
  }

  /**
   * Without a non-empty replacement, every plain dependency is kept, in order,
   * at the end of the list, and each OS-specific addition is new; a non-empty
   * replacement is the whole list.
   */
  lemma DependenciesShape(sec: Section, uname: string)
    ensures var deps := ComputedDependencies(sec, uname);
            var base := SplitWs(Get(sec, "dependencies", ""));
            var over := SplitWs(Get(sec, "dependencies-" + uname + "-replace", ""));
            (over != [] ==> deps == over) &&
            (over == [] ==> |base| <= |deps| && deps[|deps| - |base|..] == base &&
                            forall i :: 0 <= i < |deps| - |base| ==> deps[i] !in base) &&
            (over == [] && !Truthy(sec, "dependencies-" + uname) ==> deps == base)
  {
    var deps := ComputedDependencies(sec, uname);
    var base := SplitWs(Get(sec, "dependencies", ""));
    var over := SplitWs(Get(sec, "dependencies-" + uname + "-replace", ""));
    if over == [] && Truthy(sec, "dependencies-" + uname) {
      var extra := Without(SplitWs(sec["dependencies-" + uname]), base);
      assert deps == extra + base;
      assert deps[|deps| - |base|..] == base;
      forall i | 0 <= i < |deps| - |base| ensures deps[i] !in base {
        assert deps[i] == extra[i];
      }
    }
  }

  /** `int(section.get('revision', '0').strip())`, or 0 when that raises. */
  function Revision(sec: Section): int
  {
    match ParseInt(Strip(Get(sec, "revision", "0")))
    case Some(n) => n
    case None => 0
  }

  /** Without a `revision` option the revision is 0. */
  lemma RevisionDefault(sec: Section)
    requires "revision" !in sec
    ensures Revision(sec) == 0
  {
    StripPlain("0");
    assert "0"[..0] == [];
    assert ParseInt("0") == Some(0);
  }

  /** A stripped run of digits is read as its decimal value; anything unparsable gives 0. */
  lemma RevisionValue(sec: Section)
    ensures var s := Strip(Get(sec, "revision", "0"));
            (s != [] && AllDigits(s) ==> Revision(sec) == DigitsValue(s) as int) &&
            (ParseInt(s).None? ==> Revision(sec) == 0)
  {
    var s := Strip(Get(sec, "revision", "0"));
    if s != [] && AllDigits(s) {
      ParseDigits(s);
    }
  }

  /** A revision written as `str(n)` is read back as `n`. */
  lemma RevisionReads(sec: Section, n: int)
    requires "revision" in sec && sec["revision"] == IntStr(n)
    ensures Revision(sec) == n
  {
    IntStrReads(n);
  }

  lemma ParseDigits(s: string)
    requires s != [] && AllDigits(s)
    ensures ParseInt(s) == Some(DigitsValue(s) as int)
  {
    assert IsDigit(s[0]);
  }

  /** What `load` reads when `src_uri` is set. */
  datatype Source = Source(srcType: string, srcOpts: string, srcMd5: string, category: string)

  /** The checks on a non-empty `src_uri`, in the source's order. */
  function SourceFields(sec: Section): Result<Source, LoadError>
  {
    var srcType := Strip(Get(sec, "src_type", ""));
    if srcType == "" then Err(MissingFetchMethod)
    else if srcType !in ValidFetchMethods then Err(InvalidFetchMethod)
    else if "category" !in sec || sec["category"] == "" then Err(MissingCategory)
    else if !(Truthy(sec, "category-bypass") || AlnumWord(sec["category"])) then Err(InvalidCategory)
    else Ok(Source(srcType, Strip(Get(sec, "src_opts", "")), Strip(Get(sec, "src_md5", "")), sec["category"]))
  }

  predicate InstallMethodAccepted(sec: Section)
  {
    var im := Strip(Get(sec, "install_method", ""));
    im == "" || im in ValidInstallMethods || (Truthy(sec, "install-method-bypass") && AlnumWord(im))
  }

  /** A minibuild object as constructed, before any load: the name is the last path component. */
  function Fresh(path: string): Descriptor
  {
    Descriptor(path, BaseName(path), [], [], 0, "", "", None, None, None, None, "", "")
  }

  /**
   * The attributes after `load` has read the configuration into the object
   * `prev`, before `parse_vars`, or the first error it raises. Without a
   * `src_uri` the source attributes keep their previous values.
   */
  function ReadSection(prev: Descriptor, config: Option<ConfigFile>, uname: string): Result<Descriptor, LoadError>
  {
    if !CheckMinibuildName(prev.name) then Err(InvalidMinibuildName)
    else if config.None? then Err(InvalidConfigFile)
    else if "minibuild" !in config.value then Err(NoMinibuildSection)
    else ReadMinibuildSection(prev, config.value["minibuild"], uname)
  }

  /** The checks and assignments `load` performs on the `[minibuild]` section. */
  function ReadMinibuildSection(prev: Descriptor, sec: Section, uname: string): Result<Descriptor, LoadError>
  {
    var deps := ComputedDependencies(sec, uname);
    var im := Strip(Get(sec, "install_method", ""));
    var uri := Strip(Get(sec, "src_uri", ""));
    if !InstallMethodAccepted(sec) then Err(InvalidInstallMethod)
    else if uri != "" && SourceFields(sec).Err? then Err(SourceFields(sec).error)
    else if im == "" && deps == [] then Err(EmptyMinibuild)
    else
      var d := prev.(dependencies := deps, rawDependencies := SplitWs(Get(sec, "dependencies", "")),
                     revision := Revision(sec), installMethod := im, srcUri := uri,
                     url := Strip(Get(sec, "url", "")), description := Strip(Get(sec, "description", "")));
      if uri == "" then Ok(d)
      else
        var s := SourceFields(sec).value;
        Ok(d.(srcType := Some(s.srcType), srcOpts := Some(s.srcOpts), srcMd5 := Some(s.srcMd5),
              category := Some(s.category)))
  }

  // ---------------------------------------------------------------------------
  // parse_vars

  /** `re.findall(r'\$\{([^}]*)\}', s)`: the text between each `${` and the next `}`. */
  function FindAll(s: string): (r: seq<string>)
    ensures forall k :: 0 <= k < |r| ==> !Contains(r[k], "}")
    decreases |s|
  {
    if |s| < 2 then []
    else if s[0] == '$' && s[1] == '{' then
      match IndexOf(s[2..], "}")
      case None => []
      case Some(j) =>
        assert !Contains(s[2..][..j], "}") by {
          forall i | 0 <= i < j ensures s[2..][..j][i] != "}"[0] {
            assert !IsPrefix("}", s[2..][i..]);
          }
          NotContainsChar(s[2..][..j], "}", 0);
        }
        [s[2..][..j]] + FindAll(s[2 + j + 1..])
    else FindAll(s[1..])
  }

  lemma {:induction false} FindAllNoMarker(s: string)
    requires !Contains(s, "${")
    ensures FindAll(s) == []
    decreases |s|
  {
    if |s| >= 2 {
      NotContainsTail(s, "${");
      assert s[..2] != "${";
      FindAllNoMarker(s[1..]);
    }
  }

  /** The inner loop of `parse_vars`: replace each found `${name}` that is a known variable, in order. */
  function ApplyPatterns(v: string, pats: seq<string>, vars: map<string, string>): string
    decreases |pats|
  {
    if pats == [] then v
    else ApplyPatterns(if pats[0] in vars then Replace(v, "${" + pats[0] + "}", vars[pats[0]]) else v, pats[1..], vars)
  }

  /** One pass of `parse_vars` over one string attribute. */
  function ExpandPass(item: string, vars: map<string, string>): string
  {
    if item != "" && Contains(item, "${") then ApplyPatterns(item, FindAll(item), vars) else item
  }

  /** Both passes of `parse_vars` over one string attribute. */
  function Expand(item: string, vars: map<string, string>): string
  {
    ExpandPass(ExpandPass(item, vars), vars)
  }

  function ExpandOpt(item: Option<string>, vars: map<string, string>): Option<string>
  {
    if item.Some? then Some(ExpandPass(item.value, vars)) else None
  }

  /** One pass of `parse_vars` over every string attribute. */
  function ExpandAll(d: Descriptor, vars: map<string, string>): Descriptor
  {
    d.(path := ExpandPass(d.path, vars), name := ExpandPass(d.name, vars),
       installMethod := ExpandPass(d.installMethod, vars), srcUri := ExpandPass(d.srcUri, vars),
       srcType := ExpandOpt(d.srcType, vars), srcOpts := ExpandOpt(d.srcOpts, vars),
       srcMd5 := ExpandOpt(d.srcMd5, vars), category := ExpandOpt(d.category, vars),
       url := ExpandPass(d.url, vars), description := ExpandPass(d.description, vars))
  }

  predicate ListHasMarker(xs: seq<string>) { exists i :: 0 <= i < |xs| && Contains(xs[i], "${") }

  /** `parse_vars`: two passes over the string attributes; a list attribute holding `${` raises. */
  function ParseVarsOf(d: Descriptor, vars: map<string, string>): Result<Descriptor, LoadError>
  {
    if ListHasMarker(d.dependencies) || ListHasMarker(d.rawDependencies) then Err(VariableTypeError)
    else Ok(ExpandAll(ExpandAll(d, vars), vars))
  }

  /** `load` on the object `prev`: read the section, then substitute variables. */
  function LoadInto(prev: Descriptor, config: Option<ConfigFile>, uname: string, vars: map<string, string>): Result<Descriptor, LoadError>
  {
    var read := ReadSection(prev, config, uname);
    if read.Err? then read else ParseVarsOf(read.value, vars)
  }

  /**
   * The attributes of the object after `load`, whether it succeeds or not.
   * The model leaves them as they were after a failed read, and as the read
   * assigned them after a failed `parse_vars`; the partial updates the source
   * keeps in both cases are not modelled.
   */
  function AttrsAfterLoad(prev: Descriptor, config: Option<ConfigFile>, uname: string, vars: map<string, string>): Descriptor
  {
    var read := ReadSection(prev, config, uname);
    if read.Err? then prev
    else match ParseVarsOf(read.value, vars)
      case Ok(d) => d
      case Err(_) => read.value
  }

  /** `Minibuild(path).load()` on a new object. */
  function LoadDescriptor(path: string, config: Option<ConfigFile>, uname: string, vars: map<string, string>): Result<Descriptor, LoadError>
  {
    LoadInto(Fresh(path), config, uname, vars)
  }

  /** A value without `${` is left alone by substitution. */
  lemma ExpandPlain(item: string, vars: map<string, string>)
    requires !Contains(item, "${")
    ensures Expand(item, vars) == item
  {
  }

  lemma {:induction false} ApplyUnknown(v: string, pats: seq<string>, vars: map<string, string>)
    requires forall k :: 0 <= k < |pats| ==> pats[k] !in vars
    ensures ApplyPatterns(v, pats, vars) == v
    decreases |pats|
  {
    if pats != [] { ApplyUnknown(v, pats[1..], vars); }
  }

  /** Unknown `${name}` references are left verbatim. */
  lemma ExpandUnknown(item: string, vars: map<string, string>)
    requires forall k :: 0 <= k < |FindAll(item)| ==> FindAll(item)[k] !in vars
    ensures ExpandPass(item, vars) == item
  {
    ApplyUnknown(item, FindAll(item), vars);
  }

  /** In `n + "}"` with no `}` in `n`, the first `}` is the appended one. */
  lemma CloseBraceAt(n: string)
    requires !Contains(n, "}")
    ensures IndexOf(n + "}", "}") == Some(|n|)
  {
    var t := n + "}";
    assert IsPrefix("}", t[|n|..]);
    forall j | 0 <= j < |n|
      ensures !IsPrefix("}", t[j..])
    {
      NoBraceBefore(n, j);
    }
  }

  lemma NoBraceBefore(n: string, j: nat)
    requires !Contains(n, "}") && j < |n|
    ensures !IsPrefix("}", (n + "}")[j..])
  {
    assert (n + "}")[j..][..1] == n[j..][..1];
  }

  lemma FindAllReference(n: string)
    requires !Contains(n, "}")
    ensures FindAll("${" + n + "}") == [n]
  {
    var s := "${" + n + "}";
    assert s[2..] == n + "}";
    CloseBraceAt(n);
    assert s[2..][..|n|] == n;
    assert s[2 + |n| + 1..] == [];
  }

  /** A value that is exactly one known reference becomes the variable's value. */
  lemma ExpandReference(n: string, vars: map<string, string>)
    requires n in vars && !Contains(n, "}")
    ensures ExpandPass("${" + n + "}", vars) == vars[n]
  {
    var s := "${" + n + "}";
    FindAllReference(n);
    ContainsAt(s, "${", 0);
    ReplaceWhole(s, vars[n]);
    assert ExpandPass(s, vars) == ApplyPatterns(s, [n], vars);
    assert ApplyPatterns(s, [n], vars) == ApplyPatterns(Replace(s, s, vars[n]), [], vars);
  }

  /**
   * The two passes resolve one level of nesting: a variable whose value is a
   * reference to a second, plain variable ends up as that plain value.
   */
  lemma ExpandNested(a: string, b: string, vars: map<string, string>)
    requires a in vars && b in vars && !Contains(a, "}") && !Contains(b, "}")
    requires vars[a] == "${" + b + "}" && !Contains(vars[b], "${")
    ensures Expand("${" + a + "}", vars) == vars[b]
  {
    ExpandReference(a, vars);
    ExpandReference(b, vars);
  }

  /** What `load` checked on the raw section before assigning the attributes. */
  lemma ReadSectionValid(prev: Descriptor, config: Option<ConfigFile>, uname: string)
    requires ReadSection(prev, config, uname).Ok?
    ensures CheckMinibuildName(prev.name) && config.Some? && "minibuild" in config.value
    ensures var sec := config.value["minibuild"];
            var d := ReadMinibuildSection(prev, sec, uname).value;
            var sourced := Strip(Get(sec, "src_uri", "")) != "";
            InstallMethodAccepted(sec) &&
            (d.installMethod != "" || d.dependencies != []) &&
            d.dependencies == ComputedDependencies(sec, uname) &&
            d.rawDependencies == SplitWs(Get(sec, "dependencies", "")) &&
            d.revision == Revision(sec) &&
            (sourced ==> SourceFields(sec).Ok? && d.srcType.Some? && d.category.Some?) &&
            (!sourced ==> d.srcType == prev.srcType && d.category == prev.category)
  {
  }

  /** A successful source check means a known fetch method and an acceptable category. */
  lemma SourceFieldsValid(sec: Section)
    requires SourceFields(sec).Ok?
    ensures Strip(Get(sec, "src_type", "")) in ValidFetchMethods
    ensures "category" in sec && sec["category"] != ""
    ensures Truthy(sec, "category-bypass") || AlnumWord(sec["category"])
  {
  }

  /** Substitution only rewrites string attributes and keeps which ones are unset. */
  lemma ParseVarsKeeps(d: Descriptor, vars: map<string, string>)
    requires ParseVarsOf(d, vars).Ok?
    ensures var e := ParseVarsOf(d, vars).value;
            e.dependencies == d.dependencies && e.rawDependencies == d.rawDependencies &&
            e.revision == d.revision && e.srcType.Some? == d.srcType.Some? && e.category.Some? == d.category.Some? &&
            !ListHasMarker(d.dependencies) && !ListHasMarker(d.rawDependencies)
  {
  }

  /** A loaded descriptor passed every check of `load`, read off the raw section. */
  lemma LoadedIsValid(path: string, config: Option<ConfigFile>, uname: string, vars: map<string, string>)
    requires LoadDescriptor(path, config, uname, vars).Ok?
    ensures CheckMinibuildName(BaseName(path)) && config.Some? && "minibuild" in config.value
    ensures var sec := config.value["minibuild"];
            var d := LoadDescriptor(path, config, uname, vars).value;
            InstallMethodAccepted(sec) &&
            d.dependencies == ComputedDependencies(sec, uname) &&
            d.rawDependencies == SplitWs(Get(sec, "dependencies", "")) &&
            d.revision == Revision(sec) &&
            (Strip(Get(sec, "install_method", "")) != "" || d.dependencies != []) &&
            (Strip(Get(sec, "src_uri", "")) != "" ==> SourceFields(sec).Ok? && d.srcType.Some? && d.category.Some?) &&
            (Strip(Get(sec, "src_uri", "")) == "" ==> d.srcType.None? && d.category.None?)
  {
    var read := ReadSection(Fresh(path), config, uname);
    ReadSectionValid(Fresh(path), config, uname);
    ParseVarsKeeps(read.value, vars);
  }

  /** The first three errors of `load`, each exactly under its condition. */
  lemma ReadSectionErrors(prev: Descriptor, config: Option<ConfigFile>, uname: string)
    ensures var r := ReadSection(prev, config, uname);
            var named := CheckMinibuildName(prev.name);
            (r == Err(InvalidMinibuildName) <==> !named) &&
            (r == Err(InvalidConfigFile) <==> named && config.None?) &&
            (r == Err(NoMinibuildSection) <==> named && config.Some? && "minibuild" !in config.value)
  {
    if CheckMinibuildName(prev.name) && config.Some? && "minibuild" in config.value {
      SectionErrorKinds(prev, config.value["minibuild"], uname);
    }
  }

  /** The section checks raise none of the errors found before the section is read. */
  lemma SectionErrorKinds(prev: Descriptor, sec: Section, uname: string)
    ensures var r := ReadMinibuildSection(prev, sec, uname);
            r.Err? ==> r.error !in {InvalidMinibuildName, InvalidConfigFile, NoMinibuildSection}
  {
    if InstallMethodAccepted(sec) && Strip(Get(sec, "src_uri", "")) != "" && SourceFields(sec).Err? {
      SourceFieldsErrors(sec);
      assert ReadMinibuildSection(prev, sec, uname) == Err(SourceFields(sec).error);
    }
  }

  /** The errors raised on the `[minibuild]` section, each exactly under its condition, in order. */
  lemma SectionErrors(prev: Descriptor, sec: Section, uname: string)
    ensures var r := ReadMinibuildSection(prev, sec, uname);
            var sourced := Strip(Get(sec, "src_uri", "")) != "";
            var srcType := Strip(Get(sec, "src_type", ""));
            (r == Err(InvalidInstallMethod) <==> !InstallMethodAccepted(sec)) &&
            (r == Err(MissingFetchMethod) <==> InstallMethodAccepted(sec) && sourced && srcType == "") &&
            (r == Err(InvalidFetchMethod) <==>
               InstallMethodAccepted(sec) && sourced && srcType != "" && srcType !in ValidFetchMethods) &&
            (r == Err(EmptyMinibuild) <==>
               InstallMethodAccepted(sec) && (!sourced || SourceFields(sec).Ok?) &&
               Strip(Get(sec, "install_method", "")) == "" && ComputedDependencies(sec, uname) == [])
  {
    var r := ReadMinibuildSection(prev, sec, uname);
    var sourced := Strip(Get(sec, "src_uri", "")) != "";
    SourceFieldsErrors(sec);
    if !InstallMethodAccepted(sec) {
      assert r == Err(InvalidInstallMethod);
    } else if sourced && SourceFields(sec).Err? {
      assert r == Err(SourceFields(sec).error);
    } else if Strip(Get(sec, "install_method", "")) == "" && ComputedDependencies(sec, uname) == [] {
      assert r == Err(EmptyMinibuild);
    } else {
      assert r.Ok?;
    }
  }

  lemma SourceFieldsErrors(sec: Section)
    ensures var srcType := Strip(Get(sec, "src_type", ""));
            (SourceFields(sec) == Err(MissingFetchMethod) <==> srcType == "") &&
            (SourceFields(sec) == Err(InvalidFetchMethod) <==> srcType != "" && srcType !in ValidFetchMethods) &&
            (SourceFields(sec).Err? ==> SourceFields(sec).error in {MissingFetchMethod, InvalidFetchMethod, MissingCategory, InvalidCategory})
  {
  }

  // ---------------------------------------------------------------------------
  // Minibuild.write: which values are stored

  datatype WriteValue = Absent | Text(text: string) | Items(items: seq<string>) | Number(number: int)

  /** The text stored for one argument of `write`, or None when the option is left as it was. */
  function WrittenText(v: WriteValue): Option<string>
  {
    match v
    case Absent => None
    case Text(s) => Some(s)
    case Items(xs) => if xs == [] then None else Some(Join(" ", xs))
    case Number(n) => Some(IntStr(n))
  }

  /** The `[minibuild]` section after `write`. */
  function Write(sec: Section, args: map<string, WriteValue>): (r: Section)
    ensures forall k :: k in args && WrittenText(args[k]).Some? ==> k in r && r[k] == WrittenText(args[k]).value
    ensures forall k :: k in sec && (k !in args || WrittenText(args[k]).None?) ==> k in r && r[k] == sec[k]
    ensures r.Keys == sec.Keys + (set k | k in args && WrittenText(args[k]).Some?)
  {
    map k | k in sec.Keys + (set k | k in args && WrittenText(args[k]).Some?) ::
      if k in args && WrittenText(args[k]).Some? then WrittenText(args[k]).value else sec[k]
  }

  lemma {:induction false} JoinSplitWs(xs: seq<string>)
    requires forall i :: 0 <= i < |xs| ==> |xs[i]| > 0 && NoWs(xs[i])
    ensures SplitWs(Join(" ", xs)) == xs
    decreases |xs|
  {
    if |xs| == 1 {
      WordsPrefix(xs[0], []);
      assert xs[0] + [] == xs[0];
    } else if |xs| > 1 {
      var tail := Join(" ", xs[1..]);
      var rest := " " + tail;
      assert Join(" ", xs) == xs[0] + rest;
      WordsPrefix(xs[0], rest);
      SplitWsSpace(tail);
      JoinSplitWs(xs[1..]);
      assert [xs[0]] + xs[1..] == xs;
    }
  }

  lemma SplitWsSpace(s: string)
    ensures SplitWs(" " + s) == SplitWs(s)
  {
    assert (" " + s)[1..] == s;
  }

  lemma WordsPrefix(w: string, rest: string)
    requires |w| > 0 && NoWs(w) && (rest != [] ==> IsWs(rest[0]))
    ensures SplitWs(w + rest) == [w] + SplitWs(rest)
  {
    var s := w + rest;
    WordLenOf(w, rest);
    assert s[..|w|] == w;
    assert s[|w|..] == rest;
  }

  lemma {:induction false} WordLenOf(w: string, rest: string)
    requires NoWs(w) && (rest != [] ==> IsWs(rest[0]))
    ensures WordLen(w + rest) == |w|
    decreases |w|
  {
    if w != [] {
      WordLenOf(w[1..], rest);
      assert (w + rest)[1..] == w[1..] + rest;
    }
  }

  /**
   * Writing a dependency list and reading it back gives the same list: the
   * joined text splits into the original names when each is a non-empty word.
   */
  lemma WriteThenReadDependencies(sec: Section, deps: seq<string>)
    requires deps != [] && forall i :: 0 <= i < |deps| ==> |deps[i]| > 0 && NoWs(deps[i])
    ensures var w := Write(sec, map["dependencies" := Items(deps)]);
            SplitWs(Get(w, "dependencies", "")) == deps
  {
    JoinSplitWs(deps);
  }

  // ---------------------------------------------------------------------------
  // The Minibuild object

  /** One pass of `parse_vars` over one attribute: the loop over the found references. */
  method ExpandField(item: string, vars: map<string, string>) returns (v: string)
    ensures v == ExpandPass(item, vars)
  {
    v := item;
    if item != "" && Contains(item, "${") {
      var found := FindAll(item);
      var i := 0;
      while i < |found|
        invariant 0 <= i <= |found|
        invariant ApplyPatterns(v, found[i..], vars) == ExpandPass(item, vars)
      {
        assert found[i..][1..] == found[i + 1..];
        if found[i] in vars {
          v := Replace(v, "${" + found[i] + "}", vars[found[i]]);
        }
        i := i + 1;
      }
    }
  }

  method ExpandOptField(item: Option<string>, vars: map<string, string>) returns (v: Option<string>)
    ensures v == ExpandOpt(item, vars)
  {
    v := item;
    if item.Some? {
      var s := ExpandField(item.value, vars);
      v := Some(s);
    }
  }

  /** One pass of `parse_vars` over every string attribute, attribute by attribute. */
  method ExpandAllFields(d: Descriptor, vars: map<string, string>) returns (e: Descriptor)
    ensures e == ExpandAll(d, vars)
  {
    var p := ExpandField(d.path, vars);
    var n := ExpandField(d.name, vars);
    var im := ExpandField(d.installMethod, vars);
    var uri := ExpandField(d.srcUri, vars);
    var st := ExpandOptField(d.srcType, vars);
    var so := ExpandOptField(d.srcOpts, vars);
    var sm := ExpandOptField(d.srcMd5, vars);
    var cat := ExpandOptField(d.category, vars);
    var u := ExpandField(d.url, vars);
    var desc := ExpandField(d.description, vars);
    e := d.(path := p, name := n, installMethod := im, srcUri := uri, srcType := st, srcOpts := so,
            srcMd5 := sm, category := cat, url := u, description := desc);
  }

  /** The `dependencies` attribute as `load` builds it, step by step. */
  method ReadDependencies(sec: Section, uname: string) returns (deps: seq<string>)
    ensures deps == ComputedDependencies(sec, uname)
  {
    deps := SplitWs(Get(sec, "dependencies", ""));
    if Truthy(sec, "dependencies-" + uname) {
      deps := Without(SplitWs(sec["dependencies-" + uname]), deps) + deps;
    }
    var over := SplitWs(Get(sec, "dependencies-" + uname + "-replace", ""));
    if over != [] {
      deps := over;
    }
  }

  /** The checks `load` makes on a non-empty `src_uri`, in the source's order. */
  method ReadSource(sec: Section) returns (r: Result<Source, LoadError>)
    ensures r == SourceFields(sec)
  {
    var srcType := Strip(Get(sec, "src_type", ""));
    if srcType == "" { return Err(MissingFetchMethod); }
    var srcOpts := Strip(Get(sec, "src_opts", ""));
    var srcMd5 := Strip(Get(sec, "src_md5", ""));
    if srcType !in ValidFetchMethods { return Err(InvalidFetchMethod); }
    if "category" !in sec || sec["category"] == "" { return Err(MissingCategory); }
    var category := sec["category"];
    if !(Truthy(sec, "category-bypass") || AlnumWord(category)) { return Err(InvalidCategory); }
    r := Ok(Source(srcType, srcOpts, srcMd5, category));
  }

  /** The reading half of `load`, step by step in the source's order, on the attributes `prev`. */
  method ReadFields(prev: Descriptor, config: Option<ConfigFile>, uname: string) returns (r: Result<Descriptor, LoadError>)
    ensures r == ReadSection(prev, config, uname)
    ensures r.Ok? ==> r.value.path == prev.path && r.value.name == prev.name
  {
    if !CheckMinibuildName(prev.name) { return Err(InvalidMinibuildName); }
    if config.None? { return Err(InvalidConfigFile); }
    if "minibuild" !in config.value { return Err(NoMinibuildSection); }
    var sec := config.value["minibuild"];
    assert ReadSection(prev, config, uname) == ReadMinibuildSection(prev, sec, uname);
    var deps := ReadDependencies(sec, uname);
    var rev := Revision(sec);
    var im := Strip(Get(sec, "install_method", ""));
    if !InstallMethodAccepted(sec) { return Err(InvalidInstallMethod); }
    var uri := Strip(Get(sec, "src_uri", ""));
    var d := prev;
    if uri != "" {
      var src := ReadSource(sec);
      if src.Err? { return Err(src.error); }
      d := d.(srcType := Some(src.value.srcType), srcOpts := Some(src.value.srcOpts),
              srcMd5 := Some(src.value.srcMd5), category := Some(src.value.category));
    }
    var url := Strip(Get(sec, "url", ""));
    var description := Strip(Get(sec, "description", ""));
    if im == "" && deps == [] { return Err(EmptyMinibuild); }
    r := Ok(d.(dependencies := deps, rawDependencies := SplitWs(Get(sec, "dependencies", "")), revision := rev,
               installMethod := im, srcUri := uri, url := url, description := description));
  }

  /**
   * A successful `load` takes `raw_dependencies` and `revision` from the
   * `[minibuild]` section as written and recomputes `dependencies` from it.
   */
  lemma LoadedLists(prev: Descriptor, config: Option<ConfigFile>, uname: string, vars: map<string, string>)
    requires LoadInto(prev, config, uname, vars).Ok?
    ensures config.Some? && "minibuild" in config.value
    ensures var sec := config.value["minibuild"];
            var d := LoadInto(prev, config, uname, vars).value;
            && d.rawDependencies == SplitWs(Get(sec, "dependencies", ""))
            && d.revision == Revision(sec)
            && d.dependencies == ComputedDependencies(sec, uname)
  {
    var read := ReadSection(prev, config, uname);
    ParseVarsKeeps(read.value, vars);
  }

  lemma LoadIntoSteps(prev: Descriptor, config: Option<ConfigFile>, uname: string, vars: map<string, string>)
    ensures ReadSection(prev, config, uname).Err? ==> LoadInto(prev, config, uname, vars) == ReadSection(prev, config, uname)
    ensures ReadSection(prev, config, uname).Ok? ==> LoadInto(prev, config, uname, vars) == ParseVarsOf(ReadSection(prev, config, uname).value, vars)
  {
  }

  /** A minibuild: its attributes are assigned by `load` and rewritten by `parse_vars`. */
  class Minibuild {
    /** The instance attributes `load` assigns and `parse_vars` rewrites, as one record. */
    var attrs: Descriptor
    /** Set by the first access to a lazily loaded attribute. */
    var loaded: bool

    constructor (path: string)
      ensures attrs == Fresh(path) && !loaded
    {
      attrs := Fresh(path);
      loaded := false;
    }

    /**
     * `load`: on success the attributes are those of `LoadInto`; on an error
     * the error is the one `LoadInto` names.
     */
    method Load(config: Option<ConfigFile>, uname: string, vars: map<string, string>) returns (err: Option<LoadError>)
      modifies this
      ensures var r := LoadInto(old(attrs), config, uname, vars);
              (r.Ok? ==> err.None? && attrs == r.value) && (r.Err? ==> err == Some(r.error))
      ensures attrs == AttrsAfterLoad(old(attrs), config, uname, vars)
      ensures loaded == old(loaded)
    {
      var prev := attrs;
      var r := ReadFields(prev, config, uname);
      LoadIntoSteps(prev, config, uname, vars);
      if r.Err? {
        return Some(r.error);
      }
      attrs := r.value;
      err := ParseVars(vars);
    }

    /** `parse_vars`: two passes over the string attributes. */
    method ParseVars(vars: map<string, string>) returns (err: Option<LoadError>)
      modifies this
      ensures var r := ParseVarsOf(old(attrs), vars);
              (r.Ok? ==> err.None? && attrs == r.value) && (r.Err? ==> err == Some(r.error) && attrs == old(attrs))
      ensures loaded == old(loaded)
    {
      if ListHasMarker(attrs.dependencies) || ListHasMarker(attrs.rawDependencies) {
        return Some(VariableTypeError);
      }
      var pass := 0;
      while pass < 2
        invariant 0 <= pass <= 2 && loaded == old(loaded)
        invariant attrs == if pass == 0 then old(attrs)
                                else if pass == 1 then ExpandAll(old(attrs), vars)
                                else ExpandAll(ExpandAll(old(attrs), vars), vars)
      {
        attrs := ExpandAllFields(attrs, vars);
        pass := pass + 1;
      }
      err := None;
    }

    /**
     * The first read of a lazily loaded attribute: it marks the object loaded
     * and then runs `load`, so a failed load is not retried on later reads.
     */
    method Access(config: Option<ConfigFile>, uname: string, vars: map<string, string>) returns (err: Option<LoadError>)
      modifies this
      ensures loaded
      ensures old(loaded) ==> err.None? && attrs == old(attrs)
      ensures !old(loaded) ==> var r := LoadInto(old(attrs), config, uname, vars);
              (r.Ok? ==> err.None? && attrs == r.value) && (r.Err? ==> err == Some(r.error))
    {
      err := None;
      if !loaded {
        loaded := true;
        err := Load(config, uname, vars);
      }
    }
  }

  // ---------------------------------------------------------------------------
  // Minilay: a directory of minibuilds, loaded lazily

  /** The names of a listing that survive the filter, in listing order (the full-scan comprehension). */
  function Unfiltered(listing: seq<string>): (r: seq<string>)
    ensures forall k :: 0 <= k < |r| ==> r[k] in listing && !MFilter(r[k])
    ensures forall n :: n in listing && !MFilter(n) ==> n in r
  {
    if listing == [] then []
    else if MFilter(listing[0]) then Unfiltered(listing[1..])
    else [listing[0]] + Unfiltered(listing[1..])
  }

  /**
   * The names `Minilay.load` considers: for one item, the item when it is a
   * file and its joined path passes the filter; for a full scan, the
   * unfiltered listing.
   */
  function Candidates(path: string, files: set<string>, listing: seq<string>, item: Option<string>): seq<string>
  {
    if item.None? then Unfiltered(listing)
    else if item.value in files && !MFilter(PathJoin(path, item.value)) then [item.value]
    else []
  }

  /** Whether the inner loop of `Minilay.load` records `name`. */
  predicate Admitted(items: seq<string>, files: set<string>, name: string)
  {
    name !in items && !MFilter(name) && name in files
  }

  /** `items` after the inner loop of `Minilay.load` has gone over `names`. */
  function Admit(items: seq<string>, names: seq<string>, files: set<string>): seq<string>
    decreases |names|
  {
    if names == [] then items
    else Admit(if Admitted(items, files, names[0]) then items + [names[0]] else items, names[1..], files)
  }

  predicate NoDuplicates(s: seq<string>)
  {
    forall i, j :: 0 <= i < j < |s| ==> s[i] != s[j]
  }

  /**
   * The loop only appends: the old items stay in front, each new name is an
   * unfiltered file from `names`, and no name is recorded twice.
   */
  lemma AdmitAppends(items: seq<string>, names: seq<string>, files: set<string>)
    ensures var r := Admit(items, names, files);
            |items| <= |r| && r[..|items|] == items &&
            (forall k :: |items| <= k < |r| ==> r[k] in names && !MFilter(r[k]) && r[k] in files) &&
            (NoDuplicates(items) ==> NoDuplicates(r))
  {
    AdmitPrefix(items, names, files);
    if NoDuplicates(items) {
      AdmitDistinct(items, names, files);
    }
  }

  lemma {:induction false} AdmitPrefix(items: seq<string>, names: seq<string>, files: set<string>)
    ensures var r := Admit(items, names, files);
            |items| <= |r| && r[..|items|] == items &&
            (forall k :: |items| <= k < |r| ==> r[k] in names && !MFilter(r[k]) && r[k] in files)
    decreases |names|
  {
    if names != [] {
      var next := if Admitted(items, files, names[0]) then items + [names[0]] else items;
      AdmitPrefix(next, names[1..], files);
      var r := Admit(items, names, files);
      assert r[..|next|][..|items|] == r[..|items|];
      forall k | |items| <= k < |r| ensures r[k] in names {
        if k >= |next| { assert r[k] in names[1..]; } else { assert r[k] == names[0]; }
      }
    }
  }

  lemma {:induction false} AdmitDistinct(items: seq<string>, names: seq<string>, files: set<string>)
    requires NoDuplicates(items)
    ensures NoDuplicates(Admit(items, names, files))
    decreases |names|
  {
    if names != [] {
      if Admitted(items, files, names[0]) {
        var next := items + [names[0]];
        forall i, j | 0 <= i < j < |next| ensures next[i] != next[j] {
          if j == |items| { assert next[i] in items; }
        }
        AdmitDistinct(next, names[1..], files);
      } else {
        AdmitDistinct(items, names[1..], files);
      }
    }
  }

  /** Every unfiltered file among `names` ends up recorded. */
  lemma {:induction false} AdmitComplete(items: seq<string>, names: seq<string>, files: set<string>)
    ensures var r := Admit(items, names, files);
            forall n :: (n in items || (n in names && !MFilter(n) && n in files)) ==> n in r
    decreases |names|
  {
    if names != [] {
      var next := if Admitted(items, files, names[0]) then items + [names[0]] else items;
      AdmitComplete(next, names[1..], files);
      var r := Admit(items, names, files);
      forall n | n in items || (n in names && !MFilter(n) && n in files) ensures n in r {
        if n in items || n == names[0] {
          assert n in next;
        } else {
          assert n in names[1..];
        }
      }
    }
  }

  /**
   * A single-item load filters the joined path, not the bare name: under a
   * minilay whose path starts with a dot (a relative `./…` path), no
   * relative item is ever found one at a time, while a full scan still
   * finds every unfiltered file.
   */
  lemma DotPathHidesItems(path: string, files: set<string>, listing: seq<string>, item: string)
    requires IsPrefix(".", path) && !IsPrefix("/", item)
    ensures Candidates(path, files, listing, Some(item)) == []
    ensures forall n :: n in listing && !MFilter(n) ==> n in Candidates(path, files, listing, None)
  {
    var j := PathJoin(path, item);
    assert j[..|path|] == path;
    DotFiltered(j);
  }

  /** A name whose first character is a dot is filtered. */
  lemma DotFiltered(f: string)
    requires IsPrefix(".", f)
    ensures MFilter(f)
  {
    assert Lower(f)[0] == LowerChar(f[0]);
  }

  datatype MinilayError = InvalidMinilayPath

  /**
   * A minilay: the minibuilds of one directory, as a dictionary from name to
   * descriptor path that fills up as names are asked for. The directory is
   * given by `files` (the names that are plain files in it) and `listing`
   * (what `os.listdir` returns).
   */
  class Minilay {
    const path: string
    const files: set<string>
    const listing: seq<string>
    var items: seq<string>
    var loaded: bool
    var entries: map<string, string>

    /** Recorded names are distinct, each is an unfiltered file, and each has its descriptor. */
    ghost predicate Valid()
      reads this
    {
      NoDuplicates(items) &&
      (forall n :: n in entries <==> n in items) &&
      (forall n :: n in entries ==> entries[n] == PathJoin(path, n) && !MFilter(n) && n in files)
    }

    constructor (path: string, files: set<string>, listing: seq<string>)
      ensures Valid() && items == [] && !loaded && entries == map[]
      ensures this.path == path && this.files == files && this.listing == listing
    {
      this.path, this.files, this.listing := path, files, listing;
      items, loaded, entries := [], false, map[];
    }

    /**
     * `load(item)`: nothing happens once a full scan is done or when the
     * item is already recorded; otherwise the candidates are admitted in
     * order and a full scan marks the minilay loaded.
     */
    method Load(item: Option<string>)
      requires Valid()
      modifies this
      ensures Valid()
      ensures old(loaded) || (item.Some? && item.value in old(items)) ==>
                items == old(items) && entries == old(entries) && loaded == old(loaded)
      ensures !(old(loaded) || (item.Some? && item.value in old(items))) ==>
                items == Admit(old(items), Candidates(path, files, listing, item), files) &&
                loaded == (old(loaded) || item.None?)
    {
      if !loaded && (item.None? || item.value !in items) {
        var names: seq<string> := [];
        if item.Some? {
          var mb := PathJoin(path, item.value);
          if item.value in files && !MFilter(mb) {
            names := [item.value];
          }
        } else {
          names := Unfiltered(listing);
          loaded := true;
        }
        assert names == Candidates(path, files, listing, item);
        RecordAll(names);
      }
    }

    /** The inner loop of `load`: each name not yet recorded, not filtered and a file is recorded, in order. */
    method RecordAll(names: seq<string>)
      requires Valid()
      modifies this
      ensures Valid() && items == Admit(old(items), names, files) && loaded == old(loaded)
    {
      var i := 0;
      while i < |names|
        invariant 0 <= i <= |names|
        invariant Valid()
        invariant Admit(items, names[i..], files) == Admit(old(items), names, files)
        invariant loaded == old(loaded)
      {
        var name := names[i];
        ghost var next := if Admitted(items, files, name) then items + [name] else items;
        assert names[i..][0] == name && names[i..][1..] == names[i + 1..];
        assert Admit(items, names[i..], files) == Admit(next, names[i + 1..], files);
        if name !in items && !MFilter(name) {
          if name in files {
            Record(name);
          }
        }
        assert items == next;
        i := i + 1;
      }
    }

    /** One step of the scan: `name` is recorded with the path of its descriptor. */
    method Record(name: string)
      requires Valid() && Admitted(items, files, name)
      modifies this
      ensures Valid() && items == old(items) + [name] && loaded == old(loaded)
    {
      entries := entries[name := PathJoin(path, name)];
      items := items + [name];
    }

    /** `__getitem__`: loads the name when it is not recorded, then looks it up. */
    method GetItem(name: string) returns (r: Result<string, Collections.LookupError>)
      requires Valid()
      modifies this
      ensures Valid()
      ensures name in old(items) ==> items == old(items) && entries == old(entries)
      ensures r == Collections.Lookup(entries, name)
      ensures r.Ok? <==> name in items
    {
      if name !in items {
        Load(Some(name));
      }
      r := Collections.Lookup(entries, name);
    }

    /** `__contains__`: loads like `__getitem__` and answers from the entries. */
    method Contains(name: string) returns (b: bool)
      requires Valid()
      modifies this
      ensures Valid()
      ensures name in old(items) ==> items == old(items) && entries == old(entries)
      ensures b <==> name in entries
    {
      if name !in items {
        Load(Some(name));
      }
      b := name in entries;
    }
  }

  /** `Minilay(path)`: a path that is not a directory raises `InvalidMinilayPath`. */
  method OpenMinilay(path: string, isDir: bool, files: set<string>, listing: seq<string>)
    returns (r: Result<Minilay, MinilayError>)
    ensures isDir <==> r.Ok?
    ensures r.Ok? ==> fresh(r.value) && r.value.Valid() && r.value.items == [] && !r.value.loaded &&
                      r.value.path == path && r.value.files == files && r.value.listing == listing
  {
    if !isDir {
      return Err(InvalidMinilayPath);
    }
    var m := new Minilay(path, files, listing);
    r := Ok(m);
  }

  /** After a full scan every unfiltered file of the listing is a minibuild of the minilay. */
  method ScanAll(m: Minilay) returns (found: seq<string>)
    requires m.Valid()
    modifies m
    ensures m.Valid() && m.loaded
    ensures !old(m.loaded) ==> forall n :: n in m.listing && !MFilter(n) && n in m.files ==> n in m.entries
    ensures found == m.items
  {
    m.Load(None);
    if !old(m.loaded) {
      AdmitComplete(old(m.items), Candidates(m.path, m.files, m.listing, None), m.files);
    }
    found := m.items;
  }
}
