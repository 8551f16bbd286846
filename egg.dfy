/**
 * The version and option bookkeeping of minitage.recipe.egg: the version a
 * patched distribution is built under (`<version>-ZMinitagePatched-<names>`)
 * and the way back to the original version, the version pinned by a
 * requirement, merging two requirements, and the `build_ext` options chosen
 * for a distribution.
 */
module Egg {
  import opened Wrappers
  import opened Text
  import CoreCommon
  import RecipeCommon

  /** `PATCH_MARKER` on POSIX systems. */
  const PatchMarker: string := "ZMinitagePatched"

  lemma MarkerChars()
    ensures |PatchMarker| == 16 && PatchMarker[0] == 'Z'
    ensures forall i :: 0 <= i < |PatchMarker| ==> PatchMarker[i] != '-'
  {
  }

  // -------------------------------------------------------- get_orig_version

  /** `s` without its trailing `-` characters. */
  function RStripDashes(s: string): (r: string)
    ensures IsPrefix(r, s) && (r != [] ==> r[|r| - 1] != '-')
    ensures forall i :: |r| <= i < |s| ==> s[i] == '-'
  {
    if s != [] && s[|s| - 1] == '-' then RStripDashes(s[..|s| - 1]) else s
  }

  /**
   * `get_orig_version(version)`: the match of `-*ZMinitagePatched.*` starts at
   * the dashes right before the first marker and runs to the end.
   */
  function OrigVersion(version: Option<string>): string
  {
    var v := if version.None? then "" else version.value;
    match IndexOf(v, PatchMarker)
    case None => v
    case Some(m) => RStripDashes(v[..m])
  }

  /**
   * The original version is the text before the first marker minus the dashes
   * right before it, and holds no marker; without a marker the version is
   * unchanged, and `None` gives `''`.
   */
  lemma OrigVersionSpec(version: Option<string>)
    ensures version.None? ==> OrigVersion(version) == ""
    ensures version.Some? && !Contains(version.value, PatchMarker) ==> OrigVersion(version) == version.value
    ensures version.Some? ==> IsPrefix(OrigVersion(version), version.value)
    ensures !Contains(OrigVersion(version), PatchMarker)
  {
    var v := if version.None? then "" else version.value;
    var r := OrigVersion(version);
    match IndexOf(v, PatchMarker)
    case None =>
    case Some(m) =>
      NoEarlierMatch(v, PatchMarker, m, r);
  }

  /** A prefix of `v` shorter than the first match of `p` holds no match. */
  lemma NoEarlierMatch(v: string, p: string, m: nat, r: string)
    requires |p| > 0 && m <= |v| && forall j :: 0 <= j < m ==> !IsPrefix(p, v[j..])
    requires IsPrefix(r, v) && |r| <= m
    ensures forall j :: 0 <= j <= |r| ==> !IsPrefix(p, r[j..])
  {
    forall j | 0 <= j <= |r|
      ensures !IsPrefix(p, r[j..])
    {
      if j + |p| <= |r| {
        SliceOfPrefix(r, v, j, |p|);
      }
    }
  }

  lemma SliceOfPrefix<T>(r: seq<T>, v: seq<T>, j: nat, n: nat)
    requires |r| <= |v| && r == v[..|r|] && j + n <= |r|
    ensures r[j..][..n] == v[j..][..n]
  {
  }

  /** Taking the original version twice changes nothing. */
  lemma OrigVersionIdempotent(version: Option<string>)
    ensures OrigVersion(Some(OrigVersion(version))) == OrigVersion(version)
  {
    OrigVersionSpec(version);
    OrigVersionSpec(Some(OrigVersion(version)));
  }

  // ------------------------------------------------- get_requirement_version

  /** A spec tuple `('==', version)`. */
  predicate Pinned(spec: seq<string>)
  {
    |spec| >= 2 && spec[0] == "=="
  }

  /** The version of the last `==` spec. */
  function LastPin(specs: seq<seq<string>>): Option<string>
  {
    if specs == [] then None
    else if Pinned(specs[|specs| - 1]) then Some(specs[|specs| - 1][1])
    else LastPin(specs[..|specs| - 1])
  }

  /** Whether some item of some spec holds the marker. */
  function AnyPatched(specs: seq<seq<string>>): bool
  {
    if specs == [] then false
    else AnyItemPatched(specs[0]) || AnyPatched(specs[1..])
  }

  function AnyItemPatched(spec: seq<string>): bool
  {
    if spec == [] then false else Contains(spec[0], PatchMarker) || AnyItemPatched(spec[1..])
  }

  /** `get_requirement_version(requirement)`: the pinned version and whether the requirement is patched. */
  function RequirementVersion(specs: seq<seq<string>>): (Option<string>, bool)
  {
    (LastPin(specs), AnyPatched(specs))
  }

  /**
   * The version is the one of the last `==` spec, none without such a spec;
   * the requirement is patched iff some spec item contains the marker.
   */
  lemma {:induction false} RequirementVersionSpec(specs: seq<seq<string>>)
    ensures RequirementVersion(specs).0.None? <==> forall k :: 0 <= k < |specs| ==> !Pinned(specs[k])
    ensures RequirementVersion(specs).0.Some? ==>
      exists k :: 0 <= k < |specs| && Pinned(specs[k]) && specs[k][1] == RequirementVersion(specs).0.value
        && forall j :: k < j < |specs| ==> !Pinned(specs[j])
    ensures RequirementVersion(specs).1 <==>
      exists k, i :: 0 <= k < |specs| && 0 <= i < |specs[k]| && Contains(specs[k][i], PatchMarker)
  {
    LastPinSpec(specs);
    AnyPatchedSpec(specs);
  }

  lemma {:induction false} LastPinSpec(specs: seq<seq<string>>)
    ensures LastPin(specs).None? <==> forall k :: 0 <= k < |specs| ==> !Pinned(specs[k])
    ensures LastPin(specs).Some? ==>
      exists k :: 0 <= k < |specs| && Pinned(specs[k]) && specs[k][1] == LastPin(specs).value
        && forall j :: k < j < |specs| ==> !Pinned(specs[j])
  {
    if specs != [] {
      var n := |specs| - 1;
      var p := specs[..n];
      LastPinSpec(p);
      assert forall k :: 0 <= k < n ==> specs[k] == p[k];
      if !Pinned(specs[n]) && LastPin(p).Some? {
        var k :| 0 <= k < |p| && Pinned(p[k]) && p[k][1] == LastPin(p).value
          && forall j :: k < j < |p| ==> !Pinned(p[j]);
        assert specs[k] == p[k];
      }
    }
  }

  lemma {:induction false} AnyItemPatchedSpec(spec: seq<string>)
    ensures AnyItemPatched(spec) <==> exists i :: 0 <= i < |spec| && Contains(spec[i], PatchMarker)
  {
    if spec != [] {
      AnyItemPatchedSpec(spec[1..]);
      if exists i :: 0 <= i < |spec| && Contains(spec[i], PatchMarker) {
        var i :| 0 <= i < |spec| && Contains(spec[i], PatchMarker);
        if i > 0 {
          assert spec[1..][i - 1] == spec[i];
        }
      }
    }
  }

  lemma {:induction false} AnyPatchedSpec(specs: seq<seq<string>>)
    ensures AnyPatched(specs) <==>
      exists k, i :: 0 <= k < |specs| && 0 <= i < |specs[k]| && Contains(specs[k][i], PatchMarker)
  {
    if specs != [] {
      AnyPatchedSpec(specs[1..]);
      AnyItemPatchedSpec(specs[0]);
      if exists k, i :: 0 <= k < |specs| && 0 <= i < |specs[k]| && Contains(specs[k][i], PatchMarker) {
        var k, i :| 0 <= k < |specs| && 0 <= i < |specs[k]| && Contains(specs[k][i], PatchMarker);
        if k > 0 {
          assert specs[1..][k - 1] == specs[k];
        }
      }
      if AnyPatched(specs[1..]) {
        var k, i :| 0 <= k < |specs[1..]| && 0 <= i < |specs[1..][k]| && Contains(specs[1..][k][i], PatchMarker);
        assert specs[k + 1] == specs[1..][k];
      }
    }
  }

  // ------------------------------------------------- merge_extras, merge_specs

  /** The parts of a requirement that merging touches. */
  class Requirement {
    var extras: seq<string>
    var specs: seq<seq<string>>

    constructor(extras: seq<string>, specs: seq<seq<string>>)
      ensures this.extras == extras && this.specs == specs
    {
      this.extras := extras;
      this.specs := specs;
    }

    /**
     * `merge_extras(self, b)`: the extras become the set union of both
     * requirements' extras, each once; the specs are untouched.
     */
    method MergeExtras(b: Requirement)
      modifies this
      ensures forall x :: x in extras <==> x in old(extras) || x in old(b.extras)
      ensures forall i, j :: 0 <= i < j < |extras| ==> extras[i] != extras[j]
      ensures specs == old(specs)
    {
      var all := extras + b.extras;
      var u := RecipeCommon.Uniquify(all);
      RecipeCommon.DedupSpec(all);
      extras := u;
    }

    /** `merge_specs(self, b)`: the specs become the set union of both requirements' specs, each once. */
    method MergeSpecs(b: Requirement)
      modifies this
      ensures forall x :: x in specs <==> x in old(specs) || x in old(b.specs)
      ensures forall i, j :: 0 <= i < j < |specs| ==> specs[i] != specs[j]
      ensures extras == old(extras)
    {
      var all := specs + b.specs;
      var u := RecipeCommon.Uniquify(all);
      RecipeCommon.DedupSpec(all);
      specs := u;
    }
  }

  // ---------------------------------------------------------- forged names

  /** The text the separators are replaced by before the name is split. */
  const Separator: string := "IAMATEXTSEPARATORSTRING"

  /**
   * The separator tuple as written: two pairs of adjacent literals are
   * concatenated by the language, giving `,;` and `^\` instead of four
   * separators. `§` is the two bytes of its UTF-8 encoding.
   */
  const SepsAsWritten: seq<string> :=
    [".", "_", "-", "(", ")", "#", "*", "+", "~", "&", "?", ",;", ":", "!", "\U{C2}\U{A7}", "$", "=", "@", "^\\", "|"]

  /** The separator tuple with every listed character a separator of its own. */
  const Seps: seq<string> :=
    [".", "_", "-", "(", ")", "#", "*", "+", "~", "&", "?", ",", ";", ":", "!", "\U{C2}\U{A7}", "$", "=", "@", "^", "\\", "|"]

  /** Every separator of the tuple is a non-empty string, and none starts with a capital. */
  lemma SepsShape()
    ensures forall k :: 0 <= k < |Seps| ==> |Seps[k]| > 0 && !('A' <= Seps[k][0] <= 'Z')
  {
  }

  /** Every separator of the tuple is a non-empty string. */
  lemma SepsNonEmpty()
    ensures forall k :: 0 <= k < |Seps| ==> |Seps[k]| > 0
  {
  }

  /** Every separator in turn replaced by `Separator`. */
  function ReplaceAll(s: string, seps: seq<string>): string
    requires forall k :: 0 <= k < |seps| ==> |seps[k]| > 0
    decreases |seps|
  {
    if seps == [] then s else ReplaceAll(Replace(s, seps[0], Separator), seps[1..])
  }

  /** `'%s%s' % (part[0].upper(), part[1:])` for parts longer than one character. */
  function Capitalize(part: string): string
  {
    if |part| > 1 then [UpperChar(part[0])] + part[1..] else part
  }

  function CapitalizeAll(parts: seq<string>): (r: seq<string>)
    ensures |r| == |parts| && forall k :: 0 <= k < |r| ==> r[k] == Capitalize(parts[k])
  {
    if parts == [] then [] else [Capitalize(parts[0])] + CapitalizeAll(parts[1..])
  }

  /** The patch file name without `.patch`, `.diff` and directories. */
  function PatchBase(patch: string): string
  {
    BaseName(Replace(Replace(patch, ".patch", ""), ".diff", ""))
  }

  /** The forged name of a patch for a separator tuple. */
  function Forge(patch: string, seps: seq<string>): string
    requires forall k :: 0 <= k < |seps| ==> |seps[k]| > 0
  {
    Join("", CapitalizeAll(Split(ReplaceAll(PatchBase(patch), seps), Separator)))
  }

  /** The forged name the separator tuple as written gives. */
  function ForgedNameAsWritten(patch: string): string
  {
    Forge(patch, SepsAsWritten)
  }

  /** The suffix the separator tuple as written gives. */
  function SuffixAsWritten(patches: seq<string>): string
  {
    SepsAsWrittenNonEmpty();
    SuffixWith(patches, SepsAsWritten)
  }

  /** The forged names the corrected tuple gives. */
  function CorrectedNames(patches: seq<string>): seq<string>
  {
    SepsNonEmpty();
    NamesWith(patches, Seps)
  }

  /** The suffix the corrected tuple gives. */
  function CorrectedSuffix(patches: seq<string>): string
  {
    SepsNonEmpty();
    SuffixWith(patches, Seps)
  }

  /** The forged name of a patch: every separator removed, each longer part capitalized. */
  function ForgedName(patch: string): string
  {
    Forge(patch, Seps)
  }

  /** `Separator` is made of capitals only. */
  lemma SeparatorCapitals()
    ensures forall i :: 0 <= i < |Separator| ==> 'A' <= Separator[i] <= 'Z'
  {
  }

  /** After the replacements, a one-character separator among `seps` is gone. */
  lemma {:induction false} ReplaceAllAvoids(s: string, seps: seq<string>, c: char)
    requires forall k :: 0 <= k < |seps| ==> |seps[k]| > 0
    requires forall i :: 0 <= i < |Separator| ==> Separator[i] != c
    requires [c] in seps || forall i :: 0 <= i < |s| ==> s[i] != c
    ensures forall i :: 0 <= i < |ReplaceAll(s, seps)| ==> ReplaceAll(s, seps)[i] != c
    decreases |seps|
  {
    if seps != [] {
      var s2 := Replace(s, seps[0], Separator);
      if seps[0] == [c] || forall i :: 0 <= i < |s| ==> s[i] != c {
        ReplaceAvoids(s, seps[0], Separator, c);
      } else {
        assert [c] in seps[1..];
      }
      ReplaceAllAvoids(s2, seps[1..], c);
    }
  }

  /** Capitalizing only turns small letters into capitals: a character that is no capital does not appear. */
  lemma CapitalizeAvoids(parts: seq<string>, c: char)
    requires !('A' <= c <= 'Z')
    requires forall k, i :: 0 <= k < |parts| && 0 <= i < |parts[k]| ==> parts[k][i] != c
    ensures forall k :: 0 <= k < |CapitalizeAll(parts)| ==> !Contains(CapitalizeAll(parts)[k], [c])
  {
    forall k | 0 <= k < |parts|
      ensures !Contains(Capitalize(parts[k]), [c])
    {
      CapitalizeAvoidsOne(parts[k], c);
    }
  }

  lemma CapitalizeAvoidsOne(part: string, c: char)
    requires !('A' <= c <= 'Z')
    requires forall i :: 0 <= i < |part| ==> part[i] != c
    ensures !Contains(Capitalize(part), [c])
  {
    var cap := Capitalize(part);
    forall i | 0 <= i < |cap|
      ensures cap[i] != c
    {
      if i > 0 || |part| <= 1 {
        assert cap[i] == part[i];
      }
    }
    NotContainsChar(cap, [c], 0);
  }

  /** A forged name lacks every one-character separator of its tuple. */
  lemma ForgeAvoids(patch: string, seps: seq<string>, c: char)
    requires forall k :: 0 <= k < |seps| ==> |seps[k]| > 0
    requires [c] in seps && !('A' <= c <= 'Z')
    requires forall i :: 0 <= i < |Separator| ==> Separator[i] != c
    ensures forall i :: 0 <= i < |Forge(patch, seps)| ==> Forge(patch, seps)[i] != c
  {
    var r := ReplaceAll(PatchBase(patch), seps);
    ReplaceAllAvoids(PatchBase(patch), seps, c);
    SplitAvoids(r, Separator, c);
    CapitalizeAvoids(Split(r, Separator), c);
    JoinAvoids("", CapitalizeAll(Split(r, Separator)), c);
  }

  /** A forged name holds none of the separator characters, whatever the patch file is called. */
  lemma ForgedNameClean(patch: string, c: char)
    requires [c] in Seps
    ensures forall i :: 0 <= i < |ForgedName(patch)| ==> ForgedName(patch)[i] != c
  {
    var k :| 0 <= k < |Seps| && Seps[k] == [c];
    SepsShape();
    assert Seps[k][0] == c;
    SeparatorCapitals();
    ForgeAvoids(patch, Seps, c);
  }

  /** A one-character name that is no separator goes through the replacements unchanged. */
  lemma {:induction false} ReplaceAllSingle(s: string, seps: seq<string>)
    requires |s| == 1 && s !in seps
    requires forall k :: 0 <= k < |seps| ==> |seps[k]| > 0
    ensures ReplaceAll(s, seps) == s
    decreases |seps|
  {
    if seps != [] {
      if |seps[0]| > 1 {
        NotContainsShort(s, seps[0]);
      } else {
        assert s == [s[0]] && seps[0] == [seps[0][0]];
        NotContainsChar(s, seps[0], 0);
      }
      ReplaceAbsent(s, seps[0], Separator);
      ReplaceAllSingle(s, seps[1..]);
    }
  }

  /**
   * With the tuple as written, a patch named `,`, `;`, `^` or `\` keeps that
   * character in its forged name, and so in the suffix of the version.
   */
  lemma UnsplitSeparatorsSurvive(c: char)
    requires c == ',' || c == ';' || c == '^' || c == '\\'
    ensures ForgedNameAsWritten([c]) == [c]
    ensures SuffixAsWritten([[c]]) == PatchMarker + "-" + [c]
  {
    assert [c] !in SepsAsWritten;
    SepsAsWrittenNonEmpty();
    ForgeKeeps(c, SepsAsWritten);
    SuffixOfOneAsWritten([c]);
  }

  lemma SuffixOfOneAsWritten(patch: string)
    ensures SuffixAsWritten([patch]) == PatchMarker + "-" + ForgedNameAsWritten(patch)
  {
    SepsAsWrittenNonEmpty();
    SuffixOfOne(patch, SepsAsWritten);
  }

  /** The suffix for one patch: the marker, `-` and its forged name. */
  lemma SuffixOfOne(patch: string, seps: seq<string>)
    requires forall k :: 0 <= k < |seps| ==> |seps[k]| > 0
    ensures SuffixWith([patch], seps) == PatchMarker + "-" + Forge(patch, seps)
  {
    assert NamesWith([patch], seps) == NamesWith([], seps) + [Forge(patch, seps)];
    assert DashJoin([Forge(patch, seps)]) == DashJoin([]) + "-" + Forge(patch, seps);
  }

  /** A one-character patch name that is no separator of the tuple is its own forged name. */
  lemma ForgeKeeps(c: char, seps: seq<string>)
    requires forall k :: 0 <= k < |seps| ==> |seps[k]| > 0
    requires [c] !in seps && c != '.' && c != '/'
    ensures Forge([c], seps) == [c]
  {
    OneCharBase(c);
    ReplaceAllSingle([c], seps);
    ForgeUnchanged([c], seps);
  }

  /** A name of at most one character that nothing rewrites is its own forged name. */
  lemma ForgeUnchanged(patch: string, seps: seq<string>)
    requires forall k :: 0 <= k < |seps| ==> |seps[k]| > 0
    requires |patch| <= 1 && PatchBase(patch) == patch && ReplaceAll(patch, seps) == patch
    ensures Forge(patch, seps) == patch
  {
    NotContainsShort(patch, Separator);
    assert Split(patch, Separator) == [patch];
    assert CapitalizeAll([patch]) == [patch];
  }

  lemma OneCharBase(c: char)
    requires c != '.' && c != '/'
    ensures PatchBase([c]) == [c]
  {
    var s := [c];
    NotContainsShort(s, ".patch");
    ReplaceAbsent(s, ".patch", "");
    NotContainsShort(s, ".diff");
    ReplaceAbsent(s, ".diff", "");
    NotContainsChar(s, "/", 0);
    assert Split(s, "/") == [s];
  }

  lemma SepsAsWrittenNonEmpty()
    ensures forall k :: 0 <= k < |SepsAsWritten| ==> |SepsAsWritten[k]| > 0
  {
  }

  // ------------------------------------------------------ _get_dist_patches

  function Get(options: map<string, string>, key: string, default: string): string
  {
    if key in options then options[key] else default
  }

  /** The patches of a distribution, from the four option keys in order. */
  function PatchList(options: map<string, string>, name: string, version: string, uname: string): seq<string>
  {
    var u := Lower(uname);
    SplitWs(Get(options, name + "-patches", ""))
      + CoreCommon.SplitStrip(Get(options, name + "-" + u + "-patches", ""), None)
      + CoreCommon.SplitStrip(Get(options, name + "-" + version + "-patches", ""), None)
      + CoreCommon.SplitStrip(Get(options, name + "--" + version + "-" + u + "-patches", ""), None)
  }

  /** The forged names of the patches for a separator tuple, in order. */
  function NamesWith(patches: seq<string>, seps: seq<string>): (r: seq<string>)
    requires forall k :: 0 <= k < |seps| ==> |seps[k]| > 0
    ensures |r| == |patches|
  {
    if patches == [] then [] else NamesWith(patches[..|patches| - 1], seps) + [Forge(patches[|patches| - 1], seps)]
  }

  /** `-<name>` for each name, in order. */
  function DashJoin(names: seq<string>): string
  {
    if names == [] then "" else DashJoin(names[..|names| - 1]) + "-" + names[|names| - 1]
  }

  /** The suffix for a separator tuple: nothing without patches, else the marker and the forged names. */
  function SuffixWith(patches: seq<string>, seps: seq<string>): string
    requires forall k :: 0 <= k < |seps| ==> |seps[k]| > 0
  {
    if patches == [] then "" else PatchMarker + DashJoin(NamesWith(patches, seps))
  }

  /** The result of `_get_dist_patches`. */
  datatype Patching = Patching(version: string, command: string, options: string, patches: seq<string>, suffix: string)

  /** The version a distribution gets once patched: the suffix joined to the original version with `-`. */
  function PatchedVersion(orig: string, suffix: string): string
  {
    if suffix == "" then orig else if orig != "" then orig + "-" + suffix else suffix
  }

  /**
   * `_get_dist_patches(name, aversion, options)` for a separator tuple, with
   * `pins` the `[versions]` section, `selfOptions` the recipe's own options
   * and `uname` the system name.
   */
  function DistPatchesWith(seps: seq<string>, name: string, aversion: string, pins: map<string, string>,
                           options: map<string, string>, selfOptions: map<string, string>, uname: string): Patching
    requires forall k :: 0 <= k < |seps| ==> |seps[k]| > 0
  {
    var pinned := if aversion == "" then Get(pins, name, "") else aversion;
    var version := OrigVersion(Some(pinned));
    var opts := if options == map[] then selfOptions else options;
    var command := Strip(Get(opts, name + "-patch-binary", "patch"));
    var popts := Join(" ", SplitWs(Get(opts, name + "-patch-options", "-Np0")));
    var patches := PatchList(opts, name, version, uname);
    var suffix := SuffixWith(patches, seps);
    Patching(if pinned == "" then "" else PatchedVersion(version, suffix), command, popts, patches, suffix)
  }

  /** `_get_dist_patches` as written: the patch names are forged with the tuple as written. */
  function DistPatches(name: string, aversion: string, pins: map<string, string>,
                       options: map<string, string>, selfOptions: map<string, string>, uname: string): Patching
  {
    SepsAsWrittenNonEmpty();
    DistPatchesWith(SepsAsWritten, name, aversion, pins, options, selfOptions, uname)
  }

  /** `_get_dist_patches` with every listed character a separator of its own. */
  function CorrectedDistPatches(name: string, aversion: string, pins: map<string, string>,
                                options: map<string, string>, selfOptions: map<string, string>, uname: string): Patching
  {
    SepsNonEmpty();
    DistPatchesWith(Seps, name, aversion, pins, options, selfOptions, uname)
  }

  lemma NoDash(s: string)
    requires forall i :: 0 <= i < |s| ==> s[i] != '-'
    ensures !Contains(s, "-")
  {
    NotContainsChar(s, "-", 0);
  }

  /** The first `-` of `a + "-" + f` is the first of `a`, or the added one when `a` has none. */
  lemma DashAfter(a: string, f: string, i: nat)
    requires i <= |a|
    requires forall j :: 0 <= j < i ==> !IsPrefix("-", a[j..])
    requires i == |a| || IsPrefix("-", a[i..])
    ensures IndexOf(a + "-" + f, "-") == Some(i)
  {
    var s := a + "-" + f;
    forall j | 0 <= j < i
      ensures !IsPrefix("-", s[j..])
    {
      assert !IsPrefix("-", a[j..]);
      assert s[j..][..1] == a[j..][..1];
    }
    assert s[i] == '-';
    RecipeCommon.IndexOfFirst(s, "-", i);
  }

  /** Splitting `a-f` on `-`, with no `-` in `f`, adds `f` after the pieces of `a`. */
  lemma {:induction false} SplitAppend(a: string, f: string)
    requires forall i :: 0 <= i < |f| ==> f[i] != '-'
    ensures Split(a + "-" + f, "-") == Split(a, "-") + [f]
    decreases |a|
  {
    match IndexOf(a, "-")
    case None =>
      SplitAppendLast(a, f);
    case Some(i) =>
      SplitAppend(a[i + 1..], f);
      SplitAppendStep(a, f, i);
  }

  /** One step of `SplitAppend`: the piece before the first `-` of `a` comes first on both sides. */
  lemma SplitAppendStep(a: string, f: string, i: nat)
    requires IndexOf(a, "-") == Some(i)
    requires Split(a[i + 1..] + "-" + f, "-") == Split(a[i + 1..], "-") + [f]
    ensures Split(a + "-" + f, "-") == Split(a, "-") + [f]
  {
    SplitAtDash(a, f, i);
    SplitAt(a, i);
    ConsAssoc(a[..i], Split(a[i + 1..], "-"), f);
  }

  /** The first `-` of `a` is the first of `a-f`. */
  lemma SplitAtDash(a: string, f: string, i: nat)
    requires IndexOf(a, "-") == Some(i)
    ensures Split(a + "-" + f, "-") == [a[..i]] + Split(a[i + 1..] + "-" + f, "-")
  {
    var s := a + "-" + f;
    DashAfter(a, f, i);
    SplitAt(s, i);
    DashSlices(a, f, i);
  }

  lemma DashSlices(a: string, f: string, i: nat)
    requires i < |a|
    ensures (a + "-" + f)[i + 1..] == a[i + 1..] + "-" + f && (a + "-" + f)[..i] == a[..i]
  {
  }

  lemma ConsAssoc<T>(x: T, l: seq<T>, y: T)
    ensures [x] + (l + [y]) == [x] + l + [y]
  {
  }

  /** Splitting `a-f` on `-`, with no `-` in `a` or `f`, gives `a` and `f`. */
  lemma SplitAppendLast(a: string, f: string)
    requires IndexOf(a, "-") == None
    requires forall i :: 0 <= i < |f| ==> f[i] != '-'
    ensures Split(a + "-" + f, "-") == [a, f]
  {
    var s := a + "-" + f;
    DashAfter(a, f, |a|);
    SplitAt(s, |a|);
    assert s[..|a|] == a && s[|a| + 1..] == f;
    NoDash(f);
    SplitNone(f);
  }

  lemma SplitAt(s: string, i: nat)
    requires IndexOf(s, "-") == Some(i)
    ensures Split(s, "-") == [s[..i]] + Split(s[i + 1..], "-")
  {
  }

  lemma SplitNone(s: string)
    requires !Contains(s, "-")
    ensures Split(s, "-") == [s]
  {
  }

  /** Splitting `head-n1-n2…` on `-` gives back the head and the names when none holds a `-`. */
  lemma {:induction false} DashJoinSplits(head: string, names: seq<string>)
    requires forall i :: 0 <= i < |head| ==> head[i] != '-'
    requires forall k, i :: 0 <= k < |names| && 0 <= i < |names[k]| ==> names[k][i] != '-'
    ensures Split(head + DashJoin(names), "-") == [head] + names
  {
    if names == [] {
      NoDash(head);
      assert head + DashJoin(names) == head;
    } else {
      var n := |names| - 1;
      var init := names[..n];
      DashJoinSplits(head, init);
      SplitAppend(head + DashJoin(init), names[n]);
      Assoc(head, DashJoin(init), "-", names[n]);
      ConsSnoc(head, names);
    }
  }

  lemma Assoc<T>(a: seq<T>, b: seq<T>, c: seq<T>, d: seq<T>)
    ensures a + (b + c + d) == a + b + c + d
  {
  }

  lemma ConsSnoc<T>(x: T, l: seq<T>)
    requires l != []
    ensures [x] + l == [x] + l[..|l| - 1] + [l[|l| - 1]]
  {
  }

  /** No forged name holds a one-character separator of its tuple. */
  lemma {:induction false} NamesClean(patches: seq<string>, seps: seq<string>, c: char)
    requires forall k :: 0 <= k < |seps| ==> |seps[k]| > 0
    requires [c] in seps && !('A' <= c <= 'Z')
    requires forall i :: 0 <= i < |Separator| ==> Separator[i] != c
    ensures forall k, i :: 0 <= k < |patches| && 0 <= i < |NamesWith(patches, seps)[k]| ==> NamesWith(patches, seps)[k][i] != c
  {
    if patches != [] {
      var n := |patches| - 1;
      NamesClean(patches[..n], seps, c);
      ForgeAvoids(patches[n], seps, c);
    }
  }

  /**
   * The suffix is the marker followed by one `-`-prefixed forged name per
   * patch: splitting it on `-` gives back the marker and the names.
   */
  lemma ForgedSplits(patches: seq<string>, seps: seq<string>)
    requires forall k :: 0 <= k < |seps| ==> |seps[k]| > 0
    requires patches != [] && "-" in seps
    ensures Split(SuffixWith(patches, seps), "-") == [PatchMarker] + NamesWith(patches, seps)
  {
    MarkerChars();
    SeparatorCapitals();
    NamesClean(patches, seps, '-');
    DashJoinSplits(PatchMarker, NamesWith(patches, seps));
  }

  /** No marker starts inside `orig-`: it would lie in `orig` or cover the dash. */
  lemma MarkerNotBefore(orig: string, suffix: string, j: nat)
    requires !Contains(orig, PatchMarker) && orig != [] && j <= |orig|
    ensures !IsPrefix(PatchMarker, (orig + "-" + suffix)[j..])
  {
    var s := orig + "-" + suffix;
    MarkerChars();
    if j + 16 <= |orig| {
      if IsPrefix(PatchMarker, s[j..]) {
        assert orig[j..j + 16] == s[j..j + 16];
        ContainsAt(orig, PatchMarker, j);
      }
    } else {
      var d := |orig| - j;
      assert s[j..][d] == '-';
      assert |s[j..]| < 16 || s[j..][..16][d] == '-';
    }
  }

  /** A suffix starting with the marker, added after `-` (or alone), is cut off again. */
  lemma OrigOfPatched(orig: string, suffix: string)
    requires !Contains(orig, PatchMarker) && (orig != [] ==> orig[|orig| - 1] != '-')
    requires IsPrefix(PatchMarker, suffix)
    ensures OrigVersion(Some(if orig != "" then orig + "-" + suffix else suffix)) == orig
  {
    var s := if orig != "" then orig + "-" + suffix else suffix;
    var at := if orig != "" then |orig| + 1 else 0;
    assert s[at..] == suffix;
    forall j | 0 <= j < at
      ensures !IsPrefix(PatchMarker, s[j..])
    {
      MarkerNotBefore(orig, suffix, j);
    }
    RecipeCommon.IndexOfFirst(s, PatchMarker, at);
    if orig != "" {
      assert s[..at] == orig + "-";
      assert (orig + "-")[..|orig|] == orig;
    }
  }

  /**
   * A patched version reads back: the original version of `orig-suffix` (or of
   * the bare suffix when there is no version) is `orig`, for a version without
   * the marker and without trailing dash.
   */
  lemma PatchedVersionRoundTrip(orig: string, patches: seq<string>, seps: seq<string>)
    requires forall k :: 0 <= k < |seps| ==> |seps[k]| > 0
    requires !Contains(orig, PatchMarker) && (orig != [] ==> orig[|orig| - 1] != '-')
    ensures OrigVersion(Some(PatchedVersion(orig, SuffixWith(patches, seps)))) == orig
  {
    if patches == [] {
      OrigVersionSpec(Some(orig));
    } else {
      var suffix := SuffixWith(patches, seps);
      assert suffix == PatchMarker + DashJoin(NamesWith(patches, seps));
      assert suffix[..|PatchMarker|] == PatchMarker;
      OrigOfPatched(orig, suffix);
    }
  }

  /** Without patches the version stays the original one, and without any version it is `''`. */
  lemma DistPatchesVersion(seps: seq<string>, name: string, aversion: string, pins: map<string, string>,
                           options: map<string, string>, selfOptions: map<string, string>, uname: string)
    requires forall k :: 0 <= k < |seps| ==> |seps[k]| > 0
    ensures var p := DistPatchesWith(seps, name, aversion, pins, options, selfOptions, uname);
      && (p.patches == [] ==> p.suffix == "" && p.version == OrigVersion(Some(if aversion == "" then Get(pins, name, "") else aversion)))
      && (aversion == "" && name !in pins ==> p.version == "")
      && (p.patches != [] ==> IsPrefix(PatchMarker, p.suffix))
  {
    var pinned := if aversion == "" then Get(pins, name, "") else aversion;
    if pinned == "" {
      OrigVersionSpec(Some(pinned));
    }
  }

  /**
   * With the corrected tuple, the suffix splits on `-` into the marker and
   * one forged name per patch, and no forged name holds a separator character.
   */
  lemma CorrectedSuffixClean(name: string, aversion: string, pins: map<string, string>,
                             options: map<string, string>, selfOptions: map<string, string>, uname: string, c: char)
    requires [c] in Seps
    ensures var p := CorrectedDistPatches(name, aversion, pins, options, selfOptions, uname);
      var names := CorrectedNames(p.patches);
      && (p.patches != [] ==> Split(p.suffix, "-") == [PatchMarker] + names)
      && (forall k, i :: 0 <= k < |names| && 0 <= i < |names[k]| ==> names[k][i] != c)
  {
    var p := CorrectedDistPatches(name, aversion, pins, options, selfOptions, uname);
    CorrectedSuffixOf(name, aversion, pins, options, selfOptions, uname);
    CorrectedNamesClean(p.patches, c);
  }

  lemma CorrectedSuffixOf(name: string, aversion: string, pins: map<string, string>,
                          options: map<string, string>, selfOptions: map<string, string>, uname: string)
    ensures var p := CorrectedDistPatches(name, aversion, pins, options, selfOptions, uname);
      p.suffix == CorrectedSuffix(p.patches)
  {
    SepsNonEmpty();
    DistPatchesSuffix(Seps, name, aversion, pins, options, selfOptions, uname);
  }

  lemma CorrectedNamesClean(patches: seq<string>, c: char)
    requires [c] in Seps
    ensures var names := CorrectedNames(patches);
      && (patches != [] ==> Split(CorrectedSuffix(patches), "-") == [PatchMarker] + names)
      && (forall k, i :: 0 <= k < |names| && 0 <= i < |names[k]| ==> names[k][i] != c)
  {
    SepsFacts(c);
    SuffixClean(patches, Seps, c);
  }

  lemma SepsFacts(c: char)
    requires [c] in Seps
    ensures (forall k :: 0 <= k < |Seps| ==> |Seps[k]| > 0) && !('A' <= c <= 'Z') && "-" in Seps
  {
    var j :| 0 <= j < |Seps| && Seps[j] == [c];
    SepsShape();
    assert Seps[j][0] == c;
    assert Seps[2] == "-";
  }

  /** The suffix `_get_dist_patches` returns is the one of its patch list. */
  lemma DistPatchesSuffix(seps: seq<string>, name: string, aversion: string, pins: map<string, string>,
                          options: map<string, string>, selfOptions: map<string, string>, uname: string)
    requires forall k :: 0 <= k < |seps| ==> |seps[k]| > 0
    ensures var p := DistPatchesWith(seps, name, aversion, pins, options, selfOptions, uname);
      p.suffix == SuffixWith(p.patches, seps)
  {
  }

  /** For a tuple holding `-` and the one-character separator `c`, the suffix splits back and no name holds `c`. */
  lemma SuffixClean(patches: seq<string>, seps: seq<string>, c: char)
    requires forall k :: 0 <= k < |seps| ==> |seps[k]| > 0
    requires [c] in seps && !('A' <= c <= 'Z') && "-" in seps
    ensures var names := NamesWith(patches, seps);
      && (patches != [] ==> Split(SuffixWith(patches, seps), "-") == [PatchMarker] + names)
      && (forall k, i :: 0 <= k < |names| && 0 <= i < |names[k]| ==> names[k][i] != c)
  {
    SeparatorCapitals();
    NamesClean(patches, seps, c);
    if patches != [] {
      ForgedSplits(patches, seps);
    }
  }

  /** The forged name of one patch, by the replacement and capitalization loops. */
  method ForgeName(patch: string, seps: seq<string>) returns (forged: string)
    requires forall k :: 0 <= k < |seps| ==> |seps[k]| > 0
    ensures forged == Forge(patch, seps)
  {
    var name := ReplaceSeps(PatchBase(patch), seps);
    forged := Capitalized(Split(name, Separator));
  }

  /** The replacement loop: each separator in turn becomes `Separator`. */
  method ReplaceSeps(name: string, seps: seq<string>) returns (r: string)
    requires forall k :: 0 <= k < |seps| ==> |seps[k]| > 0
    ensures r == ReplaceAll(name, seps)
  {
    r := name;
    for k := 0 to |seps|
      invariant ReplaceAll(r, seps[k..]) == ReplaceAll(name, seps)
    {
      assert seps[k..][0] == seps[k] && seps[k..][1..] == seps[k + 1..];
      r := Replace(r, seps[k], Separator);
    }
    assert seps[|seps|..] == [];
  }

  /** The capitalization loop: the parts, each capitalized, one after the other. */
  method Capitalized(parts: seq<string>) returns (forged: string)
    ensures forged == Join("", CapitalizeAll(parts))
  {
    forged := "";
    for k := 0 to |parts|
      invariant forged == Join("", CapitalizeAll(parts[..k]))
    {
      JoinSnoc(CapitalizeAll(parts[..k]), Capitalize(parts[k]));
      CapitalizeSnoc(parts, k);
      forged := forged + Capitalize(parts[k]);
    }
    assert parts[..|parts|] == parts;
  }

  lemma CapitalizeSnoc(parts: seq<string>, k: nat)
    requires k < |parts|
    ensures CapitalizeAll(parts[..k + 1]) == CapitalizeAll(parts[..k]) + [Capitalize(parts[k])]
  {
  }

  /** Concatenation grows by the next piece. */
  lemma {:induction false} JoinSnoc(parts: seq<string>, x: string)
    ensures Join("", parts + [x]) == Join("", parts) + x
  {
    if parts != [] {
      JoinSnoc(parts[1..], x);
      assert (parts + [x])[1..] == parts[1..] + [x];
      if |parts| == 1 {
        assert parts + [x] == [parts[0], x];
      }
    }
  }

  lemma NamesSnoc(patches: seq<string>, seps: seq<string>, i: nat)
    requires forall k :: 0 <= k < |seps| ==> |seps[k]| > 0
    requires i < |patches|
    ensures NamesWith(patches[..i + 1], seps) == NamesWith(patches[..i], seps) + [Forge(patches[i], seps)]
  {
    assert patches[..i + 1][..i] == patches[..i];
  }

  lemma DashJoinSnoc(names: seq<string>, f: string)
    ensures DashJoin(names + [f]) == DashJoin(names) + "-" + f
  {
    assert (names + [f])[..|names|] == names;
  }

  /** Build the suffix: the marker, then `-<forged name>` per patch. */
  method ForgeSuffix(patches: seq<string>, seps: seq<string>) returns (suffix: string)
    requires forall k :: 0 <= k < |seps| ==> |seps[k]| > 0
    ensures suffix == SuffixWith(patches, seps)
  {
    if |patches| == 0 {
      return "";
    }
    suffix := PatchMarker;
    for i := 0 to |patches|
      invariant suffix == PatchMarker + DashJoin(NamesWith(patches[..i], seps))
    {
      var f := ForgeName(patches[i], seps);
      NamesSnoc(patches, seps, i);
      DashJoinSnoc(NamesWith(patches[..i], seps), f);
      Assoc(PatchMarker, DashJoin(NamesWith(patches[..i], seps)), "-", f);
      suffix := suffix + "-" + f;
    }
    assert patches[..|patches|] == patches;
  }

  /** `_get_dist_patches`, step by step, with the separator tuple as written. */
  method GetDistPatches(name: string, aversion: string, pins: map<string, string>,
                        options: map<string, string>, selfOptions: map<string, string>, uname: string)
    returns (p: Patching)
    ensures p == DistPatches(name, aversion, pins, options, selfOptions, uname)
  {
    var av := aversion;
    var version := av;
    if version == "" {
      version := Get(pins, name, "");
      if version != "" {
        av := version;
      }
    }
    version := OrigVersion(Some(version));
    var opts := options;
    if opts == map[] {
      opts := selfOptions;
    }
    var command := Strip(Get(opts, name + "-patch-binary", "patch"));
    var popts := Join(" ", SplitWs(Get(opts, name + "-patch-options", "-Np0")));
    var patches := PatchList(opts, name, version, uname);
    SepsAsWrittenNonEmpty();
    var suffix := ForgeSuffix(patches, SepsAsWritten);
    if |patches| > 0 {
      version := PatchedVersion(version, suffix);
    }
    if av == "" {
      version := "";
    }
    p := Patching(version, command, popts, patches, suffix);
  }

  // -------------------------------------------------- get_bdist_ext_options

  /** The `build_ext` options a `<dist>-<option>` key may set. */
  const ExtOptions: seq<string> :=
    ["define", "undef", "libraries", "link-objects", "debug", "force", "compiler", "swig-cpp", "swig-opts"]

  /** The first pass: each known option present as `<dist>-<option>` overrides. */
  function KnownPass(m: map<string, string>, dist: string, options: map<string, string>, opts: seq<string>): map<string, string>
    decreases |opts|
  {
    if opts == [] then m
    else
      var key := dist + "-" + opts[0];
      KnownPass(if key in options then m[opts[0] := options[key]] else m, dist, options, opts[1..])
  }

  /** The option a `<dist>-bdistext-<option>` key sets. */
  function ExtName(prefix: string, key: string): string
    requires |prefix| > 0
  {
    Replace(key, prefix, "")
  }

  /** The second pass over the option keys, in the options' order. */
  function ExtPass(m: map<string, string>, prefix: string, options: map<string, string>, keys: seq<string>): map<string, string>
    requires |prefix| > 0
    requires forall k :: 0 <= k < |keys| ==> keys[k] in options
    decreases |keys|
  {
    if keys == [] then m
    else
      var m2 := if IsPrefix(prefix, keys[0]) then m[ExtName(prefix, keys[0]) := options[keys[0]]] else m;
      ExtPass(m2, prefix, options, keys[1..])
  }

  /** `get_bdist_ext_options(distname)`, with `order` the iteration order of the options. */
  function BdistExtOptions(dist: string, buildExt: map<string, string>, options: map<string, string>, order: seq<string>): map<string, string>
    requires forall k :: 0 <= k < |order| ==> order[k] in options
  {
    ExtPass(KnownPass(buildExt, dist, options, ExtOptions), dist + "-bdistext-", options, order)
  }

  /** A known option takes its `<dist>-<option>` value when given, other entries are kept. */
  lemma {:induction false} KnownPassSpec(m: map<string, string>, dist: string, options: map<string, string>, opts: seq<string>, k: string)
    ensures var r := KnownPass(m, dist, options, opts);
      && (k in r <==> k in m || (k in opts && dist + "-" + k in options))
      && (k in opts && dist + "-" + k in options ==> r[k] == options[dist + "-" + k])
      && (!(k in opts && dist + "-" + k in options) && k in m ==> r[k] == m[k])
    decreases |opts|
  {
    if opts != [] {
      var key := dist + "-" + opts[0];
      var m2 := if key in options then m[opts[0] := options[key]] else m;
      KnownPassSpec(m2, dist, options, opts[1..], k);
    }
  }

  /** The option keys of the second pass that set `k`. */
  predicate Sets(prefix: string, key: string, k: string)
    requires |prefix| > 0
  {
    IsPrefix(prefix, key) && ExtName(prefix, key) == k
  }

  /**
   * An option set by some `<dist>-bdistext-` key takes the value of the last
   * such key in the options' order; any other entry is kept.
   */
  lemma {:induction false} ExtPassSpec(m: map<string, string>, prefix: string, options: map<string, string>, keys: seq<string>, k: string)
    requires |prefix| > 0
    requires forall j :: 0 <= j < |keys| ==> keys[j] in options
    ensures var r := ExtPass(m, prefix, options, keys);
      && (k in r <==> k in m || exists j :: 0 <= j < |keys| && Sets(prefix, keys[j], k))
      && (forall j :: 0 <= j < |keys| && Sets(prefix, keys[j], k) && (forall j2 :: j < j2 < |keys| ==> !Sets(prefix, keys[j2], k)) ==>
            r[k] == options[keys[j]])
      && ((forall j :: 0 <= j < |keys| ==> !Sets(prefix, keys[j], k)) && k in m ==> r[k] == m[k])
    decreases |keys|
  {
    if keys != [] {
      var m2 := if IsPrefix(prefix, keys[0]) then m[ExtName(prefix, keys[0]) := options[keys[0]]] else m;
      ExtPassSpec(m2, prefix, options, keys[1..], k);
      forall j | 0 < j < |keys|
        ensures keys[j] == keys[1..][j - 1]
      {
      }
    }
  }

  /** The loop of known options. */
  method KnownLoop(m: map<string, string>, dist: string, options: map<string, string>) returns (r: map<string, string>)
    ensures r == KnownPass(m, dist, options, ExtOptions)
  {
    r := m;
    for i := 0 to |ExtOptions|
      invariant KnownPass(r, dist, options, ExtOptions[i..]) == KnownPass(m, dist, options, ExtOptions)
    {
      assert ExtOptions[i..][1..] == ExtOptions[i + 1..];
      var key := dist + "-" + ExtOptions[i];
      if key in options {
        r := r[ExtOptions[i] := options[key]];
      }
    }
    assert ExtOptions[|ExtOptions|..] == [];
  }

  /** `get_bdist_ext_options(distname)`, by its two loops. */
  method GetBdistExtOptions(dist: string, buildExt: map<string, string>, options: map<string, string>, order: seq<string>)
    returns (r: map<string, string>)
    requires forall k :: 0 <= k < |order| ==> order[k] in options
    ensures r == BdistExtOptions(dist, buildExt, options, order)
  {
    r := KnownLoop(buildExt, dist, options);
    var prefix := dist + "-bdistext-";
    ghost var start := r;
    for i := 0 to |order|
      invariant ExtPass(r, prefix, options, order[i..]) == ExtPass(start, prefix, options, order)
    {
      assert order[i..][1..] == order[i + 1..];
      if IsPrefix(prefix, order[i]) {
        r := r[ExtName(prefix, order[i]) := options[order[i]]];
      }
    }
    assert order[|order|..] == [];
  }

  /** A `<dist>-bdistext-<option>` key sets the option; the last such key in the options' order wins. */
  lemma BdistExtWins(dist: string, buildExt: map<string, string>, options: map<string, string>, order: seq<string>, k: string, j: nat)
    requires forall j :: 0 <= j < |order| ==> order[j] in options
    requires j < |order| && Sets(dist + "-bdistext-", order[j], k)
    requires forall j2 :: j < j2 < |order| ==> !Sets(dist + "-bdistext-", order[j2], k)
    ensures k in BdistExtOptions(dist, buildExt, options, order)
    ensures BdistExtOptions(dist, buildExt, options, order)[k] == options[order[j]]
  {
    ExtPassSpec(KnownPass(buildExt, dist, options, ExtOptions), dist + "-bdistext-", options, order, k);
  }

  /** Without a `bdistext` key for it, a known option takes its `<dist>-<option>` value. */
  lemma BdistKnownWins(dist: string, buildExt: map<string, string>, options: map<string, string>, order: seq<string>, k: string)
    requires forall j :: 0 <= j < |order| ==> order[j] in options
    requires forall j :: 0 <= j < |order| ==> !Sets(dist + "-bdistext-", order[j], k)
    requires k in ExtOptions && dist + "-" + k in options
    ensures k in BdistExtOptions(dist, buildExt, options, order)
    ensures BdistExtOptions(dist, buildExt, options, order)[k] == options[dist + "-" + k]
  {
    KnownPassSpec(buildExt, dist, options, ExtOptions, k);
    ExtPassSpec(KnownPass(buildExt, dist, options, ExtOptions), dist + "-bdistext-", options, order, k);
  }

  /** An option no key of the distribution sets keeps the recipe-wide value, or stays unset. */
  lemma BdistDefault(dist: string, buildExt: map<string, string>, options: map<string, string>, order: seq<string>, k: string)
    requires forall j :: 0 <= j < |order| ==> order[j] in options
    requires forall j :: 0 <= j < |order| ==> !Sets(dist + "-bdistext-", order[j], k)
    requires !(k in ExtOptions && dist + "-" + k in options)
    ensures k in BdistExtOptions(dist, buildExt, options, order) <==> k in buildExt
    ensures k in buildExt ==> BdistExtOptions(dist, buildExt, options, order)[k] == buildExt[k]
  {
    KnownPassSpec(buildExt, dist, options, ExtOptions, k);
    ExtPassSpec(KnownPass(buildExt, dist, options, ExtOptions), dist + "-bdistext-", options, order, k);
  }
}
