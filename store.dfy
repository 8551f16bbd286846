/**
 * The install-state store of minitage.core.core.Minimerge: the marker files
 * and the recorded minibuild kept in each package's `.minitage` history
 * directory, the `is_package_*` decisions read from them, and the marker
 * bookkeeping of `_do_action`.
 */
module Store {
  import opened Wrappers
  import opened Text
  import opened Objects
  import opened Files
  import Pythons

  /**
   * The history directories of all install paths: the marker files, keyed by
   * (install path, marker name) and holding their text, and the revision of
   * the minibuild recorded under each install path.
   */
  datatype History = History(marks: map<(string, string), string>, snapshots: map<string, int>)

  /** The attributes of a Minimerge that the store and its decisions read. */
  datatype Engine = Engine(prefix: string, action: string, update: bool, pyvers: map<string, seq<string>>, history: History)

  predicate IsMeta(d: Descriptor)
  {
    IsPrefix("meta-", d.name)
  }

  /**
   * `get_install_path`: `<prefix>/<category>/<name>`. A `meta-` package gets
   * no path: the source makes up a random path that does not exist.
   */
  function InstallPath(prefix: string, d: Descriptor): (r: Option<string>)
    ensures r.Some? <==> !IsMeta(d) && d.category.Some?
    ensures r.Some? ==> IsSuffix(d.name, r.value)
  {
    if IsMeta(d) || d.category.None? then None
    else Some(PathJoin(PathJoin(prefix, d.category.value), d.name))
  }

  /**
   * A package whose install path `get_install_path` cannot join: it is not
   * `meta-` and its minibuild has no category, so `os.path.join` meets `None`
   * and raises `AttributeError`.
   */
  predicate Uncategorised(d: Descriptor)
  {
    !IsMeta(d) && d.category.None?
  }

  // ---------------------------------------------------------------- markers

  /** `is_package_marked`: the marker file exists in the package's history. */
  predicate Marked(e: Engine, d: Descriptor, marker: string)
  {
    var ip := InstallPath(e.prefix, d);
    ip.Some? && (ip.value, marker) in e.history.marks
  }

  /** `get_package_mark`: the marker's text, or `''` when there is no such marker. */
  function GetMark(e: Engine, d: Descriptor, marker: string): (r: string)
    ensures !Marked(e, d, marker) ==> r == ""
  {
    if Marked(e, d, marker) then e.history.marks[(InstallPath(e.prefix, d).value, marker)] else ""
  }

  /** The history after writing `text` into a marker file; a package without path keeps nothing. */
  function WithMark(h: History, ip: Option<string>, marker: string, text: string): History
  {
    if ip.None? then h else h.(marks := h.marks[(ip.value, marker) := text])
  }

  /** The history after `record_minibuild` copied a minibuild of the given revision. */
  function Recorded(h: History, ip: Option<string>, revision: int): History
  {
    if ip.None? then h else h.(snapshots := h.snapshots[ip.value := revision])
  }

  /** The history after the install directory, with its history, was removed. */
  function Cleared(h: History, ip: Option<string>): (r: History)
    ensures ip.Some? ==> forall k :: k in r.marks ==> k.0 != ip.value
    ensures ip.Some? ==> ip.value !in r.snapshots
  {
    if ip.None? then h
    else History(map k | k in h.marks && k.0 != ip.value :: h.marks[k], h.snapshots - {ip.value})
  }

  /** Setting a marker makes it marked, with the text written, for a package that has a path. */
  lemma MarkRoundTrip(e: Engine, d: Descriptor, marker: string, text: string)
    requires !IsMeta(d) && d.category.Some?
    ensures var e1 := e.(history := WithMark(e.history, InstallPath(e.prefix, d), marker, text));
      Marked(e1, d, marker) && GetMark(e1, d, marker) == text
  {
  }

  /** Setting a marker leaves every other marker of every package as it was. */
  lemma MarkLeavesOthers(e: Engine, d: Descriptor, marker: string, text: string, d2: Descriptor, other: string)
    requires InstallPath(e.prefix, d2) != InstallPath(e.prefix, d) || other != marker
    ensures var e1 := e.(history := WithMark(e.history, InstallPath(e.prefix, d), marker, text));
      Marked(e1, d2, other) == Marked(e, d2, other) && GetMark(e1, d2, other) == GetMark(e, d2, other)
  {
  }

  // ---------------------------------------------------- installation state

  /** The python versions selected for a package (`self.pyvers`, empty when absent). */
  function EggVersions(e: Engine, d: Descriptor): seq<string>
  {
    if d.name in e.pyvers then e.pyvers[d.name] else []
  }

  function InstallMarker(v: string): string
  {
    "install-" + v
  }

  /**
   * `is_installed`: an `eggs` package is installed when it has selected
   * versions and an `install-<v>` marker for each; any other package when it
   * has the `install` marker.
   */
  predicate Installed(e: Engine, d: Descriptor)
  {
    if Pythons.IsEgg(d) then
      var vs := EggVersions(e, d);
      |vs| > 0 && forall v :: v in vs ==> Marked(e, d, InstallMarker(v))
    else Marked(e, d, "install")
  }

  /**
   * `get_installed_revision` through `get_installed_minibuild`: for an
   * installed package, the revision of the recorded minibuild, or the
   * package's own revision when none was recorded; otherwise `None`.
   */
  function InstalledRevision(e: Engine, d: Descriptor): (r: Option<int>)
    ensures r.Some? <==> Installed(e, d)
  {
    if !Installed(e, d) then None
    else
      var ip := InstallPath(e.prefix, d);
      if ip.Some? && ip.value in e.history.snapshots then Some(e.history.snapshots[ip.value])
      else Some(d.revision)
  }

  /** `has_new_revision`. */
  predicate HasNewRevision(e: Engine, d: Descriptor)
  {
    var old_ := InstalledRevision(e, d);
    old_.Some? && d.revision > old_.value
  }

  /**
   * A package has a new revision exactly when it is installed and its
   * recorded minibuild has a smaller revision; without a recorded minibuild
   * the package is compared with itself and never has one.
   */
  lemma NewRevisionMeansOlderSnapshot(e: Engine, d: Descriptor)
    ensures var ip := InstallPath(e.prefix, d);
      HasNewRevision(e, d) <==>
        Installed(e, d) && ip.Some? && ip.value in e.history.snapshots && e.history.snapshots[ip.value] < d.revision
  {
  }

  // ------------------------------------------------------------ decisions

  predicate InstallLike(action: string)
  {
    action == "install" || action == "reinstall"
  }

  /** `is_package_src_to_be_updated`. */
  predicate SrcToBeUpdated(e: Engine, d: Descriptor)
  {
    e.update || HasNewRevision(e, d) || !Installed(e, d)
  }

  /** `is_package_to_be_installed`. */
  predicate ToBeInstalled(e: Engine, d: Descriptor)
  {
    !Installed(e, d) && InstallLike(e.action)
  }

  /** `is_package_to_be_upgraded`. */
  predicate ToBeUpgraded(e: Engine, d: Descriptor)
  {
    Installed(e, d) && HasNewRevision(e, d) && InstallLike(e.action)
  }

  /** `is_package_to_be_reinstalled`. */
  predicate ToBeReinstalled(e: Engine, d: Descriptor)
  {
    (e.action == "reinstall" && Installed(e, d)) || ToBeUpgraded(e, d)
  }

  /** `is_package_to_be_updated`. */
  predicate ToBeUpdated(e: Engine, d: Descriptor)
  {
    Installed(e, d) && (e.update || (InstallLike(e.action) && HasNewRevision(e, d)))
  }

  /** `is_package_to_be_deleted`. */
  predicate ToBeDeleted(e: Engine, d: Descriptor)
  {
    Installed(e, d) && e.action == "delete"
  }

  /**
   * How the decisions relate: a package is never both to be installed and to
   * be reinstalled, an upgrade is a reinstall, and a deletion is asked only by
   * `delete` on an installed package and excludes both.
   */
  lemma DecisionRelations(e: Engine, d: Descriptor)
    ensures !(ToBeInstalled(e, d) && ToBeReinstalled(e, d))
    ensures ToBeUpgraded(e, d) ==> ToBeReinstalled(e, d)
    ensures ToBeDeleted(e, d) <==> e.action == "delete" && Installed(e, d)
    ensures ToBeDeleted(e, d) ==> !ToBeInstalled(e, d) && !ToBeReinstalled(e, d)
    ensures ToBeReinstalled(e, d) || ToBeUpdated(e, d) ==> Installed(e, d)
    ensures ToBeInstalled(e, d) ==> SrcToBeUpdated(e, d)
  {
  }

  /** The errors of `is_package_src_to_be_fetched`. */
  datatype FetchCheckError =
    | NotADirectory(path: string)
      /** A buildout package's directory exists without its buildout configuration. */
    | IncompleteCheckout(path: string)

  /** The buildout file a minibuild names in its `buildout_config` entry, `buildout.cfg` by default. */
  function BuildoutConfig(section: Section): string
  {
    if "buildout_config" in section then section["buildout_config"] else "buildout.cfg"
  }

  /**
   * `is_package_src_to_be_fetched`: true when the install directory is
   * missing or holds only hidden entries. A buildout package whose directory
   * exists without its configuration file raises instead, even when the
   * directory is empty.
   */
  function SrcToBeFetched(t: Tree, e: Engine, d: Descriptor, section: Section): (r: Result<bool, FetchCheckError>)
  {
    var ip := InstallPath(e.prefix, d);
    if ip.None? || !Exists(t, ip.value) then Ok(true)
    else if !IsDir(t, ip.value) then Err(NotADirectory(ip.value))
    else if d.installMethod == "buildout" && !Exists(t, PathJoin(ip.value, BuildoutConfig(section))) then
      Err(IncompleteCheckout(ip.value))
    else Ok(NonHidden(t.dirs[ip.value]) == [])
  }

  /**
   * The answer is true exactly for a missing directory or one without visible
   * entries, and the buildout check comes first: the incomplete buildout
   * directory raises rather than asking for a fetch.
   */
  lemma SrcToBeFetchedCases(t: Tree, e: Engine, d: Descriptor, section: Section)
    requires InstallPath(e.prefix, d).Some?
    ensures var p := InstallPath(e.prefix, d).value;
      && (!Exists(t, p) ==> SrcToBeFetched(t, e, d, section) == Ok(true))
      && (IsDir(t, p) && d.installMethod == "buildout" && !Exists(t, PathJoin(p, BuildoutConfig(section))) ==>
            SrcToBeFetched(t, e, d, section) == Err(IncompleteCheckout(p)))
      && (SrcToBeFetched(t, e, d, section) == Ok(true) <==>
            !Exists(t, p) || (IsDir(t, p) && NonHidden(t.dirs[p]) == [] &&
              (d.installMethod != "buildout" || Exists(t, PathJoin(p, BuildoutConfig(section))))))
  {
  }

  // ------------------------------------------------------------- _do_action

  /**
   * The maker side of `_do_action`: the `parts` option its `get_options`
   * gives each package (a package without an entry gets no `parts` key), and
   * the packages whose callback raises.
   */
  datatype Maker = Maker(parts: map<string, seq<string>>, failing: set<string>)

  /** The callbacks `getattr(maker, action)` finds: `install`, `reinstall` and `delete`. */
  predicate HasCallback(action: string)
  {
    action == "install" || action == "reinstall" || action == "delete"
  }

  datatype ActionError =
    | UnknownAction(action: string, installMethod: string)
    | CallbackFailed(action: string, name: string)

  /** The parts that end with the version, in order. */
  function EndingWith(parts: seq<string>, v: string): (r: seq<string>)
    ensures forall k :: 0 <= k < |r| ==> r[k] in parts && IsSuffix(v, r[k])
    ensures forall p :: p in parts && IsSuffix(v, p) ==> p in r
  {
    if parts == [] then []
    else if IsSuffix(v, parts[0]) then [parts[0]] + EndingWith(parts[1..], v)
    else EndingWith(parts[1..], v)
  }

  /** Whether an egg's install keeps the parts of a version: not installed for it yet, or to be reinstalled. */
  predicate WantsVersion(e: Engine, d: Descriptor, v: string)
  {
    !Marked(e, d, InstallMarker(v)) || ToBeReinstalled(e, d)
  }

  /** The parts an egg's install keeps, version by version. */
  function RealParts(e: Engine, d: Descriptor, parts: seq<string>, vs: seq<string>): seq<string>
  {
    if vs == [] then []
    else Chunk(e, d, parts, vs[0]) + RealParts(e, d, parts, vs[1..])
  }

  /** The parts kept for one version: those ending with it, when the install wants it. */
  function Chunk(e: Engine, d: Descriptor, parts: seq<string>, v: string): seq<string>
  {
    if WantsVersion(e, d, v) then EndingWith(parts, v) else []
  }

  lemma RealPartsStep(e: Engine, d: Descriptor, parts: seq<string>, vs: seq<string>, i: nat)
    requires i < |vs|
    ensures RealParts(e, d, parts, vs[i..]) == Chunk(e, d, parts, vs[i]) + RealParts(e, d, parts, vs[i + 1..])
  {
    assert vs[i..][1..] == vs[i + 1..];
  }

  lemma Glue<T>(kept: seq<T>, chunk: seq<T>, rest: seq<T>, tail: seq<T>, whole: seq<T>)
    requires kept + rest == whole && rest == chunk + tail
    ensures (kept + chunk) + tail == whole
  {
  }

  /** A part is kept iff it ends with a listed version the install wants. */
  lemma {:induction false} RealPartsMember(e: Engine, d: Descriptor, parts: seq<string>, vs: seq<string>, p: string)
    ensures p in RealParts(e, d, parts, vs) <==>
      p in parts && exists v :: v in vs && IsSuffix(v, p) && WantsVersion(e, d, v)
  {
    if vs != [] {
      RealPartsMember(e, d, parts, vs[1..], p);
      var chunk := if WantsVersion(e, d, vs[0]) then EndingWith(parts, vs[0]) else [];
      assert RealParts(e, d, parts, vs) == chunk + RealParts(e, d, parts, vs[1..]);
      if p in RealParts(e, d, parts, vs) && p in chunk {
        assert vs[0] in vs && IsSuffix(vs[0], p) && WantsVersion(e, d, vs[0]);
      }
      if p in parts && exists v :: v in vs && IsSuffix(v, p) && WantsVersion(e, d, v) {
        var v :| v in vs && IsSuffix(v, p) && WantsVersion(e, d, v);
        if v != vs[0] {
          assert v in vs[1..];
        }
      }
    }
  }

  /** The versions a part ends with, in the order of `vs`. */
  function VersionsOf(part: string, vs: seq<string>): (r: seq<string>)
    ensures forall k :: 0 <= k < |r| ==> r[k] in vs && IsSuffix(r[k], part)
    ensures forall v :: v in vs && IsSuffix(v, part) ==> v in r
  {
    if vs == [] then []
    else if IsSuffix(vs[0], part) then [vs[0]] + VersionsOf(part, vs[1..])
    else VersionsOf(part, vs[1..])
  }

  /** The versions the installed parts end with, part by part. */
  function PartVersions(parts: seq<string>): (r: seq<string>)
    ensures forall k :: 0 <= k < |r| ==> r[k] in Pythons.Versions
  {
    if parts == [] then [] else VersionsOf(parts[0], Pythons.Versions) + PartVersions(parts[1..])
  }

  /** A version is recorded iff some part ends with it. */
  lemma {:induction false} PartVersionsMember(parts: seq<string>, v: string)
    ensures v in PartVersions(parts) <==> v in Pythons.Versions && exists p :: p in parts && IsSuffix(v, p)
  {
    if parts != [] {
      PartVersionsMember(parts[1..], v);
      if v in Pythons.Versions && exists p :: p in parts && IsSuffix(v, p) {
        var p :| p in parts && IsSuffix(v, p);
        if p != parts[0] {
          assert p in parts[1..];
        }
      }
      if v in PartVersions(parts) && v in VersionsOf(parts[0], Pythons.Versions) {
        assert parts[0] in parts;
      }
    }
  }

  /** The history after setting `install-<v>` (with that text) for each version in turn. */
  function MarkAll(h: History, ip: Option<string>, vs: seq<string>): History
    decreases |vs|
  {
    if vs == [] then h else MarkAll(WithMark(h, ip, InstallMarker(vs[0]), InstallMarker(vs[0])), ip, vs[1..])
  }

  /** Marking versions keeps every marker already there. */
  lemma {:induction false} MarkAllKeeps(h: History, ip: Option<string>, vs: seq<string>, k: (string, string))
    requires k in h.marks
    ensures k in MarkAll(h, ip, vs).marks
    ensures MarkAll(h, ip, vs).snapshots == h.snapshots
    decreases |vs|
  {
    if vs != [] {
      MarkAllKeeps(WithMark(h, ip, InstallMarker(vs[0]), InstallMarker(vs[0])), ip, vs[1..], k);
    }
  }

  /** Each listed version ends up marked. */
  lemma {:induction false} MarkAllSets(h: History, ip: Option<string>, vs: seq<string>, v: string)
    requires ip.Some? && v in vs
    ensures (ip.value, InstallMarker(v)) in MarkAll(h, ip, vs).marks
    decreases |vs|
  {
    var h1 := WithMark(h, ip, InstallMarker(vs[0]), InstallMarker(vs[0]));
    if v == vs[0] {
      MarkAllKeeps(h1, ip, vs[1..], (ip.value, InstallMarker(v)));
    } else {
      MarkAllSets(h1, ip, vs[1..], v);
    }
  }

  /** The `parts` option the callback receives: an egg's install parts are filtered. */
  function CallbackParts(e: Engine, action: string, d: Descriptor, maker: Maker): Option<seq<string>>
  {
    if d.name !in maker.parts then None
    else if Pythons.IsEgg(d) && InstallLike(action) then Some(RealParts(e, d, maker.parts[d.name], Pythons.Versions))
    else Some(maker.parts[d.name])
  }

  /**
   * The history after a successful install or reinstall callback: the
   * minibuild is recorded; an egg with parts gets `install-<v>` for each
   * version its parts end with; any other package gets one marker named after
   * the action.
   */
  function AfterInstall(e: Engine, action: string, d: Descriptor, parts: Option<seq<string>>): History
  {
    var ip := InstallPath(e.prefix, d);
    var h := Recorded(e.history, ip, d.revision);
    var ps := if parts.Some? then parts.value else [];
    if Pythons.IsEgg(d) && |ps| > 0 then MarkAll(h, ip, PartVersions(ps))
    else WithMark(h, ip, action, action)
  }

  /** One package of `_do_action`: the new engine, and the error that stops the loop. */
  function Act(e: Engine, action: string, d: Descriptor, maker: Maker): (Engine, Option<ActionError>)
  {
    if IsMeta(d) then (e, None)
    else if HasCallback(action) then
      if d.name in maker.failing then (e, Some(CallbackFailed(action, d.name)))
      else if action == "delete" then (e.(history := Cleared(e.history, InstallPath(e.prefix, d))), None)
      else (e.(history := AfterInstall(e, action, d, CallbackParts(e, action, d, maker))), None)
    else if action == "generate_env" then (e, None)
    else (e, Some(UnknownAction(action, d.installMethod)))
  }

  /** `_do_action` over a list: the packages in order, up to the first error. */
  function ActAll(e: Engine, action: string, ds: seq<Descriptor>, maker: Maker): (Engine, Option<ActionError>)
    decreases |ds|
  {
    if ds == [] then (e, None)
    else
      var (e1, err) := Act(e, action, ds[0], maker);
      if err.Some? then (e1, err) else ActAll(e1, action, ds[1..], maker)
  }

  /** A `meta-` package is skipped whatever the action. */
  lemma MetaUntouched(e: Engine, action: string, d: Descriptor, maker: Maker)
    requires IsMeta(d)
    ensures Act(e, action, d, maker) == (e, None)
  {
  }

  /**
   * After a successful install or reinstall of an egg with parts, each version
   * its parts end with is marked `install-<v>`.
   */
  lemma InstallMarksVersions(e: Engine, action: string, d: Descriptor, maker: Maker, v: string)
    requires InstallLike(action) && !IsMeta(d) && d.name !in maker.failing
    requires Pythons.IsEgg(d) && CallbackParts(e, action, d, maker).Some?
    requires v in PartVersions(CallbackParts(e, action, d, maker).value)
    ensures var (e1, err) := Act(e, action, d, maker);
      err.None? && Marked(e1, d, InstallMarker(v))
  {
    var ip := InstallPath(e.prefix, d);
    MarkAllSets(Recorded(e.history, ip, d.revision), ip, PartVersions(CallbackParts(e, action, d, maker).value), v);
  }

  /**
   * After a successful install or reinstall of any other package, the marker
   * named after the action is set, with the action as its text, and the
   * recorded revision is the package's.
   */
  lemma InstallMarksAction(e: Engine, action: string, d: Descriptor, maker: Maker)
    requires InstallLike(action) && !IsMeta(d) && d.category.Some? && d.name !in maker.failing
    requires var ps := CallbackParts(e, action, d, maker); !Pythons.IsEgg(d) || ps.None? || ps.value == []
    ensures var (e1, err) := Act(e, action, d, maker);
      && err.None? && Marked(e1, d, action) && GetMark(e1, d, action) == action
      && InstalledRevision(e1, d) == if Installed(e1, d) then Some(d.revision) else None
  {
  }

  /**
   * A reinstall sets a marker named `reinstall`, not `install`: a package that
   * was reinstalled without ever having been installed is still not installed.
   */
  lemma ReinstallLeavesUninstalled(e: Engine, d: Descriptor, maker: Maker)
    requires !IsMeta(d) && d.category.Some? && !Pythons.IsEgg(d) && d.name !in maker.failing
    requires !Installed(e, d)
    ensures var (e1, err) := Act(e, "reinstall", d, maker);
      err.None? && Marked(e1, d, "reinstall") && !Installed(e1, d)
  {
  }

  /** After a successful `delete` the package is no longer installed. */
  lemma DeleteUninstalls(e: Engine, d: Descriptor, maker: Maker)
    requires !IsMeta(d) && d.category.Some? && d.name !in maker.failing
    ensures var (e1, err) := Act(e, "delete", d, maker);
      err.None? && !Installed(e1, d) && InstalledRevision(e1, d).None?
  {
    var e1 := Act(e, "delete", d, maker).0;
    var p := InstallPath(e.prefix, d).value;
    if Pythons.IsEgg(d) && |EggVersions(e1, d)| > 0 {
      var v := EggVersions(e1, d)[0];
      assert v in EggVersions(e1, d);
      assert (p, InstallMarker(v)) !in e1.history.marks;
    } else {
      assert (p, "install") !in e1.history.marks;
    }
  }

  /** An unknown action fails on the first package that is not a `meta-` one and changes nothing. */
  lemma UnknownActionFails(e: Engine, action: string, d: Descriptor, maker: Maker)
    requires !IsMeta(d) && !HasCallback(action) && action != "generate_env"
    ensures Act(e, action, d, maker) == (e, Some(UnknownAction(action, d.installMethod)))
  {
  }

  /** The inner loop over `PYTHON_VERSIONS`: the versions one part ends with. */
  method VersionsOfPart(part: string, vs: seq<string>) returns (found: seq<string>)
    ensures found == VersionsOf(part, vs)
  {
    found := [];
    var j := 0;
    while j < |vs|
      invariant 0 <= j <= |vs|
      invariant found + VersionsOf(part, vs[j..]) == VersionsOf(part, vs)
    {
      assert vs[j..][1..] == vs[j + 1..];
      if IsSuffix(vs[j], part) {
        found := found + [vs[j]];
      }
      j := j + 1;
    }
    assert vs[j..] == [];
  }

  /** The versions loop of `_do_action`, part by part. */
  method CollectVersions(parts: seq<string>) returns (versions: seq<string>)
    ensures versions == PartVersions(parts)
  {
    versions := [];
    var i := 0;
    while i < |parts|
      invariant 0 <= i <= |parts|
      invariant versions + PartVersions(parts[i..]) == PartVersions(parts)
    {
      assert parts[i..][1..] == parts[i + 1..];
      var found := VersionsOfPart(parts[i], Pythons.Versions);
      versions := versions + found;
      i := i + 1;
    }
    assert parts[i..] == [];
  }

  /** The inner loop over the parts: those that end with the version, in order. */
  method PartsEnding(parts: seq<string>, v: string) returns (chunk: seq<string>)
    ensures chunk == EndingWith(parts, v)
  {
    chunk := [];
    var j := 0;
    while j < |parts|
      invariant 0 <= j <= |parts|
      invariant chunk + EndingWith(parts[j..], v) == EndingWith(parts, v)
    {
      assert parts[j..][1..] == parts[j + 1..];
      if IsSuffix(v, parts[j]) {
        chunk := chunk + [parts[j]];
      }
      j := j + 1;
    }
    assert parts[j..] == [];
  }

  /** One version of the egg parts loop: its parts, when the install wants it. */
  method VersionChunk(e: Engine, d: Descriptor, parts: seq<string>, v: string) returns (chunk: seq<string>)
    ensures chunk == Chunk(e, d, parts, v)
  {
    chunk := [];
    if WantsVersion(e, d, v) {
      chunk := PartsEnding(parts, v);
    }
  }

  /** The egg parts loop of `_do_action`: version by version, the parts to install. */
  method FilterParts(e: Engine, d: Descriptor, parts: seq<string>, vs: seq<string>) returns (kept: seq<string>)
    ensures kept == RealParts(e, d, parts, vs)
  {
    kept := [];
    var i := 0;
    while i < |vs|
      invariant 0 <= i <= |vs|
      invariant kept + RealParts(e, d, parts, vs[i..]) == RealParts(e, d, parts, vs)
    {
      var chunk := VersionChunk(e, d, parts, vs[i]);
      RealPartsStep(e, d, parts, vs, i);
      Glue(kept, chunk, RealParts(e, d, parts, vs[i..]), RealParts(e, d, parts, vs[i + 1..]), RealParts(e, d, parts, vs));
      kept := kept + chunk;
      i := i + 1;
    }
    assert vs[i..] == [];
  }

  /** `set_package_mark`, `record_minibuild`, `is_installed` and `_do_action` on a Minimerge. */
  class Minimerge {
    var engine: Engine
    /** `_binaries`: the packages fetched from a binary archive. */
    var binaries: seq<Descriptor>

    constructor (prefix: string, action: string, update: bool, history: History)
      ensures engine == Engine(prefix, action, update, map[], history) && binaries == []
    {
      engine := Engine(prefix, action, update, map[], history);
      binaries := [];
    }

    /** `set_package_mark`. */
    method SetPackageMark(d: Descriptor, marker: string, text: string)
      modifies this
      ensures binaries == old(binaries)
      ensures engine == old(engine).(history := WithMark(old(engine).history, InstallPath(engine.prefix, d), marker, text))
      ensures InstallPath(engine.prefix, d).Some? ==> Marked(engine, d, marker) && GetMark(engine, d, marker) == text
    {
      engine := engine.(history := WithMark(engine.history, InstallPath(engine.prefix, d), marker, text));
    }

    /** `record_minibuild`. */
    method RecordMinibuild(d: Descriptor)
      modifies this
      ensures binaries == old(binaries)
      ensures engine == old(engine).(history := Recorded(old(engine).history, InstallPath(engine.prefix, d), d.revision))
    {
      engine := engine.(history := Recorded(engine.history, InstallPath(engine.prefix, d), d.revision));
    }

    /** `is_installed`: the versions loop stops at the first version without its marker. */
    method IsInstalled(d: Descriptor) returns (b: bool)
      ensures b <==> Installed(engine, d)
    {
      var e := engine;
      b := false;
      if Pythons.IsEgg(d) {
        var versions := EggVersions(e, d);
        var i := 0;
        while i < |versions|
          invariant 0 <= i <= |versions|
          invariant b == (i > 0)
          invariant forall k :: 0 <= k < i ==> Marked(e, d, InstallMarker(versions[k]))
        {
          if Marked(e, d, InstallMarker(versions[i])) {
            b := true;
          } else {
            assert versions[i] in versions;
            b := false;
            break;
          }
          i := i + 1;
        }
        if b {
          forall v | v in versions
            ensures Marked(e, d, InstallMarker(v))
          {
            var k :| 0 <= k < |versions| && versions[k] == v;
          }
        }
      } else if Marked(e, d, "install") {
        b := true;
      }
    }

    /** Sets `install-<v>` for each version in turn. */
    method MarkVersions(d: Descriptor, versions: seq<string>)
      modifies this
      ensures binaries == old(binaries)
      ensures engine == old(engine).(history := MarkAll(old(engine).history, InstallPath(engine.prefix, d), versions))
    {
      var i := 0;
      while i < |versions|
        invariant 0 <= i <= |versions|
        invariant engine.prefix == old(engine).prefix
        invariant engine == old(engine).(history := engine.history)
        invariant binaries == old(binaries)
        invariant MarkAll(engine.history, InstallPath(engine.prefix, d), versions[i..])
          == MarkAll(old(engine).history, InstallPath(engine.prefix, d), versions)
      {
        assert versions[i..][1..] == versions[i + 1..];
        SetPackageMark(d, InstallMarker(versions[i]), InstallMarker(versions[i]));
        i := i + 1;
      }
      assert versions[i..] == [];
    }

    /** The body of `_do_action`'s loop for one package. */
    method ActOn(action: string, d: Descriptor, maker: Maker) returns (err: Option<ActionError>)
      modifies this
      ensures binaries == old(binaries)
      ensures (engine, err) == Act(old(engine), action, d, maker)
    {
      err := None;
      if IsMeta(d) {
        return;
      }
      if HasCallback(action) {
        var parts: Option<seq<string>> := None;
        if d.name in maker.parts {
          parts := Some(maker.parts[d.name]);
          if Pythons.IsEgg(d) && InstallLike(action) {
            var kept := FilterParts(engine, d, maker.parts[d.name], Pythons.Versions);
            parts := Some(kept);
          }
        }
        assert parts == CallbackParts(engine, action, d, maker);
        if d.name in maker.failing {
          return Some(CallbackFailed(action, d.name));
        }
        if action == "delete" {
          engine := engine.(history := Cleared(engine.history, InstallPath(engine.prefix, d)));
          return;
        }
        ghost var before := engine;
        RecordMinibuild(d);
        var onlyRecord := true;
        if Pythons.IsEgg(d) {
          onlyRecord := false;
          var ps := if parts.Some? then parts.value else [];
          if |ps| > 0 {
            var versions := CollectVersions(ps);
            MarkVersions(d, versions);
          } else {
            onlyRecord := true;
          }
        }
        if onlyRecord {
          SetPackageMark(d, action, action);
        }
        assert engine.history == AfterInstall(before, action, d, parts);
      } else if action == "generate_env" {
      } else {
        err := Some(UnknownAction(action, d.installMethod));
      }
    }

    /** `_do_action`: each package in order; the first error propagates. */
    method DoAction(action: string, ds: seq<Descriptor>, maker: Maker) returns (err: Option<ActionError>)
      modifies this
      ensures binaries == old(binaries)
      ensures (engine, err) == ActAll(old(engine), action, ds, maker)
    {
      err := None;
      var i := 0;
      while i < |ds|
        invariant 0 <= i <= |ds|
        invariant err.None?
        invariant binaries == old(binaries)
        invariant ActAll(engine, action, ds[i..], maker) == ActAll(old(engine), action, ds, maker)
      {
        assert ds[i..][1..] == ds[i + 1..];
        ghost var prev := engine;
        err := ActOn(action, ds[i], maker);
        if err.Some? {
          assert ActAll(prev, action, ds[i..], maker) == (engine, err);
          return;
        }
        i := i + 1;
      }
      assert ds[i..] == [];
    }
  }
}
