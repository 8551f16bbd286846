/**
 * `_select_pythons` of minitage.core.core: which python versions a run
 * needs, and the build list that starts with the dependency trees of the
 * selected pythons, has the other pythons cut out and keeps the first
 * package of each name.
 *
 * The directory listing under `<prefix>/dependencies` is the parameter
 * `installed`: the python package names that have a directory there.
 */
module Pythons {
  import opened Wrappers
  import opened Objects
  import opened Resolver

  /** `PYTHON_VERSIONS`, oldest first. */
  const Versions: seq<string> := ["2.4", "2.5", "2.6"]

  /** The package name of a python version, `'python-%s' % version`. */
  function PythonName(v: string): (n: string)
    ensures |n| == |v| + 7 && n[7..] == v
  {
    "python-" + v
  }

  /** The first members of the `pythons` pairs. */
  const PythonNames: seq<string> := ["python-2.4", "python-2.5", "python-2.6"]

  lemma PythonNamesOfVersions()
    ensures |PythonNames| == |Versions|
    ensures forall k :: 0 <= k < |Versions| ==> PythonNames[k] == PythonName(Versions[k])
  {
    assert PythonName("2.4") == "python-2.4";
    assert PythonName("2.5") == "python-2.5";
    assert PythonName("2.6") == "python-2.6";
  }

  /** The version a python package name stands for: `name.replace('python-', '')`. */
  function VersionOf(name: string): (v: string)
    requires name in PythonNames
    ensures v in Versions && PythonName(v) == name
  {
    PythonNamesOfVersions();
    name[7..]
  }

  predicate IsEgg(d: Descriptor)
  {
    d.category == Some("eggs")
  }

  /** A package that depends on `meta-python` or is an egg needs some python. */
  predicate NeedsPython(d: Descriptor)
  {
    "meta-python" in d.dependencies || IsEgg(d)
  }

  // ---------------------------------------------------------------------------
  // Version selection

  /**
   * The loop over the requested packages: a requested `python-<v>` adds `v`
   * (even twice); the first requested egg, when every version is asked for,
   * adds all of `PYTHON_VERSIONS` and ends the loop with `ALL` set.
   */
  function DirectScan(directs: seq<Descriptor>, allVersions: bool, pv: seq<string>): (seq<string>, bool)
    decreases |directs|
  {
    if directs == [] then (pv, false)
    else
      var d := directs[0];
      var pv1 := if d.name in PythonNames then pv + [VersionOf(d.name)] else pv;
      if IsEgg(d) && allVersions then (pv1 + Versions, true)
      else DirectScan(directs[1..], allVersions, pv1)
  }

  /**
   * The inner loop over the `pythons` pairs for one package: each python it
   * depends on is added once, unless the package is `meta-python` itself.
   */
  function AddNamed(pv: seq<string>, p: Descriptor, vs: seq<string>): seq<string>
    decreases |vs|
  {
    if vs == [] then pv
    else
      var v := vs[0];
      var pv1 := if PythonName(v) in p.dependencies && p.name != "meta-python" && v !in pv then pv + [v] else pv;
      AddNamed(pv1, p, vs[1..])
  }

  /** The loop over the resolved packages: the versions they name, and the packages that need a python (`metas`). */
  function PackageScan(packages: seq<Descriptor>, pv: seq<string>, metas: seq<Descriptor>): (seq<string>, seq<Descriptor>)
    decreases |packages|
  {
    if packages == [] then (pv, metas)
    else
      var p := packages[0];
      PackageScan(packages[1..], AddNamed(pv, p, Versions), if NeedsPython(p) then metas + [p] else metas)
  }

  /** The most recent of the first `k` versions whose python is installed. */
  function NewestIn(installed: set<string>, k: nat): (r: Option<string>)
    requires k <= |Versions|
  {
    if k == 0 then None
    else if PythonName(Versions[k - 1]) in installed then Some(Versions[k - 1])
    else NewestIn(installed, k - 1)
  }

  /** The python chosen when packages need one but none was named: the newest installed, else the newest of all. */
  function Newest(installed: set<string>): string
  {
    var r := NewestIn(installed, |Versions|);
    if r.Some? then r.value else Versions[|Versions| - 1]
  }

  /** `pyversions` as `_select_pythons` leaves it. */
  function ChooseVersions(directs: seq<Descriptor>, packages: seq<Descriptor>, allVersions: bool, installed: set<string>): seq<string>
  {
    var direct := DirectScan(directs, allVersions, []);
    if direct.1 then direct.0
    else
      var scan := PackageScan(packages, direct.0, []);
      if scan.0 == [] && scan.1 != [] then [Newest(installed)] else scan.0
  }

  method ScanDirects(directs: seq<Descriptor>, allVersions: bool) returns (pv: seq<string>, all: bool)
    ensures (pv, all) == DirectScan(directs, allVersions, [])
  {
    pv, all := [], false;
    var i := 0;
    while i < |directs|
      invariant 0 <= i <= |directs| && !all
      invariant DirectScan(directs[i..], allVersions, pv) == DirectScan(directs, allVersions, [])
    {
      var d := directs[i];
      assert directs[i..][1..] == directs[i + 1..];
      if d.name in PythonNames {
        pv := pv + [VersionOf(d.name)];
      }
      if IsEgg(d) && allVersions {
        pv := pv + Versions;
        all := true;
        break;
      }
      i := i + 1;
    }
  }

  method AddVersions(pv0: seq<string>, p: Descriptor) returns (pv: seq<string>)
    ensures pv == AddNamed(pv0, p, Versions)
  {
    pv := pv0;
    var i := 0;
    while i < |Versions|
      invariant 0 <= i <= |Versions|
      invariant AddNamed(pv, p, Versions[i..]) == AddNamed(pv0, p, Versions)
    {
      var v := Versions[i];
      assert Versions[i..][1..] == Versions[i + 1..];
      if PythonName(v) in p.dependencies && p.name != "meta-python" {
        if v !in pv {
          pv := pv + [v];
        }
      }
      i := i + 1;
    }
  }

  method ScanPackages(packages: seq<Descriptor>, pv0: seq<string>) returns (pv: seq<string>, metas: seq<Descriptor>)
    ensures (pv, metas) == PackageScan(packages, pv0, [])
  {
    pv, metas := pv0, [];
    var i := 0;
    while i < |packages|
      invariant 0 <= i <= |packages|
      invariant PackageScan(packages[i..], pv, metas) == PackageScan(packages, pv0, [])
    {
      var p := packages[i];
      assert packages[i..][1..] == packages[i + 1..];
      pv := AddVersions(pv, p);
      if "meta-python" in p.dependencies || p.category == Some("eggs") {
        metas := metas + [p];
      }
      i := i + 1;
    }
  }

  /** The reversed walk over `pythons` that stops at the first installed one. */
  method NewestInstalled(installed: set<string>) returns (v: string)
    ensures v == Newest(installed)
  {
    var k := |Versions|;
    while k > 0
      invariant 0 <= k <= |Versions|
      invariant NewestIn(installed, k) == NewestIn(installed, |Versions|)
    {
      if PythonName(Versions[k - 1]) in installed {
        return Versions[k - 1];
      }
      k := k - 1;
    }
    v := Versions[|Versions| - 1];
  }

  method SelectVersions(directs: seq<Descriptor>, packages: seq<Descriptor>, allVersions: bool, installed: set<string>)
    returns (pv: seq<string>)
    ensures pv == ChooseVersions(directs, packages, allVersions, installed)
  {
    var all;
    pv, all := ScanDirects(directs, allVersions);
    if !all {
      var metas;
      pv, metas := ScanPackages(packages, pv);
      if pv == [] && metas != [] {
        var v := NewestInstalled(installed);
        pv := [v];
      }
    }
  }

  // ---------------------------------------------------------------------------
  // What the version selection promises

  lemma {:induction false} DirectScanKnown(directs: seq<Descriptor>, allVersions: bool, pv: seq<string>)
    requires forall v :: v in pv ==> v in Versions
    ensures forall v :: v in DirectScan(directs, allVersions, pv).0 ==> v in Versions
    decreases |directs|
  {
    if directs != [] {
      var d := directs[0];
      var pv1 := if d.name in PythonNames then pv + [VersionOf(d.name)] else pv;
      if !(IsEgg(d) && allVersions) {
        DirectScanKnown(directs[1..], allVersions, pv1);
      }
    }
  }

  lemma {:induction false} AddNamedGrows(pv: seq<string>, p: Descriptor, vs: seq<string>)
    ensures forall v :: v in pv ==> v in AddNamed(pv, p, vs)
    ensures forall v :: v in AddNamed(pv, p, vs) ==> v in pv || v in vs
    ensures forall v :: v in vs && PythonName(v) in p.dependencies && p.name != "meta-python" ==> v in AddNamed(pv, p, vs)
    decreases |vs|
  {
    if vs != [] {
      var v := vs[0];
      var pv1 := if PythonName(v) in p.dependencies && p.name != "meta-python" && v !in pv then pv + [v] else pv;
      AddNamedGrows(pv1, p, vs[1..]);
    }
  }

  lemma {:induction false} PackageScanGrows(packages: seq<Descriptor>, pv: seq<string>, metas: seq<Descriptor>)
    ensures var s := PackageScan(packages, pv, metas);
            (forall v :: v in pv ==> v in s.0) &&
            (forall v :: v in s.0 ==> v in pv || v in Versions)
    decreases |packages|
  {
    if packages != [] {
      var p := packages[0];
      AddNamedGrows(pv, p, Versions);
      PackageScanGrows(packages[1..], AddNamed(pv, p, Versions), if NeedsPython(p) then metas + [p] else metas);
    }
  }

  lemma {:induction false} NewestInSpec(installed: set<string>, k: nat)
    requires k <= |Versions|
    ensures var r := NewestIn(installed, k);
            (r.None? ==> forall j :: 0 <= j < k ==> PythonName(Versions[j]) !in installed) &&
            (r.Some? ==> exists i :: 0 <= i < k && Versions[i] == r.value && PythonName(r.value) in installed &&
                           forall j :: i < j < k ==> PythonName(Versions[j]) !in installed)
  {
    if k > 0 && PythonName(Versions[k - 1]) !in installed {
      NewestInSpec(installed, k - 1);
    }
  }

  /**
   * The fallback version is the newest installed python, with no newer one
   * installed; when none is installed it is the newest of all.
   */
  lemma NewestKnown(installed: set<string>)
    ensures exists i :: 0 <= i < |Versions| && Versions[i] == Newest(installed) &&
              (PythonName(Versions[i]) in installed || forall v :: v in Versions ==> PythonName(v) !in installed) &&
              forall j :: i < j < |Versions| ==> PythonName(Versions[j]) !in installed
  {
    NewestInSpec(installed, |Versions|);
  }

  /** Only versions of `PYTHON_VERSIONS` are ever selected. */
  lemma SelectedAreKnown(directs: seq<Descriptor>, packages: seq<Descriptor>, allVersions: bool, installed: set<string>)
    ensures forall v :: v in ChooseVersions(directs, packages, allVersions, installed) ==> v in Versions
  {
    DirectScanKnown(directs, allVersions, []);
    var direct := DirectScan(directs, allVersions, []);
    if !direct.1 {
      PackageScanGrows(packages, direct.0, []);
      NewestKnown(installed);
    }
  }

  /** The direct scan only adds versions, and all of them when it ends with `ALL` set. */
  lemma {:induction false} DirectScanGrows(directs: seq<Descriptor>, allVersions: bool, pv: seq<string>)
    ensures forall v :: v in pv ==> v in DirectScan(directs, allVersions, pv).0
    ensures DirectScan(directs, allVersions, pv).1 ==> forall v :: v in Versions ==> v in DirectScan(directs, allVersions, pv).0
    decreases |directs|
  {
    if directs != [] {
      var d := directs[0];
      var pv1 := if d.name in PythonNames then pv + [VersionOf(d.name)] else pv;
      if !(IsEgg(d) && allVersions) {
        DirectScanGrows(directs[1..], allVersions, pv1);
      }
    }
  }

  /**
   * A requested `python-<v>` is in the direct scan's versions: either the
   * loop reached it, or it stopped earlier having added every version.
   */
  lemma {:induction false} DirectScanHas(directs: seq<Descriptor>, allVersions: bool, pv: seq<string>, d: Descriptor)
    requires d in directs && d.name in PythonNames
    ensures VersionOf(d.name) in DirectScan(directs, allVersions, pv).0
    decreases |directs|
  {
    var e := directs[0];
    var pv1 := if e.name in PythonNames then pv + [VersionOf(e.name)] else pv;
    if !(IsEgg(e) && allVersions) {
      if e == d {
        DirectScanGrows(directs[1..], allVersions, pv1);
      } else {
        DirectScanHas(directs[1..], allVersions, pv1, d);
      }
    }
  }

  lemma {:induction false} DirectScanAll(directs: seq<Descriptor>, allVersions: bool, pv: seq<string>)
    requires allVersions && exists d :: d in directs && IsEgg(d)
    ensures DirectScan(directs, allVersions, pv).1
    decreases |directs|
  {
    var e := directs[0];
    var pv1 := if e.name in PythonNames then pv + [VersionOf(e.name)] else pv;
    if !IsEgg(e) {
      var d :| d in directs && IsEgg(d);
      assert d in directs[1..];
      DirectScanAll(directs[1..], allVersions, pv1);
    }
  }

  /** A requested `python-<v>` is selected. */
  lemma RequestedPythonSelected(directs: seq<Descriptor>, packages: seq<Descriptor>, allVersions: bool, installed: set<string>, d: Descriptor)
    requires d in directs && d.name in PythonNames
    ensures VersionOf(d.name) in ChooseVersions(directs, packages, allVersions, installed)
  {
    DirectScanHas(directs, allVersions, [], d);
    var direct := DirectScan(directs, allVersions, []);
    if !direct.1 {
      PackageScanGrows(packages, direct.0, []);
    }
  }

  /** A requested egg, when every version is asked for, selects all of `PYTHON_VERSIONS`. */
  lemma RequestedEggSelectsAll(directs: seq<Descriptor>, packages: seq<Descriptor>, installed: set<string>)
    requires exists d :: d in directs && IsEgg(d)
    ensures forall v :: v in Versions ==> v in ChooseVersions(directs, packages, true, installed)
  {
    DirectScanAll(directs, true, []);
    DirectScanGrows(directs, true, []);
  }

  lemma {:induction false} PackageScanHas(packages: seq<Descriptor>, pv: seq<string>, metas: seq<Descriptor>, p: Descriptor, v: string)
    requires p in packages && v in Versions && PythonName(v) in p.dependencies && p.name != "meta-python"
    ensures v in PackageScan(packages, pv, metas).0
    decreases |packages|
  {
    var q := packages[0];
    var pv1 := AddNamed(pv, q, Versions);
    var metas1 := if NeedsPython(q) then metas + [q] else metas;
    PackageScanGrows(packages[1..], pv1, metas1);
    AddNamedGrows(pv, q, Versions);
    if q != p {
      PackageScanHas(packages[1..], pv1, metas1, p, v);
    }
  }

  /** A python that a resolved package (other than `meta-python`) depends on is selected. */
  lemma NamedPythonSelected(directs: seq<Descriptor>, packages: seq<Descriptor>, allVersions: bool, installed: set<string>, p: Descriptor, v: string)
    requires p in packages && v in Versions && PythonName(v) in p.dependencies && p.name != "meta-python"
    ensures v in ChooseVersions(directs, packages, allVersions, installed)
  {
    var direct := DirectScan(directs, allVersions, []);
    if direct.1 {
      DirectScanGrows(directs, allVersions, []);
    } else {
      PackageScanHas(packages, direct.0, [], p, v);
    }
  }

  /** No python named anywhere: the direct scan selects nothing. */
  lemma {:induction false} DirectScanEmpty(directs: seq<Descriptor>, allVersions: bool)
    requires forall d :: d in directs ==> d.name !in PythonNames && !(IsEgg(d) && allVersions)
    ensures DirectScan(directs, allVersions, []) == ([], false)
    decreases |directs|
  {
    if directs != [] {
      DirectScanEmpty(directs[1..], allVersions);
    }
  }

  lemma {:induction false} AddNamedNone(pv: seq<string>, p: Descriptor, vs: seq<string>)
    requires forall v :: v in vs ==> PythonName(v) !in p.dependencies || p.name == "meta-python"
    ensures AddNamed(pv, p, vs) == pv
    decreases |vs|
  {
    if vs != [] {
      AddNamedNone(pv, p, vs[1..]);
    }
  }

  /** With no python named by the packages, the scan adds no version and collects exactly the packages that need one. */
  lemma {:induction false} PackageScanMetas(packages: seq<Descriptor>, pv: seq<string>, metas: seq<Descriptor>)
    requires forall p, v :: p in packages && v in Versions ==> PythonName(v) !in p.dependencies || p.name == "meta-python"
    ensures PackageScan(packages, pv, metas).0 == pv
    ensures PackageScan(packages, pv, metas).1 != [] <==> metas != [] || exists p :: p in packages && NeedsPython(p)
    decreases |packages|
  {
    if packages != [] {
      var p := packages[0];
      AddNamedNone(pv, p, Versions);
      PackageScanMetas(packages[1..], pv, if NeedsPython(p) then metas + [p] else metas);
      assert forall q :: q in packages ==> q == p || q in packages[1..];
    }
  }

  /**
   * When no python is requested or named: packages that need a python get
   * the newest installed one (else the newest of all); otherwise nothing is
   * selected.
   */
  lemma FallbackVersion(directs: seq<Descriptor>, packages: seq<Descriptor>, allVersions: bool, installed: set<string>)
    requires forall d :: d in directs ==> d.name !in PythonNames && !(IsEgg(d) && allVersions)
    requires forall p, v :: p in packages && v in Versions ==> PythonName(v) !in p.dependencies || p.name == "meta-python"
    ensures (exists p :: p in packages && NeedsPython(p)) ==> ChooseVersions(directs, packages, allVersions, installed) == [Newest(installed)]
    ensures (forall p :: p in packages ==> !NeedsPython(p)) ==> ChooseVersions(directs, packages, allVersions, installed) == []
  {
    DirectScanEmpty(directs, allVersions);
    PackageScanMetas(packages, [], []);
  }

  // ---------------------------------------------------------------------------
  // Cutting the other pythons out of the build list

  /** The names `['python-%s' % version for version in pyversions]`. */
  function PythonsOf(pv: seq<string>): (r: seq<string>)
    ensures |r| == |pv| && forall k :: 0 <= k < |pv| ==> r[k] == PythonName(pv[k])
  {
    if pv == [] then [] else [PythonName(pv[0])] + PythonsOf(pv[1..])
  }

  /** `found` in front of a successful outcome; an error stays as it is. */
  function Prefixed(found: seq<Descriptor>, r: Result<seq<Descriptor>, ResolveError>): Result<seq<Descriptor>, ResolveError>
  {
    if r.Err? then r else Ok(found + r.value)
  }

  lemma PrefixedNest(a: seq<Descriptor>, b: seq<Descriptor>, r: Result<seq<Descriptor>, ResolveError>)
    ensures Prefixed(a, Prefixed(b, r)) == Prefixed(a + b, r)
    ensures Prefixed([], r) == r
  {
    if r.Ok? {
      assert a + (b + r.value) == (a + b) + r.value;
      assert [] + r.value == r.value;
    }
  }

  /** Some catalog holds the name and its descriptor loads. */
  predicate Loads(cats: seq<Catalog>, name: string)
  {
    Find(cats, name).Some? && Find(cats, name).value.Ok?
  }

  /** The error the lookup of a name that does not load reports. */
  function Missing(cats: seq<Catalog>, name: string): ResolveError
    requires !Loads(cats, name)
  {
    if Find(cats, name).None? then NotFound(name) else LoadFailed(name, Find(cats, name).value.error)
  }

  /**
   * `[find_minibuild(m) for m in names]`; a descriptor that failed to load
   * fails here. A success holds the descriptor found for each name, in order;
   * the lookup fails exactly when some name does not load, and then with the
   * error of the first such name.
   */
  function LookupAll(cats: seq<Catalog>, names: seq<string>): (r: Result<seq<Descriptor>, ResolveError>)
    ensures r.Ok? ==> |r.value| == |names| && forall k :: 0 <= k < |names| ==> Find(cats, names[k]) == Some(Ok(r.value[k]))
    ensures r.Err? <==> exists k :: 0 <= k < |names| && !Loads(cats, names[k])
    ensures r.Err? ==> exists k :: 0 <= k < |names| && !Loads(cats, names[k]) && r.error == Missing(cats, names[k]) &&
                                   forall j :: 0 <= j < k ==> Loads(cats, names[j])
    decreases |names|
  {
    if names == [] then Ok([])
    else
      var e := Find(cats, names[0]);
      if e.None? then Err(NotFound(names[0]))
      else if e.value.Err? then Err(LoadFailed(names[0], e.value.error))
      else
        var rest := LookupAll(cats, names[1..]);
        assert forall k :: 1 <= k < |names| ==> names[k] == names[1..][k - 1];
        Prefixed([e.value.value], rest)
  }

  /** The found dependencies of every package, package by package. */
  function Gather(cats: seq<Catalog>, packages: seq<Descriptor>): Result<seq<Descriptor>, ResolveError>
    decreases |packages|
  {
    if packages == [] then Ok([])
    else
      var first := LookupAll(cats, packages[0].dependencies);
      if first.Err? then first
      else Prefixed(first.value, Gather(cats, packages[1..]))
  }

  method LookupEach(cats: seq<Catalog>, names: seq<string>) returns (r: Result<seq<Descriptor>, ResolveError>)
    ensures r == LookupAll(cats, names)
  {
    var found: seq<Descriptor> := [];
    var i := 0;
    assert names[i..] == names;
    PrefixedNest([], [], LookupAll(cats, names));
    while i < |names|
      invariant 0 <= i <= |names|
      invariant LookupAll(cats, names) == Prefixed(found, LookupAll(cats, names[i..]))
    {
      assert names[i..][0] == names[i] && names[i..][1..] == names[i + 1..];
      var e := FindMinibuild(cats, names[i]);
      if e.None? {
        return Err(NotFound(names[i]));
      }
      if e.value.Err? {
        return Err(LoadFailed(names[i], e.value.error));
      }
      PrefixedNest(found, [e.value.value], LookupAll(cats, names[i + 1..]));
      found := found + [e.value.value];
      i := i + 1;
    }
    assert names[i..] == [] && found + [] == found;
    r := Ok(found);
  }

  /** `for p in packages: dp.extend([find_minibuild(m) for m in p.dependencies])`. */
  method GatherDependencies(cats: seq<Catalog>, packages: seq<Descriptor>) returns (r: Result<seq<Descriptor>, ResolveError>)
    ensures r == Gather(cats, packages)
  {
    var dp: seq<Descriptor> := [];
    var i := 0;
    assert packages[i..] == packages;
    PrefixedNest([], [], Gather(cats, packages));
    while i < |packages|
      invariant 0 <= i <= |packages|
      invariant Gather(cats, packages) == Prefixed(dp, Gather(cats, packages[i..]))
    {
      assert packages[i..][0] == packages[i] && packages[i..][1..] == packages[i + 1..];
      var found := LookupEach(cats, packages[i].dependencies);
      if found.Err? {
        return found;
      }
      PrefixedNest(dp, found.value, Gather(cats, packages[i + 1..]));
      dp := dp + found.value;
      i := i + 1;
    }
    assert packages[i..] == [] && dp + [] == dp;
    r := Ok(dp);
  }

  /** `dp.index(package)`: the first position of an element. */
  function PositionOf(s: seq<Descriptor>, x: Descriptor): (k: nat)
    requires x in s
    ensures k < |s| && s[k] == x && x !in s[..k]
  {
    if s[0] == x then 0
    else
      var k := PositionOf(s[1..], x);
      assert s[1..][..k] == s[1..k + 1];
      k + 1
  }

  function RemoveAt(s: seq<Descriptor>, k: nat): (r: seq<Descriptor>)
    requires k < |s|
    ensures |r| == |s| - 1
  {
    s[..k] + s[k + 1..]
  }

  /**
   * The `for package in dp` loop, which pops from `dp` as it goes: Python's
   * iterator keeps its position, so the element after a popped one moves
   * under the position just examined and is never examined itself. An
   * examined egg maps to `pv`, whether it was cut or not.
   */
  function Sweep(dp: seq<Descriptor>, i: nat, cut: seq<string>, pv: seq<string>, eggs: map<string, seq<string>>)
    : (seq<Descriptor>, map<string, seq<string>>)
    decreases |dp| - i
  {
    if i >= |dp| then (dp, eggs)
    else
      var p := dp[i];
      var dp1 := if p.name in cut then RemoveAt(dp, PositionOf(dp, p)) else dp;
      Sweep(dp1, i + 1, cut, pv, Mark(eggs, p, pv))
  }

  /** `selected_pyver[package.name] = pyversions` for an egg. */
  function Mark(eggs: map<string, seq<string>>, p: Descriptor, pv: seq<string>): map<string, seq<string>>
  {
    if IsEgg(p) then eggs[p.name := pv] else eggs
  }

  method CutPythons(dp0: seq<Descriptor>, cut: seq<string>, pv: seq<string>)
    returns (dp: seq<Descriptor>, eggs: map<string, seq<string>>)
    ensures (dp, eggs) == Sweep(dp0, 0, cut, pv, map[])
  {
    dp, eggs := dp0, map[];
    var i := 0;
    while i < |dp|
      invariant Sweep(dp, i, cut, pv, eggs) == Sweep(dp0, 0, cut, pv, map[])
      decreases |dp| - i
    {
      var package := dp[i];
      if package.name in cut {
        var k := PositionOf(dp, package);
        dp := dp[..k] + dp[k + 1..];
      }
      if package.category == Some("eggs") {
        eggs := eggs[package.name := pv];
      }
      i := i + 1;
    }
  }

  /**
   * The reference reading of the loop: each element is examined unless the
   * one before it was examined and cut (`skip`); an examined element with a
   * cut name is dropped.
   */
  function Survivors(rest: seq<Descriptor>, cut: seq<string>, skip: bool): seq<Descriptor>
    decreases |rest|
  {
    if rest == [] then []
    else if skip then [rest[0]] + Survivors(rest[1..], cut, false)
    else if rest[0].name in cut then Survivors(rest[1..], cut, true)
    else [rest[0]] + Survivors(rest[1..], cut, false)
  }

  /** The examined elements of the same reading. */
  function Examined(rest: seq<Descriptor>, cut: seq<string>, skip: bool): seq<Descriptor>
    decreases |rest|
  {
    if rest == [] then []
    else if skip then Examined(rest[1..], cut, false)
    else [rest[0]] + Examined(rest[1..], cut, rest[0].name in cut)
  }

  /** The map that the examined eggs leave, on top of `eggs`. */
  function EggsOf(eggs: map<string, seq<string>>, examined: seq<Descriptor>, pv: seq<string>): map<string, seq<string>>
    decreases |examined|
  {
    if examined == [] then eggs
    else EggsOf(Mark(eggs, examined[0], pv), examined[1..], pv)
  }

  /** A name is mapped exactly when it was before or an examined egg has it; an examined egg's name maps to `pv`. */
  lemma {:induction false} EggsOfSpec(eggs: map<string, seq<string>>, examined: seq<Descriptor>, pv: seq<string>, n: string)
    ensures n in EggsOf(eggs, examined, pv) <==> n in eggs || exists x :: x in examined && IsEgg(x) && x.name == n
    ensures (exists x :: x in examined && IsEgg(x) && x.name == n) ==> EggsOf(eggs, examined, pv)[n] == pv
    ensures (forall x :: x in examined && IsEgg(x) ==> x.name != n) && n in eggs ==> EggsOf(eggs, examined, pv)[n] == eggs[n]
    decreases |examined|
  {
    if examined != [] {
      EggsOfSpec(Mark(eggs, examined[0], pv), examined[1..], pv, n);
      assert examined == [examined[0]] + examined[1..];
      assert forall x :: x in examined <==> x == examined[0] || x in examined[1..];
    }
  }

  /** With no cut name in the list, every element is examined and survives. */
  lemma {:induction false} ExaminedNoCut(rest: seq<Descriptor>, cut: seq<string>)
    requires forall j :: 0 <= j < |rest| ==> rest[j].name !in cut
    ensures Examined(rest, cut, false) == rest && Survivors(rest, cut, false) == rest
    decreases |rest|
  {
    if rest != [] {
      ExaminedNoCut(rest[1..], cut);
      assert rest == [rest[0]] + rest[1..];
    }
  }

  lemma SweepCutStep(done: seq<Descriptor>, rest: seq<Descriptor>, cut: seq<string>, pv: seq<string>, eggs: map<string, seq<string>>)
    requires Distinct(done + rest) && rest != [] && rest[0].name in cut
    ensures Sweep(done + rest, |done|, cut, pv, eggs) == Sweep(done + rest[1..], |done| + 1, cut, pv, Mark(eggs, rest[0], pv))
  {
    var dp := done + rest;
    assert dp[|done|] == rest[0];
    assert PositionOf(dp, rest[0]) == |done|;
    assert RemoveAt(dp, |done|) == done + rest[1..];
  }

  lemma SweepKeepStep(done: seq<Descriptor>, rest: seq<Descriptor>, cut: seq<string>, pv: seq<string>, eggs: map<string, seq<string>>)
    requires rest != [] && rest[0].name !in cut
    ensures Sweep(done + rest, |done|, cut, pv, eggs) == Sweep((done + [rest[0]]) + rest[1..], |done| + 1, cut, pv, Mark(eggs, rest[0], pv))
  {
    assert (done + rest)[|done|] == rest[0];
    assert done + rest == (done + [rest[0]]) + rest[1..];
  }

  lemma {:induction false} SweepSurvivors(done: seq<Descriptor>, rest: seq<Descriptor>, cut: seq<string>, pv: seq<string>, eggs: map<string, seq<string>>)
    requires Distinct(done + rest)
    ensures Sweep(done + rest, |done|, cut, pv, eggs) == (done + Survivors(rest, cut, false), EggsOf(eggs, Examined(rest, cut, false), pv))
    decreases |rest|, 2
  {
    if rest == [] {
      assert done + rest == done;
    } else if rest[0].name in cut {
      SurvivorsAfterCut(done, rest, cut, pv, eggs);
    } else {
      SurvivorsAfterKeep(done, rest, cut, pv, eggs);
    }
  }

  lemma {:induction false} SurvivorsAfterCut(done: seq<Descriptor>, rest: seq<Descriptor>, cut: seq<string>, pv: seq<string>, eggs: map<string, seq<string>>)
    requires Distinct(done + rest) && rest != [] && rest[0].name in cut
    ensures Sweep(done + rest, |done|, cut, pv, eggs) == (done + Survivors(rest, cut, false), EggsOf(eggs, Examined(rest, cut, false), pv))
    decreases |rest|, 1
  {
    SweepCutStep(done, rest, cut, pv, eggs);
    var eggs1 := Mark(eggs, rest[0], pv);
    if |rest| == 1 {
      assert done + rest[1..] == done;
      assert Sweep(done, |done| + 1, cut, pv, eggs1) == (done, eggs1);
      assert Survivors(rest, cut, false) == Survivors([], cut, true) == [];
      assert Examined(rest, cut, false) == [rest[0]] + Examined([], cut, true) == [rest[0]];
      assert EggsOf(eggs, [rest[0]], pv) == EggsOf(eggs1, [], pv);
    } else {
      SurvivorsAfterCutPair(done, rest, cut, pv, eggs);
    }
  }

  lemma {:induction false} SurvivorsAfterCutPair(done: seq<Descriptor>, rest: seq<Descriptor>, cut: seq<string>, pv: seq<string>, eggs: map<string, seq<string>>)
    requires Distinct(done + rest) && |rest| >= 2 && rest[0].name in cut
    ensures Sweep(done + rest[1..], |done| + 1, cut, pv, Mark(eggs, rest[0], pv)) ==
            (done + Survivors(rest, cut, false), EggsOf(eggs, Examined(rest, cut, false), pv))
    decreases |rest|, 0
  {
    var p, q := rest[0], rest[1];
    var eggs1 := Mark(eggs, p, pv);
    assert done + rest[1..] == (done + [q]) + rest[2..];
    assert |done + [q]| == |done| + 1;
    DistinctShift(done, rest);
    SweepSurvivors(done + [q], rest[2..], cut, pv, eggs1);
    var e := Examined(rest[2..], cut, false);
    var v := Survivors(rest[2..], cut, false);
    assert rest[1..][1..] == rest[2..];
    assert Survivors(rest, cut, false) == Survivors(rest[1..], cut, true) == [q] + v;
    assert done + ([q] + v) == (done + [q]) + v;
    assert Examined(rest, cut, false) == [p] + Examined(rest[1..], cut, true) == [p] + e;
    assert ([p] + e)[1..] == e;
  }

  lemma {:induction false} SurvivorsAfterKeep(done: seq<Descriptor>, rest: seq<Descriptor>, cut: seq<string>, pv: seq<string>, eggs: map<string, seq<string>>)
    requires Distinct(done + rest) && rest != [] && rest[0].name !in cut
    ensures Sweep(done + rest, |done|, cut, pv, eggs) == (done + Survivors(rest, cut, false), EggsOf(eggs, Examined(rest, cut, false), pv))
    decreases |rest|, 0
  {
    var p := rest[0];
    SweepKeepStep(done, rest, cut, pv, eggs);
    assert done + rest == (done + [p]) + rest[1..];
    SweepSurvivors(done + [p], rest[1..], cut, pv, Mark(eggs, p, pv));
    var e := Examined(rest[1..], cut, false);
    assert Examined(rest, cut, false) == [p] + e;
    assert ([p] + e)[1..] == e;
    assert done + ([p] + Survivors(rest[1..], cut, false)) == (done + [p]) + Survivors(rest[1..], cut, false);
  }

  /** Removing one element keeps a list without repeats. */
  lemma DistinctShift(done: seq<Descriptor>, rest: seq<Descriptor>)
    requires |rest| >= 2 && Distinct(done + rest)
    ensures Distinct((done + [rest[1]]) + rest[2..])
  {
    var a := done + rest;
    var b := (done + [rest[1]]) + rest[2..];
    forall i, j | 0 <= i < j < |b| ensures b[i] != b[j] {
      var i' := if i < |done| then i else i + 1;
      var j' := if j < |done| then j else j + 1;
      assert b[i] == a[i'] && b[j] == a[j'];
    }
  }

  /**
   * On every list the loop maps exactly the examined eggs and keeps the
   * elements of `Survivors`, each as often; without repeats it keeps exactly
   * `Survivors`, in order. With repeats the order may differ: `dp.index`
   * pops the first equal element, which may be an earlier skipped copy.
   */
  lemma SweepReading(dp: seq<Descriptor>, cut: seq<string>, pv: seq<string>)
    ensures Sweep(dp, 0, cut, pv, map[]).1 == EggsOf(map[], Examined(dp, cut, false), pv)
    ensures multiset(Sweep(dp, 0, cut, pv, map[]).0) == multiset(Survivors(dp, cut, false))
    ensures Distinct(dp) ==> Sweep(dp, 0, cut, pv, map[]).0 == Survivors(dp, cut, false)
  {
    SweepAnyList(dp, 0, cut, pv, map[]);
    assert dp[0..] == dp && dp[..0] == [];
    if Distinct(dp) {
      var none: seq<Descriptor> := [];
      assert none + dp == dp && |none| == 0;
      SweepSurvivors(none, dp, cut, pv, map[]);
      assert none + Survivors(dp, cut, false) == Survivors(dp, cut, false);
    }
  }

  /** The sweep from position `i` of any list, repeats included. */
  lemma {:induction false} SweepAnyList(dp: seq<Descriptor>, i: nat, cut: seq<string>, pv: seq<string>, eggs: map<string, seq<string>>)
    requires i <= |dp|
    ensures Sweep(dp, i, cut, pv, eggs).1 == EggsOf(eggs, Examined(dp[i..], cut, false), pv)
    ensures multiset(Sweep(dp, i, cut, pv, eggs).0) == multiset(dp[..i]) + multiset(Survivors(dp[i..], cut, false))
    decreases |dp| - i, 1
  {
    if i == |dp| {
      assert dp[i..] == [] && dp[..i] == dp;
    } else {
      var p := dp[i];
      var rest := dp[i..];
      assert rest[0] == p && rest[1..] == dp[i + 1..];
      if p.name !in cut {
        SweepAnyList(dp, i + 1, cut, pv, Mark(eggs, p, pv));
        assert dp[..i + 1] == dp[..i] + [p];
        assert Examined(rest, cut, false) == [p] + Examined(dp[i + 1..], cut, false);
        assert ([p] + Examined(dp[i + 1..], cut, false))[1..] == Examined(dp[i + 1..], cut, false);
      } else {
        var k := PositionOf(dp, p);
        SweepCutAnyList(dp, i, k, cut, pv, eggs);
      }
    }
  }

  /** One cut step of `SweepAnyList`: the popped copy `dp[k]` lies at or before `i`. */
  lemma {:induction false} SweepCutAnyList(dp: seq<Descriptor>, i: nat, k: nat, cut: seq<string>, pv: seq<string>, eggs: map<string, seq<string>>)
    requires i < |dp| && dp[i].name in cut && dp[i] in dp && k == PositionOf(dp, dp[i])
    ensures Sweep(dp, i, cut, pv, eggs).1 == EggsOf(eggs, Examined(dp[i..], cut, false), pv)
    ensures multiset(Sweep(dp, i, cut, pv, eggs).0) == multiset(dp[..i]) + multiset(Survivors(dp[i..], cut, false))
    decreases |dp| - i, 0
  {
    var p := dp[i];
    SweepCutUnfold(dp, i, cut, pv, eggs);
    var dp1 := RemoveAt(dp, k);
    RemoveAtMultiset(dp, k);
    if i + 1 == |dp| {
      CutReadingLast(dp, i, cut, pv, eggs);
      assert Sweep(dp1, i + 1, cut, pv, Mark(eggs, p, pv)) == (dp1, Mark(eggs, p, pv));
      assert multiset(dp) == multiset(dp[..i]) + multiset{p};
      assert dp[k] == p;
      MultisetCancel(multiset(dp1), multiset(dp[..i]), p);
    } else {
      SweepAnyList(dp1, i + 1, cut, pv, Mark(eggs, p, pv));
      CutMultiset(dp, i, k);
      CutReadingStep(dp, i, cut, pv, eggs);
      var v := Survivors(dp[i + 2..], cut, false);
      assert multiset([dp[i + 1]] + v) == multiset{dp[i + 1]} + multiset(v);
    }
  }

  lemma SweepCutUnfold(dp: seq<Descriptor>, i: nat, cut: seq<string>, pv: seq<string>, eggs: map<string, seq<string>>)
    requires i < |dp| && dp[i].name in cut
    ensures Sweep(dp, i, cut, pv, eggs) == Sweep(RemoveAt(dp, PositionOf(dp, dp[i])), i + 1, cut, pv, Mark(eggs, dp[i], pv))
  {
  }

  /** The reading of a cut last element: it is examined and nothing survives it. */
  lemma CutReadingLast(dp: seq<Descriptor>, i: nat, cut: seq<string>, pv: seq<string>, eggs: map<string, seq<string>>)
    requires i + 1 == |dp| && dp[i].name in cut
    ensures EggsOf(eggs, Examined(dp[i..], cut, false), pv) == Mark(eggs, dp[i], pv)
    ensures Survivors(dp[i..], cut, false) == [] && dp == dp[..i] + [dp[i]]
  {
    assert dp[i..] == [dp[i]];
  }

  /** The reading of a cut element with a successor: the successor is skipped and survives. */
  lemma CutReadingStep(dp: seq<Descriptor>, i: nat, cut: seq<string>, pv: seq<string>, eggs: map<string, seq<string>>)
    requires i + 1 < |dp| && dp[i].name in cut
    ensures EggsOf(eggs, Examined(dp[i..], cut, false), pv) == EggsOf(Mark(eggs, dp[i], pv), Examined(dp[i + 2..], cut, false), pv)
    ensures Survivors(dp[i..], cut, false) == [dp[i + 1]] + Survivors(dp[i + 2..], cut, false)
  {
    var rest := dp[i..];
    assert rest[0] == dp[i] && rest[1..] == dp[i + 1..];
    assert rest[1..][0] == dp[i + 1] && rest[1..][1..] == dp[i + 2..];
    var e := Examined(dp[i + 2..], cut, false);
    assert Examined(rest, cut, false) == [dp[i]] + e;
    assert ([dp[i]] + e)[1..] == e;
  }

  /** Popping `dp[k]`, a copy of `dp[i]`, shifts `dp[i + 1]` into the prefix. */
  lemma CutMultiset(dp: seq<Descriptor>, i: nat, k: nat)
    requires k <= i && i + 1 < |dp| && dp[k] == dp[i]
    ensures multiset(RemoveAt(dp, k)[..i + 1]) == multiset(dp[..i]) + multiset{dp[i + 1]}
    ensures RemoveAt(dp, k)[i + 1..] == dp[i + 2..]
  {
    var p, q := dp[i], dp[i + 1];
    RemoveAtPrefix(dp, k, i + 2);
    RemoveAtMultiset(dp[..i + 2], k);
    assert dp[..i + 2][k] == p;
    assert dp[..i + 2] == dp[..i] + [p, q];
    assert multiset(dp[..i + 2]) == (multiset(dp[..i]) + multiset{q}) + multiset{p};
    MultisetCancel(multiset(RemoveAt(dp, k)[..i + 1]), multiset(dp[..i]) + multiset{q}, p);
  }

  lemma MultisetCancel(a: multiset<Descriptor>, b: multiset<Descriptor>, x: Descriptor)
    requires a + multiset{x} == b + multiset{x}
    ensures a == b
  {
    assert a == (a + multiset{x}) - multiset{x};
    assert b == (b + multiset{x}) - multiset{x};
  }

  lemma RemoveAtMultiset(s: seq<Descriptor>, k: nat)
    requires k < |s|
    ensures multiset(RemoveAt(s, k)) + multiset{s[k]} == multiset(s)
  {
    assert s == s[..k] + [s[k]] + s[k + 1..];
  }

  lemma RemoveAtPrefix(s: seq<Descriptor>, k: nat, j: nat)
    requires k < j <= |s|
    ensures RemoveAt(s, k)[..j - 1] == RemoveAt(s[..j], k) && RemoveAt(s, k)[j - 1..] == s[j..]
  {
  }

  /** Popping an element with a cut name keeps every element with another name, and adds none. */
  lemma RemoveKeeps(dp: seq<Descriptor>, k: nat, cut: seq<string>)
    requires k < |dp| && dp[k].name in cut
    ensures forall x :: x in dp && x.name !in cut ==> x in RemoveAt(dp, k)
    ensures forall x :: x in RemoveAt(dp, k) ==> x in dp
  {
    var r := RemoveAt(dp, k);
    forall x | x in dp && x.name !in cut ensures x in r {
      var j :| 0 <= j < |dp| && dp[j] == x;
      if j < k { assert r[j] == x; } else { assert r[j - 1] == x; }
    }
    forall x | x in r ensures x in dp {
      var j :| 0 <= j < |r| && r[j] == x;
      if j < k { assert dp[j] == x; } else { assert dp[j + 1] == x; }
    }
  }

  /** Only elements with a cut name leave the list, and none is added. */
  lemma {:induction false} SweepKeeps(dp: seq<Descriptor>, i: nat, cut: seq<string>, pv: seq<string>, eggs: map<string, seq<string>>)
    ensures var r := Sweep(dp, i, cut, pv, eggs).0;
            (forall x :: x in dp && x.name !in cut ==> x in r) && (forall x :: x in r ==> x in dp)
    decreases |dp| - i
  {
    if i < |dp| {
      var p := dp[i];
      var dp1 := if p.name in cut then RemoveAt(dp, PositionOf(dp, p)) else dp;
      SweepKeeps(dp1, i + 1, cut, pv, Mark(eggs, p, pv));
      if p.name in cut {
        RemoveKeeps(dp, PositionOf(dp, p), cut);
      }
    }
  }

  /** Every name the loop maps is an egg of the list, mapped to `pv`, or was mapped before. */
  lemma {:induction false} SweepEggs(dp: seq<Descriptor>, i: nat, cut: seq<string>, pv: seq<string>, eggs: map<string, seq<string>>, n: string)
    requires n in Sweep(dp, i, cut, pv, eggs).1
    ensures var m := Sweep(dp, i, cut, pv, eggs).1;
            (n in eggs && m[n] == eggs[n]) || (m[n] == pv && exists x :: x in dp && IsEgg(x) && x.name == n)
    decreases |dp| - i
  {
    if i < |dp| {
      var p := dp[i];
      var dp1 := if p.name in cut then RemoveAt(dp, PositionOf(dp, p)) else dp;
      SweepEggs(dp1, i + 1, cut, pv, Mark(eggs, p, pv), n);
      if p.name in cut {
        RemoveKeeps(dp, PositionOf(dp, p), cut);
      }
    }
  }

  /** `python-2.4` then `python-2.5`, both cut: the loop pops the first and never examines the second. */
  lemma SecondPythonSurvives(py24: Descriptor, py25: Descriptor, lib: Descriptor)
    requires py24.name == "python-2.4" && py25.name == "python-2.5" && lib.name == "lib"
    ensures Sweep([py24, py25, lib], 0, PythonNames, [], map[]).0 == [py25, lib]
  {
    var dp := [py24, py25, lib];
    var eggs1 := Mark(map[], py24, []);
    assert PositionOf(dp, py24) == 0;
    assert RemoveAt(dp, 0) == [py25, lib];
    assert Sweep(dp, 0, PythonNames, [], map[]) == Sweep([py25, lib], 1, PythonNames, [], eggs1);
    assert Sweep([py25, lib], 1, PythonNames, [], eggs1) == Sweep([py25, lib], 2, PythonNames, [], Mark(eggs1, lib, []));
  }

  // ---------------------------------------------------------------------------
  // Dropping repeated names

  /** The comprehension that keeps a package only when no kept one has its name. */
  function Unique(kept: seq<Descriptor>, rest: seq<Descriptor>): seq<Descriptor>
    decreases |rest|
  {
    if rest == [] then kept
    else if rest[0].name in Names(kept) then Unique(kept, rest[1..])
    else Unique(kept + [rest[0]], rest[1..])
  }

  method Dedupe(s: seq<Descriptor>) returns (selected: seq<Descriptor>)
    ensures selected == Unique([], s)
  {
    selected := [];
    var i := 0;
    while i < |s|
      invariant 0 <= i <= |s|
      invariant Unique(selected, s[i..]) == Unique([], s)
    {
      assert s[i..][1..] == s[i + 1..];
      var p := s[i];
      var seen := Names(selected);
      if p.name !in seen {
        selected := selected + [p];
      }
      i := i + 1;
    }
  }

  lemma NamesAppend(a: seq<Descriptor>, b: seq<Descriptor>)
    ensures Names(a + b) == Names(a) + Names(b)
  {
    var l := Names(a + b);
    var r := Names(a) + Names(b);
    forall k | 0 <= k < |l| ensures l[k] == r[k] {
      NamesAt(a + b, k);
      if k < |a| { NamesAt(a, k); } else { NamesAt(b, k - |a|); }
    }
  }

  lemma NamesSnoc(kept: seq<Descriptor>, p: Descriptor)
    ensures Names(kept + [p]) == Names(kept) + [p.name]
  {
    NamesAppend(kept, [p]);
    assert Names([p]) == [p.name] + Names([]);
  }

  /** The kept list only grows at its end. */
  lemma {:induction false} UniqueExtends(kept: seq<Descriptor>, rest: seq<Descriptor>)
    ensures |kept| <= |Unique(kept, rest)| && Unique(kept, rest)[..|kept|] == kept
    decreases |rest|
  {
    if rest != [] {
      if rest[0].name in Names(kept) {
        UniqueExtends(kept, rest[1..]);
      } else {
        UniqueExtends(kept + [rest[0]], rest[1..]);
        assert Unique(kept, rest)[..|kept|] == Unique(kept, rest)[..|kept| + 1][..|kept|];
      }
    }
  }

  /** No two kept packages share a name. */
  lemma {:induction false} UniqueDistinct(kept: seq<Descriptor>, rest: seq<Descriptor>)
    requires Distinct(Names(kept))
    ensures Distinct(Names(Unique(kept, rest)))
    decreases |rest|
  {
    if rest != [] {
      if rest[0].name in Names(kept) {
        UniqueDistinct(kept, rest[1..]);
      } else {
        NamesSnoc(kept, rest[0]);
        UniqueDistinct(kept + [rest[0]], rest[1..]);
      }
    }
  }

  /** Every name of the input is kept. */
  lemma {:induction false} UniqueCovers(kept: seq<Descriptor>, rest: seq<Descriptor>, n: string)
    requires n in Names(kept) || n in Names(rest)
    ensures n in Names(Unique(kept, rest))
    decreases |rest|
  {
    if rest != [] {
      var p := rest[0];
      assert Names(rest) == [p.name] + Names(rest[1..]);
      if p.name in Names(kept) {
        UniqueCovers(kept, rest[1..], n);
      } else {
        NamesSnoc(kept, p);
        UniqueCovers(kept + [p], rest[1..], n);
      }
    }
  }

  /** `x` is in `s`, and nothing before its first occurrence has its name. */
  ghost predicate FirstOfName(s: seq<Descriptor>, x: Descriptor)
  {
    exists j :: 0 <= j < |s| && s[j] == x && forall i :: 0 <= i < j ==> s[i].name != x.name
  }

  lemma FirstOfNameCons(s: seq<Descriptor>, x: Descriptor)
    requires s != [] && FirstOfName(s[1..], x) && s[0].name != x.name
    ensures FirstOfName(s, x)
  {
    var j :| 0 <= j < |s[1..]| && s[1..][j] == x && forall i :: 0 <= i < j ==> s[1..][i].name != x.name;
    assert s[j + 1] == x;
    forall i | 0 <= i < j + 1 ensures s[i].name != x.name {
      if i > 0 { assert s[i] == s[1..][i - 1]; }
    }
  }

  /** Each package added after `kept` is the first of its name in the input, and its name was not kept before. */
  lemma {:induction false} UniqueFirst(kept: seq<Descriptor>, rest: seq<Descriptor>, k: nat)
    requires |kept| <= k < |Unique(kept, rest)|
    ensures FirstOfName(rest, Unique(kept, rest)[k]) && Unique(kept, rest)[k].name !in Names(kept)
    decreases |rest|
  {
    var r := Unique(kept, rest);
    var p := rest[0];
    if p.name in Names(kept) {
      UniqueFirst(kept, rest[1..], k);
      FirstOfNameCons(rest, r[k]);
    } else {
      var kept1 := kept + [p];
      NamesSnoc(kept, p);
      UniqueExtends(kept1, rest[1..]);
      if k == |kept| {
        assert r[k] == r[..|kept1|][k] == p;
      } else {
        UniqueFirst(kept1, rest[1..], k);
        FirstOfNameCons(rest, r[k]);
      }
    }
  }

  /**
   * Dropping repeated names keeps the first package of each name, in input
   * order, and a prefix of the input keeps its own result as a prefix.
   */
  lemma DedupeSpec(a: seq<Descriptor>, b: seq<Descriptor>)
    ensures var r := Unique([], a + b);
            Distinct(Names(r)) &&
            (forall x :: x in a + b ==> x.name in Names(r)) &&
            (forall x :: x in r ==> FirstOfName(a + b, x)) &&
            |Unique([], a)| <= |r| && r[..|Unique([], a)|] == Unique([], a)
  {
    var r := Unique([], a + b);
    UniqueDistinct([], a + b);
    forall x | x in a + b ensures x.name in Names(r) {
      NameIn(x, a + b);
      UniqueCovers([], a + b, x.name);
    }
    forall x | x in r ensures FirstOfName(a + b, x) {
      var k :| 0 <= k < |r| && r[k] == x;
      UniqueFirst([], a + b, k);
    }
    UniqueAppend([], a, b);
    UniqueExtends(Unique([], a), b);
  }

  lemma {:induction false} UniqueAppend(kept: seq<Descriptor>, a: seq<Descriptor>, b: seq<Descriptor>)
    ensures Unique(kept, a + b) == Unique(Unique(kept, a), b)
    decreases |a|
  {
    if a != [] {
      assert (a + b)[0] == a[0] && (a + b)[1..] == a[1..] + b;
      if a[0].name in Names(kept) {
        UniqueAppend(kept, a[1..], b);
      } else {
        UniqueAppend(kept + [a[0]], a[1..], b);
      }
    } else {
      assert a + b == b;
    }
  }

  // ---------------------------------------------------------------------------
  // The whole selection

  /** What `_select_pythons` returns: the build list and, per egg, the versions to build it for. */
  datatype Selection = Selection(packages: seq<Descriptor>, pyvers: map<string, seq<string>>)

  /** The dependency tree of the selected pythons, computed from an empty list with the given stack `fuel`. */
  function PythonTree(cats: seq<Catalog>, pv: seq<string>, fuel: nat): Outcome
  {
    Walk(cats, PythonsOf(pv), [], fuel)
  }

  function Select(cats: seq<Catalog>, directs: seq<Descriptor>, packages: seq<Descriptor>, allVersions: bool,
                  installed: set<string>, fuel: nat): Result<Selection, ResolveError>
  {
    var pv := ChooseVersions(directs, packages, allVersions, installed);
    var tree := PythonTree(cats, pv, fuel);
    if tree.Failed? then Err(tree.error)
    else
      var found := Gather(cats, packages);
      if found.Err? then Err(found.error)
      else
        var swept := Sweep(found.value + packages, 0, Names(tree.list) + PythonNames, pv, map[]);
        Ok(Selection(Unique([], tree.list + swept.0), swept.1))
  }

  /**
   * `_select_pythons(packages)`: `directs` are the requested packages as
   * `find_minibuilds` returned them, `packages` the resolved build list.
   */
  method SelectPythons(cats: seq<Catalog>, directs: seq<Descriptor>, packages: seq<Descriptor>, allVersions: bool,
                       installed: set<string>, fuel: nat) returns (r: Result<Selection, ResolveError>)
    ensures r == Select(cats, directs, packages, allVersions, installed, fuel)
  {
    var pyversions := SelectVersions(directs, packages, allVersions, installed);
    var selectedPys := PythonsOf(pyversions);
    var tree := ComputeDependencies(cats, selectedPys, [], fuel);
    if tree.Failed? {
      return Err(tree.error);
    }
    var pyPn := Names(tree.list);
    var dp := GatherDependencies(cats, packages);
    if dp.Err? {
      return Err(dp.error);
    }
    var kept, eggs := CutPythons(dp.value + packages, pyPn + PythonNames, pyversions);
    var selected := Dedupe(tree.list + kept);
    r := Ok(Selection(selected, eggs));
  }

  /**
   * The result starts with the selected pythons' tree (first of each name),
   * repeats no name, and keeps the first package of each name.
   */
  lemma SelectionShape(cats: seq<Catalog>, directs: seq<Descriptor>, packages: seq<Descriptor>, allVersions: bool,
                       installed: set<string>, fuel: nat)
    requires Select(cats, directs, packages, allVersions, installed, fuel).Ok?
    ensures var r := Select(cats, directs, packages, allVersions, installed, fuel).value.packages;
            var tree := PythonTree(cats, ChooseVersions(directs, packages, allVersions, installed), fuel).list;
            |Unique([], tree)| <= |r| && r[..|Unique([], tree)|] == Unique([], tree) &&
            Distinct(Names(r)) &&
            (forall x :: x in tree ==> x.name in Names(r))
  {
    var pv := ChooseVersions(directs, packages, allVersions, installed);
    var tree := PythonTree(cats, pv, fuel).list;
    var found := Gather(cats, packages).value;
    var swept := Sweep(found + packages, 0, Names(tree) + PythonNames, pv, map[]);
    DedupeSpec(tree, swept.0);
    assert forall x :: x in tree ==> x in tree + swept.0;
  }

  /** A resolved package that is no python is kept, under its name. */
  lemma SelectionKeepsPackages(cats: seq<Catalog>, directs: seq<Descriptor>, packages: seq<Descriptor>, allVersions: bool,
                               installed: set<string>, fuel: nat, p: Descriptor)
    requires Select(cats, directs, packages, allVersions, installed, fuel).Ok?
    requires p in packages
    requires p.name !in Names(PythonTree(cats, ChooseVersions(directs, packages, allVersions, installed), fuel).list) + PythonNames
    ensures p.name in Names(Select(cats, directs, packages, allVersions, installed, fuel).value.packages)
  {
    var pv := ChooseVersions(directs, packages, allVersions, installed);
    var tree := PythonTree(cats, pv, fuel).list;
    var found := Gather(cats, packages).value;
    var cut := Names(tree) + PythonNames;
    SweepKeeps(found + packages, 0, cut, pv, map[]);
    var kept := Sweep(found + packages, 0, cut, pv, map[]).0;
    assert p in found + packages;
    DedupeSpec(tree, kept);
  }

  lemma NameHolder(ds: seq<Descriptor>, n: string)
    requires n in Names(ds)
    ensures exists x :: x in ds && x.name == n
  {
    var j :| 0 <= j < |Names(ds)| && Names(ds)[j] == n;
    NamesAt(ds, j);
    assert ds[j] in ds;
  }

  /** Every selected python is listed, when the catalogs store each descriptor under its own name. */
  lemma SelectionListsPythons(cats: seq<Catalog>, directs: seq<Descriptor>, packages: seq<Descriptor>, allVersions: bool,
                              installed: set<string>, fuel: nat, v: string)
    requires WellFormed(cats) && Select(cats, directs, packages, allVersions, installed, fuel).Ok?
    requires v in ChooseVersions(directs, packages, allVersions, installed)
    ensures PythonName(v) in Names(Select(cats, directs, packages, allVersions, installed, fuel).value.packages)
  {
    var pv := ChooseVersions(directs, packages, allVersions, installed);
    var w := PythonTree(cats, pv, fuel);
    assert w.Done?;
    var k :| 0 <= k < |pv| && pv[k] == v;
    assert PythonsOf(pv)[k] == PythonName(v);
    WalkRequestedAt(cats, PythonsOf(pv), [], fuel, PythonName(v));
    NameHolder(w.list, PythonName(v));
    SelectionShape(cats, directs, packages, allVersions, installed, fuel);
  }

  /**
   * The version map holds exactly the names of the eggs the sweep examines
   * in `dependencies + packages`, repeats included, each mapped to the
   * selected versions.
   */
  lemma SelectionMapsExamined(cats: seq<Catalog>, directs: seq<Descriptor>, packages: seq<Descriptor>, allVersions: bool,
                              installed: set<string>, fuel: nat, n: string)
    requires Select(cats, directs, packages, allVersions, installed, fuel).Ok?
    ensures var pv := ChooseVersions(directs, packages, allVersions, installed);
      var cut := Names(PythonTree(cats, pv, fuel).list) + PythonNames;
      var m := Select(cats, directs, packages, allVersions, installed, fuel).value.pyvers;
      && (n in m <==> exists x :: x in Examined(Gather(cats, packages).value + packages, cut, false) && IsEgg(x) && x.name == n)
      && (n in m ==> m[n] == pv)
  {
    var pv := ChooseVersions(directs, packages, allVersions, installed);
    var cut := Names(PythonTree(cats, pv, fuel).list) + PythonNames;
    var dp := Gather(cats, packages).value + packages;
    SweepReading(dp, cut, pv);
    EggsOfSpec(map[], Examined(dp, cut, false), pv, n);
  }

  /** Every version map entry is an egg of the list, mapped to the selected versions. */
  lemma SelectionEggs(cats: seq<Catalog>, directs: seq<Descriptor>, packages: seq<Descriptor>, allVersions: bool,
                      installed: set<string>, fuel: nat, n: string)
    requires Select(cats, directs, packages, allVersions, installed, fuel).Ok?
    requires n in Select(cats, directs, packages, allVersions, installed, fuel).value.pyvers
    ensures Select(cats, directs, packages, allVersions, installed, fuel).value.pyvers[n] == ChooseVersions(directs, packages, allVersions, installed)
    ensures exists x :: x in Gather(cats, packages).value + packages && IsEgg(x) && x.name == n
  {
    var pv := ChooseVersions(directs, packages, allVersions, installed);
    var tree := PythonTree(cats, pv, fuel).list;
    var found := Gather(cats, packages).value;
    SweepEggs(found + packages, 0, Names(tree) + PythonNames, pv, map[], n);
  }
}
