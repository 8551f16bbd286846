/**
 * `Minimerge.main` of minitage.core.core once the minibuilds are known: the
 * build list it derives (dependencies, jump cut, python selection, merge,
 * filters), the binary archive URLs and `_fetch`'s loop over them, and which
 * packages reach `_do_action`.
 */
module MainFlow {
  import opened Wrappers
  import opened Text
  import opened Objects
  import opened Resolver
  import opened Store
  import opened Files
  import Collections
  import Pythons

  // --------------------------------------------------------- architecture

  /** `get_default_arch` on the machine name (`uname()[4]`): `64` when it contains `64`, else `32`. */
  function DefaultArch(machine: string): (r: string)
    ensures r == "64" <==> Contains(machine, "64")
    ensures r == "32" <==> !Contains(machine, "64")
  {
    if Contains(machine, "64") then "64" else "32"
  }

  /** One binary archive URL: `<base>/<platform>/<arch>/<name>-binary.tar.gz`. */
  function BinaryUrl(base: string, platform: string, arch: string, name: string): (r: string)
    ensures IsPrefix(base + "/", r) && IsSuffix("/" + name + "-binary.tar.gz", r)
  {
    var r := base + "/" + platform + "/" + arch + "/" + name + "-binary.tar.gz";
    assert r[..|base + "/"|] == base + "/";
    assert r[|r| - |"/" + name + "-binary.tar.gz"|..] == "/" + name + "-binary.tar.gz";
    r
  }

  /** `get_binary_urls`: one archive URL per configured base URL, in order. */
  method GetBinaryUrls(bases: seq<string>, platform: string, arch: string, d: Descriptor) returns (urls: seq<string>)
    ensures |urls| == |bases|
    ensures forall k :: 0 <= k < |bases| ==> urls[k] == BinaryUrl(bases[k], platform, arch, d.name)
  {
    urls := [];
    var src := d.name + "-binary.tar.gz";
    var i := 0;
    while i < |bases|
      invariant 0 <= i <= |bases| && |urls| == i
      invariant forall k :: 0 <= k < i ==> urls[k] == BinaryUrl(bases[k], platform, arch, d.name)
    {
      urls := urls + [bases[i] + "/" + platform + "/" + arch + "/" + src];
      i := i + 1;
    }
  }

  // ----------------------------------------------------- the build list

  /** The packages whose names are not listed, in order (the list comprehensions of `main`). */
  function WithoutNames(ds: seq<Descriptor>, names: seq<string>): (r: seq<Descriptor>)
    ensures |r| <= |ds|
  {
    if ds == [] then []
    else if ds[0].name in names then WithoutNames(ds[1..], names)
    else [ds[0]] + WithoutNames(ds[1..], names)
  }

  /** A package is kept iff it is listed and its name is not excluded. */
  lemma {:induction false} WithoutNamesMember(ds: seq<Descriptor>, names: seq<string>, d: Descriptor)
    ensures d in WithoutNames(ds, names) <==> d in ds && d.name !in names
  {
    if ds != [] {
      WithoutNamesMember(ds[1..], names, d);
      if d != ds[0] && d in ds {
        assert d in ds[1..];
      }
    }
  }

  /** A name the list does not hold is not in the filtered list either. */
  lemma {:induction false} WithoutNamesAbsent(ds: seq<Descriptor>, names: seq<string>, n: string)
    requires n !in Names(ds)
    ensures n !in Names(WithoutNames(ds, names))
  {
    if ds != [] {
      assert Names(ds) == [ds[0].name] + Names(ds[1..]);
      WithoutNamesAbsent(ds[1..], names, n);
      assert Names([ds[0]] + WithoutNames(ds[1..], names)) == [ds[0].name] + Names(WithoutNames(ds[1..], names));
    }
  }

  /** The first name of a list with distinct names is not repeated in its tail, whose names stay distinct. */
  lemma DistinctTail(ds: seq<Descriptor>)
    requires ds != [] && Distinct(Names(ds))
    ensures ds[0].name !in Names(ds[1..]) && Distinct(Names(ds[1..]))
  {
    assert Names(ds) == [ds[0].name] + Names(ds[1..]);
    forall k | 0 <= k < |Names(ds[1..])|
      ensures Names(ds[1..])[k] == Names(ds)[k + 1]
    {
    }
  }

  /** Filtering keeps the names distinct. */
  lemma {:induction false} WithoutNamesDistinct(ds: seq<Descriptor>, names: seq<string>)
    requires Distinct(Names(ds))
    ensures Distinct(Names(WithoutNames(ds, names)))
  {
    if ds != [] {
      var rest := WithoutNames(ds[1..], names);
      DistinctTail(ds);
      WithoutNamesDistinct(ds[1..], names);
      if ds[0].name !in names {
        WithoutNamesAbsent(ds[1..], names, ds[0].name);
        assert Names([ds[0]] + rest) == [ds[0].name] + Names(rest);
      }
    }
  }

  /**
   * `_cut_jumped_packages`: from the first package named like the jump
   * target on. A target no minilay has, or one not in the list, leaves the
   * list as it is (the exception is swallowed).
   */
  function CutJumped(cats: seq<Catalog>, jump: string, packages: seq<Descriptor>): (r: seq<Descriptor>)
    ensures |r| <= |packages| && r == packages[|packages| - |r|..]
  {
    if Find(cats, jump).None? then packages
    else match Collections.FirstIndex(Names(packages), jump)
      case Ok(i) => packages[i..]
      case Err(_) => packages
  }

  /** Where the cut starts: at the first package named like the target, when one is listed. */
  lemma CutStartsAtTarget(cats: seq<Catalog>, jump: string, packages: seq<Descriptor>)
    requires Find(cats, jump).Some? && jump in Names(packages)
    ensures var r := CutJumped(cats, jump, packages);
      |r| > 0 && r[0].name == jump && jump !in Names(packages[..|packages| - |r|])
  {
    var i := Collections.FirstIndex(Names(packages), jump).value;
    NamesAt(packages, i);
    var pre := packages[..i];
    forall k | 0 <= k < i
      ensures Names(pre)[k] == Names(packages)[..i][k]
    {
      NamesAt(pre, k);
      NamesAt(packages, k);
    }
    assert Names(pre) == Names(packages)[..i];
  }

  /** Cutting a second time, as `main` does after the merge, changes nothing more on a cut list. */
  lemma CutTwice(cats: seq<Catalog>, jump: string, packages: seq<Descriptor>)
    ensures CutJumped(cats, jump, CutJumped(cats, jump, packages)) == CutJumped(cats, jump, packages)
  {
    var r := CutJumped(cats, jump, packages);
    if Find(cats, jump).Some? && jump in Names(packages) {
      CutStartsAtTarget(cats, jump, packages);
      NamesAt(r, 0);
      assert Collections.FirstIndex(Names(r), jump) == Ok(0);
    }
  }

  /**
   * The merge of `main`: the python tree without the requested packages,
   * then every package of the build list whose name is not there yet.
   */
  function Merge(pypackages: seq<Descriptor>, directs: seq<Descriptor>, packages: seq<Descriptor>): seq<Descriptor>
  {
    Pythons.Unique(WithoutNames(pypackages, Names(directs)), packages)
  }

  /**
   * The merged list starts with the python tree minus the requested
   * packages, names every package of the build list, and repeats no name
   * when the tree does not.
   */
  lemma MergeShape(pypackages: seq<Descriptor>, directs: seq<Descriptor>, packages: seq<Descriptor>)
    requires Distinct(Names(pypackages))
    ensures var base := WithoutNames(pypackages, Names(directs));
      var r := Merge(pypackages, directs, packages);
      && |base| <= |r| && r[..|base|] == base
      && Distinct(Names(r))
      && forall n :: n in Names(packages) ==> n in Names(r)
  {
    var base := WithoutNames(pypackages, Names(directs));
    Pythons.UniqueExtends(base, packages);
    WithoutNamesDistinct(pypackages, Names(directs));
    Pythons.UniqueDistinct(base, packages);
    forall n | n in Names(packages)
      ensures n in Names(Merge(pypackages, directs, packages))
    {
      Pythons.UniqueCovers(base, packages, n);
    }
  }

  /** The merge as `main` writes it: the filter, then appending in a loop. */
  method MergeSelected(pypackages: seq<Descriptor>, directs: seq<Descriptor>, packages: seq<Descriptor>)
    returns (merged: seq<Descriptor>)
    ensures merged == Merge(pypackages, directs, packages)
  {
    merged := WithoutNames(pypackages, Names(directs));
    var i := 0;
    while i < |packages|
      invariant 0 <= i <= |packages|
      invariant Pythons.Unique(merged, packages[i..]) == Merge(pypackages, directs, packages)
    {
      assert packages[i..][1..] == packages[i + 1..];
      var p := packages[i];
      if p.name !in Names(merged) {
        merged := merged + [p];
      }
      i := i + 1;
    }
    assert packages[i..] == [];
  }

  /** Whether a package has anything to do: the filter at the end of `main`'s list building. */
  predicate HasWork(e: Engine, d: Descriptor)
  {
    ToBeInstalled(e, d) || ToBeReinstalled(e, d) || ToBeUpgraded(e, d)
    || ToBeUpdated(e, d) || ToBeDeleted(e, d) || e.action == "generate_env"
  }

  /**
   * Which packages have work, in the terms of the store: a missing package
   * under an install action, an installed one under `reinstall` or `delete`,
   * in update mode, or with a new revision under an install action; every
   * package under `generate_env`.
   */
  lemma HasWorkCases(e: Engine, d: Descriptor)
    ensures HasWork(e, d) <==>
      || e.action == "generate_env"
      || (!Installed(e, d) && InstallLike(e.action))
      || (Installed(e, d) && (e.action == "reinstall" || e.action == "delete" || e.update
                              || (InstallLike(e.action) && HasNewRevision(e, d))))
  {
  }

  /** The packages with work, in order. */
  function WorkList(e: Engine, ds: seq<Descriptor>): (r: seq<Descriptor>)
    ensures |r| <= |ds|
  {
    if ds == [] then []
    else if HasWork(e, ds[0]) then [ds[0]] + WorkList(e, ds[1..])
    else WorkList(e, ds[1..])
  }

  /** A package stays in the work list iff it was listed and has work. */
  lemma {:induction false} WorkListMember(e: Engine, ds: seq<Descriptor>, d: Descriptor)
    ensures d in WorkList(e, ds) <==> d in ds && HasWork(e, d)
  {
    if ds != [] {
      WorkListMember(e, ds[1..], d);
      if d != ds[0] && d in ds {
        assert d in ds[1..];
      }
    }
  }

  /** The options of `main` that shape the build list. */
  datatype Request = Request(packages: seq<string>, nodeps: bool, jump: Option<string>, onlyDependencies: bool, allVersions: bool)

  /** The list `main` starts from: the dependency closure, or with `nodeps` the requested minibuilds alone. */
  function Resolved(cats: seq<Catalog>, req: Request, fuel: nat): Result<seq<Descriptor>, ResolveError>
  {
    if !req.nodeps then
      var o := Walk(cats, req.packages, [], fuel);
      if o.Failed? then Err(o.error) else Ok(o.list)
    else Pythons.LookupAll(cats, req.packages)
  }

  function MaybeCut(cats: seq<Catalog>, jump: Option<string>, packages: seq<Descriptor>): seq<Descriptor>
  {
    if jump.Some? then CutJumped(cats, jump.value, packages) else packages
  }

  /** The list after the python selection, before the last cut and the filters. */
  function Selected(cats: seq<Catalog>, req: Request, directs: seq<Descriptor>, packages: seq<Descriptor>,
                    sel: Pythons.Selection): seq<Descriptor>
  {
    if req.nodeps then packages else Merge(sel.packages, directs, packages)
  }

  /** The first package of the list without a category, if any. */
  function FirstUncategorised(ds: seq<Descriptor>): (r: Option<Descriptor>)
    ensures r.None? <==> forall k :: 0 <= k < |ds| ==> !Uncategorised(ds[k])
    ensures r.Some? ==>
      (exists k :: 0 <= k < |ds| && ds[k] == r.value && Uncategorised(r.value)
         && (forall j :: 0 <= j < k ==> !Uncategorised(ds[j])))
  {
    if ds == [] then None
    else if Uncategorised(ds[0]) then Some(ds[0])
    else
      var r := FirstUncategorised(ds[1..]);
      assert forall k :: 1 <= k < |ds| ==> ds[k] == ds[1..][k - 1];
      r
  }

  /**
   * Why `main`'s list building stops: the dependency walk, the lookups or
   * the python selection raised, or the work filter met a package whose
   * install path cannot be joined (`is_installed`, which every test of the
   * filter asks first, raises `AttributeError` there).
   */
  datatype PlanError = Unresolved(cause: ResolveError) | CategoryMissing(name: string)

  /**
   * The stack `_select_pythons` walks with: it is called from `main`, so its
   * own `_compute_dependencies` starts one frame deeper than `main`'s; with
   * no stack left the call itself fails as the walk would.
   */
  function Deeper(fuel: nat): nat
  {
    if fuel == 0 then 0 else fuel - 1
  }

  /**
   * The build list of `main` and the python versions it records in `pyvers`.
   * `installed` is the directory listing of `dependencies/`; `fuel` is the
   * stack left in `main`.
   */
  function Plan(cats: seq<Catalog>, req: Request, e: Engine, installed: set<string>, fuel: nat)
    : Result<(seq<Descriptor>, map<string, seq<string>>), PlanError>
  {
    var resolved := Resolved(cats, req, fuel);
    if resolved.Err? then Err(Unresolved(resolved.error))
    else
      var directs := Pythons.LookupAll(cats, req.packages);
      if directs.Err? then Err(Unresolved(directs.error))
      else
        var packages := MaybeCut(cats, req.jump, resolved.value);
        var sel := Pythons.Select(cats, directs.value, packages, req.allVersions, installed, Deeper(fuel));
        if sel.Err? then Err(Unresolved(sel.error))
        else
          var merged := MaybeCut(cats, req.jump, Selected(cats, req, directs.value, packages, sel.value));
          var kept := if req.onlyDependencies then WithoutNames(merged, req.packages) else merged;
          match FirstUncategorised(kept)
          case Some(d) => Err(CategoryMissing(d.name))
          case None => Ok((WorkList(e.(pyvers := sel.value.pyvers), kept), sel.value.pyvers))
  }

  /**
   * Every package of the plan has work under the selected python versions,
   * and with `only_dependencies` none of the requested packages is left.
   */
  lemma PlanFilters(cats: seq<Catalog>, req: Request, e: Engine, installed: set<string>, fuel: nat, d: Descriptor)
    requires Plan(cats, req, e, installed, fuel).Ok?
    requires d in Plan(cats, req, e, installed, fuel).value.0
    ensures HasWork(e.(pyvers := Plan(cats, req, e, installed, fuel).value.1), d)
    ensures req.onlyDependencies ==> d.name !in req.packages
    ensures IsMeta(d) || InstallPath(e.prefix, d).Some?
  {
    var resolved := Resolved(cats, req, fuel).value;
    var directs := Pythons.LookupAll(cats, req.packages).value;
    var packages := MaybeCut(cats, req.jump, resolved);
    var sel := Pythons.Select(cats, directs, packages, req.allVersions, installed, Deeper(fuel)).value;
    var merged := MaybeCut(cats, req.jump, Selected(cats, req, directs, packages, sel));
    var kept := if req.onlyDependencies then WithoutNames(merged, req.packages) else merged;
    WorkListMember(e.(pyvers := sel.pyvers), kept, d);
    assert FirstUncategorised(kept).None?;
    assert !Uncategorised(d) by {
      var k :| 0 <= k < |kept| && kept[k] == d;
    }
    if req.onlyDependencies {
      WithoutNamesMember(merged, req.packages, d);
    }
  }

  /** `main`'s list building as the sequence of calls it makes. */
  method PlanPackages(cats: seq<Catalog>, req: Request, e: Engine, installed: set<string>, fuel: nat)
    returns (r: Result<(seq<Descriptor>, map<string, seq<string>>), PlanError>)
    ensures r == Plan(cats, req, e, installed, fuel)
  {
    var packages: seq<Descriptor>;
    if !req.nodeps {
      var o := ComputeDependencies(cats, req.packages, [], fuel);
      if o.Failed? {
        return Err(Unresolved(o.error));
      }
      packages := o.list;
    } else {
      var found := Pythons.LookupEach(cats, req.packages);
      if found.Err? {
        return Err(Unresolved(found.error));
      }
      packages := found.value;
    }
    var directs := Pythons.LookupEach(cats, req.packages);
    if directs.Err? {
      return Err(Unresolved(directs.error));
    }
    if req.jump.Some? {
      packages := CutJumped(cats, req.jump.value, packages);
    }
    var sel := Pythons.SelectPythons(cats, directs.value, packages, req.allVersions, installed, Deeper(fuel));
    if sel.Err? {
      return Err(Unresolved(sel.error));
    }
    var pyvers := sel.value.pyvers;
    if !req.nodeps {
      packages := MergeSelected(sel.value.packages, directs.value, packages);
    }
    if req.jump.Some? {
      packages := CutJumped(cats, req.jump.value, packages);
    }
    if req.onlyDependencies {
      packages := WithoutNames(packages, req.packages);
    }
    var missing := FirstUncategorised(packages);
    if missing.Some? {
      return Err(CategoryMissing(missing.value.name));
    }
    packages := WorkList(e.(pyvers := pyvers), packages);
    r := Ok((packages, pyvers));
  }

  // ----------------------------------------------------------------- _fetch

  /** One URL `_fetch` may try: a binary archive or the package's own source. */
  datatype Attempt = Attempt(isBinary: bool, url: string)

  /** The URLs in the order `_fetch` tries them: the binary archives when binaries are used, then the source. */
  function Sources(useBinaries: bool, binaryUrls: seq<string>, d: Descriptor): (r: seq<Attempt>)
    ensures |r| > 0 && r[|r| - 1] == Attempt(false, d.srcUri)
    ensures forall k :: 0 <= k < |r| - 1 ==> r[k].isBinary
  {
    (if useBinaries then BinarySources(binaryUrls) else []) + [Attempt(false, d.srcUri)]
  }

  function BinarySources(urls: seq<string>): (r: seq<Attempt>)
    ensures |r| == |urls| && forall k :: 0 <= k < |r| ==> r[k] == Attempt(true, urls[k])
  {
    if urls == [] then [] else [Attempt(true, urls[0])] + BinarySources(urls[1..])
  }

  /**
   * The fetchers' side of `_fetch`: the URLs whose fetch or update raises,
   * and what `_has_uri_changed` answers for the binary and the source fetcher.
   */
  datatype Fetcher = Fetcher(failing: set<string>, binaryUriChanged: bool, sourceUriChanged: bool)

  datatype FetchError =
    | CheckFailed(cause: FetchCheckError)
    | FetcherFailed(url: string)
      /** `downloaded` read before any assignment (a `NameError`). */
    | DownloadedUnbound

  /** The local state `_fetch` carries from one URL to the next: the history and `downloaded` (`None` while unbound). */
  datatype FetchState = FetchState(history: History, downloaded: Option<bool>)

  /**
   * One pass of `_fetch`'s loop body: the new state, and either the exception
   * raised or whether the package now counts as fetched from a binary.
   * `check` is what `is_package_src_to_be_fetched` answers.
   */
  function Try(e: Engine, d: Descriptor, src: Attempt, check: Result<bool, FetchCheckError>, f: Fetcher, st: FetchState)
    : (FetchState, Result<bool, FetchError>)
  {
    var ip := InstallPath(e.prefix, d);
    if check.Err? then (st, Err(CheckFailed(check.error)))
    else if check.value && src.url in f.failing then (st, Err(FetcherFailed(src.url)))
    else
      var st1 := if check.value then FetchState(WithMark(st.history, ip, "fetch", "fetch"), Some(true)) else st;
      var update := SrcToBeUpdated(e.(history := st1.history), d);
      var changed := if src.isBinary then f.binaryUriChanged else f.sourceUriChanged;
      var used := if changed then d.srcUri else src.url;
      if update && used in f.failing then (st1, Err(FetcherFailed(used)))
      else
        var st2 := if update then FetchState(WithMark(st1.history, ip, "fetch", "fetch"), Some(true)) else st1;
        if src.isBinary && st2.downloaded.None? then (st2, Err(DownloadedUnbound))
        else (st2, Ok(src.isBinary && st2.downloaded.value))
  }

  /** `_fetch`'s loop: the first pass that does not raise ends it; an exception on a binary URL moves to the next one. */
  function FetchFrom(e: Engine, d: Descriptor, srcs: seq<Attempt>, check: Result<bool, FetchCheckError>, f: Fetcher,
                     st: FetchState): (FetchState, Result<bool, FetchError>)
    decreases |srcs|
  {
    if srcs == [] then (st, Ok(false))
    else
      var (st1, r) := Try(e, d, srcs[0], check, f, st);
      if r.Ok? || !srcs[0].isBinary then (st1, r)
      else FetchFrom(e, d, srcs[1..], check, f, st1)
  }

  /** The source URL decides: `_fetch` raises only when the pass on a non-binary URL raised. */
  lemma {:induction false} FetchErrorsFromSource(e: Engine, d: Descriptor, srcs: seq<Attempt>, check: Result<bool, FetchCheckError>,
                                                  f: Fetcher, st: FetchState)
    requires FetchFrom(e, d, srcs, check, f, st).1.Err?
    ensures exists k :: 0 <= k < |srcs| && !srcs[k].isBinary
    decreases |srcs|
  {
    var (st1, r) := Try(e, d, srcs[0], check, f, st);
    if r.Ok? || !srcs[0].isBinary {
    } else {
      FetchErrorsFromSource(e, d, srcs[1..], check, f, st1);
      var k :| 0 <= k < |srcs[1..]| && !srcs[1..][k].isBinary;
      assert !srcs[k + 1].isBinary;
    }
  }

  /**
   * A binary archive is skipped when nothing needs fetching or updating:
   * `downloaded` is then unbound, the `NameError` is swallowed like a failed
   * download, and the source URL is used instead.
   */
  lemma UnboundDownloadSkipsBinary(e: Engine, d: Descriptor, binary: string, f: Fetcher)
    requires !SrcToBeUpdated(e, d)
    ensures var st := FetchState(e.history, None);
      FetchFrom(e, d, [Attempt(true, binary), Attempt(false, d.srcUri)], Ok(false), f, st) == (st, Ok(false))
  {
    var st := FetchState(e.history, None);
    var srcs := [Attempt(true, binary), Attempt(false, d.srcUri)];
    assert Try(e, d, srcs[0], Ok(false), f, st) == (st, Err(DownloadedUnbound));
    assert srcs[1..] == [Attempt(false, d.srcUri)];
  }

  /** A missing directory is fetched from the first URL that works, which then carries the `fetch` marker. */
  lemma FetchMarks(e: Engine, d: Descriptor, src: Attempt, f: Fetcher, st: FetchState)
    requires InstallPath(e.prefix, d).Some? && src.url !in f.failing
    ensures var (st1, r) := Try(e, d, src, Ok(true), f, st);
      (InstallPath(e.prefix, d).value, "fetch") in st1.history.marks && st1.downloaded == Some(true)
  {
    var ip := InstallPath(e.prefix, d);
    var st1 := FetchState(WithMark(st.history, ip, "fetch", "fetch"), Some(true));
    assert (ip.value, "fetch") in st1.history.marks;
    var st2 := FetchState(WithMark(st1.history, ip, "fetch", "fetch"), Some(true));
    assert (ip.value, "fetch") in st2.history.marks;
    assert Try(e, d, src, Ok(true), f, st).0 in {st1, st2};
  }

  /** `_fetch` on a Minimerge: tries each URL, sets markers and records a package fetched from a binary. */
  method Fetch(m: Minimerge, d: Descriptor, srcs: seq<Attempt>, check: Result<bool, FetchCheckError>, f: Fetcher)
    returns (err: Option<FetchError>)
    modifies m
    ensures var (st, r) := FetchFrom(old(m.engine), d, srcs, check, f, FetchState(old(m.engine).history, None));
      && m.engine == old(m.engine).(history := st.history)
      && m.binaries == old(m.binaries) + (if r == Ok(true) then [d] else [])
      && err == (if r.Err? then Some(r.error) else None)
  {
    ghost var e0 := m.engine;
    var st := FetchState(m.engine.history, None);
    var i := 0;
    err := None;
    while i < |srcs|
      invariant 0 <= i <= |srcs|
      invariant m.engine == e0 && m.binaries == old(m.binaries)
      invariant FetchFrom(e0, d, srcs[i..], check, f, st) == FetchFrom(e0, d, srcs, check, f, FetchState(e0.history, None))
    {
      assert srcs[i..][0] == srcs[i] && srcs[i..][1..] == srcs[i + 1..];
      var (st1, r) := Try(m.engine, d, srcs[i], check, f, st);
      st := st1;
      if r.Ok? {
        if r.value {
          m.binaries := m.binaries + [d];
        }
        m.engine := m.engine.(history := st.history);
        return None;
      }
      if !srcs[i].isBinary {
        m.engine := m.engine.(history := st.history);
        return Some(r.error);
      }
      i := i + 1;
    }
    assert srcs[i..] == [];
    m.engine := m.engine.(history := st.history);
  }

  // ------------------------------------------------------- acting on the list

  datatype RunError = PackageUnbound

  /**
   * The `_do_action` calls `main` makes once the packages are fetched.
   * Fetching first, the test whether to act reads the loop variable left
   * over from the fetch loop, so the last package alone decides for the
   * whole list, and an empty list reads an unbound name. Fetching just in
   * time, each package that is not a `meta-` one and was not fetched from a
   * binary gets its own call.
   */
  function ActionCalls(packages: seq<Descriptor>, binaries: seq<Descriptor>, fetchFirst: bool, fetchOnly: bool)
    : Result<seq<seq<Descriptor>>, RunError>
  {
    if fetchFirst then
      if fetchOnly then Ok([])
      else if packages == [] then Err(PackageUnbound)
      else if packages[|packages| - 1] in binaries then Ok([])
      else Ok([packages])
    else if fetchOnly then Ok([])
    else Ok(JustInTime(packages, binaries))
  }

  function JustInTime(packages: seq<Descriptor>, binaries: seq<Descriptor>): (r: seq<seq<Descriptor>>)
    ensures forall k :: 0 <= k < |r| ==> |r[k]| == 1 && r[k][0] in packages && !IsMeta(r[k][0]) && r[k][0] !in binaries
  {
    if packages == [] then []
    else if !IsMeta(packages[0]) && packages[0] !in binaries then [[packages[0]]] + JustInTime(packages[1..], binaries)
    else JustInTime(packages[1..], binaries)
  }

  /**
   * Fetching first, a package fetched from a binary is still built when it is
   * not last, and nothing is built when the last one came from a binary.
   */
  lemma FetchFirstReadsLastPackage(packages: seq<Descriptor>, binaries: seq<Descriptor>, k: nat)
    requires k < |packages| && !(packages[|packages| - 1] in binaries)
    ensures ActionCalls(packages, binaries, true, false) == Ok([packages])
    ensures packages[k] in ActionCalls(packages, binaries, true, false).value[0]
  {
  }

  /** Fetching just in time, a package fetched from a binary is never handed to `_do_action`. */
  lemma {:induction false} JustInTimeSkipsBinaries(packages: seq<Descriptor>, binaries: seq<Descriptor>, d: Descriptor)
    ensures [d] in JustInTime(packages, binaries) <==> d in packages && !IsMeta(d) && d !in binaries
  {
    if packages != [] {
      JustInTimeSkipsBinaries(packages[1..], binaries, d);
      if d != packages[0] && d in packages {
        assert d in packages[1..];
      }
    }
  }

  // ------------------------------------------------- the plan and the answer

  /**
   * The `minibuild` section of a package's own configuration, keyed here by
   * the minibuild's path; a configuration without one reads as empty.
   */
  function SectionOf(sections: map<string, Section>, d: Descriptor): Section
  {
    if d.path in sections then sections[d.path] else map[]
  }

  /** `is_package_src_to_be_fetched` for each package, in order. */
  function Checks(t: Tree, e: Engine, packages: seq<Descriptor>, sections: map<string, Section>)
    : (r: seq<Result<bool, FetchCheckError>>)
    ensures |r| == |packages|
    ensures forall k :: 0 <= k < |packages| ==> r[k] == SrcToBeFetched(t, e, packages[k], SectionOf(sections, packages[k]))
  {
    seq(|packages|, k requires 0 <= k < |packages| => SrcToBeFetched(t, e, packages[k], SectionOf(sections, packages[k])))
  }

  /** The error of the first check that raises, if any. */
  function FirstFailure(checks: seq<Result<bool, FetchCheckError>>): (r: Option<FetchCheckError>)
    ensures r.None? <==> forall k :: 0 <= k < |checks| ==> checks[k].Ok?
    ensures r.Some? ==>
      (exists k :: 0 <= k < |checks| && checks[k] == Err(r.value) && (forall j :: 0 <= j < k ==> checks[j].Ok?))
  {
    if checks == [] then None
    else if checks[0].Err? then Some(checks[0].error)
    else
      var rest := FirstFailure(checks[1..]);
      assert forall k :: 1 <= k < |checks| ==> checks[k] == checks[1..][k - 1];
      rest
  }

  /**
   * The `pretend` pass `main` always makes over the planned packages before
   * asking anything: for each package in order, `is_package_src_to_be_fetched`
   * is evaluated first and the other decisions cannot raise, so the pass
   * fails with the first package's check that raises.
   */
  function PretendError(t: Tree, e: Engine, packages: seq<Descriptor>, sections: map<string, Section>)
    : Option<FetchCheckError>
  {
    FirstFailure(Checks(t, e, packages, sections))
  }

  /**
   * Whether `main` goes on once the plan is logged: never in pretend mode,
   * and when asking only on an answer that lowers to `y`, `yes` or nothing;
   * without asking the answer is empty.
   */
  predicate Proceeds(pretend: bool, ask: bool, answer: string)
  {
    var a := if ask then Lower(answer) else "";
    !pretend && (a == "y" || a == "" || a == "yes")
  }

  /**
   * Pretend mode always stops; a run that does not ask and does not pretend
   * always goes on; asking, the answers `YES` and `Y` go on as `yes` does,
   * and `n` stops.
   */
  lemma ProceedsCases(pretend: bool, ask: bool, answer: string)
    ensures pretend ==> !Proceeds(pretend, ask, answer)
    ensures !pretend && !ask ==> Proceeds(pretend, ask, answer)
    ensures !pretend && ask && (answer == "YES" || answer == "Y" || answer == "") ==> Proceeds(pretend, ask, answer)
    ensures ask && answer == "n" ==> !Proceeds(pretend, ask, answer)
  {
  }

  datatype MainError = PlanFailed(check: FetchCheckError) | ActionFailed(run: RunError)

  /** What `main` does after selecting the packages: stop after the plan, or make its `_do_action` calls. */
  datatype Stage = Stopped | Acting(calls: seq<seq<Descriptor>>)

  /** The end of `main`: the `pretend` pass, the stop decision, then the actions. */
  function AfterPlan(t: Tree, e: Engine, packages: seq<Descriptor>, sections: map<string, Section>,
                     binaries: seq<Descriptor>, pretend: bool, ask: bool, answer: string, fetchFirst: bool, fetchOnly: bool)
    : Result<Stage, MainError>
  {
    match PretendError(t, e, packages, sections)
    case Some(err) => Err(PlanFailed(err))
    case None =>
      if !Proceeds(pretend, ask, answer) then Ok(Stopped)
      else
        match ActionCalls(packages, binaries, fetchFirst, fetchOnly)
        case Ok(calls) => Ok(Acting(calls))
        case Err(x) => Err(ActionFailed(x))
  }

  /**
   * Nothing is fetched or built unless the plan passes and the run proceeds;
   * an incomplete buildout checkout fails the run even in pretend mode, before
   * any question is asked; and pretend mode otherwise stops.
   */
  lemma AfterPlanStops(t: Tree, e: Engine, packages: seq<Descriptor>, sections: map<string, Section>,
                       binaries: seq<Descriptor>, pretend: bool, ask: bool, answer: string, fetchFirst: bool, fetchOnly: bool)
    ensures var r := AfterPlan(t, e, packages, sections, binaries, pretend, ask, answer, fetchFirst, fetchOnly);
      var checks := Checks(t, e, packages, sections);
      && (r.Ok? && r.value.Acting? ==>
            (Proceeds(pretend, ask, answer) && (forall k :: 0 <= k < |checks| ==> checks[k].Ok?)))
      && (pretend ==> r.Err? || r == Ok(Stopped))
      && (r.Err? && r.error.PlanFailed? ==>
            (exists k :: 0 <= k < |checks| && checks[k] == Err(r.error.check)))
      && ((exists k :: 0 <= k < |checks| && checks[k].Err?) ==> r.Err? && r.error.PlanFailed?)
  {
  }
}
