/**
 * The dependency resolver of minitage.core.core: `find_minibuild(s)` over an
 * ordered list of catalogs (the minilays) and `compute_dependencies`, which
 * inserts every package of a dependency tree into one ordered build list.
 *
 * Python detects a circular tree only by running out of stack; the model
 * makes the call depth an explicit `fuel` and reports `RecursionLimit` when
 * it is spent, which the calling frame turns into `Circular`.
 */
module Resolver {
  import opened Wrappers
  import opened Objects

  /** One minilay: each name maps to the outcome of loading its descriptor. */
  type Catalog = map<string, Result<Descriptor, LoadError>>

  datatype ResolveError =
    | NotFound(name: string)
    | LoadFailed(name: string, cause: LoadError)
    | Circular(around: string, ancestors: seq<string>)
    | RecursionLimit(reached: seq<Descriptor>)

  datatype Outcome = Done(list: seq<Descriptor>) | Failed(error: ResolveError)

  /** Every descriptor a catalog holds is stored under its own name (its file name). */
  ghost predicate WellFormed(cats: seq<Catalog>)
  {
    forall i, n :: 0 <= i < |cats| && n in cats[i] && cats[i][n].Ok? ==> cats[i][n].value.name == n
  }

  function Names(ds: seq<Descriptor>): (r: seq<string>)
    ensures |r| == |ds|
  {
    if ds == [] then [] else [ds[0].name] + Names(ds[1..])
  }

  lemma {:induction false} NamesAt(ds: seq<Descriptor>, k: nat)
    requires k < |ds|
    ensures Names(ds)[k] == ds[k].name
    decreases k
  {
    if k > 0 {
      NamesAt(ds[1..], k - 1);
    }
  }

  // ---------------------------------------------------------------------------
  // find_minibuild

  /** `find_minibuild`: the entry of the first catalog that has the name. */
  function Find(cats: seq<Catalog>, name: string): (r: Option<Result<Descriptor, LoadError>>)
    ensures r.None? <==> forall i :: 0 <= i < |cats| ==> name !in cats[i]
  {
    if cats == [] then None
    else if name in cats[0] then Some(cats[0][name])
    else Find(cats[1..], name)
  }

  /** The entry found is the one of the first catalog holding the name. */
  lemma {:induction false} FindFirst(cats: seq<Catalog>, name: string, i: nat)
    requires i < |cats| && name in cats[i] && forall j :: 0 <= j < i ==> name !in cats[j]
    ensures Find(cats, name) == Some(cats[i][name])
    decreases i
  {
    if i > 0 {
      FindFirst(cats[1..], name, i - 1);
    }
  }

  /** `find_minibuild` as the loop over the minilays. */
  method FindMinibuild(cats: seq<Catalog>, name: string) returns (r: Option<Result<Descriptor, LoadError>>)
    ensures r == Find(cats, name)
  {
    var i := 0;
    while i < |cats|
      invariant 0 <= i <= |cats|
      invariant Find(cats[i..], name) == Find(cats, name)
    {
      if name in cats[i] {
        return Some(cats[i][name]);
      }
      assert cats[i..][1..] == cats[i + 1..];
      i := i + 1;
    }
    r := None;
  }

  /** `find_minibuilds`: each name in turn; the first name not found fails the call. */
  function FindAll(cats: seq<Catalog>, names: seq<string>): (r: Result<seq<Result<Descriptor, LoadError>>, string>)
    ensures r.Ok? ==> |r.value| == |names| && forall k :: 0 <= k < |names| ==> Find(cats, names[k]) == Some(r.value[k])
    ensures r.Err? ==> r.error in names && Find(cats, r.error).None?
    ensures r.Err? <==> exists k :: 0 <= k < |names| && Find(cats, names[k]).None?
  {
    if names == [] then Ok([])
    else match Find(cats, names[0])
      case None => Err(names[0])
      case Some(e) =>
        match FindAll(cats, names[1..])
        case Err(n) => Err(n)
        case Ok(rest) =>
          assert forall k :: 1 <= k < |names| ==> names[k] == names[1..][k - 1];
          Ok([e] + rest)
  }

  // ---------------------------------------------------------------------------
  // Order-keeping insertion

  /**
   * Where a package not yet listed goes: before the first listed package
   * whose dependencies name it, or at the end.
   */
  function InsertIndex(anc: seq<Descriptor>, name: string): (i: nat)
    ensures i <= |anc|
    ensures forall k :: 0 <= k < i ==> name !in anc[k].dependencies
    ensures i < |anc| ==> name in anc[i].dependencies
    decreases |anc|
  {
    if anc == [] then 0
    else if name in anc[0].dependencies then 0
    else 1 + InsertIndex(anc[1..], name)
  }

  /** The list after `if not mb in ancestors: ancestors.insert(index, mb)`. */
  function Place(anc: seq<Descriptor>, mb: Descriptor): seq<Descriptor>
  {
    if mb in anc then anc
    else var i := InsertIndex(anc, mb.name); anc[..i] + [mb] + anc[i..]
  }

  /** `a` occurs in `b` in order, possibly with other elements in between. */
  predicate Subseq<T(==)>(a: seq<T>, b: seq<T>)
    decreases |b|
  {
    if a == [] then true
    else if b == [] then false
    else if a[0] == b[0] then Subseq(a[1..], b[1..])
    else Subseq(a, b[1..])
  }

  predicate Distinct<T(==)>(s: seq<T>)
  {
    forall i, j :: 0 <= i < j < |s| ==> s[i] != s[j]
  }

  lemma {:induction false} SubseqRefl<T>(a: seq<T>)
    ensures Subseq(a, a)
    decreases |a|
  {
    if a != [] { SubseqRefl(a[1..]); }
  }

  lemma {:induction false} SubseqMembers<T>(a: seq<T>, b: seq<T>)
    requires Subseq(a, b)
    ensures forall x :: x in a ==> x in b
    decreases |b|
  {
    if a != [] {
      if a[0] == b[0] {
        SubseqMembers(a[1..], b[1..]);
        forall x | x in a ensures x in b {
          if x != a[0] { assert x in a[1..]; }
        }
      } else {
        SubseqMembers(a, b[1..]);
      }
    }
  }

  /** Putting an element in front of the larger sequence keeps a subsequence. */
  lemma {:induction false} SubseqCons<T>(a: seq<T>, b: seq<T>)
    requires b != [] && Subseq(a, b[1..])
    ensures Subseq(a, b)
    decreases |b|, 0
  {
    if a != [] && a[0] == b[0] {
      SubseqDropHead(a, b[1..]);
    }
  }

  /** Dropping the first element of the smaller sequence keeps a subsequence. */
  lemma {:induction false} SubseqDropHead<T>(a: seq<T>, b: seq<T>)
    requires a != [] && Subseq(a, b)
    ensures Subseq(a[1..], b)
    decreases |b|, 1
  {
    if a[0] == b[0] {
      SubseqCons(a[1..], b);
    } else {
      SubseqDropHead(a, b[1..]);
      SubseqCons(a[1..], b);
    }
  }

  lemma {:induction false} SubseqTrans<T>(a: seq<T>, b: seq<T>, c: seq<T>)
    requires Subseq(a, b) && Subseq(b, c)
    ensures Subseq(a, c)
    decreases |c|
  {
    if a != [] {
      if b[0] == c[0] {
        if a[0] == b[0] {
          SubseqTrans(a[1..], b[1..], c[1..]);
        } else {
          SubseqTrans(a, b[1..], c[1..]);
        }
      } else {
        SubseqTrans(a, b, c[1..]);
        if a[0] == c[0] {
          SubseqDropHead(a, c[1..]);
        }
      }
    }
  }

  lemma {:induction false} SubseqInsert<T>(a: seq<T>, i: nat, x: T)
    requires i <= |a|
    ensures Subseq(a, a[..i] + [x] + a[i..])
    decreases i
  {
    var b := a[..i] + [x] + a[i..];
    if i == 0 {
      assert b[1..] == a;
      SubseqRefl(a);
      SubseqCons(a, b);
    } else {
      assert b[0] == a[0];
      assert b[1..] == a[1..][..i - 1] + [x] + a[1..][i - 1..];
      SubseqInsert(a[1..], i - 1, x);
    }
  }

  lemma PlaceAdds(anc: seq<Descriptor>, mb: Descriptor)
    ensures mb.name in Names(Place(anc, mb))
  {
    PlaceMembers(anc, mb);
    NameIn(mb, Place(anc, mb));
  }

  /** Placing a package adds it and nothing else. */
  lemma PlaceMembers(anc: seq<Descriptor>, mb: Descriptor)
    ensures var r := Place(anc, mb);
            mb in r && forall x :: x in r ==> x in anc || x == mb
  {
    if mb !in anc {
      var i := InsertIndex(anc, mb.name);
      var r := anc[..i] + [mb] + anc[i..];
      assert r[i] == mb;
      forall x | x in r ensures x in anc || x == mb {
        var k :| 0 <= k < |r| && r[k] == x;
        if k < i { assert x == anc[k]; } else if k > i { assert x == anc[k - 1]; }
      }
    }
  }

  /** Placing a package keeps the list in order, adds the package and keeps it free of repeats. */
  lemma PlaceSubseq(anc: seq<Descriptor>, mb: Descriptor)
    ensures Subseq(anc, Place(anc, mb))
  {
    if mb in anc {
      SubseqRefl(anc);
    } else {
      SubseqInsert(anc, InsertIndex(anc, mb.name), mb);
    }
  }

  lemma PlaceKeeps(anc: seq<Descriptor>, mb: Descriptor)
    ensures var r := Place(anc, mb);
            Subseq(anc, r) && mb in r && (forall x :: x in r ==> x in anc || x == mb) &&
            (Distinct(anc) ==> Distinct(r))
  {
    if mb in anc {
      SubseqRefl(anc);
    } else {
      var i := InsertIndex(anc, mb.name);
      SubseqInsert(anc, i, mb);
      var r := anc[..i] + [mb] + anc[i..];
      PlaceMembers(anc, mb);
      if Distinct(anc) {
        forall p, q | 0 <= p < q < |r| ensures r[p] != r[q] {
          if p < i && q == i { assert r[p] == anc[p]; }
          else if p == i { assert r[q] == anc[q - 1]; }
          else if p < i && q > i { assert r[p] == anc[p] && r[q] == anc[q - 1]; }
          else if p < i { assert r[p] == anc[p] && r[q] == anc[q]; }
          else { assert r[p] == anc[p - 1] && r[q] == anc[q - 1]; }
        }
      }
    }
  }

  // ---------------------------------------------------------------------------
  // compute_dependencies

  /**
   * `compute_dependencies(pkgs, anc)` with `fuel` frames of stack left: each
   * package is found, placed, and its dependencies walked (even when it was
   * already listed) before the next package.
   */
  function Walk(cats: seq<Catalog>, pkgs: seq<string>, anc: seq<Descriptor>, fuel: nat): Outcome
    decreases fuel, |pkgs|, 1
  {
    if fuel == 0 then Failed(RecursionLimit(anc))
    else if pkgs == [] then Done(anc)
    else
      var found := Find(cats, pkgs[0]);
      if found.None? then Failed(NotFound(pkgs[0]))
      else if found.value.Err? then Failed(LoadFailed(pkgs[0], found.value.error))
      else Visit(cats, found.value.value, pkgs[1..], anc, fuel)
  }

  /** One turn of the loop for the found package `mb`: descend into it, then go on with the `rest`. */
  function Visit(cats: seq<Catalog>, mb: Descriptor, rest: seq<string>, anc: seq<Descriptor>, fuel: nat): Outcome
    requires fuel > 0
    decreases fuel, |rest| + 1, 0
  {
    var d := Descend(cats, mb, anc, fuel);
    if d.Done? then Walk(cats, rest, d.list, fuel) else d
  }

  /**
   * Placing `mb` and walking its dependencies one frame deeper; a spent
   * stack there is reported as a circular dependency around `mb`.
   */
  function Descend(cats: seq<Catalog>, mb: Descriptor, anc: seq<Descriptor>, fuel: nat): Outcome
    requires fuel > 0
    decreases fuel, 0, 0
  {
    var sub := Walk(cats, mb.dependencies, Place(anc, mb), fuel - 1);
    if sub.Failed? && sub.error.RecursionLimit? then Failed(Circular(mb.name, Names(sub.error.reached))) else sub
  }

  /**
   * The scan of the ancestors for the first one whose dependencies name the
   * package (`ancestors.index(ancestor)` of the first match is its own
   * position, as an earlier equal element would have matched first).
   */
  method PriorityIndex(ancestors: seq<Descriptor>, name: string) returns (index: nat)
    ensures index == InsertIndex(ancestors, name)
  {
    index := |ancestors|;
    var k := 0;
    while k < |ancestors|
      invariant 0 <= k <= |ancestors|
      invariant forall j :: 0 <= j < k ==> name !in ancestors[j].dependencies
    {
      if name in ancestors[k].dependencies {
        index := k;
        break;
      }
      k := k + 1;
    }
    InsertIndexFirst(ancestors, name, index);
  }

  /** `if not mb in ancestors: ancestors.insert(index, mb)`. */
  method InsertMissing(ancestors: seq<Descriptor>, index: nat, mb: Descriptor) returns (a: seq<Descriptor>)
    requires index == InsertIndex(ancestors, mb.name)
    ensures a == Place(ancestors, mb)
  {
    a := ancestors;
    if mb !in ancestors {
      a := ancestors[..index] + [mb] + ancestors[index..];
    }
  }

  /** The walk of the packages from position `i` on starts with the lookup of `packages[i]`. */
  lemma WalkHead(cats: seq<Catalog>, packages: seq<string>, i: nat, anc: seq<Descriptor>, fuel: nat)
    requires i < |packages| && fuel > 0
    ensures var found := Find(cats, packages[i]);
            Walk(cats, packages[i..], anc, fuel) ==
              if found.None? then Failed(NotFound(packages[i]))
              else if found.value.Err? then Failed(LoadFailed(packages[i], found.value.error))
              else Visit(cats, found.value.value, packages[i + 1..], anc, fuel)
  {
    assert packages[i..][0] == packages[i] && packages[i..][1..] == packages[i + 1..];
  }

  /** `InsertIndex` is the only position with no dependent before it and one at it (or the end). */
  lemma InsertIndexFirst(anc: seq<Descriptor>, name: string, i: nat)
    requires i <= |anc| && forall k :: 0 <= k < i ==> name !in anc[k].dependencies
    requires i < |anc| ==> name in anc[i].dependencies
    ensures i == InsertIndex(anc, name)
  {
  }

  /** `compute_dependencies` as the loop over the packages, recursing into each one's dependencies. */
  method ComputeDependencies(cats: seq<Catalog>, packages: seq<string>, ancestors0: seq<Descriptor>, fuel: nat)
    returns (r: Outcome)
    ensures r == Walk(cats, packages, ancestors0, fuel)
    decreases fuel, 1
  {
    if fuel == 0 {
      return Failed(RecursionLimit(ancestors0));
    }
    var ancestors := ancestors0;
    var i := 0;
    while i < |packages|
      invariant 0 <= i <= |packages|
      invariant Walk(cats, packages[i..], ancestors, fuel) == Walk(cats, packages, ancestors0, fuel)
    {
      var package := packages[i];
      WalkHead(cats, packages, i, ancestors, fuel);
      var found := FindMinibuild(cats, package);
      if found.None? {
        return Failed(NotFound(package));
      }
      if found.value.Err? {
        return Failed(LoadFailed(package, found.value.error));
      }
      var mb := found.value.value;
      var d := DescendInto(cats, mb, ancestors, fuel);
      if d.Failed? {
        return d;
      }
      ancestors := d.list;
      i := i + 1;
    }
    r := Done(ancestors);
  }

  /**
   * The body of the loop for the found package `mb`: place it, then walk its
   * dependencies one frame deeper, reporting a spent stack as a circular
   * dependency around `mb`.
   */
  method DescendInto(cats: seq<Catalog>, mb: Descriptor, ancestors: seq<Descriptor>, fuel: nat) returns (r: Outcome)
    requires fuel > 0
    ensures r == Descend(cats, mb, ancestors, fuel)
    decreases fuel, 0
  {
    var index := PriorityIndex(ancestors, mb.name);
    var placed := InsertMissing(ancestors, index, mb);
    r := ComputeDependencies(cats, mb.dependencies, placed, fuel - 1);
    if r.Failed? && r.error.RecursionLimit? {
      r := Failed(Circular(mb.name, Names(r.error.reached)));
    }
  }

  /** The descriptor is the entry some name leads to. */
  ghost predicate Found(cats: seq<Catalog>, d: Descriptor)
  {
    exists n :: Find(cats, n) == Some(Ok(d))
  }

  /**
   * A successful walk never removes or reorders what was listed and lists no
   * descriptor twice.
   */
  lemma WalkKeepsOrder(cats: seq<Catalog>, pkgs: seq<string>, anc: seq<Descriptor>, fuel: nat)
    ensures var w := Walk(cats, pkgs, anc, fuel);
            w.Done? ==> Subseq(anc, w.list) && (Distinct(anc) ==> Distinct(w.list))
  {
    WalkSubseq(cats, pkgs, anc, fuel);
    if Distinct(anc) {
      WalkDistinct(cats, pkgs, anc, fuel);
    }
  }

  lemma {:induction false} WalkSubseq(cats: seq<Catalog>, pkgs: seq<string>, anc: seq<Descriptor>, fuel: nat)
    ensures var w := Walk(cats, pkgs, anc, fuel);
            w.Done? ==> Subseq(anc, w.list)
    decreases fuel, |pkgs|, 1
  {
    if fuel > 0 && pkgs == [] {
      SubseqRefl(anc);
    } else if fuel > 0 && Find(cats, pkgs[0]).Some? && Find(cats, pkgs[0]).value.Ok? {
      var mb := Find(cats, pkgs[0]).value.value;
      if Visit(cats, mb, pkgs[1..], anc, fuel).Done? {
        VisitSubseq(cats, mb, pkgs[1..], anc, fuel);
      }
    }
  }

  lemma {:induction false} VisitSubseq(cats: seq<Catalog>, mb: Descriptor, rest: seq<string>, anc: seq<Descriptor>, fuel: nat)
    requires fuel > 0 && Visit(cats, mb, rest, anc, fuel).Done?
    ensures Subseq(anc, Visit(cats, mb, rest, anc, fuel).list)
    decreases fuel, |rest| + 1, 0
  {
    var placed := Place(anc, mb);
    var sub := Walk(cats, mb.dependencies, placed, fuel - 1);
    var v := Walk(cats, rest, sub.list, fuel);
    PlaceSubseq(anc, mb);
    WalkSubseq(cats, mb.dependencies, placed, fuel - 1);
    WalkSubseq(cats, rest, sub.list, fuel);
    SubseqTrans(anc, placed, sub.list);
    SubseqTrans(anc, sub.list, v.list);
  }

  lemma {:induction false} WalkDistinct(cats: seq<Catalog>, pkgs: seq<string>, anc: seq<Descriptor>, fuel: nat)
    requires Distinct(anc)
    ensures var w := Walk(cats, pkgs, anc, fuel);
            w.Done? ==> Distinct(w.list)
    decreases fuel, |pkgs|, 1
  {
    if fuel > 0 && pkgs != [] && Find(cats, pkgs[0]).Some? && Find(cats, pkgs[0]).value.Ok? {
      VisitDistinct(cats, Find(cats, pkgs[0]).value.value, pkgs[1..], anc, fuel);
    }
  }

  lemma {:induction false} VisitDistinct(cats: seq<Catalog>, mb: Descriptor, rest: seq<string>, anc: seq<Descriptor>, fuel: nat)
    requires fuel > 0 && Distinct(anc)
    ensures var v := Visit(cats, mb, rest, anc, fuel);
            v.Done? ==> Distinct(v.list)
    decreases fuel, |rest| + 1, 0
  {
    var placed := Place(anc, mb);
    var sub := Walk(cats, mb.dependencies, placed, fuel - 1);
    if sub.Done? {
      PlaceKeeps(anc, mb);
      WalkDistinct(cats, mb.dependencies, placed, fuel - 1);
      WalkDistinct(cats, rest, sub.list, fuel);
    }
  }

  /** Everything a successful walk lists was listed before or is the entry of some name. */
  lemma WalkListsFound(cats: seq<Catalog>, pkgs: seq<string>, anc: seq<Descriptor>, fuel: nat)
    ensures var w := Walk(cats, pkgs, anc, fuel);
            w.Done? ==> forall d :: d in w.list ==> d in anc || Found(cats, d)
  {
    var w := Walk(cats, pkgs, anc, fuel);
    if w.Done? {
      forall d | d in w.list ensures d in anc || Found(cats, d) {
        WalkFoundAt(cats, pkgs, anc, fuel, d);
      }
    }
  }

  lemma {:induction false} WalkFoundAt(cats: seq<Catalog>, pkgs: seq<string>, anc: seq<Descriptor>, fuel: nat, d: Descriptor)
    requires Walk(cats, pkgs, anc, fuel).Done? && d in Walk(cats, pkgs, anc, fuel).list
    ensures d in anc || Found(cats, d)
    decreases fuel, |pkgs|, 1
  {
    if pkgs != [] {
      var mb := Find(cats, pkgs[0]).value.value;
      VisitFoundAt(cats, mb, pkgs[1..], anc, fuel, d);
      assert Found(cats, mb);
    }
  }

  lemma {:induction false} VisitFoundAt(cats: seq<Catalog>, mb: Descriptor, rest: seq<string>, anc: seq<Descriptor>, fuel: nat, d: Descriptor)
    requires fuel > 0 && Visit(cats, mb, rest, anc, fuel).Done? && d in Visit(cats, mb, rest, anc, fuel).list
    ensures d in anc || d == mb || Found(cats, d)
    decreases fuel, |rest| + 1, 0
  {
    var placed := Place(anc, mb);
    var sub := Walk(cats, mb.dependencies, placed, fuel - 1);
    WalkFoundAt(cats, rest, sub.list, fuel, d);
    if d in sub.list {
      WalkFoundAt(cats, mb.dependencies, placed, fuel - 1, d);
      if d in placed {
        PlaceMembers(anc, mb);
      }
    }
  }

  /** A successful walk keeps everything that was listed. */
  lemma WalkGrows(cats: seq<Catalog>, pkgs: seq<string>, anc: seq<Descriptor>, fuel: nat)
    ensures var w := Walk(cats, pkgs, anc, fuel);
            w.Done? ==> forall x :: x in anc ==> x in w.list
  {
    WalkSubseq(cats, pkgs, anc, fuel);
    var w := Walk(cats, pkgs, anc, fuel);
    if w.Done? {
      SubseqMembers(anc, w.list);
    }
  }

  /** A name listed before a successful walk is still listed after it. */
  lemma NameKept(cats: seq<Catalog>, pkgs: seq<string>, anc: seq<Descriptor>, fuel: nat, n: string)
    requires Walk(cats, pkgs, anc, fuel).Done? && n in Names(anc)
    ensures n in Names(Walk(cats, pkgs, anc, fuel).list)
  {
    WalkGrows(cats, pkgs, anc, fuel);
    var k :| 0 <= k < |anc| && Names(anc)[k] == n;
    NamesAt(anc, k);
    NameIn(anc[k], Walk(cats, pkgs, anc, fuel).list);
  }

  /** A successful walk lists every requested package. */
  lemma WalkListsRequested(cats: seq<Catalog>, pkgs: seq<string>, anc: seq<Descriptor>, fuel: nat)
    requires WellFormed(cats)
    ensures var w := Walk(cats, pkgs, anc, fuel);
            w.Done? ==> forall p :: p in pkgs ==> p in Names(w.list)
  {
    var w := Walk(cats, pkgs, anc, fuel);
    if w.Done? {
      forall p | p in pkgs ensures p in Names(w.list) {
        WalkRequestedAt(cats, pkgs, anc, fuel, p);
      }
    }
  }

  lemma {:induction false} WalkRequestedAt(cats: seq<Catalog>, pkgs: seq<string>, anc: seq<Descriptor>, fuel: nat, p: string)
    requires WellFormed(cats) && Walk(cats, pkgs, anc, fuel).Done? && p in pkgs
    ensures p in Names(Walk(cats, pkgs, anc, fuel).list)
    decreases fuel, |pkgs|, 1
  {
    var mb := Find(cats, pkgs[0]).value.value;
    FoundName(cats, pkgs[0]);
    if p != pkgs[0] {
      assert p in pkgs[1..];
    }
    VisitRequestedAt(cats, mb, pkgs[1..], anc, fuel, p);
  }

  lemma {:induction false} VisitRequestedAt(cats: seq<Catalog>, mb: Descriptor, rest: seq<string>, anc: seq<Descriptor>, fuel: nat, p: string)
    requires WellFormed(cats) && fuel > 0 && Visit(cats, mb, rest, anc, fuel).Done? && (p == mb.name || p in rest)
    ensures p in Names(Visit(cats, mb, rest, anc, fuel).list)
    decreases fuel, |rest| + 1, 0
  {
    var placed := Place(anc, mb);
    var sub := Walk(cats, mb.dependencies, placed, fuel - 1);
    if p in rest {
      WalkRequestedAt(cats, rest, sub.list, fuel, p);
    } else {
      VisitListsSelf(cats, mb, rest, anc, fuel);
    }
  }

  /** A successful visit lists the visited package. */
  lemma VisitListsSelf(cats: seq<Catalog>, mb: Descriptor, rest: seq<string>, anc: seq<Descriptor>, fuel: nat)
    requires fuel > 0 && Visit(cats, mb, rest, anc, fuel).Done?
    ensures mb.name in Names(Visit(cats, mb, rest, anc, fuel).list)
  {
    var placed := Place(anc, mb);
    var sub := Walk(cats, mb.dependencies, placed, fuel - 1);
    assert sub.Done? && Visit(cats, mb, rest, anc, fuel) == Walk(cats, rest, sub.list, fuel);
    PlaceAdds(anc, mb);
    NameKept(cats, mb.dependencies, placed, fuel - 1, mb.name);
    NameKept(cats, rest, sub.list, fuel, mb.name);
  }

  /** Every package a successful walk adds has all its dependencies listed. */
  lemma WalkCloses(cats: seq<Catalog>, pkgs: seq<string>, anc: seq<Descriptor>, fuel: nat)
    requires WellFormed(cats)
    ensures var w := Walk(cats, pkgs, anc, fuel);
            w.Done? ==> forall d :: d in w.list && d !in anc ==> forall n :: n in d.dependencies ==> n in Names(w.list)
  {
    var w := Walk(cats, pkgs, anc, fuel);
    if w.Done? {
      forall d, n | d in w.list && d !in anc && n in d.dependencies ensures n in Names(w.list) {
        WalkClosesAt(cats, pkgs, anc, fuel, d, n);
      }
    }
  }

  lemma {:induction false} WalkClosesAt(cats: seq<Catalog>, pkgs: seq<string>, anc: seq<Descriptor>, fuel: nat, d: Descriptor, n: string)
    requires WellFormed(cats) && Walk(cats, pkgs, anc, fuel).Done?
    requires d in Walk(cats, pkgs, anc, fuel).list && d !in anc && n in d.dependencies
    ensures n in Names(Walk(cats, pkgs, anc, fuel).list)
    decreases fuel, |pkgs|, 1
  {
    var mb := Find(cats, pkgs[0]).value.value;
    VisitClosesAt(cats, mb, pkgs[1..], anc, fuel, d, n);
  }

  lemma {:induction false} VisitClosesAt(cats: seq<Catalog>, mb: Descriptor, rest: seq<string>, anc: seq<Descriptor>, fuel: nat, d: Descriptor, n: string)
    requires WellFormed(cats) && fuel > 0 && Visit(cats, mb, rest, anc, fuel).Done?
    requires d in Visit(cats, mb, rest, anc, fuel).list && d !in anc && n in d.dependencies
    ensures n in Names(Visit(cats, mb, rest, anc, fuel).list)
    decreases fuel, |rest| + 1, 0
  {
    var placed := Place(anc, mb);
    var sub := Walk(cats, mb.dependencies, placed, fuel - 1);
    if d !in sub.list {
      WalkClosesAt(cats, rest, sub.list, fuel, d, n);
    } else {
      SubClosesAt(cats, mb, anc, fuel, d, n);
      NameKept(cats, rest, sub.list, fuel, n);
    }
  }

  /** The step of `VisitClosesAt` for a package listed by the walk of `mb`'s dependencies. */
  lemma {:induction false} SubClosesAt(cats: seq<Catalog>, mb: Descriptor, anc: seq<Descriptor>, fuel: nat, d: Descriptor, n: string)
    requires WellFormed(cats) && fuel > 0 && Walk(cats, mb.dependencies, Place(anc, mb), fuel - 1).Done?
    requires d in Walk(cats, mb.dependencies, Place(anc, mb), fuel - 1).list && d !in anc && n in d.dependencies
    ensures n in Names(Walk(cats, mb.dependencies, Place(anc, mb), fuel - 1).list)
    decreases fuel, 0, 0
  {
    var placed := Place(anc, mb);
    if d in placed {
      PlaceMembers(anc, mb);
      WalkRequestedAt(cats, mb.dependencies, placed, fuel - 1, n);
    } else {
      WalkClosesAt(cats, mb.dependencies, placed, fuel - 1, d, n);
    }
  }

  /** In well-formed catalogs the descriptor found for a name carries that name. */
  lemma {:induction false} FoundName(cats: seq<Catalog>, name: string)
    requires WellFormed(cats)
    ensures Find(cats, name).Some? && Find(cats, name).value.Ok? ==> Find(cats, name).value.value.name == name
    decreases |cats|
  {
    if cats != [] && name !in cats[0] {
      WellFormedTail(cats);
      FoundName(cats[1..], name);
    }
  }

  lemma WellFormedTail(cats: seq<Catalog>)
    requires WellFormed(cats) && cats != []
    ensures WellFormed(cats[1..])
  {
    forall i, n | 0 <= i < |cats[1..]| && n in cats[1..][i] && cats[1..][i][n].Ok?
      ensures cats[1..][i][n].value.name == n
    {
      assert cats[1..][i] == cats[i + 1];
    }
  }

  lemma NameIn(d: Descriptor, ds: seq<Descriptor>)
    requires d in ds
    ensures d.name in Names(ds)
  {
    var k :| 0 <= k < |ds| && ds[k] == d;
    NamesAt(ds, k);
  }

  /** A name reported missing is in no catalog; a load failure is the stored one. */
  lemma WalkErrors(cats: seq<Catalog>, pkgs: seq<string>, anc: seq<Descriptor>, fuel: nat)
    ensures var w := Walk(cats, pkgs, anc, fuel);
            (w.Failed? && w.error.NotFound? ==> Find(cats, w.error.name).None?) &&
            (w.Failed? && w.error.LoadFailed? ==> Find(cats, w.error.name) == Some(Err(w.error.cause)))
  {
    WalkNotFound(cats, pkgs, anc, fuel);
    WalkLoadFailed(cats, pkgs, anc, fuel);
  }

  lemma {:induction false} WalkNotFound(cats: seq<Catalog>, pkgs: seq<string>, anc: seq<Descriptor>, fuel: nat)
    ensures var w := Walk(cats, pkgs, anc, fuel);
            w.Failed? && w.error.NotFound? ==> Find(cats, w.error.name).None?
    decreases fuel, |pkgs|, 1
  {
    if fuel > 0 && pkgs != [] && Find(cats, pkgs[0]).Some? && Find(cats, pkgs[0]).value.Ok? {
      VisitNotFound(cats, Find(cats, pkgs[0]).value.value, pkgs[1..], anc, fuel);
    }
  }

  lemma {:induction false} VisitNotFound(cats: seq<Catalog>, mb: Descriptor, rest: seq<string>, anc: seq<Descriptor>, fuel: nat)
    requires fuel > 0
    ensures var v := Visit(cats, mb, rest, anc, fuel);
            v.Failed? && v.error.NotFound? ==> Find(cats, v.error.name).None?
    decreases fuel, |rest| + 1, 0
  {
    var sub := Walk(cats, mb.dependencies, Place(anc, mb), fuel - 1);
    if sub.Done? {
      WalkNotFound(cats, rest, sub.list, fuel);
    } else {
      WalkNotFound(cats, mb.dependencies, Place(anc, mb), fuel - 1);
    }
  }

  lemma {:induction false} WalkLoadFailed(cats: seq<Catalog>, pkgs: seq<string>, anc: seq<Descriptor>, fuel: nat)
    ensures var w := Walk(cats, pkgs, anc, fuel);
            w.Failed? && w.error.LoadFailed? ==> Find(cats, w.error.name) == Some(Err(w.error.cause))
    decreases fuel, |pkgs|, 1
  {
    if fuel > 0 && pkgs != [] && Find(cats, pkgs[0]).Some? && Find(cats, pkgs[0]).value.Ok? {
      VisitLoadFailed(cats, Find(cats, pkgs[0]).value.value, pkgs[1..], anc, fuel);
    }
  }

  lemma {:induction false} VisitLoadFailed(cats: seq<Catalog>, mb: Descriptor, rest: seq<string>, anc: seq<Descriptor>, fuel: nat)
    requires fuel > 0
    ensures var v := Visit(cats, mb, rest, anc, fuel);
            v.Failed? && v.error.LoadFailed? ==> Find(cats, v.error.name) == Some(Err(v.error.cause))
    decreases fuel, |rest| + 1, 0
  {
    var sub := Walk(cats, mb.dependencies, Place(anc, mb), fuel - 1);
    if sub.Done? {
      WalkLoadFailed(cats, rest, sub.list, fuel);
    } else {
      WalkLoadFailed(cats, mb.dependencies, Place(anc, mb), fuel - 1);
    }
  }

  /** With stack left at the top, the stack limit never escapes: it is reported as `Circular`. */
  lemma {:induction false} WalkNoLimit(cats: seq<Catalog>, pkgs: seq<string>, anc: seq<Descriptor>, fuel: nat)
    requires fuel > 0
    ensures var w := Walk(cats, pkgs, anc, fuel);
            w.Failed? ==> !w.error.RecursionLimit?
    decreases |pkgs|
  {
    if pkgs != [] && Find(cats, pkgs[0]).Some? && Find(cats, pkgs[0]).value.Ok? {
      var mb := Find(cats, pkgs[0]).value.value;
      assert Walk(cats, pkgs, anc, fuel) == Visit(cats, mb, pkgs[1..], anc, fuel);
      var sub := Walk(cats, mb.dependencies, Place(anc, mb), fuel - 1);
      assert Descend(cats, mb, anc, fuel).Done? == sub.Done?;
      if sub.Done? {
        assert Descend(cats, mb, anc, fuel) == sub;
        WalkNoLimit(cats, pkgs[1..], sub.list, fuel);
      }
    }
  }

  /**
   * A set of packages each of which depends on one of the set is a cycle:
   * a walk that reaches one of them fails, whatever the stack size.
   */
  ghost predicate Cycle(cats: seq<Catalog>, s: set<string>)
  {
    forall n {:trigger Find(cats, n)} :: n in s ==>
      (Find(cats, n).Some? && Find(cats, n).value.Ok? &&
       exists m :: m in s && m in Find(cats, n).value.value.dependencies)
  }

  lemma {:induction false} CycleFails(cats: seq<Catalog>, s: set<string>, pkgs: seq<string>, anc: seq<Descriptor>, fuel: nat)
    requires Cycle(cats, s)
    requires exists p :: p in pkgs && p in s
    ensures Walk(cats, pkgs, anc, fuel).Failed?
    decreases fuel, |pkgs|, 1
  {
    if fuel > 0 {
      var p0 := pkgs[0];
      if Find(cats, p0).Some? && Find(cats, p0).value.Ok? {
        var mb := Find(cats, p0).value.value;
        if p0 !in s {
          var p :| p in pkgs && p in s;
          assert p in pkgs[1..];
        }
        VisitCycleFails(cats, s, mb, pkgs[1..], anc, fuel);
      }
    }
  }

  lemma {:induction false} VisitCycleFails(cats: seq<Catalog>, s: set<string>, mb: Descriptor, rest: seq<string>, anc: seq<Descriptor>, fuel: nat)
    requires Cycle(cats, s) && fuel > 0
    requires (exists m :: m in s && m in mb.dependencies) || (exists p :: p in rest && p in s)
    ensures Visit(cats, mb, rest, anc, fuel).Failed?
    decreases fuel, |rest| + 1, 0
  {
    var placed := Place(anc, mb);
    if exists m :: m in s && m in mb.dependencies {
      CycleFails(cats, s, mb.dependencies, placed, fuel - 1);
    } else {
      var sub := Walk(cats, mb.dependencies, placed, fuel - 1);
      if sub.Done? {
        CycleFails(cats, s, rest, sub.list, fuel);
      }
    }
  }

  /**
   * The error a walk reaching a cycle fails with, once the stack at the top
   * is not spent: `Circular`, or a package on the way that no catalog holds
   * (`NotFound`) or that its catalog fails to load (`LoadFailed`).
   */
  lemma CycleError(cats: seq<Catalog>, s: set<string>, pkgs: seq<string>, anc: seq<Descriptor>, fuel: nat)
    requires Cycle(cats, s) && fuel > 0
    requires exists p :: p in pkgs && p in s
    ensures var w := Walk(cats, pkgs, anc, fuel);
            w.Failed? &&
            (w.error.Circular? ||
             (w.error.NotFound? && Find(cats, w.error.name).None?) ||
             (w.error.LoadFailed? && Find(cats, w.error.name) == Some(Err(w.error.cause))))
  {
    CycleFails(cats, s, pkgs, anc, fuel);
    WalkNoLimit(cats, pkgs, anc, fuel);
    WalkErrors(cats, pkgs, anc, fuel);
  }

  /**
   * A set of names each of which a catalog holds and loads, and whose
   * dependencies stay in the set: a walk inside it never misses a package.
   */
  ghost predicate Closed(cats: seq<Catalog>, t: set<string>)
  {
    forall n {:trigger Find(cats, n)} :: n in t ==>
      (Find(cats, n).Some? && Find(cats, n).value.Ok? &&
       forall m :: m in Find(cats, n).value.value.dependencies ==> m in t)
  }

  /** A walk over a closed set fails only on the stack: `Circular` or the raw limit. */
  lemma {:induction false} WalkClosed(cats: seq<Catalog>, t: set<string>, pkgs: seq<string>, anc: seq<Descriptor>, fuel: nat)
    requires Closed(cats, t)
    requires forall p :: p in pkgs ==> p in t
    ensures var w := Walk(cats, pkgs, anc, fuel);
            w.Failed? ==> w.error.Circular? || w.error.RecursionLimit?
    decreases fuel, |pkgs|, 1
  {
    if fuel > 0 && pkgs != [] {
      assert pkgs[0] in t;
      VisitClosed(cats, t, Find(cats, pkgs[0]).value.value, pkgs[1..], anc, fuel);
    }
  }

  lemma {:induction false} VisitClosed(cats: seq<Catalog>, t: set<string>, mb: Descriptor, rest: seq<string>, anc: seq<Descriptor>, fuel: nat)
    requires Closed(cats, t) && fuel > 0
    requires forall m :: m in mb.dependencies ==> m in t
    requires forall p :: p in rest ==> p in t
    ensures var v := Visit(cats, mb, rest, anc, fuel);
            v.Failed? ==> v.error.Circular? || v.error.RecursionLimit?
    decreases fuel, |rest| + 1, 0
  {
    var sub := Walk(cats, mb.dependencies, Place(anc, mb), fuel - 1);
    if sub.Done? {
      WalkClosed(cats, t, rest, sub.list, fuel);
    } else {
      WalkClosed(cats, t, mb.dependencies, Place(anc, mb), fuel - 1);
    }
  }

  /**
   * When every package the walk can reach is found and loads, a cycle among
   * them is reported as `Circular`, whatever the stack size.
   */
  lemma CycleCircular(cats: seq<Catalog>, s: set<string>, t: set<string>, pkgs: seq<string>, anc: seq<Descriptor>, fuel: nat)
    requires Cycle(cats, s) && Closed(cats, t) && fuel > 0
    requires exists p :: p in pkgs && p in s
    requires forall p :: p in pkgs ==> p in t
    ensures var w := Walk(cats, pkgs, anc, fuel);
            w.Failed? && w.error.Circular?
  {
    CycleFails(cats, s, pkgs, anc, fuel);
    WalkNoLimit(cats, pkgs, anc, fuel);
    WalkClosed(cats, t, pkgs, anc, fuel);
  }

  /** Once the walk succeeds, more stack gives the same list. */
  lemma {:induction false} FuelMonotone(cats: seq<Catalog>, pkgs: seq<string>, anc: seq<Descriptor>, fuel: nat)
    requires Walk(cats, pkgs, anc, fuel).Done?
    ensures Walk(cats, pkgs, anc, fuel + 1) == Walk(cats, pkgs, anc, fuel)
    decreases fuel, |pkgs|
  {
    if pkgs != [] {
      var mb := Find(cats, pkgs[0]).value.value;
      assert Walk(cats, pkgs, anc, fuel) == Visit(cats, mb, pkgs[1..], anc, fuel);
      assert Walk(cats, pkgs, anc, fuel + 1) == Visit(cats, mb, pkgs[1..], anc, fuel + 1);
      var sub := Walk(cats, mb.dependencies, Place(anc, mb), fuel - 1);
      assert Descend(cats, mb, anc, fuel) == sub;
      FuelMonotone(cats, mb.dependencies, Place(anc, mb), fuel - 1);
      assert Descend(cats, mb, anc, fuel + 1) == sub;
      FuelMonotone(cats, pkgs[1..], sub.list, fuel);
    }
  }

  // ---------------------------------------------------------------------------
  // Dependencies before dependents

  /** Every listed descriptor is the one its name leads to. */
  ghost predicate AllFound(cats: seq<Catalog>, l: seq<Descriptor>)
  {
    forall k :: 0 <= k < |l| ==> Find(cats, l[k].name) == Some(Ok(l[k]))
  }

  predicate DistinctNames(l: seq<Descriptor>)
  {
    forall i, j :: 0 <= i < j < |l| ==> l[i].name != l[j].name
  }

  ghost predicate Listed(l: seq<Descriptor>, n: string)
  {
    exists j :: 0 <= j < |l| && l[j].name == n
  }

  /** Each listed package has every one of its dependencies listed before it. */
  ghost predicate DepsBefore(l: seq<Descriptor>)
  {
    forall i, n :: 0 <= i < |l| && n in l[i].dependencies ==> exists j :: 0 <= j < i && l[j].name == n
  }

  /**
   * The packages whose walk is still running, the deepest first: each is a
   * dependency of the next one.
   */
  predicate Stack(c: seq<Descriptor>)
  {
    forall k {:trigger c[k]} :: 0 < k < |c| ==> c[k - 1].name in c[k].dependencies
  }

  /**
   * What a successful walk of `pkgs` leaves when it starts from `f + c`: the
   * stack `c` still last, and before it finished packages `f'` that are in
   * dependency order, keep every name of `f` and list every package walked.
   */
  ghost predicate Finished(cats: seq<Catalog>, l: seq<Descriptor>, f: seq<Descriptor>, c: seq<Descriptor>, pkgs: seq<string>)
  {
    |l| >= |c| && l[|l| - |c|..] == c &&
    var f' := l[..|l| - |c|];
    AllFound(cats, l) && DistinctNames(l) && DepsBefore(f') &&
    (forall n :: Listed(f, n) ==> Listed(f', n)) &&
    (forall p :: p in pkgs ==> Listed(f', p))
  }

  /** Walking packages already finished changes nothing. */
  lemma {:induction false} WalkFinished(cats: seq<Catalog>, pkgs: seq<string>, f: seq<Descriptor>, c: seq<Descriptor>, fuel: nat)
    requires AllFound(cats, f) && DepsBefore(f)
    requires forall p :: p in pkgs ==> Listed(f, p)
    ensures var w := Walk(cats, pkgs, f + c, fuel);
            w.Done? ==> w.list == f + c
    decreases fuel, |pkgs|
  {
    if fuel > 0 && pkgs != [] {
      assert Listed(f, pkgs[0]);
      var j :| 0 <= j < |f| && f[j].name == pkgs[0];
      var mb := f[j];
      assert Find(cats, pkgs[0]) == Some(Ok(mb));
      assert (f + c)[j] == mb;
      assert Place(f + c, mb) == f + c;
      forall n | n in mb.dependencies ensures Listed(f, n) {
        var j' :| 0 <= j' < j && f[j'].name == n;
      }
      WalkFinished(cats, mb.dependencies, f, c, fuel - 1);
      var sub := Walk(cats, mb.dependencies, f + c, fuel - 1);
      assert Walk(cats, pkgs, f + c, fuel) == Visit(cats, mb, pkgs[1..], f + c, fuel);
      if sub.Done? {
        assert Descend(cats, mb, f + c, fuel) == sub;
        assert Visit(cats, mb, pkgs[1..], f + c, fuel) == Walk(cats, pkgs[1..], f + c, fuel);
        forall p | p in pkgs[1..] ensures Listed(f, p) {
          assert p in pkgs;
        }
        WalkFinished(cats, pkgs[1..], f, c, fuel);
      } else {
        assert Descend(cats, mb, f + c, fuel).Failed?;
      }
    }
  }

  /**
   * The invariant of the walk: a new package goes right before the deepest
   * running walk, so finished packages stay in dependency order.
   */
  lemma {:induction false} WalkInOrder(cats: seq<Catalog>, pkgs: seq<string>, f: seq<Descriptor>, c: seq<Descriptor>, fuel: nat)
    requires WellFormed(cats)
    requires AllFound(cats, f + c) && DistinctNames(f + c) && DepsBefore(f) && Stack(c)
    requires c != [] ==> forall p :: p in pkgs ==> p in c[0].dependencies
    ensures var w := Walk(cats, pkgs, f + c, fuel);
            w.Done? ==> Finished(cats, w.list, f, c, pkgs)
    decreases fuel, |pkgs|, 3
  {
    if fuel == 0 {
      return;
    }
    if pkgs == [] {
      var l := f + c;
      assert l[..|l| - |c|] == f && l[|l| - |c|..] == c;
      return;
    }
    var p := pkgs[0];
    if Find(cats, p).Some? && Find(cats, p).value.Ok? {
      var mb := Find(cats, p).value.value;
      FoundName(cats, p);
      forall q | q in pkgs[1..] ensures c != [] ==> q in c[0].dependencies {
        assert q in pkgs;
      }
      assert pkgs == [mb.name] + pkgs[1..];
      assert Walk(cats, pkgs, f + c, fuel) == Visit(cats, mb, pkgs[1..], f + c, fuel);
      VisitInOrder(cats, mb, pkgs[1..], f, c, fuel);
    }
  }

  /** One turn of the walk keeps the invariant, whichever case the package falls in. */
  lemma {:induction false} VisitInOrder(cats: seq<Catalog>, mb: Descriptor, rest: seq<string>, f: seq<Descriptor>, c: seq<Descriptor>, fuel: nat)
    requires WellFormed(cats) && fuel > 0 && Find(cats, mb.name) == Some(Ok(mb))
    requires AllFound(cats, f + c) && DistinctNames(f + c) && DepsBefore(f) && Stack(c)
    requires c != [] ==> mb.name in c[0].dependencies && forall p :: p in rest ==> p in c[0].dependencies
    ensures var v := Visit(cats, mb, rest, f + c, fuel);
            v.Done? ==> Finished(cats, v.list, f, c, [mb.name] + rest)
    decreases fuel, |rest| + 1, 2
  {
    if Listed(f, mb.name) {
      VisitListed(cats, mb, rest, f, c, fuel);
    } else if exists m :: 0 <= m < |c| && c[m].name == mb.name {
      var m :| 0 <= m < |c| && c[m].name == mb.name;
      StackCycle(cats, mb, rest, f, c, fuel, m);
    } else {
      VisitNew(cats, mb, rest, f, c, fuel);
    }
  }

  /** A finished package: its walk changes nothing, and the loop goes on. */
  lemma {:induction false} VisitListed(cats: seq<Catalog>, mb: Descriptor, rest: seq<string>, f: seq<Descriptor>, c: seq<Descriptor>, fuel: nat)
    requires WellFormed(cats) && fuel > 0 && Find(cats, mb.name) == Some(Ok(mb)) && Listed(f, mb.name)
    requires AllFound(cats, f + c) && DistinctNames(f + c) && DepsBefore(f) && Stack(c)
    requires c != [] ==> forall p :: p in rest ==> p in c[0].dependencies
    ensures var v := Visit(cats, mb, rest, f + c, fuel);
            v.Done? ==> Finished(cats, v.list, f, c, [mb.name] + rest)
    decreases fuel, |rest| + 1, 1
  {
    var l := f + c;
    var j :| 0 <= j < |f| && f[j].name == mb.name;
    assert l[j] == f[j];
    assert Find(cats, mb.name) == Some(Ok(f[j]));
    assert Place(l, mb) == l;
    assert AllFound(cats, f) by {
      forall k | 0 <= k < |f| ensures Find(cats, f[k].name) == Some(Ok(f[k])) {
        assert l[k] == f[k];
      }
    }
    forall n | n in mb.dependencies ensures Listed(f, n) {
      var j' :| 0 <= j' < j && f[j'].name == n;
    }
    WalkFinished(cats, mb.dependencies, f, c, fuel - 1);
    var sub := Walk(cats, mb.dependencies, l, fuel - 1);
    if sub.Done? {
      assert Descend(cats, mb, l, fuel) == sub;
      assert Visit(cats, mb, rest, l, fuel) == Walk(cats, rest, l, fuel);
      Continue(cats, mb.name, rest, f, f, c, fuel);
    } else {
      assert Descend(cats, mb, l, fuel).Failed?;
    }
  }

  /** The names on the stack down to position `m` form a cycle once the package on top depends on the one at `m`. */
  lemma StackIsCycle(cats: seq<Catalog>, f: seq<Descriptor>, c: seq<Descriptor>, m: nat)
    requires AllFound(cats, f + c) && Stack(c)
    requires m < |c| && c[m].name in c[0].dependencies
    ensures Cycle(cats, set k | 0 <= k <= m :: c[k].name)
  {
    var s := set k | 0 <= k <= m :: c[k].name;
    forall n | n in s
      ensures Find(cats, n).Some? && Find(cats, n).value.Ok? &&
              exists m' :: m' in s && m' in Find(cats, n).value.value.dependencies
    {
      var k :| 0 <= k <= m && c[k].name == n;
      assert (f + c)[|f| + k] == c[k];
      if k == 0 {
        assert c[m].name in s;
      } else {
        assert c[k - 1].name in s;
      }
    }
  }

  /** A package already on the stack closes a cycle, so the walk fails. */
  lemma StackCycle(cats: seq<Catalog>, mb: Descriptor, rest: seq<string>, f: seq<Descriptor>, c: seq<Descriptor>, fuel: nat, m: nat)
    requires fuel > 0 && Find(cats, mb.name) == Some(Ok(mb))
    requires AllFound(cats, f + c) && Stack(c)
    requires c != [] && mb.name in c[0].dependencies
    requires m < |c| && c[m].name == mb.name
    ensures Visit(cats, mb, rest, f + c, fuel).Failed?
  {
    StackIsCycle(cats, f, c, m);
    var s := set k | 0 <= k <= m :: c[k].name;
    assert (f + c)[|f| + m] == c[m];
    if m == 0 {
      assert mb.name in mb.dependencies && mb.name in s;
    } else {
      assert c[m - 1].name in mb.dependencies && c[m - 1].name in s;
    }
    VisitCycleFails(cats, s, mb, rest, f + c, fuel);
  }

  /** A new package goes right before the deepest running walk, and its own walk finishes it there. */
  lemma {:induction false} VisitNew(cats: seq<Catalog>, mb: Descriptor, rest: seq<string>, f: seq<Descriptor>, c: seq<Descriptor>, fuel: nat)
    requires WellFormed(cats) && fuel > 0 && Find(cats, mb.name) == Some(Ok(mb))
    requires AllFound(cats, f + c) && DistinctNames(f + c) && DepsBefore(f) && Stack(c)
    requires !Listed(f, mb.name) && forall m :: 0 <= m < |c| ==> c[m].name != mb.name
    requires c != [] ==> mb.name in c[0].dependencies && forall p :: p in rest ==> p in c[0].dependencies
    ensures var v := Visit(cats, mb, rest, f + c, fuel);
            v.Done? ==> Finished(cats, v.list, f, c, [mb.name] + rest)
    decreases fuel, |rest| + 1, 1
  {
    var l := f + c;
    var c1 := [mb] + c;
    PlaceNew(cats, mb, f, c);
    WalkInOrder(cats, mb.dependencies, f, c1, fuel - 1);
    var sub := Walk(cats, mb.dependencies, f + c1, fuel - 1);
    if sub.Done? {
      assert Descend(cats, mb, l, fuel) == sub;
      var f1 := sub.list[..|sub.list| - |c1|];
      assert sub.list == f1 + c1;
      FinishNew(mb, f, f1);
      var f2 := f1 + [mb];
      assert sub.list == f2 + c;
      assert Visit(cats, mb, rest, l, fuel) == Walk(cats, rest, f2 + c, fuel);
      Continue(cats, mb.name, rest, f, f2, c, fuel);
    } else {
      assert Descend(cats, mb, l, fuel).Failed?;
    }
  }

  /**
   * The rest of the loop after a package named `name` is finished: the walk
   * of `rest` from the grown list `f2 + c` keeps the invariant for the whole turn.
   */
  lemma {:induction false} Continue(cats: seq<Catalog>, name: string, rest: seq<string>, f: seq<Descriptor>, f2: seq<Descriptor>, c: seq<Descriptor>, fuel: nat)
    requires WellFormed(cats)
    requires AllFound(cats, f2 + c) && DistinctNames(f2 + c) && DepsBefore(f2) && Stack(c)
    requires c != [] ==> forall p :: p in rest ==> p in c[0].dependencies
    requires Listed(f2, name) && forall n :: Listed(f, n) ==> Listed(f2, n)
    ensures var v := Walk(cats, rest, f2 + c, fuel);
            v.Done? ==> Finished(cats, v.list, f, c, [name] + rest)
    decreases fuel, |rest| + 1, 0
  {
    WalkInOrder(cats, rest, f2, c, fuel);
    var v := Walk(cats, rest, f2 + c, fuel);
    if v.Done? {
      var f' := v.list[..|v.list| - |c|];
      assert Listed(f', name);
      forall n | Listed(f, n) ensures Listed(f', n) {
        assert Listed(f2, n);
      }
      forall q | q in [name] + rest ensures Listed(f', q) {
        if q != name { assert q in rest; }
      }
    }
  }

  /** Placing a new package puts it right before the stack, and the invariant holds with it on top. */
  lemma PlaceNew(cats: seq<Catalog>, mb: Descriptor, f: seq<Descriptor>, c: seq<Descriptor>)
    requires Find(cats, mb.name) == Some(Ok(mb))
    requires AllFound(cats, f + c) && DistinctNames(f + c) && DepsBefore(f) && Stack(c)
    requires !Listed(f, mb.name) && forall m :: 0 <= m < |c| ==> c[m].name != mb.name
    requires c != [] ==> mb.name in c[0].dependencies
    ensures Place(f + c, mb) == f + ([mb] + c)
    ensures AllFound(cats, f + ([mb] + c)) && DistinctNames(f + ([mb] + c)) && Stack([mb] + c)
  {
    PlaceAtStack(mb, f, c);
    PushFound(cats, mb, f, c);
    PushDistinct(mb, f, c);
    PushStack(mb, c);
  }

  lemma PlaceAtStack(mb: Descriptor, f: seq<Descriptor>, c: seq<Descriptor>)
    requires DepsBefore(f)
    requires !Listed(f, mb.name) && forall m :: 0 <= m < |c| ==> c[m].name != mb.name
    requires c != [] ==> mb.name in c[0].dependencies
    ensures Place(f + c, mb) == f + ([mb] + c)
  {
    var l := f + c;
    forall k | 0 <= k < |l| ensures l[k] != mb {
      if k < |f| { assert l[k] == f[k]; } else { assert l[k] == c[k - |f|]; }
    }
    forall k | 0 <= k < |f| ensures mb.name !in l[k].dependencies {
      assert l[k] == f[k];
    }
    if c != [] {
      assert l[|f|] == c[0];
    }
    InsertIndexFirst(l, mb.name, |f|);
    assert l[..|f|] == f && l[|f|..] == c;
  }

  lemma PushFound(cats: seq<Catalog>, mb: Descriptor, f: seq<Descriptor>, c: seq<Descriptor>)
    requires Find(cats, mb.name) == Some(Ok(mb)) && AllFound(cats, f + c)
    ensures AllFound(cats, f + ([mb] + c))
  {
    var l := f + c;
    var l1 := f + ([mb] + c);
    forall k | 0 <= k < |l1| ensures Find(cats, l1[k].name) == Some(Ok(l1[k])) {
      if k < |f| { assert l1[k] == l[k]; }
      else if k > |f| { assert l1[k] == l[k - 1]; }
    }
  }

  lemma PushDistinct(mb: Descriptor, f: seq<Descriptor>, c: seq<Descriptor>)
    requires DistinctNames(f + c)
    requires !Listed(f, mb.name) && forall m :: 0 <= m < |c| ==> c[m].name != mb.name
    ensures DistinctNames(f + ([mb] + c))
  {
    var l := f + c;
    var l1 := f + ([mb] + c);
    forall a, b | 0 <= a < b < |l1| ensures l1[a].name != l1[b].name {
      if a < |f| && b == |f| { assert l1[a] == f[a]; }
      else if a == |f| { assert l1[b] == c[b - |f| - 1]; }
      else if a < |f| && b > |f| { assert l1[a] == l[a] && l1[b] == l[b - 1]; }
      else if a < |f| { assert l1[a] == l[a] && l1[b] == l[b]; }
      else { assert l1[a] == l[a - 1] && l1[b] == l[b - 1]; }
    }
  }

  lemma PushStack(mb: Descriptor, c: seq<Descriptor>)
    requires Stack(c) && (c != [] ==> mb.name in c[0].dependencies)
    ensures Stack([mb] + c)
  {
    var c1 := [mb] + c;
    forall k | 0 < k < |c1| ensures c1[k - 1].name in c1[k].dependencies {
      if k == 1 { assert c1[1] == c[0]; } else { assert c1[k - 1] == c[k - 2] && c1[k] == c[k - 1]; }
    }
  }

  /** Once its dependencies are finished, the new package is finished too, after all of them. */
  lemma FinishNew(mb: Descriptor, f: seq<Descriptor>, f1: seq<Descriptor>)
    requires DepsBefore(f1) && forall n :: n in mb.dependencies ==> Listed(f1, n)
    requires forall n :: Listed(f, n) ==> Listed(f1, n)
    ensures var f2 := f1 + [mb];
            DepsBefore(f2) && Listed(f2, mb.name) && forall n :: Listed(f, n) ==> Listed(f2, n)
  {
    var f2 := f1 + [mb];
    forall i, n | 0 <= i < |f2| && n in f2[i].dependencies ensures exists j :: 0 <= j < i && f2[j].name == n {
      if i < |f1| {
        assert f2[i] == f1[i];
        var j :| 0 <= j < i && f1[j].name == n;
        assert f2[j] == f1[j];
      } else {
        assert Listed(f1, n);
        var j :| 0 <= j < |f1| && f1[j].name == n;
        assert f2[j] == f1[j];
      }
    }
    assert f2[|f1|] == mb;
    forall n | Listed(f, n) ensures Listed(f2, n) {
      assert Listed(f1, n);
      var j :| 0 <= j < |f1| && f1[j].name == n;
      assert f2[j] == f1[j];
    }
  }

  /**
   * `compute_dependencies` installs a package's dependencies before it: from
   * a list already in dependency order (as the empty list is), a successful
   * walk lists every dependency of a listed package before that package.
   */
  lemma WalkOrdered(cats: seq<Catalog>, pkgs: seq<string>, anc: seq<Descriptor>, fuel: nat)
    requires WellFormed(cats)
    requires AllFound(cats, anc) && DistinctNames(anc) && DepsBefore(anc)
    ensures var w := Walk(cats, pkgs, anc, fuel);
            w.Done? ==>
              DepsBefore(w.list) &&
              forall i, j :: 0 <= i < |w.list| && 0 <= j < |w.list| && w.list[i].name in w.list[j].dependencies ==> i < j
  {
    assert anc + [] == anc;
    WalkInOrder(cats, pkgs, anc, [], fuel);
    var w := Walk(cats, pkgs, anc, fuel);
    if w.Done? {
      var l := w.list;
      assert l[..|l|] == l;
      forall i, j | 0 <= i < |l| && 0 <= j < |l| && l[i].name in l[j].dependencies ensures i < j {
        var j' :| 0 <= j' < j && l[j'].name == l[i].name;
      }
    }
  }

  /** `A` depends on `B`: the list is `[B, A]`, dependencies first. */
  lemma DependencyFirst(a: Descriptor, b: Descriptor)
    requires a.name == "A" && a.dependencies == ["B"] && b.name == "B" && b.dependencies == []
    ensures Walk([map["A" := Ok(a), "B" := Ok(b)]], ["A"], [], 3) == Done([b, a])
  {
    var cats := [map["A" := Ok(a), "B" := Ok(b)]];
    assert Find(cats, "A") == Some(Ok(a));
    assert Find(cats, "B") == Some(Ok(b));
    assert Place([], a) == [a];
    assert InsertIndex([a], "B") == 0;
    assert Place([a], b) == [b, a];
    assert Walk(cats, [], [b, a], 1) == Done([b, a]);
    assert Visit(cats, b, [], [a], 2) == Done([b, a]);
    assert Walk(cats, ["B"], [a], 2) == Done([b, a]);
    assert Walk(cats, [], [b, a], 3) == Done([b, a]);
    assert Visit(cats, a, [], [], 3) == Done([b, a]);
  }

  /** A package that depends on itself is reported circular, with the list reached so far. */
  lemma SelfDependency(a: Descriptor)
    requires a.name == "A" && a.dependencies == ["A"]
    ensures Walk([map["A" := Ok(a)]], ["A"], [], 2) == Failed(Circular("A", ["A"]))
  {
    var cats := [map["A" := Ok(a)]];
    assert Find(cats, "A") == Some(Ok(a));
    assert Place([], a) == [a];
    assert Place([a], a) == [a];
    assert Walk(cats, ["A"], [a], 0) == Failed(RecursionLimit([a]));
    assert Names([a]) == ["A"];
    assert Visit(cats, a, [], [a], 1) == Failed(Circular("A", ["A"]));
    assert Walk(cats, ["A"], [a], 1) == Failed(Circular("A", ["A"]));
    assert Visit(cats, a, [], [], 2) == Failed(Circular("A", ["A"]));
  }
}
