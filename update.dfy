/**
 * The upgrade steps of minitage.core.update: the migration of minibuilds to
 * renamed libraries and the adoption of already installed packages into the
 * history store (`updateHistory`).
 */
module Update {
  import opened Wrappers
  import opened Text
  import opened Files
  import opened Objects
  import opened Store
  import Collections
  import Pythons

  // ------------------------------------------------------------- migration

  /** An old dependency name and the name that replaces it. */
  type Renaming = (string, string)

  /** The renamings of the 2.0.19 upgrade, applied in the order listed (Python 2 visits the dictionary in hash order). */
  const Renamings2019: seq<Renaming> :=
    [("openssl-0.9", "openssl-1"), ("ncurses-5.6", "ncurses-5"), ("readline-5.2", "readline-6"), ("postgis-1.4", "postgis-1.5")]

  /** The renamings of the 2.0.18 upgrade. */
  const Renamings2018: seq<Renaming> :=
    [("libxml2-2.6", "libxml2-2.7"), ("py-libxml2-2.6", "py-libxml2-2.7")]

  /** `index`, `pop` and `insert`: the first occurrence of `from` becomes `to`, in place. */
  function ReplaceFirst(deps: seq<string>, from: string, to: string): (r: seq<string>)
    requires from in deps
  {
    var i := Collections.FirstIndex(deps, from).value;
    deps[..i] + [to] + deps[i + 1..]
  }

  /**
   * The replaced entry is the first `from`; the list keeps its length and every
   * other entry.
   */
  lemma ReplaceFirstShape(deps: seq<string>, from: string, to: string)
    requires from in deps
    ensures var r := ReplaceFirst(deps, from, to);
            var i := Collections.FirstIndex(deps, from).value;
            && |r| == |deps| && r[i] == to && deps[i] == from && from !in deps[..i]
            && forall k :: 0 <= k < |deps| && k != i ==> r[k] == deps[k]
  {
  }

  /** A name other than `from` and `to` is in the list after the replacement iff it was before. */
  lemma ReplaceFirstMember(deps: seq<string>, from: string, to: string, x: string)
    requires from in deps && x != from && x != to
    ensures x in ReplaceFirst(deps, from, to) <==> x in deps
  {
    var i := Collections.FirstIndex(deps, from).value;
    var r := ReplaceFirst(deps, from, to);
    if x in deps {
      var k :| 0 <= k < |deps| && deps[k] == x;
      assert r[k] == x;
    }
    if x in r {
      var k :| 0 <= k < |r| && r[k] == x;
      assert deps[k] == x;
    }
  }

  /** The dependency list and revision of one minibuild after the renamings, in order. */
  function Migrate(deps: seq<string>, revision: int, ups: seq<Renaming>): (seq<string>, int)
    decreases |ups|
  {
    if ups == [] then (deps, revision)
    else if ups[0].0 in deps then Migrate(ReplaceFirst(deps, ups[0].0, ups[0].1), revision + 1, ups[1..])
    else Migrate(deps, revision, ups[1..])
  }

  /** The number of renamings whose old name is among `deps`. */
  function Present(deps: seq<string>, ups: seq<Renaming>): nat
  {
    if ups == [] then 0 else (if ups[0].0 in deps then 1 else 0) + Present(deps, ups[1..])
  }

  /** The old names are distinct keys, and no new name is itself an old one. */
  predicate Unchained(ups: seq<Renaming>)
  {
    (forall i, j :: 0 <= i < j < |ups| ==> ups[i].0 != ups[j].0) &&
    (forall i, j :: 0 <= i < |ups| && 0 <= j < |ups| ==> ups[i].1 != ups[j].0)
  }

  lemma {:induction false} PresentSame(d1: seq<string>, d2: seq<string>, ups: seq<Renaming>)
    requires forall k :: 0 <= k < |ups| ==> (ups[k].0 in d1 <==> ups[k].0 in d2)
    ensures Present(d1, ups) == Present(d2, ups)
  {
    if ups != [] {
      PresentSame(d1, d2, ups[1..]);
    }
  }

  /** The migration keeps the length of the dependency list and never lowers the revision. */
  lemma {:induction false} MigrateKeepsLength(deps: seq<string>, revision: int, ups: seq<Renaming>)
    ensures |Migrate(deps, revision, ups).0| == |deps|
    ensures Migrate(deps, revision, ups).1 >= revision
    decreases |ups|
  {
    if ups != [] {
      if ups[0].0 in deps {
        ReplaceFirstShape(deps, ups[0].0, ups[0].1);
        MigrateKeepsLength(ReplaceFirst(deps, ups[0].0, ups[0].1), revision + 1, ups[1..]);
      } else {
        MigrateKeepsLength(deps, revision, ups[1..]);
      }
    }
  }

  /**
   * With distinct old names and no chained renaming, the revision goes up by
   * exactly one for each old name the minibuild depends on.
   */
  lemma {:induction false} MigrateBumps(deps: seq<string>, revision: int, ups: seq<Renaming>)
    requires Unchained(ups)
    ensures Migrate(deps, revision, ups).1 == revision + Present(deps, ups)
    decreases |ups|
  {
    if ups != [] {
      var tail := ups[1..];
      assert Unchained(tail);
      if ups[0].0 in deps {
        var next := ReplaceFirst(deps, ups[0].0, ups[0].1);
        forall k | 0 <= k < |tail|
          ensures tail[k].0 in next <==> tail[k].0 in deps
        {
          assert tail[k] == ups[k + 1];
          ReplaceFirstMember(deps, ups[0].0, ups[0].1, tail[k].0);
        }
        PresentSame(next, deps, tail);
        MigrateBumps(next, revision + 1, tail);
      } else {
        MigrateBumps(deps, revision, tail);
      }
    }
  }

  /** A minibuild that depends on none of the old names is left exactly as it is. */
  lemma {:induction false} MigrateUntouched(deps: seq<string>, revision: int, ups: seq<Renaming>)
    requires forall k :: 0 <= k < |ups| ==> ups[k].0 !in deps
    ensures Migrate(deps, revision, ups) == (deps, revision)
    decreases |ups|
  {
    if ups != [] {
      assert ups[0].0 !in deps;
      MigrateUntouched(deps, revision, ups[1..]);
    }
  }

  /** Whether the migration rewrites (and writes back) a minibuild with these dependencies. */
  predicate Touched(deps: seq<string>, ups: seq<Renaming>)
  {
    exists k :: 0 <= k < |ups| && ups[k].0 in deps
  }

  /** With distinct old names and no chain, a minibuild is bumped iff it depends on an old name. */
  lemma TouchedIffBumped(deps: seq<string>, revision: int, ups: seq<Renaming>)
    requires Unchained(ups)
    ensures Touched(deps, ups) <==> Migrate(deps, revision, ups).1 > revision
  {
    MigrateBumps(deps, revision, ups);
    if Touched(deps, ups) {
      var k :| 0 <= k < |ups| && ups[k].0 in deps;
      PresentPositive(deps, ups, k);
    } else {
      MigrateUntouched(deps, revision, ups);
    }
  }

  lemma {:induction false} PresentPositive(deps: seq<string>, ups: seq<Renaming>, k: nat)
    requires k < |ups| && ups[k].0 in deps
    ensures Present(deps, ups) > 0
  {
    if k > 0 {
      PresentPositive(deps, ups[1..], k - 1);
    }
  }

  /**
   * One minibuild's migration with its write-back. Each renaming that applies
   * replaces the old name in `raw_dependencies`, bumps `revision`, and
   * `write` stores both in the `[minibuild]` section and reloads the object
   * from it: `load` rereads every option, recomputes `dependencies` and
   * substitutes the variables again. A reload that raises stops the
   * migration with its error.
   */
  datatype Migration = Migration(attrs: Descriptor, section: Section, written: bool, error: Option<LoadError>)

  /** What `write(dependencies=…, revision=…)` leaves in the section. */
  function Rewritten(sec: Section, deps: seq<string>, revision: int): Section
  {
    Write(sec, map["dependencies" := Items(deps), "revision" := Number(revision)])
  }

  /** The configuration the reload reads: the written `[minibuild]` section. */
  function Reread(sec: Section): Option<ConfigFile>
  {
    Some(map["minibuild" := sec])
  }

  /** What a reload leaves: the object's attributes, and the error `load` raised, if any. */
  datatype Reloaded = Reloaded(attrs: Descriptor, error: Option<LoadError>)

  type Reloader = (Descriptor, Section) -> Reloaded

  /** `load` at the end of `write`: the object re-reads the written section, as `Minibuild.Load` does. */
  function Reload(uname: string, vars: map<string, string>): Reloader
  {
    (prev: Descriptor, sec: Section) =>
      var r := LoadInto(prev, Reread(sec), uname, vars);
      Reloaded(AttrsAfterLoad(prev, Reread(sec), uname, vars), if r.Err? then Some(r.error) else None)
  }

  /** The reload of one object from one section. */
  function ReloadAt(reload: Reloader, prev: Descriptor, sec: Section): Reloaded
  {
    reload(prev, sec)
  }

  /**
   * A reload that raises nothing leaves what the section says: its raw
   * list, its revision, and `dependencies` computed from it.
   */
  ghost predicate ReadsBack(reload: Reloader, uname: string)
  {
    forall prev: Descriptor, sec: Section :: ReloadAt(reload, prev, sec).error.None? ==>
      && ReloadAt(reload, prev, sec).attrs.rawDependencies == SplitWs(Get(sec, "dependencies", ""))
      && ReloadAt(reload, prev, sec).attrs.revision == Revision(sec)
      && ReloadAt(reload, prev, sec).attrs.dependencies == ComputedDependencies(sec, uname)
  }

  /** `load` reads back what `write` stored. */
  lemma ReloadReadsBack(uname: string, vars: map<string, string>)
    ensures ReadsBack(Reload(uname, vars), uname)
  {
    forall prev: Descriptor, sec: Section | ReloadAt(Reload(uname, vars), prev, sec).error.None?
      ensures var d := ReloadAt(Reload(uname, vars), prev, sec).attrs;
              && d.rawDependencies == SplitWs(Get(sec, "dependencies", ""))
              && d.revision == Revision(sec)
              && d.dependencies == ComputedDependencies(sec, uname)
    {
      LoadedLists(prev, Reread(sec), uname, vars);
    }
  }

  /** `reload` behaves as `load` at the end of `write`, for this OS name and these variables. */
  ghost predicate IsMinibuildReload(reload: Reloader, uname: string, vars: map<string, string>)
  {
    forall prev: Descriptor, sec: Section :: ReloadAt(reload, prev, sec) == ReloadAt(Reload(uname, vars), prev, sec)
  }

  /**
   * A minibuild is written exactly when it depends on one of the old names;
   * one that is not written is left as it was, file included; and the write
   * changes no option other than `dependencies` and `revision`.
   */
  function MigrateSection(d: Descriptor, sec: Section, ups: seq<Renaming>, reload: Reloader): (m: Migration)
    ensures m.written <==> Touched(d.rawDependencies, ups)
    ensures !m.written ==> m.attrs == d && m.section == sec && m.error.None?
    decreases |ups|
  {
    if ups == [] then Migration(d, sec, false, None)
    else if ups[0].0 !in d.rawDependencies then
      var m := MigrateSection(d, sec, ups[1..], reload);
      assert Touched(d.rawDependencies, ups[1..]) <==> Touched(d.rawDependencies, ups) by {
        if Touched(d.rawDependencies, ups[1..]) {
          var k :| 0 <= k < |ups[1..]| && ups[1..][k].0 in d.rawDependencies;
          assert ups[k + 1].0 in d.rawDependencies;
        }
        if Touched(d.rawDependencies, ups) {
          var k :| 0 <= k < |ups| && ups[k].0 in d.rawDependencies;
          assert ups[1..][k - 1].0 in d.rawDependencies;
        }
      }
      m
    else
      var bumped := d.(rawDependencies := ReplaceFirst(d.rawDependencies, ups[0].0, ups[0].1), revision := d.revision + 1);
      var sec1 := Rewritten(sec, bumped.rawDependencies, bumped.revision);
      var r := reload(bumped, sec1);
      assert Touched(d.rawDependencies, ups);
      if r.error.Some? then Migration(r.attrs, sec1, true, r.error)
      else MigrateSection(r.attrs, sec1, ups[1..], reload).(written := true)
  }

  /** The write changes no option of the section other than `dependencies` and `revision`. */
  lemma {:induction false} MigrateSectionOtherKeys(d: Descriptor, sec: Section, ups: seq<Renaming>, reload: Reloader, key: string)
    requires key != "dependencies" && key != "revision"
    ensures var m := MigrateSection(d, sec, ups, reload);
            (key in m.section <==> key in sec) && (key in sec ==> m.section[key] == sec[key])
    decreases |ups|
  {
    if ups != [] {
      if ups[0].0 !in d.rawDependencies {
        MigrateSectionOtherKeys(d, sec, ups[1..], reload, key);
      } else {
        var bumped := d.(rawDependencies := ReplaceFirst(d.rawDependencies, ups[0].0, ups[0].1), revision := d.revision + 1);
        var sec1 := Rewritten(sec, bumped.rawDependencies, bumped.revision);
        var r := reload(bumped, sec1);
        if r.error.None? {
          MigrateSectionOtherKeys(r.attrs, sec1, ups[1..], reload, key);
        }
      }
    }
  }

  /** Non-empty names without whitespace, as `split()` yields them. */
  predicate Words(xs: seq<string>)
  {
    forall k :: 0 <= k < |xs| ==> |xs[k]| > 0 && NoWs(xs[k])
  }

  /** Every new name is a single word. */
  predicate WordTargets(ups: seq<Renaming>)
  {
    forall k :: 0 <= k < |ups| ==> |ups[k].1| > 0 && NoWs(ups[k].1)
  }

  lemma WordTargetsTail(ups: seq<Renaming>)
    requires ups != [] && WordTargets(ups)
    ensures WordTargets(ups[1..])
  {
    forall k | 0 <= k < |ups[1..]| ensures |ups[1..][k].1| > 0 && NoWs(ups[1..][k].1) {
      assert ups[1..][k] == ups[k + 1];
    }
  }

  /** The written section reads back the list and the revision. */
  lemma RewrittenReads(sec: Section, deps: seq<string>, revision: int)
    requires deps != [] && Words(deps)
    ensures var sec1 := Rewritten(sec, deps, revision);
            SplitWs(Get(sec1, "dependencies", "")) == deps && Revision(sec1) == revision
  {
    var sec1 := Rewritten(sec, deps, revision);
    JoinSplitWs(deps);
    assert WrittenText(Items(deps)) == Some(Join(" ", deps));
    assert sec1["dependencies"] == Join(" ", deps);
    assert sec1["revision"] == IntStr(revision);
    RevisionReads(sec1, revision);
  }

  /** A successful reload of a written section keeps the raw list and the revision written. */
  lemma ReloadKeeps(reload: Reloader, uname: string, bumped: Descriptor, sec: Section)
    requires ReadsBack(reload, uname) && bumped.rawDependencies != [] && Words(bumped.rawDependencies)
    ensures var r := ReloadAt(reload, bumped, Rewritten(sec, bumped.rawDependencies, bumped.revision));
            r.error.None? ==> r.attrs.rawDependencies == bumped.rawDependencies && r.attrs.revision == bumped.revision
  {
    RewrittenReads(sec, bumped.rawDependencies, bumped.revision);
  }

  /** Replacing a word by a word keeps a list of words. */
  lemma ReplaceFirstWords(deps: seq<string>, from: string, to: string)
    requires from in deps && Words(deps) && |to| > 0 && NoWs(to)
    ensures Words(ReplaceFirst(deps, from, to)) && ReplaceFirst(deps, from, to) != []
  {
    ReplaceFirstShape(deps, from, to);
  }

  /**
   * With a reload that reads back what was written, a migration without
   * error leaves the raw list and the revision that `Migrate` specifies.
   */
  lemma {:induction false} MigrateSectionLists(d: Descriptor, sec: Section, ups: seq<Renaming>, reload: Reloader, uname: string)
    requires ReadsBack(reload, uname) && Words(d.rawDependencies) && WordTargets(ups)
    ensures var m := MigrateSection(d, sec, ups, reload);
            m.error.None? ==> (m.attrs.rawDependencies, m.attrs.revision) == Migrate(d.rawDependencies, d.revision, ups)
    decreases |ups|
  {
    if ups != [] {
      WordTargetsTail(ups);
      if ups[0].0 !in d.rawDependencies {
        MigrateSectionLists(d, sec, ups[1..], reload, uname);
        assert MigrateSection(d, sec, ups, reload) == MigrateSection(d, sec, ups[1..], reload);
      } else {
        var deps := ReplaceFirst(d.rawDependencies, ups[0].0, ups[0].1);
        var bumped := d.(rawDependencies := deps, revision := d.revision + 1);
        var sec1 := Rewritten(sec, deps, d.revision + 1);
        var r := ReloadAt(reload, bumped, sec1);
        if r.error.None? {
          ReplaceFirstWords(d.rawDependencies, ups[0].0, ups[0].1);
          ReloadKeeps(reload, uname, bumped, sec);
          MigrateSectionLists(r.attrs, sec1, ups[1..], reload, uname);
          assert MigrateSection(d, sec, ups, reload) == MigrateSection(r.attrs, sec1, ups[1..], reload).(written := true);
          assert Migrate(d.rawDependencies, d.revision, ups) == Migrate(deps, d.revision + 1, ups[1..]);
        }
      }
    }
  }

  /**
   * A minibuild written without error holds what the last reload made of
   * its final section.
   */
  lemma {:induction false} MigrateSectionReloaded(d: Descriptor, sec: Section, ups: seq<Renaming>, reload: Reloader)
    ensures var m := MigrateSection(d, sec, ups, reload);
            m.error.None? && m.written ==> exists prev :: ReloadAt(reload, prev, m.section) == Reloaded(m.attrs, None)
    decreases |ups|
  {
    if ups != [] {
      if ups[0].0 !in d.rawDependencies {
        MigrateSectionReloaded(d, sec, ups[1..], reload);
      } else {
        var bumped := d.(rawDependencies := ReplaceFirst(d.rawDependencies, ups[0].0, ups[0].1), revision := d.revision + 1);
        var sec1 := Rewritten(sec, bumped.rawDependencies, bumped.revision);
        var r := ReloadAt(reload, bumped, sec1);
        if r.error.None? {
          var m1 := MigrateSection(r.attrs, sec1, ups[1..], reload);
          if m1.written {
            MigrateSectionReloaded(r.attrs, sec1, ups[1..], reload);
          } else {
            assert ReloadAt(reload, bumped, m1.section) == Reloaded(m1.attrs, None);
          }
        }
      }
    }
  }

  /**
   * With a reload that reads back what was written, a minibuild written
   * without error holds what a fresh read of its written section gives:
   * `dependencies` computed from it, its raw list and its revision.
   */
  lemma MigrateSectionReads(d: Descriptor, sec: Section, ups: seq<Renaming>, reload: Reloader, uname: string)
    requires ReadsBack(reload, uname)
    ensures var m := MigrateSection(d, sec, ups, reload);
            m.error.None? && m.written ==>
              && m.attrs.dependencies == ComputedDependencies(m.section, uname)
              && m.attrs.rawDependencies == SplitWs(Get(m.section, "dependencies", ""))
              && m.attrs.revision == Revision(m.section)
  {
    var m := MigrateSection(d, sec, ups, reload);
    MigrateSectionReloaded(d, sec, ups, reload);
    if m.error.None? && m.written {
      var prev :| ReloadAt(reload, prev, m.section) == Reloaded(m.attrs, None);
    }
  }

  /**
   * A minibuild whose section has no OS-specific dependency options ends,
   * after a written migration without error, with `dependencies` equal to
   * its renamed raw list.
   */
  lemma MigratedDependencies(d: Descriptor, sec: Section, ups: seq<Renaming>, reload: Reloader, uname: string)
    requires ReadsBack(reload, uname) && Words(d.rawDependencies) && WordTargets(ups)
    requires !Truthy(sec, "dependencies-" + uname) && "dependencies-" + uname + "-replace" !in sec
    ensures var m := MigrateSection(d, sec, ups, reload);
            m.error.None? && m.written ==> m.attrs.dependencies == Migrate(d.rawDependencies, d.revision, ups).0
  {
    var m := MigrateSection(d, sec, ups, reload);
    MigrateSectionLists(d, sec, ups, reload, uname);
    MigrateSectionReads(d, sec, ups, reload, uname);
    if m.error.None? && m.written {
      var os, replace := "dependencies-" + uname, "dependencies-" + uname + "-replace";
      assert os[0] == replace[0] == 'd' && |os| > 12 && |replace| > 12;
      MigrateSectionOtherKeys(d, sec, ups, reload, os);
      MigrateSectionOtherKeys(d, sec, ups, reload, replace);
      DependenciesShape(m.section, uname);
    }
  }

  /**
   * The `updated` dictionary: each path of a minibuild the migration
   * rewrote, with the position of the first such minibuild.
   */
  function Updated(ds: seq<Descriptor>, ups: seq<Renaming>): map<string, nat>
    decreases |ds|
  {
    if ds == [] then map[]
    else
      var last := ds[|ds| - 1];
      var r := Updated(ds[..|ds| - 1], ups);
      if Touched(last.rawDependencies, ups) && last.path !in r then r[last.path := |ds| - 1] else r
  }

  /**
   * A path in `updated` names a rewritten minibuild with that path, and no
   * earlier minibuild of the same path was rewritten.
   */
  lemma {:induction false} UpdatedFirst(ds: seq<Descriptor>, ups: seq<Renaming>, p: string)
    requires p in Updated(ds, ups)
    ensures var k := Updated(ds, ups)[p];
            && k < |ds| && ds[k].path == p && Touched(ds[k].rawDependencies, ups)
            && forall j :: 0 <= j < k ==> !(ds[j].path == p && Touched(ds[j].rawDependencies, ups))
    decreases |ds|
  {
    var init := ds[..|ds| - 1];
    if p in Updated(init, ups) {
      UpdatedFirst(init, ups, p);
    } else {
      forall j | 0 <= j < |ds| - 1
        ensures !(ds[j].path == p && Touched(ds[j].rawDependencies, ups))
      {
        if ds[j].path == p && Touched(ds[j].rawDependencies, ups) {
          assert init[j] == ds[j];
          UpdatedComplete(init, ups, j);
        }
      }
    }
  }

  /** Every rewritten minibuild's path is in `updated`. */
  lemma {:induction false} UpdatedComplete(ds: seq<Descriptor>, ups: seq<Renaming>, k: nat)
    requires k < |ds| && Touched(ds[k].rawDependencies, ups)
    ensures ds[k].path in Updated(ds, ups)
    decreases |ds|
  {
    var init := ds[..|ds| - 1];
    if k < |ds| - 1 {
      assert init[k] == ds[k];
      UpdatedComplete(init, ups, k);
    }
  }

  /** The attributes of a sequence of minibuilds. */
  function AttrsOf(mbs: seq<Minibuild>): (r: seq<Descriptor>)
    reads set m | m in mbs
    ensures |r| == |mbs| && forall k :: 0 <= k < |mbs| ==> r[k] == mbs[k].attrs
  {
    if mbs == [] then [] else AttrsOf(mbs[..|mbs| - 1]) + [mbs[|mbs| - 1].attrs]
  }

  /**
   * The renaming loop for one minibuild: the first occurrence of each old
   * name is replaced at its index, the revision bumped, and `write` stores
   * both in `file` and reloads the object, as `MigrateSection` specifies.
   */
  method MigrateMinibuild(mb: Minibuild, sec: Section, uname: string, vars: map<string, string>, ups: seq<Renaming>,
                          ghost reload: Reloader)
    returns (written: bool, file: Section, err: Option<LoadError>)
    requires IsMinibuildReload(reload, uname, vars)
    modifies mb
    ensures var m := MigrateSection(old(mb.attrs), sec, ups, reload);
            mb.attrs == m.attrs && file == m.section && written == m.written && err == m.error
    ensures mb.loaded == old(mb.loaded)
  {
    ghost var total := MigrateSection(mb.attrs, sec, ups, reload);
    written, file, err := false, sec, None;
    var i := 0;
    while i < |ups|
      invariant 0 <= i <= |ups| && mb.loaded == old(mb.loaded) && err.None?
      invariant var m := MigrateSection(mb.attrs, file, ups[i..], reload);
                total == m.(written := written || m.written)
    {
      var (from, to) := ups[i];
      if from in mb.attrs.rawDependencies {
        ghost var d, f := mb.attrs, file;
        file, err := Rename(mb, file, from, to, uname, vars, reload);
        written := true;
        ApplyStep(d, f, ups, i, reload);
        if err.Some? {
          return;
        }
      } else {
        SkipStep(mb.attrs, file, ups, i, reload);
      }
      i := i + 1;
    }
    assert ups[i..] == [];
  }

  /** An old name the minibuild does not depend on changes nothing. */
  lemma SkipStep(d: Descriptor, sec: Section, ups: seq<Renaming>, i: nat, reload: Reloader)
    requires i < |ups| && ups[i].0 !in d.rawDependencies
    ensures MigrateSection(d, sec, ups[i..], reload) == MigrateSection(d, sec, ups[i + 1..], reload)
  {
    assert ups[i..][1..] == ups[i + 1..];
  }

  /** An old name the minibuild depends on is renamed, written and reloaded before the rest. */
  lemma ApplyStep(d: Descriptor, sec: Section, ups: seq<Renaming>, i: nat, reload: Reloader)
    requires i < |ups| && ups[i].0 in d.rawDependencies
    ensures var bumped := d.(rawDependencies := ReplaceFirst(d.rawDependencies, ups[i].0, ups[i].1), revision := d.revision + 1);
            var sec1 := Rewritten(sec, bumped.rawDependencies, bumped.revision);
            var r := ReloadAt(reload, bumped, sec1);
            MigrateSection(d, sec, ups[i..], reload) ==
              if r.error.Some? then Migration(r.attrs, sec1, true, r.error)
              else MigrateSection(r.attrs, sec1, ups[i + 1..], reload).(written := true)
  {
    assert ups[i..][1..] == ups[i + 1..];
  }

  /**
   * One renaming that applies: the first `from` becomes `to` at its index,
   * the revision goes up by one, and `write` stores both and reloads.
   */
  method Rename(mb: Minibuild, file: Section, from: string, to: string, uname: string, vars: map<string, string>,
                ghost reload: Reloader)
    returns (file1: Section, err: Option<LoadError>)
    requires IsMinibuildReload(reload, uname, vars) && from in mb.attrs.rawDependencies
    modifies mb
    ensures var bumped := old(mb.attrs).(rawDependencies := ReplaceFirst(old(mb.attrs).rawDependencies, from, to),
                                         revision := old(mb.attrs).revision + 1);
            && file1 == Rewritten(file, bumped.rawDependencies, bumped.revision)
            && ReloadAt(reload, bumped, file1) == Reloaded(mb.attrs, err)
    ensures mb.loaded == old(mb.loaded)
  {
    var dependencies := mb.attrs.rawDependencies;
    var k := Collections.FirstIndex(dependencies, from);
    dependencies := dependencies[..k.value] + [to] + dependencies[k.value + 1..];
    mb.attrs := mb.attrs.(rawDependencies := dependencies, revision := mb.attrs.revision + 1);
    file1 := Rewritten(file, dependencies, mb.attrs.revision);
    err := ReloadObject(mb, file1, uname, vars, reload);
  }

  /** The reload at the end of `write`: `load` re-reads the written section into the object. */
  method ReloadObject(mb: Minibuild, file: Section, uname: string, vars: map<string, string>, ghost reload: Reloader)
    returns (err: Option<LoadError>)
    requires IsMinibuildReload(reload, uname, vars)
    modifies mb
    ensures ReloadAt(reload, old(mb.attrs), file) == Reloaded(mb.attrs, err)
    ensures mb.loaded == old(mb.loaded)
  {
    err := mb.Load(Reread(file), uname, vars);
  }

  /** The migration of each minibuild from its own section, in order. */
  ghost function Migrations(ds: seq<Descriptor>, secs: seq<Section>, ups: seq<Renaming>, reload: Reloader): (ms: seq<Migration>)
    requires |secs| == |ds|
    ensures |ms| == |ds|
    decreases |ds|
  {
    if ds == [] then []
    else Migrations(ds[..|ds| - 1], secs[..|ds| - 1], ups, reload) + [MigrateSection(ds[|ds| - 1], secs[|ds| - 1], ups, reload)]
  }

  lemma {:induction false} MigrationsAt(ds: seq<Descriptor>, secs: seq<Section>, ups: seq<Renaming>, reload: Reloader, k: nat)
    requires |secs| == |ds| && k < |ds|
    ensures Migrations(ds, secs, ups, reload)[k] == MigrateSection(ds[k], secs[k], ups, reload)
    decreases |ds|
  {
    if k < |ds| - 1 {
      MigrationsAt(ds[..|ds| - 1], secs[..|ds| - 1], ups, reload, k);
    }
  }

  /** The position of the first migration, from `i` on, that raised; `|ms|` when none did. */
  function FirstError(ms: seq<Migration>, i: nat): (n: nat)
    requires i <= |ms|
    ensures i <= n <= |ms|
    ensures forall k :: i <= k < n ==> ms[k].error.None?
    ensures n < |ms| ==> ms[n].error.Some?
    decreases |ms| - i
  {
    if i == |ms| || ms[i].error.Some? then i else FirstError(ms, i + 1)
  }

  /**
   * `migrate_minibuilds_to_new_libs` over the minibuilds of every minilay,
   * already loaded, in iteration order, each with the `[minibuild]` section
   * of its file: each is migrated and written back until a reload raises,
   * and the ones rewritten are collected by path, the first one of a path
   * kept. `Migrations` gives each minibuild's migration on its own.
   */
  method MigrateAll(mbs: seq<Minibuild>, secs: seq<Section>, uname: string, vars: map<string, string>, ups: seq<Renaming>,
                    ghost reload: Reloader, ghost before: seq<Descriptor>)
    returns (updated: map<string, Minibuild>, files: seq<Section>, err: Option<LoadError>)
    requires IsMinibuildReload(reload, uname, vars)
    requires |secs| == |mbs| && before == AttrsOf(mbs)
    requires forall i, j :: 0 <= i < j < |mbs| ==> mbs[i] != mbs[j]
    modifies set m | m in mbs
    ensures var ms := Migrations(before, secs, ups, reload);
            var n := FirstError(ms, 0);
            && |ms| == |files| == |mbs|
            && err == (if n < |mbs| then ms[n].error else None)
            && (forall k :: 0 <= k < |mbs| ==> mbs[k].attrs == if k <= n then ms[k].attrs else before[k])
            && (forall k :: 0 <= k < |mbs| ==> files[k] == if k <= n then ms[k].section else secs[k])
    ensures err.None? ==> updated == Pick(mbs, Updated(before, ups))
  {
    ghost var ms := Migrations(before, secs, ups, reload);
    updated, files, err := map[], [], None;
    var i := 0;
    while i < |mbs|
      invariant 0 <= i <= |mbs| && err.None?
      invariant FirstError(ms, 0) == FirstError(ms, i)
      invariant Reached(mbs, ms, before, files, i) && Collected(updated, mbs, before, ups, i)
    {
      var e;
      files, updated, e := MigrateStep(mbs, secs, uname, vars, ups, reload, before, ms, i, files, updated);
      if e.Some? {
        AppendRest(files, secs, i + 1);
        files := files + secs[i + 1..];
        err := e;
        return;
      }
      i := i + 1;
    }
    assert before[..i] == before;
  }

  /**
   * The state after the first `i` minibuilds: each of them holds its
   * migrated attributes and has its file, the others are untouched.
   */
  ghost predicate Reached(mbs: seq<Minibuild>, ms: seq<Migration>, before: seq<Descriptor>, files: seq<Section>, i: nat)
    reads set m | m in mbs
  {
    && |ms| == |mbs| == |before| && |files| == i <= |mbs|
    && (forall k :: 0 <= k < i ==> files[k] == ms[k].section)
    && (forall k :: 0 <= k < |mbs| ==> mbs[k].attrs == if k < i then ms[k].attrs else before[k])
  }

  /** `updated` after the first `i` minibuilds. */
  ghost predicate Collected(updated: map<string, Minibuild>, mbs: seq<Minibuild>, before: seq<Descriptor>, ups: seq<Renaming>, i: nat)
  {
    i <= |before| && updated == Pick(mbs, Updated(before[..i], ups))
  }

  /**
   * One minibuild of `MigrateAll`: it is migrated and written back, its
   * file appended, and, when no reload raised, its path collected.
   */
  method MigrateStep(mbs: seq<Minibuild>, secs: seq<Section>, uname: string, vars: map<string, string>, ups: seq<Renaming>,
                     ghost reload: Reloader, ghost before: seq<Descriptor>, ghost ms: seq<Migration>, i: nat,
                     files: seq<Section>, updated: map<string, Minibuild>)
    returns (files1: seq<Section>, updated1: map<string, Minibuild>, err: Option<LoadError>)
    requires IsMinibuildReload(reload, uname, vars)
    requires i < |mbs| == |secs| == |before| && ms == Migrations(before, secs, ups, reload)
    requires forall i, j :: 0 <= i < j < |mbs| ==> mbs[i] != mbs[j]
    requires Reached(mbs, ms, before, files, i) && Collected(updated, mbs, before, ups, i)
    modifies mbs[i]
    ensures Reached(mbs, ms, before, files1, i + 1) && err == ms[i].error
    ensures err.None? ==> Collected(updated1, mbs, before, ups, i + 1)
  {
    MigrationsAt(before, secs, ups, reload, i);
    var mb := mbs[i];
    var path := mb.attrs.path;
    var written, file, e := MigrateMinibuild(mb, secs[i], uname, vars, ups, reload);
    assert forall k :: 0 <= k < |mbs| && k != i ==> mbs[k] != mb;
    files1, updated1, err := files + [file], updated, e;
    if e.None? {
      updated1 := Collect(updated, mbs, before, ups, i, path, written);
    }
  }

  /** Files past a failed minibuild are the ones it started from. */
  lemma AppendRest(files: seq<Section>, secs: seq<Section>, i: nat)
    requires |files| == i <= |secs|
    ensures |files + secs[i..]| == |secs|
    ensures forall k :: 0 <= k < i ==> (files + secs[i..])[k] == files[k]
    ensures forall k :: i <= k < |secs| ==> (files + secs[i..])[k] == secs[k]
  {
  }

  /** The step of the collection: a rewritten minibuild is added under its path unless that path is taken. */
  method Collect(updated: map<string, Minibuild>, mbs: seq<Minibuild>, ghost before: seq<Descriptor>, ups: seq<Renaming>,
                 i: nat, path: string, written: bool)
    returns (next: map<string, Minibuild>)
    requires i < |mbs| == |before| && updated == Pick(mbs, Updated(before[..i], ups)) && path == before[i].path
    requires written == Touched(before[i].rawDependencies, ups)
    ensures next == Pick(mbs, Updated(before[..i + 1], ups))
  {
    UpdatedStep(before, ups, i);
    UpdatedBound(before[..i], ups);
    PickStep(mbs, Updated(before[..i], ups), before[i].path, i);
    next := updated;
    if written && path !in updated {
      next := updated[path := mbs[i]];
    }
  }

  /** The minibuilds at the positions `u` names. */
  function Pick(mbs: seq<Minibuild>, u: map<string, nat>): map<string, Minibuild>
  {
    map p | p in u && u[p] < |mbs| :: mbs[u[p]]
  }

  lemma PickStep(mbs: seq<Minibuild>, u: map<string, nat>, p: string, i: nat)
    requires i < |mbs| && forall q :: q in u ==> u[q] < |mbs|
    ensures p in Pick(mbs, u) <==> p in u
    ensures Pick(mbs, u[p := i]) == Pick(mbs, u)[p := mbs[i]]
  {
  }

  /** One more minibuild extends `updated` only when it was rewritten and its path is new. */
  lemma UpdatedStep(ds: seq<Descriptor>, ups: seq<Renaming>, i: nat)
    requires i < |ds|
    ensures var r := Updated(ds[..i], ups);
            Updated(ds[..i + 1], ups) ==
              if Touched(ds[i].rawDependencies, ups) && ds[i].path !in r then r[ds[i].path := i] else r
  {
    assert ds[..i + 1][..i] == ds[..i];
  }

  lemma {:induction false} UpdatedBound(ds: seq<Descriptor>, ups: seq<Renaming>)
    ensures forall q :: q in Updated(ds, ups) ==> Updated(ds, ups)[q] < |ds|
    decreases |ds|
  {
    if ds != [] {
      UpdatedBound(ds[..|ds| - 1], ups);
    }
  }

  // -------------------------------------------------------- updateHistory

  /** The action and package list of a run, which a migration clears. */
  datatype Request = Request(action: Option<string>, packages: seq<string>)

  /**
   * Why the adoption loop stops: an install path that exists but cannot be
   * listed, or a visible package whose install path cannot be joined.
   */
  datatype UpdateError = ListingFailed(path: string) | CategoryMissing(name: string)

  function HistoryFile(prefix: string): string
  {
    PathJoin(prefix, ".minitage_history")
  }

  /**
   * One minibuild of the migration: a visible package whose install
   * directory exists and is not yet installed gets the `install` marker and
   * its minibuild recorded when the directory is not empty. An install path
   * that is a plain file cannot be listed.
   */
  function Adopt(e: Engine, t: Tree, d: Descriptor): Result<Engine, UpdateError>
  {
    var ip := InstallPath(e.prefix, d);
    if IsPrefix(".", d.name) then Ok(e)
    else if Uncategorised(d) then Err(CategoryMissing(d.name))
    else if ip.None? || !Exists(t, ip.value) || Installed(e, d) then Ok(e)
    else if !IsDir(t, ip.value) then Err(ListingFailed(ip.value))
    else if t.dirs[ip.value] == [] then Ok(e)
    else Ok(e.(history := Recorded(WithMark(e.history, ip, "install", "install"), ip, d.revision)))
  }

  /**
   * What the adoption loop leaves: the engine with every adoption made
   * before the first error, whose markers stay on disk, and that error.
   */
  datatype Adopted = Adopted(engine: Engine, error: Option<UpdateError>)

  function AdoptAll(e: Engine, t: Tree, ds: seq<Descriptor>): Adopted
    decreases |ds|
  {
    if ds == [] then Adopted(e, None)
    else match Adopt(e, t, ds[0])
      case Err(x) => Adopted(e, Some(x))
      case Ok(e1) => AdoptAll(e1, t, ds[1..])
  }

  /** Whether `updateHistory` migrates: forced, or no history file yet, and not a first run. */
  predicate Migrates(e: Engine, t: Tree, force: bool, firstRun: bool)
  {
    (force || !Exists(t, HistoryFile(e.prefix))) && !firstRun
  }

  /**
   * What `updateHistory` leaves: the store, then either the tree with the
   * history file and the cleared request, or the error that stopped the
   * adoption loop, in which case the history file is not written.
   */
  function UpdateHistory(e: Engine, t: Tree, ds: seq<Descriptor>, req: Request, force: bool, firstRun: bool)
    : (Engine, Result<(Tree, Request), UpdateError>)
  {
    if !Migrates(e, t, force, firstRun) then (e, Ok((t, req)))
    else
      var a := AdoptAll(e, t, ds);
      if a.error.Some? then (a.engine, Err(a.error.value))
      else (a.engine, Ok((t.(files := t.files + {HistoryFile(e.prefix)}), Request(None, []))))
  }

  /** Adoption only adds: every marker, and every installed package, stays. */
  lemma AdoptKeeps(e: Engine, t: Tree, d: Descriptor, d2: Descriptor)
    requires Adopt(e, t, d).Ok?
    ensures var e1 := Adopt(e, t, d).value;
            && e1.prefix == e.prefix && e1.pyvers == e.pyvers && e1.action == e.action
            && e.history.marks.Keys <= e1.history.marks.Keys
            && (Installed(e, d2) ==> Installed(e1, d2))
  {
  }

  /** The adoption loop only adds, up to its error if it stops on one. */
  lemma {:induction false} AdoptAllKeeps(e: Engine, t: Tree, ds: seq<Descriptor>, d2: Descriptor)
    ensures var e1 := AdoptAll(e, t, ds).engine;
            && e1.prefix == e.prefix && e1.pyvers == e.pyvers && e1.action == e.action
            && e.history.marks.Keys <= e1.history.marks.Keys
            && (Installed(e, d2) ==> Installed(e1, d2))
    decreases |ds|
  {
    if ds != [] && Adopt(e, t, ds[0]).Ok? {
      AdoptKeeps(e, t, ds[0], d2);
      AdoptAllKeeps(Adopt(e, t, ds[0]).value, t, ds[1..], d2);
    }
  }

  /**
   * After a successful adoption, every visible package with a non-empty
   * install directory is installed or carries the `install` marker (an
   * `eggs` package, whose installation is judged by its version markers,
   * may have only the latter).
   */
  lemma {:induction false} AdoptAllCovers(e: Engine, t: Tree, ds: seq<Descriptor>, d: Descriptor)
    requires AdoptAll(e, t, ds).error.None? && d in ds
    requires !IsPrefix(".", d.name) && InstallPath(e.prefix, d).Some?
    requires var ip := InstallPath(e.prefix, d).value; IsDir(t, ip) && t.dirs[ip] != []
    ensures var e1 := AdoptAll(e, t, ds).engine; Installed(e1, d) || Marked(e1, d, "install")
    decreases |ds|
  {
    var e1 := Adopt(e, t, ds[0]).value;
    AdoptKeeps(e, t, ds[0], d);
    if d == ds[0] {
      AdoptCovers(e, t, d);
      AdoptAllKeeps(e1, t, ds[1..], d);
      if !Installed(e1, d) {
        MarkedStays(e1, t, ds[1..], d, "install");
      }
    } else {
      AdoptAllCovers(e1, t, ds[1..], d);
    }
  }

  /**
   * The loop stops only on a listed package whose install path exists and
   * is not a directory, and the error names that path.
   */
  lemma {:induction false} AdoptAllError(e: Engine, t: Tree, ds: seq<Descriptor>)
    ensures var a := AdoptAll(e, t, ds);
            a.error.Some? && a.error.value.ListingFailed? ==>
              (exists k :: 0 <= k < |ds| && InstallPath(e.prefix, ds[k]) == Some(a.error.value.path)
                 && Exists(t, a.error.value.path) && !IsDir(t, a.error.value.path))
    ensures var a := AdoptAll(e, t, ds);
            a.error.Some? && a.error.value.CategoryMissing? ==>
              (exists k :: 0 <= k < |ds| && ds[k].name == a.error.value.name
                 && !IsPrefix(".", ds[k].name) && Uncategorised(ds[k]))
    decreases |ds|
  {
    if ds != [] && Adopt(e, t, ds[0]).Ok? {
      var e1 := Adopt(e, t, ds[0]).value;
      AdoptKeeps(e, t, ds[0], ds[0]);
      AdoptAllError(e1, t, ds[1..]);
      var a := AdoptAll(e1, t, ds[1..]);
      if a.error.Some? && a.error.value.ListingFailed? {
        var k :| 0 <= k < |ds[1..]| && InstallPath(e1.prefix, ds[1..][k]) == Some(a.error.value.path)
          && Exists(t, a.error.value.path) && !IsDir(t, a.error.value.path);
        assert ds[k + 1] == ds[1..][k];
      }
      if a.error.Some? && a.error.value.CategoryMissing? {
        var k :| 0 <= k < |ds[1..]| && ds[1..][k].name == a.error.value.name
          && !IsPrefix(".", ds[1..][k].name) && Uncategorised(ds[1..][k]);
        assert ds[k + 1] == ds[1..][k];
      }
    }
  }

  /** The adoption step of a visible package with a non-empty install directory installs or marks it. */
  lemma AdoptCovers(e: Engine, t: Tree, d: Descriptor)
    requires Adopt(e, t, d).Ok?
    requires !IsPrefix(".", d.name) && InstallPath(e.prefix, d).Some?
    requires var ip := InstallPath(e.prefix, d).value; IsDir(t, ip) && t.dirs[ip] != []
    ensures var e1 := Adopt(e, t, d).value; Installed(e1, d) || Marked(e1, d, "install")
  {
    if !Installed(e, d) {
      assert Marked(Adopt(e, t, d).value, d, "install");
    }
  }

  lemma MarkedStays(e: Engine, t: Tree, ds: seq<Descriptor>, d: Descriptor, marker: string)
    requires Marked(e, d, marker)
    ensures Marked(AdoptAll(e, t, ds).engine, d, marker)
  {
    AdoptAllKeeps(e, t, ds, d);
  }

  /**
   * A package that is hidden, `meta-`, has no install directory, has an
   * empty one, or is already installed is not touched by its own adoption
   * step; a visible package without a category stops the loop.
   */
  lemma AdoptSkips(e: Engine, t: Tree, d: Descriptor)
    ensures var ip := InstallPath(e.prefix, d);
            var idle := ip.None? || !Exists(t, ip.value) || Installed(e, d) || (IsDir(t, ip.value) && t.dirs[ip.value] == []);
            IsPrefix(".", d.name) || (!Uncategorised(d) && idle) ==> Adopt(e, t, d) == Ok(e)
    ensures !IsPrefix(".", d.name) && Uncategorised(d) ==> Adopt(e, t, d) == Err(CategoryMissing(d.name))
  {
  }

  /**
   * Without force and with a history file present, or on a first run,
   * nothing changes; a migration always clears the action and the packages
   * and leaves the history file behind.
   */
  lemma UpdateHistoryCases(e: Engine, t: Tree, ds: seq<Descriptor>, req: Request, force: bool, firstRun: bool)
    ensures firstRun || (!force && Exists(t, HistoryFile(e.prefix))) ==>
              UpdateHistory(e, t, ds, req, force, firstRun) == (e, Ok((t, req)))
    ensures var r := UpdateHistory(e, t, ds, req, force, firstRun);
            Migrates(e, t, force, firstRun) && r.1.Ok? ==>
              r.1.value.1 == Request(None, []) && Exists(r.1.value.0, HistoryFile(e.prefix))
    ensures var r := UpdateHistory(e, t, ds, req, force, firstRun);
            r.1.Err? ==> Migrates(e, t, force, firstRun) && AdoptAll(e, t, ds) == Adopted(r.0, Some(r.1.error))
  {
  }

  /** `updateHistory` run on the minimerge, over the minibuilds of every minilay in order. */
  method UpdateHistoryRun(m: Minimerge, t: Tree, ds: seq<Descriptor>, req: Request, force: bool, firstRun: bool)
    returns (r: Result<(Tree, Request), UpdateError>)
    modifies m
    ensures m.binaries == old(m.binaries)
    ensures (m.engine, r) == UpdateHistory(old(m.engine), t, ds, req, force, firstRun)
  {
    var hd := HistoryFile(m.engine.prefix);
    var forced := force || !Exists(t, hd);
    if !(forced && !firstRun) {
      return Ok((t, req));
    }
    var err := AdoptEach(m, t, ds);
    if err.Some? {
      return Err(err.value);
    }
    r := Ok((t.(files := t.files + {hd}), Request(None, [])));
  }

  /** The migration loop: each minibuild adopted in order, stopping at the first error. */
  method AdoptEach(m: Minimerge, t: Tree, ds: seq<Descriptor>) returns (err: Option<UpdateError>)
    modifies m
    ensures m.binaries == old(m.binaries)
    ensures AdoptAll(old(m.engine), t, ds) == Adopted(m.engine, err)
  {
    var i := 0;
    while i < |ds|
      invariant 0 <= i <= |ds| && m.binaries == old(m.binaries)
      invariant AdoptAll(old(m.engine), t, ds) == AdoptAll(m.engine, t, ds[i..])
    {
      assert ds[i..][1..] == ds[i + 1..];
      err := AdoptOne(m, t, ds[i]);
      if err.Some? {
        return;
      }
      i := i + 1;
    }
    assert ds[i..] == [];
    err := None;
  }

  /** One step of the migration loop, on the minimerge. */
  method AdoptOne(m: Minimerge, t: Tree, d: Descriptor) returns (err: Option<UpdateError>)
    modifies m
    ensures m.binaries == old(m.binaries)
    ensures var a := Adopt(old(m.engine), t, d);
            (a.Ok? ==> err.None? && m.engine == a.value) && (a.Err? ==> err == Some(a.error) && m.engine == old(m.engine))
  {
    err := None;
    if IsPrefix(".", d.name) {
      return;
    }
    if Uncategorised(d) {
      return Some(CategoryMissing(d.name));
    }
    var ip := InstallPath(m.engine.prefix, d);
    if ip.None? || !Exists(t, ip.value) {
      return;
    }
    var installed := m.IsInstalled(d);
    if installed {
      return;
    }
    if !IsDir(t, ip.value) {
      return Some(ListingFailed(ip.value));
    }
    if |t.dirs[ip.value]| > 0 {
      m.SetPackageMark(d, "install", "install");
      m.RecordMinibuild(d);
    }
  }
}
