/**
 * The buildout maker of minitage.core.makers.buildout: the install method it
 * serves, the options it derives from a minibuild, and the commands its
 * `install` and `reinstall` run in a package directory.
 *
 * The package directory enters as two parameters: whether it holds a
 * `.installed.cfg`, and the content of its `bootstrap.py` when it has one.
 * Commands run through `os.system`; the set `fails` holds the command lines
 * that would exit non-zero, and the first of them met stops the install.
 */
module Buildout {
  import opened Wrappers
  import opened Text
  import opened Objects
  import Pythons
  import Store

  /** `match`: the maker serves the `buildout` install method only. */
  predicate Match(switch: string)
  {
    switch == "buildout"
  }

  /**
   * The maker serves exactly the install methods a minibuild may declare
   * without bypass, and every minibuild accepted without bypass that names an
   * install method names one this maker serves.
   */
  lemma MatchValidMethods(switch: string, sec: Section)
    ensures Match(switch) <==> switch in ValidInstallMethods
    ensures var im := Strip(Get(sec, "install_method", ""));
            InstallMethodAccepted(sec) && !Truthy(sec, "install-method-bypass") && im != "" ==> Match(im)
  {
  }

  /** The `parts` option: missing, a list, or a string `install` splits on whitespace. */
  datatype Parts = NoParts | PartList(names: seq<string>) | PartText(text: string)

  /**
   * The options `install` reads. `upgrade` may be missing: `get_options`
   * always sets it, a caller of its own need not. `category` is the
   * minibuild's category, `""` without a minibuild.
   */
  datatype Opts = Opts(verbose: bool, upgrade: Option<bool>, offline: bool, debug: bool, parts: Parts, category: string)

  /** `install` without options: every key missing. */
  const NoOpts := Opts(false, None, false, false, NoParts, "")

  /** `BuildoutError`, carrying the command line that failed. */
  datatype BuildoutError = BuildoutError(command: string)

  /** The parts to install one at a time; none means one run of the whole buildout. */
  function PartNames(p: Parts): seq<string>
  {
    match p
    case NoParts => []
    case PartList(names) => names
    case PartText(text) => SplitWs(text)
  }

  /** `upgrade` given and false; a missing key reads as true here. */
  predicate NoUpgrade(o: Opts)
  {
    o.upgrade == Some(false)
  }

  /** `upgrade` given and true; a missing key reads as false here. */
  predicate Newest(o: Opts)
  {
    o.upgrade == Some(true)
  }

  /** The buildout flags, in the order `install` appends them. */
  function Argv(o: Opts, installedCfg: bool): seq<string>
  {
    Flag(o.verbose, "-vvvvvvv") + Flag(NoUpgrade(o) && !installedCfg, "-N") + Flag(Newest(o), "-n")
    + Flag(o.offline, "-o") + Flag(o.debug, "-D")
  }

  function Flag(on: bool, flag: string): seq<string>
  {
    if on then [flag] else []
  }

  /**
   * Each flag is passed exactly when its option asks for it: `-N` (non-newest)
   * only for a first build in no-upgrade mode, `-n` (newest) in upgrade mode,
   * so never both, and neither when `upgrade` is missing.
   */
  lemma ArgvFlags(o: Opts, installedCfg: bool)
    ensures var a := Argv(o, installedCfg);
      && ("-vvvvvvv" in a <==> o.verbose)
      && ("-N" in a <==> NoUpgrade(o) && !installedCfg)
      && ("-n" in a <==> Newest(o))
      && ("-o" in a <==> o.offline)
      && ("-D" in a <==> o.debug)
      && !("-N" in a && "-n" in a)
      && (o.upgrade.None? ==> "-N" !in a && "-n" !in a)
  {
    ArgvMember(o, installedCfg, "-vvvvvvv");
    ArgvMember(o, installedCfg, "-N");
    ArgvMember(o, installedCfg, "-n");
    ArgvMember(o, installedCfg, "-o");
    ArgvMember(o, installedCfg, "-D");
  }

  lemma ArgvMember(o: Opts, installedCfg: bool, x: string)
    ensures x in Argv(o, installedCfg) <==>
      || (x == "-vvvvvvv" && o.verbose)
      || (x == "-N" && NoUpgrade(o) && !installedCfg)
      || (x == "-n" && Newest(o))
      || (x == "-o" && o.offline)
      || (x == "-D" && o.debug)
  {
  }

  /** `install` returns at once: no upgrade asked, already built once, not an egg. */
  predicate Skipped(o: Opts, installedCfg: bool)
  {
    NoUpgrade(o) && installedCfg && o.category != "eggs"
  }

  /** `os.path.normpath('./bin/buildout')`. */
  const Bcmd := "bin/buildout"

  /**
   * The bootstrap run: the directory's own `bootstrap.py` with the python
   * running minitage (`--distribute` when the script mentions it), or
   * `buildout bootstrap` when there is none.
   */
  function BootstrapCommand(exe: string, cfg: string, bootstrap: Option<string>): string
  {
    match bootstrap
    case Some(content) =>
      var args := (if Contains(content, "--distribute") then " --distribute " else "") + " -c " + cfg + " ";
      exe + " bootstrap.py " + args + " "
    case None => "buildout bootstrap -c " + cfg
  }

  /** The run that installs one part. */
  function PartCommand(cfg: string, argv: seq<string>, part: string): string
  {
    Bcmd + " -c " + cfg + " " + Join(" ", argv) + " install " + part + " "
  }

  /** The run of the whole buildout. */
  function WholeCommand(cfg: string, argv: seq<string>): string
  {
    Bcmd + " -c " + cfg + "  " + Join(" ", argv) + " "
  }

  function PartCommands(cfg: string, argv: seq<string>, parts: seq<string>): (r: seq<string>)
    ensures |r| == |parts| && forall k :: 0 <= k < |parts| ==> r[k] == PartCommand(cfg, argv, parts[k])
  {
    seq(|parts|, k requires 0 <= k < |parts| => PartCommand(cfg, argv, parts[k]))
  }

  /** The command lines `install` runs when none fails, in order. */
  function Plan(cfg: string, exe: string, o: Opts, installedCfg: bool, bootstrap: Option<string>): seq<string>
  {
    if Skipped(o, installedCfg) then []
    else
      var argv := Argv(o, installedCfg);
      var parts := PartNames(o.parts);
      [BootstrapCommand(exe, cfg, bootstrap)]
      + (if parts != [] then PartCommands(cfg, argv, parts) else [WholeCommand(cfg, argv)])
  }

  /** Running commands in turn until one fails, which raises `BuildoutError`. */
  function Execute(plan: seq<string>, fails: set<string>): (seq<string>, Option<BuildoutError>)
  {
    if plan == [] then ([], None)
    else if plan[0] in fails then ([plan[0]], Some(BuildoutError(plan[0])))
    else
      var rest := Execute(plan[1..], fails);
      ([plan[0]] + rest.0, rest.1)
  }

  /**
   * The commands run are a prefix of the plan. Without error it is the whole
   * plan, none of which fails; with one, the last command run is the first
   * failing command of the plan, and the error names it.
   */
  lemma {:induction false} ExecuteSpec(plan: seq<string>, fails: set<string>)
    ensures var (ran, err) := Execute(plan, fails);
      && |ran| <= |plan| && ran == plan[..|ran|]
      && (forall k :: 0 <= k < |ran| - 1 ==> ran[k] !in fails)
      && (err.None? ==> ran == plan && forall k :: 0 <= k < |plan| ==> plan[k] !in fails)
      && (err.Some? ==> ran != [] && ran[|ran| - 1] in fails && err.value.command == ran[|ran| - 1])
  {
    if plan != [] && plan[0] !in fails {
      ExecuteSpec(plan[1..], fails);
      var rest := Execute(plan[1..], fails);
      assert forall k :: 0 < k < |plan| ==> plan[k] == plan[1..][k - 1];
    }
  }

  /**
   * The plan is empty exactly when `install` skips; otherwise it bootstraps,
   * then installs each part in turn, or runs the whole buildout when there
   * are no parts.
   */
  lemma PlanShape(cfg: string, exe: string, o: Opts, installedCfg: bool, bootstrap: Option<string>)
    ensures var p := Plan(cfg, exe, o, installedCfg, bootstrap);
      var parts := PartNames(o.parts);
      var argv := Argv(o, installedCfg);
      && (p == [] <==> Skipped(o, installedCfg))
      && (p != [] ==> p[0] == BootstrapCommand(exe, cfg, bootstrap))
      && (p != [] && parts != [] ==>
            |p| == 1 + |parts| && forall k :: 0 <= k < |parts| ==> p[1 + k] == PartCommand(cfg, argv, parts[k]))
      && (p != [] && parts == [] ==> p == [BootstrapCommand(exe, cfg, bootstrap), WholeCommand(cfg, argv)])
  {
  }

  /**
   * Without options `install` never skips: it bootstraps, then runs the whole
   * buildout without flags.
   */
  lemma NoOptsPlan(cfg: string, exe: string, installedCfg: bool, bootstrap: Option<string>)
    ensures Plan(cfg, exe, NoOpts, installedCfg, bootstrap)
         == [BootstrapCommand(exe, cfg, bootstrap), WholeCommand(cfg, [])]
  {
    assert Argv(NoOpts, installedCfg) == [];
  }

  /** An egg package is built whatever the upgrade mode. */
  lemma EggsNeverSkipped(cfg: string, exe: string, o: Opts, installedCfg: bool, bootstrap: Option<string>)
    requires o.category == "eggs"
    ensures Plan(cfg, exe, o, installedCfg, bootstrap) != []
  {
  }

  /** The site-packages parts of an egg buildout, one per python version. */
  function SitePackages(versions: seq<string>): (r: seq<string>)
    ensures |r| == |versions|
    ensures forall k :: 0 <= k < |versions| ==> r[k] == "site-packages-" + versions[k]
  {
    seq(|versions|, k requires 0 <= k < |versions| => "site-packages-" + versions[k])
  }

  /** The python versions an egg is built for: those given, else all of them. */
  function EggVersions(pythonVersions: Option<seq<string>>): seq<string>
  {
    if pythonVersions.None? || pythonVersions.value == [] then Pythons.Versions else pythonVersions.value
  }

  /** The `parts` option `get_options` produces. */
  function OptionParts(section: Section, category: Option<string>, pythonVersions: Option<seq<string>>): seq<string>
  {
    if category == Some("eggs") then SitePackages(EggVersions(pythonVersions))
    else SplitWs(if "buildout_parts" in section then section["buildout_parts"] else "")
  }

  /**
   * An egg gets one `site-packages-<v>` part per python version asked for,
   * ending with that version; any other package gets the whitespace-separated
   * words of its `buildout_parts` entry, none of them blank.
   */
  lemma OptionPartsSpec(section: Section, category: Option<string>, pythonVersions: Option<seq<string>>)
    ensures var parts := OptionParts(section, category, pythonVersions);
      && (category == Some("eggs") ==>
            var vs := EggVersions(pythonVersions);
            |parts| == |vs| && forall k :: 0 <= k < |vs| ==> IsSuffix(vs[k], parts[k]))
      && (category != Some("eggs") ==> forall k :: 0 <= k < |parts| ==> parts[k] != [] && NoWs(parts[k]))
  {
    var parts := OptionParts(section, category, pythonVersions);
    if category == Some("eggs") {
      var vs := EggVersions(pythonVersions);
      forall k | 0 <= k < |vs|
        ensures IsSuffix(vs[k], parts[k])
      {
        assert parts[k][|parts[k]| - |vs[k]|..] == vs[k];
      }
    }
  }

  /** With no versions given, an egg is built for every python version. */
  lemma EggDefaultVersions(section: Section, pythonVersions: Option<seq<string>>)
    requires pythonVersions.None? || pythonVersions == Some([])
    ensures OptionParts(section, Some("eggs"), pythonVersions)
         == ["site-packages-2.4", "site-packages-2.5", "site-packages-2.6"]
  {
    var r := OptionParts(section, Some("eggs"), pythonVersions);
    assert r[0] == "site-packages-" + "2.4" == "site-packages-2.4";
    assert r[1] == "site-packages-" + "2.5" == "site-packages-2.5";
    assert r[2] == "site-packages-" + "2.6" == "site-packages-2.6";
  }

  /**
   * The buildout maker. `buildout_config` is the configuration file its
   * commands name: `buildout.cfg` at first, then whatever the last
   * `get_options` read from a minibuild.
   */
  class BuildoutMaker {
    var buildoutConfig: string

    constructor ()
      ensures buildoutConfig == "buildout.cfg"
    {
      buildoutConfig := "buildout.cfg";
    }

    /**
     * `get_options`: the parts to install and whether to upgrade, which a new
     * revision of the minibuild forces; the maker now names the minibuild's
     * buildout configuration.
     */
    method GetOptions(e: Store.Engine, d: Descriptor, section: Section, upgrade: bool, pythonVersions: Option<seq<string>>)
      returns (parts: seq<string>, upgradeOpt: bool)
      modifies this
      ensures parts == OptionParts(section, d.category, pythonVersions)
      ensures upgradeOpt == (upgrade || Store.HasNewRevision(e, d))
      ensures buildoutConfig == Store.BuildoutConfig(section)
    {
      var words := SplitWs(if "buildout_parts" in section then section["buildout_parts"] else "");
      parts := StripAll(words);
      if d.category == Some("eggs") {
        var vers := EggVersions(pythonVersions);
        parts := SitePackagesLoop(vers);
      }
      buildoutConfig := if "buildout_config" in section then section["buildout_config"] else "buildout.cfg";
      upgradeOpt := upgrade;
      if Store.HasNewRevision(e, d) {
        upgradeOpt := true;
      }
    }

    /**
     * `install` in a package directory: the commands run are those of the
     * plan up to the first that fails.
     */
    method Install(o: Opts, installedCfg: bool, bootstrap: Option<string>, exe: string, fails: set<string>)
      returns (ran: seq<string>, err: Option<BuildoutError>)
      ensures (ran, err) == Execute(Plan(buildoutConfig, exe, o, installedCfg, bootstrap), fails)
    {
      var argv := BuildArgv(o, installedCfg);
      var parts := PartNames(o.parts);
      if Skipped(o, installedCfg) {
        return [], None;
      }
      var boot := BootstrapCommand(exe, buildoutConfig, bootstrap);
      var runs := if parts != [] then PartCommands(buildoutConfig, argv, parts) else [WholeCommand(buildoutConfig, argv)];
      ran, err := RunAll([boot] + runs, fails);
    }

    /** `reinstall`: remove `.installed.cfg`, then install as on a first build. */
    method Reinstall(o: Opts, installedCfg: bool, bootstrap: Option<string>, exe: string, fails: set<string>)
      returns (removed: bool, ran: seq<string>, err: Option<BuildoutError>)
      ensures removed == installedCfg
      ensures (ran, err) == Execute(Plan(buildoutConfig, exe, o, false, bootstrap), fails)
    {
      removed := installedCfg;
      ran, err := Install(o, false, bootstrap, exe, fails);
    }
  }

  /** A reinstall is never skipped: it always starts with the bootstrap run. */
  lemma ReinstallRuns(cfg: string, exe: string, o: Opts, bootstrap: Option<string>)
    ensures Plan(cfg, exe, o, false, bootstrap) != []
    ensures Plan(cfg, exe, o, false, bootstrap)[0] == BootstrapCommand(exe, cfg, bootstrap)
  {
  }

  /** The `strip()` of each whitespace-split word, which leaves it as it is. */
  method StripAll(words: seq<string>) returns (r: seq<string>)
    requires forall k :: 0 <= k < |words| ==> words[k] != [] && NoWs(words[k])
    ensures r == words
  {
    r := [];
    var i := 0;
    while i < |words|
      invariant 0 <= i <= |words| && r == words[..i]
    {
      StripPlain(words[i]);
      r := r + [Strip(words[i])];
      i := i + 1;
    }
  }

  /** `['site-packages-%s' % ver for ver in vers]`. */
  method SitePackagesLoop(vers: seq<string>) returns (r: seq<string>)
    ensures r == SitePackages(vers)
  {
    r := [];
    var i := 0;
    while i < |vers|
      invariant 0 <= i <= |vers| && r == SitePackages(vers[..i])
    {
      assert vers[..i + 1] == vers[..i] + [vers[i]];
      r := r + ["site-packages-" + vers[i]];
      i := i + 1;
    }
    assert vers[..i] == vers;
  }

  /** The flags, appended one by one. */
  method BuildArgv(o: Opts, installedCfg: bool) returns (argv: seq<string>)
    ensures argv == Argv(o, installedCfg)
  {
    argv := [];
    if o.verbose {
      argv := argv + ["-vvvvvvv"];
    }
    assert argv == Flag(o.verbose, "-vvvvvvv");
    if NoUpgrade(o) && !installedCfg {
      argv := argv + ["-N"];
    }
    assert argv == Flag(o.verbose, "-vvvvvvv") + Flag(NoUpgrade(o) && !installedCfg, "-N");
    if Newest(o) {
      argv := argv + ["-n"];
    }
    assert argv == Flag(o.verbose, "-vvvvvvv") + Flag(NoUpgrade(o) && !installedCfg, "-N") + Flag(Newest(o), "-n");
    if o.offline {
      argv := argv + ["-o"];
    }
    assert argv == Flag(o.verbose, "-vvvvvvv") + Flag(NoUpgrade(o) && !installedCfg, "-N") + Flag(Newest(o), "-n")
      + Flag(o.offline, "-o");
    if o.debug {
      argv := argv + ["-D"];
    }
  }

  /** The commands of a plan run in turn until one fails. */
  method RunAll(runs: seq<string>, fails: set<string>) returns (ran: seq<string>, err: Option<BuildoutError>)
    ensures (ran, err) == Execute(runs, fails)
  {
    ran := [];
    var i := 0;
    assert runs[i..] == runs;
    assert Execute(runs, fails).0 == [] + Execute(runs, fails).0;
    while i < |runs|
      invariant 0 <= i <= |runs|
      invariant Execute(runs, fails) == (ran + Execute(runs[i..], fails).0, Execute(runs[i..], fails).1)
    {
      assert runs[i..][1..] == runs[i + 1..];
      ghost var rest := Execute(runs[i + 1..], fails);
      if runs[i] in fails {
        assert Execute(runs[i..], fails) == ([runs[i]], Some(BuildoutError(runs[i])));
        return ran + [runs[i]], Some(BuildoutError(runs[i]));
      }
      assert Execute(runs[i..], fails) == ([runs[i]] + rest.0, rest.1);
      assert ran + ([runs[i]] + rest.0) == (ran + [runs[i]]) + rest.0;
      ran := ran + [runs[i]];
      i := i + 1;
    }
    assert runs[i..] == [];
    assert ran + [] == ran;
    err := None;
  }
}
