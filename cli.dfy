/**
 * The validation that follows option parsing in minitage.core.cli's
 * `do_read_options`: conflicting modes, missing packages, too many actions,
 * the action chosen, the configuration file looked up, and the options
 * handed to the minimerge.
 */
module Cli {
  import opened Wrappers
  import opened Text

  /** The parsed command-line options `do_read_options` examines. */
  datatype Flags = Flags(
    reinstall: bool, install: bool, delete: bool, sync: bool, generateEnv: bool,
    fetchonly: bool, fetchfirst: bool, offline: bool, nodeps: bool, jump: Option<string>,
    update: bool, upgrade: bool, reinstallMinilays: bool, onlyDependencies: bool,
    allPythonVersions: bool, binary: bool, skipSelfUpgrade: bool,
    ask: bool, pretend: bool, verbose: bool, debug: bool, config: Option<string>)

  datatype CliError = ConflictModesError | NoPackagesError | TooMuchActionsError | InvalidConfigFileError

  /** The dictionary returned to build the minimerge. */
  datatype MinimergeOptions = MinimergeOptions(
    action: string, packages: seq<string>, config: string, path: string,
    ask: bool, debug: bool, fetchfirst: bool, fetchonly: bool, jump: Option<string>,
    nodeps: bool, offline: bool, pretend: bool, update: bool, upgrade: bool, verbose: bool,
    onlyDependencies: bool, allPythonVersions: bool, reinstallMinilays: bool, binary: bool,
    skipSelfUpgrade: bool)

  /** Python truth of an optional string: present and not empty. */
  predicate Truthy(s: Option<string>)
  {
    s.Some? && s.value != ""
  }

  predicate Conflicting(f: Flags)
  {
    (f.reinstall && f.delete) || (f.fetchonly && f.offline) || (Truthy(f.jump) && f.nodeps)
  }

  /** No package named although other arguments were given, and nothing that works without packages. */
  predicate MissingPackages(f: Flags, args: seq<string>, argc: nat)
  {
    args == [] && argc > 1 && !(f.sync || f.reinstallMinilays)
  }

  /** How many of reinstall, install and delete are set. */
  function ActionsCount(f: Flags): nat
  {
    (if f.reinstall then 1 else 0) + (if f.install then 1 else 0) + (if f.delete then 1 else 0)
  }

  /** The action: the first of delete, reinstall, sync, install and generate_env that is set, else install. */
  function Action(f: Flags): (a: string)
    ensures a in {"delete", "reinstall", "sync", "install", "generate_env"}
  {
    if f.delete then "delete"
    else if f.reinstall then "reinstall"
    else if f.sync then "sync"
    else if f.install then "install"
    else if f.generateEnv then "generate_env"
    else "install"
  }

  /** `os.path.expanduser` for the current user's home directory. */
  function ExpandUser(p: string, home: string): string
  {
    if p == "~" then home else if IsPrefix("~/", p) then home + p[1..] else p
  }

  /** The configuration files tried when none is given, in order. */
  function DefaultConfigs(path: string, home: string): seq<string>
  {
    [ExpandUser(path + "/etc/minimerge.cfg", home), ExpandUser("~/.minimerge.cfg", home)]
  }

  /** The first existing default configuration file. */
  function FirstFile(candidates: seq<string>, files: set<string>): (r: Option<string>)
    ensures r.Some? ==> r.value in candidates && r.value in files
    ensures r.None? ==> forall c :: c in candidates ==> c !in files
  {
    if candidates == [] then None
    else if candidates[0] in files then Some(candidates[0])
    else FirstFile(candidates[1..], files)
  }

  /**
   * The configuration file: the one given, else the first default file that
   * exists. The given name is checked as a file before it is expanded.
   */
  function Config(f: Flags, path: string, home: string, files: set<string>): Result<string, CliError>
  {
    var given := if Truthy(f.config) then Some(f.config.value) else FirstFile(DefaultConfigs(path, home), files);
    if given.None? || given.value == "" || given.value !in files then Err(InvalidConfigFileError)
    else Ok(ExpandUser(given.value, home))
  }

  function Options(action: string, f: Flags, args: seq<string>, path: string, config: string): MinimergeOptions
  {
    MinimergeOptions(action, args, config, path, f.ask, f.debug, f.fetchfirst, f.fetchonly, f.jump,
                     f.nodeps, f.offline, f.pretend, f.update, f.upgrade, f.verbose, f.onlyDependencies,
                     f.allPythonVersions, f.reinstallMinilays, f.binary, f.skipSelfUpgrade)
  }

  /**
   * `do_read_options` after parsing: `argc` is `len(sys.argv)`, `path` the
   * installation prefix, `files` the plain files that exist.
   */
  function ReadOptions(f: Flags, args: seq<string>, argc: nat, path: string, home: string, files: set<string>)
    : Result<MinimergeOptions, CliError>
  {
    if Conflicting(f) then Err(ConflictModesError)
    else if MissingPackages(f, args, argc) then Err(NoPackagesError)
    else if ActionsCount(f) > 1 then Err(TooMuchActionsError)
    else match Config(f, path, home, files)
      case Err(e) => Err(e)
      case Ok(c) => Ok(Options(Action(f), f, args, path, c))
  }

  /** Conflicting modes are refused before anything else is looked at. */
  lemma ConflictFirst(f: Flags, args: seq<string>, argc: nat, path: string, home: string, files: set<string>)
    ensures Conflicting(f) <==> ReadOptions(f, args, argc, path, home, files) == Err(ConflictModesError)
  {
  }

  /**
   * The errors in the order they are checked: each is raised exactly when
   * its own condition holds and no earlier one does.
   */
  lemma ErrorOrder(f: Flags, args: seq<string>, argc: nat, path: string, home: string, files: set<string>)
    ensures var r := ReadOptions(f, args, argc, path, home, files);
            && (r == Err(NoPackagesError) <==> !Conflicting(f) && MissingPackages(f, args, argc))
            && (r == Err(TooMuchActionsError) <==>
                  !Conflicting(f) && !MissingPackages(f, args, argc) && ActionsCount(f) > 1)
            && (r == Err(InvalidConfigFileError) <==>
                  !Conflicting(f) && !MissingPackages(f, args, argc) && ActionsCount(f) <= 1 &&
                  Config(f, path, home, files).Err?)
  {
  }

  /** Two of reinstall, install and delete make too many actions; sync and generate_env never count. */
  lemma TooManyActions(f: Flags)
    ensures ActionsCount(f) > 1 <==> (f.reinstall && f.install) || (f.reinstall && f.delete) || (f.install && f.delete)
    ensures ActionsCount(f.(sync := true, generateEnv := true)) == ActionsCount(f)
  {
  }

  /**
   * A successful read carries the packages as given and the action by
   * precedence: delete over reinstall over sync over install over
   * generate_env, with install when none is set.
   */
  lemma ReadCarries(f: Flags, args: seq<string>, argc: nat, path: string, home: string, files: set<string>)
    requires ReadOptions(f, args, argc, path, home, files).Ok?
    ensures var o := ReadOptions(f, args, argc, path, home, files).value;
            && o.packages == args && o.action == Action(f)
            && (f.delete ==> o.action == "delete")
            && (!f.delete && f.reinstall ==> o.action == "reinstall")
            && (!f.delete && !f.reinstall && f.sync ==> o.action == "sync")
            && (!f.delete && !f.reinstall && !f.sync && f.install ==> o.action == "install")
            && (!f.delete && !f.reinstall && !f.sync && !f.install && f.generateEnv ==> o.action == "generate_env")
            && (!f.delete && !f.reinstall && !f.sync && !f.install && !f.generateEnv ==> o.action == "install")
            && exists g :: g in files && o.config == ExpandUser(g, home)
  {
    var c := if Truthy(f.config) then Some(f.config.value) else FirstFile(DefaultConfigs(path, home), files);
    assert c.value in files;
  }

  /**
   * A `~/...` configuration given on the command line is checked as a file
   * under its literal name, so it is refused unless that literal path exists.
   */
  lemma TildeConfigCheckedLiterally(f: Flags, path: string, home: string, files: set<string>)
    requires Truthy(f.config) && IsPrefix("~/", f.config.value) && f.config.value !in files
    ensures Config(f, path, home, files) == Err(InvalidConfigFileError)
  {
  }

  /** `do_read_options` once the options are parsed, with its counting loop and if/elif chain. */
  method DoReadOptions(f: Flags, args: seq<string>, argc: nat, path: string, home: string, files: set<string>)
    returns (r: Result<MinimergeOptions, CliError>)
    ensures r == ReadOptions(f, args, argc, path, home, files)
  {
    if (f.reinstall && f.delete) || (f.fetchonly && f.offline) || (Truthy(f.jump) && f.nodeps) {
      return Err(ConflictModesError);
    }
    if (args == [] && argc > 1) && !(f.sync || f.reinstallMinilays) {
      return Err(NoPackagesError);
    }
    var actionsCount := CountActions([f.reinstall, f.install, f.delete]);
    CountThree(f.reinstall, f.install, f.delete);
    if actionsCount > 1 {
      return Err(TooMuchActionsError);
    }
    var action := ChooseAction(f);
    var c := ResolveConfig(f, path, home, files);
    assert !Conflicting(f) && !MissingPackages(f, args, argc) && ActionsCount(f) <= 1;
    if c.Err? {
      return Err(c.error);
    }
    r := Ok(Options(action, f, args, path, c.value));
  }

  /** The configuration lookup of `do_read_options`. */
  method ResolveConfig(f: Flags, path: string, home: string, files: set<string>) returns (r: Result<string, CliError>)
    ensures r == Config(f, path, home, files)
  {
    var config := f.config;
    if !Truthy(config) {
      config := FindConfig(DefaultConfigs(path, home), files);
    }
    if config.None? || config.value == "" || config.value !in files {
      return Err(InvalidConfigFileError);
    }
    r := Ok(ExpandUser(config.value, home));
  }

  /** The if/elif chain that sets `options.action`. */
  method ChooseAction(f: Flags) returns (action: string)
    ensures action == Action(f)
  {
    if f.delete {
      action := "delete";
    } else if f.reinstall {
      action := "reinstall";
    } else if f.sync {
      action := "sync";
    } else if f.install {
      action := "install";
    } else if f.generateEnv {
      action := "generate_env";
    } else {
      action := "install";
    }
  }

  /** The number of set flags. */
  function Count(bs: seq<bool>): nat
  {
    if bs == [] then 0 else (if bs[0] then 1 else 0) + Count(bs[1..])
  }

  lemma CountThree(a: bool, b: bool, c: bool)
    ensures Count([a, b, c]) == (if a then 1 else 0) + (if b then 1 else 0) + (if c then 1 else 0)
  {
    assert [a, b, c][1..] == [b, c] && [b, c][1..] == [c] && [c][1..] == [];
    assert Count([c]) == (if c then 1 else 0) + Count([]);
    assert Count([b, c]) == (if b then 1 else 0) + Count([c]);
  }

  /** The `actionsCount` loop. */
  method CountActions(actions: seq<bool>) returns (n: nat)
    ensures n == Count(actions)
  {
    n := 0;
    var i := 0;
    while i < |actions|
      invariant 0 <= i <= |actions|
      invariant n == Count(actions[..i])
    {
      assert actions[..i + 1] == actions[..i] + [actions[i]];
      CountAppend(actions[..i], actions[i]);
      if actions[i] {
        n := n + 1;
      }
      i := i + 1;
    }
    assert actions[..i] == actions;
  }

  lemma {:induction false} CountAppend(bs: seq<bool>, b: bool)
    ensures Count(bs + [b]) == Count(bs) + if b then 1 else 0
  {
    if bs != [] {
      assert (bs + [b])[1..] == bs[1..] + [b];
      CountAppend(bs[1..], b);
    } else {
      assert [] + [b] == [b];
    }
  }

  /** The loop over the default files: the first that is a file, and the search stops there. */
  method FindConfig(candidates: seq<string>, files: set<string>) returns (found: Option<string>)
    ensures found == FirstFile(candidates, files)
  {
    found := None;
    var i := 0;
    while i < |candidates|
      invariant 0 <= i <= |candidates|
      invariant FirstFile(candidates, files) == FirstFile(candidates[i..], files)
    {
      assert candidates[i..][1..] == candidates[i + 1..];
      if candidates[i] in files {
        found := Some(candidates[i]);
        return;
      }
      i := i + 1;
    }
  }
}
