/**
 * The template-variable helpers of ZopeSkel's base template: looking a
 * variable up by name, the variables hidden in a question mode, grouping
 * the questions into pages, a template's place in the stack of templates
 * being run, whether it prints the local-command notice, and the package
 * name defaults taken from a dotted project name.
 */
module ZopeSkel {
  import opened Wrappers
  import opened Text
  import RecipeCommon

  /** The question modes a variable may be asked in, and the mode asking everything. */
  datatype Mode = Easy | Expert | All

  /** A template variable; only its default is changed once it exists. */
  class Var {
    const name: string
    const page: string
    const modes: seq<Mode>
    var default: string

    constructor(name: string, page: string, modes: seq<Mode>, default: string)
      ensures this.name == name && this.page == page && this.modes == modes && this.default == default
    {
      this.name := name;
      this.page := page;
      this.modes := modes;
      this.default := default;
    }
  }

  /** The `ValueError` raised by a failed lookup. */
  datatype LookupError = NoSuchVar(name: string) | NotInStack(cls: string)

  // ------------------------------------------------------------- get_var

  /** The index of the first occurrence of `name` in `names`. */
  function FirstIndex(names: seq<string>, name: string): (r: Option<nat>)
    ensures r.Some? ==>
      r.value < |names| && names[r.value] == name && forall j :: 0 <= j < r.value ==> names[j] != name
    ensures r.None? ==> forall j :: 0 <= j < |names| ==> names[j] != name
  {
    if names == [] then None
    else if names[0] == name then Some(0)
    else match FirstIndex(names[1..], name)
      case None => None
      case Some(k) => Some(k + 1)
  }

  /** The names of the variables, in order. */
  function VarNames(vars: seq<Var>): (r: seq<string>)
    ensures |r| == |vars|
  {
    seq(|vars|, i requires 0 <= i < |vars| => vars[i].name)
  }

  /** `get_var(vars, name)`: the first variable called `name`, or `ValueError`. */
  method GetVar(vars: seq<Var>, name: string) returns (r: Result<Var, LookupError>)
    ensures r.Ok? <==> FirstIndex(VarNames(vars), name).Some?
    ensures r.Ok? ==> r.value == vars[FirstIndex(VarNames(vars), name).value] && r.value.name == name
    ensures r.Err? ==> r.error == NoSuchVar(name)
  {
    for i := 0 to |vars|
      invariant forall j :: 0 <= j < i ==> vars[j].name != name
    {
      if vars[i].name == name {
        assert VarNames(vars)[i] == name;
        return Ok(vars[i]);
      }
    }
    return Err(NoSuchVar(name));
  }

  // --------------------------------------------------- _filter_for_modes

  /** The hidden variables of `vars[..n]`, later ones overriding earlier ones. */
  function HiddenIn(mode: Mode, vars: seq<Var>): map<string, string>
    reads vars
  {
    if vars == [] then map[]
    else
      var m := HiddenIn(mode, vars[..|vars| - 1]);
      var v := vars[|vars| - 1];
      if mode !in v.modes then m[v.name := v.default] else m
  }

  /** `vars[i]` is the last variable called `n` not asked in `mode`. */
  predicate LastHiding(mode: Mode, vars: seq<Var>, n: string, i: int)
  {
    0 <= i < |vars| && vars[i].name == n && mode !in vars[i].modes
    && forall j :: i < j < |vars| ==> !(vars[j].name == n && mode !in vars[j].modes)
  }

  /** `_filter_for_modes(mode, expected_vars)`: name to default of every variable not asked in `mode`. */
  function Hidden(mode: Mode, vars: seq<Var>): map<string, string>
    reads vars
  {
    if mode == All then map[] else HiddenIn(mode, vars)
  }

  /** `vars[i]` is called `n` and is not asked in `mode`. */
  predicate Hides(mode: Mode, vars: seq<Var>, n: string, i: int)
  {
    0 <= i < |vars| && vars[i].name == n && mode !in vars[i].modes
  }

  /**
   * In `ALL` mode nothing is hidden; otherwise a name is hidden iff some
   * variable of that name is not asked in the mode, and it takes the default
   * of the last such variable.
   */
  lemma HiddenSpec(mode: Mode, vars: seq<Var>, n: string)
    ensures mode == All ==> Hidden(mode, vars) == map[]
    ensures mode != All ==> (n in Hidden(mode, vars) <==> exists i :: Hides(mode, vars, n, i))
    ensures mode != All ==> forall i :: LastHiding(mode, vars, n, i) ==>
      n in Hidden(mode, vars) && Hidden(mode, vars)[n] == vars[i].default
  {
    if mode != All {
      HiddenInDomain(mode, vars, n);
      forall i | LastHiding(mode, vars, n, i)
        ensures n in Hidden(mode, vars) && Hidden(mode, vars)[n] == vars[i].default
      {
        HiddenInValue(mode, vars, n, i);
      }
    }
  }

  lemma {:induction false} HiddenInDomain(mode: Mode, vars: seq<Var>, n: string)
    ensures n in HiddenIn(mode, vars) <==> exists i :: Hides(mode, vars, n, i)
  {
    if vars != [] {
      var k := |vars| - 1;
      var init := vars[..k];
      HiddenInDomain(mode, init, n);
      if Hides(mode, vars, n, k) {
        assert n in HiddenIn(mode, vars);
      } else {
        assert n in HiddenIn(mode, vars) <==> n in HiddenIn(mode, init);
        if exists i :: Hides(mode, vars, n, i) {
          var i :| Hides(mode, vars, n, i);
          assert Hides(mode, init, n, i);
        }
        if exists i :: Hides(mode, init, n, i) {
          var i :| Hides(mode, init, n, i);
          assert Hides(mode, vars, n, i);
        }
      }
    }
  }

  lemma {:induction false} HiddenInValue(mode: Mode, vars: seq<Var>, n: string, i: int)
    requires LastHiding(mode, vars, n, i)
    ensures n in HiddenIn(mode, vars) && HiddenIn(mode, vars)[n] == vars[i].default
  {
    var k := |vars| - 1;
    var init := vars[..k];
    if i < k {
      assert LastHiding(mode, init, n, i) by {
        assert forall j :: i < j < k ==> init[j] == vars[j];
      }
      HiddenInValue(mode, init, n, i);
      assert !(vars[k].name == n && mode !in vars[k].modes);
    }
  }

  /** `_filter_for_modes`, by its loop over the variables. */
  method FilterForModes(mode: Mode, vars: seq<Var>) returns (hidden: map<string, string>)
    ensures hidden == Hidden(mode, vars)
  {
    if mode == All {
      return map[];
    }
    hidden := map[];
    for i := 0 to |vars|
      invariant hidden == HiddenIn(mode, vars[..i])
    {
      assert vars[..i + 1][..i] == vars[..i];
      if mode !in vars[i].modes {
        hidden := hidden[vars[i].name := vars[i].default];
      }
    }
    assert vars[..|vars|] == vars;
  }

  // --------------------------------------------------------------- pages

  /** A page of questions: its name and its variables. */
  datatype Page = Page(name: string, vars: seq<Var>)

  /** The page of each variable, in order. */
  function PageNames(vars: seq<Var>): (r: seq<string>)
    ensures |r| == |vars| && forall i :: 0 <= i < |vars| ==> r[i] == vars[i].page
  {
    if vars == [] then [] else PageNames(vars[..|vars| - 1]) + [vars[|vars| - 1].page]
  }

  /** The variables on page `name`, in order. */
  function OnPage(vars: seq<Var>, name: string): seq<Var>
  {
    if vars == [] then []
    else OnPage(vars[..|vars| - 1], name) + (if vars[|vars| - 1].page == name then [vars[|vars| - 1]] else [])
  }

  /** One question added: to its page when it exists, else on a new page at the end. */
  function AddQuestion(pages: seq<Page>, v: Var): seq<Page>
  {
    match FirstIndex(Titles(pages), v.page)
    case Some(i) => pages[i := Page(pages[i].name, pages[i].vars + [v])]
    case None => pages + [Page(v.page, [v])]
  }

  /** The `pages` property of a template with variables `vars`. */
  function Pages(vars: seq<Var>): seq<Page>
  {
    if vars == [] then [] else AddQuestion(Pages(vars[..|vars| - 1]), vars[|vars| - 1])
  }

  function Titles(pages: seq<Page>): (r: seq<string>)
    ensures |r| == |pages| && forall i :: 0 <= i < |pages| ==> r[i] == pages[i].name
  {
    seq(|pages|, i requires 0 <= i < |pages| => pages[i].name)
  }

  /** There is one page per distinct page name, in the order the names first appear. */
  lemma {:induction false} PagesTitles(vars: seq<Var>)
    ensures Titles(Pages(vars)) == RecipeCommon.Dedup(PageNames(vars))
  {
    if vars != [] {
      var k := |vars| - 1;
      var init := vars[..k];
      var v := vars[k];
      var p := Pages(init);
      PagesTitles(init);
      RecipeCommon.DedupSpec(PageNames(init));
      assert PageNames(vars) == PageNames(init) + [v.page];
      match FirstIndex(Titles(p), v.page)
      case Some(i) =>
        assert Titles(p)[i] == v.page;
        assert Titles(Pages(vars)) == Titles(p);
      case None =>
        assert v.page !in Titles(p);
        assert Titles(Pages(vars)) == Titles(p) + [v.page];
    }
  }

  /** No variable of `vars` is on a page not named by them. */
  lemma {:induction false} OnPageEmpty(vars: seq<Var>, n: string)
    requires n !in PageNames(vars)
    ensures OnPage(vars, n) == []
  {
    if vars != [] {
      var k := |vars| - 1;
      assert PageNames(vars) == PageNames(vars[..k]) + [vars[k].page];
      OnPageEmpty(vars[..k], n);
    }
  }

  /** Each page lists the variables on it, in declaration order. */
  lemma {:induction false} PagesContents(vars: seq<Var>)
    ensures forall i :: 0 <= i < |Pages(vars)| ==> Pages(vars)[i].vars == OnPage(vars, Pages(vars)[i].name)
  {
    if vars != [] {
      var k := |vars| - 1;
      var init := vars[..k];
      var v := vars[k];
      var p := Pages(init);
      PagesContents(init);
      PagesTitles(init);
      RecipeCommon.DedupSpec(PageNames(init));
      forall i, j | 0 <= i < j < |p|
        ensures p[i].name != p[j].name
      {
        assert Titles(p)[i] != Titles(p)[j];
      }
      if FirstIndex(Titles(p), v.page).None? {
        assert v.page !in Titles(p);
        OnPageEmpty(init, v.page);
      }
      assert init + [v] == vars;
      AddQuestionContents(p, init, v);
    }
  }

  /** Adding a question keeps every page's variables those of `init` on it, now with `v`. */
  lemma AddQuestionContents(p: seq<Page>, init: seq<Var>, v: Var)
    requires forall i, j :: 0 <= i < j < |p| ==> p[i].name != p[j].name
    requires forall i :: 0 <= i < |p| ==> p[i].vars == OnPage(init, p[i].name)
    requires FirstIndex(Titles(p), v.page).None? ==> OnPage(init, v.page) == []
    ensures forall i :: 0 <= i < |AddQuestion(p, v)| ==>
      AddQuestion(p, v)[i].vars == OnPage(init + [v], AddQuestion(p, v)[i].name)
  {
    var q := AddQuestion(p, v);
    match FirstIndex(Titles(p), v.page)
    case Some(at) =>
      forall i | 0 <= i < |q|
        ensures q[i].vars == OnPage(init + [v], q[i].name)
      {
        OnPageSnoc(init, v, q[i].name);
        if i != at {
          assert q[i] == p[i];
        }
      }
    case None =>
      forall i | 0 <= i < |q|
        ensures q[i].vars == OnPage(init + [v], q[i].name)
      {
        OnPageSnoc(init, v, q[i].name);
        if i < |p| {
          assert q[i] == p[i];
        }
      }
  }

  lemma OnPageSnoc(init: seq<Var>, v: Var, n: string)
    ensures OnPage(init + [v], n) == OnPage(init, n) + (if v.page == n then [v] else [])
  {
    assert (init + [v])[..|init|] == init;
  }

  /**
   * There is one page per distinct page name, in the order the names first
   * appear, and each page lists the variables on it in declaration order.
   */
  lemma PagesSpec(vars: seq<Var>)
    ensures Titles(Pages(vars)) == RecipeCommon.Dedup(PageNames(vars))
    ensures forall i :: 0 <= i < |Pages(vars)| ==> Pages(vars)[i].vars == OnPage(vars, Pages(vars)[i].name)
  {
    PagesTitles(vars);
    PagesContents(vars);
  }

  /** The page names are distinct. */
  lemma PagesDistinct(vars: seq<Var>)
    ensures forall i, j :: 0 <= i < j < |Pages(vars)| ==> Pages(vars)[i].name != Pages(vars)[j].name
  {
    PagesTitles(vars);
    RecipeCommon.DedupSpec(PageNames(vars));
    forall i, j | 0 <= i < j < |Pages(vars)|
      ensures Pages(vars)[i].name != Pages(vars)[j].name
    {
      assert Titles(Pages(vars))[i] == Pages(vars)[i].name;
      assert Titles(Pages(vars))[j] == Pages(vars)[j].name;
    }
  }

  /** The pages are exactly the pages the variables name. */
  lemma PagesNamed(vars: seq<Var>)
    ensures forall n :: n in Titles(Pages(vars)) <==> exists i :: 0 <= i < |vars| && vars[i].page == n
  {
    PagesTitles(vars);
    RecipeCommon.DedupSpec(PageNames(vars));
    forall n | n in PageNames(vars)
      ensures exists i :: 0 <= i < |vars| && vars[i].page == n
    {
      var i :| 0 <= i < |PageNames(vars)| && PageNames(vars)[i] == n;
    }
    forall n, i | 0 <= i < |vars| && vars[i].page == n
      ensures n in PageNames(vars)
    {
      assert PageNames(vars)[i] == n;
    }
  }

  /** With distinct names, a page's own index is the one found by name. */
  lemma TitleIndexAt(pages: seq<Page>, at: nat)
    requires forall i, j :: 0 <= i < j < |pages| ==> pages[i].name != pages[j].name
    requires at < |pages|
    ensures FirstIndex(Titles(pages), pages[at].name) == Some(at)
  {
  }

  /** The `pages` property, by its loop with the map from page name to page. */
  method ComputePages(vars: seq<Var>) returns (pages: seq<Page>)
    ensures pages == Pages(vars)
  {
    pages := [];
    var pageMap: map<string, nat> := map[];
    for i := 0 to |vars|
      invariant pages == Pages(vars[..i])
      invariant forall n :: n in pageMap ==> pageMap[n] < |pages| && pages[pageMap[n]].name == n
      invariant forall j :: 0 <= j < |pages| ==> pages[j].name in pageMap
    {
      assert vars[..i + 1][..i] == vars[..i];
      assert Pages(vars[..i + 1]) == AddQuestion(pages, vars[i]);
      var name := vars[i].page;
      if name in pageMap {
        var at := pageMap[name];
        PagesDistinct(vars[..i]);
        TitleIndexAt(pages, at);
        pages := pages[at := Page(pages[at].name, pages[at].vars + [vars[i]])];
      } else {
        assert FirstIndex(Titles(pages), name) == None;
        pages := pages + [Page(name, [vars[i]])];
        pageMap := pageMap[name := |pages| - 1];
      }
    }
    assert vars[..|vars|] == vars;
  }

  // ------------------------------------ get_position_in_stack, subcommands

  /** A template of the stack: its class and whether that class uses local commands. */
  datatype Template = Template(cls: string, useLocalCommands: bool)

  /** `get_position_in_stack(stack)`: the index of the first template of the same class, or `ValueError`. */
  function PositionInStack(self: Template, stack: seq<Template>): (r: Result<nat, LookupError>)
    ensures r.Ok? ==>
      r.value < |stack| && stack[r.value].cls == self.cls && forall j :: 0 <= j < r.value ==> stack[j].cls != self.cls
    ensures r.Err? ==> r.error == NotInStack(self.cls) && forall j :: 0 <= j < |stack| ==> stack[j].cls != self.cls
  {
    if stack == [] then Err(NotInStack(self.cls))
    else if stack[0].cls == self.cls then Ok(0)
    else match PositionInStack(self, stack[1..])
      case Err(e) => Err(e)
      case Ok(k) => Ok(k + 1)
  }

  /**
   * `stack[i]` is the first template of `self`'s class, and no template
   * after it uses local commands.
   */
  predicate LastLocal(self: Template, stack: seq<Template>, i: int)
  {
    0 <= i < |stack| && stack[i].cls == self.cls
    && (forall j :: 0 <= j < i ==> stack[j].cls != self.cls)
    && (forall j :: i < j < |stack| ==> !stack[j].useLocalCommands)
  }

  /** Whether some template uses local commands (`True in have_subcommands_left`). */
  function AnyLocal(stack: seq<Template>): bool
  {
    if stack == [] then false else stack[0].useLocalCommands || AnyLocal(stack[1..])
  }

  /** `should_print_subcommands(command)` for the stack of templates the command runs. */
  function ShouldPrintSubcommands(self: Template, stack: seq<Template>): Result<bool, LookupError>
  {
    if !self.useLocalCommands then Ok(false)
    else match PositionInStack(self, stack)
      case Err(e) => Err(e)
      case Ok(i) => Ok(!AnyLocal(stack[i + 1..]))
  }

  lemma {:induction false} AnyLocalSpec(stack: seq<Template>)
    ensures AnyLocal(stack) <==> exists j :: 0 <= j < |stack| && stack[j].useLocalCommands
  {
    if stack != [] {
      AnyLocalSpec(stack[1..]);
      if exists j :: 0 <= j < |stack| && stack[j].useLocalCommands {
        var j :| 0 <= j < |stack| && stack[j].useLocalCommands;
        if j > 0 {
          assert stack[1..][j - 1] == stack[j];
        }
      }
    }
  }

  /**
   * The notice is printed iff the template uses local commands and no
   * template after its class's first place in the stack does; a template
   * using local commands whose class is not in the stack raises `ValueError`.
   */
  lemma ShouldPrintSpec(self: Template, stack: seq<Template>)
    ensures ShouldPrintSubcommands(self, stack) == Ok(true) <==>
      self.useLocalCommands && exists i :: LastLocal(self, stack, i)
    ensures ShouldPrintSubcommands(self, stack).Err? <==>
      self.useLocalCommands && forall j :: 0 <= j < |stack| ==> stack[j].cls != self.cls
  {
    var r := PositionInStack(self, stack);
    if r.Ok? {
      var i := r.value;
      AnyLocalSpec(stack[i + 1..]);
      forall i2 | LastLocal(self, stack, i2)
        ensures i2 == i
      {
      }
      if AnyLocal(stack[i + 1..]) {
        var j :| 0 <= j < |stack[i + 1..]| && stack[i + 1..][j].useLocalCommands;
        assert stack[i + 1 + j].useLocalCommands;
        assert !LastLocal(self, stack, i);
      } else {
        forall j | i < j < |stack|
          ensures !stack[j].useLocalCommands
        {
          assert stack[i + 1..][j - i - 1] == stack[j];
        }
        assert LastLocal(self, stack, i);
      }
    }
  }

  /**
   * In a stack whose classes are distinct, at most one of its templates
   * prints the notice: the last one that uses local commands.
   */
  lemma OneNotice(stack: seq<Template>, a: nat, b: nat)
    requires forall i, j :: 0 <= i < j < |stack| ==> stack[i].cls != stack[j].cls
    requires a < |stack| && b < |stack|
    requires ShouldPrintSubcommands(stack[a], stack) == Ok(true)
    requires ShouldPrintSubcommands(stack[b], stack) == Ok(true)
    ensures a == b
  {
    ShouldPrintSpec(stack[a], stack);
    ShouldPrintSpec(stack[b], stack);
    var i :| LastLocal(stack[a], stack, i);
    var k :| LastLocal(stack[b], stack, k);
    assert i == a && k == b;
  }

  // --------------------------------------- override_package_names_defaults

  /**
   * The defaults `override_package_names_defaults` sets, in order, for a
   * template with `ndots` (`None` when the template has none) and the
   * project name.
   */
  function PackageDefaults(ndots: Option<int>, project: string): seq<(string, string)>
  {
    if ndots.None? || ndots.value == 0 then [] else Assignments(ndots.value, Split(project, "."))
  }

  /** The defaults for a non-zero `ndots` and the dotted parts of the project name. */
  function Assignments(ndots: int, parts: seq<string>): seq<(string, string)>
    requires parts != []
  {
    (if ndots >= 1 then [("namespace_package", parts[0])] else [])
    + (if ndots >= 2 && |parts| >= 2 then [("namespace_package2", parts[1])] else [])
    + [("package", parts[|parts| - 1])]
  }

  /**
   * For a template with `ndots` dots and a project name with that many dots,
   * the namespace packages and the package are the dotted parts, and joining
   * them with `.` gives the project name back.
   */
  lemma PackageDefaultsRoundTrip(project: string, ndots: int)
    requires ndots == 1 || ndots == 2
    requires |Split(project, ".")| == ndots + 1
    ensures var d := PackageDefaults(Some(ndots), project);
      && |d| == ndots + 1
      && d[0].0 == "namespace_package" && d[|d| - 1].0 == "package"
      && Join(".", seq(|d|, i requires 0 <= i < |d| => d[i].1)) == project
  {
    var parts := Split(project, ".");
    AssignmentsValues(ndots, parts);
    SplitJoin(project, ".");
  }

  lemma AssignmentsValues(ndots: int, parts: seq<string>)
    requires ndots == 1 || ndots == 2
    requires |parts| == ndots + 1
    ensures var d := Assignments(ndots, parts);
      && |d| == ndots + 1
      && d[0].0 == "namespace_package" && d[|d| - 1].0 == "package"
      && seq(|d|, i requires 0 <= i < |d| => d[i].1) == parts
  {
  }

  /** A dotted name without `ndots`, or with `ndots` 0, changes no default. */
  lemma NoDotsNoDefaults(project: string)
    ensures PackageDefaults(None, project) == [] && PackageDefaults(Some(0), project) == []
  {
  }

  /** The package is always the last dotted part, whatever the number of dots. */
  lemma PackageIsLastPart(ndots: int, project: string)
    requires ndots != 0
    ensures var d := PackageDefaults(Some(ndots), project);
      && d != [] && d[|d| - 1] == ("package", Split(project, ".")[|Split(project, ".")| - 1])
      && (forall i :: 0 <= i < |d| - 1 ==> d[i].0 != "package")
  {
    AssignmentsLast(ndots, Split(project, "."));
  }

  lemma AssignmentsLast(ndots: int, parts: seq<string>)
    requires parts != []
    ensures var d := Assignments(ndots, parts);
      && d != [] && d[|d| - 1] == ("package", parts[|parts| - 1])
      && (forall i :: 0 <= i < |d| - 1 ==> d[i].0 != "package")
  {
    assert |"namespace_package"| != |"package"| && |"namespace_package2"| != |"package"|;
  }

  /** The number of defaults set before the first missing variable. */
  function Applied(defaults: seq<(string, string)>, vars: seq<Var>): (k: nat)
    ensures k <= |defaults|
    ensures forall j :: 0 <= j < k ==> FirstIndex(VarNames(vars), defaults[j].0).Some?
    ensures k < |defaults| ==> FirstIndex(VarNames(vars), defaults[k].0).None?
  {
    if defaults == [] || FirstIndex(VarNames(vars), defaults[0].0).None? then 0 else 1 + Applied(defaults[1..], vars)
  }

  /** The variable a default goes to: the first of that name. */
  function Target(vars: seq<Var>, name: string): Var
    requires FirstIndex(VarNames(vars), name).Some?
  {
    vars[FirstIndex(VarNames(vars), name).value]
  }

  /** `get_var(expect_vars, name).default = value`. */
  method SetDefault(vars: seq<Var>, name: string, value: string) returns (r: Result<(), LookupError>)
    modifies vars
    ensures r.Ok? <==> FirstIndex(VarNames(vars), name).Some?
    ensures r.Err? ==> r.error == NoSuchVar(name)
    ensures r.Ok? ==> Target(vars, name).default == value
    ensures forall v :: v in vars && (r.Err? || v != Target(vars, name)) ==> v.default == old(v.default)
  {
    var found := GetVar(vars, name);
    match found
    case Err(e) =>
      return Err(e);
    case Ok(v) =>
      v.default := value;
      return Ok(());
  }

  /** The variables `PackageDefaults` names are distinct. */
  lemma DefaultsDistinct(ndots: Option<int>, project: string)
    ensures var d := PackageDefaults(ndots, project);
      forall i, j :: 0 <= i < j < |d| ==> d[i].0 != d[j].0
  {
    if ndots.Some? && ndots.value != 0 {
      AssignmentsDistinct(ndots.value, Split(project, "."));
    }
  }

  lemma AssignmentsDistinct(ndots: int, parts: seq<string>)
    requires parts != []
    ensures var d := Assignments(ndots, parts);
      forall i, j :: 0 <= i < j < |d| ==> d[i].0 != d[j].0
  {
    assert |"namespace_package"| != |"package"| && |"namespace_package2"| != |"package"|;
    assert |"namespace_package"| != |"namespace_package2"|;
  }

  /**
   * The defaults `d` set in order, each on the first variable of its name,
   * until a variable is missing, which raises `ValueError`; the defaults set
   * before it stay set.
   */
  method SetDefaults(d: seq<(string, string)>, vars: seq<Var>) returns (r: Result<(), LookupError>)
    requires forall i, j :: 0 <= i < j < |d| ==> d[i].0 != d[j].0
    modifies vars
    decreases |d|
    ensures r.Ok? <==> Applied(d, vars) == |d|
    ensures r.Err? ==> r.error == NoSuchVar(d[Applied(d, vars)].0)
    ensures forall j :: 0 <= j < Applied(d, vars) ==> Target(vars, d[j].0).default == d[j].1
    ensures forall v :: v in vars && (forall j :: 0 <= j < Applied(d, vars) ==> v != Target(vars, d[j].0)) ==>
      v.default == old(v.default)
  {
    if d == [] {
      return Ok(());
    }
    r := SetDefault(vars, d[0].0, d[0].1);
    if r.Err? {
      return;
    }
    assert forall j :: 0 <= j < |d[1..]| ==> d[1..][j].0 != d[0].0;
    r := SetDefaults(d[1..], vars);
    assert Applied(d, vars) == 1 + Applied(d[1..], vars);
    forall j | 0 < j < Applied(d, vars)
      ensures Target(vars, d[j].0).default == d[j].1
    {
      assert d[j] == d[1..][j - 1];
    }
  }

  /**
   * `override_package_names_defaults(vars, expect_vars)`: the defaults of
   * `PackageDefaults` are set in order until a variable is missing, which
   * raises `ValueError`; the defaults set before it stay set.
   */
  method OverridePackageNamesDefaults(ndots: Option<int>, project: string, vars: seq<Var>) returns (r: Result<(), LookupError>)
    modifies vars
    ensures var d := PackageDefaults(ndots, project);
      && (r.Ok? <==> Applied(d, vars) == |d|)
      && (r.Err? ==> r.error == NoSuchVar(d[Applied(d, vars)].0))
      && (forall j :: 0 <= j < Applied(d, vars) ==> Target(vars, d[j].0).default == d[j].1)
      && (forall v :: v in vars && (forall j :: 0 <= j < Applied(d, vars) ==> v != Target(vars, d[j].0)) ==>
            v.default == old(v.default))
  {
    DefaultsDistinct(ndots, project);
    r := SetDefaults(PackageDefaults(ndots, project), vars);
  }
}
