# minitage core, modelled in Dafny

minitage is a meta package manager built on zc.buildout. It keeps
*minilays*: directories of *minibuilds*, which are small INI files. Each
minibuild describes one package: its category, its source and its
dependencies. The `minimerge` command turns a list of requested packages
into an install order, then fetches and builds each package in that order.

This project models the core of that system, one Dafny module per source
file. It proves the behaviour each part promises.

| module | file | models |
|---|---|---|
| `Wrappers` | wrappers.dfy | `Option` and `Result`, standing for Python's `None` and for raised exceptions |
| `Text` | text.dfy | the Python string operations the code relies on: `split`, `strip`, `replace`, `find`, `int()` and path joining |
| `Objects` | objects.dfy | minibuilds and minilays: the name pattern, the file filter, the validation of the `[minibuild]` section in its fixed order of errors, `${var}` substitution, the values `write` stores, and the minilay catalog filled on demand |
| `Collections` | collections.dfy | `LazyLoadedList` and `LazyLoadedDict`: loading on demand, item access, membership |
| `Resolver` | resolver.dfy | `find_minibuild(s)` over the ordered minilays, and `_compute_dependencies`: the depth-first walk that inserts a dependency tree into one build list, with cycle detection through the recursion limit |
| `Pythons` | pythons.dfy | `_select_pythons`: which python versions a run needs, and how other pythons are cut out of the build list |
| `Files` | fs.dfy | the part of the file system the code inspects: directories with their listings, and plain files |
| `Store` | store.dfy | the `.minitage` history directory of a package: the install markers, the `is_package_*` decisions and the marker bookkeeping of `_do_action` |
| `MainFlow` | mainflow.dfy | the list filters of `main`, the `_fetch` loop, the architecture and binary-URL helpers, install paths |
| `CoreCommon` | core_common.dfy | `minitage.core.common`: `splitstrip`, the `newline` rewriting of a configuration file, `is_local_url` and `make_backup` |
| `Update` | update.dfy | `minitage.core.update`: migrating minibuilds to renamed libraries, and adopting installed packages into the history store |
| `Cli` | cli.dfy | the checks of `do_read_options` after option parsing: conflicting modes, missing packages, too many actions, the action chosen, the configuration file looked up and the options handed on |
| `Buildout` | buildout.dfy | `BuildoutMaker`: the buildout command line built for each part, and how `install` runs parts and reports failures |
| `Fetchers` | fetchers.dfy | the generic fetcher: URI syntax and how `fetch`, `update` and `fetch_or_update` order the archive, checkout and update steps |
| `Scm` | scm.dfy | the Mercurial, Subversion, Bazaar and Git fetchers: the switch that selects each, the URIs each accepts, and how each detects a changed URI |
| `RecipeCommon` | recipe_common.dfy | `minitage.recipe.common`: `uniquify`, `divide_url`, `appendVar`, the table of source URLs and the guess of the compilation directory |
| `Egg` | egg.dfy | `minitage.recipe.egg`: the versions of patched eggs, requirement merging and `build_ext` options |
| `ZopeSkel` | zopeskel.dfy | the ZopeSkel `BaseTemplate`: variable lookup, mode filtering, question pages, the sub-template notice and package-name defaults |

Three patterns recur throughout:

- An operation the source performs with a loop is a `method` proved against
  a specification function. The properties the source promises are then
  proved about that function as lemmas.
- An object whose fields the source updates is a `class`. Examples are the
  minibuilds, the lazy collections, the buildout maker, requirements and
  template variables.
- I/O, subprocesses, the clock and the network are parameters of the model.
  Examples are a directory listing, the set of commands that fail and the
  answer of a version-control client.

## Model

| member | source | states |
|---|---|---|
| Collections.At | source/eggs/minitage.core-2.0.27-py2.7.egg/minitage/core/collections.py:49-53 | `list[i]` succeeds exactly when -n <= i < n, giving the element counted from the front or, for a negative index, from the end; otherwise `IndexError` |
| Collections.Slice | source/eggs/minitage.core-2.0.27-py2.7.egg/minitage/core/collections.py:55-59 | a slice is never longer than the list, is `s[lo..hi]` for in-range bounds, is empty for crossed or out-of-range bounds, and holds only elements of the list |
| Collections.FirstIndex | source/eggs/minitage.core-2.0.27-py2.7.egg/minitage/core/collections.py:67-71 | `index(x)` succeeds iff `x` is in the list, at its first position; otherwise `ValueError` |
| Collections.Lookup | source/eggs/minitage.core-2.0.27-py2.7.egg/minitage/core/collections.py:92-96 | `dict[k]` succeeds iff `k` is stored, with the stored value; otherwise `KeyError` |
| Collections.LazyLoadedList.constructor | source/eggs/minitage.core-2.0.27-py2.7.egg/minitage/core/collections.py:35-37 | a new list is empty and not loaded |
| Collections.LazyLoadedList.IsLoaded | source/eggs/minitage.core-2.0.27-py2.7.egg/minitage/core/collections.py:39-41 | reports the loaded flag |
| Collections.LazyLoadedList.Load | source/eggs/minitage.core-2.0.27-py2.7.egg/minitage/core/collections.py:43-47 | afterwards the list is loaded and its elements are unchanged; a second load changes nothing |
| Collections.LazyLoadedList.GetItem | source/eggs/minitage.core-2.0.27-py2.7.egg/minitage/core/collections.py:49-53 | loads the list, keeps its elements, and answers `list[i]` (`At`) |
| Collections.LazyLoadedList.GetSlice | source/eggs/minitage.core-2.0.27-py2.7.egg/minitage/core/collections.py:55-59 | loads the list, keeps its elements, and answers the slice (`Slice`) |
| Collections.LazyLoadedList.Contains | source/eggs/minitage.core-2.0.27-py2.7.egg/minitage/core/collections.py:61-65 | loads the list and answers membership |
| Collections.LazyLoadedList.Index | source/eggs/minitage.core-2.0.27-py2.7.egg/minitage/core/collections.py:67-71 | loads the list and answers `index(x)` (`FirstIndex`) |
| Collections.LazyLoadedDict.constructor | source/eggs/minitage.core-2.0.27-py2.7.egg/minitage/core/collections.py:76-80 | a new dict stores nothing, has recorded no item and is not loaded |
| Collections.LazyLoadedDict.Load | source/eggs/minitage.core-2.0.27-py2.7.egg/minitage/core/collections.py:82-90 | a given item is appended to `items` (even a second time) and the dict marked loaded; `None` changes nothing; the stored entries never change |
| Collections.LazyLoadedDict.Put | source/eggs/minitage.core-2.0.27-py2.7.egg/minitage/core/collections.py:73-80 | the inherited `dict` assignment stores the value and touches neither `items` nor the flag |
| Collections.LazyLoadedDict.GetItem | source/eggs/minitage.core-2.0.27-py2.7.egg/minitage/core/collections.py:92-96 | records the key only when it is not yet in `items`, leaves the stored entries alone, and answers `dict[k]` (`Lookup`) |
| Collections.LazyLoadedDict.Contains | source/eggs/minitage.core-2.0.27-py2.7.egg/minitage/core/collections.py:98-102 | records like `__getitem__`, then answers from the stored entries, not from `items` |
| Collections.RecordedButNotStored | source/eggs/minitage.core-2.0.27-py2.7.egg/minitage/core/collections.py:92-102 | on a fresh dict a key asked for is recorded in `items`, yet `dict[k]` still raises `KeyError` and `in` is false |
| Collections.LoadTwice | source/eggs/minitage.core-2.0.27-py2.7.egg/minitage/core/collections.py:43-47 | loading twice leaves the list loaded with the same elements |
| Objects.AcceptedNameShape | source/eggs/minitage.core-2.0.27-py2.7.egg/minitage/core/objects.py:110-135 | every accepted name, once the one trailing newline `$` tolerates is dropped, is non-empty, starts with a letter or digit, uses only name characters and ends with a letter, digit or `.`; otherwise its last character is a newline |
| Objects.WellNamedShape | source/eggs/minitage.core-2.0.27-py2.7.egg/minitage/core/objects.py:110-135 | the intended reading of the pattern (anchored without the trailing newline): an accepted name is non-empty, starts with an ASCII letter or digit, uses only letters, digits, `-`, `.` and `_`, and ends with a letter, digit or `.` |
| Objects.TrailingNewlineAccepted | source/eggs/minitage.core-2.0.27-py2.7.egg/minitage/core/objects.py:125-135 | the pattern as written accepts "zlib" followed by a newline |
| Objects.FilterOnValidNames | source/eggs/minitage.core-2.0.27-py2.7.egg/minitage/core/objects.py:137-145 | a well-formed descriptor name never starts with a dot, so the filter drops it exactly when it starts with "readme" in any case or ends with ".svn", ".sav" or "ignore" |
| Objects.DotFiltered | source/eggs/minitage.core-2.0.27-py2.7.egg/minitage/core/objects.py:137-145 | a name starting with a dot is always filtered |
| Objects.Without | source/eggs/minitage.core-2.0.27-py2.7.egg/minitage/core/objects.py:287-290 | the kept elements are exactly the elements of the first list absent from the second, in their order |
| Objects.DependenciesShape | source/eggs/minitage.core-2.0.27-py2.7.egg/minitage/core/objects.py:282-294 | without a non-empty replacement list every plain dependency stays, in order, at the end, and each OS-specific one in front is new; a non-empty replacement list is the whole result |
| Objects.ReadDependencies | source/eggs/minitage.core-2.0.27-py2.7.egg/minitage/core/objects.py:282-294 | the step-by-step assignments of `dependencies` compute the dependency list the model specifies |
| Objects.RevisionDefault | source/eggs/minitage.core-2.0.27-py2.7.egg/minitage/core/objects.py:297-300 | a section without `revision` has revision 0 |
| Objects.RevisionValue | source/eggs/minitage.core-2.0.27-py2.7.egg/minitage/core/objects.py:297-300 | a stripped run of decimal digits is read as its value; anything else gives 0 |
| Objects.FindAll | source/eggs/minitage.core-2.0.27-py2.7.egg/minitage/core/objects.py:442-446 | no found reference name contains `}`, since each stops at the first `}` after its `${` |
| Objects.FindAllNoMarker | source/eggs/minitage.core-2.0.27-py2.7.egg/minitage/core/objects.py:445-446 | a text without `${` has no references |
| Objects.ExpandPlain | source/eggs/minitage.core-2.0.27-py2.7.egg/minitage/core/objects.py:444-446 | a value without `${` is left unchanged by substitution |
| Objects.ExpandUnknown | source/eggs/minitage.core-2.0.27-py2.7.egg/minitage/core/objects.py:446-447 | a reference to an unknown variable stays verbatim |
| Objects.ExpandReference | source/eggs/minitage.core-2.0.27-py2.7.egg/minitage/core/objects.py:446-455 | a value that is exactly one known reference becomes that variable's value |
| Objects.ExpandNested | source/eggs/minitage.core-2.0.27-py2.7.egg/minitage/core/objects.py:438-455 | the two passes resolve one level of nesting: a variable whose value references a plain variable ends as the plain value |
| Objects.ExpandField | source/eggs/minitage.core-2.0.27-py2.7.egg/minitage/core/objects.py:446-455 | the loop over the found references performs one substitution pass as the pass function specifies |
| Objects.ExpandOptField | source/eggs/minitage.core-2.0.27-py2.7.egg/minitage/core/objects.py:443-444 | an unset attribute stays unset; a set one gets one substitution pass |
| Objects.ExpandAllFields | source/eggs/minitage.core-2.0.27-py2.7.egg/minitage/core/objects.py:441-455 | one pass over every string attribute gives the specified expanded descriptor |
| Objects.ParseVarsKeeps | source/eggs/minitage.core-2.0.27-py2.7.egg/minitage/core/objects.py:434-455 | substitution rewrites only string attributes and never sets or unsets one |
| Objects.ReadSectionErrors | source/eggs/minitage.core-2.0.27-py2.7.egg/minitage/core/objects.py:258-279 | an invalid name, an unreadable file and a missing `[minibuild]` section each raise their error exactly under their condition, in that order |
| Objects.SectionErrors | source/eggs/minitage.core-2.0.27-py2.7.egg/minitage/core/objects.py:303-368 | the errors raised on the section (install method, missing or invalid fetch method, missing or invalid category, empty meta package) each occur exactly under their condition, in source order |
| Objects.SectionErrorKinds | source/eggs/minitage.core-2.0.27-py2.7.egg/minitage/core/objects.py:303-368 | the section checks never raise the errors that precede reading the section |
| Objects.SourceFieldsErrors | source/eggs/minitage.core-2.0.27-py2.7.egg/minitage/core/objects.py:318-357 | the source checks raise missing fetch method, invalid fetch method, missing category and invalid category exactly under their conditions, in that order |
| Objects.ReadSectionValid | source/eggs/minitage.core-2.0.27-py2.7.egg/minitage/core/objects.py:258-368 | a successful read means a valid name, a present section, an accepted install method and a non-empty install method or dependency list |
| Objects.SourceFieldsValid | source/eggs/minitage.core-2.0.27-py2.7.egg/minitage/core/objects.py:318-357 | a successful source check means a fetch method in the valid list and an alphanumeric or bypassed category |
| Objects.LoadedIsValid | source/eggs/minitage.core-2.0.27-py2.7.egg/minitage/core/objects.py:258-370 | a loaded descriptor passed every check of `load`, read off the raw section |
| Objects.ReadSource | source/eggs/minitage.core-2.0.27-py2.7.egg/minitage/core/objects.py:318-357 | the checks on a non-empty `src_uri`, run in source order, give the specified source fields or the first error |
| Objects.ReadFields | source/eggs/minitage.core-2.0.27-py2.7.egg/minitage/core/objects.py:258-368 | the reading half of `load`, run step by step, gives the specified descriptor or error and keeps path and name |
| Objects.LoadIntoSteps | source/eggs/minitage.core-2.0.27-py2.7.egg/minitage/core/objects.py:258-373 | `load` is the section read followed by substitution; a read error is returned unchanged |
| Objects.Write | source/eggs/minitage.core-2.0.27-py2.7.egg/minitage/core/objects.py:375-422 | every written value replaces or adds its key, an empty list or None leaves the key as it was, and no other key appears |
| Objects.WriteThenReadDependencies | source/eggs/minitage.core-2.0.27-py2.7.egg/minitage/core/objects.py:282-283 | writing a non-empty list of non-empty words as `dependencies` and reading it back gives the same list |
| Objects.Minibuild.constructor | source/eggs/minitage.core-2.0.27-py2.7.egg/minitage/core/objects.py:218-244 | a new descriptor has only its path-derived attributes and is not loaded |
| Objects.Minibuild.Load | source/eggs/minitage.core-2.0.27-py2.7.egg/minitage/core/objects.py:258-373 | on success the attributes are those the load specification gives; otherwise the error is the one it names; the loaded flag is untouched |
| Objects.Minibuild.ParseVars | source/eggs/minitage.core-2.0.27-py2.7.egg/minitage/core/objects.py:434-455 | after the two passes the attributes are the specified two-pass substitution of the old ones |
| Objects.Minibuild.Access | source/eggs/minitage.core-2.0.27-py2.7.egg/minitage/core/objects.py:246-256 | the first read of a lazy attribute marks the descriptor loaded and then loads; later reads change nothing, so a failed load is not retried |
| Objects.Unfiltered | source/eggs/minitage.core-2.0.27-py2.7.egg/minitage/core/objects.py:176-178 | the full-scan list holds exactly the listing's names the filter keeps |
| Objects.AdmitAppends | source/eggs/minitage.core-2.0.27-py2.7.egg/minitage/core/objects.py:180-190 | the scan only appends: old names stay in front, each new name is an unfiltered file from the candidates, and no name is recorded twice |
| Objects.AdmitComplete | source/eggs/minitage.core-2.0.27-py2.7.egg/minitage/core/objects.py:180-190 | every unfiltered file among the candidates ends up recorded |
| Objects.DotPathHidesItems | source/eggs/minitage.core-2.0.27-py2.7.egg/minitage/core/objects.py:170-178 | under a path starting with a dot, a single-item load never finds a relative item, while a full scan finds every unfiltered name |
| Objects.Minilay.constructor | source/eggs/minitage.core-2.0.27-py2.7.egg/minitage/core/objects.py:157-160 | a new minilay has no recorded names and is not loaded |
| Objects.OpenMinilay | source/eggs/minitage.core-2.0.27-py2.7.egg/minitage/core/objects.py:157-164 | opening succeeds exactly when the path is a directory |
| Objects.Minilay.Load | source/eggs/minitage.core-2.0.27-py2.7.egg/minitage/core/objects.py:166-190 | nothing changes once fully scanned or when the item is recorded; otherwise the candidates are admitted in order, and a full scan marks the minilay loaded |
| Objects.Minilay.RecordAll | source/eggs/minitage.core-2.0.27-py2.7.egg/minitage/core/objects.py:180-190 | the inner loop records exactly the admitted names, in order, keeping names distinct and each entry the joined path |
| Objects.Minilay.Record | source/eggs/minitage.core-2.0.27-py2.7.egg/minitage/core/objects.py:185-190 | one admitted name is recorded with its descriptor path |
| Objects.Minilay.GetItem | source/eggs/minitage.core-2.0.27-py2.7.egg/minitage/core/collections.py:92-96 | a lookup loads the name when unrecorded and succeeds exactly when the name is then recorded |
| Objects.Minilay.Contains | source/eggs/minitage.core-2.0.27-py2.7.egg/minitage/core/collections.py:98-102 | membership loads like lookup and answers from the recorded entries |
| Objects.ScanAll | source/eggs/minitage.core-2.0.27-py2.7.egg/minitage/core/objects.py:166-190 | after a full scan every unfiltered file of the listing is recorded |
| Resolver.Find | source/eggs/minitage.core-2.0.27-py2.7.egg/minitage/core/core.py:341-354 | nothing is found exactly when no catalog holds the name |
| Resolver.FindFirst | source/eggs/minitage.core-2.0.27-py2.7.egg/minitage/core/core.py:350-352 | the entry found is the one of the first catalog that holds the name |
| Resolver.FindMinibuild | source/eggs/minitage.core-2.0.27-py2.7.egg/minitage/core/core.py:341-354 | the loop over the minilays returns what the lookup specification finds |
| Resolver.FindAll | source/eggs/minitage.core-2.0.27-py2.7.egg/minitage/core/core.py:356-368 | on success one entry per name, each the one found for it; the call fails exactly when some name is in no catalog, and the failing name is such a name |
| Resolver.InsertIndex | source/eggs/minitage.core-2.0.27-py2.7.egg/minitage/core/core.py:391-400 | the insertion point is the first listed package whose dependencies name the package, or the end when none does |
| Resolver.InsertIndexFirst | source/eggs/minitage.core-2.0.27-py2.7.egg/minitage/core/core.py:391-400 | the insertion point is the only position with no dependent before it and a dependent at it (or the end) |
| Resolver.PriorityIndex | source/eggs/minitage.core-2.0.27-py2.7.egg/minitage/core/core.py:391-400 | the scan over the ancestors returns the specified insertion point |
| Resolver.InsertMissing | source/eggs/minitage.core-2.0.27-py2.7.egg/minitage/core/core.py:402-403 | inserting a package not yet listed at that point gives the specified placement; a listed package leaves the list unchanged |
| Resolver.PlaceKeeps | source/eggs/minitage.core-2.0.27-py2.7.egg/minitage/core/core.py:402-403 | placing a package keeps the old list as a subsequence, adds the package and nothing else, and keeps the list free of repeats |
| Resolver.ComputeDependencies | source/eggs/minitage.core-2.0.27-py2.7.egg/minitage/core/core.py:370-413 | the loop over the packages, recursing into each one's dependencies, gives the outcome of the specified walk (whose order `Resolver.WalkOrdered` states) |
| Resolver.DescendInto | source/eggs/minitage.core-2.0.27-py2.7.egg/minitage/core/core.py:402-412 | placing a package and walking its dependencies one frame deeper gives the specified step, a spent stack there being reported as a circular dependency around the package |
| Resolver.WalkKeepsOrder | source/eggs/minitage.core-2.0.27-py2.7.egg/minitage/core/core.py:370-413 | a successful walk never removes or reorders what was listed and never lists a descriptor twice |
| Resolver.WalkListsFound | source/eggs/minitage.core-2.0.27-py2.7.egg/minitage/core/core.py:386-403 | everything a successful walk lists was listed before or is a descriptor found for some name |
| Resolver.WalkGrows | source/eggs/minitage.core-2.0.27-py2.7.egg/minitage/core/core.py:386-413 | a successful walk keeps everything that was listed |
| Resolver.WalkListsRequested | source/eggs/minitage.core-2.0.27-py2.7.egg/minitage/core/core.py:386-403 | a successful walk lists every requested package |
| Resolver.WalkCloses | source/eggs/minitage.core-2.0.27-py2.7.egg/minitage/core/core.py:404-408 | every package a successful walk adds has all its dependencies listed |
| Resolver.FoundName | source/eggs/minitage.core-2.0.27-py2.7.egg/minitage/core/core.py:350-352 | when each catalog stores descriptors under their own names, the descriptor found for a name carries that name |
| Resolver.WalkErrors | source/eggs/minitage.core-2.0.27-py2.7.egg/minitage/core/core.py:341-354 | a name reported missing is in no catalog; a load failure is the error stored for that name |
| Resolver.WalkNoLimit | source/eggs/minitage.core-2.0.27-py2.7.egg/minitage/core/core.py:406-412 | with stack left at the top, exhausting the stack never escapes as such: it is reported as a circular dependency |
| Resolver.CycleFails | source/eggs/minitage.core-2.0.27-py2.7.egg/minitage/core/core.py:404-412 | a walk that requests a package on a dependency cycle fails, whatever the stack |
| Resolver.CycleError | source/eggs/minitage.core-2.0.27-py2.7.egg/minitage/core/core.py:386-412 | with stack left at the top, a walk reaching a cycle fails with a circular dependency, or with a package on the way that no catalog holds or that fails to load |
| Resolver.WalkClosed | source/eggs/minitage.core-2.0.27-py2.7.egg/minitage/core/core.py:386-412 | a walk among packages that are all found, load, and depend only on each other fails only on the stack |
| Resolver.CycleCircular | source/eggs/minitage.core-2.0.27-py2.7.egg/minitage/core/core.py:404-412 | when every package the walk can reach is found and loads, a cycle is reported as a circular dependency |
| Resolver.FuelMonotone | source/eggs/minitage.core-2.0.27-py2.7.egg/minitage/core/core.py:370-413 | once a walk succeeds, a deeper stack gives the same list |
| Resolver.WalkFinished | source/eggs/minitage.core-2.0.27-py2.7.egg/minitage/core/core.py:386-408 | walking packages that are already listed, each with its dependencies before it, leaves the list as it was |
| Resolver.StackCycle | source/eggs/minitage.core-2.0.27-py2.7.egg/minitage/core/core.py:404-412 | reaching a package that is already on the chain of running walks makes the walk fail |
| Resolver.WalkInOrder | source/eggs/minitage.core-2.0.27-py2.7.egg/minitage/core/core.py:386-412 | inside a nested walk a new package goes right before the package whose dependencies are being walked, so the finished part of the list stays in dependency order, lists every requested package, and the running packages stay at the end |
| Resolver.WalkOrdered | source/eggs/minitage.core-2.0.27-py2.7.egg/minitage/core/core.py:391-412 | from a list of found descriptors without repeats and in dependency order (the empty list is one), a successful walk lists each package after all of its dependencies: whenever a listed package names another as a dependency, the dependency comes first |
| Resolver.DependencyFirst | source/eggs/minitage.core-2.0.27-py2.7.egg/minitage/core/core.py:391-403 | one example: with a single catalog where A depends on B and B on nothing, resolving ["A"] from an empty list with stack 3 gives [B, A] |
| Resolver.SelfDependency | source/eggs/minitage.core-2.0.27-py2.7.egg/minitage/core/core.py:404-412 | a package depending on itself is reported circular, with the list reached so far |
| Pythons.PythonName | source/eggs/minitage.core-2.0.27-py2.7.egg/minitage/core/core.py:1022-1023 | a python package name is "python-" followed by the version |
| Pythons.PythonNamesOfVersions | source/eggs/minitage.core-2.0.27-py2.7.egg/minitage/core/core.py:99 | the python package names are those of `PYTHON_VERSIONS`, one per version, in order |
| Pythons.VersionOf | source/eggs/minitage.core-2.0.27-py2.7.egg/minitage/core/core.py:1030-1034 | stripping "python-" from a python package name gives the version it was built from |
| Pythons.ScanDirects | source/eggs/minitage.core-2.0.27-py2.7.egg/minitage/core/core.py:1028-1038 | the loop over the requested packages computes the specified direct scan |
| Pythons.AddVersions | source/eggs/minitage.core-2.0.27-py2.7.egg/minitage/core/core.py:1044-1048 | the inner loop adds each python version a package names, once, unless the package is `meta-python` |
| Pythons.ScanPackages | source/eggs/minitage.core-2.0.27-py2.7.egg/minitage/core/core.py:1040-1052 | the loop over the resolved packages computes the specified versions and meta packages |
| Pythons.NewestInstalled | source/eggs/minitage.core-2.0.27-py2.7.egg/minitage/core/core.py:1060-1071 | the reversed walk over the pythons returns the specified fallback version |
| Pythons.SelectVersions | source/eggs/minitage.core-2.0.27-py2.7.egg/minitage/core/core.py:1019-1085 | the whole version selection computes the specified version list |
| Pythons.NewestKnown | source/eggs/minitage.core-2.0.27-py2.7.egg/minitage/core/core.py:1056-1080 | the fallback version is the newest installed python with no newer one installed, or the newest of all when none is installed |
| Pythons.SelectedAreKnown | source/eggs/minitage.core-2.0.27-py2.7.egg/minitage/core/core.py:1019-1085 | only versions of `PYTHON_VERSIONS` are ever selected |
| Pythons.DirectScanGrows | source/eggs/minitage.core-2.0.27-py2.7.egg/minitage/core/core.py:1029-1038 | the direct scan only adds versions, and adds them all once it stops on a requested egg |
| Pythons.DirectScanHas | source/eggs/minitage.core-2.0.27-py2.7.egg/minitage/core/core.py:1029-1038 | a requested python package's version is in the direct scan's versions |
| Pythons.RequestedPythonSelected | source/eggs/minitage.core-2.0.27-py2.7.egg/minitage/core/core.py:1029-1034 | a requested python package's version is selected |
| Pythons.RequestedEggSelectsAll | source/eggs/minitage.core-2.0.27-py2.7.egg/minitage/core/core.py:1035-1038 | a requested egg, when every version is asked for, selects all of `PYTHON_VERSIONS` |
| Pythons.NamedPythonSelected | source/eggs/minitage.core-2.0.27-py2.7.egg/minitage/core/core.py:1041-1048 | a python version that a resolved package other than `meta-python` depends on is selected |
| Pythons.DirectScanEmpty | source/eggs/minitage.core-2.0.27-py2.7.egg/minitage/core/core.py:1029-1038 | with no python and no egg-with-all-versions requested, the direct scan selects nothing |
| Pythons.PackageScanMetas | source/eggs/minitage.core-2.0.27-py2.7.egg/minitage/core/core.py:1041-1052 | with no python named by the packages, the scan adds no version and collects a meta package exactly when some package needs a python |
| Pythons.FallbackVersion | source/eggs/minitage.core-2.0.27-py2.7.egg/minitage/core/core.py:1054-1085 | with no python requested or named, packages needing a python get the newest installed version (else the newest of all); otherwise no version is selected |
| Pythons.PythonsOf | source/eggs/minitage.core-2.0.27-py2.7.egg/minitage/core/core.py:1090 | one package name per selected version, in order |
| Pythons.LookupAll | source/eggs/minitage.core-2.0.27-py2.7.egg/minitage/core/core.py:1099-1101 | a successful lookup gives, for each name in order, the descriptor found for it; the lookup fails exactly when some name is in no catalog or fails to load, and then with the error of the first such name |
| Pythons.LookupEach | source/eggs/minitage.core-2.0.27-py2.7.egg/minitage/core/core.py:1099-1101 | the comprehension over the names computes the specified lookup |
| Pythons.GatherDependencies | source/eggs/minitage.core-2.0.27-py2.7.egg/minitage/core/core.py:1097-1101 | the loop gathering every package's dependencies computes the specified list or the first lookup error |
| Pythons.PositionOf | source/eggs/minitage.core-2.0.27-py2.7.egg/minitage/core/core.py:1108 | `index` gives the first position of an element |
| Pythons.RemoveAt | source/eggs/minitage.core-2.0.27-py2.7.egg/minitage/core/core.py:1108 | popping a position shortens the list by one |
| Pythons.CutPythons | source/eggs/minitage.core-2.0.27-py2.7.egg/minitage/core/core.py:1103-1110 | the loop that pops cut packages while iterating computes the specified sweep, with the egg version map |
| Pythons.SweepReading | source/eggs/minitage.core-2.0.27-py2.7.egg/minitage/core/core.py:1103-1110 | on every list, repeats included, the sweep maps exactly the eggs it examines and keeps the specified survivors, each as often; on a list without repeats it keeps them in order |
| Pythons.SweepAnyList | source/eggs/minitage.core-2.0.27-py2.7.egg/minitage/core/core.py:1103-1110 | from any position of any list, the sweep's map and the multiset of what it keeps follow the specified reading |
| Pythons.EggsOfSpec | source/eggs/minitage.core-2.0.27-py2.7.egg/minitage/core/core.py:1109-1110 | a name is mapped exactly when it was before or an examined egg has it; an examined egg maps to the selected versions, any other name keeps its entry |
| Pythons.ExaminedNoCut | source/eggs/minitage.core-2.0.27-py2.7.egg/minitage/core/core.py:1103-1108 | with no cut name in the list, every element is examined and kept |
| Pythons.RemoveKeeps | source/eggs/minitage.core-2.0.27-py2.7.egg/minitage/core/core.py:1107-1108 | popping an element with a cut name keeps every element with another name and adds none |
| Pythons.SweepKeeps | source/eggs/minitage.core-2.0.27-py2.7.egg/minitage/core/core.py:1104-1108 | only elements with a cut name leave the list, and none is added |
| Pythons.SweepEggs | source/eggs/minitage.core-2.0.27-py2.7.egg/minitage/core/core.py:1109-1110 | every name the sweep maps is an egg of the list mapped to the selected versions, or was mapped before |
| Pythons.SecondPythonSurvives | source/eggs/minitage.core-2.0.27-py2.7.egg/minitage/core/core.py:1104-1108 | with python-2.4 and python-2.5 both cut, the loop pops the first and skips the second, which stays in the list |
| Pythons.Dedupe | source/eggs/minitage.core-2.0.27-py2.7.egg/minitage/core/core.py:1116-1119 | the comprehension filtering repeated names computes the specified first-of-name list |
| Pythons.UniqueExtends | source/eggs/minitage.core-2.0.27-py2.7.egg/minitage/core/core.py:1116-1119 | the kept list only grows at its end |
| Pythons.UniqueDistinct | source/eggs/minitage.core-2.0.27-py2.7.egg/minitage/core/core.py:1116-1119 | no two kept packages share a name |
| Pythons.UniqueCovers | source/eggs/minitage.core-2.0.27-py2.7.egg/minitage/core/core.py:1116-1119 | every name of the input is kept |
| Pythons.UniqueFirst | source/eggs/minitage.core-2.0.27-py2.7.egg/minitage/core/core.py:1116-1119 | each package kept is the first of its name in the input |
| Pythons.DedupeSpec | source/eggs/minitage.core-2.0.27-py2.7.egg/minitage/core/core.py:1113-1119 | dropping repeated names keeps the first package of each name in input order, and the result for a prefix is a prefix of the result |
| Pythons.SelectPythons | source/eggs/minitage.core-2.0.27-py2.7.egg/minitage/core/core.py:980-1121 | the whole selection computes the specified packages and egg version map, or the first lookup or resolution error |
| Pythons.SelectionShape | source/eggs/minitage.core-2.0.27-py2.7.egg/minitage/core/core.py:1087-1121 | the result starts with the selected pythons' dependency tree (first of each name), repeats no name, and keeps every name of the tree |
| Pythons.SelectionKeepsPackages | source/eggs/minitage.core-2.0.27-py2.7.egg/minitage/core/core.py:1103-1119 | a resolved package that is neither a python nor in the python tree is kept, under its name |
| Pythons.SelectionListsPythons | source/eggs/minitage.core-2.0.27-py2.7.egg/minitage/core/core.py:1090-1119 | every selected python version's package is listed |
| Pythons.SelectionEggs | source/eggs/minitage.core-2.0.27-py2.7.egg/minitage/core/core.py:1109-1110 | every egg version map entry is an egg of the gathered list, mapped to the selected versions |
| Pythons.SelectionMapsExamined | source/eggs/minitage.core-2.0.27-py2.7.egg/minitage/core/core.py:1097-1110 | the egg version map holds exactly the names of the eggs the sweep examines in `dependencies + packages`, repeats included, each mapped to the selected versions |
| Files.NonHidden | source/eggs/minitage.core-2.0.27-py2.7.egg/minitage/core/core.py:420 | the kept entries are exactly the listing's names that do not start with a dot |
| Store.InstallPath | source/eggs/minitage.core-2.0.27-py2.7.egg/minitage/core/core.py:1215-1227 | a package has an install path exactly when it is not a `meta-` package and has a category, and the path ends with its name |
| Store.GetMark | source/eggs/minitage.core-2.0.27-py2.7.egg/minitage/core/core.py:527-532 | an absent marker reads as the empty text |
| Store.Cleared | source/eggs/minitage.core-2.0.27-py2.7.egg/minitage/core/core.py:505-511 | after the install directory is removed, no marker and no recorded descriptor remain under it |
| Store.MarkRoundTrip | source/eggs/minitage.core-2.0.27-py2.7.egg/minitage/core/core.py:527-554 | setting a marker on a package with a path makes it marked, and reading it gives the text written |
| Store.MarkLeavesOthers | source/eggs/minitage.core-2.0.27-py2.7.egg/minitage/core/core.py:546-554 | setting a marker leaves every other marker of every other install path as it was, both its presence and its text |
| Store.InstalledRevision | source/eggs/minitage.core-2.0.27-py2.7.egg/minitage/core/core.py:565-617 | a package has an installed revision exactly when it is installed |
| Store.NewRevisionMeansOlderSnapshot | source/eggs/minitage.core-2.0.27-py2.7.egg/minitage/core/core.py:601-617 | a package has a new revision exactly when it is installed and its recorded descriptor has a smaller revision |
| Store.DecisionRelations | source/eggs/minitage.core-2.0.27-py2.7.egg/minitage/core/core.py:451-511 | a package is never both to be installed and to be reinstalled; an upgrade is a reinstall; a deletion is asked exactly by `delete` on an installed package and excludes install and reinstall; reinstall and update need an installed package; an install implies a source update |
| Store.SrcToBeFetchedCases | source/eggs/minitage.core-2.0.27-py2.7.egg/minitage/core/core.py:415-449 | a missing directory must be fetched; an existing buildout directory without its configuration raises the incomplete-checkout error; otherwise fetching is asked exactly for a missing directory or one without visible entries |
| Store.EndingWith | source/eggs/minitage.core-2.0.27-py2.7.egg/minitage/core/core.py:757-758 | the chunk holds exactly the parts ending with the version, in order |
| Store.RealPartsMember | source/eggs/minitage.core-2.0.27-py2.7.egg/minitage/core/core.py:753-767 | a part is kept exactly when it ends with a python version the install still wants (unmarked or reinstalled) |
| Store.VersionsOf | source/eggs/minitage.core-2.0.27-py2.7.egg/minitage/core/core.py:778-780 | the versions found for a part are exactly the listed versions it ends with |
| Store.PartVersions | source/eggs/minitage.core-2.0.27-py2.7.egg/minitage/core/core.py:776-780 | every recorded version is one of `PYTHON_VERSIONS` |
| Store.PartVersionsMember | source/eggs/minitage.core-2.0.27-py2.7.egg/minitage/core/core.py:776-780 | a version is recorded exactly when it is a python version some part ends with |
| Store.MarkAllKeeps | source/eggs/minitage.core-2.0.27-py2.7.egg/minitage/core/core.py:781-784 | marking versions keeps every marker already set and every recorded descriptor |
| Store.MarkAllSets | source/eggs/minitage.core-2.0.27-py2.7.egg/minitage/core/core.py:781-784 | every listed version ends up marked `install-<v>` |
| Store.MetaUntouched | source/eggs/minitage.core-2.0.27-py2.7.egg/minitage/core/core.py:727 | a `meta-` package is skipped whatever the action |
| Store.InstallMarksVersions | source/eggs/minitage.core-2.0.27-py2.7.egg/minitage/core/core.py:769-784 | after a successful install or reinstall of an egg with parts, each version its parts end with is marked `install-<v>` |
| Store.InstallMarksAction | source/eggs/minitage.core-2.0.27-py2.7.egg/minitage/core/core.py:769-789 | after a successful install or reinstall of any other package, the marker named after the action holds the action, and the installed revision is the package's own |
| Store.ReinstallLeavesUninstalled | source/eggs/minitage.core-2.0.27-py2.7.egg/minitage/core/core.py:580-598 | a reinstall sets a `reinstall` marker, not `install`, so a package reinstalled without ever being installed stays not installed |
| Store.DeleteUninstalls | source/eggs/minitage.core-2.0.27-py2.7.egg/minitage/core/core.py:749-768 | after a successful `delete` the package is no longer installed and has no installed revision |
| Store.UnknownActionFails | source/eggs/minitage.core-2.0.27-py2.7.egg/minitage/core/core.py:790-796 | an action the maker lacks, other than `generate_env`, fails on a non-meta package and changes nothing |
| Store.VersionsOfPart | source/eggs/minitage.core-2.0.27-py2.7.egg/minitage/core/core.py:778-780 | the inner loop over `PYTHON_VERSIONS` computes the versions one part ends with |
| Store.CollectVersions | source/eggs/minitage.core-2.0.27-py2.7.egg/minitage/core/core.py:776-780 | the versions loop computes the specified per-part versions |
| Store.PartsEnding | source/eggs/minitage.core-2.0.27-py2.7.egg/minitage/core/core.py:757-758 | the inner loop over the parts computes the parts ending with the version |
| Store.VersionChunk | source/eggs/minitage.core-2.0.27-py2.7.egg/minitage/core/core.py:757-766 | one version of the parts loop gives its parts when the install wants it, none otherwise |
| Store.FilterParts | source/eggs/minitage.core-2.0.27-py2.7.egg/minitage/core/core.py:753-767 | the egg parts loop computes the specified kept parts |
| Store.Minimerge.constructor | source/eggs/minitage.core-2.0.27-py2.7.egg/minitage/core/core.py:140-262 | a new engine holds its prefix, action, update flag and history, with no python version map and no binary urls |
| Store.Minimerge.SetPackageMark | source/eggs/minitage.core-2.0.27-py2.7.egg/minitage/core/core.py:546-554 | only the marker is written; for a package with a path it is then marked with the text written |
| Store.Minimerge.RecordMinibuild | source/eggs/minitage.core-2.0.27-py2.7.egg/minitage/core/core.py:556-563 | the descriptor's revision is recorded under the package's install path and nothing else changes |
| Store.Minimerge.IsInstalled | source/eggs/minitage.core-2.0.27-py2.7.egg/minitage/core/core.py:580-598 | the answer is the installed predicate: for an egg some python version is selected and each selected one is marked, otherwise the `install` marker is set |
| Store.Minimerge.MarkVersions | source/eggs/minitage.core-2.0.27-py2.7.egg/minitage/core/core.py:781-784 | the loop marks each listed version and changes nothing else |
| Store.Minimerge.ActOn | source/eggs/minitage.core-2.0.27-py2.7.egg/minitage/core/core.py:723-796 | one turn of the package loop gives the specified new state and error |
| Store.Minimerge.DoAction | source/eggs/minitage.core-2.0.27-py2.7.egg/minitage/core/core.py:709-796 | each package in order; the new state and the first error are those the specification gives |
| MainFlow.DefaultArch | source/eggs/minitage.core-2.0.27-py2.7.egg/minitage/core/core.py:103-113 | the architecture is "64" exactly when the machine name contains "64", and "32" otherwise |
| MainFlow.BinaryUrl | source/eggs/minitage.core-2.0.27-py2.7.egg/minitage/core/core.py:133-137 | an archive URL starts with its base URL and a slash and ends with the package name and `-binary.tar.gz` |
| MainFlow.GetBinaryUrls | source/eggs/minitage.core-2.0.27-py2.7.egg/minitage/core/core.py:128-138 | one archive URL per configured base URL, in order |
| MainFlow.WithoutNamesMember | source/eggs/minitage.core-2.0.27-py2.7.egg/minitage/core/core.py:905-906 | a package is kept exactly when it is listed and its name is not excluded |
| MainFlow.WithoutNamesAbsent | source/eggs/minitage.core-2.0.27-py2.7.egg/minitage/core/core.py:905-906 | filtering never brings in a name the list did not hold |
| MainFlow.WithoutNamesDistinct | source/eggs/minitage.core-2.0.27-py2.7.egg/minitage/core/core.py:905-906 | filtering keeps the names distinct |
| MainFlow.CutJumped | source/eggs/minitage.core-2.0.27-py2.7.egg/minitage/core/core.py:799-809 | the cut list is always a suffix of the list |
| MainFlow.CutStartsAtTarget | source/eggs/minitage.core-2.0.27-py2.7.egg/minitage/core/core.py:799-809 | when the target is known and listed, the cut list starts at its first occurrence |
| MainFlow.CutTwice | source/eggs/minitage.core-2.0.27-py2.7.egg/minitage/core/core.py:914-917 | cutting a second time changes nothing more |
| MainFlow.MergeShape | source/eggs/minitage.core-2.0.27-py2.7.egg/minitage/core/core.py:902-912 | the merged list starts with the python tree minus the requested packages, names every package of the build list, and repeats no name when the tree does not |
| MainFlow.MergeSelected | source/eggs/minitage.core-2.0.27-py2.7.egg/minitage/core/core.py:902-912 | the filter then the appending comprehension compute the specified merge |
| MainFlow.HasWorkCases | source/eggs/minitage.core-2.0.27-py2.7.egg/minitage/core/core.py:922-931 | a package has work exactly under `generate_env`, when missing under an install action, or when installed under `reinstall`, `delete`, update mode, or an install action with a new revision |
| MainFlow.WorkListMember | source/eggs/minitage.core-2.0.27-py2.7.egg/minitage/core/core.py:922-931 | a package stays in the work list exactly when it was listed and has work |
| MainFlow.PlanFilters | source/eggs/minitage.core-2.0.27-py2.7.egg/minitage/core/core.py:882-931 | every planned package has work under the selected python versions and, unless it is `meta-`, has an install path; with `only_dependencies` no requested package is left |
| MainFlow.PlanPackages | source/eggs/minitage.core-2.0.27-py2.7.egg/minitage/core/core.py:882-931 | the sequence of calls `main` makes, with `_select_pythons` walking one frame deeper than `main`, computes the specified plan, the first resolution error, or the missing category the work filter raises on |
| MainFlow.FirstUncategorised | source/eggs/minitage.core-2.0.27-py2.7.egg/minitage/core/core.py:922-931 | finds a listed package that is neither `meta-` nor has a category exactly when one exists, and then the first one: the package at which the work filter's `get_install_path` raises |
| MainFlow.Sources | source/eggs/minitage.core-2.0.27-py2.7.egg/minitage/core/core.py:664-668 | the URLs tried are the binary archives, all marked binary, then the source URL last |
| MainFlow.BinarySources | source/eggs/minitage.core-2.0.27-py2.7.egg/minitage/core/core.py:665-667 | one binary attempt per archive URL, in order |
| MainFlow.FetchErrorsFromSource | source/eggs/minitage.core-2.0.27-py2.7.egg/minitage/core/core.py:702-707 | `_fetch` raises only when a non-binary URL was tried |
| MainFlow.UnboundDownloadSkipsBinary | source/eggs/minitage.core-2.0.27-py2.7.egg/minitage/core/core.py:672-706 | when nothing needs fetching or updating, `downloaded` is unbound on the binary pass, its `NameError` is swallowed, and the fetch ends with no change |
| MainFlow.FetchMarks | source/eggs/minitage.core-2.0.27-py2.7.egg/minitage/core/core.py:674-680 | a missing directory fetched from a working URL carries the `fetch` marker and counts as downloaded |
| MainFlow.Fetch | source/eggs/minitage.core-2.0.27-py2.7.egg/minitage/core/core.py:619-707 | the history is updated as the URL passes specify, the package is recorded as a binary exactly when a binary pass downloaded it, and the error is the source pass's |
| MainFlow.JustInTime | source/eggs/minitage.core-2.0.27-py2.7.egg/minitage/core/core.py:968-978 | each call hands exactly one listed, non-meta package that was not fetched from a binary |
| MainFlow.JustInTimeSkipsBinaries | source/eggs/minitage.core-2.0.27-py2.7.egg/minitage/core/core.py:968-978 | a package is handed to `_do_action` alone exactly when it is listed, not meta and not fetched from a binary |
| MainFlow.Checks | source/eggs/minitage.core-2.0.27-py2.7.egg/minitage/core/core.py:811-820 | the fetch check is evaluated for each planned package, in order, with the package's own `minibuild` section |
| MainFlow.FirstFailure | source/eggs/minitage.core-2.0.27-py2.7.egg/minitage/core/core.py:811-820 | the pass succeeds exactly when no check raises, and otherwise fails with the error of the first check that raises, every earlier check having passed |
| MainFlow.ProceedsCases | source/eggs/minitage.core-2.0.27-py2.7.egg/minitage/core/core.py:934-946 | pretend mode always stops; without asking and without pretending the run goes on; asking, `YES`, `Y` and an empty answer go on and `n` stops |
| MainFlow.AfterPlanStops | source/eggs/minitage.core-2.0.27-py2.7.egg/minitage/core/core.py:932-978 | actions are made only when every fetch check passed and the run proceeds; pretend mode never acts; a check that raises fails the run before anything is asked |
| MainFlow.FetchFirstReadsLastPackage | source/eggs/minitage.core-2.0.27-py2.7.egg/minitage/core/core.py:955-966 | fetching first, `_do_action` runs once over the whole list whenever the last package did not come from a binary, so every package, binary or not, is built |
| CoreCommon.BlankStrip | source/eggs/minitage.core-2.0.27-py2.7.egg/minitage/core/common.py:82-84 | a piece is blank exactly when stripping leaves nothing |
| CoreCommon.NonBlank | source/eggs/minitage.core-2.0.27-py2.7.egg/minitage/core/common.py:82-84 | the kept pieces are never more than the split pieces |
| CoreCommon.NonBlankMember | source/eggs/minitage.core-2.0.27-py2.7.egg/minitage/core/common.py:80-84 | a piece is kept exactly when it is one of the split pieces and not blank |
| CoreCommon.NonBlankAll | source/eggs/minitage.core-2.0.27-py2.7.egg/minitage/core/common.py:80-84 | pieces none of which is blank are all kept, unchanged |
| CoreCommon.SplitStripWhitespace | source/eggs/minitage.core-2.0.27-py2.7.egg/minitage/core/common.py:80-84 | without a token, `splitstrip` is whitespace splitting, which never yields a blank piece |
| CoreCommon.SplitStripJoin | source/eggs/minitage.core-2.0.27-py2.7.egg/minitage/core/common.py:80-84 | when no piece is blank, joining the result with the token gives the string back |
| CoreCommon.LineLen | source/eggs/minitage.core-2.0.27-py2.7.egg/minitage/core/common.py:58 | the first line is non-empty, holds no newline before its end, and ends with the newline when more text follows |
| CoreCommon.Lines | source/eggs/minitage.core-2.0.27-py2.7.egg/minitage/core/common.py:58 | an empty text has no lines and a non-empty one has some |
| CoreCommon.LineRead | source/eggs/minitage.core-2.0.27-py2.7.egg/minitage/core/common.py:58 | every line read is non-empty and holds no newline before its last character |
| CoreCommon.LinesConcat | source/eggs/minitage.core-2.0.27-py2.7.egg/minitage/core/common.py:58 | reading lines loses nothing: the lines put together are the text |
| CoreCommon.Trim | source/eggs/minitage.core-2.0.27-py2.7.egg/minitage/core/common.py:59-68 | the kept lines are a prefix of the lines that ends with a non-blank line, or nothing |
| CoreCommon.TrimDrops | source/eggs/minitage.core-2.0.27-py2.7.egg/minitage/core/common.py:59-68 | only blank lines are dropped |
| CoreCommon.Ended | source/eggs/minitage.core-2.0.27-py2.7.egg/minitage/core/common.py:71-74 | each line is written terminated, one for one |
| CoreCommon.LinesOfConcat | source/eggs/minitage.core-2.0.27-py2.7.egg/minitage/core/common.py:58 | reading back lines that each end with their only newline gives the same lines |
| CoreCommon.NewlineLines | source/eggs/minitage.core-2.0.27-py2.7.egg/minitage/core/common.py:56-76 | what `newline` writes reads back as the kept lines, each terminated, followed by one line holding only a newline |
| CoreCommon.NewlineIdempotent | source/eggs/minitage.core-2.0.27-py2.7.egg/minitage/core/common.py:56-76 | `newline` is idempotent: rewriting its own output changes nothing |
| CoreCommon.NewlineFile | source/eggs/minitage.core-2.0.27-py2.7.egg/minitage/core/common.py:56-76 | reading, trimming and rewriting the file computes the specified `newline` text |
| CoreCommon.KeptLines | source/eggs/minitage.core-2.0.27-py2.7.egg/minitage/core/common.py:59-68 | the reversed scan keeps, in the original order, every line from the first non-blank one met from the end |
| CoreCommon.WriteLines | source/eggs/minitage.core-2.0.27-py2.7.egg/minitage/core/common.py:71-74 | the write loop writes each line with a newline added when it lacks one |
| CoreCommon.LocalMarkerAnywhere | source/eggs/minitage.core-2.0.27-py2.7.egg/minitage/core/common.py:162-171 | a URL holding `file://`, `localhost`, `127.0.0.1` or `::1` anywhere counts as local |
| CoreCommon.LocalUrlExtends | source/eggs/minitage.core-2.0.27-py2.7.egg/minitage/core/common.py:162-171 | appending to a local URL keeps it local |
| CoreCommon.BackupNameInjective | source/eggs/minitage.core-2.0.27-py2.7.egg/minitage/core/common.py:359 | different backup numbers give different backup names |
| CoreCommon.FreeIndex | source/eggs/minitage.core-2.0.27-py2.7.egg/minitage/core/common.py:358-366 | the backup number chosen is the first one from the start whose name is free |
| CoreCommon.Rename | source/eggs/minitage.core-2.0.27-py2.7.egg/minitage/core/common.py:362 | the renamed path no longer exists, the target does, and no other path changes |
| CoreCommon.MakeBackupSpec | source/eggs/minitage.core-2.0.27-py2.7.egg/minitage/core/common.py:355-367 | without the file nothing happens and the empty name comes back; otherwise the file moves to the smallest free numbered backup name, which is returned, and nothing else changes |
| CoreCommon.MakeBackupLoop | source/eggs/minitage.core-2.0.27-py2.7.egg/minitage/core/common.py:355-367 | the loop trying the numbers in turn computes the specified backup |
| Update.ReplaceFirstShape | source/eggs/minitage.core-2.0.27-py2.7.egg/minitage/core/update.py:109-112 | only the first occurrence of the old name is replaced, at its index; the list keeps its length and every other entry |
| Update.ReplaceFirstMember | source/eggs/minitage.core-2.0.27-py2.7.egg/minitage/core/update.py:109-112 | a name other than the old and the new one is in the list after the replacement exactly when it was before |
| Update.MigrateKeepsLength | source/eggs/minitage.core-2.0.27-py2.7.egg/minitage/core/update.py:106-113 | the migration keeps the length of the dependency list and never lowers the revision |
| Update.MigrateBumps | source/eggs/minitage.core-2.0.27-py2.7.egg/minitage/core/update.py:106-113 | with no renaming whose target is another's source, the revision goes up by exactly one per old name the descriptor depends on |
| Update.MigrateUntouched | source/eggs/minitage.core-2.0.27-py2.7.egg/minitage/core/update.py:106-113 | a descriptor depending on none of the old names is left exactly as it is |
| Update.TouchedIffBumped | source/eggs/minitage.core-2.0.27-py2.7.egg/minitage/core/update.py:106-115 | with no chained renaming, a descriptor is rewritten exactly when its revision goes up |
| Update.UpdatedFirst | source/eggs/minitage.core-2.0.27-py2.7.egg/minitage/core/update.py:116-117 | a path in `updated` maps to a rewritten descriptor with that path, the first one of that path to be rewritten |
| Update.UpdatedComplete | source/eggs/minitage.core-2.0.27-py2.7.egg/minitage/core/update.py:116-117 | every rewritten descriptor's path is in `updated` |
| Update.UpdatedStep | source/eggs/minitage.core-2.0.27-py2.7.egg/minitage/core/update.py:116-117 | one more descriptor extends `updated` only when it was rewritten and its path is new |
| Update.AttrsOf | source/eggs/minitage.core-2.0.27-py2.7.egg/minitage/core/update.py:103-105 | one attribute record per descriptor object, in order |
| Update.MigrateSection | source/eggs/minitage.core-2.0.27-py2.7.egg/minitage/core/update.py:106-115 | a minibuild is written exactly when it depends on one of the old names, and one that is not written keeps its attributes and its file and raises nothing |
| Update.MigrateSectionOtherKeys | source/eggs/minitage.core-2.0.27-py2.7.egg/minitage/core/update.py:114-115 | writing the migrated minibuild changes no option of its section other than `dependencies` and `revision` |
| Update.ReloadReadsBack | source/eggs/minitage.core-2.0.27-py2.7.egg/minitage/core/objects.py:375-422 | the `load` at the end of `write` reads back the written raw list and revision, and recomputes `dependencies` from the written section |
| Update.MigrateSectionLists | source/eggs/minitage.core-2.0.27-py2.7.egg/minitage/core/update.py:106-115 | after a migration without error, the object's raw list and revision are those of the specified renaming |
| Update.MigrateSectionReads | source/eggs/minitage.core-2.0.27-py2.7.egg/minitage/core/update.py:114-115 | after a written migration without error, the object's `dependencies`, raw list and revision are what a fresh read of its written section gives |
| Update.MigratedDependencies | source/eggs/minitage.core-2.0.27-py2.7.egg/minitage/core/update.py:106-115 | without OS-specific dependency options, the object's `dependencies` after the migration is the renamed list, not the stale one read before it |
| Update.MigrateMinibuild | source/eggs/minitage.core-2.0.27-py2.7.egg/minitage/core/update.py:106-115 | the renaming loop leaves the object's attributes, its file, the write flag and the reload error exactly as `MigrateSection` specifies |
| Update.Rename | source/eggs/minitage.core-2.0.27-py2.7.egg/minitage/core/update.py:108-115 | one applicable renaming replaces the first old name at its index, bumps the revision by one, writes both to the file and reloads the object from it |
| Update.ReloadObject | source/eggs/minitage.core-2.0.27-py2.7.egg/minitage/core/objects.py:375-422 | the reload after `write` leaves the object as `load` makes it from the written section, with its error |
| Update.MigrationsAt | source/eggs/minitage.core-2.0.27-py2.7.egg/minitage/core/update.py:101-115 | the migration of the k-th minibuild is its own migration from its own section |
| Update.FirstError | source/eggs/minitage.core-2.0.27-py2.7.egg/minitage/core/update.py:101-115 | the position found is the first migration from `i` on that raised, every one before it raised nothing, and it is the length when none did |
| Update.MigrateAll | source/eggs/minitage.core-2.0.27-py2.7.egg/minitage/core/update.py:94-117 | the minibuilds up to the first reload error hold their migrated attributes and files, the later ones are untouched, that error is returned, and without error `updated` maps each rewritten path to the first minibuild rewritten under it |
| Update.MigrateStep | source/eggs/minitage.core-2.0.27-py2.7.egg/minitage/core/update.py:104-117 | one minibuild of the loop is migrated and written back, its file appended, and its path collected when no reload raised |
| Update.Collect | source/eggs/minitage.core-2.0.27-py2.7.egg/minitage/core/update.py:116-117 | one step of the collection adds a rewritten descriptor under its path unless the path is taken |
| Update.AdoptKeeps | source/eggs/minitage.core-2.0.27-py2.7.egg/minitage/core/update.py:58-66 | adoption only adds: prefix, python versions and action stay, every marker stays, and every installed package stays installed |
| Update.AdoptAllKeeps | source/eggs/minitage.core-2.0.27-py2.7.egg/minitage/core/update.py:54-66 | the whole adoption loop only adds, in the same sense, whether it finishes or stops at an error |
| Update.AdoptAllCovers | source/eggs/minitage.core-2.0.27-py2.7.egg/minitage/core/update.py:54-66 | after a successful adoption every visible package with a non-empty install directory is installed or carries the `install` marker |
| Update.AdoptCovers | source/eggs/minitage.core-2.0.27-py2.7.egg/minitage/core/update.py:58-66 | one adoption step installs or marks a visible package with a non-empty install directory |
| Update.MarkedStays | source/eggs/minitage.core-2.0.27-py2.7.egg/minitage/core/update.py:54-66 | a marker set before the adoption is still set after it, whether the loop finishes or stops at an error |
| Update.AdoptSkips | source/eggs/minitage.core-2.0.27-py2.7.egg/minitage/core/update.py:58-62 | a hidden package, and a categorised or `meta-` one without an install directory, with an empty directory, or already installed, is left alone; a visible package without a category raises |
| Update.UpdateHistoryCases | source/eggs/minitage.core-2.0.27-py2.7.egg/minitage/core/update.py:42-72 | on a first run, or without force when the history file exists, nothing changes; a migration clears the action and packages and leaves the history file behind; an error comes only from a migration, with the engine the adoptions before it left |
| Update.UpdateHistoryRun | source/eggs/minitage.core-2.0.27-py2.7.egg/minitage/core/update.py:42-72 | running `updateHistory` on the engine gives the specified new state, tree and request, or the specified error together with the markers recorded before it |
| Update.AdoptEach | source/eggs/minitage.core-2.0.27-py2.7.egg/minitage/core/update.py:54-66 | the adoption loop leaves the engine the specified adoptions produce, and on the first error stops with the adoptions made before it kept |
| Update.AdoptAllError | source/eggs/minitage.core-2.0.27-py2.7.egg/minitage/core/update.py:54-66 | the loop stops only at a listed package whose install path exists but is not a listable directory, or at a listed visible package without a category |
| Update.AdoptOne | source/eggs/minitage.core-2.0.27-py2.7.egg/minitage/core/update.py:58-66 | one adoption step gives the specified state, and an error (an unlistable install path, or a visible package without a category) leaves the engine unchanged |
| Cli.Action | source/eggs/minitage.core-2.0.27-py2.7.egg/minitage/core/cli.py:199-210 | the action is always one of delete, reinstall, sync, install and generate_env |
| Cli.FirstFile | source/eggs/minitage.core-2.0.27-py2.7.egg/minitage/core/cli.py:212-217 | a configuration found is one of the candidates and exists as a file; none is found exactly when no candidate is a file |
| Cli.FindConfig | source/eggs/minitage.core-2.0.27-py2.7.egg/minitage/core/cli.py:213-217 | the loop over the default files stops at the first that is a file, as specified |
| Cli.ConflictFirst | source/eggs/minitage.core-2.0.27-py2.7.egg/minitage/core/cli.py:177-180 | the conflicting-modes error is raised exactly when reinstall and delete, fetch-only and offline, or jump and no-deps are combined, before anything else |
| Cli.ErrorOrder | source/eggs/minitage.core-2.0.27-py2.7.egg/minitage/core/cli.py:177-225 | the no-packages, too-many-actions and invalid-configuration errors are each raised exactly when their condition holds and no earlier check fails |
| Cli.TooManyActions | source/eggs/minitage.core-2.0.27-py2.7.egg/minitage/core/cli.py:191-197 | too many actions means two of reinstall, install and delete; sync and generate_env never count |
| Cli.ReadCarries | source/eggs/minitage.core-2.0.27-py2.7.egg/minitage/core/cli.py:199-250 | a successful read carries the packages as given, the action by the if/elif precedence with install as default, and a configuration that is an existing file, user-expanded |
| Cli.TildeConfigCheckedLiterally | source/eggs/minitage.core-2.0.27-py2.7.egg/minitage/core/cli.py:220-226 | a `~/...` configuration given on the command line is checked under its literal name, so it is refused unless that literal path exists |
| Cli.DoReadOptions | source/eggs/minitage.core-2.0.27-py2.7.egg/minitage/core/cli.py:177-250 | the checks, the counting loop and the if/elif chain compute the specified options or error |
| Cli.ResolveConfig | source/eggs/minitage.core-2.0.27-py2.7.egg/minitage/core/cli.py:212-226 | the configuration lookup computes the specified configuration or error |
| Cli.ChooseAction | source/eggs/minitage.core-2.0.27-py2.7.egg/minitage/core/cli.py:199-210 | the if/elif chain computes the specified action |
| Cli.CountActions | source/eggs/minitage.core-2.0.27-py2.7.egg/minitage/core/cli.py:191-194 | the counting loop counts the set flags |
| Buildout.ArgvFlags | source/eggs/minitage.core-2.0.27-py2.7.egg/minitage/core/makers/buildout.py:106-122 | each flag is passed exactly when its option asks for it: `-N` only for a first build in no-upgrade mode, `-n` in upgrade mode, never both, and neither when the option is absent |
| Buildout.ArgvMember | source/eggs/minitage.core-2.0.27-py2.7.egg/minitage/core/makers/buildout.py:106-122 | nothing but the five flags ever enters the argument list, each under its own condition |
| Buildout.BuildArgv | source/eggs/minitage.core-2.0.27-py2.7.egg/minitage/core/makers/buildout.py:106-122 | appending the flags one by one computes the specified argument list |
| Buildout.PartCommands | source/eggs/minitage.core-2.0.27-py2.7.egg/minitage/core/makers/buildout.py:168-179 | one install command per part, in order |
| Buildout.ExecuteSpec | source/eggs/minitage.core-2.0.27-py2.7.egg/minitage/core/makers/buildout.py:151-192 | the commands run are a prefix of the plan; without error the whole plan ran and none failed; with one, the last command run is the first failing one and the error names it |
| Buildout.RunAll | source/eggs/minitage.core-2.0.27-py2.7.egg/minitage/core/makers/buildout.py:151-192 | running the commands until one fails computes the specified execution |
| Buildout.PlanShape | source/eggs/minitage.core-2.0.27-py2.7.egg/minitage/core/makers/buildout.py:132-189 | the plan is empty exactly when `install` skips; otherwise it bootstraps, then installs each part in turn, or runs the whole buildout when there are no parts |
| Buildout.NoOptsPlan | source/eggs/minitage.core-2.0.27-py2.7.egg/minitage/core/makers/buildout.py:103-104 | without options `install` never skips: it bootstraps, then runs the whole buildout with no flag |
| Buildout.EggsNeverSkipped | source/eggs/minitage.core-2.0.27-py2.7.egg/minitage/core/makers/buildout.py:132-141 | an egg package is built whatever the upgrade mode |
| Buildout.SitePackages | source/eggs/minitage.core-2.0.27-py2.7.egg/minitage/core/makers/buildout.py:222 | one `site-packages-<v>` part per version, in order |
| Buildout.SitePackagesLoop | source/eggs/minitage.core-2.0.27-py2.7.egg/minitage/core/makers/buildout.py:222 | the comprehension computes the specified site-packages parts |
| Buildout.OptionPartsSpec | source/eggs/minitage.core-2.0.27-py2.7.egg/minitage/core/makers/buildout.py:209-224 | an egg gets one part per python version asked for, each ending with its version; any other package gets the non-empty whitespace-free words of its `buildout_parts` |
| Buildout.EggDefaultVersions | source/eggs/minitage.core-2.0.27-py2.7.egg/minitage/core/makers/buildout.py:218-222 | with no versions given an egg is built for every python version, 2.4, 2.5 and 2.6 |
| Buildout.StripAll | source/eggs/minitage.core-2.0.27-py2.7.egg/minitage/core/makers/buildout.py:210-212 | stripping whitespace-split words leaves each unchanged |
| Buildout.MatchValidMethods | source/eggs/minitage.core-2.0.27-py2.7.egg/minitage/core/makers/buildout.py:63-67 | the maker serves exactly the valid install methods, so every minibuild accepted without bypass that names an install method names one it serves |
| Buildout.BuildoutMaker.constructor | source/eggs/minitage.core-2.0.27-py2.7.egg/minitage/core/makers/buildout.py:49-61 | a new maker uses `buildout.cfg` |
| Buildout.BuildoutMaker.GetOptions | source/eggs/minitage.core-2.0.27-py2.7.egg/minitage/core/makers/buildout.py:195-236 | the parts are those specified for the package's category, upgrade is asked when requested or forced by a new revision, and the maker now names the section's buildout configuration |
| Buildout.BuildoutMaker.Install | source/eggs/minitage.core-2.0.27-py2.7.egg/minitage/core/makers/buildout.py:90-193 | the commands run are those of the plan up to and including the first that fails |
| Buildout.BuildoutMaker.Reinstall | source/eggs/minitage.core-2.0.27-py2.7.egg/minitage/core/makers/buildout.py:69-88 | `.installed.cfg` is removed exactly when present, then the plan of a first build runs |
| Buildout.ReinstallRuns | source/eggs/minitage.core-2.0.27-py2.7.egg/minitage/core/makers/buildout.py:69-88 | a reinstall is never skipped: it always starts with the bootstrap |
| Fetchers.SchemeFrom | source/eggs/minitage.core-2.0.27-py2.7.egg/minitage/core/fetchers/interfaces.py:69-72 | a scheme found is one of the regex's schemes from the given index on and the URI starts with it and `://`; none is found exactly when no such scheme fits |
| Fetchers.SchemePrefixUnique | source/eggs/minitage.core-2.0.27-py2.7.egg/minitage/core/fetchers/interfaces.py:69-72 | two colon-free schemes both followed by `://` at the start of one URI are the same |
| Fetchers.UriRegexSpec | source/eggs/minitage.core-2.0.27-py2.7.egg/minitage/core/fetchers/interfaces.py:69-72 | `URI_REGEX` matches exactly the URIs starting with `/` or with one of its schemes and `://`; a reported scheme is the only one that fits, and a match without scheme starts with `/` |
| Fetchers.CheckValidCo | source/eggs/minitage.core-2.0.27-py2.7.egg/minitage/core/fetchers/interfaces.py:280-292 | the check passes exactly when the destination holds the metadata directory |
| Fetchers.ArchiveAnswer | source/eggs/minitage.core-2.0.27-py2.7.egg/minitage/core/fetchers/interfaces.py:342-373 | archiving answers whether the destination is a non-empty directory, and then leaves the stash directory in it; it fails only when the stash name is taken by a file |
| Fetchers.ArchivePreviousCo | source/eggs/minitage.core-2.0.27-py2.7.egg/minitage/core/fetchers/interfaces.py:342-373 | the archiving loop computes the specified result and moves every entry the directory held, or none when it does not archive |
| Fetchers.CopyMoveTree | source/eggs/minitage.core-2.0.27-py2.7.egg/minitage/core/fetchers/interfaces.py:75-84 | the moving loop computes the specified merged entries, a checked-out entry replacing an existing one |
| Fetchers.FetchInto | source/eggs/minitage.core-2.0.27-py2.7.egg/minitage/core/fetchers/interfaces.py:233-241 | a fetch into an existing directory checks out into `dest/<name>-tmp`, whether it was archived or empty; a missing destination is checked out into directly |
| Fetchers.FetchInvalidUri | source/eggs/minitage.core-2.0.27-py2.7.egg/minitage/core/fetchers/interfaces.py:242-265 | an invalid URI is refused before any command runs, the refusal itself raising `AttributeError` because the error class is looked up on the wrong module; a previous checkout has been archived all the same |
| Fetchers.FetchSuccess | source/eggs/minitage.core-2.0.27-py2.7.egg/minitage/core/fetchers/interfaces.py:220-266 | a fetch that raises nothing had a valid URI, ran a checkout and then went to the revision in the destination, and left the metadata directory in place |
| Fetchers.FetchMissing | source/eggs/minitage.core-2.0.27-py2.7.egg/minitage/core/fetchers/interfaces.py:220-266 | into a missing destination a fetch succeeds exactly when the URI is valid, no command fails and the checkout brings the metadata directory |
| Fetchers.UpdateSequence | source/eggs/minitage.core-2.0.27-py2.7.egg/minitage/core/fetchers/interfaces.py:178-218 | on a valid working copy whose URI did not change, `update` updates then goes to the revision and changes nothing else; with a changed URI it runs what a fetch runs; success leaves the metadata directory |
| Fetchers.UpdateFetchesInvalid | source/eggs/minitage.core-2.0.27-py2.7.egg/minitage/core/fetchers/interfaces.py:192-199 | an invalid working copy is fetched before anything else |
| Fetchers.FetchOrUpdateAgrees | source/eggs/minitage.core-2.0.27-py2.7.egg/minitage/core/fetchers/interfaces.py:268-278 | with a working copy `fetch_or_update` is `update`; without one it is `fetch`, which is also how `update` starts |
| Fetchers.FetchRun | source/eggs/minitage.core-2.0.27-py2.7.egg/minitage/core/fetchers/interfaces.py:220-266 | `fetch` run step by step gives the specified outcome |
| Fetchers.UpdateRun | source/eggs/minitage.core-2.0.27-py2.7.egg/minitage/core/fetchers/interfaces.py:178-218 | `update` run step by step gives the specified outcome |
| Fetchers.FetchOrUpdateRun | source/eggs/minitage.core-2.0.27-py2.7.egg/minitage/core/fetchers/interfaces.py:268-278 | `fetch_or_update` gives the specified outcome |
| Fetchers.WarnTrailingSlash | source/eggs/minitage.core-2.0.27-py2.7.egg/minitage/core/fetchers/interfaces.py:332-340 | the warning is given exactly when the URI is the recorded URI plus one `/`; a failing URI lookup propagates |
| Scm.MatchExclusive | source/eggs/minitage.core-2.0.27-py2.7.egg/minitage/core/fetchers/scm.py:89-93 | each switch selects at most one of the four fetchers |
| Scm.SchemeInSpec | source/eggs/minitage.core-2.0.27-py2.7.egg/minitage/core/fetchers/scm.py:80-87 | a URI reports a listed scheme exactly when it is no local path and starts with a listed scheme that `URI_REGEX` knows, followed by `://` |
| Scm.HgValidSpec | source/eggs/minitage.core-2.0.27-py2.7.egg/minitage/core/fetchers/scm.py:80-87 | Mercurial accepts exactly a local path or a URI starting with file, hg, ssh, http or https and `://` |
| Scm.SvnValidSpec | source/eggs/minitage.core-2.0.27-py2.7.egg/minitage/core/fetchers/scm.py:177-184 | Subversion accepts exactly its five schemes followed by `://`, so a bare local path is refused |
| Scm.ReportedLead | source/eggs/minitage.core-2.0.27-py2.7.egg/minitage/core/fetchers/scm.py:257-268 | a URI whose reported scheme is in a list without `svn+ssh` also matches the colon pattern |
| Scm.PathNotColonLead | source/eggs/minitage.core-2.0.27-py2.7.egg/minitage/core/fetchers/scm.py:257-268 | a local path matches neither a scheme nor the colon pattern |
| Scm.BzrSshNotColonLead | source/eggs/minitage.core-2.0.27-py2.7.egg/minitage/core/fetchers/scm.py:257-268 | `+` stops the colon pattern, so `bzr+ssh://` does not match it |
| Scm.BzrValidSpec | source/eggs/minitage.core-2.0.27-py2.7.egg/minitage/core/fetchers/scm.py:257-268 | Bazaar accepts exactly the URIs the colon pattern matches, which leaves out `bzr+ssh://` and local paths |
| Scm.GitValidSpec | source/eggs/minitage.core-2.0.27-py2.7.egg/minitage/core/fetchers/scm.py:375-384 | Git accepts exactly the URIs the colon pattern matches, which leaves out local paths |
| Scm.HgChangedSpec | source/eggs/minitage.core-2.0.27-py2.7.egg/minitage/core/fetchers/scm.py:127-139 | Mercurial, once `file://` is dropped, reports a change without a `.hg` directory, no change when the URI is the recorded one plus `/`, and otherwise a change exactly when the URI differs |
| Scm.ChangedCheckOrder | source/eggs/minitage.core-2.0.27-py2.7.egg/minitage/core/fetchers/scm.py:127-139 | without a metadata directory Git and Mercurial answer "changed" before asking for the URI, Bazaar asks first so its failure propagates, and Subversion never looks at the directory |
| Scm.SvnNoUri | source/eggs/minitage.core-2.0.27-py2.7.egg/minitage/core/fetchers/scm.py:192-217 | outside a working copy Subversion always sees a change, except for the URI `None/`, which the trailing-slash check takes for the missing URI plus a slash |
| Scm.SvnGotoRevision | source/eggs/minitage.core-2.0.27-py2.7.egg/minitage/core/fetchers/scm.py:173-175 | going to a revision does nothing exactly when called passively |
| Scm.SvnFetchRefusesPath | source/eggs/minitage.core-2.0.27-py2.7.egg/minitage/core/fetchers/scm.py:177-184 | a Subversion fetch of a local path runs no command and fails |
| RecipeCommon.First | source/eggs/minitage.recipe.common-1.79-py2.7.egg/minitage/recipe/common/common.py:74-79 | the first index of an element holds it, and no earlier index does |
| RecipeCommon.DedupSpec | source/eggs/minitage.recipe.common-1.79-py2.7.egg/minitage/recipe/common/common.py:74-79 | `uniquify` holds exactly the elements of the list, each once, ordered by first occurrence |
| RecipeCommon.Uniquify | source/eggs/minitage.recipe.common-1.79-py2.7.egg/minitage/recipe/common/common.py:74-79 | the loop computes the specified de-duplicated list |
| RecipeCommon.UrlDirectory | source/eggs/minitage.recipe.common-1.79-py2.7.egg/minitage/recipe/common/common.py:93-94 | a directory name derived from a URL holds no `/` |
| RecipeCommon.DivideUrl | source/eggs/minitage.recipe.common-1.79-py2.7.egg/minitage/recipe/common/common.py:81-104 | the type is never empty (`static` by default), and a line holding `file://` gets no directory |
| RecipeCommon.SplitJoinBar | source/eggs/minitage.recipe.common-1.79-py2.7.egg/minitage/recipe/common/common.py:82-83 | fields without a bar joined with bars split back into themselves |
| RecipeCommon.DivideUrlReadsBack | source/eggs/minitage.recipe.common-1.79-py2.7.egg/minitage/recipe/common/common.py:81-104 | `divide_url` reads back the fields a line was written from: with a type and a directory and no `file://`, the four fields and the re-joined remaining arguments |
| RecipeCommon.DivideUrlOf | source/eggs/minitage.recipe.common-1.79-py2.7.egg/minitage/recipe/common/common.py:81-104 | for a line with a type, an explicit directory and no `file://`, each result is its stripped field, the arguments being the stripped re-joined rest |
| RecipeCommon.DivideUrlDirectory | source/eggs/minitage.recipe.common-1.79-py2.7.egg/minitage/recipe/common/common.py:91-98 | an explicit directory is kept; without one a URL holding `//` gets its directory named after itself, with `://` and `/` turned into dots; a derived directory never holds `/` |
| RecipeCommon.Kept | source/eggs/minitage.recipe.common-1.79-py2.7.egg/minitage/recipe/common/common.py:108 | the kept values are exactly the new values that do not occur in the old text |
| RecipeCommon.AppendVarSpec | source/eggs/minitage.recipe.common-1.79-py2.7.egg/minitage/recipe/common/common.py:106-117 | appending puts the new values after the old text, prepending before it; with `before`, the separator is left out only when nothing is new, otherwise only when the old text is empty; the old text stays a prefix or a suffix |
| RecipeCommon.LoneSeparator | source/eggs/minitage.recipe.common-1.79-py2.7.egg/minitage/recipe/common/common.py:106-117 | the separator stays next to an empty side: `appendVar('', ['a'], ':', True)` gives `:a` and `appendVar('x', ['x'], ':')` gives `:x` |
| RecipeCommon.AppendVarTwice | source/eggs/minitage.recipe.common-1.79-py2.7.egg/minitage/recipe/common/common.py:106-117 | appending the same values twice changes nothing the second time; prepending them again adds only a leading separator |
| RecipeCommon.AllPresent | source/eggs/minitage.recipe.common-1.79-py2.7.egg/minitage/recipe/common/common.py:106-117 | every value occurs in the result of an append, so nothing is kept on a second one |
| RecipeCommon.Present | source/eggs/minitage.recipe.common-1.79-py2.7.egg/minitage/recipe/common/common.py:106-117 | each new value occurs in the result |
| RecipeCommon.Around | source/eggs/minitage.recipe.common-1.79-py2.7.egg/minitage/recipe/common/common.py:106-117 | both the old text and the joined new values sit inside the result |
| RecipeCommon.DropSlash | source/eggs/minitage.recipe.common-1.79-py2.7.egg/minitage/recipe/common/common.py:208 | at most one trailing `/` is removed, and the result is a prefix of the line |
| RecipeCommon.CleanLinesSpec | source/eggs/minitage.recipe.common-1.79-py2.7.egg/minitage/recipe/common/common.py:208 | every listed URL is a non-empty line without its trailing `/`, and conversely |
| RecipeCommon.UrlsListSpec | source/eggs/minitage.recipe.common-1.79-py2.7.egg/minitage/recipe/common/common.py:203-208 | `urls_list` holds, the `url` option first, exactly the non-empty values of the `url` option and of the lines of the `urls` option, each without one trailing `/` |
| RecipeCommon.ListedSpec | source/eggs/minitage.recipe.common-1.79-py2.7.egg/minitage/recipe/common/common.py:205-208 | the same, stated over the split lines |
| RecipeCommon.ScmDefaultUnused | source/eggs/minitage.recipe.common-1.79-py2.7.egg/minitage/recipe/common/common.py:209-226 | the `scm` option never takes effect, because `divide_url` always reports a type |
| RecipeCommon.EntryDefaults | source/eggs/minitage.recipe.common-1.79-py2.7.egg/minitage/recipe/common/common.py:220-233 | an empty revision and empty arguments take the option defaults, non-empty ones win, and the URL is the line's URL field |
| RecipeCommon.BuildUrls | source/eggs/minitage.recipe.common-1.79-py2.7.egg/minitage/recipe/common/common.py:216-233 | the loop computes the specified URL table |
| RecipeCommon.FillSnoc | source/eggs/minitage.recipe.common-1.79-py2.7.egg/minitage/recipe/common/common.py:217-233 | one more line is skipped when it is a key already, otherwise stored under its URL field |
| RecipeCommon.FillKeys | source/eggs/minitage.recipe.common-1.79-py2.7.egg/minitage/recipe/common/common.py:216-233 | every key holds the entry of a line whose URL field it is |
| RecipeCommon.FillCovers | source/eggs/minitage.recipe.common-1.79-py2.7.egg/minitage/recipe/common/common.py:216-233 | every line was a key already or its URL field is one |
| RecipeCommon.TableSpec | source/eggs/minitage.recipe.common-1.79-py2.7.egg/minitage/recipe/common/common.py:216-233 | every key of `self.urls` holds the entry of a line of `urls_list` whose URL field it is, and every line of `urls_list` was a key already or has its URL field as a key |
| RecipeCommon.TableSkipsOnWholeLine | source/eggs/minitage.recipe.common-1.79-py2.7.egg/minitage/recipe/common/common.py:219 | keys are URL fields but the skip test looks at the whole line, so for a URL and its form with a type field appended after a bar only the entry of the longer form is kept, in either order |
| RecipeCommon.VisibleOf | source/eggs/minitage.recipe.common-1.79-py2.7.egg/minitage/recipe/common/common.py:1254-1263 | the filtered entries are exactly the listed ones that are visible and are directories, or are not, as asked |
| RecipeCommon.VisibleHead | source/eggs/minitage.recipe.common-1.79-py2.7.egg/minitage/recipe/common/common.py:1254-1263 | the first listed entry passing the filter heads the filtered list |
| RecipeCommon.TwoFilesStay | source/eggs/minitage.recipe.common-1.79-py2.7.egg/minitage/recipe/common/common.py:1238-1266 | with at least two visible plain files, compilation stays in the directory |
| RecipeCommon.CompilDirDescends | source/eggs/minitage.recipe.common-1.79-py2.7.egg/minitage/recipe/common/common.py:1264-1265 | with fewer than two visible plain files, compilation moves into the first visible subdirectory of the listing exactly when there is one |
| Egg.RStripDashes | source/eggs/minitage.recipe.egg-1.88-py2.7.egg/minitage/recipe/egg/egg.py:76-81 | the result is a prefix of the text that ends in no `-`, and everything cut off is `-` |
| Egg.OrigVersionSpec | source/eggs/minitage.recipe.egg-1.88-py2.7.egg/minitage/recipe/egg/egg.py:76-81 | `get_orig_version` of a missing version is `''`; a version without `ZMinitagePatched` is unchanged; the result is always a prefix of the version and holds no marker |
| Egg.OrigVersionIdempotent | source/eggs/minitage.recipe.egg-1.88-py2.7.egg/minitage/recipe/egg/egg.py:76-81 | taking the original version of an original version changes nothing |
| Egg.RequirementVersionSpec | source/eggs/minitage.recipe.egg-1.88-py2.7.egg/minitage/recipe/egg/egg.py:86-99 | the version is `None` exactly when no spec is an `==` pin, otherwise it is the value of the last pin; the requirement counts as patched exactly when some spec item contains the marker |
| Egg.Requirement.constructor | source/eggs/minitage.recipe.egg-1.88-py2.7.egg/minitage/recipe/egg/egg.py:120-128 | a requirement starts with the given extras and specs |
| Egg.Requirement.MergeExtras | source/eggs/minitage.recipe.egg-1.88-py2.7.egg/minitage/recipe/egg/egg.py:120-123 | the extras become the union of both requirements' extras, each once, and the specs are unchanged |
| Egg.Requirement.MergeSpecs | source/eggs/minitage.recipe.egg-1.88-py2.7.egg/minitage/recipe/egg/egg.py:125-128 | the specs become the union of both requirements' specs, each once, and the extras are unchanged |
| Egg.SepsShape | source/eggs/minitage.recipe.egg-1.88-py2.7.egg/minitage/recipe/egg/egg.py:2024-2027 | every separator of the corrected tuple is a non-empty string that starts with no capital letter |
| Egg.ForgedNameClean | source/eggs/minitage.recipe.egg-1.88-py2.7.egg/minitage/recipe/egg/egg.py:2019-2034 | with the corrected separator tuple, a forged patch name holds none of the one-character separators, whatever the patch is called |
| Egg.UnsplitSeparatorsSurvive | source/eggs/minitage.recipe.egg-1.88-py2.7.egg/minitage/recipe/egg/egg.py:2024-2027 | with the tuple as written, a patch named `,`, `;`, `^` or a backslash keeps that character in its forged name, and so in the version suffix |
| Egg.CorrectedSuffixClean | source/eggs/minitage.recipe.egg-1.88-py2.7.egg/minitage/recipe/egg/egg.py:2013-2034 | with the corrected separator tuple, the suffix of `_get_dist_patches` splits on `-` into the marker and one forged name per patch, and no forged name holds a one-character separator |
| Egg.ForgeKeeps | source/eggs/minitage.recipe.egg-1.88-py2.7.egg/minitage/recipe/egg/egg.py:2019-2034 | a one-character patch name that is no separator, no `.` and no `/` is its own forged name |
| Egg.NamesWith | source/eggs/minitage.recipe.egg-1.88-py2.7.egg/minitage/recipe/egg/egg.py:2019-2034 | there is exactly one forged name per patch |
| Egg.ForgedSplits | source/eggs/minitage.recipe.egg-1.88-py2.7.egg/minitage/recipe/egg/egg.py:2013-2034 | for any separator tuple that holds `-`, the suffix built for a non-empty patch list splits on `-` into the marker followed by one forged name per patch, in order |
| Egg.PatchedVersionRoundTrip | source/eggs/minitage.recipe.egg-1.88-py2.7.egg/minitage/recipe/egg/egg.py:76-81 | for any separator tuple and an original version with no marker and no trailing `-`, `get_orig_version` of the patched version gives back the original version |
| Egg.DistPatchesVersion | source/eggs/minitage.recipe.egg-1.88-py2.7.egg/minitage/recipe/egg/egg.py:1954-2048 | for the tuple as written and the corrected one alike: with no patches the version is the original version of the given or pinned one and the suffix is empty; with no version given or pinned the version is `''`; with patches the suffix starts with the marker |
| Egg.ForgeName | source/eggs/minitage.recipe.egg-1.88-py2.7.egg/minitage/recipe/egg/egg.py:2020-2034 | the replacement and capitalization loops compute the specified forged name of a patch |
| Egg.ReplaceSeps | source/eggs/minitage.recipe.egg-1.88-py2.7.egg/minitage/recipe/egg/egg.py:2024-2027 | the replacement loop turns every separator of the tuple into the separator string, one separator after the other |
| Egg.Capitalized | source/eggs/minitage.recipe.egg-1.88-py2.7.egg/minitage/recipe/egg/egg.py:2029-2034 | the capitalization loop concatenates the parts, each with its first letter capitalized when it is longer than one character |
| Egg.ForgeSuffix | source/eggs/minitage.recipe.egg-1.88-py2.7.egg/minitage/recipe/egg/egg.py:2013-2035 | the loop over the patches computes the specified suffix, the marker followed by `-<forged name>` per patch |
| Egg.GetDistPatches | source/eggs/minitage.recipe.egg-1.88-py2.7.egg/minitage/recipe/egg/egg.py:1954-2048 | the method computes, with the separator tuple as written, the specified version, patch command, patch options, patch list and suffix |
| Egg.KnownPassSpec | source/eggs/minitage.recipe.egg-1.88-py2.7.egg/minitage/recipe/egg/egg.py:312-320 | after the loop over known options, an option is present exactly when it was before or `<dist>-<option>` is given, and a given `<dist>-<option>` value wins over the old one |
| Egg.ExtPassSpec | source/eggs/minitage.recipe.egg-1.88-py2.7.egg/minitage/recipe/egg/egg.py:322-327 | after the loop over `<dist>-bdistext-` keys, an option is present exactly when it was before or some key sets it; the last such key in the options' order gives its value; other entries are kept |
| Egg.KnownLoop | source/eggs/minitage.recipe.egg-1.88-py2.7.egg/minitage/recipe/egg/egg.py:312-320 | the loop over known options computes the specified map |
| Egg.GetBdistExtOptions | source/eggs/minitage.recipe.egg-1.88-py2.7.egg/minitage/recipe/egg/egg.py:311-328 | the two loops compute the specified build_ext options |
| Egg.BdistExtWins | source/eggs/minitage.recipe.egg-1.88-py2.7.egg/minitage/recipe/egg/egg.py:311-328 | an option set by a `<dist>-bdistext-` key takes the value of the last such key, overriding both other sources |
| Egg.BdistKnownWins | source/eggs/minitage.recipe.egg-1.88-py2.7.egg/minitage/recipe/egg/egg.py:311-328 | without a `bdistext` key for it, a known option with a `<dist>-<option>` value takes that value |
| Egg.BdistDefault | source/eggs/minitage.recipe.egg-1.88-py2.7.egg/minitage/recipe/egg/egg.py:311-328 | an option no key of the distribution sets keeps the recipe-wide value, and is present exactly when that one is |
| ZopeSkel.Var.constructor | source/eggs/ZopeSkel-2.21.2-py2.7.egg/zopeskel/base.py:219-235 | a question variable starts with the given name, page, modes and default |
| ZopeSkel.FirstIndex | source/eggs/ZopeSkel-2.21.2-py2.7.egg/zopeskel/base.py:54-59 | the index found holds the name and no earlier position holds it; none is found only when the name is absent (used for variables and for pages) |
| ZopeSkel.GetVar | source/eggs/ZopeSkel-2.21.2-py2.7.egg/zopeskel/base.py:54-59 | `get_var` succeeds exactly when some variable has the name and returns the first such one; otherwise it raises `ValueError` naming it |
| ZopeSkel.HiddenSpec | source/eggs/ZopeSkel-2.21.2-py2.7.egg/zopeskel/base.py:219-235 | in `ALL` mode nothing is hidden; in another mode a name is hidden exactly when some variable of that name is not asked in the mode, and it takes the default of the last such variable |
| ZopeSkel.FilterForModes | source/eggs/ZopeSkel-2.21.2-py2.7.egg/zopeskel/base.py:219-235 | the loop over the expected variables computes the specified hidden map |
| ZopeSkel.PagesSpec | source/eggs/ZopeSkel-2.21.2-py2.7.egg/zopeskel/base.py:354-367 | there is one page per distinct page name, in the order the names first appear, and each page lists the variables on it in declaration order |
| ZopeSkel.PagesDistinct | source/eggs/ZopeSkel-2.21.2-py2.7.egg/zopeskel/base.py:354-367 | no two pages have the same name |
| ZopeSkel.PagesNamed | source/eggs/ZopeSkel-2.21.2-py2.7.egg/zopeskel/base.py:354-367 | a page exists exactly for each name some variable gives as its page |
| ZopeSkel.ComputePages | source/eggs/ZopeSkel-2.21.2-py2.7.egg/zopeskel/base.py:354-367 | the loop with the page map computes the specified pages |
| ZopeSkel.PositionInStack | source/eggs/ZopeSkel-2.21.2-py2.7.egg/zopeskel/base.py:183-188 | the index found is the first template of the same class in the stack; when no template has that class the lookup raises `ValueError` |
| ZopeSkel.ShouldPrintSpec | source/eggs/ZopeSkel-2.21.2-py2.7.egg/zopeskel/base.py:190-209 | the notice is printed exactly when the template uses local commands and no template after its class's first place in the stack does; the call fails exactly when the template uses local commands and its class is not in the stack |
| ZopeSkel.OneNotice | source/eggs/ZopeSkel-2.21.2-py2.7.egg/zopeskel/base.py:190-209 | in a stack of distinct classes, at most one template prints the sub-template notice |
| ZopeSkel.PackageDefaultsRoundTrip | source/eggs/ZopeSkel-2.21.2-py2.7.egg/zopeskel/base.py:237-258 | for `ndots` of 1 or 2 and a project name with that many dots, the defaults run from `namespace_package` to `package`, one per dotted part, and joining them with `.` gives back the project name |
| ZopeSkel.NoDotsNoDefaults | source/eggs/ZopeSkel-2.21.2-py2.7.egg/zopeskel/base.py:237-258 | without `ndots`, or with `ndots` 0, no default is overridden |
| ZopeSkel.PackageIsLastPart | source/eggs/ZopeSkel-2.21.2-py2.7.egg/zopeskel/base.py:237-258 | with a non-zero `ndots` the last override sets `package` to the last dotted part of the project name, and no earlier override sets `package` |
| ZopeSkel.SetDefault | source/eggs/ZopeSkel-2.21.2-py2.7.egg/zopeskel/base.py:254-258 | setting a default succeeds exactly when a variable of that name exists; then the first such variable gets the value and every other variable keeps its default; otherwise `ValueError` is raised and nothing changes |
| ZopeSkel.SetDefaults | source/eggs/ZopeSkel-2.21.2-py2.7.egg/zopeskel/base.py:250-258 | the overrides are applied in order until a variable is missing, which raises `ValueError` naming it; the overrides applied before it stay and every other variable keeps its default |
| ZopeSkel.OverridePackageNamesDefaults | source/eggs/ZopeSkel-2.21.2-py2.7.egg/zopeskel/base.py:237-258 | `override_package_names_defaults` applies the package-name overrides for `ndots` in order, stopping with `ValueError` at the first missing variable; variables not overridden keep their defaults |

## Left out

- Python 2 itself: floating point, locale-dependent `upper()`/`lower()`, byte strings against unicode. Strings are sequences of characters, and case mapping covers ASCII only.
- Logging, printing and the messages of exceptions. Errors are modelled by their kind and the name they report.
- Subprocesses, `os.system`, `chdir` and the network. Whether a command fails is a parameter, usually the set of failing commands.
- Pythons.LookupAll: loads every listed dependency when it is looked up and fails with `LoadFailed` at the first broken one. The source's `find_minibuild` only finds, and a dependency is loaded when the sweep first reads its category. So for dependencies `[A, B]` with A broken and B in no minilay, the source raises `NotFound(B)` and the model `LoadFailed(A)`; and a broken minibuild the sweep skips stops the model but not the source. `Pythons.Gather` and `Pythons.LookupEach` share this.
- Pythons: the directory listing under `<prefix>/dependencies` is the parameter `installed`. The file system is not read.
- Store: a package that is not `meta-` and has no category raises in the source whenever its install path is joined. The model raises `CategoryMissing` where `main` filters the work list and where `updateHistory` adopts installed packages; the store operations themselves (`InstallPath`, `Installed`, `_do_action`'s steps) give such a package no install path instead of raising.
- Store: `os.makedirs` of the history directory is not modelled as a failure point.
- Store: the maker is described only by the callbacks `_do_action` uses.
- Store: `pyvers` is only handed on to the maker.
- MainFlow: `_fetch` evaluates the fetch check once per call. The source can observe a file that appears while it runs; the model cannot.
- CoreCommon: in `make_backup`, renaming moves only the named path. A rename that fails is not modelled.
- Store: the maker's `delete` is modelled by its effect on the history store, which the model clears. The files it removes are not modelled.
- Update: the `minilay.load()` and `mb.load()` calls before the renaming loop are not modelled. The minibuilds come in already loaded; the reload at the end of each `write` is modelled, and its error stops the migration.
- Update.MigrateMinibuild: the `.sav` copy of the minibuild file and the `newline` pass over the written file are not modelled. The copy holds the file as it was before the write, and `newline` changes only line endings, not the options read back.
- Update.MigrateMinibuild: the debugger breakpoint `write` sets for the minibuild `libxml2-2.7` is not modelled. It stops the process interactively and changes no data.
- Update: the `.env` regeneration after the migration is not modelled. It calls `generate_env`, which is not part of this model.
- Update: the order of the renaming dictionary is the order of the sequence `ups`.
- Update.MigrateAll: requires the minibuilds to be distinct objects. In the source each minibuild file is its own object, so the requirement always holds there.
- Cli: `generate_env` is only chosen as an action. Generating the environment is not part of this model.
- Cli: the usage printout when no argument is given is left out.
- Cli: option parsing by `optparse` is taken as done. The model starts from the parsed flags.
- Cli: `expanduser` is modelled for `~` and `~/…` with the current user's home directory only.
- Objects.Fresh: a new minibuild's attributes that the source leaves `None` become empty values, except those modelled as `Option`.
- Objects.ReadFields: an error leaves no partly updated object. In the source, the attributes assigned before the error stay on the object.
- Objects.Minibuild.Load: on a read error the attributes are stated unchanged, and on a `parse_vars` error they are stated as the read left them. In the source the attributes the read assigned before its error stay, and so do the substitutions `parse_vars` made before it raised.
- Objects.Minibuild.ParseVars: the `TypeError` on a list holding `${` is raised before any substitution and leaves the attributes unchanged. The source walks the attribute dictionary in CPython 2.7's hash order and substitutes each string attribute it visits before it reaches that list; that order is not modelled, so neither is the partial substitution.
- Text.ParseInt: Python 2's `int()` also accepts whitespace between the sign and the digits. The model rejects that.
- Buildout: the transient `buildout_config = parts` assignment of `install` is not modelled.
- Buildout: the content of `.installed.cfg` is not read. The model passes only whether the file exists.
- Fetchers: the destination is one directory level. The contents of nested directories are not modelled.
- Fetchers: directory listings are sets. Their order matters only in the `<name>-tmp` case below.
- Fetchers: the version-control client is abstract. Its checkout listing, its failing commands, whether a URI is valid and whether it changed are parameters. `_scm_cmd` is not modelled.
- Fetchers.CopyMoveTree: a checked-out entry named `<name>-tmp` is not modelled as the source handles it. There, `remove_path` deletes the temporary directory itself when it reaches that entry, and the later `os.rename` raises `OSError`. The model drops the entry and succeeds.
- Fetchers.Fetch: when that `OSError` is raised, which entries were already moved depends on the `os.listdir` order. The model does not carry that order.
- Fetchers: proxy variables are not modelled, and neither is any other environment setting.
- Fetchers: the archive name `<basename>.old.<timestamp>` is the parameter `stash`.
- Scm: running the commands is left to the `Fetchers` model. What `get_uri` reads from a working copy is a parameter.
- CoreCommon.SplitStrip: requires a non-empty token. Python's `split('')` raises `ValueError` instead, and every call to `splitstrip` in these sources splits on whitespace, so that error path is not modelled.
- CoreCommon.Pieces: requires a non-empty token, for the same reason as `SplitStrip`.
- Egg.Requirement.MergeExtras: the result order of `set()` is not modelled. The contract states the elements, each once, but not their order.
- Egg.Requirement.MergeSpecs: the result order of `set()` is not modelled, as for `MergeExtras`.
- Egg.GetBdistExtOptions: the iteration order of the options dictionary is the parameter `order`.
- Egg: the removal of a dead `.download` directory and `norm_path` are left out. On POSIX, `norm_path` is the identity.
- Egg: the Windows branch (marker `zmpatch` and lowercased versions) is not modelled.
- ZopeSkel: `get_template_stack` is not modelled. The template stack is the parameter `stack`.
- ZopeSkel: `vars.py` is not part of this model. Variables carry their defaults as strings.
- ZopeSkel: class identity is the class name.
- ZopeSkel.OverridePackageNamesDefaults: the `get_var(...).default = …` steps are applied through the list of defaults `PackageDefaults` computes.

## Findings

| source | as written | input that shows it | evidently intended | confidence | as-written member | corrected member |
|---|---|---|---|---|---|---|
| source/eggs/minitage.recipe.egg-1.88-py2.7.egg/minitage/recipe/egg/egg.py:2024-2027 | a missing comma joins `','` and `';'` into the one separator `',;'`, and `'^'` and the backslash into `'^\\'` | a patch file named `,` keeps the comma in the forged name, and so in the egg version | each of these four characters is a separator of its own and is removed | not executed | Egg.UnsplitSeparatorsSurvive | Egg.ForgedNameClean |
| source/eggs/minitage.core-2.0.27-py2.7.egg/minitage/core/objects.py:125-135 | the name pattern ends with `$`, which also matches before one final newline | the name `zlib` followed by a newline is accepted as a minibuild name | a minibuild name holds only letters, digits, `-`, `.` and `_` | not executed | Objects.TrailingNewlineAccepted | Objects.WellNamedShape |
