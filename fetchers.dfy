/**
 * The generic fetcher of minitage.core.fetchers.interfaces: the URI syntax
 * every fetcher starts from, and how `fetch`, `update` and `fetch_or_update`
 * sequence archiving, checkout, update and revision steps on a destination
 * directory.
 *
 * The destination is one directory level: missing, a plain file, or a
 * directory whose entries are named and known to be directories or not. The
 * version-control side is abstract: a checkout produces a given listing, the
 * commands whose kind is in `failing` raise, whether the source URI is valid
 * and whether it changed are the answers of the concrete fetcher (see the
 * `Scm` module), given for the call.
 */
module Fetchers {
  import opened Wrappers
  import opened Text

  // ------------------------------------------------------------- URI_REGEX

  /** The schemes `URI_REGEX` accepts before `://`, in the order of its alternation. */
  const Schemes: seq<string> :=
    ["git", "hg", "bzr", "mtn", "ssh", "http", "https", "ftp", "sftp", "file", "svn", "svn+ssh", "cvs"]

  /** The groups of a `URI_REGEX` match: the whole match, and the scheme unless it is the `/` branch. */
  datatype UriMatch = UriMatch(whole: string, scheme: Option<string>)

  /** The first scheme from index `k` on that the URI starts with, followed by `://`. */
  function SchemeFrom(uri: string, k: nat): (r: Option<string>)
    requires k <= |Schemes|
    ensures r.Some? ==> r.value in Schemes[k..] && IsPrefix(r.value + "://", uri)
    ensures r.None? ==> forall j :: k <= j < |Schemes| ==> !IsPrefix(Schemes[j] + "://", uri)
    decreases |Schemes| - k
  {
    if k == |Schemes| then None
    else if IsPrefix(Schemes[k] + "://", uri) then Some(Schemes[k])
    else SchemeFrom(uri, k + 1)
  }

  /** `URI_REGEX.match(uri)`. */
  function UriRegex(uri: string): Option<UriMatch>
  {
    if IsPrefix("/", uri) then Some(UriMatch("/", None))
    else match SchemeFrom(uri, 0)
      case Some(s) => Some(UriMatch(s + "://", Some(s)))
      case None => None
  }

  predicate NoColon(s: string)
  {
    forall i :: 0 <= i < |s| ==> s[i] != ':'
  }

  /** Two colon-free schemes both followed by `://` at the start of one URI are the same. */
  lemma SchemePrefixUnique(a: string, b: string, uri: string)
    requires NoColon(a) && NoColon(b)
    requires IsPrefix(a + "://", uri) && IsPrefix(b + "://", uri)
    ensures a == b
  {
    if |a| < |b| {
      PrefixColon(a, b, uri);
    } else if |b| < |a| {
      PrefixColon(b, a, uri);
    } else {
      assert forall i :: 0 <= i < |a| ==> a[i] == uri[i] == b[i];
    }
  }

  lemma PrefixColon(a: string, b: string, uri: string)
    requires |a| < |b| && IsPrefix(a + "://", uri) && IsPrefix(b + "://", uri)
    ensures b[|a|] == ':'
  {
    assert uri[|a|] == (a + "://")[|a|];
    assert uri[|a|] == (b + "://")[|a|];
  }

  lemma SchemesNoColon()
    ensures forall k :: 0 <= k < |Schemes| ==> NoColon(Schemes[k])
  {
  }

  /**
   * `URI_REGEX` matches exactly the URIs that start with `/` or with one of
   * its schemes and `://`. A match on a scheme reports it as its group, and no
   * other scheme fits the URI.
   */
  lemma UriRegexSpec(uri: string)
    ensures UriRegex(uri).Some? <==>
      IsPrefix("/", uri) || exists k :: 0 <= k < |Schemes| && IsPrefix(Schemes[k] + "://", uri)
    ensures UriRegex(uri).Some? && UriRegex(uri).value.scheme.Some? ==>
      var s := UriRegex(uri).value.scheme.value;
      && s in Schemes && IsPrefix(s + "://", uri) && !IsPrefix("/", uri)
      && forall k :: 0 <= k < |Schemes| && IsPrefix(Schemes[k] + "://", uri) ==> Schemes[k] == s
    ensures UriRegex(uri).Some? && UriRegex(uri).value.scheme.None? ==> IsPrefix("/", uri)
  {
    var m := UriRegex(uri);
    if m.Some? && m.value.scheme.Some? {
      var s := m.value.scheme.value;
      SchemesNoColon();
      forall k | 0 <= k < |Schemes| && IsPrefix(Schemes[k] + "://", uri)
        ensures Schemes[k] == s
      {
        SchemePrefixUnique(Schemes[k], s, uri);
      }
    }
  }

  // ------------------------------------------------- the destination directory

  /** The destination: missing, a plain file, or a directory mapping entry names to "is a directory". */
  datatype Dest = Missing | File | Dir(entries: map<string, bool>)

  /** `os.path.isdir(os.path.join(dest, metadata_directory))`. */
  predicate HasMetadata(d: Dest, md: string)
  {
    d.Dir? && md in d.entries && d.entries[md]
  }

  /** The errors of the fetch steps. */
  datatype FetchError =
    | InvalidRepository(dest: string)
      /** `interfaces.InvalidUrlError` names a class `minitage.core.interfaces` lacks: an `AttributeError`. */
    | UndefinedInvalidUrlError
      /** `os.listdir` on a destination that is a plain file. */
    | NotADirectory(dest: string)
      /** `os.makedirs` of the archive directory over a plain file of that name. */
    | ArchiveBlocked(path: string)
      /** `FetcherRuntimeError`: a version-control command failed. */
    | CommandFailed(command: Command)
      /** `get_uri` raised `FetcherRuntimeError`: the command reading the recorded URI failed. */
    | GetUriFailed

  /** The version-control commands a fetcher runs. */
  datatype Op = OpCheckout | OpUpdateWc | OpGotoRevision

  datatype Command = Command(op: Op, path: string)

  /** `check_valid_co`: the destination must hold the metadata directory. */
  function CheckValidCo(d: Dest, dest: string, md: string): (r: Option<FetchError>)
    ensures r.None? <==> HasMetadata(d, md)
  {
    if HasMetadata(d, md) then None else Some(InvalidRepository(dest))
  }

  // ------------------------------------------------------ archive_previous_co

  /**
   * `archive_previous_co` with `stash` the archive's name `<basename>.old.<stamp>`:
   * a non-empty directory has its entries moved into a new `stash` directory
   * and `true` comes back. When `stash` is already a directory nothing moves.
   */
  function Archive(d: Dest, stash: string): Result<(Dest, bool), FetchError>
  {
    if d.Dir? && d.entries != map[] then
      if stash in d.entries && d.entries[stash] then Ok((d, true))
      else if stash in d.entries then Err(ArchiveBlocked(stash))
      else Ok((Dir(map[stash := true]), true))
    else Ok((d, false))
  }

  /** `archive_previous_co` answers whether `dest` is a directory with an entry. */
  lemma ArchiveAnswer(d: Dest, stash: string)
    ensures Archive(d, stash).Ok? ==> (Archive(d, stash).value.1 <==> d.Dir? && d.entries != map[])
    ensures Archive(d, stash).Err? ==> d.Dir? && stash in d.entries && !d.entries[stash]
    ensures Archive(d, stash).Ok? && Archive(d, stash).value.1 ==>
      var d1 := Archive(d, stash).value.0;
      d1.Dir? && stash in d1.entries && d1.entries[stash]
  {
  }

  /**
   * The archiving loop: makes the `stash` directory, then moves into it every
   * other entry the directory then lists. `moved` holds the names moved.
   */
  method ArchivePreviousCo(d: Dest, stash: string) returns (r: Result<(Dest, bool), FetchError>, moved: set<string>)
    ensures r == Archive(d, stash)
    ensures r.Ok? && r.value.1 && !(stash in d.entries) ==> moved == d.entries.Keys
    ensures !(r.Ok? && r.value.1) ==> moved == {}
  {
    moved := {};
    if d.Dir? && d.entries != map[] {
      if !(stash in d.entries) {
        var entries := d.entries[stash := true];
        var rest := d.entries.Keys;
        while rest != {}
          invariant rest <= d.entries.Keys && moved == d.entries.Keys - rest
          invariant entries == (map p | p in rest :: d.entries[p])[stash := true]
          decreases rest
        {
          var p :| p in rest;
          entries := entries - {p};
          moved := moved + {p};
          rest := rest - {p};
        }
        assert entries == map[stash := true];
        return Ok((Dir(entries), true)), moved;
      } else if !d.entries[stash] {
        return Err(ArchiveBlocked(stash)), moved;
      }
      return Ok((d, true)), moved;
    }
    return Ok((d, false)), moved;
  }

  // --------------------------------------------------------- copy_move_tree

  /**
   * `copy_move_tree(tmp, dest)` after a checkout into `dest/<tmp>`: each
   * checked-out entry replaces the entry of that name, then `tmp` goes.
   */
  function MovedIn(entries: map<string, bool>, listing: map<string, bool>, tmp: string): map<string, bool>
  {
    (entries + listing) - {tmp}
  }

  lemma MoveStep(entries: map<string, bool>, listing: map<string, bool>, rest: set<string>, f: string)
    requires f in listing
    ensures (entries + (listing - rest))[f := listing[f]] == entries + (listing - (rest - {f}))
  {
  }

  /** The moving loop of `copy_move_tree`, one checked-out entry at a time. */
  method CopyMoveTree(entries: map<string, bool>, listing: map<string, bool>, tmp: string)
    returns (r: map<string, bool>)
    ensures r == MovedIn(entries, listing, tmp)
  {
    r := entries;
    var rest := listing.Keys;
    assert entries + (listing - rest) == entries;
    while rest != {}
      invariant rest <= listing.Keys
      invariant r == entries + (listing - rest)
      decreases rest
    {
      var f :| f in rest;
      MoveStep(entries, listing, rest, f);
      r := r[f := listing[f]];
      rest := rest - {f};
    }
    assert listing - rest == listing;
    r := r - {tmp};
  }

  // ------------------------------------------------------------------ fetch

  /** What a version-control side does: the listing a checkout produces, and which kinds of command fail. */
  datatype Vcs = Vcs(listing: map<string, bool>, failing: set<Op>)

  /** The state of a fetch or update: the destination afterwards, the commands run, and the error raised. */
  datatype Outcome = Outcome(dest: Dest, run: seq<Command>, err: Option<FetchError>)

  /** Where `fetch` checks out: `dest`, or `dest/<name>-tmp` when `dest` was archived or is an empty directory. */
  function CheckoutDest(d1: Dest, archived: bool, dest: string, name: string): string
  {
    var into := if archived then PathJoin(dest, name + "-tmp") else dest;
    if d1.Dir? && d1.entries == map[] then PathJoin(into, name + "-tmp") else into
  }

  /**
   * `fetch(dest, uri)` of a fetcher named `name` with metadata directory
   * `md`; `stash` names the archive and `valid` is `is_valid_src_uri(uri)`.
   */
  function Fetch(d: Dest, dest: string, name: string, md: string, stash: string, valid: bool, vcs: Vcs): (o: Outcome)
  {
    if d.File? then Outcome(d, [], Some(NotADirectory(dest)))
    else
      match Archive(d, stash)
      case Err(e) => Outcome(d, [], Some(e))
      case Ok((d1, archived)) =>
        var into := CheckoutDest(d1, archived, dest, name);
        if !valid then Outcome(d1, [], Some(UndefinedInvalidUrlError))
        else
          var co := Command(OpCheckout, into);
          if OpCheckout in vcs.failing then Outcome(d1, [co], Some(CommandFailed(co)))
          else
            var d2 := if into == dest then Dir(vcs.listing)
                      else Dir(MovedIn(if d1.Dir? then d1.entries else map[], vcs.listing, name + "-tmp"));
            var go := Command(OpGotoRevision, dest);
            if OpGotoRevision in vcs.failing then Outcome(d2, [co, go], Some(CommandFailed(go)))
            else Outcome(d2, [co, go], CheckValidCo(d2, dest, md))
  }

  /**
   * A fetch into an existing directory checks out into `dest/<name>-tmp`,
   * whether the directory was archived or empty; a missing destination is
   * checked out into directly.
   */
  lemma FetchInto(d: Dest, dest: string, name: string, stash: string)
    requires name != [] && !IsPrefix("/", name + "-tmp")
    requires d.Missing? || (d.Dir? && Archive(d, stash).Ok?)
    ensures var (d1, archived) := Archive(d, stash).value;
      CheckoutDest(d1, archived, dest, name) == if d.Dir? then PathJoin(dest, name + "-tmp") else dest
  {
    var (d1, archived) := Archive(d, stash).value;
    ArchiveAnswer(d, stash);
  }

  /**
   * An invalid URI is refused before any checkout: no command runs and the
   * refusal itself raises `AttributeError`. A previous checkout has been
   * archived all the same.
   */
  lemma FetchInvalidUri(d: Dest, dest: string, name: string, md: string, stash: string, vcs: Vcs)
    requires d.Dir? ==> Archive(d, stash).Ok?
    ensures var o := Fetch(d, dest, name, md, stash, false, vcs);
      && o.run == []
      && (d.File? ==> o.err == Some(NotADirectory(dest)))
      && (!d.File? ==> o.err == Some(UndefinedInvalidUrlError) && o.dest == Archive(d, stash).value.0)
  {
  }

  /**
   * A fetch that raises nothing has checked out, gone to the revision and
   * left the metadata directory in place; the checkout went to the
   * destination itself or to its `-tmp` directory.
   */
  lemma FetchSuccess(d: Dest, dest: string, name: string, md: string, stash: string, valid: bool, vcs: Vcs)
    requires Fetch(d, dest, name, md, stash, valid, vcs).err.None?
    ensures var o := Fetch(d, dest, name, md, stash, valid, vcs);
      && valid && HasMetadata(o.dest, md) && |o.run| == 2
      && o.run[0].op == OpCheckout && o.run[1] == Command(OpGotoRevision, dest)
      && (o.run[0].path == dest || o.run[0].path == PathJoin(dest, name + "-tmp")
          || o.run[0].path == PathJoin(PathJoin(dest, name + "-tmp"), name + "-tmp"))
  {
  }

  /**
   * Into a missing destination, a fetch succeeds exactly when the URI is
   * valid, no command fails and the checkout brings the metadata directory.
   */
  lemma FetchMissing(dest: string, name: string, md: string, stash: string, valid: bool, vcs: Vcs)
    ensures Fetch(Missing, dest, name, md, stash, valid, vcs).err.None? <==>
      valid && OpCheckout !in vcs.failing && OpGotoRevision !in vcs.failing && md in vcs.listing && vcs.listing[md]
  {
  }

  // ----------------------------------------------------------------- update

  /** `o` followed by the outcome `next` that started from `o.dest`. */
  function Then(o: Outcome, next: Outcome): Outcome
  {
    Outcome(next.dest, o.run + next.run, next.err)
  }

  /**
   * `update(dest, uri)`: an invalid working copy is fetched first; then a
   * changed URI (`changed`, the fetcher's `_has_uri_changed` on the copy at
   * that point) is fetched again, otherwise the copy is updated and moved to
   * the revision; the copy is checked last.
   */
  function Update(d: Dest, dest: string, name: string, md: string, stash: string, uri: string, valid: bool,
                  changed: Result<bool, FetchError>, vcs: Vcs): (o: Outcome)
  {
    var first := if HasMetadata(d, md) then Outcome(d, [], None) else Fetch(d, dest, name, md, stash, valid, vcs);
    if first.err.Some? then first
    else if uri != [] && changed.Err? then Outcome(first.dest, first.run, Some(changed.error))
    else if uri != [] && changed == Ok(true) then
      var again := Fetch(first.dest, dest, name, md, stash, valid, vcs);
      if again.err.Some? then Then(first, again)
      else Outcome(again.dest, first.run + again.run, CheckValidCo(again.dest, dest, md))
    else
      var up := Command(OpUpdateWc, dest);
      var go := Command(OpGotoRevision, dest);
      if OpUpdateWc in vcs.failing then Outcome(first.dest, first.run + [up], Some(CommandFailed(up)))
      else if OpGotoRevision in vcs.failing then Outcome(first.dest, first.run + [up, go], Some(CommandFailed(go)))
      else Outcome(first.dest, first.run + [up, go], CheckValidCo(first.dest, dest, md))
  }

  /**
   * On a valid working copy whose URI did not change, `update` updates then
   * goes to the revision and touches nothing else; an unchanged copy with a
   * changed URI is fetched anew. Whatever happened, an update that raises
   * nothing leaves a valid working copy.
   */
  lemma UpdateSequence(d: Dest, dest: string, name: string, md: string, stash: string, uri: string, valid: bool,
                       changed: Result<bool, FetchError>, vcs: Vcs)
    ensures var o := Update(d, dest, name, md, stash, uri, valid, changed, vcs);
      && (HasMetadata(d, md) && (uri == [] || changed == Ok(false)) && vcs.failing == {} ==>
            o == Outcome(d, [Command(OpUpdateWc, dest), Command(OpGotoRevision, dest)], None))
      && (HasMetadata(d, md) && uri != [] && changed == Ok(true) ==>
            o.run == Fetch(d, dest, name, md, stash, valid, vcs).run)
      && (o.err.None? ==> HasMetadata(o.dest, md))
  {
  }

  /** An invalid working copy is fetched before anything else. */
  lemma UpdateFetchesInvalid(d: Dest, dest: string, name: string, md: string, stash: string, uri: string, valid: bool,
                             changed: Result<bool, FetchError>, vcs: Vcs)
    requires !HasMetadata(d, md)
    ensures var o := Update(d, dest, name, md, stash, uri, valid, changed, vcs);
      var f := Fetch(d, dest, name, md, stash, valid, vcs);
      o.run[..|f.run|] == f.run
  {
  }

  /** `fetch_or_update`: update a working copy that has its metadata directory, fetch anything else. */
  function FetchOrUpdate(d: Dest, dest: string, name: string, md: string, stash: string, uri: string, valid: bool,
                         changed: Result<bool, FetchError>, vcs: Vcs): Outcome
  {
    if HasMetadata(d, md) then Update(d, dest, name, md, stash, uri, valid, changed, vcs)
    else Fetch(d, dest, name, md, stash, valid, vcs)
  }

  /**
   * Without a working copy, `fetch_or_update` and `update` do the same: the
   * copy is fetched, and then updated unless its URI changed. With one, both
   * are `update`.
   */
  lemma FetchOrUpdateAgrees(d: Dest, dest: string, name: string, md: string, stash: string, uri: string, valid: bool,
                            changed: Result<bool, FetchError>, vcs: Vcs)
    ensures HasMetadata(d, md) ==>
      FetchOrUpdate(d, dest, name, md, stash, uri, valid, changed, vcs) == Update(d, dest, name, md, stash, uri, valid, changed, vcs)
    ensures !HasMetadata(d, md) ==>
      var f := Fetch(d, dest, name, md, stash, valid, vcs);
      var u := Update(d, dest, name, md, stash, uri, valid, changed, vcs);
      FetchOrUpdate(d, dest, name, md, stash, uri, valid, changed, vcs) == f && u.run[..|f.run|] == f.run
  {
  }

  // ------------------------------------------------------ the imperative steps

  /** `fetch` step by step: `checkout_dest` is reassigned as the destination is inspected. */
  method FetchRun(d: Dest, dest: string, name: string, md: string, stash: string, valid: bool, vcs: Vcs)
    returns (o: Outcome)
    ensures o == Fetch(d, dest, name, md, stash, valid, vcs)
  {
    var checkoutDest := dest;
    if d.File? {
      return Outcome(d, [], Some(NotADirectory(dest)));
    }
    var archive, moved := ArchivePreviousCo(d, stash);
    if archive.Err? {
      return Outcome(d, [], Some(archive.error));
    }
    var (d1, archived) := archive.value;
    if archived {
      checkoutDest := PathJoin(checkoutDest, name + "-tmp");
    }
    if d1.Dir? && d1.entries == map[] {
      checkoutDest := PathJoin(checkoutDest, name + "-tmp");
    }
    assert checkoutDest == CheckoutDest(d1, archived, dest, name);
    if !valid {
      return Outcome(d1, [], Some(UndefinedInvalidUrlError));
    }
    var co := Command(OpCheckout, checkoutDest);
    if OpCheckout in vcs.failing {
      return Outcome(d1, [co], Some(CommandFailed(co)));
    }
    var d2 := Dir(vcs.listing);
    if checkoutDest != dest {
      var entries := CopyMoveTree(if d1.Dir? then d1.entries else map[], vcs.listing, name + "-tmp");
      d2 := Dir(entries);
    }
    var go := Command(OpGotoRevision, dest);
    if OpGotoRevision in vcs.failing {
      return Outcome(d2, [co, go], Some(CommandFailed(go)));
    }
    o := Outcome(d2, [co, go], CheckValidCo(d2, dest, md));
  }

  /** `update` step by step, calling `fetch` where it does. */
  method UpdateRun(d: Dest, dest: string, name: string, md: string, stash: string, uri: string, valid: bool,
                   changed: Result<bool, FetchError>, vcs: Vcs)
    returns (o: Outcome)
    ensures o == Update(d, dest, name, md, stash, uri, valid, changed, vcs)
  {
    o := Outcome(d, [], None);
    if CheckValidCo(d, dest, md).Some? {
      o := FetchRun(d, dest, name, md, stash, valid, vcs);
      if o.err.Some? {
        return;
      }
    }
    if uri != [] && changed.Err? {
      return Outcome(o.dest, o.run, Some(changed.error));
    }
    if uri != [] && changed == Ok(true) {
      var again := FetchRun(o.dest, dest, name, md, stash, valid, vcs);
      if again.err.Some? {
        return Then(o, again);
      }
      o := Outcome(again.dest, o.run + again.run, None);
    } else {
      var up := Command(OpUpdateWc, dest);
      o := Outcome(o.dest, o.run + [up], None);
      if OpUpdateWc in vcs.failing {
        return Outcome(o.dest, o.run, Some(CommandFailed(up)));
      }
      var go := Command(OpGotoRevision, dest);
      o := Outcome(o.dest, o.run + [go], None);
      if OpGotoRevision in vcs.failing {
        return Outcome(o.dest, o.run, Some(CommandFailed(go)));
      }
    }
    o := Outcome(o.dest, o.run, CheckValidCo(o.dest, dest, md));
  }

  /** `fetch_or_update`. */
  method FetchOrUpdateRun(d: Dest, dest: string, name: string, md: string, stash: string, uri: string, valid: bool,
                          changed: Result<bool, FetchError>, vcs: Vcs)
    returns (o: Outcome)
    ensures o == FetchOrUpdate(d, dest, name, md, stash, uri, valid, changed, vcs)
  {
    if HasMetadata(d, md) {
      o := UpdateRun(d, dest, name, md, stash, uri, valid, changed, vcs);
    } else {
      o := FetchRun(d, dest, name, md, stash, valid, vcs);
    }
  }

  // ---------------------------------------------------- warn_trailing_slash

  /** What `get_uri(dest)` gives: a URI, Python's `None` (Subversion outside a copy), or an error. */
  datatype GetUri = Uri(text: string) | NoUri | UriFailed

  /** `'%s' % get_uri(dest)`. */
  function Shown(g: GetUri): string
    requires !g.UriFailed?
  {
    if g.Uri? then g.text else "None"
  }

  /** `warn_trailing_slash(dest, uri)`; a failing `get_uri` propagates. */
  function WarnTrailingSlash(uri: string, g: GetUri): (r: Result<bool, FetchError>)
    ensures r.Err? <==> g.UriFailed?
    ensures r.Ok? ==> (r.value <==> |uri| > 0 && uri[|uri| - 1] == '/' && uri[..|uri| - 1] == Shown(g))
  {
    if g.UriFailed? then Err(GetUriFailed)
    else
      var s := Shown(g) + "/";
      assert uri == s ==> uri[..|uri| - 1] == Shown(g);
      assert |uri| > 0 && uri[|uri| - 1] == '/' && uri[..|uri| - 1] == Shown(g) ==> uri == s;
      Ok(uri == s)
  }
}
