/**
 * The four version-control fetchers of minitage.core.fetchers.scm
 * (Mercurial, Subversion, Bazaar, Git): which switch selects each, which
 * source URIs each accepts, and how each decides that the URI of a working
 * copy changed. The commands they run are left to the `Fetchers` model;
 * what `get_uri` reads from a working copy is the parameter `g`.
 */
module Scm {
  import opened Wrappers
  import opened Text
  import opened Fetchers

  datatype Kind = Hg | Svn | Bzr | Git

  /** The switch `match` accepts. */
  function Keyword(k: Kind): string
  {
    match k
    case Hg => "hg"
    case Svn => "svn"
    case Bzr => "bzr"
    case Git => "git"
  }

  /** The fetcher's `name`, as its checkout directory `<name>-tmp` uses it. */
  function Name(k: Kind): string
  {
    match k
    case Hg => "Mercurial"
    case Svn => "subversion"
    case Bzr => "bazaar"
    case Git => "git"
  }

  /** The fetcher's `metadata_directory`. */
  function MetadataDir(k: Kind): string
  {
    match k
    case Hg => ".hg"
    case Svn => ".svn"
    case Bzr => ".bzr"
    case Git => ".git"
  }

  /** `match(switch)`. */
  predicate Match(k: Kind, switch: string)
  {
    switch == Keyword(k)
  }

  /** Each switch selects at most one fetcher. */
  lemma MatchExclusive(k1: Kind, k2: Kind, switch: string)
    requires Match(k1, switch) && Match(k2, switch)
    ensures k1 == k2
  {
    assert Keyword(k1)[0] == Keyword(k2)[0];
  }

  // -------------------------------------------------------- is_valid_src_uri

  /** The scheme group of a `URI_REGEX` match is one of `names`. */
  predicate SchemeIn(uri: string, names: seq<string>)
  {
    var m := UriRegex(uri);
    m.Some? && m.value.scheme.Some? && m.value.scheme.value in names
  }

  const HgSchemes: seq<string> := ["file", "hg", "ssh", "http", "https", "/"]
  const SvnSchemes: seq<string> := ["file", "svn", "svn+ssh", "http", "https"]
  const BzrSchemes: seq<string> :=
    ["file", "bzr", "sftp", "http", "https", "bzr+http", "bzr+https", "bzr+ssh", "svn+file", "svn", "svn+http", "svn+https"]
  const GitSchemes: seq<string> := ["file", "git", "rsync", "http", "https", "svn"]

  /** The characters of `[a-zA-Z1-9]`: no `0`. */
  predicate LeadChar(c: char)
  {
    ('a' <= c <= 'z') || ('A' <= c <= 'Z') || ('1' <= c <= '9')
  }

  /** `re.match('[a-zA-Z1-9]*:(.*)', uri)` succeeds. */
  predicate ColonLead(uri: string)
  {
    uri != [] && (uri[0] == ':' || (LeadChar(uri[0]) && ColonLead(uri[1..])))
  }

  /** `is_valid_src_uri` of each fetcher. */
  predicate IsValidSrcUri(k: Kind, uri: string)
  {
    match k
    case Hg => SchemeIn(uri, HgSchemes) || (UriRegex(uri).Some? && UriRegex(uri).value.whole == "/")
    case Svn => SchemeIn(uri, SvnSchemes)
    case Bzr => SchemeIn(uri, BzrSchemes) || ColonLead(uri)
    case Git => SchemeIn(uri, GitSchemes) || ColonLead(uri)
  }

  /** A URI made of lead characters and then `:` matches the colon pattern. */
  lemma {:induction false} ColonLeadOf(w: string, rest: string)
    requires forall i :: 0 <= i < |w| ==> LeadChar(w[i])
    ensures ColonLead(w + ":" + rest)
  {
    if w != [] {
      assert (w + ":" + rest)[1..] == w[1..] + ":" + rest;
      ColonLeadOf(w[1..], rest);
    }
  }

  /**
   * A URI has a scheme listed in `names` exactly when it is no local path
   * and starts with one of the listed names that `URI_REGEX` knows, and `://`.
   */
  lemma SchemeInSpec(uri: string, names: seq<string>)
    ensures SchemeIn(uri, names) <==>
      !IsPrefix("/", uri) && exists k :: 0 <= k < |names| && names[k] in Schemes && IsPrefix(names[k] + "://", uri)
  {
    UriRegexSpec(uri);
    if !IsPrefix("/", uri) && exists k :: 0 <= k < |names| && names[k] in Schemes && IsPrefix(names[k] + "://", uri) {
      var k :| 0 <= k < |names| && names[k] in Schemes && IsPrefix(names[k] + "://", uri);
      var j :| 0 <= j < |Schemes| && Schemes[j] == names[k];
    }
  }

  /** A URI that starts with a scheme and `://` is no local path. */
  lemma SchemeNotPath(s: string, uri: string)
    requires s != [] && s[0] != '/' && IsPrefix(s + "://", uri)
    ensures !IsPrefix("/", uri)
  {
    assert uri[0] == (s + "://")[0];
  }

  /** The first five schemes Mercurial lists are schemes of `URI_REGEX`. */
  lemma HgListed(k: nat)
    requires k < 5
    ensures HgSchemes[k] in Schemes && HgSchemes[k] != [] && HgSchemes[k][0] != '/'
  {
    var j := [9, 1, 4, 5, 6][k];
    assert Schemes[j] == HgSchemes[k];
  }

  /** Every scheme Subversion lists is a scheme of `URI_REGEX`. */
  lemma SvnListed(k: nat)
    requires k < |SvnSchemes|
    ensures SvnSchemes[k] in Schemes && SvnSchemes[k] != [] && SvnSchemes[k][0] != '/'
  {
    var j := [9, 10, 11, 5, 6][k];
    assert Schemes[j] == SvnSchemes[k];
  }

  /** Mercurial accepts a local path and the file, hg, ssh, http and https schemes. */
  lemma HgValidSpec(uri: string)
    ensures IsValidSrcUri(Hg, uri) <==>
      IsPrefix("/", uri) || exists k :: 0 <= k < 5 && IsPrefix(HgSchemes[k] + "://", uri)
  {
    SchemeInSpec(uri, HgSchemes);
    if !IsPrefix("/", uri) {
      if exists k :: 0 <= k < 5 && IsPrefix(HgSchemes[k] + "://", uri) {
        var k :| 0 <= k < 5 && IsPrefix(HgSchemes[k] + "://", uri);
        HgListed(k);
      }
      if SchemeIn(uri, HgSchemes) {
        var k :| 0 <= k < |HgSchemes| && HgSchemes[k] in Schemes && IsPrefix(HgSchemes[k] + "://", uri);
        assert k != 5 by {
          assert uri[0] == (HgSchemes[k] + "://")[0];
        }
      }
    }
  }

  /** Subversion accepts its five schemes only: a bare local path is refused. */
  lemma SvnValidSpec(uri: string)
    ensures IsValidSrcUri(Svn, uri) <==> exists k :: 0 <= k < |SvnSchemes| && IsPrefix(SvnSchemes[k] + "://", uri)
    ensures IsPrefix("/", uri) ==> !IsValidSrcUri(Svn, uri)
  {
    SchemeInSpec(uri, SvnSchemes);
    if exists k :: 0 <= k < |SvnSchemes| && IsPrefix(SvnSchemes[k] + "://", uri) {
      var k :| 0 <= k < |SvnSchemes| && IsPrefix(SvnSchemes[k] + "://", uri);
      SvnListed(k);
      SchemeNotPath(SvnSchemes[k], uri);
    }
  }

  /** Every scheme of `URI_REGEX` but `svn+ssh` is made of lead characters. */
  lemma LeadSchemes(k: nat)
    requires k < |Schemes| && k != 11
    ensures forall i :: 0 <= i < |Schemes[k]| ==> LeadChar(Schemes[k][i])
  {
  }

  /** A URI that starts with a scheme of `URI_REGEX` other than `svn+ssh` and `://` matches the colon pattern. */
  lemma SchemeLead(uri: string, k: nat)
    requires k < |Schemes| && k != 11 && IsPrefix(Schemes[k] + "://", uri)
    ensures ColonLead(uri)
  {
    var s := Schemes[k];
    LeadSchemes(k);
    assert uri == s + ":" + uri[|s| + 1..];
    ColonLeadOf(s, uri[|s| + 1..]);
  }

  /** A URI whose reported scheme is listed in `names`, which lacks `svn+ssh`, matches the colon pattern. */
  lemma ReportedLead(uri: string, names: seq<string>)
    requires SchemeIn(uri, names) && "svn+ssh" !in names
    ensures ColonLead(uri)
  {
    UriRegexSpec(uri);
    var s := UriRegex(uri).value.scheme.value;
    var k :| 0 <= k < |Schemes| && Schemes[k] == s;
    SchemeLead(uri, k);
  }

  /** Neither a `URI_REGEX` scheme nor the colon pattern fits a local path. */
  lemma PathNotColonLead(uri: string)
    requires IsPrefix("/", uri)
    ensures !ColonLead(uri) && UriRegex(uri).value.scheme.None?
  {
  }

  /** `+` stops the colon pattern: `bzr+ssh://` does not match it. */
  lemma BzrSshNotColonLead(uri: string)
    requires IsPrefix("bzr+ssh://", uri)
    ensures !ColonLead(uri)
  {
    assert uri[..4] == "bzr+";
    assert !ColonLead(uri[3..]) by {
      assert uri[3..][0] == '+';
    }
    assert !ColonLead(uri[2..]) by {
      assert uri[2..][1..] == uri[3..];
    }
    assert !ColonLead(uri[1..]) by {
      assert uri[1..][1..] == uri[2..];
    }
  }

  /**
   * Every scheme Bazaar lists that `URI_REGEX` can report is made of lead
   * characters, so Bazaar accepts exactly the URIs the colon pattern
   * matches; `bzr+ssh://` and local paths are refused.
   */
  lemma BzrValidSpec(uri: string)
    ensures IsValidSrcUri(Bzr, uri) <==> ColonLead(uri)
    ensures IsPrefix("bzr+ssh://", uri) ==> !IsValidSrcUri(Bzr, uri)
    ensures IsPrefix("/", uri) ==> !IsValidSrcUri(Bzr, uri)
  {
    if SchemeIn(uri, BzrSchemes) {
      ReportedLead(uri, BzrSchemes);
    }
    if IsPrefix("/", uri) {
      PathNotColonLead(uri);
    }
    if IsPrefix("bzr+ssh://", uri) {
      BzrSshNotColonLead(uri);
    }
  }

  /** Git accepts exactly the URIs the colon pattern matches. */
  lemma GitValidSpec(uri: string)
    ensures IsValidSrcUri(Git, uri) <==> ColonLead(uri)
    ensures IsPrefix("/", uri) ==> !IsValidSrcUri(Git, uri)
  {
    if SchemeIn(uri, GitSchemes) {
      ReportedLead(uri, GitSchemes);
    }
    if IsPrefix("/", uri) {
      PathNotColonLead(uri);
    }
  }

  // -------------------------------------------------------- _has_uri_changed

  /** `uri.replace('file://', '')`. */
  function DropFile(uri: string): string
  {
    Replace(uri, "file://", "")
  }

  /**
   * `_has_uri_changed(dest, uri)` of each fetcher, with `hasMd` telling
   * whether `dest` holds its metadata directory and `g` what `get_uri(dest)`
   * gives.
   */
  function HasUriChanged(k: Kind, hasMd: bool, uri: string, g: GetUri): Result<bool, FetchError>
  {
    match k
    case Hg =>
      var u := DropFile(uri);
      if !hasMd then Ok(true)
      else if g.UriFailed? then Err(GetUriFailed)
      else if WarnTrailingSlash(u, g) == Ok(true) then Ok(false)
      else Ok(u != Shown(g))
    case Svn =>
      if g.UriFailed? then Err(GetUriFailed)
      else if WarnTrailingSlash(uri, g) == Ok(true) then Ok(false)
      else Ok(g.NoUri? || uri != g.text)
    case Bzr =>
      var u := DropFile(uri);
      if g.UriFailed? then Err(GetUriFailed)
      else
        var repo := DropFile(Shown(g));
        if !hasMd then Ok(true)
        else if WarnTrailingSlash(u, g) == Ok(true) then Ok(false)
        else Ok(u != repo)
    case Git =>
      if !hasMd then Ok(true)
      else if g.UriFailed? then Err(GetUriFailed)
      else if WarnTrailingSlash(uri, g) == Ok(true) then Ok(false)
      else Ok(uri != Shown(g))
  }

  /**
   * Mercurial, once `file://` is dropped from the URI: changed without a
   * `.hg` directory, unchanged when the URI is the recorded one plus `/`,
   * otherwise changed exactly when the two differ.
   */
  lemma HgChangedSpec(hasMd: bool, uri: string, text: string)
    ensures var u := DropFile(uri);
      && (!hasMd ==> HasUriChanged(Hg, hasMd, uri, Uri(text)) == Ok(true))
      && (hasMd && u == text + "/" ==> HasUriChanged(Hg, hasMd, uri, Uri(text)) == Ok(false))
      && (hasMd && u != text + "/" ==> HasUriChanged(Hg, hasMd, uri, Uri(text)) == Ok(u != text))
  {
  }

  /**
   * The order of the checks differs: without a metadata directory Git and
   * Mercurial answer "changed" before asking `get_uri`, Bazaar asks
   * `get_uri` first, so its failure propagates, and Subversion never looks
   * at the metadata directory.
   */
  lemma ChangedCheckOrder(uri: string, g: GetUri)
    ensures HasUriChanged(Git, false, uri, g) == Ok(true)
    ensures HasUriChanged(Hg, false, uri, g) == Ok(true)
    ensures HasUriChanged(Bzr, false, uri, UriFailed) == Err(GetUriFailed)
    ensures HasUriChanged(Svn, false, uri, g) == HasUriChanged(Svn, true, uri, g)
  {
  }

  /**
   * Subversion outside a working copy (`get_uri` gives `None`) always sees a
   * change, except for the URI `None/`, which the trailing-slash check takes
   * for `None` plus a slash.
   */
  lemma SvnNoUri(hasMd: bool, uri: string)
    ensures HasUriChanged(Svn, hasMd, uri, NoUri) == Ok(uri != "None/")
  {
  }

  /** `goto_revision` of Subversion: nothing unless called with `passive=False`, then an update. */
  function SvnGotoRevision(dest: string, passive: bool): (r: seq<Command>)
    ensures r == [] <==> passive
  {
    if passive then [] else [Command(OpUpdateWc, dest)]
  }

  /** A Subversion fetch of a local path is refused before any command runs. */
  lemma SvnFetchRefusesPath(d: Dest, dest: string, uri: string, stash: string, vcs: Vcs)
    requires IsPrefix("/", uri)
    requires d.Dir? ==> Archive(d, stash).Ok?
    ensures Fetch(d, dest, Name(Svn), MetadataDir(Svn), stash, IsValidSrcUri(Svn, uri), vcs).run == []
    ensures Fetch(d, dest, Name(Svn), MetadataDir(Svn), stash, IsValidSrcUri(Svn, uri), vcs).err.Some?
  {
    SvnValidSpec(uri);
    FetchInvalidUri(d, dest, Name(Svn), MetadataDir(Svn), stash, vcs);
  }
}
