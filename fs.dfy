/**
 * The part of the file system the modelled code inspects: which paths are
 * directories (with their entry names, in `os.listdir` order) and which are
 * plain files.
 */
module Files {
  import opened Text

  datatype Tree = Tree(dirs: map<string, seq<string>>, files: set<string>)

  /** `os.path.exists`. */
  predicate Exists(t: Tree, p: string)
  {
    p in t.dirs || p in t.files
  }

  /** `os.path.isdir`. */
  predicate IsDir(t: Tree, p: string)
  {
    p in t.dirs
  }

  /** The entry names that do not start with `.`, in order. */
  function NonHidden(names: seq<string>): (r: seq<string>)
    ensures forall k :: 0 <= k < |r| ==> r[k] in names && !IsPrefix(".", r[k])
    ensures forall n :: n in names && !IsPrefix(".", n) ==> n in r
  {
    if names == [] then []
    else if IsPrefix(".", names[0]) then NonHidden(names[1..])
    else [names[0]] + NonHidden(names[1..])
  }
}
