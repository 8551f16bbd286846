/**
 * The lazily loaded containers of minitage.core.collections: a list and a
 * dictionary that carry a `loaded` flag and load on first access.
 */
module Collections {
  import opened Wrappers

  /** The Python exceptions the accessors raise. */
  datatype LookupError = IndexError | KeyError | ValueError

  /** `list[i]`: a negative index counts from the end; outside the list it raises `IndexError`. */
  function At<T>(s: seq<T>, i: int): (r: Result<T, LookupError>)
    ensures r.Ok? <==> -|s| <= i < |s|
    ensures 0 <= i < |s| ==> r == Ok(s[i])
    ensures -|s| <= i < 0 ==> r == Ok(s[|s| + i])
    ensures r.Err? ==> r.error == IndexError
  {
    if 0 <= i < |s| then Ok(s[i])
    else if -|s| <= i < 0 then Ok(s[|s| + i])
    else Err(IndexError)
  }

  /**
   * `list.__getslice__(lo, hi)` of Python 2, after the interpreter has added
   * the length to negative bounds: the low bound is clamped into [0, n], the
   * high bound into [low, n].
   */
  function Slice<T>(s: seq<T>, lo: int, hi: int): (r: seq<T>)
    ensures |r| <= |s|
    ensures 0 <= lo <= hi <= |s| ==> r == s[lo..hi]
    ensures hi <= lo || hi <= 0 || |s| <= lo ==> r == []
    ensures forall k :: 0 <= k < |r| ==> r[k] in s
  {
    var l := if lo < 0 then 0 else if lo > |s| then |s| else lo;
    var h := if hi < l then l else if hi > |s| then |s| else hi;
    s[l..h]
  }

  /** `list.index(x)`: the first position of `x`, or `ValueError`. */
  function FirstIndex<T(==)>(s: seq<T>, x: T): (r: Result<nat, LookupError>)
    ensures r.Ok? <==> x in s
    ensures r.Ok? ==> r.value < |s| && s[r.value] == x && x !in s[..r.value]
    ensures r.Err? ==> r.error == ValueError
  {
    if s == [] then Err(ValueError)
    else if s[0] == x then Ok(0)
    else match FirstIndex(s[1..], x)
      case Ok(k) => assert s[1..][..k] == s[1..k + 1]; Ok(k + 1)
      case Err(e) => Err(e)
  }

  /** `dict[k]`: the stored value, or `KeyError`. */
  function Lookup<K, V>(store: map<K, V>, k: K): (r: Result<V, LookupError>)
    ensures r.Ok? <==> k in store
    ensures r.Ok? ==> r.value == store[k]
    ensures r.Err? ==> r.error == KeyError
  {
    if k in store then Ok(store[k]) else Err(KeyError)
  }

  /** `LazyLoadedList`: a list whose accessors load it first. */
  class LazyLoadedList<T(==)> {
    var elems: seq<T>
    var loaded: bool

    constructor ()
      ensures elems == [] && !loaded
    {
      elems, loaded := [], false;
    }

    method IsLoaded() returns (b: bool)
      ensures b == loaded
    {
      b := loaded;
    }

    /** `load`: marks the list loaded and keeps its elements, so loading again changes nothing. */
    method Load()
      modifies this
      ensures loaded && elems == old(elems)
    {
      var done := IsLoaded();
      if !done {
        loaded := true;
      }
    }

    /** `__getitem__`. */
    method GetItem(i: int) returns (r: Result<T, LookupError>)
      modifies this
      ensures loaded && elems == old(elems)
      ensures r == At(elems, i)
    {
      var done := IsLoaded();
      if !done { Load(); }
      r := At(elems, i);
    }

    /** `__getslice__`. */
    method GetSlice(lo: int, hi: int) returns (r: seq<T>)
      modifies this
      ensures loaded && elems == old(elems)
      ensures r == Slice(elems, lo, hi)
    {
      var done := IsLoaded();
      if !done { Load(); }
      r := Slice(elems, lo, hi);
    }

    /** `__contains__`. */
    method Contains(x: T) returns (b: bool)
      modifies this
      ensures loaded && elems == old(elems)
      ensures b <==> x in elems
    {
      var done := IsLoaded();
      if !done { Load(); }
      b := x in elems;
    }

    /** `index`. */
    method Index(x: T) returns (r: Result<nat, LookupError>)
      modifies this
      ensures loaded && elems == old(elems)
      ensures r == FirstIndex(elems, x)
    {
      var done := IsLoaded();
      if !done { Load(); }
      r := FirstIndex(elems, x);
    }
  }

  /**
   * `LazyLoadedDict`: a dictionary that records in `items` each key it was
   * asked to load. Recording a key does not store a value for it.
   */
  class LazyLoadedDict<K(==), V> {
    var items: seq<K>
    var loaded: bool
    var store: map<K, V>

    constructor ()
      ensures items == [] && !loaded && store == map[]
    {
      items, loaded, store := [], false, map[];
    }

    /** `load(item)`: a given item is recorded (even twice) and the dict marked loaded; `load(None)` does nothing. */
    method Load(item: Option<K>)
      modifies this
      ensures item.Some? ==> items == old(items) + [item.value] && loaded
      ensures item.None? ==> items == old(items) && loaded == old(loaded)
      ensures store == old(store)
    {
      if item.Some? {
        items := items + [item.value];
        loaded := true;
      }
    }

    /** `self[k] = v`, the plain dictionary assignment. */
    method Put(k: K, v: V)
      modifies this
      ensures store == old(store)[k := v]
      ensures items == old(items) && loaded == old(loaded)
    {
      store := store[k := v];
    }

    /** `__getitem__`: loads the key only when it is not yet recorded, then reads the dictionary. */
    method GetItem(k: K) returns (r: Result<V, LookupError>)
      modifies this
      ensures items == if k in old(items) then old(items) else old(items) + [k]
      ensures loaded == (old(loaded) || k !in old(items))
      ensures store == old(store)
      ensures r == Lookup(store, k)
    {
      if k !in items {
        Load(Some(k));
      }
      r := Lookup(store, k);
    }

    /** `__contains__`: loads like `__getitem__`, then answers from the dictionary, not from `items`. */
    method Contains(k: K) returns (b: bool)
      modifies this
      ensures items == if k in old(items) then old(items) else old(items) + [k]
      ensures loaded == (old(loaded) || k !in old(items))
      ensures store == old(store)
      ensures b <==> k in store
    {
      if k !in items {
        Load(Some(k));
      }
      b := k in store;
    }
  }

  /**
   * On a fresh dictionary, asking for a key records it in `items` and still
   * raises `KeyError`: being recorded does not mean being stored.
   */
  method RecordedButNotStored<K(==), V>(k: K) returns (recorded: bool, r: Result<V, LookupError>, present: bool)
    ensures recorded && r == Err(KeyError) && !present
  {
    var d := new LazyLoadedDict<K, V>();
    r := d.GetItem(k);
    recorded := k in d.items;
    present := d.Contains(k);
  }

  /** Loading a list a second time leaves it as the first load left it. */
  method LoadTwice<T(==)>(l: LazyLoadedList<T>) returns (first: bool, second: bool)
    modifies l
    ensures first && second && l.elems == old(l.elems)
  {
    l.Load();
    first := l.loaded;
    l.Load();
    second := l.loaded;
  }
}
