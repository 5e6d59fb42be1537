/** The start-up scan for configuration gaps (`find_empty_keys`): a walk over
    the nested key/value structure that the configuration becomes once it
    is converted to plain built-in values, reporting the dotted key of every
    value that is the empty string. */
module EmptyKeys {
  import Strings

  /** A leaf of the converted configuration: a Python `str` or `int`. */
  datatype Value = Str(s: string) | Int(i: int)

  /** A converted configuration: a leaf, or a dict whose entries keep the
      dict's iteration order. */
  datatype Tree = Leaf(v: Value) | Dict(entries: seq<(string, Tree)>)

  datatype Option<T> = None | Some(value: T)

  /** Every dict in the tree has distinct keys, as every Python dict does. */
  predicate UniqueKeys(t: Tree) {
    match t
    case Leaf(_) => true
    case Dict(es) =>
      && (forall i, j :: 0 <= i < j < |es| ==> es[i].0 != es[j].0)
      && (forall i :: 0 <= i < |es| ==> UniqueKeys(es[i].1))
  }

  /** The key reported for entry `key` of a dict reached under `currentKey`:
      joined with a dot, except at the top, where `currentKey` is empty. */
  function ChildKey(currentKey: string, key: string): string {
    if currentKey != "" then currentKey + "." + key else key
  }

  /** The reported key of a value reached from `currentKey` through `path`. */
  function KeyOf(currentKey: string, path: seq<string>): string
    decreases |path|
  {
    if path == [] then currentKey else KeyOf(ChildKey(currentKey, path[0]), path[1..])
  }

  // ---------------------------------------------------------------------------
  // Reference description: the leaves of a tree and where they are
  // ---------------------------------------------------------------------------

  /** Every leaf of `t` with the keys that lead to it, in iteration order. */
  function Leaves(t: Tree): seq<(seq<string>, Value)>
    decreases t, if t.Dict? then |t.entries| + 1 else 0
  {
    match t
    case Leaf(v) => [([], v)]
    case Dict(es) => LeavesUpTo(t, |es|)
  }

  /** The leaves under the first `n` entries of the dict `t`. */
  function LeavesUpTo(t: Tree, n: nat): seq<(seq<string>, Value)>
    requires t.Dict? && n <= |t.entries|
    decreases t, n
  {
    if n == 0 then []
    else LeavesUpTo(t, n - 1) + Under(t.entries[n - 1].0, Leaves(t.entries[n - 1].1))
  }

  /** The leaves `ls` of a child, seen from its parent through `key`. */
  function Under(key: string, ls: seq<(seq<string>, Value)>): (r: seq<(seq<string>, Value)>)
    ensures |r| == |ls|
    ensures forall i :: 0 <= i < |ls| ==> r[i] == ([key] + ls[i].0, ls[i].1)
  {
    seq(|ls|, i requires 0 <= i < |ls| => ([key] + ls[i].0, ls[i].1))
  }

  /** Position of the first entry of `es` with key `key`. */
  function IndexOfKey(es: seq<(string, Tree)>, key: string): (r: Option<nat>)
    ensures r.Some? ==> r.value < |es| && es[r.value].0 == key
    ensures r.Some? ==> forall j :: 0 <= j < r.value ==> es[j].0 != key
    ensures r.None? ==> forall j :: 0 <= j < |es| ==> es[j].0 != key
  {
    if es == [] then None
    else if es[0].0 == key then Some(0)
    else match IndexOfKey(es[1..], key)
      case None => None
      case Some(j) => Some(j + 1)
  }

  /** Python's `d[k1][k2]...[kn]`, or None where a key is missing or a leaf
      is indexed. */
  function Lookup(t: Tree, path: seq<string>): Option<Tree>
    decreases |path|
  {
    if path == [] then Some(t)
    else match t
      case Leaf(_) => None
      case Dict(es) =>
        match IndexOfKey(es, path[0])
        case None => None
        case Some(j) => Lookup(es[j].1, path[1..])
  }

  /** Some leaf of `t` is the empty string. */
  predicate HasEmptyLeaf(t: Tree) {
    match t
    case Leaf(v) => v == Str("")
    case Dict(es) => exists i :: 0 <= i < |es| && HasEmptyLeaf(es[i].1)
  }

  // ---------------------------------------------------------------------------
  // Specification of the scan
  // ---------------------------------------------------------------------------

  /** The reported keys of the empty-string leaves among `ls`, in order. */
  function EmptyAmong(currentKey: string, ls: seq<(seq<string>, Value)>): seq<string>
    decreases |ls|
  {
    if ls == [] then []
    else (if ls[0].1 == Str("") then [KeyOf(currentKey, ls[0].0)] else [])
         + EmptyAmong(currentKey, ls[1..])
  }

  /** What `find_empty_keys(t, currentKey)` returns: the keys of the leaves
      of `t` that are the empty string, in iteration order. */
  function EmptyLeafKeys(t: Tree, currentKey: string): seq<string> {
    EmptyAmong(currentKey, Leaves(t))
  }

  lemma {:induction false} EmptyAmongConcat(currentKey: string, a: seq<(seq<string>, Value)>, b: seq<(seq<string>, Value)>)
    ensures EmptyAmong(currentKey, a + b) == EmptyAmong(currentKey, a) + EmptyAmong(currentKey, b)
    decreases |a|
  {
    if a == [] {
      assert a + b == b;
    } else {
      assert (a + b)[1..] == a[1..] + b;
      EmptyAmongConcat(currentKey, a[1..], b);
    }
  }

  lemma {:induction false} EmptyAmongUnder(currentKey: string, key: string, ls: seq<(seq<string>, Value)>)
    ensures EmptyAmong(currentKey, Under(key, ls)) == EmptyAmong(ChildKey(currentKey, key), ls)
    decreases |ls|
  {
    if ls != [] {
      var u := Under(key, ls);
      assert u[1..] == Under(key, ls[1..]);
      assert ([key] + ls[0].0)[1..] == ls[0].0;
      EmptyAmongUnder(currentKey, key, ls[1..]);
    }
  }

  /** Scanning one more entry of a dict appends that entry's findings. */
  lemma EmptyKeysStep(t: Tree, currentKey: string, n: nat)
    requires t.Dict? && n < |t.entries|
    ensures EmptyAmong(currentKey, LeavesUpTo(t, n + 1))
         == EmptyAmong(currentKey, LeavesUpTo(t, n))
          + EmptyLeafKeys(t.entries[n].1, ChildKey(currentKey, t.entries[n].0))
  {
    var (key, child) := t.entries[n];
    EmptyAmongConcat(currentKey, LeavesUpTo(t, n), Under(key, Leaves(child)));
    EmptyAmongUnder(currentKey, key, Leaves(child));
  }

  /** One entry of `ls` is reported exactly when its value is empty. */
  lemma {:induction false} EmptyAmongMembers(currentKey: string, ls: seq<(seq<string>, Value)>, x: string)
    ensures x in EmptyAmong(currentKey, ls)
        <==> exists n :: 0 <= n < |ls| && ls[n].1 == Str("") && x == KeyOf(currentKey, ls[n].0)
    decreases |ls|
  {
    if ls != [] {
      EmptyAmongMembers(currentKey, ls[1..], x);
      if x in EmptyAmong(currentKey, ls[1..]) {
        var n :| 0 <= n < |ls[1..]| && ls[1..][n].1 == Str("") && x == KeyOf(currentKey, ls[1..][n].0);
        assert ls[n + 1] == ls[1..][n];
      }
      if exists n :: 0 <= n < |ls| && ls[n].1 == Str("") && x == KeyOf(currentKey, ls[n].0) {
        var n :| 0 <= n < |ls| && ls[n].1 == Str("") && x == KeyOf(currentKey, ls[n].0);
        if n > 0 {
          assert ls[1..][n - 1] == ls[n];
        }
      }
    }
  }

  /** Empty entries are reported in the order they come in `ls`. */
  lemma {:induction false} EmptyAmongOrder(currentKey: string, ls: seq<(seq<string>, Value)>, m: nat, n: nat)
    requires m < n < |ls| && ls[m].1 == Str("") && ls[n].1 == Str("")
    ensures exists a, b :: 0 <= a < b < |EmptyAmong(currentKey, ls)|
                        && EmptyAmong(currentKey, ls)[a] == KeyOf(currentKey, ls[m].0)
                        && EmptyAmong(currentKey, ls)[b] == KeyOf(currentKey, ls[n].0)
    decreases |ls|
  {
    var r := EmptyAmong(currentKey, ls);
    var tail := EmptyAmong(currentKey, ls[1..]);
    var x, y := KeyOf(currentKey, ls[m].0), KeyOf(currentKey, ls[n].0);
    if m == 0 {
      assert y in tail by {
        assert ls[1..][n - 1] == ls[n];
        EmptyAmongMembers(currentKey, ls[1..], y);
      }
      var b :| 0 <= b < |tail| && tail[b] == y;
      assert r == [x] + tail;
      assert 0 < b + 1 < |r| && r[0] == x && r[b + 1] == y;
    } else {
      assert ls[1..][m - 1] == ls[m] && ls[1..][n - 1] == ls[n];
      EmptyAmongOrder(currentKey, ls[1..], m - 1, n - 1);
      var a, b :| 0 <= a < b < |tail| && tail[a] == x && tail[b] == y;
      var head := if ls[0].1 == Str("") then [KeyOf(currentKey, ls[0].0)] else [];
      assert r == head + tail;
      assert a + |head| < b + |head| < |r| && r[a + |head|] == x && r[b + |head|] == y;
    }
  }

  // ---------------------------------------------------------------------------
  // The scan itself
  // ---------------------------------------------------------------------------

  /** `find_empty_keys(d, current_key)`: a leaf is reported under
      `currentKey` when it is the empty string; a dict is scanned entry by
      entry, and each entry's findings are appended in turn. */
  method FindEmptyKeys(d: Tree, currentKey: string) returns (emptyKeys: seq<string>)
    ensures emptyKeys == EmptyLeafKeys(d, currentKey)
    ensures d.Leaf? ==> emptyKeys == (if d.v == Str("") then [currentKey] else [])
    decreases d
  {
    emptyKeys := [];
    match d
    case Leaf(v) =>
      LeafKeys(v, currentKey);
      if v == Str("") {
        return [currentKey];
      }
      return emptyKeys;
    case Dict(entries) =>
      var i := 0;
      while i < |entries|
        invariant 0 <= i <= |entries|
        invariant emptyKeys == EmptyAmong(currentKey, LeavesUpTo(d, i))
      {
        var (key, value) := entries[i];
        var newKey := if currentKey != "" then currentKey + "." + key else key;
        var found := FindEmptyKeys(value, newKey);
        EmptyKeysStep(d, currentKey, i);
        emptyKeys := emptyKeys + found;
        i := i + 1;
      }
  }

  // ---------------------------------------------------------------------------
  // Properties of the scan
  // ---------------------------------------------------------------------------

  /** The findings of the first `n` entries of the dict `t`, each entry
      scanned under its own key. */
  function ScannedUpTo(t: Tree, currentKey: string, n: nat): seq<string>
    requires t.Dict? && n <= |t.entries|
    decreases n
  {
    if n == 0 then []
    else ScannedUpTo(t, currentKey, n - 1)
         + EmptyLeafKeys(t.entries[n - 1].1, ChildKey(currentKey, t.entries[n - 1].0))
  }

  lemma {:induction false} ScannedUpToIsSpec(t: Tree, currentKey: string, n: nat)
    requires t.Dict? && n <= |t.entries|
    ensures EmptyAmong(currentKey, LeavesUpTo(t, n)) == ScannedUpTo(t, currentKey, n)
    decreases n
  {
    if n > 0 {
      ScannedUpToIsSpec(t, currentKey, n - 1);
      var (key, child) := t.entries[n - 1];
      var last := EmptyLeafKeys(child, ChildKey(currentKey, key));
      assert EmptyAmong(currentKey, LeavesUpTo(t, n)) == EmptyAmong(currentKey, LeavesUpTo(t, n - 1)) + last by {
        EmptyKeysStep(t, currentKey, n - 1);
      }
      assert ScannedUpTo(t, currentKey, n) == ScannedUpTo(t, currentKey, n - 1) + last;
    }
  }

  /** A dict's findings are its entries' findings, one entry after another. */
  lemma EmptyKeysOfDict(t: Tree, currentKey: string)
    requires t.Dict?
    ensures EmptyLeafKeys(t, currentKey) == ScannedUpTo(t, currentKey, |t.entries|)
  {
    ScannedUpToIsSpec(t, currentKey, |t.entries|);
  }

  /** A leaf is reported, under `currentKey` itself, exactly when it is the
      empty string. */
  lemma LeafKeys(v: Value, currentKey: string)
    ensures EmptyLeafKeys(Leaf(v), currentKey) == (if v == Str("") then [currentKey] else [])
  {
    var ls := Leaves(Leaf(v));
    assert ls[1..] == [];
    assert EmptyAmong(currentKey, ls[1..]) == [];
  }

  /** Leaves of the first `m` entries come from one of those entries. */
  lemma {:induction false} LeavesUpToFrom(t: Tree, m: nat, n: nat)
    requires t.Dict? && m <= |t.entries| && n < |LeavesUpTo(t, m)|
    ensures exists j, q :: 0 <= j < m && 0 <= q < |Leaves(t.entries[j].1)|
                        && LeavesUpTo(t, m)[n] == ([t.entries[j].0] + Leaves(t.entries[j].1)[q].0,
                                                   Leaves(t.entries[j].1)[q].1)
    decreases m
  {
    var prev := LeavesUpTo(t, m - 1);
    var last := Under(t.entries[m - 1].0, Leaves(t.entries[m - 1].1));
    if n < |prev| {
      LeavesUpToFrom(t, m - 1, n);
      var j, q :| 0 <= j < m - 1 && 0 <= q < |Leaves(t.entries[j].1)|
               && prev[n] == ([t.entries[j].0] + Leaves(t.entries[j].1)[q].0, Leaves(t.entries[j].1)[q].1);
      assert LeavesUpTo(t, m)[n] == prev[n];
    } else {
      assert LeavesUpTo(t, m)[n] == last[n - |prev|];
    }
  }

  /** Leaves of entry `j` are among the leaves of the first `m > j` entries. */
  lemma {:induction false} LeavesUpToHas(t: Tree, j: nat, m: nat, e: (seq<string>, Value))
    requires t.Dict? && j < m <= |t.entries|
    requires e in Under(t.entries[j].0, Leaves(t.entries[j].1))
    ensures e in LeavesUpTo(t, m)
    decreases m
  {
    if j < m - 1 {
      LeavesUpToHas(t, j, m - 1, e);
    }
  }

  /** Soundness, positions: every leaf listed for a tree is found there by
      following its keys. */
  lemma {:induction false} LeavesSound(t: Tree, n: nat)
    requires UniqueKeys(t) && n < |Leaves(t)|
    ensures Lookup(t, Leaves(t)[n].0) == Some(Leaf(Leaves(t)[n].1))
    decreases t
  {
    match t
    case Leaf(v) =>
    case Dict(es) =>
      LeavesUpToFrom(t, |es|, n);
      var j, q :| 0 <= j < |es| && 0 <= q < |Leaves(es[j].1)|
               && Leaves(t)[n] == ([es[j].0] + Leaves(es[j].1)[q].0, Leaves(es[j].1)[q].1);
      var path := Leaves(t)[n].0;
      assert IndexOfKey(es, es[j].0) == Some(j);
      assert path[1..] == Leaves(es[j].1)[q].0;
      LeavesSound(es[j].1, q);
  }

  /** Completeness, positions: every leaf reachable by keys is listed. */
  lemma {:induction false} LeavesComplete(t: Tree, path: seq<string>, v: Value)
    requires Lookup(t, path) == Some(Leaf(v))
    ensures (path, v) in Leaves(t)
    decreases |path|
  {
    if path != [] {
      var es := t.entries;
      var j := IndexOfKey(es, path[0]).value;
      LeavesComplete(es[j].1, path[1..], v);
      var ls := Leaves(es[j].1);
      var q :| 0 <= q < |ls| && ls[q] == (path[1..], v);
      assert [path[0]] + path[1..] == path;
      assert Under(es[j].0, ls)[q] == (path, v);
      LeavesUpToHas(t, j, |es|, (path, v));
    }
  }

  /** Every key `find_empty_keys` reports leads to an empty-string leaf. */
  lemma EmptyKeysSound(t: Tree, currentKey: string, x: string)
    requires UniqueKeys(t) && x in EmptyLeafKeys(t, currentKey)
    ensures exists path :: Lookup(t, path) == Some(Leaf(Str(""))) && x == KeyOf(currentKey, path)
  {
    EmptyAmongMembers(currentKey, Leaves(t), x);
    var n :| 0 <= n < |Leaves(t)| && Leaves(t)[n].1 == Str("") && x == KeyOf(currentKey, Leaves(t)[n].0);
    LeavesSound(t, n);
  }

  /** Every empty-string leaf is reported, under the key of its path. */
  lemma EmptyKeysComplete(t: Tree, currentKey: string, path: seq<string>)
    requires Lookup(t, path) == Some(Leaf(Str("")))
    ensures KeyOf(currentKey, path) in EmptyLeafKeys(t, currentKey)
  {
    LeavesComplete(t, path, Str(""));
    var n :| 0 <= n < |Leaves(t)| && Leaves(t)[n] == (path, Str(""));
    EmptyAmongMembers(currentKey, Leaves(t), KeyOf(currentKey, path));
  }

  /** Empty leaves are reported in dict iteration order. */
  lemma EmptyKeysInOrder(t: Tree, currentKey: string, m: nat, n: nat)
    requires m < n < |Leaves(t)| && Leaves(t)[m].1 == Str("") && Leaves(t)[n].1 == Str("")
    ensures exists a, b :: 0 <= a < b < |EmptyLeafKeys(t, currentKey)|
                        && EmptyLeafKeys(t, currentKey)[a] == KeyOf(currentKey, Leaves(t)[m].0)
                        && EmptyLeafKeys(t, currentKey)[b] == KeyOf(currentKey, Leaves(t)[n].0)
  {
    EmptyAmongOrder(currentKey, Leaves(t), m, n);
    assert EmptyLeafKeys(t, currentKey) == EmptyAmong(currentKey, Leaves(t));
  }

  /** The scan of `t` under `currentKey` reports nothing exactly when no
      leaf of `t` is the empty string. */
  predicate NothingIffNoEmptyLeaf(t: Tree, currentKey: string) {
    EmptyLeafKeys(t, currentKey) == [] <==> !HasEmptyLeaf(t)
  }

  /** One of the first `m` entries of the dict `t` has an empty-string leaf. */
  predicate EmptyLeafUpTo(t: Tree, m: nat)
    requires t.Dict? && m <= |t.entries|
    decreases m
  {
    m > 0 && (EmptyLeafUpTo(t, m - 1) || HasEmptyLeaf(t.entries[m - 1].1))
  }

  lemma {:induction false} EmptyLeafUpToIff(t: Tree, m: nat)
    requires t.Dict? && m <= |t.entries|
    ensures EmptyLeafUpTo(t, m) <==> exists i :: 0 <= i < m && HasEmptyLeaf(t.entries[i].1)
    decreases m
  {
    if m > 0 {
      EmptyLeafUpToIff(t, m - 1);
    }
  }

  /** Prefix form of EmptyKeysNoneIffNoEmptyLeaf. */
  lemma {:induction false} NoneUpToIff(t: Tree, currentKey: string, m: nat)
    requires t.Dict? && m <= |t.entries|
    requires forall i :: 0 <= i < m ==> NothingIffNoEmptyLeaf(t.entries[i].1, ChildKey(currentKey, t.entries[i].0))
    ensures EmptyAmong(currentKey, LeavesUpTo(t, m)) == [] <==> !EmptyLeafUpTo(t, m)
    decreases m
  {
    if m > 0 {
      NoneUpToIff(t, currentKey, m - 1);
      var (key, child) := t.entries[m - 1];
      var prev := EmptyAmong(currentKey, LeavesUpTo(t, m - 1));
      var last := EmptyLeafKeys(child, ChildKey(currentKey, key));
      assert EmptyAmong(currentKey, LeavesUpTo(t, m)) == prev + last by {
        EmptyKeysStep(t, currentKey, m - 1);
      }
      assert last == [] <==> !HasEmptyLeaf(child) by {
        assert NothingIffNoEmptyLeaf(child, ChildKey(currentKey, key));
      }
      assert |prev + last| == |prev| + |last|;
    }
  }

  /** The scan reports nothing exactly when no leaf is the empty string. */
  lemma {:induction false} EmptyKeysNoneIffNoEmptyLeaf(t: Tree, currentKey: string)
    ensures EmptyLeafKeys(t, currentKey) == [] <==> !HasEmptyLeaf(t)
    decreases t
  {
    match t
    case Leaf(v) =>
      assert Leaves(t)[1..] == [];
      assert EmptyAmong(currentKey, Leaves(t)[1..]) == [];
      assert EmptyLeafKeys(t, currentKey) == (if v == Str("") then [currentKey] else []);
    case Dict(es) =>
      forall i | 0 <= i < |es|
        ensures NothingIffNoEmptyLeaf(es[i].1, ChildKey(currentKey, es[i].0))
      {
        EmptyKeysNoneIffNoEmptyLeaf(es[i].1, ChildKey(currentKey, es[i].0));
      }
      NoneUpToIff(t, currentKey, |es|);
      EmptyLeafUpToIff(t, |es|);
  }

  lemma {:induction false} KeyOfFromNonEmpty(c: string, ps: seq<string>)
    requires c != ""
    ensures KeyOf(c, ps) == Strings.Join(".", [c] + ps)
    decreases |ps|
  {
    if ps != [] {
      var c' := c + "." + ps[0];
      KeyOfFromNonEmpty(c', ps[1..]);
      Strings.JoinExtendHead(".", c + ".", ps);
      assert [c' ] + ps[1..] == [(c + ".") + ps[0]] + ps[1..];
      assert ([c] + ps)[1..] == ps;
    }
  }

  /** At the top level (empty `currentKey`), a key path whose first key is
      not empty is reported as its keys joined by "." with no leading dot. */
  lemma DottedKey(path: seq<string>)
    requires path != [] && path[0] != ""
    ensures KeyOf("", path) == Strings.Join(".", path)
  {
    KeyOfFromNonEmpty(path[0], path[1..]);
    assert [path[0]] + path[1..] == path;
  }
}
