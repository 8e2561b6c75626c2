/**
 * Reference definitions for the two loop shapes the scripts use, stated
 * over an arbitrary per-item function so that their laws are proved once:
 * keeping some items, transformed, in order (`FilterMap`), converting every
 * item or failing (`Traverse`), and filing items into a dict of lists (`GroupBy`).
 */
module Collections {
  import opened Wrappers

  /** Some element of `s` satisfies `p`. */
  ghost predicate Exists<T>(s: seq<T>, p: T -> bool) {
    exists n :: 0 <= n < |s| && p(s[n])
  }

  /** An element of `s` satisfies `p` exactly when one of its front does or its last one does. */
  lemma ExistsSnoc<T>(s: seq<T>, p: T -> bool)
    requires s != []
    ensures Exists(s, p) <==> Exists(s[..|s| - 1], p) || p(s[|s| - 1])
  {
    var front := s[..|s| - 1];
    if Exists(front, p) {
      var n :| 0 <= n < |front| && p(front[n]);
      assert s[n] == front[n];
    }
    if Exists(s, p) {
      var n :| 0 <= n < |s| && p(s[n]);
      if n < |front| {
        assert s[n] == front[n];
      }
    }
  }

  // ---------------------------------------------------------------------------
  // Keeping some items, in order
  // ---------------------------------------------------------------------------

  /** The values `f` gives the items it keeps, in the order of the items. */
  function FilterMap<T, U>(xs: seq<T>, f: T -> Option<U>): seq<U> {
    if xs == [] then []
    else
      var front := FilterMap(xs[..|xs| - 1], f);
      match f(xs[|xs| - 1])
      case None => front
      case Some(u) => front + [u]
  }

  /** A single item is kept as its value, or not at all. */
  lemma FilterMapOne<T, U>(x: T, f: T -> Option<U>)
    ensures FilterMap([x], f) == if f(x).Some? then [f(x).value] else []
  {
    assert [x][..0] == [];
  }

  /** Keeping distributes over concatenation. */
  lemma {:induction false} FilterMapAppend<T, U>(a: seq<T>, b: seq<T>, f: T -> Option<U>)
    ensures FilterMap(a + b, f) == FilterMap(a, f) + FilterMap(b, f)
  {
    if b == [] {
      assert a + b == a;
    } else {
      var bf := b[..|b| - 1];
      assert (a + b)[..|a + b| - 1] == a + bf;
      assert (a + b)[|a + b| - 1] == b[|b| - 1];
      FilterMapAppend(a, bf, f);
    }
  }

  /** A value is kept exactly when some item gives it. */
  lemma {:induction false} FilterMapHas<T, U>(xs: seq<T>, f: T -> Option<U>, u: U)
    ensures u in FilterMap(xs, f) <==> Exists(xs, x => f(x) == Some(u))
  {
    if xs != [] {
      FilterMapHas(xs[..|xs| - 1], f, u);
      ExistsSnoc(xs, x => f(x) == Some(u));
    }
  }

  // ---------------------------------------------------------------------------
  // Converting every item, failing as a whole
  // ---------------------------------------------------------------------------

  /** The values `f` gives every item, in order, or `None` when some item has none. */
  function Traverse<T, U>(xs: seq<T>, f: T -> Option<U>): (r: Option<seq<U>>)
    ensures r.Some? ==> |r.value| == |xs| && forall i :: 0 <= i < |xs| ==> f(xs[i]) == Some(r.value[i])
    ensures r.None? <==> exists i :: 0 <= i < |xs| && f(xs[i]).None?
  {
    if xs == [] then Some([])
    else
      match f(xs[0])
      case None => None
      case Some(u) =>
        match Traverse(xs[1..], f)
        case None => None
        case Some(us) => Some([u] + us)
  }

  /** One item without a value makes the whole conversion fail. */
  lemma {:induction false} TraverseFails<T, U>(xs: seq<T>, f: T -> Option<U>, i: nat)
    requires i < |xs| && f(xs[i]).None?
    ensures Traverse(xs, f) == None
  {
    if i > 0 {
      assert xs[1..][i - 1] == xs[i];
      TraverseFails(xs[1..], f, i - 1);
    }
  }

  // ---------------------------------------------------------------------------
  // Filing items into a dict of lists
  // ---------------------------------------------------------------------------

  /** The keys some item is filed under. */
  function Keys<T, K(==), V>(items: seq<T>, file: T -> Option<(K, V)>): set<K> {
    if items == [] then {}
    else
      var front := Keys(items[..|items| - 1], file);
      match file(items[|items| - 1])
      case None => front
      case Some(kv) => front + {kv.0}
  }

  /** The values filed under `k`, in the order of the items. */
  function Group<T, K(==), V>(items: seq<T>, file: T -> Option<(K, V)>, k: K): seq<V> {
    if items == [] then []
    else
      var front := Group(items[..|items| - 1], file, k);
      match file(items[|items| - 1])
      case Some(kv) => if kv.0 == k then front + [kv.1] else front
      case None => front
  }

  /** Every key with its group. */
  function GroupBy<T, K(==), V>(items: seq<T>, file: T -> Option<(K, V)>): map<K, seq<V>> {
    map k | k in Keys(items, file) :: Group(items, file, k)
  }

  /** The dict-of-lists update: append `v` to the list under `k`, created when missing. */
  function Append<K(==), V>(m: map<K, seq<V>>, k: K, v: V): (r: map<K, seq<V>>)
    ensures r.Keys == m.Keys + {k}
    ensures r[k] == (if k in m then m[k] else []) + [v]
    ensures forall j :: j in m && j != k ==> r[j] == m[j]
  {
    m[k := (if k in m then m[k] else []) + [v]]
  }

  /** One item: skipped, or its value appended under its key. */
  function FileItem<T, K(==), V>(m: map<K, seq<V>>, x: T, file: T -> Option<(K, V)>): map<K, seq<V>> {
    match file(x)
    case None => m
    case Some(kv) => Append(m, kv.0, kv.1)
  }

  /** A key is present exactly when some item is filed under it. */
  lemma {:induction false} KeysHas<T, K, V>(items: seq<T>, file: T -> Option<(K, V)>, k: K)
    ensures k in Keys(items, file) <==> Exists(items, x => file(x).Some? && file(x).value.0 == k)
  {
    if items != [] {
      KeysHas(items[..|items| - 1], file, k);
      ExistsSnoc(items, x => file(x).Some? && file(x).value.0 == k);
    }
  }

  /** A key has an empty group exactly when no item is filed under it. */
  lemma {:induction false} GroupEmpty<T, K, V>(items: seq<T>, file: T -> Option<(K, V)>, k: K)
    ensures Group(items, file, k) == [] <==> k !in Keys(items, file)
  {
    if items != [] {
      GroupEmpty(items[..|items| - 1], file, k);
    }
  }

  /** Each value of a group is the value of an item filed under that key. */
  lemma {:induction false} GroupFrom<T, K, V>(items: seq<T>, file: T -> Option<(K, V)>, k: K, m: nat)
    requires m < |Group(items, file, k)|
    ensures exists n :: 0 <= n < |items| && file(items[n]) == Some((k, Group(items, file, k)[m]))
  {
    var front := items[..|items| - 1];
    if m < |Group(front, file, k)| {
      GroupFrom(front, file, k, m);
      var n :| 0 <= n < |front| && file(front[n]) == Some((k, Group(front, file, k)[m]));
      assert items[n] == front[n];
    }
  }

  /** One more item updates the grouping as `FileItem` does. */
  lemma GroupBySnoc<T, K, V>(items: seq<T>, file: T -> Option<(K, V)>)
    requires items != []
    ensures FileItem(GroupBy(items[..|items| - 1], file), items[|items| - 1], file) == GroupBy(items, file)
  {
    var front := items[..|items| - 1];
    var g := GroupBy(front, file);
    var g1 := FileItem(g, items[|items| - 1], file);
    match file(items[|items| - 1])
    case None =>
    case Some(kv) =>
      GroupEmpty(front, file, kv.0);
      assert g1.Keys == Keys(items, file);
  }
}
