/**
 * Insertion-ordered maps with string keys, the shape of every PHP array the
 * tag registry keeps. Assignment to an existing key overwrites the value in
 * place; assignment to a new key appends it at the end.
 */
module OrderedMap {
  import opened Wrappers

  /** No key occurs twice. */
  predicate UniqueKeys<V>(m: seq<(string, V)>) {
    forall i, j :: 0 <= i < j < |m| ==> m[i].0 != m[j].0
  }

  /** A PHP array with string keys: entries in insertion order, keys unique. */
  type OMap<V> = m: seq<(string, V)> | UniqueKeys(m) witness []

  /** Some entry of `m` has key `k` (PHP `isset`/`array_key_exists`). */
  predicate HasKey<V>(m: seq<(string, V)>, k: string) {
    exists i :: 0 <= i < |m| && m[i].0 == k
  }

  /** The slot holding key `k`, if any. */
  function Find<V>(m: seq<(string, V)>, k: string): (r: Option<nat>)
    ensures r.Some? ==> r.value < |m| && m[r.value].0 == k
    ensures r.None? <==> !HasKey(m, k)
  {
    if |m| == 0 then None
    else if m[0].0 == k then Some(0)
    else
      match Find(m[1..], k)
      case Some(i) => Some(i + 1)
      case None => None
  }

  /** `$m[$k] ?? null`. */
  function Get<V>(m: OMap<V>, k: string): (r: Option<V>)
    ensures r.Some? <==> HasKey(m, k)
    ensures forall i :: 0 <= i < |m| && m[i].0 == k ==> r == Some(m[i].1)
  {
    match Find(m, k)
    case Some(i) => Some(m[i].1)
    case None => None
  }

  /**
   * The effect of `$after = $before; $after[$k] = $v` as a caller sees it:
   * `k` now maps to `v`; every other key keeps its value; an existing `k`
   * keeps its slot and every key keeps its position; a new `k` is appended
   * after all existing entries.
   */
  ghost predicate Assigned<V>(before: OMap<V>, after: OMap<V>, k: string, v: V) {
    && Get(after, k) == Some(v)
    && (forall k' :: k' != k ==> Get(after, k') == Get(before, k'))
    && (HasKey(before, k) ==>
          && |after| == |before|
          && forall i :: 0 <= i < |before| ==>
               after[i].0 == before[i].0 && (before[i].0 != k ==> after[i] == before[i]))
    && (!HasKey(before, k) ==> after == before + [(k, v)])
  }

  /** `$m[$k] = $v`: overwrite in place, or append a new key at the end. */
  function Put<V>(m: OMap<V>, k: string, v: V): (r: OMap<V>)
    ensures Assigned(m, r, k, v)
  {
    match Find(m, k)
    case Some(i) =>
      var r := m[i := (k, v)];
      assert forall j :: 0 <= j < |r| ==> r[j].0 == m[j].0;
      r
    case None =>
      var r := m + [(k, v)];
      assert forall j :: 0 <= j < |m| ==> r[j] == m[j];
      assert r[|m|] == (k, v);
      r
  }

  /** A key of a concatenation is a key of one of its parts. */
  lemma HasKeyAppend<V>(a: seq<(string, V)>, b: seq<(string, V)>, k: string)
    requires HasKey(a + b, k)
    ensures HasKey(a, k) || HasKey(b, k)
  {
    var i :| 0 <= i < |a + b| && (a + b)[i].0 == k;
    if i >= |a| {
      assert b[i - |a|].0 == k;
    } else {
      assert a[i].0 == k;
    }
  }

  /** A key in neither part is not a key of their concatenation. */
  lemma NoKeyAppend<V>(a: seq<(string, V)>, b: seq<(string, V)>, k: string)
    requires !HasKey(a, k) && !HasKey(b, k)
    ensures !HasKey(a + b, k)
  {
    if HasKey(a + b, k) {
      HasKeyAppend(a, b, k);
    }
  }

  /** The set of keys of `m`. */
  function Keys<V>(m: seq<(string, V)>): (ks: set<string>)
    ensures forall k :: k in ks <==> HasKey(m, k)
  {
    if |m| == 0 then {}
    else
      assert forall k :: HasKey(m[1..], k) ==> HasKey(m, k) by {
        forall k | HasKey(m[1..], k) ensures HasKey(m, k) {
          var i :| 0 <= i < |m[1..]| && m[1..][i].0 == k;
          assert m[i + 1].0 == k;
        }
      }
      assert HasKey(m, m[0].0) by { assert m[0].0 == m[0].0; }
      assert forall k :: HasKey(m, k) ==> k == m[0].0 || HasKey(m[1..], k) by {
        forall k | HasKey(m, k) ensures k == m[0].0 || HasKey(m[1..], k) {
          var i :| 0 <= i < |m| && m[i].0 == k;
          if i > 0 { assert m[1..][i - 1].0 == k; }
        }
      }
      {m[0].0} + Keys(m[1..])
  }

  /**
   * The entries of `w` whose key is not in `ks`, in `w`'s order. This is the
   * reference for what `array_merge` appends after its first argument.
   */
  function DropKeys<V(==)>(w: seq<(string, V)>, ks: set<string>): (r: seq<(string, V)>)
    ensures |r| <= |w|
    ensures forall i :: 0 <= i < |r| ==> r[i] in w && r[i].0 !in ks
    ensures forall i :: 0 <= i < |w| && w[i].0 !in ks ==> w[i] in r
  {
    if |w| == 0 then []
    else (if w[0].0 in ks then [] else [w[0]]) + DropKeys(w[1..], ks)
  }

  /** Filtering distributes over concatenation, so it keeps the relative order. */
  lemma {:induction false} DropKeysAppend<V>(a: seq<(string, V)>, b: seq<(string, V)>, ks: set<string>)
    ensures DropKeys(a + b, ks) == DropKeys(a, ks) + DropKeys(b, ks)
  {
    if |a| > 0 {
      assert (a + b)[1..] == a[1..] + b;
      DropKeysAppend(a[1..], b, ks);
    } else {
      assert a + b == b;
    }
  }

  /**
   * `m` is what assigning the entries of `writes`, in order, onto `base`
   * leaves: `base`'s keys are still in their slots, and after them come the
   * entries of `writes` whose key `base` lacked, in `writes`' order.
   */
  predicate Extends<V(==)>(base: OMap<V>, m: OMap<V>, writes: seq<(string, V)>) {
    && |m| >= |base|
    && (forall i :: 0 <= i < |base| ==> m[i].0 == base[i].0)
    && m[|base|..] == DropKeys(writes, Keys(base))
  }

  /** One more assignment, of a key `writes` does not hold, keeps `Extends`. */
  lemma ExtendsPut<V>(base: OMap<V>, m: OMap<V>, writes: seq<(string, V)>, k: string, v: V)
    requires Extends(base, m, writes)
    requires !HasKey(writes, k)
    ensures Extends(base, Put(m, k, v), writes + [(k, v)])
  {
    var after := Put(m, k, v);
    var ks := Keys(base);
    DropKeysAppend(writes, [(k, v)], ks);
    // No appended slot of `m` holds `k`: those entries all come from `writes`.
    forall j | |base| <= j < |m|
      ensures m[j].0 != k
    {
      assert m[j] == DropKeys(writes, ks)[j - |base|];
      assert m[j] in writes;
      var i :| 0 <= i < |writes| && writes[i] == m[j];
    }
    assert DropKeys([(k, v)], ks) == (if k in ks then [] else [(k, v)]);
    if HasKey(m, k) {
      var j :| 0 <= j < |m| && m[j].0 == k;
      assert base[j].0 == k;
      assert HasKey(base, k);
      assert after[|base|..] == m[|base|..];
    } else {
      assert !HasKey(base, k);
      assert after[|base|..] == m[|base|..] + [(k, v)];
    }
  }

  /** The appended slots of an `Extends` hold keys of `writes` that `base` lacked. */
  lemma ExtendsNewKeys<V>(base: OMap<V>, m: OMap<V>, writes: seq<(string, V)>)
    requires Extends(base, m, writes)
    ensures forall i :: |base| <= i < |m| ==> HasKey(writes, m[i].0) && !HasKey(base, m[i].0)
  {
    forall i | |base| <= i < |m| ensures HasKey(writes, m[i].0) && !HasKey(base, m[i].0) {
      assert m[i] == DropKeys(writes, Keys(base))[i - |base|];
      var j :| 0 <= j < |writes| && writes[j] == m[i];
    }
  }

  /** A map is its entries before the last one, then the last one, whose key occurs only there. */
  lemma SplitLast<V>(b: OMap<V>)
    requires |b| > 0
    ensures var init, last := b[..|b| - 1], b[|b| - 1];
      && b == init + [last]
      && !HasKey(init, last.0)
      && (forall k :: HasKey(b, k) <==> k == last.0 || HasKey(init, k))
      && (forall k :: k != last.0 ==> Get(b, k) == Get(init, k))
      && Get(b, last.0) == Some(last.1)
  {
    var init: OMap<V> := b[..|b| - 1];
    var last := b[|b| - 1];
    assert !HasKey(init, last.0);
    forall k ensures HasKey(b, k) <==> k == last.0 || HasKey(init, k) {
      if HasKey(b, k) && k != last.0 {
        var i :| 0 <= i < |b| && b[i].0 == k;
        assert init[i].0 == k;
      }
      if HasKey(init, k) {
        var i :| 0 <= i < |init| && init[i].0 == k;
        assert b[i].0 == k;
      }
      if k == last.0 {
        assert b[|b| - 1].0 == k;
      }
    }
    forall k | k != last.0 ensures Get(b, k) == Get(init, k) {
      if HasKey(init, k) {
        var i :| 0 <= i < |init| && init[i].0 == k;
        assert b[i] == init[i];
      }
    }
    assert b[|b| - 1] == last;
  }

  /**
   * `array_merge($a, $b)` for string keys: every key of `b` is assigned in
   * `b`'s order onto a copy of `a`. So `b` wins on shared keys, `a`'s keys
   * keep their slots, and `b`'s other entries follow in `b`'s order.
   */
  function Merge<V(==)>(a: OMap<V>, b: OMap<V>): (r: OMap<V>)
    ensures forall k :: Get(r, k) == if HasKey(b, k) then Get(b, k) else Get(a, k)
    ensures |r| >= |a|
    ensures forall i :: 0 <= i < |a| ==> r[i].0 == a[i].0
    ensures forall i :: |a| <= i < |r| ==> HasKey(b, r[i].0) && !HasKey(a, r[i].0)
    ensures r[|a|..] == DropKeys(b, Keys(a))
    decreases |b|
  {
    if |b| == 0 then
      assert a[|a|..] == [];
      a
    else
      var init: OMap<V> := b[..|b| - 1];
      var last := b[|b| - 1];
      SplitLast(b);
      var prev := Merge(a, init);
      ExtendsPut(a, prev, init, last.0, last.1);
      var r := Put(prev, last.0, last.1);
      ExtendsNewKeys(a, r, b);
      r
  }
}
