/**
 * PHP's ordered array, as far as the client uses it: an insertion-ordered
 * map whose keys are strings or integers, the key assignment `$a[k] = v`,
 * and `array_merge`.
 */
module PhpArray {
  import opened Wrappers

  /** A PHP array key. String keys and integer keys never coincide. */
  datatype Key = Name(name: string) | Index(index: int)

  /** An ordered array: entries in insertion order. */
  type Array<V> = seq<(Key, V)>

  /** The keys in order. */
  function Keys<V>(a: Array<V>): (ks: seq<Key>)
    ensures |ks| == |a|
    ensures forall i :: 0 <= i < |a| ==> ks[i] == a[i].0
  {
    if a == [] then [] else [a[0].0] + Keys(a[1..])
  }

  /** No key occurs twice: what every PHP array satisfies. */
  ghost predicate DistinctKeys<V>(a: Array<V>)
  {
    forall i, j :: 0 <= i < j < |a| ==> a[i].0 != a[j].0
  }

  /** Every integer key of a is below bound. */
  ghost predicate IndexesBelow<V>(a: Array<V>, bound: int)
  {
    forall k :: k in Keys(a) && k.Index? ==> k.index < bound
  }

  /** Every key of a is a string key. */
  ghost predicate NamesOnly<V>(a: Array<V>)
  {
    forall k :: k in Keys(a) ==> k.Name?
  }

  /** `$a[k]` (None when the key is absent). */
  function Lookup<V>(a: Array<V>, k: Key): (r: Option<V>)
    ensures r.Some? <==> k in Keys(a)
  {
    if a == [] then None
    else if a[0].0 == k then Some(a[0].1)
    else Lookup(a[1..], k)
  }

  /** The value under the last occurrence of k, reading xs from left to right. */
  function LookupLast<V>(xs: Array<V>, k: Key): Option<V>
  {
    if xs == [] then None
    else match LookupLast(xs[1..], k)
      case Some(v) => Some(v)
      case None => if xs[0].0 == k then Some(xs[0].1) else None
  }

  /**
   * `$a[k] = v`: when k is present its value is replaced where it stands,
   * otherwise the entry is appended.
   */
  function Assign<V>(a: Array<V>, k: Key, v: V): (r: Array<V>)
    ensures Lookup(r, k) == Some(v)
  {
    if a == [] then [(k, v)]
    else if a[0].0 == k then [(k, v)] + a[1..]
    else [a[0]] + Assign(a[1..], k, v)
  }

  /** After `$a[k] = v`, k holds v and every other key holds what it held. */
  lemma {:induction false} AssignLookup<V>(a: Array<V>, k: Key, v: V, k': Key)
    ensures Lookup(Assign(a, k, v), k') == if k' == k then Some(v) else Lookup(a, k')
    decreases |a|
  {
    if a != [] && a[0].0 != k {
      var r := Assign(a[1..], k, v);
      assert ([a[0]] + r)[1..] == r;
      AssignLookup(a[1..], k, v, k');
    }
  }

  /** After `$a[k] = v` every key other than k holds what it held. */
  lemma AssignLeavesOthers<V>(a: Array<V>, k: Key, v: V)
    ensures forall k' :: k' != k ==> Lookup(Assign(a, k, v), k') == Lookup(a, k')
  {
    forall k' | k' != k ensures Lookup(Assign(a, k, v), k') == Lookup(a, k') {
      AssignLookup(a, k, v, k');
    }
  }

  /** `$a[k] = v` keeps the key order, appending k only when it is new. */
  lemma {:induction false} AssignKeys<V>(a: Array<V>, k: Key, v: V)
    ensures Keys(Assign(a, k, v)) == if k in Keys(a) then Keys(a) else Keys(a) + [k]
    decreases |a|
  {
    if a != [] {
      assert Keys(a) == [a[0].0] + Keys(a[1..]);
      if a[0].0 == k {
        var r := [(k, v)] + a[1..];
        assert r[1..] == a[1..];
        assert Keys(r) == [k] + Keys(a[1..]);
      } else {
        var r := Assign(a[1..], k, v);
        assert ([a[0]] + r)[1..] == r;
        AssignKeys(a[1..], k, v);
        assert Keys([a[0]] + r) == [a[0].0] + Keys(r);
      }
    }
  }

  /** `$a[k] = v` keeps the keys of a PHP array distinct. */
  lemma AssignDistinct<V>(a: Array<V>, k: Key, v: V)
    requires DistinctKeys(a)
    ensures DistinctKeys(Assign(a, k, v))
  {
    var r := Assign(a, k, v);
    AssignKeys(a, k, v);
    assert Keys(r) == if k in Keys(a) then Keys(a) else Keys(a) + [k];
    forall i, j | 0 <= i < j < |r| ensures r[i].0 != r[j].0 {
      assert Keys(r)[i] == r[i].0 && Keys(r)[j] == r[j].0;
      if j < |a| {
        assert Keys(a)[i] == a[i].0 && Keys(a)[j] == a[j].0;
      } else {
        assert Keys(a)[i] == a[i].0;
      }
    }
  }

  /**
   * One pass of `array_merge` over the entries xs, onto the result acc built
   * so far: a string key is assigned (the later value wins, the first
   * position stays), an integer-keyed value is appended under the next
   * integer key, counted from zero over the whole result.
   */
  function MergeFrom<V>(acc: Array<V>, xs: Array<V>, next: nat): Array<V>
    decreases |xs|
  {
    if xs == [] then acc
    else if xs[0].0.Name? then MergeFrom(Assign(acc, xs[0].0, xs[0].1), xs[1..], next)
    else MergeFrom(acc + [(Index(next), xs[0].1)], xs[1..], next + 1)
  }

  /**
   * The keys a merge pass appends for entries with keys ks, after the keys
   * seen so far: a string key not yet seen, once, where it first occurs; an
   * integer key as the next integer counted from next.
   */
  function MergedKeys(seen: seq<Key>, ks: seq<Key>, next: nat): seq<Key>
    decreases |ks|
  {
    if ks == [] then []
    else if ks[0].Index? then [Index(next)] + MergedKeys(seen + [Index(next)], ks[1..], next + 1)
    else if ks[0] in seen then MergedKeys(seen, ks[1..], next)
    else [ks[0]] + MergedKeys(seen + [ks[0]], ks[1..], next)
  }

  /** The values stored under integer keys, in order. */
  function IndexedValues<V>(xs: Array<V>): seq<V>
  {
    if xs == [] then []
    else (if xs[0].0.Index? then [xs[0].1] else []) + IndexedValues(xs[1..])
  }

  /**
   * PHP `array_merge(a, b)`: distinct keys, in first-occurrence order with
   * integer keys renumbered from zero; each string key holds the value of its
   * last occurrence in a and b, the j-th integer key the j-th integer-keyed value.
   */
  function ArrayMerge<V>(a: Array<V>, b: Array<V>): (r: Array<V>)
    ensures DistinctKeys(r)
    ensures Keys(r) == MergedKeys([], Keys(a + b), 0)
    ensures forall n :: Lookup(r, Name(n)) == LookupLast(a + b, Name(n))
    ensures forall j ::
      Lookup(r, Index(j)) == if 0 <= j < |IndexedValues(a + b)| then Some(IndexedValues(a + b)[j]) else None
  {
    MergeFromDistinct([], a + b, 0);
    MergeFromKeys([], a + b, 0);
    MergeFromNameLookupAll([], a + b, 0);
    MergeFromIndexLookupAll([], a + b, 0);
    MergeFrom([], a + b, 0)
  }

  lemma KeysAppend<V>(a: Array<V>, e: (Key, V))
    ensures Keys(a + [e]) == Keys(a) + [e.0]
  {
  }

  lemma {:induction false} LookupAppend<V>(a: Array<V>, e: (Key, V), k: Key)
    ensures Lookup(a + [e], k) ==
      if k in Keys(a) then Lookup(a, k) else if k == e.0 then Some(e.1) else None
    decreases |a|
  {
    if a != [] {
      assert (a + [e])[1..] == a[1..] + [e];
      LookupAppend(a[1..], e, k);
    }
  }

  lemma DistinctAppend<V>(a: Array<V>, e: (Key, V))
    requires DistinctKeys(a) && e.0 !in Keys(a)
    ensures DistinctKeys(a + [e])
  {
  }

  /** Assigning a fresh key appends it. */
  lemma {:induction false} AssignFresh<V>(a: Array<V>, k: Key, v: V)
    requires k !in Keys(a)
    ensures Assign(a, k, v) == a + [(k, v)]
    decreases |a|
  {
    if a != [] {
      assert Keys(a) == [a[0].0] + Keys(a[1..]);
      assert a[0].0 != k && k !in Keys(a[1..]);
      AssignFresh(a[1..], k, v);
      assert Assign(a, k, v) == [a[0]] + (a[1..] + [(k, v)]);
      ConcatAssoc([a[0]], a[1..], [(k, v)]);
      assert [a[0]] + a[1..] == a;
    }
  }

  /** Assigning two absent keys in turn appends both entries in that order. */
  lemma AssignTwoFresh<V>(a: Array<V>, k1: Key, v1: V, k2: Key, v2: V)
    requires k1 !in Keys(a) && k2 !in Keys(a) && k1 != k2
    ensures Assign(Assign(a, k1, v1), k2, v2) == a + [(k1, v1), (k2, v2)]
  {
    AssignFresh(a, k1, v1);
    KeysAppend(a, (k1, v1));
    AssignFresh(a + [(k1, v1)], k2, v2);
    ConcatAssoc(a, [(k1, v1)], [(k2, v2)]);
    assert [(k1, v1)] + [(k2, v2)] == [(k1, v1), (k2, v2)];
  }

  /** Assigning a present key replaces its value where it stands. */
  lemma {:induction false} AssignExisting<V>(p: Array<V>, k: Key, old_v: V, s: Array<V>, v: V)
    requires k !in Keys(p)
    ensures Assign(p + [(k, old_v)] + s, k, v) == p + [(k, v)] + s
    decreases |p|
  {
    var a := p + [(k, old_v)] + s;
    if p == [] {
      assert a[0] == (k, old_v) && a[1..] == s;
      assert Assign(a, k, v) == [(k, v)] + s;
    } else {
      var t := p[1..] + [(k, old_v)] + s;
      var t' := p[1..] + [(k, v)] + s;
      assert Keys(p) == [p[0].0] + Keys(p[1..]);
      assert [p[0]] + p[1..] == p;
      ConcatAssoc([p[0]], p[1..], [(k, old_v)]);
      ConcatAssoc([p[0]], p[1..] + [(k, old_v)], s);
      ConcatAssoc([p[0]], p[1..], [(k, v)]);
      ConcatAssoc([p[0]], p[1..] + [(k, v)], s);
      assert a == [p[0]] + t;
      assert a[0] == p[0] && a[1..] == t;
      AssignExisting(p[1..], k, old_v, s, v);
      assert Assign(a, k, v) == [p[0]] + t';
    }
  }

  /** The merge pass never moves or drops a key already in the result. */
  lemma {:induction false} MergeFromKeepsPrefix<V>(acc: Array<V>, xs: Array<V>, next: nat)
    ensures Keys(acc) <= Keys(MergeFrom(acc, xs, next))
    decreases |xs|
  {
    if xs != [] {
      if xs[0].0.Name? {
        AssignKeys(acc, xs[0].0, xs[0].1);
        MergeFromKeepsPrefix(Assign(acc, xs[0].0, xs[0].1), xs[1..], next);
      } else {
        KeysAppend(acc, (Index(next), xs[0].1));
        MergeFromKeepsPrefix(acc + [(Index(next), xs[0].1)], xs[1..], next + 1);
      }
    }
  }

  /** The merge pass keeps keys distinct, renumbering integer keys to fresh ones. */
  lemma {:induction false} MergeFromDistinct<V>(acc: Array<V>, xs: Array<V>, next: nat)
    requires DistinctKeys(acc) && IndexesBelow(acc, next)
    ensures DistinctKeys(MergeFrom(acc, xs, next))
    decreases |xs|
  {
    if xs != [] {
      if xs[0].0.Name? {
        AssignDistinct(acc, xs[0].0, xs[0].1);
        AssignKeys(acc, xs[0].0, xs[0].1);
        MergeFromDistinct(Assign(acc, xs[0].0, xs[0].1), xs[1..], next);
      } else {
        var e := (Index(next), xs[0].1);
        DistinctAppend(acc, e);
        KeysAppend(acc, e);
        MergeFromDistinct(acc + [e], xs[1..], next + 1);
      }
    }
  }

  /**
   * A string key of the result holds the value of its last occurrence among
   * the merged entries, or, when they do not mention it, its earlier value.
   */
  lemma {:induction false} MergeFromNameLookup<V>(acc: Array<V>, xs: Array<V>, next: nat, n: string)
    ensures Lookup(MergeFrom(acc, xs, next), Name(n)) ==
      if LookupLast(xs, Name(n)).Some? then LookupLast(xs, Name(n)) else Lookup(acc, Name(n))
    decreases |xs|
  {
    if xs != [] {
      if xs[0].0.Name? {
        AssignLookup(acc, xs[0].0, xs[0].1, Name(n));
        MergeFromNameLookup(Assign(acc, xs[0].0, xs[0].1), xs[1..], next, n);
      } else {
        var e := (Index(next), xs[0].1);
        LookupAppend(acc, e, Name(n));
        MergeFromNameLookup(acc + [e], xs[1..], next, n);
        MergeFromNameLookup(acc + [e], xs[1..], next + 1, n);
      }
    }
  }

  /**
   * The merge pass adds no key of its own: each key of the result was
   * already there, is a string key of the merged entries, or is one of the
   * integer keys handed out from next on.
   */
  lemma {:induction false} MergeFromKeysOrigin<V>(acc: Array<V>, xs: Array<V>, next: nat, k: Key)
    requires k in Keys(MergeFrom(acc, xs, next))
    ensures k in Keys(acc) || (k.Name? && k in Keys(xs)) || (k.Index? && next <= k.index < next + |xs|)
    decreases |xs|
  {
    if xs != [] {
      assert Keys(xs) == [xs[0].0] + Keys(xs[1..]);
      if xs[0].0.Name? {
        AssignKeys(acc, xs[0].0, xs[0].1);
        MergeFromKeysOrigin(Assign(acc, xs[0].0, xs[0].1), xs[1..], next, k);
      } else {
        var e := (Index(next), xs[0].1);
        KeysAppend(acc, e);
        MergeFromKeysOrigin(acc + [e], xs[1..], next + 1, k);
      }
    }
  }

  lemma ConcatAssoc<T>(a: seq<T>, b: seq<T>, c: seq<T>)
    ensures a + b + c == a + (b + c)
  {
  }

  /** The keys of a merge pass's result: the old keys, then those MergedKeys appends. */
  lemma {:induction false} MergeFromKeys<V>(acc: Array<V>, xs: Array<V>, next: nat)
    ensures Keys(MergeFrom(acc, xs, next)) == Keys(acc) + MergedKeys(Keys(acc), Keys(xs), next)
    decreases |xs|
  {
    if xs == [] {
      assert Keys(acc) + [] == Keys(acc);
    } else {
      var k, v := xs[0].0, xs[0].1;
      var ks, rest := Keys(xs), Keys(xs[1..]);
      assert ks[0] == k && ks[1..] == rest;
      if k.Name? {
        var acc' := Assign(acc, k, v);
        AssignKeys(acc, k, v);
        MergeFromKeys(acc', xs[1..], next);
        if k in Keys(acc) {
          assert MergedKeys(Keys(acc), ks, next) == MergedKeys(Keys(acc), rest, next);
        } else {
          assert MergedKeys(Keys(acc), ks, next) == [k] + MergedKeys(Keys(acc) + [k], rest, next);
          ConcatAssoc(Keys(acc), [k], MergedKeys(Keys(acc) + [k], rest, next));
        }
      } else {
        var e := (Index(next), v);
        KeysAppend(acc, e);
        MergeFromKeys(acc + [e], xs[1..], next + 1);
        assert MergedKeys(Keys(acc), ks, next) == [e.0] + MergedKeys(Keys(acc) + [e.0], rest, next + 1);
        ConcatAssoc(Keys(acc), [e.0], MergedKeys(Keys(acc) + [e.0], rest, next + 1));
      }
    }
  }

  /**
   * An integer key of a merge pass's result below next holds what it held;
   * from next on, the integer keys hold the integer-keyed values of xs in order.
   */
  lemma {:induction false} MergeFromIndexLookup<V>(acc: Array<V>, xs: Array<V>, next: nat, j: int)
    requires IndexesBelow(acc, next)
    ensures Lookup(MergeFrom(acc, xs, next), Index(j)) ==
      if j < next then Lookup(acc, Index(j))
      else if j - next < |IndexedValues(xs)| then Some(IndexedValues(xs)[j - next])
      else None
    decreases |xs|
  {
    if xs == [] {
      if j >= next {
        assert Index(j) !in Keys(acc);
      }
    } else {
      var k, v := xs[0].0, xs[0].1;
      if k.Name? {
        AssignKeys(acc, k, v);
        AssignLookup(acc, k, v, Index(j));
        assert IndexedValues(xs) == IndexedValues(xs[1..]);
        MergeFromIndexLookup(Assign(acc, k, v), xs[1..], next, j);
      } else {
        var e := (Index(next), v);
        KeysAppend(acc, e);
        LookupAppend(acc, e, Index(j));
        assert IndexedValues(xs) == [v] + IndexedValues(xs[1..]);
        MergeFromIndexLookup(acc + [e], xs[1..], next + 1, j);
      }
    }
  }

  lemma MergeFromNameLookupAll<V>(acc: Array<V>, xs: Array<V>, next: nat)
    ensures forall n ::
      Lookup(MergeFrom(acc, xs, next), Name(n)) ==
        if LookupLast(xs, Name(n)).Some? then LookupLast(xs, Name(n)) else Lookup(acc, Name(n))
  {
    forall n
      ensures Lookup(MergeFrom(acc, xs, next), Name(n)) ==
        if LookupLast(xs, Name(n)).Some? then LookupLast(xs, Name(n)) else Lookup(acc, Name(n))
    {
      MergeFromNameLookup(acc, xs, next, n);
    }
  }

  lemma MergeFromIndexLookupAll<V>(acc: Array<V>, xs: Array<V>, next: nat)
    requires IndexesBelow(acc, next)
    ensures forall j ::
      Lookup(MergeFrom(acc, xs, next), Index(j)) ==
        if j < next then Lookup(acc, Index(j))
        else if j - next < |IndexedValues(xs)| then Some(IndexedValues(xs)[j - next])
        else None
  {
    forall j
      ensures Lookup(MergeFrom(acc, xs, next), Index(j)) ==
        if j < next then Lookup(acc, Index(j))
        else if j - next < |IndexedValues(xs)| then Some(IndexedValues(xs)[j - next])
        else None
    {
      MergeFromIndexLookup(acc, xs, next, j);
    }
  }

  /** Merging distinct string-keyed entries appends them unchanged. */
  lemma {:induction false} MergeFromNamesOnly<V>(acc: Array<V>, xs: Array<V>, next: nat)
    requires NamesOnly(xs) && DistinctKeys(acc + xs)
    ensures MergeFrom(acc, xs, next) == acc + xs
    decreases |xs|
  {
    if xs != [] {
      var e := xs[0];
      assert e.0 == Keys(xs)[0];
      assert acc + xs == (acc + [e]) + xs[1..];
      assert e.0 !in Keys(acc) by {
        forall i | 0 <= i < |acc| ensures Keys(acc)[i] != e.0 {
          assert (acc + xs)[i] == acc[i] && (acc + xs)[|acc|] == e;
        }
      }
      AssignFresh(acc, e.0, e.1);
      assert NamesOnly(xs[1..]) by {
        forall k | k in Keys(xs[1..]) ensures k.Name? {
          assert Keys(xs) == [xs[0].0] + Keys(xs[1..]);
        }
      }
      MergeFromNamesOnly(acc + [e], xs[1..], next);
    }
  }

  /** A string-keyed prefix of the merged entries can be merged first. */
  lemma {:induction false} MergeFromNamesFirst<V>(acc: Array<V>, xs: Array<V>, ys: Array<V>, next: nat)
    requires NamesOnly(xs)
    ensures MergeFrom(acc, xs + ys, next) == MergeFrom(MergeFrom(acc, xs, next), ys, next)
    decreases |xs|
  {
    if xs != [] {
      assert (xs + ys)[0] == xs[0] && (xs + ys)[1..] == xs[1..] + ys;
      assert xs[0].0 == Keys(xs)[0];
      assert NamesOnly(xs[1..]) by {
        forall k | k in Keys(xs[1..]) ensures k.Name? {
          assert Keys(xs) == [xs[0].0] + Keys(xs[1..]);
        }
      }
      MergeFromNamesFirst(Assign(acc, xs[0].0, xs[0].1), xs[1..], ys, next);
    } else {
      assert xs + ys == ys;
    }
  }

  /** `array_merge(a, [])` returns a itself when a has distinct string keys. */
  lemma ArrayMergeEmpty<V>(a: Array<V>)
    requires NamesOnly(a) && DistinctKeys(a)
    ensures ArrayMerge(a, []) == a
  {
    assert a + [] == a && [] + a == a;
    MergeFromNamesOnly([], a, 0);
  }

  /** For a string-keyed array a, `array_merge(a, b)` is the merge pass of b onto a. */
  lemma ArrayMergeOnto<V>(a: Array<V>, b: Array<V>)
    requires NamesOnly(a) && DistinctKeys(a)
    ensures ArrayMerge(a, b) == MergeFrom(a, b, 0)
  {
    MergeFromNamesFirst([], a, b, 0);
    assert [] + a == a;
    MergeFromNamesOnly([], a, 0);
  }

  /** The keys of a stay at the front of `array_merge(a, b)`, in their order. */
  lemma ArrayMergeKeepsPositions<V>(a: Array<V>, b: Array<V>)
    requires NamesOnly(a) && DistinctKeys(a)
    ensures Keys(a) <= Keys(ArrayMerge(a, b))
  {
    ArrayMergeOnto(a, b);
    MergeFromKeepsPrefix(a, b, 0);
  }

  /**
   * A string key of `array_merge(a, b)` holds b's last value for it when b
   * gives one, and a's value otherwise.
   */
  lemma ArrayMergeLaterWins<V>(a: Array<V>, b: Array<V>, n: string)
    requires NamesOnly(a) && DistinctKeys(a)
    ensures Lookup(ArrayMerge(a, b), Name(n)) ==
      if LookupLast(b, Name(n)).Some? then LookupLast(b, Name(n)) else Lookup(a, Name(n))
  {
    ArrayMergeOnto(a, b);
    MergeFromNameLookup(a, b, 0, n);
  }

  /**
   * Every key of `array_merge(a, b)` is a key of a, a string key of b, or
   * one of b's integer keys renumbered into 0..|b|-1.
   */
  lemma ArrayMergeKeysOrigin<V>(a: Array<V>, b: Array<V>, k: Key)
    requires NamesOnly(a) && DistinctKeys(a)
    requires k in Keys(ArrayMerge(a, b))
    ensures k in Keys(a) || (k.Name? && k in Keys(b)) || (k.Index? && 0 <= k.index < |b|)
  {
    ArrayMergeOnto(a, b);
    MergeFromKeysOrigin(a, b, 0, k);
  }

  /**
   * The key order of `array_merge(a, b)`: a's keys, then each string key of
   * b that a lacks, once, at its first occurrence in b, and b's integer keys
   * renumbered from zero, all in b's order.
   */
  lemma ArrayMergeKeyOrder<V>(a: Array<V>, b: Array<V>)
    requires NamesOnly(a) && DistinctKeys(a)
    ensures Keys(ArrayMerge(a, b)) == Keys(a) + MergedKeys(Keys(a), Keys(b), 0)
  {
    ArrayMergeOnto(a, b);
    MergeFromKeys(a, b, 0);
  }

  /**
   * The integer keys of `array_merge(a, b)` are 0 up to the number of
   * integer-keyed entries of b, the j-th holding b's j-th integer-keyed value.
   */
  lemma ArrayMergeIndexValues<V>(a: Array<V>, b: Array<V>, j: int)
    requires NamesOnly(a) && DistinctKeys(a)
    ensures Lookup(ArrayMerge(a, b), Index(j)) ==
      if 0 <= j < |IndexedValues(b)| then Some(IndexedValues(b)[j]) else None
  {
    ArrayMergeOnto(a, b);
    assert IndexesBelow(a, 0);
    MergeFromIndexLookup(a, b, 0, j);
    if j < 0 {
      assert Index(j) !in Keys(a);
    }
  }

  /** In a PHP array (distinct keys) the last occurrence is the only one. */
  lemma {:induction false} LookupLastDistinct<V>(xs: Array<V>, k: Key)
    requires DistinctKeys(xs)
    ensures LookupLast(xs, k) == Lookup(xs, k)
    decreases |xs|
  {
    if xs != [] {
      LookupLastDistinct(xs[1..], k);
      if xs[0].0 == k {
        assert k !in Keys(xs[1..]) by {
          forall i | 0 <= i < |xs| - 1 ensures Keys(xs[1..])[i] != k {
            assert xs[1..][i] == xs[i + 1];
          }
        }
      }
    }
  }
}
