/**
 * Sequence operations shared by the parser, the extractor and the merger:
 * the "loop, skip some, push the rest" shape (FilterMap), element-wise
 * mapping (Map, for Array.prototype.map) and Array.prototype.join (Join).
 */
module Sequences {
  import opened Wrappers

  /** Keeps, in order, the value `f` yields for every element it does not reject. */
  function FilterMap<A, B>(xs: seq<A>, f: A -> Option<B>): (ys: seq<B>)
    ensures |ys| <= |xs|
  {
    if xs == [] then [] else FilterMap(xs[..|xs| - 1], f) + Emitted(f(xs[|xs| - 1]))
  }

  /** The value of an Option as a sequence of zero or one elements. */
  function Emitted<T>(o: Option<T>): seq<T>
  {
    match o
    case Some(y) => [y]
    case None => []
  }

  /** `f` applied to every element, in order. */
  function Map<A, B>(xs: seq<A>, f: A -> B): (ys: seq<B>)
    ensures |ys| == |xs|
    ensures forall i :: 0 <= i < |xs| ==> ys[i] == f(xs[i])
  {
    if xs == [] then [] else [f(xs[0])] + Map(xs[1..], f)
  }

  /** Array.prototype.join: the parts with `sep` between neighbours; "" for no parts. */
  function Join(parts: seq<string>, sep: string): string
  {
    if |parts| == 0 then ""
    else if |parts| == 1 then parts[0]
    else parts[0] + sep + Join(parts[1..], sep)
  }

  /**
   * A declarative reading of FilterMap: `idx` lists, in strictly increasing
   * order, exactly the positions of `xs` that `f` accepts, and `ys[k]` is
   * what `f` yields at position `idx[k]`.
   */
  ghost predicate Picks<A, B>(xs: seq<A>, f: A -> Option<B>, idx: seq<int>, ys: seq<B>)
  {
    Yields(xs, f, idx, ys) && Increasing(idx) && Covers(xs, f, idx)
  }

  /** Position `idx[k]` of `xs` is accepted by `f`, which yields `ys[k]` there. */
  ghost predicate Yields<A, B>(xs: seq<A>, f: A -> Option<B>, idx: seq<int>, ys: seq<B>)
  {
    && |idx| == |ys|
    && forall k :: 0 <= k < |idx| ==> 0 <= idx[k] < |xs| && f(xs[idx[k]]) == Some(ys[k])
  }

  ghost predicate Increasing(idx: seq<int>)
  {
    forall k, l :: 0 <= k < l < |idx| ==> idx[k] < idx[l]
  }

  /** Every position that `f` accepts is listed. */
  ghost predicate Covers<A, B>(xs: seq<A>, f: A -> Option<B>, idx: seq<int>)
  {
    forall i :: 0 <= i < |xs| && f(xs[i]).Some? ==> i in idx
  }

  /** One more element appends what `f` yields for it, if anything. */
  lemma FilterMapSnoc<A, B>(xs: seq<A>, x: A, f: A -> Option<B>)
    ensures FilterMap(xs + [x], f) == FilterMap(xs, f) + Emitted(f(x))
  {
    assert (xs + [x])[..|xs|] == xs;
  }

  /** FilterMap running over `xs ++ zs` is the two runs one after the other. */
  lemma {:induction false} FilterMapAppend<A, B>(xs: seq<A>, zs: seq<A>, f: A -> Option<B>)
    ensures FilterMap(xs + zs, f) == FilterMap(xs, f) + FilterMap(zs, f)
  {
    if zs == [] {
      assert xs + zs == xs;
    } else {
      var n := |zs| - 1;
      var init, last := zs[..n], zs[n];
      assert zs == init + [last];
      assert xs + zs == (xs + init) + [last];
      calc {
        FilterMap(xs + zs, f);
        { FilterMapSnoc(xs + init, last, f); }
        FilterMap(xs + init, f) + Emitted(f(last));
        { FilterMapAppend(xs, init, f); }
        FilterMap(xs, f) + FilterMap(init, f) + Emitted(f(last));
        { FilterMapSnoc(init, last, f); }
        FilterMap(xs, f) + FilterMap(zs, f);
      }
    }
  }

  /** An element that `f` rejects contributes nothing, wherever it stands. */
  lemma RejectedContributesNothing<A, B>(xs: seq<A>, i: int, f: A -> Option<B>)
    requires 0 <= i < |xs| && f(xs[i]) == None
    ensures FilterMap(xs, f) == FilterMap(xs[..i], f) + FilterMap(xs[i + 1..], f)
  {
    var a, b := FilterMap(xs[..i], f), FilterMap(xs[i + 1..], f);
    FilterMapSplit(xs, i + 1, f);
    FilterMapTake(xs, i, f);
    assert Emitted(f(xs[i])) == [];
    assert FilterMap(xs[..i + 1], f) == a + [];
    assert a + [] == a;
    assert FilterMap(xs, f) == a + b;
  }

  /** FilterMap over `xs` is FilterMap over a prefix followed by FilterMap over the rest. */
  lemma FilterMapSplit<A, B>(xs: seq<A>, i: int, f: A -> Option<B>)
    requires 0 <= i <= |xs|
    ensures FilterMap(xs, f) == FilterMap(xs[..i], f) + FilterMap(xs[i..], f)
  {
    assert xs == xs[..i] + xs[i..];
    FilterMapAppend(xs[..i], xs[i..], f);
  }

  /** FilterMap over a prefix one element longer. */
  lemma FilterMapTake<A, B>(xs: seq<A>, i: int, f: A -> Option<B>)
    requires 0 <= i < |xs|
    ensures FilterMap(xs[..i + 1], f) == FilterMap(xs[..i], f) + Emitted(f(xs[i]))
  {
    assert xs[..i + 1] == xs[..i] + [xs[i]];
    FilterMapSnoc(xs[..i], xs[i], f);
  }

  /** FilterMap meets its declarative reading. */
  lemma {:induction false} FilterMapPicks<A, B>(xs: seq<A>, f: A -> Option<B>) returns (idx: seq<int>)
    ensures Picks(xs, f, idx, FilterMap(xs, f))
  {
    if xs == [] {
      idx := [];
    } else {
      var n := |xs| - 1;
      var rest := FilterMapPicks(xs[..n], f);
      assert xs[..n] + [xs[n]] == xs;
      FilterMapSnoc(xs[..n], xs[n], f);
      idx := PicksSnoc(xs[..n], xs[n], f, rest, FilterMap(xs[..n], f));
    }
  }

  /** Extends a reading of `xs` to one of `xs + [x]`. */
  lemma PicksSnoc<A, B>(xs: seq<A>, x: A, f: A -> Option<B>, rest: seq<int>, ys: seq<B>) returns (idx: seq<int>)
    requires Picks(xs, f, rest, ys)
    ensures Picks(xs + [x], f, idx, ys + Emitted(f(x)))
  {
    idx := if f(x).Some? then rest + [|xs|] else rest;
    YieldsSnoc(xs, x, f, rest, ys, idx);
    IncreasingSnoc(xs, x, f, rest, ys, idx);
    CoversSnoc(xs, x, f, rest, ys, idx);
  }

  lemma YieldsSnoc<A, B>(xs: seq<A>, x: A, f: A -> Option<B>, rest: seq<int>, ys: seq<B>, idx: seq<int>)
    requires Yields(xs, f, rest, ys)
    requires idx == if f(x).Some? then rest + [|xs|] else rest
    ensures Yields(xs + [x], f, idx, ys + Emitted(f(x)))
  {
    var xs', ys' := xs + [x], ys + Emitted(f(x));
    forall k | 0 <= k < |idx|
      ensures 0 <= idx[k] < |xs'| && f(xs'[idx[k]]) == Some(ys'[k])
    {
      if k < |rest| {
        assert idx[k] == rest[k] && ys'[k] == ys[k];
        assert xs'[rest[k]] == xs[rest[k]];
      }
    }
  }

  lemma IncreasingSnoc<A, B>(xs: seq<A>, x: A, f: A -> Option<B>, rest: seq<int>, ys: seq<B>, idx: seq<int>)
    requires Yields(xs, f, rest, ys) && Increasing(rest)
    requires idx == if f(x).Some? then rest + [|xs|] else rest
    ensures Increasing(idx)
  {
    forall k, l | 0 <= k < l < |idx|
      ensures idx[k] < idx[l]
    {
      assert idx[k] == rest[k];
      if l < |rest| {
        assert idx[l] == rest[l];
      }
    }
  }

  lemma CoversSnoc<A, B>(xs: seq<A>, x: A, f: A -> Option<B>, rest: seq<int>, ys: seq<B>, idx: seq<int>)
    requires Covers(xs, f, rest)
    requires idx == if f(x).Some? then rest + [|xs|] else rest
    ensures Covers(xs + [x], f, idx)
  {
    var xs' := xs + [x];
    forall i | 0 <= i < |xs'| && f(xs'[i]).Some?
      ensures i in idx
    {
      if i < |xs| {
        assert xs'[i] == xs[i];
        var k :| 0 <= k < |rest| && rest[k] == i;
        assert idx[k] == i;
      } else {
        assert idx[|idx| - 1] == |xs|;
      }
    }
  }

  /** The declarative reading determines the result: whatever meets it is FilterMap. */
  lemma {:induction false} PicksDetermineFilterMap<A, B>(xs: seq<A>, f: A -> Option<B>, idx: seq<int>, ys: seq<B>)
    requires Picks(xs, f, idx, ys)
    ensures ys == FilterMap(xs, f)
  {
    YieldsOnEmpty(xs, f, idx, ys);
    if xs != [] {
      var n := |xs| - 1;
      var rest, ys' := PicksUnsnoc(xs, f, idx, ys);
      PicksDetermineFilterMap(xs[..n], f, rest, ys');
    }
  }

  /** Nothing can be picked from an empty sequence. */
  lemma YieldsOnEmpty<A, B>(xs: seq<A>, f: A -> Option<B>, idx: seq<int>, ys: seq<B>)
    requires Yields(xs, f, idx, ys)
    ensures xs == [] ==> ys == []
  {
    if |idx| > 0 {
      assert 0 <= idx[0] < |xs|;
    }
  }

  /** Restricts a reading of `xs` to one of all but its last element. */
  lemma PicksUnsnoc<A, B>(xs: seq<A>, f: A -> Option<B>, idx: seq<int>, ys: seq<B>) returns (rest: seq<int>, ys': seq<B>)
    requires xs != [] && Picks(xs, f, idx, ys)
    ensures ys == ys' + Emitted(f(xs[|xs| - 1]))
    ensures Picks(xs[..|xs| - 1], f, rest, ys')
  {
    var n := |xs| - 1;
    var m := |idx|;
    if f(xs[n]).Some? {
      LastElementPicked(xs, f, idx, ys);
      m := |idx| - 1;
      assert ys == ys[..m] + [ys[m]];
    } else {
      LastElementNotPicked(xs, f, idx, ys);
    }
    rest, ys' := idx[..m], ys[..m];
    PicksPrefix(xs, f, idx, ys, m);
  }

  /** When `f` accepts the last element, the last pick points at it and every other pick before it. */
  lemma LastElementPicked<A, B>(xs: seq<A>, f: A -> Option<B>, idx: seq<int>, ys: seq<B>)
    requires xs != [] && Picks(xs, f, idx, ys) && f(xs[|xs| - 1]).Some?
    ensures |idx| > 0 && idx[|idx| - 1] == |xs| - 1
    ensures f(xs[|xs| - 1]) == Some(ys[|idx| - 1])
    ensures forall k :: 0 <= k < |idx| - 1 ==> idx[k] < |xs| - 1
  {
    var n := |xs| - 1;
    assert n in idx;
    var j :| 0 <= j < |idx| && idx[j] == n;
    var m := |idx| - 1;
    assert idx[j] <= idx[m];
    forall k | 0 <= k < m
      ensures idx[k] < n
    {
      assert idx[k] < idx[m];
    }
  }

  /** When `f` rejects the last element, no pick points at it. */
  lemma LastElementNotPicked<A, B>(xs: seq<A>, f: A -> Option<B>, idx: seq<int>, ys: seq<B>)
    requires xs != [] && Yields(xs, f, idx, ys) && f(xs[|xs| - 1]).None?
    ensures forall k :: 0 <= k < |idx| ==> idx[k] < |xs| - 1
  {
    forall k | 0 <= k < |idx|
      ensures idx[k] < |xs| - 1
    {
      assert f(xs[idx[k]]).Some?;
    }
  }

  /** Dropping the last element of `xs` drops the picks that point at it. */
  lemma PicksPrefix<A, B>(xs: seq<A>, f: A -> Option<B>, idx: seq<int>, ys: seq<B>, m: int)
    requires xs != [] && Picks(xs, f, idx, ys) && 0 <= m <= |idx|
    requires forall k :: 0 <= k < m ==> idx[k] < |xs| - 1
    requires forall k :: m <= k < |idx| ==> idx[k] == |xs| - 1
    ensures Picks(xs[..|xs| - 1], f, idx[..m], ys[..m])
  {
    var xs', rest, ys' := xs[..|xs| - 1], idx[..m], ys[..m];
    assert Yields(xs', f, rest, ys') by {
      forall k | 0 <= k < |rest|
        ensures 0 <= rest[k] < |xs'| && f(xs'[rest[k]]) == Some(ys'[k])
      {
        assert rest[k] == idx[k];
      }
    }
    assert Increasing(rest) by {
      forall k, l | 0 <= k < l < |rest|
        ensures rest[k] < rest[l]
      {
        assert rest[k] == idx[k] && rest[l] == idx[l];
      }
    }
    assert Covers(xs', f, rest) by {
      forall i | 0 <= i < |xs'| && f(xs'[i]).Some?
        ensures i in rest
      {
        assert xs'[i] == xs[i];
        var j :| 0 <= j < |idx| && idx[j] == i;
        assert rest[j] == i;
      }
    }
  }

  /** Map distributes over `++`. */
  lemma MapAppend<A, B>(xs: seq<A>, zs: seq<A>, f: A -> B)
    ensures Map(xs + zs, f) == Map(xs, f) + Map(zs, f)
  {
    assert forall i :: 0 <= i < |xs| ==> (xs + zs)[i] == xs[i];
    assert forall i :: |xs| <= i < |xs| + |zs| ==> (xs + zs)[i] == zs[i - |xs|];
  }

  /** Join over `a ++ b` puts one separator between the two joins. */
  lemma {:induction false} JoinAppend(a: seq<string>, b: seq<string>, sep: string)
    requires a != [] && b != []
    ensures Join(a + b, sep) == Join(a, sep) + sep + Join(b, sep)
  {
    if |a| == 1 {
      assert (a + b)[0] == a[0];
      assert (a + b)[1..] == b;
    } else {
      assert (a + b)[0] == a[0];
      assert (a + b)[1..] == a[1..] + b;
      JoinAppend(a[1..], b, sep);
    }
  }

  /** With the empty separator, join distributes over `++` even when a side is empty. */
  lemma JoinAppendNoSeparator(a: seq<string>, b: seq<string>)
    ensures Join(a + b, "") == Join(a, "") + Join(b, "")
  {
    if a == [] {
      assert a + b == b;
    } else if b == [] {
      assert a + b == a;
    } else {
      JoinAppend(a, b, "");
    }
  }

  /** The map from every key in `keys` to `g` of it; a repeated key gives one entry. */
  function Tabulate<K(==), V>(keys: seq<K>, g: K -> V): map<K, V>
  {
    if keys == [] then map[]
    else
      var k := keys[|keys| - 1];
      Tabulate(keys[..|keys| - 1], g)[k := g(k)]
  }

  /** One more key adds its entry, or overwrites it with the same value. */
  lemma TabulateSnoc<K, V>(keys: seq<K>, k: K, g: K -> V)
    ensures Tabulate(keys + [k], g) == Tabulate(keys, g)[k := g(k)]
  {
    assert (keys + [k])[..|keys|] == keys;
  }

  /** The keys are exactly the listed ones, each mapped to its own value. */
  lemma {:induction false} TabulateEntries<K, V>(keys: seq<K>, g: K -> V)
    ensures Tabulate(keys, g).Keys == set k | k in keys
    ensures forall k :: k in keys ==> Tabulate(keys, g)[k] == g(k)
  {
    if keys != [] {
      var n := |keys| - 1;
      TabulateEntries(keys[..n], g);
      assert keys == keys[..n] + [keys[n]];
      forall x
        ensures x in keys <==> x in keys[..n] || x == keys[n]
      {
      }
    }
  }

  /** A sequence has no more distinct elements than positions. */
  lemma {:induction false} DistinctCount<K>(keys: seq<K>)
    ensures |set k | k in keys| <= |keys|
  {
    if keys != [] {
      var rest := keys[1..];
      DistinctCount(rest);
      assert (set k | k in keys) == {keys[0]} + (set k | k in rest);
    }
  }
}
