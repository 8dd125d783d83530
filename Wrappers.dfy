/** Optional values and results with an error, shared by every module of the model. */
module Wrappers {

  datatype Option<+T> = None | Some(value: T)

  datatype Result<+T, +E> = Ok(value: T) | Err(error: E)
}

/** Sequence helpers: order-preserving selection (the Python list comprehension
    `[x for x in xs if keep]`) and substring search (Python's `in` on str). */
module Seqs {

  /** The elements of `s` whose mask bit is set, in their original order. */
  function Pick<T>(s: seq<T>, mask: seq<bool>): (r: seq<T>)
    requires |mask| == |s|
    ensures |r| <= |s|
  {
    if s == [] then []
    else (if mask[0] then [s[0]] else []) + Pick(s[1..], mask[1..])
  }

  /** `a` is obtained from `b` by deleting elements, without reordering. */
  ghost predicate IsSubsequence<T>(a: seq<T>, b: seq<T>)
  {
    exists mask: seq<bool> {:trigger Pick(b, mask)} :: |mask| == |b| && a == Pick(b, mask)
  }

  /** Concatenation is associative. */
  lemma AppendAssoc<T>(x: seq<T>, y: seq<T>, z: seq<T>)
    ensures x + (y + z) == (x + y) + z
  {
  }

  /** Cutting a concatenation inside its first part. */
  lemma SliceConcat<T>(a: seq<T>, t: seq<T>, e: nat)
    requires e <= |a|
    ensures (a + t)[e..] == a[e..] + t && (a + t)[..e] == a[..e]
  {
  }

  /** `t` contains `q` as a contiguous block (Python `q in t` on strings). */
  predicate Contains<T(==)>(t: seq<T>, q: seq<T>)
    decreases |t|
  {
    q <= t || (t != [] && Contains(t[1..], q))
  }

  /** The inductive definition agrees with "q occurs at some position". */
  lemma {:induction false} ContainsAt<T>(t: seq<T>, q: seq<T>, k: nat)
    requires k + |q| <= |t| && t[k..k + |q|] == q
    ensures Contains(t, q)
    decreases k
  {
    if k == 0 {
      assert q <= t;
    } else {
      assert t[1..][k - 1..k - 1 + |q|] == t[k..k + |q|];
      ContainsAt(t[1..], q, k - 1);
    }
  }

  /** If `q` is found, it occurs at a definite position. */
  lemma {:induction false} ContainsWitness<T>(t: seq<T>, q: seq<T>) returns (k: nat)
    requires Contains(t, q)
    ensures k + |q| <= |t| && t[k..k + |q|] == q
    decreases |t|
  {
    if q <= t {
      k := 0;
    } else {
      var k' := ContainsWitness(t[1..], q);
      k := k' + 1;
      assert t[k..k + |q|] == t[1..][k'..k' + |q|];
    }
  }

  /** Selecting everything keeps the whole sequence. */
  lemma {:induction false} PickAll<T>(s: seq<T>, mask: seq<bool>)
    requires |mask| == |s| && forall k :: 0 <= k < |mask| ==> mask[k]
    ensures Pick(s, mask) == s
    decreases |s|
  {
    if s != [] {
      PickAll(s[1..], mask[1..]);
    }
  }

  /** A mask that starts with `n` false bits skips the first `n` elements. */
  lemma {:induction false} PickSkip<T>(s: seq<T>, n: nat, m: seq<bool>)
    requires n <= |s| && |m| == |s| - n
    ensures |seq(n, _ => false) + m| == |s|
    ensures Pick(s, seq(n, _ => false) + m) == Pick(s[n..], m)
    decreases n
  {
    var mask := seq(n, _ => false) + m;
    if n == 0 {
      assert mask == m;
    } else {
      assert mask[0] == false;
      assert mask[1..] == seq(n - 1, _ => false) + m;
      PickSkip(s[1..], n - 1, m);
      assert s[1..][n - 1..] == s[n..];
    }
  }

  /** Index of the first element satisfying `p`, or `|xs|` when there is none:
      a linear search with early return. */
  function FirstMatch<T>(xs: seq<T>, p: T -> bool): (k: nat)
    ensures k <= |xs|
    ensures forall j :: 0 <= j < k ==> !p(xs[j])
    ensures k < |xs| ==> p(xs[k])
  {
    if xs == [] then 0
    else if p(xs[0]) then 0
    else 1 + FirstMatch(xs[1..], p)
  }

  /** The first match is characterised by its position: nothing before it
      matches and it matches, unless it is past the end. */
  lemma {:induction false} FirstMatchAt<T>(xs: seq<T>, p: T -> bool, k: nat)
    requires k <= |xs|
    requires forall j :: 0 <= j < k ==> !p(xs[j])
    requires k < |xs| ==> p(xs[k])
    ensures FirstMatch(xs, p) == k
  {
    if xs != [] && k > 0 {
      FirstMatchAt(xs[1..], p, k - 1);
    }
  }

  /** Concatenation of a sequence of sequences, in order. */
  function Flatten<T>(xss: seq<seq<T>>): (r: seq<T>)
  {
    if xss == [] then [] else xss[0] + Flatten(xss[1..])
  }

  /** Every element of the flattening comes from one of the inner sequences, and back. */
  lemma {:induction false} FlattenMember<T>(xss: seq<seq<T>>, x: T)
    ensures x in Flatten(xss) <==> exists i :: 0 <= i < |xss| && x in xss[i]
  {
    if xss != [] {
      var rest := xss[1..];
      FlattenMember(rest, x);
      assert Flatten(xss) == xss[0] + Flatten(rest);
      if x in Flatten(rest) {
        var i :| 0 <= i < |rest| && x in rest[i];
        assert rest[i] == xss[i + 1];
      }
      if exists i :: 0 <= i < |xss| && x in xss[i] {
        var i :| 0 <= i < |xss| && x in xss[i];
        if i > 0 {
          assert rest[i - 1] == xss[i];
        }
      }
    }
  }

  /** `[x for x in xs if p(x)]`, built from the front as a loop that appends. */
  function Filter<T>(xs: seq<T>, p: T -> bool): (r: seq<T>)
    ensures |r| <= |xs|
    ensures forall k :: 0 <= k < |r| ==> r[k] in xs && p(r[k])
    ensures forall k :: 0 <= k < |xs| && p(xs[k]) ==> xs[k] in r
    decreases |xs|
  {
    if xs == [] then []
    else
      var init := xs[..|xs| - 1];
      var last := xs[|xs| - 1];
      assert forall k :: 0 <= k < |init| ==> init[k] == xs[k];
      Filter(init, p) + (if p(last) then [last] else [])
  }

  /** Appending one bit and one element to a selection appends the element when
      the bit is set. */
  lemma {:induction false} PickSnoc<T>(s: seq<T>, mask: seq<bool>, x: T, b: bool)
    requires |mask| == |s|
    ensures Pick(s + [x], mask + [b]) == Pick(s, mask) + (if b then [x] else [])
    decreases |s|
  {
    if s == [] {
      assert s + [x] == [x];
      assert mask + [b] == [b];
    } else {
      assert (s + [x])[1..] == s[1..] + [x];
      assert (mask + [b])[1..] == mask[1..] + [b];
      PickSnoc(s[1..], mask[1..], x, b);
    }
  }

  /** The filter keeps exactly the elements whose mask bit `p(x)` is set, in order. */
  lemma {:induction false} FilterIsPick<T>(xs: seq<T>, p: T -> bool)
    ensures Filter(xs, p) == Pick(xs, seq(|xs|, i requires 0 <= i < |xs| => p(xs[i])))
    decreases |xs|
  {
    var mask := seq(|xs|, i requires 0 <= i < |xs| => p(xs[i]));
    if xs != [] {
      var init := xs[..|xs| - 1];
      var last := xs[|xs| - 1];
      FilterIsPick(init, p);
      var m := seq(|init|, i requires 0 <= i < |init| => p(init[i]));
      assert mask == m + [p(last)];
      assert xs == init + [last];
      PickSnoc(init, m, last, p(last));
    }
  }

  /** A filter is an order-preserving subsequence of its input. */
  lemma FilterSubsequence<T>(xs: seq<T>, p: T -> bool)
    ensures IsSubsequence(Filter(xs, p), xs)
  {
    FilterIsPick(xs, p);
    var mask := seq(|xs|, i requires 0 <= i < |xs| => p(xs[i]));
    assert Filter(xs, p) == Pick(xs, mask);
  }

  /** Filtering a concatenation filters each part. */
  lemma {:induction false} FilterAppend<T>(a: seq<T>, b: seq<T>, p: T -> bool)
    ensures Filter(a + b, p) == Filter(a, p) + Filter(b, p)
    decreases |b|
  {
    if b == [] {
      assert a + b == a;
    } else {
      var init := b[..|b| - 1];
      assert (a + b)[..|a + b| - 1] == a + init;
      assert (a + b)[|a + b| - 1] == b[|b| - 1];
      FilterAppend(a, init, p);
    }
  }

  /** Filtering keeps pairwise distinct keys pairwise distinct. */
  lemma {:induction false} FilterDistinct<T, K>(xs: seq<T>, p: T -> bool, key: T -> K)
    requires forall i, j :: 0 <= i < j < |xs| ==> key(xs[i]) != key(xs[j])
    ensures forall i, j :: 0 <= i < j < |Filter(xs, p)| ==> key(Filter(xs, p)[i]) != key(Filter(xs, p)[j])
    decreases |xs|
  {
    if xs != [] {
      var init := xs[..|xs| - 1];
      var last := xs[|xs| - 1];
      FilterDistinct(init, p, key);
      var fi := Filter(init, p);
      forall k | 0 <= k < |fi| ensures key(fi[k]) != key(last) {
        var m :| 0 <= m < |init| && init[m] == fi[k];
        assert xs[m] == init[m];
      }
    }
  }
}
