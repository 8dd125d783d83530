/** Contour search by adaptive tiling (`_sync/api.py`): a box that holds too
    many objects is split into four quadrants and each is searched in turn;
    the aggregated stream is then deduplicated by fingerprint and optionally
    filtered by true intersection with the contour. */
module Tiling {
  import opened Wrappers
  import opened Seqs
  import opened Feature
  import opened Client
  import opened Api

  /** A search extent `(xmin, ymin, xmax, ymax)`. */
  datatype Box = Box(xmin: real, ymin: real, xmax: real, ymax: real)

  predicate Proper(b: Box)
  {
    b.xmin <= b.xmax && b.ymin <= b.ymax
  }

  /** The point lies in the closed box. */
  predicate InBox(b: Box, x: real, y: real)
  {
    b.xmin <= x <= b.xmax && b.ymin <= y <= b.ymax
  }

  /** The point lies strictly inside the box. */
  predicate InInterior(b: Box, x: real, y: real)
  {
    b.xmin < x < b.xmax && b.ymin < y < b.ymax
  }

  /** `inner` lies within `outer`. */
  predicate Within(inner: Box, outer: Box)
  {
    outer.xmin <= inner.xmin && inner.xmax <= outer.xmax && outer.ymin <= inner.ymin && inner.ymax <= outer.ymax
  }

  function Area(b: Box): real
  {
    (b.xmax - b.xmin) * (b.ymax - b.ymin)
  }

  /** `split_extent`: the quadrants at the midpoints of both axes, in the order
      lower-left, upper-right, lower-right, upper-left. */
  function SplitExtent(b: Box): (r: seq<Box>)
    ensures |r| == 4
    ensures forall i :: 0 <= i < 4 ==>
      r[i].xmax - r[i].xmin == (b.xmax - b.xmin) / 2.0 && r[i].ymax - r[i].ymin == (b.ymax - b.ymin) / 2.0
  {
    var midx := (b.xmax + b.xmin) / 2.0;
    var midy := (b.ymax + b.ymin) / 2.0;
    [Box(b.xmin, b.ymin, midx, midy), Box(midx, midy, b.xmax, b.ymax),
     Box(midx, b.ymin, b.xmax, midy), Box(b.xmin, midy, midx, b.ymax)]
  }

  /** The quadrants of a proper box are proper and lie within it. */
  lemma SplitInside(b: Box)
    requires Proper(b)
    ensures forall i :: 0 <= i < 4 ==> Proper(SplitExtent(b)[i]) && Within(SplitExtent(b)[i], b)
  {
  }

  /** Every point of the box lies in one of its quadrants. */
  lemma SplitCovers(b: Box, x: real, y: real)
    requires InBox(b, x, y)
    ensures exists i :: 0 <= i < 4 && InBox(SplitExtent(b)[i], x, y)
  {
    var qs := SplitExtent(b);
    var midx := (b.xmax + b.xmin) / 2.0;
    var midy := (b.ymax + b.ymin) / 2.0;
    if x <= midx && y <= midy {
      assert InBox(qs[0], x, y);
    } else if x >= midx && y >= midy {
      assert InBox(qs[1], x, y);
    } else if x >= midx {
      assert InBox(qs[2], x, y);
    } else {
      assert InBox(qs[3], x, y);
    }
  }

  /** Distinct quadrants do not overlap: no point is strictly inside two. */
  lemma SplitDisjoint(b: Box, i: nat, j: nat, x: real, y: real)
    requires i < 4 && j < 4 && i != j
    ensures !(InInterior(SplitExtent(b)[i], x, y) && InInterior(SplitExtent(b)[j], x, y))
  {
  }

  /** The quadrants' areas add up to the box's area. */
  lemma SplitArea(b: Box)
    ensures Area(SplitExtent(b)[0]) + Area(SplitExtent(b)[1]) + Area(SplitExtent(b)[2]) + Area(SplitExtent(b)[3]) == Area(b)
  {
    var w := b.xmax - b.xmin;
    var h := b.ymax - b.ymin;
    assert forall i :: 0 <= i < 4 ==> Area(SplitExtent(b)[i]) == (w / 2.0) * (h / 2.0);
    assert 4.0 * ((w / 2.0) * (h / 2.0)) == w * h;
  }

  /** Why a stream stopped early: an exception, or the scripted network said
      nothing more. */
  datatype Halt = Threw(exc: Exc) | ScriptEnded

  /** What `search_in_contour` does for one box: nothing found, the features,
      `TooBigContour`, or another ending that escapes the generator. */
  datatype Answer<F> = NotFound | Found(features: seq<F>) | TooBig | Halted(halt: Halt)

  /** The answer for a box from the outcome of the retried contour request:
      each returned feature is cast to the layer that was searched. */
  function AnswerOf(defs: seq<LayerDef>, layerDef: LayerDef, call: Call<Option<seq<NspdFeature>>>): (a: Answer<TypedFeature>)
    ensures a.TooBig? <==> call == Raised(TooBigContour)
    ensures a.NotFound? <==> call == Returned(None) || call.FellThrough?
    ensures a.Found? ==> (call.Returned? && call.value.Some? &&
                          Some(a.features) == CastFeatures(defs, call.value, layerDef))
  {
    match call
    case Returned(None) => NotFound
    case Returned(Some(fs)) => Found(CastFeatures(defs, Some(fs), layerDef).value)
    case Raised(TooBigContour) => TooBig
    case Raised(e) => Halted(Threw(e))
    case FellThrough => NotFound
    case Exhausted => Halted(ScriptEnded)
  }

  /** What the generator yields, and how it stopped if it stopped early. */
  datatype Stream<F> = Stream(items: seq<F>, halt: Option<Halt>)

  /** Running one generator after another: an early stop ends everything. */
  function Then<F>(s: Stream<F>, next: Stream<F>): (r: Stream<F>)
    ensures s.halt.Some? ==> r == s
    ensures s.halt.None? ==> r.items == s.items + next.items && r.halt == next.halt
  {
    if s.halt.Some? then s else Stream(s.items + next.items, next.halt)
  }

  /** The recursion terminates: wherever the server answers "too big", the
      quadrants settle within `depth - 1` further splits. The source has no
      depth limit; this is the assumption that the server eventually answers
      for small enough boxes. */
  ghost predicate Settles<F>(answer: Box -> Answer<F>, b: Box, depth: nat)
    decreases depth
  {
    answer(b).TooBig? ==> depth > 0 && forall i :: 0 <= i < 4 ==> Settles(answer, SplitExtent(b)[i], depth - 1)
  }

  /** `_iter_search_in_box`. */
  function SearchInBox<F>(answer: Box -> Answer<F>, b: Box, depth: nat): (s: Stream<F>)
    requires Settles(answer, b, depth)
    ensures answer(b).NotFound? ==> s == Stream([], None)
    ensures answer(b).Found? ==> s == Stream(answer(b).features, None)
    ensures answer(b).Halted? ==> s == Stream([], Some(answer(b).halt))
    decreases depth
  {
    match answer(b)
    case NotFound => Stream([], None)
    case Found(fs) => Stream(fs, None)
    case Halted(h) => Stream([], Some(h))
    case TooBig =>
      var qs := SplitExtent(b);
      Then(SearchInBox(answer, qs[0], depth - 1),
        Then(SearchInBox(answer, qs[1], depth - 1),
          Then(SearchInBox(answer, qs[2], depth - 1), SearchInBox(answer, qs[3], depth - 1))))
  }

  /** The boxes the search ends up asking about and accepting an answer for,
      in search order: the box itself, or the leaves of its four quadrants. */
  ghost function Leaves<F>(answer: Box -> Answer<F>, b: Box, depth: nat): seq<Box>
    requires Settles(answer, b, depth)
    decreases depth
  {
    if answer(b).TooBig? then
      var qs := SplitExtent(b);
      Leaves(answer, qs[0], depth - 1) + Leaves(answer, qs[1], depth - 1)
        + Leaves(answer, qs[2], depth - 1) + Leaves(answer, qs[3], depth - 1)
    else [b]
  }

  /** The features the leaves hold, in leaf order. */
  function LeafItems<F>(answer: Box -> Answer<F>, leaves: seq<Box>): seq<F>
  {
    if leaves == [] then []
    else (if answer(leaves[0]).Found? then answer(leaves[0]).features else []) + LeafItems(answer, leaves[1..])
  }

  lemma {:induction false} LeafItemsAppend<F>(answer: Box -> Answer<F>, a: seq<Box>, b: seq<Box>)
    ensures LeafItems(answer, a + b) == LeafItems(answer, a) + LeafItems(answer, b)
    decreases |a|
  {
    if a == [] {
      assert a + b == b;
    } else {
      assert (a + b)[1..] == a[1..] + b;
      LeafItemsAppend(answer, a[1..], b);
    }
  }

  /** Every leaf lies within the searched box. */
  lemma {:induction false} LeavesInside<F>(answer: Box -> Answer<F>, b: Box, depth: nat)
    requires Settles(answer, b, depth) && Proper(b)
    ensures forall l :: l in Leaves(answer, b, depth) ==> Proper(l) && Within(l, b)
    decreases depth
  {
    if answer(b).TooBig? {
      var qs := SplitExtent(b);
      SplitInside(b);
      LeavesInside(answer, qs[0], depth - 1);
      LeavesInside(answer, qs[1], depth - 1);
      LeavesInside(answer, qs[2], depth - 1);
      LeavesInside(answer, qs[3], depth - 1);
    }
  }

  /** The leaves cover the searched box: no point of it is left unsearched. */
  lemma {:induction false} LeavesCover<F>(answer: Box -> Answer<F>, b: Box, depth: nat, x: real, y: real)
    requires Settles(answer, b, depth) && InBox(b, x, y)
    ensures exists l :: l in Leaves(answer, b, depth) && InBox(l, x, y)
    decreases depth
  {
    if answer(b).TooBig? {
      var qs := SplitExtent(b);
      SplitCovers(b, x, y);
      var i :| 0 <= i < 4 && InBox(qs[i], x, y);
      LeavesCover(answer, qs[i], depth - 1, x, y);
      var l :| l in Leaves(answer, qs[i], depth - 1) && InBox(l, x, y);
      assert l in Leaves(answer, b, depth);
    } else {
      assert b in Leaves(answer, b, depth);
    }
  }

  /** No point lies strictly inside two distinct leaves. */
  ghost predicate PairwiseDisjoint(ls: seq<Box>)
  {
    forall i, j, x, y :: 0 <= i < j < |ls| ==> !(InInterior(ls[i], x, y) && InInterior(ls[j], x, y))
  }

  /** Two runs of leaves that are disjoint from each other stay disjoint when
      joined. */
  lemma DisjointAppend(a: seq<Box>, b: seq<Box>)
    requires PairwiseDisjoint(a) && PairwiseDisjoint(b)
    requires forall p, q, x, y :: p in a && q in b ==> !(InInterior(p, x, y) && InInterior(q, x, y))
    ensures PairwiseDisjoint(a + b)
  {
    var ab := a + b;
    forall i, j, x: real, y: real | 0 <= i < j < |ab| ensures !(InInterior(ab[i], x, y) && InInterior(ab[j], x, y)) {
      if j < |a| {
        assert ab[i] == a[i] && ab[j] == a[j];
      } else if i >= |a| {
        assert ab[i] == b[i - |a|] && ab[j] == b[j - |a|];
      } else {
        assert ab[i] in a && ab[j] in b;
      }
    }
  }

  /** Leaves of distinct quadrants lie in disjoint quadrants. */
  lemma QuadrantLeavesApart<F>(answer: Box -> Answer<F>, b: Box, depth: nat, i: nat, j: nat, p: Box, q: Box, x: real, y: real)
    requires Settles(answer, b, depth) && Proper(b) && answer(b).TooBig?
    requires i < 4 && j < 4 && i != j
    requires p in Leaves(answer, SplitExtent(b)[i], depth - 1) && q in Leaves(answer, SplitExtent(b)[j], depth - 1)
    ensures !(InInterior(p, x, y) && InInterior(q, x, y))
  {
    var qs := SplitExtent(b);
    SplitInside(b);
    LeavesInside(answer, qs[i], depth - 1);
    LeavesInside(answer, qs[j], depth - 1);
    SplitDisjoint(b, i, j, x, y);
  }

  /** The leaves of a search do not overlap. */
  lemma {:induction false} LeavesDisjoint<F>(answer: Box -> Answer<F>, b: Box, depth: nat)
    requires Settles(answer, b, depth) && Proper(b)
    ensures PairwiseDisjoint(Leaves(answer, b, depth))
    decreases depth
  {
    if answer(b).TooBig? {
      var qs := SplitExtent(b);
      SplitInside(b);
      var l0 := Leaves(answer, qs[0], depth - 1);
      var l1 := Leaves(answer, qs[1], depth - 1);
      var l2 := Leaves(answer, qs[2], depth - 1);
      var l3 := Leaves(answer, qs[3], depth - 1);
      LeavesDisjoint(answer, qs[0], depth - 1);
      LeavesDisjoint(answer, qs[1], depth - 1);
      LeavesDisjoint(answer, qs[2], depth - 1);
      LeavesDisjoint(answer, qs[3], depth - 1);
      forall p, q, x: real, y: real | p in l0 && q in l1 ensures !(InInterior(p, x, y) && InInterior(q, x, y)) {
        QuadrantLeavesApart(answer, b, depth, 0, 1, p, q, x, y);
      }
      DisjointAppend(l0, l1);
      forall p, q, x: real, y: real | p in l0 + l1 && q in l2 ensures !(InInterior(p, x, y) && InInterior(q, x, y)) {
        if p in l0 {
          QuadrantLeavesApart(answer, b, depth, 0, 2, p, q, x, y);
        } else {
          QuadrantLeavesApart(answer, b, depth, 1, 2, p, q, x, y);
        }
      }
      DisjointAppend(l0 + l1, l2);
      forall p, q, x: real, y: real | p in l0 + l1 + l2 && q in l3 ensures !(InInterior(p, x, y) && InInterior(q, x, y)) {
        if p in l0 {
          QuadrantLeavesApart(answer, b, depth, 0, 3, p, q, x, y);
        } else if p in l1 {
          QuadrantLeavesApart(answer, b, depth, 1, 3, p, q, x, y);
        } else {
          QuadrantLeavesApart(answer, b, depth, 2, 3, p, q, x, y);
        }
      }
      DisjointAppend(l0 + l1 + l2, l3);
    }
  }

  /** Some leaf's answer stops the stream. */
  ghost predicate AnyHalted<F>(answer: Box -> Answer<F>, leaves: seq<Box>)
  {
    exists l :: l in leaves && answer(l).Halted?
  }

  /** A stream agrees with a run of leaves: it yields a prefix of their
      features, stops early exactly when one of them stops it, and otherwise
      yields all of their features. */
  ghost predicate Agrees<F>(s: Stream<F>, answer: Box -> Answer<F>, leaves: seq<Box>)
  {
    s.items <= LeafItems(answer, leaves)
    && (s.halt.Some? <==> AnyHalted(answer, leaves))
    && (s.halt.None? ==> s.items == LeafItems(answer, leaves))
  }

  /** Chaining streams that agree with two runs of leaves agrees with the
      joined run. */
  lemma ThenAgrees<F>(s: Stream<F>, n: Stream<F>, answer: Box -> Answer<F>, a: seq<Box>, b: seq<Box>)
    requires Agrees(s, answer, a) && Agrees(n, answer, b)
    ensures Agrees(Then(s, n), answer, a + b)
  {
    LeafItemsAppend(answer, a, b);
    forall l ensures l in a + b <==> l in a || l in b {
    }
    if s.halt.Some? {
      var l :| l in a && answer(l).Halted?;
      assert l in a + b;
    }
  }

  /** The search yields the features of the leaves in leaf order; if a leaf's
      answer stops it, what was yielded so far is a prefix of that, and only
      then does the stream stop early. */
  lemma {:induction false} SearchYieldsLeafItems<F>(answer: Box -> Answer<F>, b: Box, depth: nat)
    requires Settles(answer, b, depth)
    ensures Agrees(SearchInBox(answer, b, depth), answer, Leaves(answer, b, depth))
    decreases depth
  {
    if answer(b).TooBig? {
      var qs := SplitExtent(b);
      SearchYieldsLeafItems(answer, qs[0], depth - 1);
      SearchYieldsLeafItems(answer, qs[1], depth - 1);
      SearchYieldsLeafItems(answer, qs[2], depth - 1);
      SearchYieldsLeafItems(answer, qs[3], depth - 1);
      SplitAgrees(answer, b, depth);
    } else {
      LeafAgrees(answer, b, depth);
    }
  }

  /** A box that is answered is its own only leaf. */
  lemma LeafAgrees<F>(answer: Box -> Answer<F>, b: Box, depth: nat)
    requires Settles(answer, b, depth) && !answer(b).TooBig?
    ensures Agrees(SearchInBox(answer, b, depth), answer, Leaves(answer, b, depth))
  {
    var leaves := Leaves(answer, b, depth);
    assert leaves == [b];
    assert leaves[1..] == [];
    assert b in leaves;
    assert forall l :: l in leaves ==> l == b;
  }

  /** A split box searches its quadrants in split order, and its leaves are
      theirs in the same order. */
  lemma SplitUnfold<F>(answer: Box -> Answer<F>, b: Box, depth: nat)
    requires Settles(answer, b, depth) && answer(b).TooBig?
    ensures SearchInBox(answer, b, depth) ==
      Then(SearchInBox(answer, SplitExtent(b)[0], depth - 1),
        Then(SearchInBox(answer, SplitExtent(b)[1], depth - 1),
          Then(SearchInBox(answer, SplitExtent(b)[2], depth - 1), SearchInBox(answer, SplitExtent(b)[3], depth - 1))))
    ensures Leaves(answer, b, depth) ==
      Leaves(answer, SplitExtent(b)[0], depth - 1) + (Leaves(answer, SplitExtent(b)[1], depth - 1)
        + (Leaves(answer, SplitExtent(b)[2], depth - 1) + Leaves(answer, SplitExtent(b)[3], depth - 1)))
  {
    var qs := SplitExtent(b);
    var l0 := Leaves(answer, qs[0], depth - 1);
    var l1 := Leaves(answer, qs[1], depth - 1);
    var l2 := Leaves(answer, qs[2], depth - 1);
    var l3 := Leaves(answer, qs[3], depth - 1);
    assert Leaves(answer, b, depth) == l0 + l1 + l2 + l3;
    AppendAssoc(l0 + l1, l2, l3);
    AppendAssoc(l0, l1, l2 + l3);
  }

  /** A split box agrees with its leaves when each quadrant does. */
  lemma SplitAgrees<F>(answer: Box -> Answer<F>, b: Box, depth: nat)
    requires Settles(answer, b, depth) && answer(b).TooBig?
    requires forall i :: 0 <= i < 4 ==>
      Agrees(SearchInBox(answer, SplitExtent(b)[i], depth - 1), answer, Leaves(answer, SplitExtent(b)[i], depth - 1))
    ensures Agrees(SearchInBox(answer, b, depth), answer, Leaves(answer, b, depth))
  {
    var qs := SplitExtent(b);
    var l0 := Leaves(answer, qs[0], depth - 1);
    var l1 := Leaves(answer, qs[1], depth - 1);
    var l2 := Leaves(answer, qs[2], depth - 1);
    var l3 := Leaves(answer, qs[3], depth - 1);
    var s0 := SearchInBox(answer, qs[0], depth - 1);
    var s1 := SearchInBox(answer, qs[1], depth - 1);
    var s2 := SearchInBox(answer, qs[2], depth - 1);
    var s3 := SearchInBox(answer, qs[3], depth - 1);
    ThenAgrees(s2, s3, answer, l2, l3);
    ThenAgrees(s1, Then(s2, s3), answer, l1, l2 + l3);
    ThenAgrees(s0, Then(s1, Then(s2, s3)), answer, l0, l1 + (l2 + l3));
    SplitUnfold(answer, b, depth);
  }

  /** The fingerprints of a run of features (`md5` of their JSON). */
  function Fingerprints<F>(xs: seq<F>, fingerprint: F -> string): set<string>
  {
    set i | 0 <= i < |xs| :: fingerprint(xs[i])
  }

  /** Appending a feature adds its fingerprint. */
  lemma FingerprintsSnoc<F>(xs: seq<F>, x: F, fingerprint: F -> string)
    ensures Fingerprints(xs + [x], fingerprint) == Fingerprints(xs, fingerprint) + {fingerprint(x)}
  {
    var ys := xs + [x];
    forall h | h in Fingerprints(ys, fingerprint) ensures h in Fingerprints(xs, fingerprint) + {fingerprint(x)} {
      var i :| 0 <= i < |ys| && fingerprint(ys[i]) == h;
      if i < |xs| {
        assert ys[i] == xs[i];
      }
    }
    forall h | h in Fingerprints(xs, fingerprint) ensures h in Fingerprints(ys, fingerprint) {
      var i :| 0 <= i < |xs| && fingerprint(xs[i]) == h;
      assert ys[i] == xs[i];
    }
    assert ys[|xs|] == x;
  }

  /** The first occurrence of each fingerprint, in stream order. */
  function Dedup<F>(xs: seq<F>, fingerprint: F -> string): (r: seq<F>)
    decreases |xs|
  {
    if xs == [] then []
    else
      var init := xs[..|xs| - 1];
      var last := xs[|xs| - 1];
      Dedup(init, fingerprint) + (if fingerprint(last) in Fingerprints(init, fingerprint) then [] else [last])
  }

  /** The test that lets a new feature through: with `onlyIntersects`, it
      must intersect the contour. */
  function Keeper<F>(onlyIntersects: bool, intersects: F -> bool): F -> bool
  {
    (f: F) => !onlyIntersects || intersects(f)
  }

  /** `search_in_contour_iter` over the stream of `_iter_search_in_box`: the
      cache of fingerprints skips repeats, and with `onlyIntersects` features
      that do not meet the contour are skipped after being cached. */
  method SearchInContourIter<F>(upstream: Stream<F>, fingerprint: F -> string, intersects: F -> bool, onlyIntersects: bool)
    returns (out: Stream<F>)
    ensures out.halt == upstream.halt
    ensures out.items == Aggregate(upstream.items, fingerprint, onlyIntersects, intersects)
  {
    var cache: set<string> := {};
    var items: seq<F> := [];
    var xs := upstream.items;
    var i := 0;
    while i < |xs|
      invariant 0 <= i <= |xs|
      invariant cache == Fingerprints(xs[..i], fingerprint)
      invariant items == Aggregate(xs[..i], fingerprint, onlyIntersects, intersects)
    {
      var feat := xs[i];
      AggregateStep(xs, i, fingerprint, onlyIntersects, intersects);
      var cacheId := fingerprint(feat);
      if cacheId !in cache {
        cache := cache + {cacheId};
        if !onlyIntersects || intersects(feat) {
          items := items + [feat];
        }
      }
      i := i + 1;
    }
    assert xs[..i] == xs;
    out := Stream(items, upstream.halt);
  }

  /** What the aggregator yields for a run of features: the first feature of
      each fingerprint, less those that miss the contour when asked to. */
  ghost function Aggregate<F>(xs: seq<F>, fingerprint: F -> string, onlyIntersects: bool, intersects: F -> bool): seq<F>
  {
    Filter(Dedup(xs, fingerprint), Keeper(onlyIntersects, intersects))
  }

  /** One loop step of the aggregator, in terms of `Aggregate`. */
  lemma AggregateStep<F>(xs: seq<F>, i: nat, fingerprint: F -> string, onlyIntersects: bool, intersects: F -> bool)
    requires i < |xs|
    ensures Fingerprints(xs[..i + 1], fingerprint) == Fingerprints(xs[..i], fingerprint) + {fingerprint(xs[i])}
    ensures Aggregate(xs[..i + 1], fingerprint, onlyIntersects, intersects) ==
      Aggregate(xs[..i], fingerprint, onlyIntersects, intersects) +
      (if fingerprint(xs[i]) in Fingerprints(xs[..i], fingerprint) || !(!onlyIntersects || intersects(xs[i])) then [] else [xs[i]])
  {
    DedupFilterStep(xs, i, fingerprint, Keeper(onlyIntersects, intersects));
  }

  /** One step of the aggregator loop: the next feature is added to the cache,
      and to the output when its fingerprint is new and it passes the filter. */
  lemma DedupFilterStep<F>(xs: seq<F>, i: nat, fingerprint: F -> string, keep: F -> bool)
    requires i < |xs|
    ensures Fingerprints(xs[..i + 1], fingerprint) == Fingerprints(xs[..i], fingerprint) + {fingerprint(xs[i])}
    ensures Filter(Dedup(xs[..i + 1], fingerprint), keep) ==
      Filter(Dedup(xs[..i], fingerprint), keep) +
      (if fingerprint(xs[i]) in Fingerprints(xs[..i], fingerprint) || !keep(xs[i]) then [] else [xs[i]])
  {
    var feat := xs[i];
    assert xs[..i + 1] == xs[..i] + [feat];
    assert xs[..i + 1][..i] == xs[..i];
    FingerprintsSnoc(xs[..i], feat, fingerprint);
    var d := Dedup(xs[..i], fingerprint);
    if fingerprint(feat) in Fingerprints(xs[..i], fingerprint) {
      assert Dedup(xs[..i + 1], fingerprint) == d + [];
      assert d + [] == d;
    } else {
      assert Dedup(xs[..i + 1], fingerprint) == d + [feat];
      FilterAppend(d, [feat], keep);
      assert Filter([feat], keep) == (if keep(feat) then [feat] else []) by {
        assert [feat][..0] == [];
      }
    }
  }

  /** No two deduplicated features share a fingerprint. */
  lemma {:induction false} DedupDistinct<F>(xs: seq<F>, fingerprint: F -> string)
    ensures forall i, j :: 0 <= i < j < |Dedup(xs, fingerprint)| ==>
      fingerprint(Dedup(xs, fingerprint)[i]) != fingerprint(Dedup(xs, fingerprint)[j])
    ensures Fingerprints(Dedup(xs, fingerprint), fingerprint) == Fingerprints(xs, fingerprint)
    decreases |xs|
  {
    if xs != [] {
      var init := xs[..|xs| - 1];
      var last := xs[|xs| - 1];
      DedupDistinct(init, fingerprint);
      var d := Dedup(init, fingerprint);
      assert forall k :: 0 <= k < |init| ==> init[k] == xs[k];
      assert xs == init + [last];
      FingerprintsSnoc(init, last, fingerprint);
      if fingerprint(last) !in Fingerprints(init, fingerprint) {
        var r := d + [last];
        assert forall k :: 0 <= k < |d| ==> r[k] == d[k];
        assert forall k :: 0 <= k < |d| ==> fingerprint(d[k]) in Fingerprints(d, fingerprint);
        FingerprintsSnoc(d, last, fingerprint);
      } else {
        assert Dedup(xs, fingerprint) == d;
      }
    }
  }

  /** Each deduplicated feature is the first of the stream with its fingerprint. */
  lemma {:induction false} DedupKeepsFirst<F>(xs: seq<F>, fingerprint: F -> string, k: nat)
    requires k < |Dedup(xs, fingerprint)|
    ensures exists m :: (0 <= m < |xs| && xs[m] == Dedup(xs, fingerprint)[k]
      && forall j :: 0 <= j < m ==> fingerprint(xs[j]) != fingerprint(xs[m]))
    decreases |xs|
  {
    var init := xs[..|xs| - 1];
    var last := xs[|xs| - 1];
    var d := Dedup(init, fingerprint);
    if k < |d| {
      DedupKeepsFirst(init, fingerprint, k);
      var m :| 0 <= m < |init| && init[m] == d[k] && forall j :: 0 <= j < m ==> fingerprint(init[j]) != fingerprint(init[m]);
      assert xs[m] == init[m];
      assert forall j :: 0 <= j < m ==> xs[j] == init[j];
    } else {
      var m := |xs| - 1;
      assert fingerprint(last) !in Fingerprints(init, fingerprint);
      forall j | 0 <= j < m ensures fingerprint(xs[j]) != fingerprint(xs[m]) {
        assert xs[j] == init[j];
      }
    }
  }

  /** Deduplication keeps an order-preserving subsequence of the stream. */
  lemma {:induction false} DedupSubsequence<F>(xs: seq<F>, fingerprint: F -> string)
    ensures IsSubsequence(Dedup(xs, fingerprint), xs)
    decreases |xs|
  {
    if xs == [] {
      assert Dedup(xs, fingerprint) == Pick(xs, []);
    } else {
      var init := xs[..|xs| - 1];
      var last := xs[|xs| - 1];
      DedupSubsequence(init, fingerprint);
      var mask :| |mask| == |init| && Dedup(init, fingerprint) == Pick(init, mask);
      var b := fingerprint(last) !in Fingerprints(init, fingerprint);
      var m := mask + [b];
      assert Dedup(xs, fingerprint) == Dedup(init, fingerprint) + (if b then [last] else []);
      assert Pick(xs, m) == Pick(init, mask) + (if b then [last] else []) by {
        assert init + [last] == xs;
        PickSnoc(init, mask, last, b);
      }
      assert |m| == |xs| && Dedup(xs, fingerprint) == Pick(xs, m);
    }
  }

  /** With `only_intersects` the output is the output without it, filtered
      by intersection with the contour: an order-preserving subsequence of it
      made of intersecting features only. */
  lemma OnlyIntersectsFilters<F>(upstream: Stream<F>, fingerprint: F -> string, intersects: F -> bool)
    ensures Filter(Dedup(upstream.items, fingerprint), Keeper(true, intersects)) ==
      Filter(Filter(Dedup(upstream.items, fingerprint), Keeper(false, intersects)), intersects)
  {
    var d := Dedup(upstream.items, fingerprint);
    FilterAllKept(d, Keeper(false, intersects));
    FilterSamePredicate(d, Keeper(true, intersects), intersects);
  }

  /** What `search_in_contour_iter` yields never repeats a fingerprint, and
      every yielded feature passes the intersection test when it is asked for. */
  lemma AggregateDistinct<F>(xs: seq<F>, fingerprint: F -> string, onlyIntersects: bool, intersects: F -> bool)
    ensures var out := Aggregate(xs, fingerprint, onlyIntersects, intersects);
      forall i, j :: 0 <= i < j < |out| ==> fingerprint(out[i]) != fingerprint(out[j])
    ensures var out := Aggregate(xs, fingerprint, onlyIntersects, intersects);
      onlyIntersects ==> forall k :: 0 <= k < |out| ==> intersects(out[k])
  {
    DedupDistinct(xs, fingerprint);
    FilterDistinct(Dedup(xs, fingerprint), Keeper(onlyIntersects, intersects), fingerprint);
  }

  /** Every feature `search_in_contour_iter` yields is the first one in the
      stream with its fingerprint. */
  lemma AggregateKeepsFirst<F>(xs: seq<F>, fingerprint: F -> string, onlyIntersects: bool, intersects: F -> bool, k: nat)
    requires k < |Aggregate(xs, fingerprint, onlyIntersects, intersects)|
    ensures exists m :: (0 <= m < |xs| && xs[m] == Aggregate(xs, fingerprint, onlyIntersects, intersects)[k]
      && forall j :: 0 <= j < m ==> fingerprint(xs[j]) != fingerprint(xs[m]))
  {
    var d := Dedup(xs, fingerprint);
    var out := Aggregate(xs, fingerprint, onlyIntersects, intersects);
    var n :| 0 <= n < |d| && d[n] == out[k];
    DedupKeepsFirst(xs, fingerprint, n);
  }

  /** Filtering with a predicate that holds everywhere changes nothing. */
  lemma {:induction false} FilterAllKept<T>(xs: seq<T>, p: T -> bool)
    requires forall x :: p(x)
    ensures Filter(xs, p) == xs
    decreases |xs|
  {
    if xs != [] {
      FilterAllKept(xs[..|xs| - 1], p);
    }
  }

  /** Filters with predicates that agree everywhere agree. */
  lemma {:induction false} FilterSamePredicate<T>(xs: seq<T>, p: T -> bool, q: T -> bool)
    requires forall x :: p(x) == q(x)
    ensures Filter(xs, p) == Filter(xs, q)
    decreases |xs|
  {
    if xs != [] {
      FilterSamePredicate(xs[..|xs| - 1], p, q);
    }
  }
}
