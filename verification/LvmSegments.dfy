/** What single segments mean for both computations of allocation: their areas, the extents each area holds, and the
    order they are read in (src/sensors2mqtt/collector/storage/lvm.py, `_segments`, `lv_tree`, `vg_from_metadata`). */
module LvmSegments {
  import opened LvmSharing
  import opened LvmTree
  import opened LvmUsage
  import opened Numerals

  // ------------------------------------------------------------------
  // Areas and what they hold
  // ------------------------------------------------------------------

  /** The areas are the items of the stripes at even places. */
  lemma {:induction false} AreasAt(stripes: seq<string>)
    ensures |Areas(stripes)| == (|stripes| + 1) / 2
    ensures forall i :: 0 <= i < |Areas(stripes)| ==> Areas(stripes)[i] == stripes[2 * i]
  {
    if |stripes| > 1 {
      var rest := stripes[2..];
      AreasAt(rest);
      forall i | 0 <= i < |Areas(stripes)|
        ensures Areas(stripes)[i] == stripes[2 * i]
      {
        assert i > 0 ==> Areas(stripes)[i] == Areas(rest)[i - 1] == rest[2 * (i - 1)];
      }
    }
  }

  lemma {:induction false} AreasUseCounts(areas: seq<string>, share: int, pv: string)
    ensures AreasUse(areas, share, pv) == Product(multiset(areas)[pv], share)
  {
    if areas != [] {
      var front, last := areas[..|areas| - 1], areas[|areas| - 1];
      AreasUseCounts(front, share, pv);
      assert areas == front + [last];
      OneMore(multiset(front)[pv], share);
    }
  }

  /** `q` is `count` divided by `n`, rounded down. */
  predicate IsQuotient(q: int, count: int, n: nat) {
    Product(n, q) <= count < Product(n, q) + n
  }

  lemma QuotientIs(count: int, n: nat)
    requires n > 0
    ensures IsQuotient(count / n, count, n)
  {
  }

  lemma ShareIs(s: Segment)
    requires Areas(s.stripes) != []
    ensures IsQuotient(Share(s), s.count, |Areas(s.stripes)|)
  {
    QuotientIs(s.count, |Areas(s.stripes)|);
  }

  /** A segment's extents are divided evenly among its areas, rounded down: a PV holds that once for each of the
      segment's areas on it. */
  lemma SegmentDivided(s: Segment)
    requires Areas(s.stripes) != []
    ensures exists q :: IsQuotient(q, s.count, |Areas(s.stripes)|)
                     && forall pv :: SegmentUse(s, pv) == Product(multiset(Areas(s.stripes))[pv], q)
  {
    var q := Share(s);
    ShareIs(s);
    forall pv
      ensures SegmentUse(s, pv) == Product(multiset(Areas(s.stripes))[pv], q)
    {
      AreasUseCounts(Areas(s.stripes), q, pv);
    }
  }

  lemma {:induction false} AreasTotal(areas: seq<string>, share: int, names: seq<string>)
    requires Distinct(names) && forall a :: a in areas ==> a in names
    ensures Sum(pv => AreasUse(areas, share, pv), names) == Product(|areas|, share)
  {
    var f := pv => AreasUse(areas, share, pv);
    if areas == [] {
      SumZero(f, names);
    } else {
      var front, last := areas[..|areas| - 1], areas[|areas| - 1];
      assert areas == front + [last];
      AreasTotal(front, share, names);
      SumOneMore(f, pv => AreasUse(front, share, pv), names, last, share);
      OneMore(|front|, share);
    }
  }

  /** All PVs together hold what the segment has, but for a remainder smaller than the number of its areas. */
  lemma SegmentTotal(s: Segment, names: seq<string>)
    requires Areas(s.stripes) != [] && Distinct(names) && forall a :: a in Areas(s.stripes) ==> a in names
    ensures s.count - |Areas(s.stripes)| < Sum(pv => SegmentUse(s, pv), names) <= s.count
  {
    AreasTotal(Areas(s.stripes), Share(s), names);
    SumSame(pv => SegmentUse(s, pv), pv => AreasUse(Areas(s.stripes), Share(s), pv), names);
    ShareIs(s);
  }

  /** PVs with as many areas of the segment hold equally much of it. */
  lemma SegmentEven(s: Segment, pv: string, pv': string)
    requires multiset(Areas(s.stripes))[pv] == multiset(Areas(s.stripes))[pv']
    ensures SegmentUse(s, pv) == SegmentUse(s, pv')
  {
    AreasUseCounts(Areas(s.stripes), Share(s), pv);
    AreasUseCounts(Areas(s.stripes), Share(s), pv');
  }

  // ------------------------------------------------------------------
  // An LV's extents and those of its segments
  // ------------------------------------------------------------------

  /** Each segment has areas, all of them on the named PVs. */
  predicate OnNames(segs: seq<Segment>, names: seq<string>) {
    forall i :: 0 <= i < |segs| ==> SegmentOnNames(segs[i], names)
  }

  predicate SegmentOnNames(s: Segment, names: seq<string>) {
    Areas(s.stripes) != [] && forall a :: a in Areas(s.stripes) ==> a in names
  }

  function AreaCount(segs: seq<Segment>): nat {
    if segs == [] then 0 else AreaCount(segs[..|segs| - 1]) + |Areas(segs[|segs| - 1].stripes)|
  }

  lemma {:induction false} SegmentsTotal(segs: seq<Segment>, names: seq<string>)
    requires Distinct(names) && OnNames(segs, names)
    ensures TotalExtents(segs) - AreaCount(segs) <= Sum(pv => SegmentsUse(segs, pv), names) <= TotalExtents(segs)
  {
    if segs == [] {
      SumZero(pv => SegmentsUse(segs, pv), names);
    } else {
      var front, last := segs[..|segs| - 1], segs[|segs| - 1];
      assert SegmentOnNames(last, names);
      assert forall i :: 0 <= i < |front| ==> SegmentOnNames(front[i], names) by {
        assert forall i :: 0 <= i < |front| ==> front[i] == segs[i];
      }
      SegmentsTotal(front, names);
      SegmentTotal(last, names);
      SumBalance(pv => SegmentsUse(segs, pv), pv => 0, pv => SegmentsUse(front, pv), pv => SegmentUse(last, pv), names);
      SumZero(pv => 0, names);
    }
  }

  lemma {:induction false} InsertTotal(sorted: seq<Segment>, s: Segment)
    ensures TotalExtents(Insert(sorted, s)) == TotalExtents(sorted) + s.count
  {
    var n := |sorted| - 1;
    if n < 0 || SegmentNumber(sorted[n]) <= SegmentNumber(s) {
      assert (sorted + [s])[..|sorted|] == sorted;
    } else {
      var front := Insert(sorted[..n], s);
      InsertTotal(sorted[..n], s);
      assert (front + [sorted[n]])[..|front|] == front;
    }
  }

  lemma {:induction false} SortedTotal(segs: seq<Segment>)
    ensures TotalExtents(SortedSegments(segs)) == TotalExtents(segs)
  {
    if segs != [] {
      SortedTotal(segs[..|segs| - 1]);
      InsertTotal(SortedSegments(segs[..|segs| - 1]), segs[|segs| - 1]);
    }
  }

  /** The extents a tree's root states are those its own segments hold on the PVs, but for the remainders: of an LV
      without remainders, exactly those. */
  lemma NodeExtents(g: Group, x: string, depth: nat, names: seq<string>)
    requires x in g.lvs && depth <= MAX_DEPTH && Distinct(names) && OnNames(g.lvs[x].segments, names)
    ensures var n := Tree(g, x, depth);
            && n.name == x
            && n.extents - AreaCount(g.lvs[x].segments) <= Sum(pv => OwnUse(g, x, pv), names) <= n.extents
  {
    SegmentsTotal(g.lvs[x].segments, names);
    SortedTotal(g.lvs[x].segments);
    SumSame(pv => OwnUse(g, x, pv), pv => SegmentsUse(g.lvs[x].segments, pv), names);
  }

  // ------------------------------------------------------------------
  // The order of segments
  // ------------------------------------------------------------------

  /** Keys as LVM writes them are read as their numbers, any other ones as 0. */
  lemma NumberOfKey(s: Segment, n: nat)
    ensures s.key == "segment" + NatText(n) ==> SegmentNumber(s) == n
    ensures |s.key| <= 7 || (exists i :: 7 <= i < |s.key| && !IsDigit(s.key[i])) ==> SegmentNumber(s) == 0
  {
    if s.key == "segment" + NatText(n) {
      assert s.key[7..] == NatText(n);
      NatRoundTrip(n);
    }
    if i :| 7 <= i < |s.key| && !IsDigit(s.key[i]) {
      assert s.key[7..][i - 7] == s.key[i];
    }
  }

  /** The segments whose number is `n`, in the order they stand in. */
  function Numbered(segs: seq<Segment>, n: nat): seq<Segment> {
    if segs == [] then []
    else
      var front, last := segs[..|segs| - 1], segs[|segs| - 1];
      Numbered(front, n) + if SegmentNumber(last) == n then [last] else []
  }

  predicate NumbersAscend(segs: seq<Segment>) {
    forall i, j :: 0 <= i < j < |segs| ==> SegmentNumber(segs[i]) <= SegmentNumber(segs[j])
  }

  lemma NumberedAppend(segs: seq<Segment>, s: Segment, n: nat)
    ensures Numbered(segs + [s], n) == Numbered(segs, n) + if SegmentNumber(s) == n then [s] else []
  {
    assert (segs + [s])[..|segs|] == segs;
  }

  lemma {:induction false} InsertAdds(sorted: seq<Segment>, s: Segment)
    ensures forall x :: x in Insert(sorted, s) <==> x in sorted || x == s
  {
    var k := |sorted| - 1;
    if k >= 0 && SegmentNumber(sorted[k]) > SegmentNumber(s) {
      InsertAdds(sorted[..k], s);
      assert sorted == sorted[..k] + [sorted[k]];
    }
  }

  lemma AscendAppend(segs: seq<Segment>, last: Segment)
    requires NumbersAscend(segs) && forall x :: x in segs ==> SegmentNumber(x) <= SegmentNumber(last)
    ensures NumbersAscend(segs + [last])
  {
    assert forall i :: 0 <= i < |segs| ==> segs[i] in segs;
  }

  lemma {:induction false} InsertAscends(sorted: seq<Segment>, s: Segment)
    requires NumbersAscend(sorted)
    ensures NumbersAscend(Insert(sorted, s))
  {
    var k := |sorted| - 1;
    if k >= 0 {
      var front, last := sorted[..k], sorted[k];
      assert forall x :: x in front ==> SegmentNumber(x) <= SegmentNumber(last);
      if SegmentNumber(last) <= SegmentNumber(s) {
        assert forall x :: x in sorted ==> x in front || x == last;
        AscendAppend(sorted, s);
      } else {
        InsertAscends(front, s);
        InsertAdds(front, s);
        AscendAppend(Insert(front, s), last);
      }
    }
  }

  lemma {:induction false} InsertNumbered(sorted: seq<Segment>, s: Segment, n: nat)
    requires NumbersAscend(sorted)
    ensures Numbered(Insert(sorted, s), n) == Numbered(sorted, n) + if SegmentNumber(s) == n then [s] else []
  {
    var k := |sorted| - 1;
    if k < 0 || SegmentNumber(sorted[k]) <= SegmentNumber(s) {
      NumberedAppend(sorted, s, n);
    } else {
      var front, last := sorted[..k], sorted[k];
      InsertNumbered(front, s, n);
      NumberedAppend(Insert(front, s), last, n);
    }
  }

  /** Segments are read in the order of their numbers, those of one number in the order they stand in, each once. */
  lemma {:induction false} SortedStably(segs: seq<Segment>)
    ensures NumbersAscend(SortedSegments(segs))
    ensures forall n: nat :: Numbered(SortedSegments(segs), n) == Numbered(segs, n)
  {
    if segs != [] {
      var front, last := segs[..|segs| - 1], segs[|segs| - 1];
      SortedStably(front);
      InsertAscends(SortedSegments(front), last);
      forall n: nat
        ensures Numbered(SortedSegments(segs), n) == Numbered(segs, n)
      {
        InsertNumbered(SortedSegments(front), last, n);
      }
    }
  }

  // ------------------------------------------------------------------
  // The depth limit
  // ------------------------------------------------------------------

  lemma {:induction false} ChildLevels(kids: seq<Node>, k: nat)
    requires k < |kids|
    ensures MaxLevels(kids) >= Levels(kids[k])
  {
    if k < |kids| - 1 {
      ChildLevels(kids[..|kids| - 1], k);
    }
  }

  /** The limit is reached: an LV that is its own sub-LV has a tree of 17 levels. */
  lemma {:induction false} SelfReference(g: Group, x: string, depth: nat)
    requires x in g.lvs && SubLv(g, x, x) && depth <= 16
    ensures Levels(Tree(g, x, depth)) == 17 - depth
    decreases 16 - depth
  {
    TreeLevels(g, x, depth);
    if depth < 16 {
      SelfReference(g, x, depth + 1);
      var kids := Tree(g, x, depth).children;
      TreeGrown(g, x, depth, x);
      ChildOf(g, depth, kids, x);
      ChildLevels(kids, IndexOf(kids, x));
    }
  }
}
