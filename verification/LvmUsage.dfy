/** The extents LVs use on each PV, counted flat over all segments, and how that agrees with the trees
    (src/sensors2mqtt/collector/storage/lvm.py, `vg_from_metadata`). */
module LvmUsage {
  import opened LvmTree
  import opened Wrappers

  // ------------------------------------------------------------------
  // The flat count
  // ------------------------------------------------------------------

  function AreasUse(areas: seq<string>, share: int, pv: string): int {
    if areas == [] then 0
    else AreasUse(areas[..|areas| - 1], share, pv) + if areas[|areas| - 1] == pv then share else 0
  }

  function SegmentUse(s: Segment, pv: string): int {
    AreasUse(Areas(s.stripes), Share(s), pv)
  }

  /** The extents the segments of one LV place on a PV. */
  function SegmentsUse(segs: seq<Segment>, pv: string): int {
    if segs == [] then 0 else SegmentsUse(segs[..|segs| - 1], pv) + SegmentUse(segs[|segs| - 1], pv)
  }

  /** The extents the named LVs' own segments place on a PV, an LV named twice counted twice. */
  function FlatUse(g: Group, names: seq<string>, pv: string): int {
    if names == [] then 0 else FlatUse(g, names[..|names| - 1], pv) + OwnUse(g, names[|names| - 1], pv)
  }

  function OwnUse(g: Group, name: string, pv: string): int {
    if name in g.lvs then SegmentsUse(g.lvs[name].segments, pv) else 0
  }

  function Get(used: map<string, int>, pv: string): int {
    if pv in used then used[pv] else 0
  }

  /** The loop over every segment of every LV that fills `used`. */
  method UsedExtents(g: Group) returns (used: map<string, int>)
    requires g.Valid()
    ensures forall pv :: Get(used, pv) == FlatUse(g, g.order, pv)
  {
    used := map[];
    for i := 0 to |g.order|
      invariant forall pv :: Get(used, pv) == FlatUse(g, g.order[..i], pv)
    {
      var name := g.order[i];
      var segs := g.lvs[name].segments;
      ghost var before := used;
      for j := 0 to |segs|
        invariant forall pv :: Get(used, pv) == Get(before, pv) + SegmentsUse(segs[..j], pv)
      {
        ghost var earlier := used;
        used := AddSegment(segs[j], used);
        forall pv ensures Get(used, pv) == Get(before, pv) + SegmentsUse(segs[..j + 1], pv) {
          assert segs[..j + 1][..j] == segs[..j];
          assert Get(used, pv) == Get(earlier, pv) + SegmentUse(segs[j], pv);
        }
      }
      forall pv ensures Get(used, pv) == FlatUse(g, g.order[..i + 1], pv) {
        assert g.order[..i + 1][..i] == g.order[..i] && segs[..|segs|] == segs;
      }
    }
    assert g.order[..|g.order|] == g.order;
  }

  method AddSegment(s: Segment, before: map<string, int>) returns (used: map<string, int>)
    ensures forall pv :: Get(used, pv) == Get(before, pv) + SegmentUse(s, pv)
  {
    used := before;
    var areas := Areas(s.stripes);
    for k := 0 to |areas|
      invariant forall pv :: Get(used, pv) == Get(before, pv) + AreasUse(areas[..k], Share(s), pv)
    {
      assert areas[..k + 1][..k] == areas[..k];
      used := used[areas[k] := Get(used, areas[k]) + Share(s)];
    }
    assert areas[..|areas|] == areas;
  }

  // ------------------------------------------------------------------
  // Order does not matter to a count
  // ------------------------------------------------------------------

  lemma {:induction false} InsertUse(sorted: seq<Segment>, s: Segment, pv: string)
    ensures SegmentsUse(Insert(sorted, s), pv) == SegmentsUse(sorted, pv) + SegmentUse(s, pv)
  {
    var n := |sorted| - 1;
    if n < 0 || SegmentNumber(sorted[n]) <= SegmentNumber(s) {
      assert (sorted + [s])[..|sorted|] == sorted;
    } else {
      var front := Insert(sorted[..n], s);
      InsertUse(sorted[..n], s, pv);
      assert (front + [sorted[n]])[..|front|] == front;
    }
  }

  lemma {:induction false} SortedUse(segs: seq<Segment>, pv: string)
    ensures SegmentsUse(SortedSegments(segs), pv) == SegmentsUse(segs, pv)
  {
    if segs != [] {
      var n := |segs| - 1;
      SortedUse(segs[..n], pv);
      InsertUse(SortedSegments(segs[..n]), segs[n], pv);
    }
  }

  lemma {:induction false} FlatAppend(g: Group, a: seq<string>, b: seq<string>, pv: string)
    ensures FlatUse(g, a + b, pv) == FlatUse(g, a, pv) + FlatUse(g, b, pv)
    decreases |b|
  {
    if b == [] {
      assert a + b == a;
    } else {
      var n := |b| - 1;
      assert (a + b)[..|a + b| - 1] == a + b[..n];
      FlatAppend(g, a, b[..n], pv);
    }
  }

  lemma FlatOne(g: Group, name: string, pv: string)
    ensures FlatUse(g, [name], pv) == OwnUse(g, name, pv)
  {
    assert [name][..0] == [];
  }

  function Without(b: seq<string>, k: nat): seq<string>
    requires k < |b|
  {
    b[..k] + b[k + 1..]
  }

  lemma WithoutUse(g: Group, b: seq<string>, k: nat, pv: string)
    requires k < |b|
    ensures multiset(b) == multiset(Without(b, k)) + multiset{b[k]}
    ensures FlatUse(g, b, pv) == FlatUse(g, Without(b, k), pv) + OwnUse(g, b[k], pv)
  {
    var one := [b[k]];
    assert b == b[..k] + (one + b[k + 1..]);
    FlatAppend(g, b[..k], one + b[k + 1..], pv);
    FlatAppend(g, one, b[k + 1..], pv);
    FlatAppend(g, b[..k], b[k + 1..], pv);
    FlatOne(g, b[k], pv);
  }

  lemma {:induction false} FlatPermutation(g: Group, a: seq<string>, b: seq<string>, pv: string)
    requires multiset(a) == multiset(b)
    ensures FlatUse(g, a, pv) == FlatUse(g, b, pv)
    decreases |a|
  {
    if a == [] {
      assert |multiset(b)| == 0;
    } else {
      var n := |a| - 1;
      assert a[n] in multiset(b);
      var k :| 0 <= k < |b| && b[k] == a[n];
      WithoutUse(g, a, n, pv);
      WithoutUse(g, b, k, pv);
      assert multiset(Without(a, n)) == multiset(a) - multiset{a[n]};
      assert multiset(Without(b, k)) == multiset(b) - multiset{b[k]};
      FlatPermutation(g, Without(a, n), Without(b, k), pv);
    }
  }

  // ------------------------------------------------------------------
  // What references place on a PV
  // ------------------------------------------------------------------

  function RefsUse(refs: seq<Ref>, pv: string): int {
    if refs == [] then 0 else RefUse(refs[0], pv) + RefsUse(refs[1..], pv)
  }

  function RefUse(r: Ref, pv: string): int {
    if r.name == pv then r.share.GetOr(0) else 0
  }

  lemma {:induction false} RefsAppend(a: seq<Ref>, b: seq<Ref>, pv: string)
    ensures RefsUse(a + b, pv) == RefsUse(a, pv) + RefsUse(b, pv)
  {
    if a == [] {
      assert a + b == b;
    } else {
      assert (a + b)[1..] == a[1..] + b;
      RefsAppend(a[1..], b, pv);
    }
  }

  lemma {:induction false} AreaRefsUse(areas: seq<string>, share: int, pv: string)
    ensures RefsUse(AreaRefs(areas, share), pv) == AreasUse(areas, share, pv)
  {
    if areas != [] {
      var n := |areas| - 1;
      AreaRefsUse(areas[..n], share, pv);
      RefsAppend(AreaRefs(areas[..n], share), [Ref(areas[n], Some(share))], pv);
    }
  }

  lemma {:induction false} LinkRefsUse(names: seq<string>, pv: string)
    ensures RefsUse(LinkRefs(names), pv) == 0
  {
    if names != [] {
      var n := |names| - 1;
      LinkRefsUse(names[..n], pv);
      RefsAppend(LinkRefs(names[..n]), [Ref(names[n], None)], pv);
    }
  }

  lemma {:induction false} KeyedRefsUse(links: map<string, seq<string>>, keys: seq<string>, pv: string)
    ensures RefsUse(KeyedRefs(links, keys), pv) == 0
  {
    if keys != [] {
      var n := |keys| - 1;
      KeyedRefsUse(links, keys[..n], pv);
      if keys[n] in links {
        LinkRefsUse(links[keys[n]], pv);
        RefsAppend(KeyedRefs(links, keys[..n]), LinkRefs(links[keys[n]]), pv);
      } else {
        RefsAppend(KeyedRefs(links, keys[..n]), [], pv);
      }
    }
  }

  lemma SegmentRefsUse(s: Segment, pv: string)
    ensures RefsUse(Refs(s), pv) == SegmentUse(s, pv)
  {
    AreaRefsUse(Areas(s.stripes), Share(s), pv);
    KeyedRefsUse(s.links, REF_KEYS, pv);
    RefsAppend(AreaRefs(Areas(s.stripes), Share(s)), KeyedRefs(s.links, REF_KEYS), pv);
  }

  lemma {:induction false} AllRefsAppend(segs: seq<Segment>, s: Segment)
    ensures AllRefs(segs + [s]) == AllRefs(segs) + Refs(s)
  {
    if segs == [] {
      assert segs + [s] == [s] && [s][1..] == [];
    } else {
      assert (segs + [s])[1..] == segs[1..] + [s];
      AllRefsAppend(segs[1..], s);
    }
  }

  lemma {:induction false} AllRefsUse(segs: seq<Segment>, pv: string)
    ensures RefsUse(AllRefs(segs), pv) == SegmentsUse(segs, pv)
  {
    if segs != [] {
      var front, last := segs[..|segs| - 1], segs[|segs| - 1];
      assert AllRefs(segs) == AllRefs(front) + Refs(last) by {
        assert segs == front + [last];
        AllRefsAppend(front, last);
      }
      AllRefsUse(front, pv);
      SegmentRefsUse(last, pv);
      RefsAppend(AllRefs(front), Refs(last), pv);
    }
  }

  // ------------------------------------------------------------------
  // A tree is on a PV with what its LVs' own segments place there
  // ------------------------------------------------------------------

  /** The LVs of a tree, one entry for each place they have in it. */
  function LvNames(n: Node): seq<string>
    decreases n, 1
  {
    if n.Pv? then [] else [n.name] + AllLvNames(n.children)
  }

  function AllLvNames(ns: seq<Node>): seq<string>
    decreases ns, 0
  {
    if ns == [] then [] else AllLvNames(ns[..|ns| - 1]) + LvNames(ns[|ns| - 1])
  }

  /** PV names are leaves, LV nodes have other names. */
  predicate Sorted(g: Group, kids: seq<Node>) {
    forall i :: 0 <= i < |kids| ==> (kids[i].Pv? <==> kids[i].name in g.pvs)
  }

  lemma {:induction false} UpdateLeaf(kids: seq<Node>, k: nat, leaf: Node, pv: string)
    requires k < |kids| && kids[k].Pv? && leaf.Pv?
    ensures AllLvNames(kids[k := leaf]) == AllLvNames(kids)
    ensures AllOnPv(kids[k := leaf], pv) == AllOnPv(kids, pv) - OnPv(kids[k], pv) + OnPv(leaf, pv)
  {
    var n := |kids| - 1;
    if k < n {
      assert kids[k := leaf][..n] == kids[..n][k := leaf];
      UpdateLeaf(kids[..n], k, leaf, pv);
    } else {
      assert kids[k := leaf][..n] == kids[..n];
    }
  }

  lemma Appended(kids: seq<Node>, x: Node, pv: string)
    ensures AllLvNames(kids + [x]) == AllLvNames(kids) + LvNames(x)
    ensures AllOnPv(kids + [x], pv) == AllOnPv(kids, pv) + OnPv(x, pv)
  {
    assert (kids + [x])[..|kids|] == kids;
  }

  lemma CreditSorted(g: Group, kids: seq<Node>, name: string, extents: int)
    requires name in g.pvs && Sorted(g, kids)
    ensures Sorted(g, Credit(kids, name, extents))
  {
  }

  lemma CreditUse(g: Group, kids: seq<Node>, name: string, extents: int, pv: string)
    requires name in g.pvs && Sorted(g, kids)
    ensures var more := Credit(kids, name, extents);
            && AllLvNames(more) == AllLvNames(kids)
            && AllOnPv(more, pv) == AllOnPv(kids, pv) + if name == pv then extents else 0
  {
    var k := IndexOf(kids, name);
    if k < |kids| {
      UpdateLeaf(kids, k, Pv(name, kids[k].extents + extents), pv);
    } else {
      Appended(kids, Pv(name, extents), pv);
    }
  }

  /** What `kids` hold on a PV beyond what their LVs' own segments place there. */
  function Excess(g: Group, kids: seq<Node>, pv: string): int {
    AllOnPv(kids, pv) - FlatUse(g, AllLvNames(kids), pv)
  }

  lemma AppendedExcess(g: Group, kids: seq<Node>, x: Node, pv: string)
    requires OnPv(x, pv) == FlatUse(g, LvNames(x), pv)
    ensures Excess(g, kids + [x], pv) == Excess(g, kids, pv)
  {
    Appended(kids, x, pv);
    FlatAppend(g, AllLvNames(kids), LvNames(x), pv);
  }

  lemma {:induction false} TreeUse(g: Group, name: string, depth: nat, pv: string)
    requires name in g.lvs && depth <= MAX_DEPTH && pv in g.pvs
    ensures OnPv(Tree(g, name, depth), pv) == FlatUse(g, LvNames(Tree(g, name, depth)), pv)
    decreases MAX_DEPTH - depth, 1, 0
  {
    var segs := SortedSegments(g.lvs[name].segments);
    var kids := Children(g, depth, AllRefs(segs), []);
    ChildrenUse(g, depth, AllRefs(segs), [], pv);
    AllRefsUse(segs, pv);
    SortedUse(g.lvs[name].segments, pv);
    FlatAppend(g, [name], AllLvNames(kids), pv);
    FlatOne(g, name, pv);
  }

  lemma {:induction false} ChildrenUse(g: Group, depth: nat, refs: seq<Ref>, kids: seq<Node>, pv: string)
    requires depth <= MAX_DEPTH && pv in g.pvs && Sorted(g, kids)
    ensures Excess(g, Children(g, depth, refs, kids), pv) == Excess(g, kids, pv) + RefsUse(refs, pv)
    decreases MAX_DEPTH - depth, 0, |refs|
  {
    if refs != [] {
      AddRefUse(g, depth, refs[0], kids, pv);
      ChildrenUse(g, depth, refs[1..], AddRef(g, depth, refs[0], kids), pv);
    }
  }

  lemma {:induction false} AddRefUse(g: Group, depth: nat, r: Ref, kids: seq<Node>, pv: string)
    requires depth <= MAX_DEPTH && pv in g.pvs && Sorted(g, kids)
    ensures var more := AddRef(g, depth, r, kids);
            Sorted(g, more) && Excess(g, more, pv) == Excess(g, kids, pv) + RefUse(r, pv)
    decreases MAX_DEPTH - depth, 0, 0
  {
    if r.name in g.pvs {
      CreditSorted(g, kids, r.name, r.share.GetOr(0));
      CreditUse(g, kids, r.name, r.share.GetOr(0), pv);
    } else if r.name in g.lvs && !Has(kids, r.name) && depth < MAX_DEPTH {
      TreeUse(g, r.name, depth + 1, pv);
      AppendedExcess(g, kids, Tree(g, r.name, depth + 1), pv);
    }
  }

  // ------------------------------------------------------------------
  // All visible LVs together
  // ------------------------------------------------------------------

  function IsVisible(g: Group, name: string): bool {
    name in g.lvs && g.lvs[name].visible
  }

  /** What the trees of the visible LVs among `names` hold on a PV. */
  function TreesOnPv(g: Group, names: seq<string>, pv: string): int {
    if names == [] then 0
    else
      var x := names[|names| - 1];
      TreesOnPv(g, names[..|names| - 1], pv) + if IsVisible(g, x) then OnPv(Tree(g, x, 0), pv) else 0
  }

  /** The LVs in those trees, one entry for each place they have. */
  function TreesLvNames(g: Group, names: seq<string>): seq<string> {
    if names == [] then []
    else
      var x := names[|names| - 1];
      TreesLvNames(g, names[..|names| - 1]) + if IsVisible(g, x) then LvNames(Tree(g, x, 0)) else []
  }

  /** Whatever the references are, cycles and shared sub-LVs included: the trees hold on a PV
      exactly what the flat count gives when each LV is counted once for each place it has in them. */
  lemma {:induction false} TreesCountPlaces(g: Group, names: seq<string>, pv: string)
    requires pv in g.pvs
    ensures TreesOnPv(g, names, pv) == FlatUse(g, TreesLvNames(g, names), pv)
  {
    if names != [] {
      var n := |names| - 1;
      TreesCountPlaces(g, names[..n], pv);
      if IsVisible(g, names[n]) {
        TreeUse(g, names[n], 0, pv);
        FlatAppend(g, TreesLvNames(g, names[..n]), LvNames(Tree(g, names[n], 0)), pv);
      } else {
        FlatAppend(g, TreesLvNames(g, names[..n]), [], pv);
      }
    }
  }

  // ------------------------------------------------------------------
  // When the references form a forest
  // ------------------------------------------------------------------

  predicate Refers(refs: seq<Ref>, name: string) {
    exists i :: 0 <= i < |refs| && refs[i].name == name
  }

  /** `y` is a sub-LV named by the segments of the LV `x`. */
  predicate SubLv(g: Group, x: string, y: string)
    requires x in g.lvs
  {
    y in g.lvs && y !in g.pvs && Refers(AllRefs(SortedSegments(g.lvs[x].segments)), y)
  }

  /** A parent for every node that is not a root, one level up. */
  ghost predicate Ranked(parent: map<string, string>, level: map<string, nat>) {
    forall y {:trigger parent[y]} :: y in parent ==>
      y in level && parent[y] in level && level[y] == level[parent[y]] + 1
  }

  /** `x` is `y` or one of its ancestors. */
  ghost predicate Under(parent: map<string, string>, level: map<string, nat>, y: string, x: string)
    requires Ranked(parent, level) && y in level
    decreases level[y]
  {
    y == x || (y in parent && Under(parent, level, parent[y], x))
  }

  lemma {:induction false} UnderLevel(parent: map<string, string>, level: map<string, nat>, y: string, x: string)
    requires Ranked(parent, level) && y in level && Under(parent, level, y, x)
    ensures x in level && level[x] <= level[y] && (level[x] == level[y] ==> x == y)
    decreases level[y]
  {
    if y != x {
      UnderLevel(parent, level, parent[y], x);
    }
  }

  lemma {:induction false} UnderUnique(
      parent: map<string, string>, level: map<string, nat>, y: string, a: string, b: string)
    requires Ranked(parent, level) && y in level
    requires Under(parent, level, y, a) && Under(parent, level, y, b)
    requires a in level && b in level && level[a] == level[b]
    ensures a == b
    decreases level[y]
  {
    UnderLevel(parent, level, y, a);
    UnderLevel(parent, level, y, b);
    if y != a && y != b {
      UnderUnique(parent, level, parent[y], a, b);
    }
  }

  /** The child of `x` that `y` is under. */
  lemma {:induction false} Descend(
      parent: map<string, string>, level: map<string, nat>, y: string, x: string) returns (c: string)
    requires Ranked(parent, level) && y in level && y != x && Under(parent, level, y, x)
    ensures c in parent && parent[c] == x && Under(parent, level, y, c)
    decreases level[y]
  {
    if parent[y] == x {
      c := y;
    } else {
      c := Descend(parent, level, parent[y], x);
    }
  }

  lemma {:induction false} UnderParent(parent: map<string, string>, level: map<string, nat>, y: string, c: string)
    requires Ranked(parent, level) && y in level && c in parent && Under(parent, level, y, c)
    ensures y != parent[c] && Under(parent, level, y, parent[c])
    decreases level[y]
  {
    UnderLevel(parent, level, y, c);
    if y != c {
      UnderParent(parent, level, parent[y], c);
    }
  }

  /** `c` is the child of `x` that `y` is under, if there is one. */
  ghost predicate IsBranch(
      parent: map<string, string>, level: map<string, nat>, x: string, y: string, c: Option<string>)
    requires Ranked(parent, level) && y in level
  {
    forall n {:trigger Under(parent, level, y, n)} :: n in parent && parent[n] == x ==>
      (Under(parent, level, y, n) <==> c == Some(n))
  }

  lemma Branch(parent: map<string, string>, level: map<string, nat>, x: string, y: string)
      returns (c: Option<string>)
    requires Ranked(parent, level) && x in level && y in level
    ensures c.Some? <==> y != x && Under(parent, level, y, x)
    ensures c.Some? ==> c.value in parent && parent[c.value] == x
    ensures IsBranch(parent, level, x, y, c)
  {
    c := None;
    if y != x && Under(parent, level, y, x) {
      var d := Descend(parent, level, y, x);
      c := Some(d);
    }
    forall n | n in parent && parent[n] == x
      ensures Under(parent, level, y, n) <==> c == Some(n)
    {
      if Under(parent, level, y, n) {
        UnderParent(parent, level, y, n);
        UnderUnique(parent, level, y, n, c.value);
      }
    }
  }

  /** The visible LVs are the roots, every other LV is named by its parent and by no other LV,
      and no LV is deeper than the depth limit. */
  ghost predicate Forest(g: Group, parent: map<string, string>, level: map<string, nat>) {
    && Ranked(parent, level)
    && level.Keys == g.lvs.Keys
    && (forall x {:trigger x in parent} :: x in g.lvs ==> (x in parent <==> !g.lvs[x].visible))
    && (forall x {:trigger level[x]} :: x in g.lvs ==> level[x] <= MAX_DEPTH && (x !in parent ==> level[x] == 0))
    && (forall x, y {:trigger SubLv(g, x, y)} :: x in g.lvs && y in g.lvs ==>
          (SubLv(g, x, y) <==> y in parent && parent[y] == x))
  }

  // ------------------------------------------------------------------
  // The children of a tree node
  // ------------------------------------------------------------------

  /** Children as `lv_tree` grows them: names once, PVs as leaves, LVs as their own trees. */
  ghost predicate Grown(g: Group, depth: nat, kids: seq<Node>) {
    && depth <= MAX_DEPTH
    && Sorted(g, kids)
    && (forall i, j :: 0 <= i < j < |kids| ==> kids[i].name != kids[j].name)
    && (forall i :: 0 <= i < |kids| && kids[i].Lv? ==>
          depth < MAX_DEPTH && kids[i].name in g.lvs && kids[i] == Tree(g, kids[i].name, depth + 1))
  }

  lemma CreditHas(kids: seq<Node>, name: string, extents: int, n: string)
    ensures Has(Credit(kids, name, extents), n) <==> Has(kids, n) || n == name
  {
    var k := IndexOf(kids, name);
    if k < |kids| {
      IndexUpdate(kids, k, Pv(name, kids[k].extents + extents), n);
    } else {
      IndexAppend(kids, Pv(name, extents), n);
    }
  }

  /** One child at most changes, and it stays the PV it is. */
  lemma CreditAt(kids: seq<Node>, name: string, extents: int, i: nat)
    requires i < |Credit(kids, name, extents)|
    ensures i < |kids| && kids[i].name != name ==> Credit(kids, name, extents)[i] == kids[i]
    ensures i >= |kids| || kids[i].name == name ==> Credit(kids, name, extents)[i].name == name
    ensures i < |kids| ==> Credit(kids, name, extents)[i].name == kids[i].name
    ensures |kids| <= |Credit(kids, name, extents)| <= |kids| + 1
    ensures |Credit(kids, name, extents)| == |kids| + 1 ==> !Has(kids, name)
    ensures Credit(kids, name, extents)[i].Pv? || (i < |kids| && Credit(kids, name, extents)[i] == kids[i])
  {
  }

  lemma CreditGrown(g: Group, depth: nat, kids: seq<Node>, name: string, extents: int)
    requires Grown(g, depth, kids) && name in g.pvs
    ensures Grown(g, depth, Credit(kids, name, extents))
    ensures forall n :: Has(Credit(kids, name, extents), n) <==> Has(kids, n) || n == name
  {
    var more := Credit(kids, name, extents);
    CreditSorted(g, kids, name, extents);
    forall n
      ensures Has(more, n) <==> Has(kids, n) || n == name
    {
      CreditHas(kids, name, extents, n);
    }
    forall i | 0 <= i < |more|
      ensures |kids| <= |more| <= |kids| + 1 && (|more| == |kids| + 1 ==> !Has(kids, name))
      ensures i < |kids| ==> more[i].name == kids[i].name
      ensures i >= |kids| ==> more[i].name == name
      ensures more[i].Pv? || (i < |kids| && more[i] == kids[i])
    {
      CreditAt(kids, name, extents, i);
    }
    assert forall i :: 0 <= i < |kids| && !Has(kids, name) ==> kids[i].name != name;
  }

  lemma AppendGrown(g: Group, depth: nat, kids: seq<Node>, x: Node, n: string)
    requires Grown(g, depth, kids) && x.Lv? && x.name !in g.pvs && !Has(kids, x.name)
    requires depth < MAX_DEPTH && x.name in g.lvs && x == Tree(g, x.name, depth + 1)
    ensures Grown(g, depth, kids + [x])
    ensures Has(kids + [x], n) <==> Has(kids, n) || n == x.name
  {
    IndexAppend(kids, x, n);
  }

  lemma AddRefGrown(g: Group, depth: nat, r: Ref, kids: seq<Node>, n: string)
    requires Grown(g, depth, kids)
    ensures Grown(g, depth, AddRef(g, depth, r, kids))
    ensures n in g.lvs && n !in g.pvs && depth < MAX_DEPTH ==>
              (Has(AddRef(g, depth, r, kids), n) <==> Has(kids, n) || n == r.name)
  {
    if r.name in g.pvs {
      CreditGrown(g, depth, kids, r.name, r.share.GetOr(0));
    } else if r.name in g.lvs && !Has(kids, r.name) && depth < MAX_DEPTH {
      AppendGrown(g, depth, kids, Tree(g, r.name, depth + 1), n);
    }
  }

  lemma {:induction false} ChildrenGrown(g: Group, depth: nat, refs: seq<Ref>, kids: seq<Node>, n: string)
    requires Grown(g, depth, kids)
    ensures Grown(g, depth, Children(g, depth, refs, kids))
    ensures n in g.lvs && n !in g.pvs && depth < MAX_DEPTH ==>
              (Has(Children(g, depth, refs, kids), n) <==> Has(kids, n) || Refers(refs, n))
    decreases |refs|
  {
    if refs != [] {
      AddRefGrown(g, depth, refs[0], kids, n);
      ChildrenGrown(g, depth, refs[1..], AddRef(g, depth, refs[0], kids), n);
      assert Refers(refs, n) <==> refs[0].name == n || Refers(refs[1..], n) by {
        if Refers(refs, n) && refs[0].name != n {
          var i :| 0 <= i < |refs| && refs[i].name == n;
          assert refs[1..][i - 1].name == n;
        }
      }
    }
  }

  /** The children of `x`: PV leaves, and LVs whose parent is `x`, each name once. */
  ghost predicate Siblings(parent: map<string, string>, pvs: set<string>, x: string, kids: seq<Node>) {
    && (forall i :: 0 <= i < |kids| ==> Sibling(parent, pvs, x, kids[i]))
    && (forall i, j :: 0 <= i < j < |kids| ==> kids[i].name != kids[j].name)
  }

  predicate IsChild(parent: map<string, string>, x: string, c: string) {
    c in parent && parent[c] == x
  }

  /** Every LV whose parent is `x` is among the children. */
  ghost predicate HasChildren(parent: map<string, string>, pvs: set<string>, x: string, kids: seq<Node>) {
    forall c :: IsChild(parent, x, c) ==> Has(kids, c) && c !in pvs
  }

  /** Below every LV of the tree stand exactly the LVs whose parent it is. */
  ghost predicate Mirrors(parent: map<string, string>, pvs: set<string>, n: Node)
    decreases n
  {
    n.Lv? ==>
      && Siblings(parent, pvs, n.name, n.children)
      && HasChildren(parent, pvs, n.name, n.children)
      && (forall i :: 0 <= i < |n.children| ==> Mirrors(parent, pvs, n.children[i]))
  }

  /** An LV node that is the tree of its LV at that LV's own level. */
  ghost predicate OwnTree(g: Group, level: map<string, nat>, n: Node) {
    n.Lv? ==> n.name in g.lvs && n.name in level && level[n.name] <= MAX_DEPTH && n == Tree(g, n.name, level[n.name])
  }

  lemma TreeGrown(g: Group, x: string, depth: nat, n: string)
    requires x in g.lvs && depth <= MAX_DEPTH
    ensures var kids := Tree(g, x, depth).children;
            && Grown(g, depth, kids)
            && (n in g.lvs && n !in g.pvs && depth < MAX_DEPTH ==> (Has(kids, n) <==> SubLv(g, x, n)))
  {
    ChildrenGrown(g, depth, AllRefs(SortedSegments(g.lvs[x].segments)), [], n);
  }

  /** One child of `x`, which is PV leaf or LV. */
  ghost predicate Sibling(parent: map<string, string>, pvs: set<string>, x: string, kid: Node) {
    if kid.Pv? then kid.name in pvs else kid.name in parent && parent[kid.name] == x && kid.name !in pvs
  }

  /** A sub-LV's parent is the LV that names it, one level up. */
  lemma ForestChild(g: Group, parent: map<string, string>, level: map<string, nat>, x: string, y: string)
    requires Forest(g, parent, level) && x in g.lvs && y in g.lvs
    ensures SubLv(g, x, y) ==>
              IsChild(parent, x, y) && level[y] == level[x] + 1 && level[y] <= MAX_DEPTH && y !in g.pvs
  {
  }

  lemma OwnTreeOf(g: Group, level: map<string, nat>, kid: Node, depth: nat)
    requires kid.Lv? && depth <= MAX_DEPTH && kid.name in g.lvs && kid == Tree(g, kid.name, depth)
    requires kid.name in level && level[kid.name] == depth
    ensures OwnTree(g, level, kid)
  {
  }

  /** The LVs among the children are sub-LVs of `x`. */
  ghost predicate AreSubs(g: Group, x: string, kids: seq<Node>)
    requires x in g.lvs
  {
    forall i :: 0 <= i < |kids| && kids[i].Lv? ==> kids[i].name in g.lvs && SubLv(g, x, kids[i].name)
  }

  lemma KidSibling(g: Group, parent: map<string, string>, level: map<string, nat>, x: string, kids: seq<Node>, i: nat)
    requires Forest(g, parent, level) && x in g.lvs && i < |kids|
    requires Sorted(g, kids) && AreSubs(g, x, kids)
    ensures Sibling(parent, g.pvs, x, kids[i])
    ensures kids[i].Lv? ==> kids[i].name in level && level[kids[i].name] == level[x] + 1
  {
    if kids[i].Lv? {
      ForestChild(g, parent, level, x, kids[i].name);
    }
  }

  lemma GrownKid(g: Group, depth: nat, kids: seq<Node>, i: nat)
    requires Grown(g, depth, kids) && i < |kids| && kids[i].Lv?
    ensures depth < MAX_DEPTH && kids[i].name in g.lvs && kids[i] == Tree(g, kids[i].name, depth + 1)
    ensures kids[i].name !in g.pvs && Has(kids, kids[i].name)
  {
  }

  lemma GrownOwnTree(g: Group, level: map<string, nat>, depth: nat, kids: seq<Node>, i: nat)
    requires Grown(g, depth, kids) && i < |kids|
    requires kids[i].Lv? ==> kids[i].name in level && level[kids[i].name] == depth + 1
    ensures OwnTree(g, level, kids[i])
  {
    if kids[i].Lv? {
      GrownKid(g, depth, kids, i);
      OwnTreeOf(g, level, kids[i], depth + 1);
    }
  }

  lemma GrownSibling(g: Group, parent: map<string, string>, level: map<string, nat>, x: string, kids: seq<Node>, i: nat)
    requires Forest(g, parent, level) && x in g.lvs && i < |kids|
    requires Grown(g, level[x], kids) && AreSubs(g, x, kids)
    ensures Sibling(parent, g.pvs, x, kids[i]) && OwnTree(g, level, kids[i])
  {
    KidSibling(g, parent, level, x, kids, i);
    GrownOwnTree(g, level, level[x], kids, i);
  }

  lemma KidsSiblings(g: Group, parent: map<string, string>, level: map<string, nat>, x: string, kids: seq<Node>)
    requires Forest(g, parent, level) && x in g.lvs
    requires Grown(g, level[x], kids) && AreSubs(g, x, kids)
    ensures Siblings(parent, g.pvs, x, kids)
    ensures forall i :: 0 <= i < |kids| ==> OwnTree(g, level, kids[i])
  {
    forall i | 0 <= i < |kids|
      ensures Sibling(parent, g.pvs, x, kids[i]) && OwnTree(g, level, kids[i])
    {
      GrownSibling(g, parent, level, x, kids, i);
    }
  }

  lemma TreeSubs(g: Group, x: string, depth: nat)
    requires x in g.lvs && depth <= MAX_DEPTH
    ensures Grown(g, depth, Tree(g, x, depth).children) && AreSubs(g, x, Tree(g, x, depth).children)
  {
    var kids := Tree(g, x, depth).children;
    TreeGrown(g, x, depth, x);
    forall i | 0 <= i < |kids| && kids[i].Lv?
      ensures kids[i].name in g.lvs && SubLv(g, x, kids[i].name)
    {
      GrownKid(g, depth, kids, i);
      TreeGrown(g, x, depth, kids[i].name);
    }
  }

  lemma TreeSiblings(g: Group, parent: map<string, string>, level: map<string, nat>, x: string)
    requires Forest(g, parent, level) && x in g.lvs
    ensures var kids := Tree(g, x, level[x]).children;
            && Siblings(parent, g.pvs, x, kids)
            && forall i :: 0 <= i < |kids| ==> OwnTree(g, level, kids[i])
  {
    TreeSubs(g, x, level[x]);
    KidsSiblings(g, parent, level, x, Tree(g, x, level[x]).children);
  }

  lemma TreeHasChild(g: Group, parent: map<string, string>, level: map<string, nat>, x: string, c: string)
    requires Forest(g, parent, level) && x in g.lvs && IsChild(parent, x, c)
    ensures Has(Tree(g, x, level[x]).children, c) && c !in g.pvs
  {
    assert SubLv(g, x, c) && level[c] <= MAX_DEPTH;
    TreeGrown(g, x, level[x], c);
  }

  lemma TreeHasChildren(g: Group, parent: map<string, string>, level: map<string, nat>, x: string)
    requires Forest(g, parent, level) && x in g.lvs
    ensures HasChildren(parent, g.pvs, x, Tree(g, x, level[x]).children)
  {
    forall c | IsChild(parent, x, c)
      ensures Has(Tree(g, x, level[x]).children, c) && c !in g.pvs
    {
      TreeHasChild(g, parent, level, x, c);
    }
  }

  /** In a forest the tree of an LV mirrors it: the depth limit cuts nothing off. */
  lemma {:induction false} TreeMirrors(g: Group, parent: map<string, string>, level: map<string, nat>, n: Node)
    requires Forest(g, parent, level) && OwnTree(g, level, n)
    ensures Mirrors(parent, g.pvs, n)
    decreases n
  {
    if n.Lv? {
      TreeSiblings(g, parent, level, n.name);
      TreeHasChildren(g, parent, level, n.name);
      forall i | 0 <= i < |n.children|
        ensures Mirrors(parent, g.pvs, n.children[i])
      {
        TreeMirrors(g, parent, level, n.children[i]);
      }
    }
  }

  // ------------------------------------------------------------------
  // Every LV has exactly one place in the trees
  // ------------------------------------------------------------------

  /** How often `y` occurs below and at an LV: once if it is under it, else never. */
  lemma {:induction false} PlacesInNode(
      parent: map<string, string>, level: map<string, nat>, pvs: set<string>, n: Node, y: string)
    requires Ranked(parent, level) && y in level && n.Lv? && n.name in level
    requires Mirrors(parent, pvs, n)
    ensures multiset(LvNames(n))[y] == if Under(parent, level, y, n.name) then 1 else 0
    decreases n, 1
  {
    var c := Branch(parent, level, n.name, y);
    if c.Some? {
      assert IsChild(parent, n.name, c.value);
    }
    PlacesInKids(parent, level, pvs, n.name, n.children, y, c);
  }

  lemma {:induction false} PlacesInKids(
      parent: map<string, string>, level: map<string, nat>, pvs: set<string>, x: string, kids: seq<Node>, y: string,
      c: Option<string>)
    requires Ranked(parent, level) && y in level
    requires Siblings(parent, pvs, x, kids) && forall i :: 0 <= i < |kids| ==> Mirrors(parent, pvs, kids[i])
    requires IsBranch(parent, level, x, y, c) && (c.Some? ==> c.value !in pvs)
    ensures multiset(AllLvNames(kids))[y] == if c.Some? && Has(kids, c.value) then 1 else 0
    decreases kids, 0
  {
    if kids != [] {
      var n := |kids| - 1;
      var front, last := kids[..n], kids[n];
      PlacesInKids(parent, level, pvs, x, front, y, c);
      assert Sibling(parent, pvs, x, last);
      if last.Lv? {
        PlacesInNode(parent, level, pvs, last, y);
      }
      if c.Some? {
        HasOfLast(kids, c.value);
      }
    }
  }

  /** With names that differ, a name is one of the first children's or the last one's. */
  lemma HasOfLast(kids: seq<Node>, z: string)
    requires kids != [] && forall i, j :: 0 <= i < j < |kids| ==> kids[i].name != kids[j].name
    ensures var front, last := kids[..|kids| - 1], kids[|kids| - 1];
            (Has(kids, z) <==> Has(front, z) || last.name == z) && !(Has(front, z) && last.name == z)
  {
    var front, last := kids[..|kids| - 1], kids[|kids| - 1];
    assert kids == front + [last];
    IndexAppend(front, last, z);
    assert Has(front, z) ==> kids[IndexOf(front, z)].name != last.name;
  }

  lemma {:induction false} RootOf(
      g: Group, parent: map<string, string>, level: map<string, nat>, y: string) returns (r: string)
    requires Forest(g, parent, level) && y in g.lvs
    ensures IsVisible(g, r) && Under(parent, level, y, r)
    decreases level[y]
  {
    if y in parent {
      r := RootOf(g, parent, level, parent[y]);
    } else {
      r := y;
    }
  }

  lemma VisibleLevel(g: Group, parent: map<string, string>, level: map<string, nat>, x: string)
    requires Forest(g, parent, level) && IsVisible(g, x)
    ensures x in level && level[x] == 0
  {
    assert x !in parent;
  }

  lemma PlacesInVisible(
      g: Group, parent: map<string, string>, level: map<string, nat>, x: string, y: string, r: string)
    requires Forest(g, parent, level) && y in g.lvs && IsVisible(g, x)
    requires IsVisible(g, r) && Under(parent, level, y, r)
    ensures multiset(LvNames(Tree(g, x, 0)))[y] == if x == r then 1 else 0
  {
    VisibleLevel(g, parent, level, x);
    VisibleLevel(g, parent, level, r);
    TreeMirrors(g, parent, level, Tree(g, x, 0));
    PlacesInNode(parent, level, g.pvs, Tree(g, x, 0), y);
    if Under(parent, level, y, x) {
      UnderUnique(parent, level, y, x, r);
    }
  }

  /** The LVs in the tree of `x`, if it is visible. */
  function TreeNames(g: Group, x: string): seq<string> {
    if IsVisible(g, x) then LvNames(Tree(g, x, 0)) else []
  }

  function Concat(f: string -> seq<string>, names: seq<string>): seq<string> {
    if names == [] then [] else Concat(f, names[..|names| - 1]) + f(names[|names| - 1])
  }

  lemma {:induction false} PlacesConcat(g: Group, names: seq<string>)
    ensures TreesLvNames(g, names) == Concat(x => TreeNames(g, x), names)
  {
    if names != [] {
      PlacesConcat(g, names[..|names| - 1]);
    }
  }

  lemma {:induction false} InOneOf(f: string -> seq<string>, names: seq<string>, y: string, r: string)
    requires forall i, j :: 0 <= i < j < |names| ==> names[i] != names[j]
    requires forall i :: 0 <= i < |names| ==> multiset(f(names[i]))[y] == if names[i] == r then 1 else 0
    ensures multiset(Concat(f, names))[y] == if r in names then 1 else 0
  {
    if names != [] {
      var n := |names| - 1;
      InOneOf(f, names[..n], y, r);
      assert names == names[..n] + [names[n]];
      assert names[n] !in names[..n];
    }
  }

  lemma PlacesInTrees(
      g: Group, parent: map<string, string>, level: map<string, nat>, names: seq<string>, y: string, r: string)
    requires Forest(g, parent, level) && y in g.lvs
    requires IsVisible(g, r) && Under(parent, level, y, r)
    requires forall i, j :: 0 <= i < j < |names| ==> names[i] != names[j]
    ensures multiset(TreesLvNames(g, names))[y] == if r in names then 1 else 0
  {
    var f := x => TreeNames(g, x);
    forall i | 0 <= i < |names|
      ensures multiset(f(names[i]))[y] == if names[i] == r then 1 else 0
    {
      if IsVisible(g, names[i]) {
        PlacesInVisible(g, parent, level, names[i], y, r);
      }
    }
    PlacesConcat(g, names);
    InOneOf(f, names, y, r);
  }

  lemma {:induction false} TreeNamesKnown(g: Group, name: string, depth: nat)
    requires name in g.lvs && depth <= MAX_DEPTH
    ensures forall y :: y in LvNames(Tree(g, name, depth)) ==> y in g.lvs
    decreases MAX_DEPTH - depth, 1, 0
  {
    ChildrenNamesKnown(g, depth, AllRefs(SortedSegments(g.lvs[name].segments)), []);
  }

  ghost predicate NamesKnown(g: Group, kids: seq<Node>) {
    forall y :: y in AllLvNames(kids) ==> y in g.lvs
  }

  lemma {:induction false} ChildrenNamesKnown(g: Group, depth: nat, refs: seq<Ref>, kids: seq<Node>)
    requires depth <= MAX_DEPTH && Sorted(g, kids) && NamesKnown(g, kids)
    ensures NamesKnown(g, Children(g, depth, refs, kids))
    decreases MAX_DEPTH - depth, 0, |refs|
  {
    if refs != [] {
      AddRefNamesKnown(g, depth, refs[0], kids);
      ChildrenNamesKnown(g, depth, refs[1..], AddRef(g, depth, refs[0], kids));
    }
  }

  lemma NamesAppended(g: Group, kids: seq<Node>, x: Node)
    requires NamesKnown(g, kids) && forall y :: y in LvNames(x) ==> y in g.lvs
    ensures NamesKnown(g, kids + [x])
  {
    Appended(kids, x, "");
  }

  lemma CreditNamesKnown(g: Group, kids: seq<Node>, name: string, extents: int)
    requires name in g.pvs && Sorted(g, kids) && NamesKnown(g, kids)
    ensures Sorted(g, Credit(kids, name, extents)) && NamesKnown(g, Credit(kids, name, extents))
  {
    CreditSorted(g, kids, name, extents);
    CreditUse(g, kids, name, extents, name);
  }

  lemma {:induction false} AddRefNamesKnown(g: Group, depth: nat, r: Ref, kids: seq<Node>)
    requires depth <= MAX_DEPTH && Sorted(g, kids) && NamesKnown(g, kids)
    ensures Sorted(g, AddRef(g, depth, r, kids)) && NamesKnown(g, AddRef(g, depth, r, kids))
    decreases MAX_DEPTH - depth, 0, 0
  {
    if r.name in g.pvs {
      CreditNamesKnown(g, kids, r.name, r.share.GetOr(0));
    } else if r.name in g.lvs && !Has(kids, r.name) && depth < MAX_DEPTH {
      TreeNamesKnown(g, r.name, depth + 1);
      NamesAppended(g, kids, Tree(g, r.name, depth + 1));
    }
  }

  lemma {:induction false} TreesNamesKnown(g: Group, names: seq<string>)
    ensures forall y :: y in TreesLvNames(g, names) ==> y in g.lvs
  {
    if names != [] {
      var n := |names| - 1;
      TreesNamesKnown(g, names[..n]);
      if IsVisible(g, names[n]) {
        TreeNamesKnown(g, names[n], 0);
      }
    }
  }

  lemma OnePlaceEach(g: Group, parent: map<string, string>, level: map<string, nat>)
    requires g.Valid() && Forest(g, parent, level)
    ensures multiset(TreesLvNames(g, g.order)) == multiset(g.order)
  {
    TreesNamesKnown(g, g.order);
    forall y ensures multiset(TreesLvNames(g, g.order))[y] == multiset(g.order)[y] {
      if y in g.lvs {
        var r := RootOf(g, parent, level, y);
        PlacesInTrees(g, parent, level, g.order, y, r);
        OnceInOrder(g.order, y);
      }
    }
  }

  lemma {:induction false} OnceInOrder(order: seq<string>, y: string)
    requires y in order && forall i, j :: 0 <= i < j < |order| ==> order[i] != order[j]
    ensures multiset(order)[y] == 1
  {
    var n := |order| - 1;
    assert order == order[..n] + [order[n]];
    if y in order[..n] {
      OnceInOrder(order[..n], y);
    }
  }

  /** In a forest, what the visible LVs' trees hold on a PV is what the flat count says is used of it. */
  lemma TreesAgreeWithFlatCount(g: Group, parent: map<string, string>, level: map<string, nat>, pv: string)
    requires g.Valid() && Forest(g, parent, level) && pv in g.pvs
    ensures TreesOnPv(g, g.order, pv) == FlatUse(g, g.order, pv)
  {
    TreesCountPlaces(g, g.order, pv);
    OnePlaceEach(g, parent, level);
    FlatPermutation(g, TreesLvNames(g, g.order), g.order, pv);
  }
}
