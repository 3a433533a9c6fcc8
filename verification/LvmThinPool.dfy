/** A thin pool, a volume in it and the pool's hidden sub-LVs, as LVM writes them: metadata for which the trees and the
    flat count differ (src/sensors2mqtt/collector/storage/lvm.py; the metadata is that of
    tests/test_storage_lvm.py, `test_thin_lv_tree_reaches_the_pool_pvs`). */
module LvmThinPool {
  import opened LvmTree
  import opened LvmUsage
  import opened LvmSharing
  import opened Wrappers

  // ------------------------------------------------------------------
  // What a segment names
  // ------------------------------------------------------------------

  lemma RefersAppend(a: seq<Ref>, b: seq<Ref>, y: string)
    ensures Refers(a + b, y) <==> Refers(a, y) || Refers(b, y)
  {
    if Refers(a, y) {
      var i :| 0 <= i < |a| && a[i].name == y;
      assert (a + b)[i].name == y;
    }
    if Refers(b, y) {
      var i :| 0 <= i < |b| && b[i].name == y;
      assert (a + b)[|a| + i].name == y;
    }
  }

  lemma RefersOne(r: Ref, y: string)
    ensures Refers([r], y) <==> r.name == y
  {
    assert [r][0] == r;
  }

  lemma {:induction false} AreaRefers(areas: seq<string>, share: int, y: string)
    ensures Refers(AreaRefs(areas, share), y) <==> y in areas
  {
    if areas != [] {
      var front, last := areas[..|areas| - 1], areas[|areas| - 1];
      AreaRefers(front, share, y);
      RefersOne(Ref(last, Some(share)), y);
      RefersAppend(AreaRefs(front, share), [Ref(last, Some(share))], y);
      assert areas == front + [last];
    }
  }

  lemma {:induction false} LinkRefers(names: seq<string>, y: string)
    ensures Refers(LinkRefs(names), y) <==> y in names
  {
    if names != [] {
      var front, last := names[..|names| - 1], names[|names| - 1];
      LinkRefers(front, y);
      RefersOne(Ref(last, None), y);
      RefersAppend(LinkRefs(front), [Ref(last, None)], y);
      assert names == front + [last];
    }
  }

  predicate Links(links: map<string, seq<string>>, keys: seq<string>, y: string) {
    exists key :: key in keys && key in links && y in links[key]
  }

  lemma {:induction false} KeyedRefers(links: map<string, seq<string>>, keys: seq<string>, y: string)
    ensures Refers(KeyedRefs(links, keys), y) <==> Links(links, keys, y)
  {
    if keys != [] {
      var front, key := keys[..|keys| - 1], keys[|keys| - 1];
      var back: seq<Ref> := if key in links then LinkRefs(links[key]) else [];
      KeyedRefers(links, front, y);
      if key in links {
        LinkRefers(links[key], y);
      }
      RefersAppend(KeyedRefs(links, front), back, y);
      assert keys == front + [key];
    }
  }

  /** The sub-LVs of an LV of one segment are the LVs its areas and its reference keys name. */
  lemma OneSegmentSubs(g: Group, x: string, s: Segment, y: string)
    requires x in g.lvs && g.lvs[x].segments == [s]
    ensures SubLv(g, x, y)
       <==> y in g.lvs && y !in g.pvs && (y in Areas(s.stripes) || Links(s.links, REF_KEYS, y))
  {
    var areas, keyed := AreaRefs(Areas(s.stripes), Share(s)), KeyedRefs(s.links, REF_KEYS);
    assert SortedSegments([s]) == [s] by {
      assert [s][..0] == [];
    }
    assert AllRefs([s]) == areas + keyed by {
      assert [s][1..] == [];
    }
    AreaRefers(Areas(s.stripes), Share(s), y);
    KeyedRefers(s.links, REF_KEYS, y);
    RefersAppend(areas, keyed, y);
  }

  /** The keys under which LVM names what a segment is built from. */
  predicate IsReferenceKey(key: string) {
    || key == "raids" || key == "mirrors" || key == "log" || key == "mirror_log"               // RAID and mirrors
    || key == "origin" || key == "external_origin" || key == "thin_pool" || key == "pool"      // snapshots, thin
    || key == "data" || key == "metadata" || key == "meta_dev"
    || key == "cache_pool" || key == "writecache" || key == "vdo_pool"                         // caches, VDO
  }

  /** A name under one of these keys, and under no other, is a sub-LV. */
  lemma NamedUnder(g: Group, x: string, s: Segment, key: string, y: string)
    requires x in g.lvs && g.lvs[x].segments == [s] && s.stripes == [] && s.links == map[key := [y]]
    requires y in g.lvs && y !in g.pvs
    ensures SubLv(g, x, y) <==> IsReferenceKey(key)
  {
    OneSegmentSubs(g, x, s, y);
    NoAreas(s);
    ReferenceKeyAt(key);
    if IsReferenceKey(key) {
      var i :| 0 <= i < |REF_KEYS| && REF_KEYS[i] == key;
      LinksBy(s.links, i, y);
    }
  }

  lemma ReferenceKeyAt(key: string)
    ensures IsReferenceKey(key) <==> exists i :: 0 <= i < |REF_KEYS| && REF_KEYS[i] == key
  {
    assert REF_KEYS[0] == "raids" && REF_KEYS[1] == "mirrors" && REF_KEYS[2] == "origin" && REF_KEYS[3] == "meta_dev";
    assert REF_KEYS[4] == "cache_pool" && REF_KEYS[5] == "pool" && REF_KEYS[6] == "thin_pool" && REF_KEYS[7] == "data";
    assert REF_KEYS[8] == "metadata" && REF_KEYS[9] == "log" && REF_KEYS[10] == "mirror_log";
    assert REF_KEYS[11] == "external_origin" && REF_KEYS[12] == "writecache" && REF_KEYS[13] == "vdo_pool";
  }

  // ------------------------------------------------------------------
  // The shape of the references
  // ------------------------------------------------------------------

  /** A visible volume in a visible pool with two hidden sub-LVs, and hidden LVs nothing refers to. */
  ghost predicate IsThin(g: Group, thin: string, pool: string, data: string, meta: string, spares: seq<string>) {
    && g.Valid() && g.order == [thin, pool, data, meta] + spares
    && (forall x :: x in g.lvs ==> (g.lvs[x].visible <==> x == thin || x == pool))
    && (forall x, z {:trigger SubLv(g, x, z)} :: x in g.lvs && z in g.lvs ==>
          (SubLv(g, x, z) <==> (x == thin && z == pool) || (x == pool && (z == data || z == meta))))
  }

  lemma {:induction false} SumAppend(f: string -> int, a: seq<string>, b: seq<string>)
    ensures Sum(f, a + b) == Sum(f, a) + Sum(f, b)
    decreases |b|
  {
    if b == [] {
      assert a + b == a;
    } else {
      assert (a + b)[..|a + b| - 1] == a + b[..|b| - 1];
      SumAppend(f, a, b[..|b| - 1]);
    }
  }

  lemma SumFour(f: string -> int, a: string, b: string, c: string, d: string)
    ensures Sum(f, [a, b, c, d]) == f(a) + f(b) + f(c) + f(d)
  {
    assert [a][..0] == [];
    assert Sum(f, [a]) == f(a);
    assert [a, b][..1] == [a];
    assert Sum(f, [a, b]) == f(a) + f(b);
    assert [a, b, c][..2] == [a, b];
    assert Sum(f, [a, b, c]) == f(a) + f(b) + f(c);
    assert [a, b, c, d][..3] == [a, b, c];
  }

  lemma SumFirstFour(f: string -> int, a: string, b: string, c: string, d: string, more: seq<string>)
    requires forall x :: x in more ==> f(x) == 0
    ensures Sum(f, [a, b, c, d] + more) == f(a) + f(b) + f(c) + f(d)
  {
    SumAppend(f, [a, b, c, d], more);
    SumFour(f, a, b, c, d);
    SumZero(f, more);
  }

  /** The paths from each of the LVs to `y`, which is not one of the spares. */
  lemma ThinPathsVia(g: Group, thin: string, pool: string, data: string, meta: string, spares: seq<string>,
                     x: string, y: string, depth: nat)
    requires IsThin(g, thin, pool, data, meta, spares) && x in g.lvs && depth < MAX_DEPTH
    ensures Paths(g, x, y, depth)
         == (if x == y then 1 else 0)
            + Through(g, x, y, depth, thin) + Through(g, x, y, depth, pool)
            + Through(g, x, y, depth, data) + Through(g, x, y, depth, meta)
  {
    var f := z => Through(g, x, y, depth, z);
    ViaIsSum(g, g.order, x, y, depth, f);
    forall z | z in spares
      ensures f(z) == 0
    {
      SpareApart(g, thin, pool, data, meta, spares, z);
    }
    SumFirstFour(f, thin, pool, data, meta, spares);
  }

  lemma SpareApart(g: Group, thin: string, pool: string, data: string, meta: string, spares: seq<string>, z: string)
    requires IsThin(g, thin, pool, data, meta, spares) && z in spares
    ensures z in g.lvs && z != thin && z != pool && z != data && z != meta
  {
    var k :| 0 <= k < |spares| && spares[k] == z;
    assert g.order[0] == thin && g.order[1] == pool && g.order[2] == data && g.order[3] == meta;
    assert g.order[4 + k] == z;
  }

  lemma FourDiffer(g: Group, thin: string, pool: string, data: string, meta: string, spares: seq<string>)
    requires IsThin(g, thin, pool, data, meta, spares)
    ensures thin in g.lvs && pool in g.lvs && data in g.lvs && meta in g.lvs
    ensures thin != pool && thin != data && thin != meta && pool != data && pool != meta && data != meta
  {
    assert g.order[0] == thin && g.order[1] == pool && g.order[2] == data && g.order[3] == meta;
  }

  /** From a hidden sub-LV of the pool no other LV is reached. */
  lemma LeafPaths(g: Group, thin: string, pool: string, data: string, meta: string, spares: seq<string>,
                  x: string, y: string, depth: nat)
    requires IsThin(g, thin, pool, data, meta, spares) && (x == data || x == meta) && x in g.lvs && depth < MAX_DEPTH
    ensures Paths(g, x, y, depth) == if x == y then 1 else 0
  {
    FourDiffer(g, thin, pool, data, meta, spares);
    ThinPathsVia(g, thin, pool, data, meta, spares, x, y, depth);
  }

  /** Through an LV that `x` does not name no path leads. */
  lemma NotThrough(g: Group, thin: string, pool: string, data: string, meta: string, spares: seq<string>,
                   x: string, z: string, y: string, depth: nat)
    requires IsThin(g, thin, pool, data, meta, spares) && x in g.lvs && depth < MAX_DEPTH
    requires !(x == thin && z == pool) && !(x == pool && (z == data || z == meta))
    ensures Through(g, x, y, depth, z) == 0
  {
  }

  lemma PoolNames(g: Group, thin: string, pool: string, data: string, meta: string, spares: seq<string>, z: string)
    requires IsThin(g, thin, pool, data, meta, spares) && (z == data || z == meta)
    ensures z in g.lvs && pool in g.lvs && SubLv(g, pool, z)
  {
    FourDiffer(g, thin, pool, data, meta, spares);
  }

  lemma ThroughLeaf(g: Group, thin: string, pool: string, data: string, meta: string, spares: seq<string>,
                    z: string, y: string, depth: nat)
    requires IsThin(g, thin, pool, data, meta, spares) && pool in g.lvs && (z == data || z == meta)
    requires depth < MAX_DEPTH - 1
    ensures Through(g, pool, y, depth, z) == if z == y then 1 else 0
  {
    PoolNames(g, thin, pool, data, meta, spares, z);
    ThroughIsPaths(g, pool, y, depth, z);
    LeafPaths(g, thin, pool, data, meta, spares, z, y, depth + 1);
  }

  lemma PoolPaths(g: Group, thin: string, pool: string, data: string, meta: string, spares: seq<string>,
                  y: string, depth: nat)
    requires IsThin(g, thin, pool, data, meta, spares) && pool in g.lvs && depth < MAX_DEPTH - 1
    ensures Paths(g, pool, y, depth) == if y == pool || y == data || y == meta then 1 else 0
  {
    FourDiffer(g, thin, pool, data, meta, spares);
    ThinPathsVia(g, thin, pool, data, meta, spares, pool, y, depth);
    NotThrough(g, thin, pool, data, meta, spares, pool, thin, y, depth);
    NotThrough(g, thin, pool, data, meta, spares, pool, pool, y, depth);
    ThroughLeaf(g, thin, pool, data, meta, spares, data, y, depth);
    ThroughLeaf(g, thin, pool, data, meta, spares, meta, y, depth);
  }

  lemma VolumePaths(g: Group, thin: string, pool: string, data: string, meta: string, spares: seq<string>, y: string)
    requires IsThin(g, thin, pool, data, meta, spares) && thin in g.lvs && y != thin
    ensures Paths(g, thin, y, 0) == if y == pool || y == data || y == meta then 1 else 0
  {
    FourDiffer(g, thin, pool, data, meta, spares);
    ThinPathsVia(g, thin, pool, data, meta, spares, thin, y, 0);
    PoolPaths(g, thin, pool, data, meta, spares, y, 1);
  }

  /** A hidden sub-LV of the pool is reached through the pool and through the volume; a spare is not reached. */
  lemma ThinPaths(g: Group, thin: string, pool: string, data: string, meta: string, spares: seq<string>, y: string)
    requires IsThin(g, thin, pool, data, meta, spares) && y in g.lvs && y != thin && y != pool
    ensures PathsTo(g, y) == if y == data || y == meta then 2 else 0
  {
    FourDiffer(g, thin, pool, data, meta, spares);
    VolumePaths(g, thin, pool, data, meta, spares, y);
    PoolPaths(g, thin, pool, data, meta, spares, y, 0);
    var f := x => PathsFrom(g, x, y);
    forall x | x in spares
      ensures f(x) == 0
    {
      SpareApart(g, thin, pool, data, meta, spares, x);
    }
    SumFirstFour(f, thin, pool, data, meta, spares);
  }

  /** If volume and pool have no extents of their own, the trees hold the pool's sub-LVs twice and no spare. */
  lemma ThinDifference(g: Group, thin: string, pool: string, data: string, meta: string, spares: seq<string>,
                       pv: string)
    requires IsThin(g, thin, pool, data, meta, spares) && pv in g.pvs
    requires OwnUse(g, thin, pv) == OwnUse(g, pool, pv) == 0
    ensures TreesOnPv(g, g.order, pv) == 2 * (OwnUse(g, data, pv) + OwnUse(g, meta, pv))
    ensures FlatUse(g, g.order, pv)
         == OwnUse(g, data, pv) + OwnUse(g, meta, pv) + Sum(x => OwnUse(g, x, pv), spares)
  {
    var four, use := [thin, pool, data, meta], x => OwnUse(g, x, pv);
    var surplus, unplaced := x => SurplusOf(g, x, pv), x => UnplacedOf(g, x, pv);
    FourDiffer(g, thin, pool, data, meta, spares);
    ThinPaths(g, thin, pool, data, meta, spares, data);
    ThinPaths(g, thin, pool, data, meta, spares, meta);
    forall x | x in spares
      ensures surplus(x) == 0 && unplaced(x) == use(x)
    {
      SpareApart(g, thin, pool, data, meta, spares, x);
      ThinPaths(g, thin, pool, data, meta, spares, x);
    }
    SumFirstFour(surplus, thin, pool, data, meta, spares);
    SumAppend(unplaced, four, spares);
    SumFour(unplaced, thin, pool, data, meta);
    SumSame(unplaced, use, spares);
    FlatIsSum(g, g.order, pv);
    SumAppend(use, four, spares);
    SumFour(use, thin, pool, data, meta);
    TreesAgainstFlat(g, pv);
  }

  // ------------------------------------------------------------------
  // The metadata
  // ------------------------------------------------------------------

  function ThinSegment(): Segment {
    Segment("segment1", 50, [], map["thin_pool" := ["pool"]])
  }

  function PoolSegment(): Segment {
    Segment("segment1", 10, [], map["metadata" := ["pool_tmeta"], "pool" := ["pool_tdata"]])
  }

  /** A linear segment of `count` extents on the PV `pv0`. */
  function LinearSegment(count: int, start: string): Segment {
    Segment("segment1", count, ["pv0", start], map[])
  }

  function Volumes(): map<string, Volume> {
    map["thin1" := Volume(true, [ThinSegment()]), "pool" := Volume(true, [PoolSegment()]),
        "pool_tdata" := Volume(false, [LinearSegment(10, "0")]),
        "pool_tmeta" := Volume(false, [LinearSegment(1, "10")])]
  }

  const ORDER: seq<string> := ["thin1", "pool", "pool_tdata", "pool_tmeta"]

  function ThinPool(): Group {
    Group(Volumes(), ORDER, {"pv0"})
  }

  /** The same with the hidden spare of `count` extents that LVM keeps beside its pools. */
  function WithSpare(count: int): Group {
    Group(Volumes()["lvol0_pmspare" := Volume(false, [LinearSegment(count, "11")])], ORDER + ["lvol0_pmspare"], {"pv0"})
  }

  lemma LinearSegmentIs(count: int, start: string)
    ensures Areas(LinearSegment(count, start).stripes) == ["pv0"]
    ensures SegmentsUse([LinearSegment(count, start)], "pv0") == count
  {
    var s := LinearSegment(count, start);
    assert s.stripes[2..] == [];
    assert Areas(s.stripes) == ["pv0"];
    assert ["pv0"][..0] == [];
    assert AreasUse(["pv0"], count, "pv0") == count;
    assert [s][..0] == [];
    assert SegmentsUse([s], "pv0") == SegmentUse(s, "pv0");
  }

  lemma NoAreas(s: Segment)
    requires s.stripes == []
    ensures Areas(s.stripes) == [] && SegmentsUse([s], "pv0") == 0
  {
    assert [s][..0] == [];
  }

  lemma LinksBy(links: map<string, seq<string>>, i: nat, y: string)
    requires i < |REF_KEYS| && REF_KEYS[i] in links && y in links[REF_KEYS[i]]
    ensures Links(links, REF_KEYS, y)
  {
    assert REF_KEYS[i] in REF_KEYS;
  }

  /** The LVs `pool` and `thin1` name; `thin_pool`, `pool` and `metadata` are reference keys. */
  lemma SegmentLinks(y: string)
    ensures Links(ThinSegment().links, REF_KEYS, y) <==> y == "pool"
    ensures Links(PoolSegment().links, REF_KEYS, y) <==> y == "pool_tdata" || y == "pool_tmeta"
    ensures !Links(map[], REF_KEYS, y)
  {
    if y == "pool" {
      LinksBy(ThinSegment().links, 6, y);
    } else if y == "pool_tdata" {
      LinksBy(PoolSegment().links, 5, y);
    } else if y == "pool_tmeta" {
      LinksBy(PoolSegment().links, 8, y);
    }
  }

  /** A group with these volumes, and linear hidden ones beside them. */
  ghost predicate Holds(g: Group, spares: seq<string>) {
    && g.Valid() && g.order == ORDER + spares && g.pvs == {"pv0"} && "pv0" !in g.lvs
    && IsVolume(g, "thin1", true, ThinSegment()) && IsVolume(g, "pool", true, PoolSegment())
    && IsVolume(g, "pool_tdata", false, LinearSegment(10, "0"))
    && IsVolume(g, "pool_tmeta", false, LinearSegment(1, "10"))
    && forall x :: x in spares ==> exists n, start :: IsVolume(g, x, false, LinearSegment(n, start))
  }

  predicate IsVolume(g: Group, x: string, visible: bool, s: Segment) {
    x in g.lvs && g.lvs[x] == Volume(visible, [s])
  }

  lemma LinearHasNoSubs(g: Group, x: string, count: int, start: string, z: string)
    requires x in g.lvs && g.lvs[x].segments == [LinearSegment(count, start)] && "pv0" in g.pvs
    ensures !SubLv(g, x, z)
  {
    LinearSegmentIs(count, start);
    SegmentLinks(z);
    OneSegmentSubs(g, x, LinearSegment(count, start), z);
  }

  lemma HoldsUse(g: Group, spares: seq<string>)
    requires Holds(g, spares)
    ensures OwnUse(g, "thin1", "pv0") == OwnUse(g, "pool", "pv0") == 0
    ensures OwnUse(g, "pool_tdata", "pv0") == 10 && OwnUse(g, "pool_tmeta", "pv0") == 1
  {
    NoUse(g, "thin1", ThinSegment());
    NoUse(g, "pool", PoolSegment());
    LinearUse(g, "pool_tdata", 10, "0");
    LinearUse(g, "pool_tmeta", 1, "10");
  }

  lemma NoUse(g: Group, x: string, s: Segment)
    requires x in g.lvs && g.lvs[x].segments == [s] && s.stripes == []
    ensures OwnUse(g, x, "pv0") == 0
  {
    NoAreas(s);
  }

  lemma LinearUse(g: Group, x: string, count: int, start: string)
    requires x in g.lvs && g.lvs[x].segments == [LinearSegment(count, start)]
    ensures OwnUse(g, x, "pv0") == count
  {
    LinearSegmentIs(count, start);
  }

  lemma HoldsVisible(g: Group, spares: seq<string>, x: string)
    requires Holds(g, spares) && x in g.lvs
    ensures g.lvs[x].visible <==> x == "thin1" || x == "pool"
  {
    assert x in g.order;
  }

  lemma HoldsIsThin(g: Group, spares: seq<string>)
    requires Holds(g, spares)
    ensures IsThin(g, "thin1", "pool", "pool_tdata", "pool_tmeta", spares)
  {
    forall x, z | x in g.lvs && z in g.lvs
      ensures SubLv(g, x, z) <==> NamesOnly(x, z)
    {
      HoldsSubs(g, spares, x, z);
    }
    forall x | x in g.lvs
      ensures g.lvs[x].visible <==> x == "thin1" || x == "pool"
    {
      HoldsVisible(g, spares, x);
    }
  }

  lemma StripelessSubs(g: Group, x: string, s: Segment, z: string)
    requires x in g.lvs && g.lvs[x].segments == [s] && s.stripes == [] && z in g.lvs && z !in g.pvs
    ensures SubLv(g, x, z) <==> Links(s.links, REF_KEYS, z)
  {
    NoAreas(s);
    OneSegmentSubs(g, x, s, z);
  }

  /** What each of the LVs names. */
  predicate NamesOnly(x: string, z: string) {
    (x == "thin1" && z == "pool") || (x == "pool" && (z == "pool_tdata" || z == "pool_tmeta"))
  }

  lemma VolumeSubs(g: Group, spares: seq<string>, z: string)
    requires Holds(g, spares) && z in g.lvs
    ensures SubLv(g, "thin1", z) <==> NamesOnly("thin1", z)
  {
    SegmentLinks(z);
    StripelessSubs(g, "thin1", ThinSegment(), z);
  }

  lemma PoolSubs(g: Group, spares: seq<string>, z: string)
    requires Holds(g, spares) && z in g.lvs
    ensures SubLv(g, "pool", z) <==> NamesOnly("pool", z)
  {
    SegmentLinks(z);
    StripelessSubs(g, "pool", PoolSegment(), z);
  }

  lemma LinearVolume(g: Group, spares: seq<string>, x: string) returns (count: int, start: string)
    requires Holds(g, spares) && x in g.lvs && x != "thin1" && x != "pool"
    ensures g.lvs[x].segments == [LinearSegment(count, start)]
  {
    assert x in g.order;
    if x == "pool_tdata" {
      count, start := 10, "0";
    } else if x == "pool_tmeta" {
      count, start := 1, "10";
    } else {
      count, start :| IsVolume(g, x, false, LinearSegment(count, start));
    }
  }

  lemma HoldsSubs(g: Group, spares: seq<string>, x: string, z: string)
    requires Holds(g, spares) && x in g.lvs && z in g.lvs
    ensures SubLv(g, x, z) <==> NamesOnly(x, z)
  {
    if x == "thin1" {
      VolumeSubs(g, spares, z);
    } else if x == "pool" {
      PoolSubs(g, spares, z);
    } else {
      var count, start := LinearVolume(g, spares, x);
      LinearHasNoSubs(g, x, count, start, z);
    }
  }

  lemma ThinPoolValid()
    ensures ThinPool().Valid()
  {
    assert ThinPool().lvs.Keys == {"thin1", "pool", "pool_tdata", "pool_tmeta"};
  }

  lemma ThinPoolHolds()
    ensures Holds(ThinPool(), [])
  {
    ThinPoolValid();
    assert ORDER + [] == ORDER;
  }

  lemma NoSpare(g: Group)
    requires Holds(g, [])
    ensures TreesOnPv(g, g.order, "pv0") == 22 && FlatUse(g, g.order, "pv0") == 11
  {
    HoldsIsThin(g, []);
    HoldsUse(g, []);
    ThinDifference(g, "thin1", "pool", "pool_tdata", "pool_tmeta", [], "pv0");
  }

  /** The trees of the volume and of the pool both hold the pool's eleven extents. */
  lemma ThinPoolCountedTwice()
    ensures ThinPool().Valid()
    ensures TreesOnPv(ThinPool(), ThinPool().order, "pv0") == 22
    ensures FlatUse(ThinPool(), ThinPool().order, "pv0") == 11
  {
    ThinPoolHolds();
    NoSpare(ThinPool());
  }

  lemma SpareValid(count: int)
    ensures WithSpare(count).Valid()
  {
    var g := WithSpare(count);
    assert g.lvs.Keys == {"thin1", "pool", "pool_tdata", "pool_tmeta", "lvol0_pmspare"};
  }

  lemma SpareHolds(count: int)
    ensures Holds(WithSpare(count), ["lvol0_pmspare"])
    ensures OwnUse(WithSpare(count), "lvol0_pmspare", "pv0") == count
  {
    SpareValid(count);
    assert IsVolume(WithSpare(count), "lvol0_pmspare", false, LinearSegment(count, "11"));
    LinearUse(WithSpare(count), "lvol0_pmspare", count, "11");
  }

  lemma OneSpare(g: Group, spare: string)
    requires Holds(g, [spare])
    ensures TreesOnPv(g, g.order, "pv0") == 22 && FlatUse(g, g.order, "pv0") == 11 + OwnUse(g, spare, "pv0")
  {
    HoldsIsThin(g, [spare]);
    HoldsUse(g, [spare]);
    ThinDifference(g, "thin1", "pool", "pool_tdata", "pool_tmeta", [spare], "pv0");
    assert [spare][..0] == [];
    assert Sum(x => OwnUse(g, x, "pv0"), [spare]) == OwnUse(g, spare, "pv0");
  }

  /** A spare has no place in any tree: with it the two agree exactly if it happens to be as large as what is counted
      twice. */
  lemma SpareBalances(count: int)
    ensures var g := WithSpare(count);
            && g.Valid()
            && TreesOnPv(g, g.order, "pv0") == 22 && FlatUse(g, g.order, "pv0") == 11 + count
            && (TreesOnPv(g, g.order, "pv0") == FlatUse(g, g.order, "pv0") <==> count == 11)
  {
    SpareHolds(count);
    OneSpare(WithSpare(count), "lvol0_pmspare");
  }
}
