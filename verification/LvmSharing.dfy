/** When the visible LVs' trees hold on a PV what the flat count says is used of it, for any references: an LV is
    counted once for each path of references that leads to it from a visible LV
    (src/sensors2mqtt/collector/storage/lvm.py, `lv_tree` and `vg_from_metadata`). */
module LvmSharing {
  import opened LvmTree
  import opened LvmUsage

  // ------------------------------------------------------------------
  // Sums over names
  // ------------------------------------------------------------------

  function Sum(f: string -> int, names: seq<string>): int {
    if names == [] then 0 else Sum(f, names[..|names| - 1]) + f(names[|names| - 1])
  }

  predicate Distinct(names: seq<string>) {
    forall i, j :: 0 <= i < j < |names| ==> names[i] != names[j]
  }

  lemma {:induction false} SumSame(f: string -> int, h: string -> int, names: seq<string>)
    requires forall x :: x in names ==> f(x) == h(x)
    ensures Sum(f, names) == Sum(h, names)
  {
    if names != [] {
      SumSame(f, h, names[..|names| - 1]);
    }
  }

  /** Functions that differ at one of the names. */
  lemma {:induction false} SumOneMore(f: string -> int, h: string -> int, names: seq<string>, k: string, c: int)
    requires Distinct(names) && forall x :: x in names ==> f(x) == h(x) + if x == k then c else 0
    ensures Sum(f, names) == Sum(h, names) + if k in names then c else 0
  {
    if names != [] {
      var n := |names| - 1;
      SumOneMore(f, h, names[..n], k, c);
      assert names == names[..n] + [names[n]];
      assert names[n] !in names[..n];
    }
  }

  lemma {:induction false} SumBalance(
      a: string -> int, b: string -> int, c: string -> int, d: string -> int, names: seq<string>)
    requires forall x :: x in names ==> a(x) + b(x) == c(x) + d(x)
    ensures Sum(a, names) + Sum(b, names) == Sum(c, names) + Sum(d, names)
  {
    if names != [] {
      SumBalance(a, b, c, d, names[..|names| - 1]);
    }
  }

  /** A sum without negative terms is 0 exactly if all its terms are. */
  lemma {:induction false} SumZero(f: string -> int, names: seq<string>)
    requires forall x :: x in names ==> f(x) >= 0
    ensures Sum(f, names) >= 0
    ensures Sum(f, names) == 0 <==> forall x :: x in names ==> f(x) == 0
  {
    if names != [] {
      var front, last := names[..|names| - 1], names[|names| - 1];
      SumZero(f, front);
      assert names == front + [last];
    }
  }

  lemma {:induction false} SumAtLeast(f: string -> int, names: seq<string>, i: nat)
    requires i < |names| && forall x :: x in names ==> f(x) >= 0
    ensures Sum(f, names) >= f(names[i])
  {
    var n := |names| - 1;
    SumZero(f, names[..n]);
    if i < n {
      SumAtLeast(f, names[..n], i);
    }
  }

  lemma {:induction false} SumAtLeastTwo(f: string -> int, names: seq<string>, i: nat, j: nat)
    requires i < j < |names| && forall x :: x in names ==> f(x) >= 0
    ensures Sum(f, names) >= f(names[i]) + f(names[j])
  {
    var n := |names| - 1;
    if j < n {
      SumAtLeastTwo(f, names[..n], i, j);
    } else {
      SumAtLeast(f, names[..n], i);
    }
  }

  // ------------------------------------------------------------------
  // Paths of references
  // ------------------------------------------------------------------

  /** The paths of references from the LV `x` to `y`, of at most as many references as the depth limit leaves. */
  function Paths(g: Group, x: string, y: string, depth: nat): nat
    requires x in g.lvs && depth <= MAX_DEPTH
    decreases MAX_DEPTH - depth, 1, 0
  {
    (if x == y then 1 else 0) + if depth < MAX_DEPTH then PathsVia(g, g.order, x, y, depth) else 0
  }

  /** Those whose first reference is to one of the names. */
  function PathsVia(g: Group, names: seq<string>, x: string, y: string, depth: nat): nat
    requires x in g.lvs && depth < MAX_DEPTH
    decreases MAX_DEPTH - depth, 0, |names|
  {
    if names == [] then 0
    else
      var z := names[|names| - 1];
      PathsVia(g, names[..|names| - 1], x, y, depth)
      + if z in g.lvs && SubLv(g, x, z) then Paths(g, z, y, depth + 1) else 0
  }

  /** Those whose first reference is to `z`. */
  function Through(g: Group, x: string, y: string, depth: nat, z: string): nat
    requires x in g.lvs && depth < MAX_DEPTH
  {
    if z in g.lvs && SubLv(g, x, z) then Paths(g, z, y, depth + 1) else 0
  }

  lemma ThroughIsPaths(g: Group, x: string, y: string, depth: nat, z: string)
    requires x in g.lvs && z in g.lvs && SubLv(g, x, z) && depth < MAX_DEPTH
    ensures Through(g, x, y, depth, z) == Paths(g, z, y, depth + 1)
  {
  }

  lemma {:induction false} ViaIsSum(g: Group, names: seq<string>, x: string, y: string, depth: nat, f: string -> int)
    requires x in g.lvs && depth < MAX_DEPTH && forall z :: z in names ==> f(z) == Through(g, x, y, depth, z)
    ensures PathsVia(g, names, x, y, depth) == Sum(f, names)
  {
    if names != [] {
      ViaIsSum(g, names[..|names| - 1], x, y, depth, f);
    }
  }

  /** The paths to `y` from the visible LVs. */
  function PathsTo(g: Group, y: string): int {
    Sum(x => PathsFrom(g, x, y), g.order)
  }

  function PathsFrom(g: Group, x: string, y: string): nat {
    if IsVisible(g, x) then Paths(g, x, y, 0) else 0
  }

  lemma PathsToNonNegative(g: Group, y: string)
    ensures PathsTo(g, y) >= 0
  {
    SumZero(x => PathsFrom(g, x, y), g.order);
  }

  // ------------------------------------------------------------------
  // An LV has a place in the trees for each path
  // ------------------------------------------------------------------

  /** What `count` gives for the child of that name, 0 for none. */
  function OfChild(count: Node -> int, kids: seq<Node>, z: string): int {
    if Has(kids, z) then count(kids[IndexOf(kids, z)]) else 0
  }

  function Total(count: Node -> int, kids: seq<Node>): int {
    if kids == [] then 0 else Total(count, kids[..|kids| - 1]) + count(kids[|kids| - 1])
  }

  predicate NamesDistinct(kids: seq<Node>) {
    forall i, j :: 0 <= i < j < |kids| ==> kids[i].name != kids[j].name
  }

  lemma OfChildAppend(count: Node -> int, front: seq<Node>, last: Node, z: string)
    requires NamesDistinct(front + [last])
    ensures OfChild(count, front + [last], z) == OfChild(count, front, z) + if z == last.name then count(last) else 0
  {
    var kids := front + [last];
    IndexAppend(front, last, z);
    if Has(front, z) {
      var k := IndexOf(front, z);
      assert kids[k].name == z && kids[|front|].name == last.name;
    }
  }

  lemma {:induction false} TotalByName(count: Node -> int, kids: seq<Node>, names: seq<string>)
    requires Distinct(names) && NamesDistinct(kids)
    requires forall i :: 0 <= i < |kids| && kids[i].name !in names ==> count(kids[i]) == 0
    ensures Total(count, kids) == Sum(z => OfChild(count, kids, z), names)
  {
    if kids == [] {
      SumSame(z => OfChild(count, kids, z), z => 0, names);
      SumZero(z => 0, names);
    } else {
      var n := |kids| - 1;
      var front, last := kids[..n], kids[n];
      assert kids == front + [last];
      TotalByName(count, front, names);
      forall z
        ensures OfChild(count, kids, z) == OfChild(count, front, z) + if z == last.name then count(last) else 0
      {
        OfChildAppend(count, front, last, z);
      }
      SumOneMore(z => OfChild(count, kids, z), z => OfChild(count, front, z), names, last.name, count(last));
    }
  }

  function PlacesOf(y: string): Node -> int {
    (n: Node) => multiset(LvNames(n))[y]
  }

  lemma {:induction false} PlacesTotal(kids: seq<Node>, y: string)
    ensures multiset(AllLvNames(kids))[y] == Total(PlacesOf(y), kids)
  {
    if kids != [] {
      PlacesTotal(kids[..|kids| - 1], y);
    }
  }

  lemma OrderDistinct(g: Group)
    requires g.Valid()
    ensures Distinct(g.order) && forall x :: x in g.order <==> x in g.lvs
  {
  }

  lemma {:induction false} NoPlaces(kids: seq<Node>)
    requires forall i :: 0 <= i < |kids| ==> kids[i].Pv?
    ensures AllLvNames(kids) == []
  {
    if kids != [] {
      NoPlaces(kids[..|kids| - 1]);
    }
  }

  /** One child of the tree of `x`. */
  lemma PlacesInChild(g: Group, x: string, y: string, depth: nat, z: string)
    requires g.Valid() && x in g.lvs && z in g.lvs && depth < MAX_DEPTH
    requires PlacesAt(g, y, depth + 1, z)
    ensures OfChild(PlacesOf(y), Tree(g, x, depth).children, z) == Through(g, x, y, depth, z)
  {
    TreeGrown(g, x, depth, z);
    var kids := Tree(g, x, depth).children;
    if Has(kids, z) {
      ChildOf(g, depth, kids, z);
    }
  }

  lemma ChildOf(g: Group, depth: nat, kids: seq<Node>, z: string)
    requires Grown(g, depth, kids) && Has(kids, z)
    ensures var kid := kids[IndexOf(kids, z)];
            if z in g.pvs then kid.Pv? else depth < MAX_DEPTH && z in g.lvs && kid == Tree(g, z, depth + 1)
  {
  }

  /** Children whose names are known, with as many places in each as there are paths through it. */
  lemma PlacesByPaths(g: Group, x: string, y: string, depth: nat, kids: seq<Node>)
    requires g.Valid() && x in g.lvs && depth < MAX_DEPTH && NamesDistinct(kids)
    requires forall i :: 0 <= i < |kids| && kids[i].Lv? ==> kids[i].name in g.lvs
    requires forall z :: z in g.order ==> OfChild(PlacesOf(y), kids, z) == Through(g, x, y, depth, z)
    ensures multiset(AllLvNames(kids))[y] == PathsVia(g, g.order, x, y, depth)
  {
    OrderDistinct(g);
    PlacesTotal(kids, y);
    TotalByName(PlacesOf(y), kids, g.order);
    ViaIsSum(g, g.order, x, y, depth, z => OfChild(PlacesOf(y), kids, z));
  }

  lemma NodePaths(g: Group, x: string, y: string, depth: nat, n: Node)
    requires x in g.lvs && depth <= MAX_DEPTH && n.Lv? && n.name == x
    requires multiset(AllLvNames(n.children))[y]
          == if depth < MAX_DEPTH then PathsVia(g, g.order, x, y, depth) else 0
    ensures multiset(LvNames(n))[y] == Paths(g, x, y, depth)
  {
    NodePlaces(n, y);
  }

  /** At the depth limit a tree has no sub-LVs. */
  lemma NothingBelow(g: Group, x: string, y: string)
    requires x in g.lvs
    ensures multiset(AllLvNames(Tree(g, x, MAX_DEPTH).children))[y] == 0
  {
    TreeSubs(g, x, MAX_DEPTH);
    NoPlaces(Tree(g, x, MAX_DEPTH).children);
  }

  predicate PlacesAt(g: Group, y: string, depth: nat, z: string)
    requires depth <= MAX_DEPTH
  {
    z in g.lvs && multiset(LvNames(Tree(g, z, depth)))[y] == Paths(g, z, y, depth)
  }

  lemma PlacesBelow(g: Group, x: string, y: string, depth: nat)
    requires g.Valid() && x in g.lvs && depth < MAX_DEPTH
    requires forall z :: z in g.order ==> PlacesAt(g, y, depth + 1, z)
    ensures multiset(AllLvNames(Tree(g, x, depth).children))[y] == PathsVia(g, g.order, x, y, depth)
  {
    var kids := Tree(g, x, depth).children;
    forall z | z in g.order
      ensures OfChild(PlacesOf(y), kids, z) == Through(g, x, y, depth, z)
    {
      assert PlacesAt(g, y, depth + 1, z);
      PlacesInChild(g, x, y, depth, z);
    }
    TreeSubs(g, x, depth);
    GrownNames(g, depth, kids);
    PlacesByPaths(g, x, y, depth, kids);
  }

  lemma GrownNames(g: Group, depth: nat, kids: seq<Node>)
    requires Grown(g, depth, kids)
    ensures NamesDistinct(kids) && forall i :: 0 <= i < |kids| && kids[i].Lv? ==> kids[i].name in g.lvs
  {
  }

  lemma NodePlaces(n: Node, y: string)
    requires n.Lv?
    ensures multiset(LvNames(n))[y] == (if n.name == y then 1 else 0) + multiset(AllLvNames(n.children))[y]
  {
    assert LvNames(n) == [n.name] + AllLvNames(n.children);
  }

  lemma {:induction false} ConcatCount(f: string -> seq<string>, h: string -> int, names: seq<string>, y: string)
    requires forall x :: x in names ==> multiset(f(x))[y] == h(x)
    ensures multiset(Concat(f, names))[y] == Sum(h, names)
  {
    if names != [] {
      ConcatCount(f, h, names[..|names| - 1], y);
    }
  }

  lemma PlacesOfOne(g: Group, x: string, y: string, depth: nat)
    requires g.Valid() && x in g.lvs && depth < MAX_DEPTH
    requires forall z :: z in g.order ==> PlacesAt(g, y, depth + 1, z)
    ensures PlacesAt(g, y, depth, x)
  {
    PlacesBelow(g, x, y, depth);
    NodePaths(g, x, y, depth, Tree(g, x, depth));
  }

  lemma PlacesOfDeepest(g: Group, x: string, y: string)
    requires x in g.lvs
    ensures PlacesAt(g, y, MAX_DEPTH, x)
  {
    NothingBelow(g, x, y);
    NodePaths(g, x, y, MAX_DEPTH, Tree(g, x, MAX_DEPTH));
  }

  /** What holds at the deepest level, and at a level if at the next one, holds at every level. */
  lemma {:induction false} Upwards(p: nat -> bool, depth: nat)
    requires depth <= MAX_DEPTH && p(MAX_DEPTH)
    requires forall d: nat :: d < MAX_DEPTH && p(d + 1) ==> p(d)
    ensures p(depth)
    decreases MAX_DEPTH - depth
  {
    if depth < MAX_DEPTH {
      Upwards(p, depth + 1);
    }
  }

  predicate AllPlacesAt(g: Group, y: string, depth: nat)
    requires depth <= MAX_DEPTH
  {
    forall x :: x in g.order ==> PlacesAt(g, y, depth, x)
  }

  lemma PlacesOfAll(g: Group, y: string, depth: nat)
    requires g.Valid() && depth < MAX_DEPTH && AllPlacesAt(g, y, depth + 1)
    ensures AllPlacesAt(g, y, depth)
  {
    forall x | x in g.order
      ensures PlacesAt(g, y, depth, x)
    {
      PlacesOfOne(g, x, y, depth);
    }
  }

  lemma PlacesOfAllDeepest(g: Group, y: string)
    requires g.Valid()
    ensures AllPlacesAt(g, y, MAX_DEPTH)
  {
    forall x | x in g.order
      ensures PlacesAt(g, y, MAX_DEPTH, x)
    {
      PlacesOfDeepest(g, x, y);
    }
  }

  lemma PlacesOnAllLevels(g: Group, y: string, depth: nat)
    requires g.Valid() && depth <= MAX_DEPTH
    ensures AllPlacesAt(g, y, depth)
  {
    PlacesOfAllDeepest(g, y);
    forall d: nat | d < MAX_DEPTH && AllPlacesAt(g, y, d + 1)
      ensures AllPlacesAt(g, y, d)
    {
      PlacesOfAll(g, y, d);
    }
    Upwards((d: nat) => d <= MAX_DEPTH && AllPlacesAt(g, y, d), depth);
  }

  /** In the tree of an LV another one has as many places as there are paths to it. */
  lemma PlacesArePaths(g: Group, x: string, y: string, depth: nat)
    requires g.Valid() && x in g.lvs && depth <= MAX_DEPTH
    ensures multiset(LvNames(Tree(g, x, depth)))[y] == Paths(g, x, y, depth)
  {
    PlacesOnAllLevels(g, y, depth);
    assert x in g.order;
    assert PlacesAt(g, y, depth, x);
  }

  /** In the visible LVs' trees together an LV has as many places as there are paths to it from visible LVs. */
  lemma AllPlacesArePaths(g: Group, y: string)
    requires g.Valid()
    ensures multiset(TreesLvNames(g, g.order))[y] == PathsTo(g, y)
  {
    forall x | x in g.order
      ensures multiset(TreeNames(g, x))[y] == PathsFrom(g, x, y)
    {
      if IsVisible(g, x) {
        PlacesArePaths(g, x, y, 0);
      }
    }
    PlacesConcat(g, g.order);
    ConcatCount(x => TreeNames(g, x), x => PathsFrom(g, x, y), g.order, y);
  }

  // ------------------------------------------------------------------
  // The trees against the flat count
  // ------------------------------------------------------------------

  function Product(c: int, use: int): int {
    c * use
  }

  /** A sum over names, with each of the distinct names in `order` taken once. */
  lemma {:induction false} SumByName(use: string -> int, names: seq<string>, order: seq<string>)
    requires Distinct(order) && forall x :: x in names ==> x in order
    ensures Sum(use, names) == Sum(x => Product(multiset(names)[x], use(x)), order)
  {
    var f := x => Product(multiset(names)[x], use(x));
    if names == [] {
      SumSame(f, x => 0, order);
      SumZero(x => 0, order);
    } else {
      var front, last := names[..|names| - 1], names[|names| - 1];
      assert names == front + [last];
      SumByName(use, front, order);
      var h := x => Product(multiset(front)[x], use(x));
      forall x
        ensures f(x) == h(x) + if x == last then use(last) else 0
      {
        OneMore(multiset(front)[x], use(x));
      }
      SumOneMore(f, h, order, last, use(last));
    }
  }

  lemma OneMore(c: int, use: int)
    ensures Product(c + 1, use) == Product(c, use) + use
  {
  }

  lemma {:induction false} FlatIsSum(g: Group, names: seq<string>, pv: string)
    ensures FlatUse(g, names, pv) == Sum(x => OwnUse(g, x, pv), names)
  {
    if names != [] {
      FlatIsSum(g, names[..|names| - 1], pv);
    }
  }

  /** The extents the trees count more than once, each time but the first. */
  function Surplus(g: Group, pv: string): int {
    Sum(x => SurplusOf(g, x, pv), g.order)
  }

  function SurplusOf(g: Group, x: string, pv: string): int {
    Product(if PathsTo(g, x) > 1 then PathsTo(g, x) - 1 else 0, OwnUse(g, x, pv))
  }

  /** The extents the trees do not count. */
  function Unplaced(g: Group, pv: string): int {
    Sum(x => UnplacedOf(g, x, pv), g.order)
  }

  function UnplacedOf(g: Group, x: string, pv: string): int {
    if PathsTo(g, x) == 0 then OwnUse(g, x, pv) else 0
  }

  /** Names that name each LV once for each path to it. */
  lemma PathsAgainstFlat(g: Group, names: seq<string>, pv: string)
    requires g.Valid() && forall x :: x in names ==> x in g.lvs
    requires forall x :: x in g.lvs ==> multiset(names)[x] == PathsTo(g, x)
    ensures FlatUse(g, names, pv) + Unplaced(g, pv) == FlatUse(g, g.order, pv) + Surplus(g, pv)
  {
    var use := x => OwnUse(g, x, pv);
    OrderDistinct(g);
    FlatIsSum(g, names, pv);
    FlatIsSum(g, g.order, pv);
    SumByName(use, names, g.order);
    var placed := x => Product(multiset(names)[x], use(x));
    forall x | x in g.order
      ensures placed(x) + UnplacedOf(g, x, pv) == use(x) + SurplusOf(g, x, pv)
    {
      OneMore(PathsTo(g, x) - 1, use(x));
    }
    SumBalance(placed, x => UnplacedOf(g, x, pv), use, x => SurplusOf(g, x, pv), g.order);
  }

  /** For any metadata, shared sub-LVs, cycles and LVs nothing refers to included: the trees hold what the flat count
      gives, and the surplus, without what is unplaced. */
  lemma TreesAgainstFlat(g: Group, pv: string)
    requires g.Valid() && pv in g.pvs
    ensures TreesOnPv(g, g.order, pv) + Unplaced(g, pv) == FlatUse(g, g.order, pv) + Surplus(g, pv)
  {
    TreesCountPlaces(g, g.order, pv);
    TreesNamesKnown(g, g.order);
    forall x | x in g.lvs
      ensures multiset(TreesLvNames(g, g.order))[x] == PathsTo(g, x)
    {
      AllPlacesArePaths(g, x);
    }
    PathsAgainstFlat(g, TreesLvNames(g, g.order), pv);
  }

  /** The trees and the flat count agree if and only if the surplus is as much as is unplaced. */
  lemma AgreementIff(g: Group, pv: string)
    requires g.Valid() && pv in g.pvs
    ensures TreesOnPv(g, g.order, pv) == FlatUse(g, g.order, pv) <==> Surplus(g, pv) == Unplaced(g, pv)
  {
    TreesAgainstFlat(g, pv);
  }

  /** No LV's own segments take a negative number of extents. */
  ghost predicate NonNegative(g: Group, pv: string) {
    forall x :: OwnUse(g, x, pv) >= 0
  }

  /** Exactly one path leads from a visible LV to each LV with extents on the PV. */
  ghost predicate OnePathEach(g: Group, pv: string) {
    forall x :: x in g.order && OwnUse(g, x, pv) != 0 ==> PathsTo(g, x) == 1
  }

  lemma SurplusZero(g: Group, pv: string)
    requires NonNegative(g, pv)
    ensures Surplus(g, pv) >= 0
    ensures Surplus(g, pv) == 0 <==> forall x :: x in g.order && OwnUse(g, x, pv) > 0 ==> PathsTo(g, x) <= 1
  {
    forall x
      ensures SurplusOf(g, x, pv) >= 0
      ensures SurplusOf(g, x, pv) == 0 <==> (OwnUse(g, x, pv) > 0 ==> PathsTo(g, x) <= 1)
    {
      ProductSign(if PathsTo(g, x) > 1 then PathsTo(g, x) - 1 else 0, OwnUse(g, x, pv));
    }
    SumZero(x => SurplusOf(g, x, pv), g.order);
  }

  lemma ProductSign(c: int, use: int)
    requires c >= 0 && use >= 0
    ensures Product(c, use) >= 0 && (Product(c, use) == 0 <==> c == 0 || use == 0)
  {
  }

  lemma UnplacedZero(g: Group, pv: string)
    requires NonNegative(g, pv)
    ensures Unplaced(g, pv) >= 0
    ensures Unplaced(g, pv) == 0 <==> forall x :: x in g.order && OwnUse(g, x, pv) > 0 ==> PathsTo(g, x) != 0
  {
    SumZero(x => UnplacedOf(g, x, pv), g.order);
  }

  /** With exactly one path to each LV that has extents on the PV the two agree, and nothing is surplus or unplaced;
      that is so only then. */
  lemma OnePathAgrees(g: Group, pv: string)
    requires g.Valid() && pv in g.pvs && NonNegative(g, pv)
    ensures OnePathEach(g, pv) <==> Surplus(g, pv) == 0 && Unplaced(g, pv) == 0
    ensures OnePathEach(g, pv) ==> TreesOnPv(g, g.order, pv) == FlatUse(g, g.order, pv)
  {
    SurplusZero(g, pv);
    UnplacedZero(g, pv);
    forall x
      ensures PathsTo(g, x) >= 0
    {
      PathsToNonNegative(g, x);
    }
    AgreementIff(g, pv);
  }

  /** If a path leads to every LV with extents on the PV, the trees hold at least what is used, and exactly that if
      and only if there is one path to each. */
  lemma SharedCountMore(g: Group, pv: string)
    requires g.Valid() && pv in g.pvs && NonNegative(g, pv)
    requires forall x :: x in g.order && OwnUse(g, x, pv) > 0 ==> PathsTo(g, x) > 0
    ensures TreesOnPv(g, g.order, pv) >= FlatUse(g, g.order, pv)
    ensures TreesOnPv(g, g.order, pv) == FlatUse(g, g.order, pv) <==> OnePathEach(g, pv)
  {
    TreesAgainstFlat(g, pv);
    SurplusZero(g, pv);
    UnplacedZero(g, pv);
    OnePathAgrees(g, pv);
  }

  /** If no two paths lead to an LV with extents on the PV, the trees hold at most what is used, and exactly that if
      and only if there is one path to each. */
  lemma UnplacedCountLess(g: Group, pv: string)
    requires g.Valid() && pv in g.pvs && NonNegative(g, pv)
    requires forall x :: x in g.order && OwnUse(g, x, pv) > 0 ==> PathsTo(g, x) <= 1
    ensures TreesOnPv(g, g.order, pv) <= FlatUse(g, g.order, pv)
    ensures TreesOnPv(g, g.order, pv) == FlatUse(g, g.order, pv) <==> OnePathEach(g, pv)
  {
    TreesAgainstFlat(g, pv);
    SurplusZero(g, pv);
    UnplacedZero(g, pv);
    OnePathAgrees(g, pv);
  }

  // ------------------------------------------------------------------
  // Visible sub-LVs
  // ------------------------------------------------------------------

  lemma ThroughSub(g: Group, x: string, y: string, depth: nat, z: string)
    requires g.Valid() && x in g.lvs && z in g.lvs && depth < MAX_DEPTH && SubLv(g, x, z)
    ensures Paths(g, x, y, depth) >= Paths(g, z, y, depth + 1)
  {
    assert z in g.order;
    var i :| 0 <= i < |g.order| && g.order[i] == z;
    var f := k => Through(g, x, y, depth, k);
    ViaIsSum(g, g.order, x, y, depth, f);
    SumAtLeast(f, g.order, i);
  }

  /** A sub-LV that is visible is reached by its own paths and by those through the LV it is part of. */
  lemma VisibleSubLvTwice(g: Group, i: nat, j: nat, z: string)
    requires g.Valid() && i < |g.order| && j < |g.order| && i != j
    requires IsVisible(g, g.order[i]) && IsVisible(g, g.order[j]) && SubLv(g, g.order[i], g.order[j])
    ensures PathsTo(g, z) >= Paths(g, g.order[j], z, 0) + Paths(g, g.order[j], z, 1)
  {
    FromTwo(g, i, j, z);
    ThroughSub(g, g.order[i], z, 0, g.order[j]);
  }

  lemma FromTwo(g: Group, i: nat, j: nat, z: string)
    requires i < |g.order| && j < |g.order| && i != j
    ensures PathsTo(g, z) >= PathsFrom(g, g.order[i], z) + PathsFrom(g, g.order[j], z)
  {
    SumAtLeastTwo(x => PathsFrom(g, x, z), g.order, if i < j then i else j, if i < j then j else i);
  }

  lemma TwoPathsCountTwice(g: Group, z: string, pv: string)
    requires g.Valid() && pv in g.pvs && NonNegative(g, pv) && z in g.lvs && PathsTo(g, z) >= 2
    ensures TreesOnPv(g, g.order, pv) + Unplaced(g, pv) >= FlatUse(g, g.order, pv) + OwnUse(g, z, pv)
  {
    forall x
      ensures SurplusOf(g, x, pv) >= 0
    {
      ProductSign(if PathsTo(g, x) > 1 then PathsTo(g, x) - 1 else 0, OwnUse(g, x, pv));
    }
    ProductGrows(PathsTo(g, z) - 1, OwnUse(g, z, pv));
    assert z in g.order;
    var k :| 0 <= k < |g.order| && g.order[k] == z;
    SumAtLeast(x => SurplusOf(g, x, pv), g.order, k);
    TreesAgainstFlat(g, pv);
  }

  lemma ProductGrows(c: int, use: int)
    requires c >= 1 && use >= 0
    ensures Product(c, use) >= use
  {
  }

  /** If a visible LV is a sub-LV of another, two paths lead to it and to its own sub-LVs. */
  lemma SubLvsTwice(g: Group, i: nat, j: nat, z: string)
    requires g.Valid() && i < |g.order| && j < |g.order| && i != j
    requires IsVisible(g, g.order[i]) && IsVisible(g, g.order[j]) && SubLv(g, g.order[i], g.order[j])
    requires z in g.lvs && (z == g.order[j] || SubLv(g, g.order[j], z))
    ensures PathsTo(g, z) >= 2
  {
    VisibleSubLvTwice(g, i, j, z);
    if z != g.order[j] {
      ThroughSub(g, g.order[j], z, 0, z);
      ThroughSub(g, g.order[j], z, 1, z);
    }
  }

  /** The trees hold their extents twice: more than is used by as much, but for what is unplaced. */
  lemma VisibleSubLvCountedTwice(g: Group, i: nat, j: nat, z: string, pv: string)
    requires g.Valid() && pv in g.pvs && NonNegative(g, pv) && i < |g.order| && j < |g.order| && i != j
    requires IsVisible(g, g.order[i]) && IsVisible(g, g.order[j]) && SubLv(g, g.order[i], g.order[j])
    requires z in g.lvs && (z == g.order[j] || SubLv(g, g.order[j], z))
    ensures TreesOnPv(g, g.order, pv) + Unplaced(g, pv) >= FlatUse(g, g.order, pv) + OwnUse(g, z, pv)
  {
    SubLvsTwice(g, i, j, z);
    TwoPathsCountTwice(g, z, pv);
  }
}
