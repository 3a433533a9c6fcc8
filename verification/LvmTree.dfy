/** What an LV is made of, as a tree of sub-LVs down to PVs, and the PVs it is on
    (src/sensors2mqtt/collector/storage/lvm.py, `_segments`, `lv_tree`, `LV.pvs`). Space is counted in extents. */
module LvmTree {
  import opened Numerals
  import opened Wrappers

  /** A metadata segment: its key (``segment1``), its extents, its stripes as the flat list
      of area name and start, and the sub-LVs or PVs named under each reference key. */
  datatype Segment = Segment(key: string, count: int, stripes: seq<string>, links: map<string, seq<string>>)

  datatype Volume = Volume(visible: bool, segments: seq<Segment>)

  /** A volume group: its LVs (a dict, so in an order) and the names of its PVs. */
  datatype Group = Group(lvs: map<string, Volume>, order: seq<string>, pvs: set<string>) {
    ghost predicate Valid() {
      && (forall i, j :: 0 <= i < j < |order| ==> order[i] != order[j])
      && (forall x :: x in order <==> x in lvs)
    }
  }

  datatype Node =
    | Pv(name: string, extents: int)
    | Lv(name: string, extents: int, children: seq<Node>)

  const MAX_DEPTH := 16

  const REF_KEYS: seq<string> :=
    ["raids", "mirrors", "origin", "meta_dev", "cache_pool", "pool", "thin_pool", "data", "metadata",
     "log", "mirror_log", "external_origin", "writecache", "vdo_pool"]

  // ------------------------------------------------------------------
  // Segments in the order of their numbers
  // ------------------------------------------------------------------

  function SegmentNumber(s: Segment): nat {
    var digits := if |s.key| >= 7 then s.key[7..] else [];
    if digits != [] && AllDigits(digits) then NatValue(digits) else 0
  }

  /** Behind every segment whose number is not greater. */
  function Insert(sorted: seq<Segment>, s: Segment): seq<Segment> {
    if sorted == [] || SegmentNumber(sorted[|sorted| - 1]) <= SegmentNumber(s) then sorted + [s]
    else Insert(sorted[..|sorted| - 1], s) + [sorted[|sorted| - 1]]
  }

  /** ``sorted`` is stable. */
  function SortedSegments(segs: seq<Segment>): seq<Segment> {
    if segs == [] then [] else Insert(SortedSegments(segs[..|segs| - 1]), segs[|segs| - 1])
  }

  function TotalExtents(segs: seq<Segment>): int {
    if segs == [] then 0 else TotalExtents(segs[..|segs| - 1]) + segs[|segs| - 1].count
  }

  // ------------------------------------------------------------------
  // References of a segment
  // ------------------------------------------------------------------

  /** The areas: every other item of the stripes. */
  function Areas(stripes: seq<string>): seq<string> {
    if stripes == [] then []
    else if |stripes| == 1 then [stripes[0]]
    else [stripes[0]] + Areas(stripes[2..])
  }

  /** The extents each area of a segment holds. */
  function Share(s: Segment): int {
    var n := |Areas(s.stripes)|;
    s.count / (if n > 1 then n else 1)
  }

  datatype Ref = Ref(name: string, share: Option<int>)

  function AreaRefs(areas: seq<string>, share: int): seq<Ref> {
    if areas == [] then [] else AreaRefs(areas[..|areas| - 1], share) + [Ref(areas[|areas| - 1], Some(share))]
  }

  function LinkRefs(names: seq<string>): seq<Ref> {
    if names == [] then [] else LinkRefs(names[..|names| - 1]) + [Ref(names[|names| - 1], None)]
  }

  function KeyedRefs(links: map<string, seq<string>>, keys: seq<string>): seq<Ref> {
    if keys == [] then []
    else
      var key := keys[|keys| - 1];
      KeyedRefs(links, keys[..|keys| - 1]) + if key in links then LinkRefs(links[key]) else []
  }

  function Refs(s: Segment): seq<Ref> {
    AreaRefs(Areas(s.stripes), Share(s)) + KeyedRefs(s.links, REF_KEYS)
  }

  function AllRefs(segs: seq<Segment>): seq<Ref> {
    if segs == [] then [] else Refs(segs[0]) + AllRefs(segs[1..])
  }

  // ------------------------------------------------------------------
  // The tree
  // ------------------------------------------------------------------

  /** The index of the node of that name, or the length. */
  function IndexOf(kids: seq<Node>, name: string): (k: nat)
    ensures k <= |kids|
    ensures k < |kids| ==> kids[k].name == name
    ensures forall i :: 0 <= i < k ==> kids[i].name != name
  {
    if kids == [] || kids[0].name == name then 0 else 1 + IndexOf(kids[1..], name)
  }

  predicate Has(kids: seq<Node>, name: string) {
    IndexOf(kids, name) < |kids|
  }

  /** Adds extents to the PV leaf of that name, which goes to the end if there is none yet. */
  function Credit(kids: seq<Node>, name: string, extents: int): seq<Node> {
    var k := IndexOf(kids, name);
    if k < |kids| then kids[k := Pv(name, kids[k].extents + extents)] else kids + [Pv(name, extents)]
  }

  /** ``lv_tree(name, ..., depth)`` */
  function Tree(g: Group, name: string, depth: nat): (node: Node)
    requires name in g.lvs && depth <= MAX_DEPTH
    decreases MAX_DEPTH - depth, 1, 0
  {
    var segs := SortedSegments(g.lvs[name].segments);
    Lv(name, TotalExtents(segs), Children(g, depth, AllRefs(segs), []))
  }

  /** What the references add to the children already there. */
  function Children(g: Group, depth: nat, refs: seq<Ref>, kids: seq<Node>): seq<Node>
    requires depth <= MAX_DEPTH
    decreases MAX_DEPTH - depth, 0, |refs|
  {
    if refs == [] then kids else Children(g, depth, refs[1..], AddRef(g, depth, refs[0], kids))
  }

  function AddRef(g: Group, depth: nat, r: Ref, kids: seq<Node>): seq<Node>
    requires depth <= MAX_DEPTH
    decreases MAX_DEPTH - depth, 0, 0
  {
    if r.name in g.pvs then Credit(kids, r.name, r.share.GetOr(0))
    else if r.name in g.lvs && !Has(kids, r.name) && depth < MAX_DEPTH
    then kids + [Tree(g, r.name, depth + 1)]
    else kids
  }

  /** `kids` says where in `children` the node of each name is: the objects both hold. */
  ghost predicate Indexes(kids: map<string, nat>, children: seq<Node>) {
    forall n :: IndexesAt(kids, children, n)
  }

  predicate IndexesAt(kids: map<string, nat>, children: seq<Node>, n: string) {
    (n in kids <==> Has(children, n)) && (n in kids ==> kids[n] == IndexOf(children, n))
  }

  lemma IndexAppend(children: seq<Node>, x: Node, n: string)
    ensures IndexOf(children + [x], n) ==
            if Has(children, n) then IndexOf(children, n)
            else if x.name == n then |children| else |children| + 1
  {
    if children != [] {
      assert (children + [x])[1..] == children[1..] + [x];
      if children[0].name != n {
        IndexAppend(children[1..], x, n);
      }
    }
  }

  lemma {:induction false} IndexUpdate(children: seq<Node>, k: nat, x: Node, n: string)
    requires k < |children| && children[k].name == x.name
    ensures IndexOf(children[k := x], n) == IndexOf(children, n)
  {
    if k == 0 {
      assert children[k := x][1..] == children[1..];
    } else {
      assert children[k := x][1..] == children[1..][k - 1 := x];
      IndexUpdate(children[1..], k - 1, x, n);
    }
  }

  lemma IndexesAppend(kids: map<string, nat>, children: seq<Node>, x: Node)
    requires Indexes(kids, children) && !Has(children, x.name)
    ensures Indexes(kids[x.name := |children|], children + [x])
  {
    var kids', more := kids[x.name := |children|], children + [x];
    forall n
      ensures IndexesAt(kids', more, n)
    {
      assert IndexesAt(kids, children, n);
      IndexAppend(children, x, n);
    }
  }

  lemma IndexesUpdate(kids: map<string, nat>, children: seq<Node>, k: nat, x: Node)
    requires Indexes(kids, children)
    requires k < |children| && children[k].name == x.name
    ensures Indexes(kids, children[k := x])
  {
    var updated := children[k := x];
    forall n
      ensures IndexesAt(kids, updated, n)
    {
      assert IndexesAt(kids, children, n);
      IndexUpdate(children, k, x, n);
    }
  }

  lemma ChildrenStep(g: Group, depth: nat, refs: seq<Ref>, j: nat, later: seq<Ref>, kids: seq<Node>)
    requires depth <= MAX_DEPTH && j < |refs|
    ensures Children(g, depth, refs[j..] + later, kids)
         == Children(g, depth, refs[j + 1..] + later, AddRef(g, depth, refs[j], kids))
  {
    assert (refs[j..] + later)[1..] == refs[j + 1..] + later;
  }

  lemma AllRefsStep(segs: seq<Segment>, i: nat)
    requires i < |segs|
    ensures AllRefs(segs[i..]) == Refs(segs[i]) + AllRefs(segs[i + 1..])
  {
    assert segs[i..][1..] == segs[i + 1..];
  }

  /** The recursion, filling `children` and `kids` reference by reference. */
  method LvTree(g: Group, name: string, depth: nat) returns (node: Node)
    requires name in g.lvs && depth <= MAX_DEPTH
    ensures node == Tree(g, name, depth)
    decreases MAX_DEPTH - depth, 1
  {
    var segs := SortedSegments(g.lvs[name].segments);
    var children: seq<Node>, kids: map<string, nat> := [], map[];
    ghost var all := Children(g, depth, AllRefs(segs), []);
    assert segs[0..] == segs;
    for i := 0 to |segs|
      invariant all == Children(g, depth, AllRefs(segs[i..]), children)
      invariant Indexes(kids, children)
    {
      var refs := Refs(segs[i]);
      ghost var later := AllRefs(segs[i + 1..]);
      AllRefsStep(segs, i);
      assert refs[0..] == refs;
      for j := 0 to |refs|
        invariant all == Children(g, depth, refs[j..] + later, children)
        invariant Indexes(kids, children)
      {
        ChildrenStep(g, depth, refs, j, later, children);
        children, kids := FollowRef(g, depth, refs[j], children, kids);
      }
      assert refs[|refs|..] + later == later;
    }
    return Lv(name, TotalExtents(segs), children);
  }

  /** One reference: a PV's leaf is created once and credited, a sub-LV is descended into once. */
  method FollowRef(g: Group, depth: nat, r: Ref, children: seq<Node>, kids: map<string, nat>)
      returns (children': seq<Node>, kids': map<string, nat>)
    requires depth <= MAX_DEPTH && Indexes(kids, children)
    ensures children' == AddRef(g, depth, r, children) && Indexes(kids', children')
    decreases MAX_DEPTH - depth, 0
  {
    children', kids' := children, kids;
    assert IndexesAt(kids, children, r.name);
    if r.name in g.pvs {
      children', kids' := CreditPv(r.name, r.share.GetOr(0), children, kids);
    } else if r.name in g.lvs && r.name !in kids && depth < MAX_DEPTH {
      var child := LvTree(g, r.name, depth + 1);
      IndexesAppend(kids, children, child);
      children', kids' := children + [child], kids[r.name := |children|];
    }
  }

  lemma CreatedLeaf(children: seq<Node>, name: string, extents: int)
    requires !Has(children, name)
    ensures var created := children + [Pv(name, 0)];
            Has(created, name) && Credit(created, name, extents) == Credit(children, name, extents)
  {
    IndexAppend(children, Pv(name, 0), name);
  }

  lemma CreditedLeaf(kids: map<string, nat>, children: seq<Node>, name: string, extents: int)
    requires Indexes(kids, children) && Has(children, name)
    ensures var k := IndexOf(children, name);
            var credited := children[k := Pv(name, children[k].extents + extents)];
            name in kids && kids[name] == k && Credit(children, name, extents) == credited && Indexes(kids, credited)
  {
    var k := IndexOf(children, name);
    assert IndexesAt(kids, children, name);
    IndexesUpdate(kids, children, k, Pv(name, children[k].extents + extents));
  }

  method CreditPv(name: string, extents: int, children: seq<Node>, kids: map<string, nat>)
      returns (children': seq<Node>, kids': map<string, nat>)
    requires Indexes(kids, children)
    ensures children' == Credit(children, name, extents) && Indexes(kids', children')
  {
    children', kids' := children, kids;
    assert IndexesAt(kids, children, name);
    if name !in kids {
      IndexesAppend(kids, children, Pv(name, 0));
      CreatedLeaf(children, name, extents);
      children', kids' := children + [Pv(name, 0)], kids[name := |children|];
    }
    CreditedLeaf(kids', children', name, extents);
    var k := kids'[name];
    children' := children'[k := Pv(name, children'[k].extents + extents)];
  }

  // ------------------------------------------------------------------
  // How deep it goes
  // ------------------------------------------------------------------

  /** The LV levels of a tree. */
  function Levels(n: Node): nat
    decreases n, 1
  {
    if n.Pv? then 0 else 1 + MaxLevels(n.children)
  }

  function MaxLevels(ns: seq<Node>): nat
    decreases ns, 0
  {
    if ns == [] then 0
    else
      var a, b := MaxLevels(ns[..|ns| - 1]), Levels(ns[|ns| - 1]);
      if a > b then a else b
  }

  lemma {:induction false} MaxLevelsUpdate(kids: seq<Node>, k: nat, leaf: Node, bound: nat)
    requires k < |kids| && leaf.Pv? && MaxLevels(kids) <= bound
    ensures MaxLevels(kids[k := leaf]) <= bound
  {
    var n := |kids| - 1;
    if k < n {
      assert kids[k := leaf][..n] == kids[..n][k := leaf];
      MaxLevelsUpdate(kids[..n], k, leaf, bound);
    } else {
      assert kids[k := leaf][..n] == kids[..n];
    }
  }

  lemma MaxLevelsAppend(kids: seq<Node>, x: Node, bound: nat)
    requires MaxLevels(kids) <= bound && Levels(x) <= bound
    ensures MaxLevels(kids + [x]) <= bound
  {
    assert (kids + [x])[..|kids|] == kids;
  }

  /** Self-references and cycles included, no tree has more than 17 LV levels. */
  lemma {:induction false} TreeLevels(g: Group, name: string, depth: nat)
    requires name in g.lvs && depth <= MAX_DEPTH
    ensures Levels(Tree(g, name, depth)) <= MAX_DEPTH + 1 - depth
    decreases MAX_DEPTH - depth, 1, 0
  {
    ChildrenLevels(g, depth, AllRefs(SortedSegments(g.lvs[name].segments)), []);
  }

  lemma {:induction false} ChildrenLevels(g: Group, depth: nat, refs: seq<Ref>, kids: seq<Node>)
    requires depth <= MAX_DEPTH && MaxLevels(kids) <= MAX_DEPTH - depth
    ensures MaxLevels(Children(g, depth, refs, kids)) <= MAX_DEPTH - depth
    decreases MAX_DEPTH - depth, 0, |refs|
  {
    if refs != [] {
      AddRefLevels(g, depth, refs[0], kids);
      ChildrenLevels(g, depth, refs[1..], AddRef(g, depth, refs[0], kids));
    }
  }

  lemma {:induction false} AddRefLevels(g: Group, depth: nat, r: Ref, kids: seq<Node>)
    requires depth <= MAX_DEPTH && MaxLevels(kids) <= MAX_DEPTH - depth
    ensures MaxLevels(AddRef(g, depth, r, kids)) <= MAX_DEPTH - depth
    decreases MAX_DEPTH - depth, 0, 0
  {
    if r.name in g.pvs {
      CreditLevels(kids, r.name, r.share.GetOr(0), MAX_DEPTH - depth);
    } else if r.name in g.lvs && !Has(kids, r.name) && depth < MAX_DEPTH {
      TreeLevels(g, r.name, depth + 1);
      MaxLevelsAppend(kids, Tree(g, r.name, depth + 1), MAX_DEPTH - depth);
    }
  }

  lemma CreditLevels(kids: seq<Node>, name: string, extents: int, bound: nat)
    requires MaxLevels(kids) <= bound
    ensures MaxLevels(Credit(kids, name, extents)) <= bound
  {
    var k := IndexOf(kids, name);
    if k < |kids| {
      MaxLevelsUpdate(kids, k, Pv(name, kids[k].extents + extents), bound);
    } else {
      MaxLevelsAppend(kids, Pv(name, extents), bound);
    }
  }

  // ------------------------------------------------------------------
  // The PVs a tree is on
  // ------------------------------------------------------------------

  /** The extents the leaves of a tree hold on one PV: a plain fold. */
  function OnPv(n: Node, pv: string): int
    decreases n, 1
  {
    if n.Pv? then if n.name == pv then n.extents else 0
    else AllOnPv(n.children, pv)
  }

  function AllOnPv(ns: seq<Node>, pv: string): int
    decreases ns, 0
  {
    if ns == [] then 0 else AllOnPv(ns[..|ns| - 1], pv) + OnPv(ns[|ns| - 1], pv)
  }

  /** The PVs at the leaves. */
  function Leaves(n: Node): set<string>
    decreases n, 1
  {
    if n.Pv? then {n.name} else AllLeaves(n.children)
  }

  function AllLeaves(ns: seq<Node>): set<string>
    decreases ns, 0
  {
    if ns == [] then {} else AllLeaves(ns[..|ns| - 1]) + Leaves(ns[|ns| - 1])
  }

  function Size(n: Node): nat
    decreases n, 1
  {
    1 + if n.Pv? then 0 else AllSize(n.children)
  }

  function AllSize(ns: seq<Node>): nat
    decreases ns, 0
  {
    if ns == [] then 0 else AllSize(ns[..|ns| - 1]) + Size(ns[|ns| - 1])
  }

  lemma {:induction false} AllAppend(a: seq<Node>, b: seq<Node>, pv: string)
    ensures AllSize(a + b) == AllSize(a) + AllSize(b)
    ensures AllOnPv(a + b, pv) == AllOnPv(a, pv) + AllOnPv(b, pv)
    ensures AllLeaves(a + b) == AllLeaves(a) + AllLeaves(b)
    decreases |b|
  {
    if b == [] {
      assert a + b == a;
    } else {
      var n := |b| - 1;
      assert (a + b)[..|a + b| - 1] == a + b[..n];
      AllAppend(a, b[..n], pv);
    }
  }

  lemma AllOne(n: Node, pv: string)
    ensures AllSize([n]) == Size(n) && AllOnPv([n], pv) == OnPv(n, pv) && AllLeaves([n]) == Leaves(n)
  {
    assert [n][..0] == [];
  }

  function Kids(n: Node): seq<Node> {
    if n.Pv? then [] else n.children
  }

  lemma Popped(todo: seq<Node>, pv: string)
    requires todo != []
    ensures var more := todo[1..] + Kids(todo[0]);
            && AllSize(more) < AllSize(todo)
            && AllOnPv(todo, pv) == AllOnPv(more, pv) + (if todo[0].Pv? then OnPv(todo[0], pv) else 0)
            && AllLeaves(todo) == AllLeaves(more) + (if todo[0].Pv? then {todo[0].name} else {})
  {
    var n := todo[0];
    assert todo == [n] + todo[1..];
    AllAppend([n], todo[1..], pv);
    AllOne(n, pv);
    AllAppend(todo[1..], Kids(n), pv);
  }

  /** A list of PVs, each named once. */
  predicate PvList(out: seq<Node>) {
    && (forall i :: 0 <= i < |out| ==> out[i].Pv?)
    && (forall i, j :: 0 <= i < j < |out| ==> out[i].name != out[j].name)
  }

  /** The last one's place is its own, and changes no other's. */
  lemma PvListLast(out: seq<Node>, pv: string)
    requires PvList(out) && out != []
    ensures var front, last := out[..|out| - 1], out[|out| - 1];
            && PvList(front) && (Has(out, pv) <==> Has(front, pv) || last.name == pv)
            && (Has(front, pv) ==> last.name != pv && IndexOf(out, pv) == IndexOf(front, pv))
            && (last.name == pv ==> IndexOf(out, pv) == |out| - 1)
  {
    var front, last := out[..|out| - 1], out[|out| - 1];
    assert out == front + [last];
    IndexAppend(front, last, pv);
    if Has(front, pv) {
      assert out[IndexOf(front, pv)].name != last.name;
    }
  }

  lemma {:induction false} PvListLeaves(out: seq<Node>, pv: string)
    requires PvList(out)
    ensures pv in AllLeaves(out) <==> Has(out, pv)
  {
    if out != [] {
      PvListLast(out, pv);
      PvListLeaves(out[..|out| - 1], pv);
    }
  }

  lemma {:induction false} PvListExtents(out: seq<Node>, pv: string)
    requires PvList(out)
    ensures AllOnPv(out, pv) == if Has(out, pv) then out[IndexOf(out, pv)].extents else 0
  {
    if out != [] {
      PvListLast(out, pv);
      PvListExtents(out[..|out| - 1], pv);
    }
  }

  lemma PvListSum(out: seq<Node>, pv: string)
    requires PvList(out)
    ensures AllOnPv(out, pv) == if Has(out, pv) then out[IndexOf(out, pv)].extents else 0
    ensures pv in AllLeaves(out) <==> Has(out, pv)
  {
    PvListExtents(out, pv);
    PvListLeaves(out, pv);
  }

  lemma CreditListed(out: seq<Node>, name: string, extents: int)
    requires PvList(out)
    ensures PvList(Credit(out, name, extents))
  {
  }

  lemma CreditOnPv(out: seq<Node>, name: string, extents: int, pv: string)
    requires PvList(out)
    ensures var more := Credit(out, name, extents);
            && (Has(more, pv) <==> Has(out, pv) || pv == name)
            && AllOnPv(more, pv) == AllOnPv(out, pv) + if pv == name then extents else 0
  {
    var more, k := Credit(out, name, extents), IndexOf(out, name);
    CreditListed(out, name, extents);
    PvListSum(out, pv);
    PvListSum(more, pv);
    if k < |out| {
      IndexUpdate(out, k, more[k], pv);
    } else {
      IndexAppend(out, Pv(name, extents), pv);
    }
  }

  /** Between them, the PVs found and the nodes to do account for the whole tree. */
  ghost predicate Accounts(out: seq<Node>, todo: seq<Node>, tree: Node, pv: string) {
    && AllOnPv(out, pv) + AllOnPv(todo, pv) == OnPv(tree, pv)
    && (Has(out, pv) || pv in AllLeaves(todo) <==> pv in Leaves(tree))
  }

  lemma AccountsStep(out: seq<Node>, todo: seq<Node>, tree: Node, pv: string)
    requires PvList(out) && todo != [] && Accounts(out, todo, tree, pv)
    ensures var n := todo[0];
            Accounts(if n.Pv? then Credit(out, n.name, n.extents) else out, todo[1..] + Kids(n), tree, pv)
  {
    Popped(todo, pv);
    CreditOnPv(out, todo[0].name, OnPv(todo[0], todo[0].name), pv);
  }

  /** ``LV.pvs()``: every PV of the tree once, with the sum of its leaves. */
  method Pvs(tree: Node) returns (out: seq<Node>)
    ensures PvList(out)
    ensures forall pv :: Has(out, pv) <==> pv in Leaves(tree)
    ensures forall i :: 0 <= i < |out| ==> out[i].extents == OnPv(tree, out[i].name)
  {
    out := [];
    var todo := [tree];
    forall pv { AllOne(tree, pv); }
    while todo != []
      invariant PvList(out)
      invariant forall pv :: Accounts(out, todo, tree, pv)
      decreases AllSize(todo)
    {
      ghost var out0, todo0 := out, todo;
      var n := todo[0];
      if n.Pv? {
        CreditListed(out, n.name, n.extents);
        out := Credit(out, n.name, n.extents);
      }
      todo := todo[1..] + Kids(n);
      Popped(todo0, n.name);
      forall pv ensures Accounts(out, todo, tree, pv) {
        AccountsStep(out0, todo0, tree, pv);
      }
    }
    forall pv
      ensures Has(out, pv) <==> pv in Leaves(tree)
      ensures Has(out, pv) ==> out[IndexOf(out, pv)].extents == OnPv(tree, pv)
    {
      assert Accounts(out, todo, tree, pv);
      PvListSum(out, pv);
    }
    forall i | 0 <= i < |out|
      ensures out[i].extents == OnPv(tree, out[i].name)
    {
      assert IndexOf(out, out[i].name) == i;
    }
  }
}
