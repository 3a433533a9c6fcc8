/** The physical disks under a block device (src/sensors2mqtt/collector/storage/drives.py, `whole_disks`). */
module WholeDisks {
  import opened Ordering

  /** /sys/class/block: the disk whose directory a partition's lies in, the names in each ``slaves``
      directory in the order it is listed in, and the names with a ``device``. */
  datatype Sysfs = Sysfs(partitions: map<string, string>, slaves: map<string, seq<string>>, devices: set<string>)

  function Disk(fs: Sysfs, n: string): string {
    if n in fs.partitions then fs.partitions[n] else n
  }

  function Slaves(fs: Sysfs, d: string): seq<string> {
    if d in fs.slaves then Sort(StringLe, fs.slaves[d]) else []
  }

  /** What `n` is built on. */
  function Below(fs: Sysfs, n: string): seq<string> {
    Slaves(fs, Disk(fs, n))
  }

  /** The disk of `n` is a real device built on no other. */
  predicate IsPhysical(fs: Sysfs, n: string) {
    Below(fs, n) == [] && Disk(fs, n) in fs.devices
  }

  // ------------------------------------------------------------------
  // Reachability
  // ------------------------------------------------------------------

  predicate IsPath(fs: Sysfs, path: seq<string>) {
    forall i :: 0 <= i < |path| - 1 ==> path[i + 1] in Below(fs, path[i])
  }

  predicate Leads(fs: Sysfs, from: string, path: seq<string>, to: string) {
    path != [] && path[0] == from && path[|path| - 1] == to && IsPath(fs, path)
  }

  ghost predicate Reaches(fs: Sysfs, from: string, to: string) {
    exists path :: Leads(fs, from, path, to)
  }

  /** `d` is a physical disk that `name` is built on, at any depth. */
  ghost predicate IsUnder(fs: Sysfs, name: string, d: string) {
    exists n :: Reaches(fs, name, n) && IsPhysical(fs, n) && d == Disk(fs, n)
  }

  lemma ReachesItself(fs: Sysfs, n: string)
    ensures Reaches(fs, n, n)
  {
    assert Leads(fs, n, [n], n);
  }

  lemma ReachesBelow(fs: Sysfs, from: string, n: string, m: string)
    requires Reaches(fs, from, n) && m in Below(fs, n)
    ensures Reaches(fs, from, m)
  {
    var path :| Leads(fs, from, path, n);
    assert Leads(fs, from, path + [m], m);
  }

  /** A set that has `from` and is closed downwards has all that `from` reaches. */
  lemma {:induction false} ClosedHasPath(fs: Sysfs, closed: set<string>, from: string, path: seq<string>, to: string)
    requires from in closed && (forall n, m :: n in closed && m in Below(fs, n) ==> m in closed)
    requires Leads(fs, from, path, to)
    ensures to in closed
    decreases |path|
  {
    if |path| > 1 {
      assert path[1] in Below(fs, path[0]);
      assert Leads(fs, path[1], path[1..], to);
      ClosedHasPath(fs, closed, path[1], path[1..], to);
    }
  }

  // ------------------------------------------------------------------
  // The worklist
  // ------------------------------------------------------------------

  /** All names the worklist can hold. */
  function Universe(fs: Sysfs, name: string): set<string> {
    {name} + set d, n | d in fs.slaves && n in fs.slaves[d] :: n
  }

  lemma BelowInUniverse(fs: Sysfs, name: string, n: string)
    ensures forall m :: m in Below(fs, n) ==> m in Universe(fs, name)
  {
    forall m | m in Below(fs, n)
      ensures m in Universe(fs, name)
    {
      var d := Disk(fs, n);
      SortPermutes(StringLe, fs.slaves[d]);
      assert m in multiset(Slaves(fs, d)) && m in fs.slaves[d];
    }
  }

  /** What the loop keeps: both lists hold only reachable names, all that is below a seen name is
      listed, and `out` has the physical disks of the seen names, each once. */
  ghost predicate Inv(fs: Sysfs, name: string, todo: seq<string>, seen: set<string>, out: seq<string>) {
    && (name in seen || name in todo)
    && (forall n :: n in seen || n in todo ==> Reaches(fs, name, n) && n in Universe(fs, name))
    && (forall n, m :: n in seen && m in Below(fs, n) ==> m in seen || m in todo)
    && Collected(fs, seen, out)
  }

  ghost predicate Collected(fs: Sysfs, seen: set<string>, out: seq<string>) {
    && Distinct(out)
    && (forall d :: d in out <==> exists n :: n in seen && IsPhysical(fs, n) && d == Disk(fs, n))
  }

  lemma CollectedSeen(fs: Sysfs, seen: set<string>, n: string, out: seq<string>)
    requires Collected(fs, seen, out)
    ensures !IsPhysical(fs, n) || Disk(fs, n) in out ==> Collected(fs, seen + {n}, out)
    ensures IsPhysical(fs, n) && Disk(fs, n) !in out ==> Collected(fs, seen + {n}, out + [Disk(fs, n)])
  {
    var more := if IsPhysical(fs, n) && Disk(fs, n) !in out then out + [Disk(fs, n)] else out;
    forall d
      ensures d in more <==> exists k :: k in seen + {n} && IsPhysical(fs, k) && d == Disk(fs, k)
    {
      if k :| k in seen && IsPhysical(fs, k) && d == Disk(fs, k) {
        assert k in seen + {n};
      }
      if d == Disk(fs, n) && IsPhysical(fs, n) {
        assert n in seen + {n};
      }
    }
  }

  /** `n` was last on the list and not seen yet. */
  lemma InvVisit(fs: Sysfs, name: string, todo: seq<string>, seen: set<string>, out: seq<string>, n: string)
    requires Inv(fs, name, todo + [n], seen, out)
    ensures var out' := if IsPhysical(fs, n) && Disk(fs, n) !in out then out + [Disk(fs, n)] else out;
            Inv(fs, name, todo + Below(fs, n), seen + {n}, out')
  {
    CollectedSeen(fs, seen, n, out);
    BelowInUniverse(fs, name, n);
    var todo' := todo + Below(fs, n);
    assert n in todo + [n];
    forall m | m in Below(fs, n)
      ensures Reaches(fs, name, m)
    {
      ReachesBelow(fs, name, n, m);
    }
    forall k | k in seen + {n} || k in todo'
      ensures Reaches(fs, name, k) && k in Universe(fs, name)
    {
      assert k in seen || k in todo + [n] || k in Below(fs, n);
    }
    forall k, m | k in seen + {n} && m in Below(fs, k)
      ensures m in seen + {n} || m in todo'
    {
      if k in seen {
        assert m in seen || m in todo + [n];
      }
    }
  }

  lemma InvSkip(fs: Sysfs, name: string, todo: seq<string>, seen: set<string>, out: seq<string>, n: string)
    requires Inv(fs, name, todo + [n], seen, out) && n in seen
    ensures Inv(fs, name, todo, seen, out)
  {
    forall m | m in todo
      ensures m in todo + [n]
    {
    }
    forall m | m in todo + [n]
      ensures m in seen || m in todo
    {
    }
  }

  /** With nothing left to do the disks found are those reachable. */
  lemma InvDone(fs: Sysfs, name: string, seen: set<string>, out: seq<string>)
    requires Inv(fs, name, [], seen, out)
    ensures forall d :: d in out <==> IsUnder(fs, name, d)
  {
    forall d
      ensures d in out <==> IsUnder(fs, name, d)
    {
      if d in out {
        var n :| n in seen && IsPhysical(fs, n) && d == Disk(fs, n);
        assert Reaches(fs, name, n);
      }
      if IsUnder(fs, name, d) {
        var n :| Reaches(fs, name, n) && IsPhysical(fs, n) && d == Disk(fs, n);
        var path :| Leads(fs, name, path, n);
        ClosedHasPath(fs, seen, name, path, n);
      }
    }
  }

  lemma SortedDisks(out: seq<string>)
    requires Distinct(out)
    ensures var disks := Sort(StringLe, out);
            Ascending(StringLe, disks) && Distinct(disks) && forall d :: d in disks <==> d in out
  {
    StringOrder();
    SortAscends(StringLe, out);
    SortKeepsDistinct(StringLe, out);
  }

  lemma InUniverse(fs: Sysfs, name: string, todo: seq<string>, seen: set<string>, out: seq<string>, n: string)
    requires Inv(fs, name, todo + [n], seen, out)
    ensures n in Universe(fs, name)
  {
    assert n in todo + [n];
  }

  /** What is below `n` is put on the list; with nothing below it, it is a disk if it is a device. */
  method Visit(fs: Sysfs, n: string, todo: seq<string>, out: seq<string>)
      returns (todo': seq<string>, out': seq<string>)
    ensures todo' == todo + Below(fs, n)
    ensures out' == if IsPhysical(fs, n) && Disk(fs, n) !in out then out + [Disk(fs, n)] else out
  {
    todo', out' := todo, out;
    var d := if n in fs.partitions then fs.partitions[n] else n;
    var slaves := if d in fs.slaves then Sort(StringLe, fs.slaves[d]) else [];
    if slaves != [] {
      todo' := todo + slaves;
    } else {
      assert todo + slaves == todo;
      if d in fs.devices && d !in out {
        out' := out + [d];
      }
    }
  }

  method WholeDisks(fs: Sysfs, name: string) returns (disks: seq<string>)
    ensures Ascending(StringLe, disks) && Distinct(disks)
    ensures forall d :: d in disks <==> IsUnder(fs, name, d)
  {
    var out: seq<string> := [];
    var todo, seen: set<string> := [name], {};
    ReachesItself(fs, name);
    ghost var universe := Universe(fs, name);
    while todo != []
      invariant seen <= universe
      invariant Inv(fs, name, todo, seen, out)
      decreases universe - seen, |todo|
    {
      var n := todo[|todo| - 1];
      assert todo == todo[..|todo| - 1] + [n];
      todo := todo[..|todo| - 1];
      if n in seen {
        InvSkip(fs, name, todo, seen, out, n);
        continue;
      }
      InUniverse(fs, name, todo, seen, out, n);
      InvVisit(fs, name, todo, seen, out, n);
      seen := seen + {n};
      todo, out := Visit(fs, n, todo, out);
    }
    InvDone(fs, name, seen, out);
    SortedDisks(out);
    disks := Sort(StringLe, out);
  }

  /** The disks do not depend on the order the ``slaves`` directories are listed in. */
  lemma ListingOrderIrrelevant(fs: Sysfs, fs': Sysfs, name: string, d: string)
    requires fs.partitions == fs'.partitions && fs.devices == fs'.devices && fs.slaves.Keys == fs'.slaves.Keys
    requires forall k :: k in fs.slaves ==> multiset(fs.slaves[k]) == multiset(fs'.slaves[k])
    requires IsUnder(fs, name, d)
    ensures IsUnder(fs', name, d)
  {
    forall n
      ensures Below(fs, n) == Below(fs', n)
    {
      var k := Disk(fs, n);
      if k in fs.slaves {
        StringOrder();
        SortCanonical(StringLe, fs.slaves[k], fs'.slaves[k]);
      }
    }
    var n :| Reaches(fs, name, n) && IsPhysical(fs, n) && d == Disk(fs, n);
    var path :| Leads(fs, name, path, n);
    assert Leads(fs', name, path, n);
    assert IsPhysical(fs', n) && d == Disk(fs', n);
  }

  // ------------------------------------------------------------------
  // What is under a name, step by step
  // ------------------------------------------------------------------

  lemma SlavesOf(fs: Sysfs, n: string, s: string)
    ensures s in Below(fs, n) <==>
              var disk := if n in fs.partitions then fs.partitions[n] else n;
              disk in fs.slaves && s in fs.slaves[disk]
  {
    var disk := Disk(fs, n);
    if disk in fs.slaves {
      SortKeepsDistinct(StringLe, fs.slaves[disk]);
    }
  }

  lemma NothingBelow(fs: Sysfs, n: string)
    ensures Below(fs, n) == [] <==> Disk(fs, n) !in fs.slaves || fs.slaves[Disk(fs, n)] == []
  {
    var disk := Disk(fs, n);
    if disk in fs.slaves {
      SortPermutes(StringLe, fs.slaves[disk]);
      assert |Below(fs, n)| == |multiset(Below(fs, n))| == |multiset(fs.slaves[disk])|;
    }
  }

  lemma BelowFirst(fs: Sysfs, n: string, s: string, d: string)
    requires s in Below(fs, n) && IsUnder(fs, s, d)
    ensures IsUnder(fs, n, d)
  {
    var to :| Reaches(fs, s, to) && IsPhysical(fs, to) && d == Disk(fs, to);
    var path :| Leads(fs, s, path, to);
    assert Leads(fs, n, [n] + path, to);
    assert Reaches(fs, n, to);
  }

  lemma FirstBelow(fs: Sysfs, n: string, d: string)
    requires IsUnder(fs, n, d)
    ensures (IsPhysical(fs, n) && d == Disk(fs, n)) || exists s :: s in Below(fs, n) && IsUnder(fs, s, d)
  {
    var to :| Reaches(fs, n, to) && IsPhysical(fs, to) && d == Disk(fs, to);
    var path :| Leads(fs, n, path, to);
    if |path| > 1 {
      assert path[1] in Below(fs, path[0]);
      assert Leads(fs, path[1], path[1..], to);
      assert Reaches(fs, path[1], to);
      assert IsUnder(fs, path[1], d);
    }
  }

  /** Under a name is what is under the slaves of its disk, a partition's being the one it lies in; without slaves that
      disk itself, if it is a device. */
  lemma UnderUnfolds(fs: Sysfs, name: string, d: string)
    ensures IsUnder(fs, name, d) <==>
              var disk := if name in fs.partitions then fs.partitions[name] else name;
              if disk !in fs.slaves || fs.slaves[disk] == [] then d == disk && disk in fs.devices
              else exists s :: s in fs.slaves[disk] && IsUnder(fs, s, d)
  {
    var disk := if name in fs.partitions then fs.partitions[name] else name;
    forall s ensures s in Below(fs, name) <==> disk in fs.slaves && s in fs.slaves[disk] {
      SlavesOf(fs, name, s);
    }
    if IsUnder(fs, name, d) {
      FirstBelow(fs, name, d);
    }
    if disk !in fs.slaves || fs.slaves[disk] == [] {
      NothingBelow(fs, name);
      ReachesItself(fs, name);
    } else {
      assert fs.slaves[disk][0] in Below(fs, name);
      if s :| s in fs.slaves[disk] && IsUnder(fs, s, d) {
        BelowFirst(fs, name, s, d);
      }
    }
  }
}
