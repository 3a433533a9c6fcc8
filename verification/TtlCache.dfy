/** The tables fetched from a switch and kept for a while: port descriptions, VLAN names and LLDP neighbours
    (src/sensors2mqtt/collector/snmp.py, `fetch_port_descriptions`, `fetch_vlan_names`, `fetch_lldp_neighbors`). */
module TtlCache {
  import opened Wrappers

  /** Milliseconds of the monotonic clock. */
  type Time = nat

  const CACHE_TTL: Time := 300_000
  const ERROR_RETRY: Time := 60_000

  /** A port or VLAN number, from the OID of a walked row. */
  datatype Index = Index(number: int)

  type Table = map<Index, string>

  datatype Kind = Descriptions | VlanNames | Lldp

  /** The parsed rows of a walk, or None if it failed or timed out. */
  type Walk = Option<Table>

  // ------------------------------------------------------------------
  // One cached table
  // ------------------------------------------------------------------

  /** What is remembered of one table of one switch. */
  datatype Memory = Memory(stored: Option<Table>, expires: Time)

  /** A call: the time it looks at the cache, the time it is done walking, what walking gives or would give. */
  datatype Call = Call(now: Time, later: Time, walked: Walk)

  predicate IsHit(m: Memory, now: Time) {
    m.stored.Some? && now < m.expires
  }

  function Step(m: Memory, c: Call): Memory {
    if IsHit(m, c.now) then m
    else if c.walked.Some? then Memory(c.walked, c.later + CACHE_TTL)
    else if m.stored.Some? then m.(expires := c.later + ERROR_RETRY)
    else m
  }

  function Answer(m: Memory): Table {
    m.stored.GetOr(map[])
  }

  const NOTHING := Memory(None, 0)

  function After(calls: seq<Call>): Memory {
    if calls == [] then NOTHING else Step(After(calls[..|calls| - 1]), calls[|calls| - 1])
  }

  /** The last of the calls was not answered from the cache. */
  predicate Walks(calls: seq<Call>)
    requires calls != []
  {
    !IsHit(After(calls[..|calls| - 1]), calls[|calls| - 1].now)
  }

  /** The last call that walked. */
  function LastWalk(calls: seq<Call>): Option<Call> {
    if calls == [] then None
    else if Walks(calls) then Some(calls[|calls| - 1])
    else LastWalk(calls[..|calls| - 1])
  }

  /** The last call whose walk succeeded. */
  function LastSuccess(calls: seq<Call>): Option<Call> {
    if calls == [] then None
    else if Walks(calls) && calls[|calls| - 1].walked.Some? then Some(calls[|calls| - 1])
    else LastSuccess(calls[..|calls| - 1])
  }

  /** How long what a walk leaves is kept, in milliseconds. */
  function KeptFor(walked: Walk): Time {
    if walked.Some? then 300_000 else 60_000
  }

  /** What is stored is what the last successful walk gave; when the next walk is due depends on the last one. */
  lemma {:induction false} Remembered(calls: seq<Call>)
    ensures LastSuccess(calls).None? ==> After(calls).stored == None
    ensures LastSuccess(calls).Some? ==>
              && After(calls).stored == LastSuccess(calls).value.walked
              && After(calls).stored.Some? && LastWalk(calls).Some?
              && After(calls).expires == LastWalk(calls).value.later + KeptFor(LastWalk(calls).value.walked)
  {
    if calls != [] {
      Remembered(calls[..|calls| - 1]);
    }
  }

  /** Every call answers with the table of the most recent successful walk, its own included; with an empty
      one if there was none. */
  lemma AnswersLastSuccess(calls: seq<Call>)
    ensures Answer(After(calls))
         == if LastSuccess(calls).Some? then LastSuccess(calls).value.walked.GetOr(map[]) else map[]
  {
    Remembered(calls);
  }

  /** The next call is answered from the cache exactly if some walk has succeeded and the last walk ended less
      than 300 s ago, or 60 s if it failed. */
  lemma HitIff(calls: seq<Call>, now: Time)
    ensures IsHit(After(calls), now)
       <==> && LastSuccess(calls).Some? && LastWalk(calls).Some?
            && now < LastWalk(calls).value.later + if LastWalk(calls).value.walked.Some? then 300_000 else 60_000
  {
    Remembered(calls);
  }

  // ------------------------------------------------------------------
  // LLDP neighbours
  // ------------------------------------------------------------------

  /** ``sn.split(".")[0]`` */
  function Host(name: string): (h: string)
    ensures h <= name && '.' !in h && (h == name || name[|h|] == '.')
  {
    if name == "" || name[0] == '.' then "" else [name[0]] + Host(name[1..])
  }

  function At(t: Table, port: Index): string {
    if port in t then t[port] else ""
  }

  /** The neighbour at a port, empty for none. */
  function Neighbour(desc: string, host: string): string {
    if desc != "" && host != "" then desc + "." + host else desc + host
  }

  function NeighbourAt(names: Table, descs: Table, port: Index): string {
    Neighbour(At(descs, port), Host(At(names, port)))
  }

  /** A neighbour at each port with a description or a host name. */
  function Joined(names: Table, descs: Table): Table {
    map p | p in names.Keys + descs.Keys && NeighbourAt(names, descs, p) != "" :: NeighbourAt(names, descs, p)
  }

  /** A port's neighbour is its description, a point and the host name up to its first point, or the one of the two
      that there is; without either the port has none. */
  lemma JoinedAt(names: Table, descs: Table, p: Index)
    ensures var d, h := At(descs, p), Host(At(names, p));
            && (p in Joined(names, descs) <==> d != "" || h != "")
            && (d != "" && h == "" ==> Joined(names, descs)[p] == d)
            && (d == "" && h != "" ==> Joined(names, descs)[p] == h)
            && (d != "" && h != "" ==>
                  var n := Joined(names, descs)[p];
                  |n| == |d| + 1 + |h| && n[..|d|] == d && n[|d|] == '.' && n[|d| + 1..] == h)
  {
    var d, h := At(descs, p), Host(At(names, p));
    assert d == "" ==> d + h == h;
    assert h == "" ==> d + h == d;
    assert (d + "." + h)[..|d|] == d && (d + "." + h)[|d| + 1..] == h;
  }

  method ShortHosts(names: Table) returns (hosts: Table)
    ensures hosts.Keys == names.Keys && forall p :: p in names ==> hosts[p] == Host(names[p])
  {
    hosts := names;
    var ports: set<Index> := names.Keys;
    while ports != {}
      invariant ports <= names.Keys && hosts.Keys == names.Keys
      invariant forall p :: p in names ==> hosts[p] == if p in ports then names[p] else Host(names[p])
    {
      var p :| p in ports;
      if '.' in hosts[p] {
        hosts := hosts[p := Host(hosts[p])];
      }
      ports := ports - {p};
    }
  }

  method JoinOne(desc: string, host: string) returns (n: Option<string>)
    ensures n == if Neighbour(desc, host) == "" then None else Some(Neighbour(desc, host))
  {
    if desc != "" && host != "" {
      n := Some(desc + "." + host);
    } else if desc != "" {
      n := Some(desc);
      assert desc + host == desc;
    } else if host != "" {
      n := Some(host);
      assert desc + host == host;
    } else {
      n := None;
    }
  }

  lemma SameHosts(names: Table, hosts: Table, p: Index)
    requires hosts.Keys == names.Keys && forall p :: p in names ==> hosts[p] == Host(names[p])
    ensures At(hosts, p) == Host(At(names, p))
  {
  }

  method Join(names: Table, descs: Table) returns (neighbours: Table)
    ensures neighbours == Joined(names, descs)
  {
    var hosts := ShortHosts(names);
    neighbours := map[];
    var ports: set<Index> := hosts.Keys + descs.Keys;
    ghost var all := ports;
    while ports != {}
      invariant ports <= all && neighbours.Keys <= all - ports
      invariant forall p :: p in all - ports ==>
        var n := NeighbourAt(names, descs, p);
        if n == "" then p !in neighbours else p in neighbours && neighbours[p] == n
    {
      var p :| p in ports;
      SameHosts(names, hosts, p);
      var n := JoinOne(At(descs, p), At(hosts, p));
      if n.Some? {
        neighbours := neighbours[p := n.value];
      }
      ports := ports - {p};
    }
  }

  // ------------------------------------------------------------------
  // The collector
  // ------------------------------------------------------------------

  /** The expiry times are kept in one dict under ``{node_id}:{table}``. */
  function CacheKey(node: string, kind: Kind): string {
    node + match kind case Descriptions => ":descriptions" case VlanNames => ":vlan_names" case Lldp => ":lldp"
  }

  lemma CacheKeysDiffer(node: string, kind: Kind, node': string, kind': Kind)
    requires CacheKey(node, kind) == CacheKey(node', kind')
    ensures node == node' && kind == kind'
  {
    var k := CacheKey(node, kind);
    assert k[|k| - 1] == match kind case Descriptions => 's' case VlanNames => 's' case Lldp => 'p';
    assert k[|k| - 1] == match kind' case Descriptions => 's' case VlanNames => 's' case Lldp => 'p';
    assert kind.Descriptions? ==> k[|k| - 2] == 'n';
    assert kind.VlanNames? ==> k[|k| - 2] == 'e';
    assert kind'.Descriptions? ==> k[|k| - 2] == 'n';
    assert kind'.VlanNames? ==> k[|k| - 2] == 'e';
    var n := |k| - |node|;
    assert k[..|node|] == node && k[..|node'|] == node';
  }

  datatype Id = Id(node: string, kind: Kind)

  class Collector {
    var tables: map<Id, Table>
    var cacheTimes: map<Id, Time>

    constructor ()
      ensures forall id :: MemoryOf(id) == NOTHING
    {
      tables, cacheTimes := map[], map[];
    }

    function MemoryOf(id: Id): Memory
      reads this
    {
      Memory(if id in tables then Some(tables[id]) else None, if id in cacheTimes then cacheTimes[id] else 0)
    }

    /** Answers from the cache, or None if the table is to be walked. */
    method Cached(id: Id, now: Time) returns (t: Option<Table>)
      ensures t == if IsHit(MemoryOf(id), now) then MemoryOf(id).stored else None
    {
      if id in tables && now < if id in cacheTimes then cacheTimes[id] else 0 {
        t := Some(tables[id]);
      } else {
        t := None;
      }
    }

    method Remember(id: Id, later: Time, walked: Walk) returns (t: Table)
      modifies this
      ensures t == Answer(MemoryOf(id))
      ensures forall now :: !IsHit(old(MemoryOf(id)), now) ==>
                MemoryOf(id) == Step(old(MemoryOf(id)), Call(now, later, walked))
      ensures forall other :: other != id ==> MemoryOf(other) == old(MemoryOf(other))
    {
      if walked.Some? {
        tables := tables[id := walked.value];
        cacheTimes := cacheTimes[id := later + CACHE_TTL];
      } else if id in tables {
        cacheTimes := cacheTimes[id := later + ERROR_RETRY];
      }
      t := if id in tables then tables[id] else map[];
    }

    /** Descriptions and VLAN names: one walk. */
    method Fetch(id: Id, c: Call) returns (t: Table)
      modifies this
      ensures MemoryOf(id) == Step(old(MemoryOf(id)), c) && t == Answer(MemoryOf(id))
      ensures forall other :: other != id ==> MemoryOf(other) == old(MemoryOf(other))
    {
      var cached := Cached(id, c.now);
      if cached.Some? {
        return cached.value;
      }
      t := Remember(id, c.later, c.walked);
    }

    /** Neighbours: two walks, of which both must succeed. */
    method FetchNeighbours(node: string, now: Time, later: Time, names: Walk, descs: Walk) returns (t: Table)
      modifies this
      ensures var id, walked := Id(node, Lldp), BothWalks(names, descs);
              MemoryOf(id) == Step(old(MemoryOf(id)), Call(now, later, walked)) && t == Answer(MemoryOf(id))
      ensures forall other :: other != Id(node, Lldp) ==> MemoryOf(other) == old(MemoryOf(other))
    {
      var id := Id(node, Lldp);
      var cached := Cached(id, now);
      if cached.Some? {
        return cached.value;
      }
      var sysNames, portDescs: Table := map[], map[];
      var success := true;
      if names.Some? {
        sysNames := names.value;
      } else {
        success := false;
      }
      if descs.Some? {
        portDescs := descs.value;
      } else {
        success := false;
      }
      var joined := Join(sysNames, portDescs);
      t := Remember(id, later, if success then Some(joined) else None);
    }
  }

  /** Two walks give the joined neighbours; a half-failed refresh counts as a failed one. */
  function BothWalks(names: Walk, descs: Walk): Walk {
    if names.Some? && descs.Some? then Some(Joined(names.value, descs.value)) else None
  }

  /** A fetch of one of a switch's tables, with what its one walk or its two walks give or would give. */
  datatype Request =
    | FetchDescriptions(node: string, call: Call)
    | FetchVlanNames(node: string, call: Call)
    | FetchLldp(node: string, now: Time, later: Time, names: Walk, descs: Walk)

  function IdOf(r: Request): Id {
    match r
    case FetchDescriptions(node, _) => Id(node, Descriptions)
    case FetchVlanNames(node, _) => Id(node, VlanNames)
    case FetchLldp(node, _, _, _, _) => Id(node, Lldp)
  }

  /** The call it amounts to: two walks succeed only together. */
  function CallOf(r: Request): Call {
    if r.FetchLldp? then Call(r.now, r.later, BothWalks(r.names, r.descs)) else r.call
  }

  /** The calls for one table. */
  function CallsOf(requests: seq<Request>, id: Id): seq<Call> {
    if requests == [] then []
    else
      var front, last := requests[..|requests| - 1], requests[|requests| - 1];
      CallsOf(front, id) + if IdOf(last) == id then [CallOf(last)] else []
  }

  /** What a run of fetches of any switches' tables leaves of one. */
  function Left(requests: seq<Request>, id: Id): Memory {
    if requests == [] then NOTHING
    else
      var before, last := Left(requests[..|requests| - 1], id), requests[|requests| - 1];
      if IdOf(last) == id then Step(before, CallOf(last)) else before
  }

  /** It is what the calls for that table alone would leave. */
  lemma {:induction false} TablesApart(requests: seq<Request>, id: Id)
    ensures Left(requests, id) == After(CallsOf(requests, id))
  {
    if requests != [] {
      var front, last := requests[..|requests| - 1], requests[|requests| - 1];
      TablesApart(front, id);
      var before := CallsOf(front, id);
      if IdOf(last) == id {
        assert (before + [CallOf(last)])[..|before|] == before;
      } else {
        assert before + [] == before;
      }
    }
  }

  ghost predicate Remembers(c: Collector, requests: seq<Request>)
    reads c
  {
    forall id :: c.MemoryOf(id) == Left(requests, id)
  }

  /** One fetch, by the method for its table. */
  method Serve(c: Collector, r: Request) returns (t: Table)
    modifies c
    ensures c.MemoryOf(IdOf(r)) == Step(old(c.MemoryOf(IdOf(r))), CallOf(r)) && t == Answer(c.MemoryOf(IdOf(r)))
    ensures forall other :: other != IdOf(r) ==> c.MemoryOf(other) == old(c.MemoryOf(other))
  {
    match r
    case FetchDescriptions(node, call) => t := c.Fetch(Id(node, Descriptions), call);
    case FetchVlanNames(node, call) => t := c.Fetch(Id(node, VlanNames), call);
    case FetchLldp(node, now, later, names, descs) => t := c.FetchNeighbours(node, now, later, names, descs);
  }

  /** The table of the most recent successful walk among the calls. */
  function LastTable(calls: seq<Call>): Table {
    if LastSuccess(calls).Some? then LastSuccess(calls).value.walked.GetOr(map[]) else map[]
  }

  lemma LeftIsLast(requests: seq<Request>, id: Id)
    ensures Answer(Left(requests, id)) == LastTable(CallsOf(requests, id))
  {
    TablesApart(requests, id);
    AnswersLastSuccess(CallsOf(requests, id));
  }

  /** The table of the most recent successful walk for the table that request `n` asks for. */
  function Expected(requests: seq<Request>, n: nat): Table {
    if n < |requests| then LastTable(CallsOf(requests[..n + 1], IdOf(requests[n]))) else map[]
  }

  method ServeNext(c: Collector, requests: seq<Request>, n: nat, ghost expected: nat -> Table) returns (t: Table)
    requires n < |requests| && Remembers(c, requests[..n]) && expected(n) == Expected(requests, n)
    modifies c
    ensures Remembers(c, requests[..n + 1]) && t == expected(n)
  {
    t := Serve(c, requests[n]);
    assert requests[..n + 1][..n] == requests[..n];
    LeftIsLast(requests[..n + 1], IdOf(requests[n]));
  }

  method ServeAll(c: Collector, requests: seq<Request>, ghost expected: nat -> Table) returns (answers: seq<Table>)
    requires Remembers(c, requests[..0]) && forall n: nat :: expected(n) == Expected(requests, n)
    modifies c
    ensures |answers| == |requests| && forall i :: 0 <= i < |requests| ==> answers[i] == expected(i)
  {
    answers := [];
    for i := 0 to |requests|
      invariant |answers| == i && Remembers(c, requests[..i])
      invariant forall j :: 0 <= j < i ==> answers[j] == expected(j)
    {
      var t := ServeNext(c, requests, i, expected);
      answers := answers + [t];
    }
  }

  /** In any run of fetches of any switches' tables, each answers the table of the most recent successful walk, or
      pair of walks, among its own table's calls. */
  method Run(requests: seq<Request>) returns (answers: seq<Table>)
    ensures |answers| == |requests|
    ensures forall i :: 0 <= i < |requests| ==> answers[i] == LastTable(CallsOf(requests[..i + 1], IdOf(requests[i])))
  {
    var c := new Collector();
    answers := ServeAll(c, requests, (n: nat) => Expected(requests, n));
  }
}
