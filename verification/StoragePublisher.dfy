/** Publishing drives and enclosures as devices that come, change and leave
    (src/sensors2mqtt/collector/storage/collector.py, `Published`, `StorageCollector.publish`). */
module StoragePublisher {
  import opened Wrappers

  /** A device's registry entry; `info` is everything but its node id. */
  datatype Device = Device(node: string, info: string)

  /** A sensor definition; `spec` is everything but its suffix. */
  datatype Sensor = Sensor(suffix: string, spec: string)

  /** One device of a poll: its sensors and the values they have. */
  datatype Item = Item(device: Device, sensors: seq<Sensor>, values: map<string, string>)

  datatype Topic = Config(node: string, suffix: string) | State(node: string) | Status(node: string) | Connection

  datatype Payload =
    | Discovery(sensor: Sensor, device: Device)
    | Json(values: map<string, Option<string>>)
    | Text(text: string)

  function SuffixSet(sensors: seq<Sensor>): set<string> {
    set s | s in sensors :: s.suffix
  }

  /** Every sensor has a value and every value a sensor, as `Published.add` builds them. */
  predicate Complete(item: Item) {
    SuffixSet(item.sensors) == item.values.Keys
  }

  class Published {
    const device: Device
    var sensors: seq<Sensor>
    var values: map<string, string>

    constructor (device: Device)
      ensures Snapshot() == Item(device, [], map[])
      ensures Complete(Snapshot())
    {
      this.device, sensors, values := device, [], map[];
    }

    function Snapshot(): Item
      reads this
    {
      Item(device, sensors, values)
    }

    /** No value, no sensor; a second value replaces the first but not its sensor. */
    method Add(sensor: Sensor, value: Option<string>)
      requires Complete(Snapshot())
      modifies this
      ensures Complete(Snapshot())
      ensures value.None? ==> Snapshot() == old(Snapshot())
      ensures value.Some? ==> values == old(values)[sensor.suffix := value.value]
      ensures value.Some? ==> sensors == if sensor.suffix in old(values) then old(sensors) else old(sensors) + [sensor]
    {
      if value.None? {
        return;
      }
      ghost var before := sensors;
      if sensor.suffix !in values {
        sensors := sensors + [sensor];
        assert SuffixSet(sensors) == SuffixSet(before) + {sensor.suffix};
      }
      values := values[sensor.suffix := value.value];
    }
  }

  // ------------------------------------------------------------------
  // What publishing offers to the broker
  // ------------------------------------------------------------------

  /** What the collector remembers of a node: its device as last published and the suffixes discovered. */
  datatype Known = Known(device: Device, discovered: set<string>)

  /** `offered` is the payload last published to each topic, whether or not it got there. */
  datatype Memory = Memory(published: map<string, Known>, offered: map<Topic, Payload>)

  predicate Renewed(known: map<string, Known>, item: Item) {
    item.device.node !in known || known[item.device.node].device != item.device
  }

  /** The suffixes discovered before that still count: none if the device is new or has changed. */
  function DoneBefore(known: map<string, Known>, item: Item): set<string> {
    if Renewed(known, item) then {} else known[item.device.node].discovered
  }

  function Undone(sensors: seq<Sensor>, done: set<string>): seq<Sensor> {
    if sensors == [] then []
    else
      var last := sensors[|sensors| - 1];
      Undone(sensors[..|sensors| - 1], done) + if last.suffix in done then [] else [last]
  }

  function OfferConfigs(offered: map<Topic, Payload>, device: Device, sensors: seq<Sensor>): map<Topic, Payload> {
    if sensors == [] then offered
    else
      var last := sensors[|sensors| - 1];
      OfferConfigs(offered, device, sensors[..|sensors| - 1])[
        Config(device.node, last.suffix) := Discovery(last, device)]
  }

  function StateValues(values: map<string, string>, discovered: set<string>): map<string, Option<string>> {
    map x | x in values.Keys + discovered :: if x in values then Some(values[x]) else None
  }

  /** One device of the poll. */
  function ItemStep(m: Memory, item: Item): Memory {
    var node := item.device.node;
    var done := DoneBefore(m.published, item);
    var todo := Undone(item.sensors, done);
    var discovered := done + SuffixSet(todo);
    Memory(m.published[node := Known(item.device, discovered)],
           OfferConfigs(m.offered, item.device, todo)
             [State(node) := Json(StateValues(item.values, discovered))][Status(node) := Text("online")])
  }

  function ConfigTopics(device: Device, sensors: seq<Sensor>): set<Topic> {
    set s | s in sensors :: Config(device.node, s.suffix)
  }

  /** The configurations one device of a poll offers. */
  function ConfigsOf(known: map<string, Known>, item: Item): set<Topic> {
    ConfigTopics(item.device, Undone(item.sensors, DoneBefore(known, item)))
  }

  /** The sets differ on no configuration but these. */
  ghost predicate SameBut(a: set<Topic>, b: set<Topic>, configs: set<Topic>) {
    forall t: Topic :: t.Config? && t !in configs ==> (t in a <==> t in b)
  }

  function ItemSteps(m: Memory, items: seq<Item>): Memory {
    if items == [] then m else ItemStep(ItemSteps(m, items[..|items| - 1]), items[|items| - 1])
  }

  /** The configurations a poll offers. */
  function Configs(m: Memory, items: seq<Item>): set<Topic> {
    if items == [] then {}
    else
      var front := items[..|items| - 1];
      Configs(m, front) + ConfigsOf(ItemSteps(m, front).published, items[|items| - 1])
  }

  function Nodes(items: seq<Item>): set<string> {
    set i | i in items :: i.device.node
  }

  /** Nodes the poll no longer has are marked offline and forgotten. */
  function Depart(m: Memory, seen: set<string>): Memory {
    Memory(map n | n in m.published && n in seen :: m.published[n],
           m.offered + map n | n in m.published && n !in seen :: Status(n) := Text("offline"))
  }

  function PublishStep(m: Memory, items: seq<Item>): Memory {
    var left := Depart(ItemSteps(m, items), Nodes(items));
    left.(offered := left.offered[Connection := Text("online")])
  }

  function After(polls: seq<seq<Item>>): Memory {
    if polls == [] then Memory(map[], map[]) else PublishStep(After(polls[..|polls| - 1]), polls[|polls| - 1])
  }

  // ------------------------------------------------------------------
  // The collector, its client and the broker
  // ------------------------------------------------------------------

  class Client {
    var retained: map<Topic, Payload>  // at the broker
    ghost var offered: map<Topic, Payload>
    ghost var intact: set<Topic>       // topics whose last payload got there and is still there

    constructor ()
      ensures Valid() && offered == map[] && intact == {}
    {
      retained, offered, intact := map[], map[], {};
    }

    ghost predicate Valid()
      reads this
    {
      && intact <= offered.Keys
      && forall t :: t in intact ==> t in retained && retained[t] == offered[t]
    }

    /** A retained publish whose outcome nobody looks at. */
    method Publish(topic: Topic, payload: Payload)
      requires Valid()
      modifies this
      ensures Valid() && offered == old(offered)[topic := payload]
      ensures intact == old(intact) + {topic} || intact == old(intact) - {topic}
    {
      var arrives: bool := *;
      offered := offered[topic := payload];
      if arrives {
        retained, intact := retained[topic := payload], intact + {topic};
      } else {
        intact := intact - {topic};
      }
    }

    method PublishDiscovery(sensors: seq<Sensor>, device: Device)
      requires Valid()
      modifies this
      ensures Valid() && offered == OfferConfigs(old(offered), device, sensors)
      ensures SameBut(intact, old(intact), ConfigTopics(device, sensors))
    {
      for i := 0 to |sensors|
        invariant Valid() && offered == OfferConfigs(old(offered), device, sensors[..i])
        invariant SameBut(intact, old(intact), ConfigTopics(device, sensors))
      {
        assert sensors[..i + 1][..i] == sensors[..i];
        Publish(Config(device.node, sensors[i].suffix), Discovery(sensors[i], device));
      }
      assert sensors[..|sensors|] == sensors;
    }
  }

  class Collector {
    const client: Client
    var published: map<string, Known>

    constructor (client: Client)
      ensures this.client == client && published == map[]
    {
      this.client, published := client, map[];
    }

    ghost function Memo(): Memory
      reads this, client
    {
      Memory(published, client.offered)
    }

    /** A discovered sensor without a value is published as null, not left out. */
    method StateOf(values: map<string, string>, discovered: set<string>) returns (state: map<string, Option<string>>)
      ensures state == StateValues(values, discovered)
    {
      state := map x | x in values :: Some(values[x]);
      var missing := discovered - values.Keys;
      while missing != {}
        invariant missing <= discovered - values.Keys
        invariant state == StateValues(values, discovered - missing)
        decreases missing
      {
        var x :| x in missing;
        missing := missing - {x};
        state := state[x := None];
      }
      assert discovered - missing == discovered;
    }

    /** A device that is new or has changed is discovered as a whole, another one where it has new suffixes. */
    method ToDiscover(item: Item) returns (done: set<string>, todo: seq<Sensor>)
      ensures done == DoneBefore(published, item) && todo == Undone(item.sensors, done)
    {
      var node := item.device.node;
      done, todo := {}, item.sensors;
      if node in published && published[node].device == item.device {
        done := published[node].discovered;
        todo := Undone(item.sensors, done);
      } else {
        UndoneAll(item.sensors);
      }
    }

    method PublishItem(item: Item)
      requires client.Valid()
      modifies this, client
      ensures client.Valid() && Memo() == ItemStep(old(Memo()), item)
      ensures SameBut(client.intact, old(client.intact), ConfigsOf(old(published), item))
    {
      var node := item.device.node;
      var done, todo := ToDiscover(item);
      client.PublishDiscovery(todo, item.device);
      var discovered := done + SuffixSet(todo);
      published := published[node := Known(item.device, discovered)];
      PublishState(node, item.values, discovered);
    }

    method PublishState(node: string, values: map<string, string>, discovered: set<string>)
      requires client.Valid()
      modifies client
      ensures client.Valid() && SameBut(client.intact, old(client.intact), {})
      ensures client.offered
           == old(client.offered)[State(node) := Json(StateValues(values, discovered))][Status(node) := Text("online")]
    {
      var state := StateOf(values, discovered);
      client.Publish(State(node), Json(state));
      client.Publish(Status(node), Text("online"));
    }

    /** The nodes this poll does not have go offline and are forgotten. */
    method Forget(seen: set<string>)
      requires client.Valid()
      modifies this, client
      ensures client.Valid() && Memo() == Depart(old(Memo()), seen)
      ensures SameBut(client.intact, old(client.intact), {})
    {
      ghost var all, gone := Memo(), {};
      var left := published.Keys - seen;
      while left != {}
        invariant client.Valid()
        invariant left <= all.published.Keys && left !! seen && gone == all.published.Keys - seen - left
        invariant Departed(all, Memo(), gone) && SameBut(client.intact, old(client.intact), {})
        decreases left
      {
        var node :| node in left;
        DepartedOne(all, Memo(), gone, node);
        left, gone := left - {node}, gone + {node};
        client.Publish(Status(node), Text("offline"));
        published := published - {node};
      }
      assert gone == all.published.Keys - seen;
      DepartedIsDepart(all, Memo(), seen);
    }

    method PublishItems(items: seq<Item>) returns (seen: set<string>)
      requires client.Valid()
      modifies this, client
      ensures client.Valid() && seen == Nodes(items) && Memo() == ItemSteps(old(Memo()), items)
      ensures SameBut(client.intact, old(client.intact), Configs(old(Memo()), items))
    {
      seen := {};
      for i := 0 to |items|
        invariant client.Valid()
        invariant seen == Nodes(items[..i]) && Memo() == ItemSteps(old(Memo()), items[..i])
        invariant SameBut(client.intact, old(client.intact), Configs(old(Memo()), items[..i]))
      {
        NodesOfLast(items[..i + 1]);
        assert items[..i + 1][..i] == items[..i];
        seen := seen + {items[i].device.node};
        PublishItem(items[i]);
      }
      assert items[..|items|] == items;
    }

    method Publish(items: seq<Item>)
      requires client.Valid()
      modifies this, client
      ensures client.Valid() && Memo() == PublishStep(old(Memo()), items)
      ensures SameBut(client.intact, old(client.intact), Configs(old(Memo()), items))
    {
      var seen := PublishItems(items);
      Forget(seen);
      client.Publish(Connection, Text("online"));
    }
  }

  /** The nodes `gone` are marked offline and forgotten, nothing else has changed. */
  ghost predicate Departed(m: Memory, d: Memory, gone: set<string>) {
    && d.published == m.published - gone
    && (forall t: Topic {:trigger t in d.offered} ::
          if t.Status? && t.node in gone then Offers(d, t, Text("offline"))
          else (t in d.offered <==> t in m.offered) && (t in d.offered ==> d.offered[t] == m.offered[t]))
  }

  lemma DepartedOne(m: Memory, d: Memory, gone: set<string>, node: string)
    requires Departed(m, d, gone)
    ensures Departed(m, Memory(d.published - {node}, d.offered[Status(node) := Text("offline")]), gone + {node})
  {
    var e := Memory(d.published - {node}, d.offered[Status(node) := Text("offline")]);
    assert e.published == m.published - (gone + {node});
    forall t: Topic
      ensures if t.Status? && t.node in gone + {node} then Offers(e, t, Text("offline"))
              else (t in e.offered <==> t in m.offered) && (t in e.offered ==> e.offered[t] == m.offered[t])
    {
      assert t in d.offered || t !in d.offered;
      assert t.Status? && t.node == node ==> t == Status(node);
    }
  }

  lemma DepartedIsDepart(m: Memory, d: Memory, seen: set<string>)
    requires Departed(m, d, m.published.Keys - seen)
    ensures d == Depart(m, seen)
  {
    var e := Depart(m, seen);
    assert e.published == d.published;
    forall t: Topic ensures t in d.offered <==> t in e.offered {
      assert t.Status? && t.node in m.published.Keys - seen ==> t == Status(t.node);
    }
    assert e.offered == d.offered;
  }

  lemma {:induction false} UndoneAll(sensors: seq<Sensor>)
    ensures Undone(sensors, {}) == sensors
  {
    if sensors != [] {
      UndoneAll(sensors[..|sensors| - 1]);
    }
  }

  // ------------------------------------------------------------------
  // What holds after every poll of every run
  // ------------------------------------------------------------------

  predicate Offers(m: Memory, t: Topic, p: Payload) {
    t in m.offered && m.offered[t] == p
  }

  /** A node published at some time is offered online exactly while it is remembered. */
  predicate StatusOk(m: Memory, node: string) {
    Offers(m, Status(node), Text(if node in m.published then "online" else "offline"))
  }

  /** Every suffix remembered as discovered is offered with the node's current device. */
  predicate ConfigOk(m: Memory, node: string, x: string) {
    && node in m.published && Config(node, x) in m.offered
    && m.offered[Config(node, x)].Discovery?
    && m.offered[Config(node, x)].device == m.published[node].device
    && m.offered[Config(node, x)].sensor.suffix == x
  }

  ghost predicate Invariant(m: Memory, ever: set<string>) {
    && m.published.Keys <= ever
    && (forall n :: n in ever ==> StatusOk(m, n))
    && (forall n :: n in m.published ==> m.published[n].device.node == n)
    && (forall n, x {:trigger ConfigOk(m, n, x)} ::
          n in m.published && x in m.published[n].discovered ==> ConfigOk(m, n, x))
  }

  lemma SuffixesMore(sensors: seq<Sensor>)
    requires sensors != []
    ensures SuffixSet(sensors) == SuffixSet(sensors[..|sensors| - 1]) + {sensors[|sensors| - 1].suffix}
  {
    assert sensors == sensors[..|sensors| - 1] + [sensors[|sensors| - 1]];
  }

  lemma {:induction false} OfferedConfigs(offered: map<Topic, Payload>, device: Device, sensors: seq<Sensor>, t: Topic)
    ensures var after := OfferConfigs(offered, device, sensors);
            if t.Config? && t.node == device.node && t.suffix in SuffixSet(sensors)
            then t in after && after[t].Discovery? && after[t].device == device && after[t].sensor.suffix == t.suffix
            else (t in after <==> t in offered) && (t in after ==> after[t] == offered[t])
  {
    if sensors != [] {
      var n := |sensors| - 1;
      OfferedConfigs(offered, device, sensors[..n], t);
      SuffixesMore(sensors);
    }
  }

  lemma {:induction false} UndoneSuffixes(sensors: seq<Sensor>, done: set<string>)
    ensures SuffixSet(Undone(sensors, done)) == SuffixSet(sensors) - done
  {
    if sensors != [] {
      var front, last := sensors[..|sensors| - 1], sensors[|sensors| - 1];
      UndoneSuffixes(front, done);
      SuffixesMore(sensors);
      assert last.suffix in done ==> Undone(sensors, done) == Undone(front, done);
      assert last.suffix !in done ==>
          SuffixSet(Undone(sensors, done)) == SuffixSet(Undone(front, done)) + {last.suffix};
    }
  }

  /** What one device of a poll makes of its own node. */
  lemma ItemOwn(m: Memory, item: Item)
    ensures var node, after := item.device.node, ItemStep(m, item);
            var discovered := DoneBefore(m.published, item) + SuffixSet(item.sensors);
            && after.published == m.published[node := Known(item.device, discovered)]
            && Offers(after, Status(node), Text("online"))
            && Offers(after, State(node), Json(StateValues(item.values, discovered)))
  {
    var done := DoneBefore(m.published, item);
    UndoneSuffixes(item.sensors, done);
    assert done + SuffixSet(Undone(item.sensors, done)) == done + SuffixSet(item.sensors);
  }

  /** What it makes of any other topic: configurations of suffixes not discovered before, nothing else. */
  lemma ItemOffers(m: Memory, item: Item, t: Topic)
    requires t != Status(item.device.node) && t != State(item.device.node)
    ensures var node, after := item.device.node, ItemStep(m, item);
            var todo := SuffixSet(item.sensors) - DoneBefore(m.published, item);
            if t.Config? && t.node == node && t.suffix in todo then ConfigOk(after, node, t.suffix)
            else (t in after.offered <==> t in m.offered) && (t in m.offered ==> after.offered[t] == m.offered[t])
  {
    var done := DoneBefore(m.published, item);
    UndoneSuffixes(item.sensors, done);
    OfferedConfigs(m.offered, item.device, Undone(item.sensors, done), t);
  }

  lemma ItemKeeps(m: Memory, item: Item, ever: set<string>)
    requires Invariant(m, ever)
    ensures Invariant(ItemStep(m, item), ever + {item.device.node})
  {
    var node, after := item.device.node, ItemStep(m, item);
    ItemOwn(m, item);
    forall n | n in ever + {node} ensures StatusOk(after, n) {
      if n != node {
        ItemOffers(m, item, Status(n));
        assert StatusOk(m, n);
      }
    }
    forall n, x | n in after.published && x in after.published[n].discovered
      ensures ConfigOk(after, n, x)
    {
      ItemOffers(m, item, Config(n, x));
      if n != node || x in DoneBefore(m.published, item) {
        assert ConfigOk(m, n, x);
      }
    }
  }

  lemma NodesOfLast(items: seq<Item>)
    requires items != []
    ensures Nodes(items) == Nodes(items[..|items| - 1]) + {items[|items| - 1].device.node}
  {
    assert items == items[..|items| - 1] + [items[|items| - 1]];
  }

  lemma ItemKeys(m: Memory, item: Item)
    ensures ItemStep(m, item).published.Keys == m.published.Keys + {item.device.node}
  {
  }

  lemma {:induction false} ItemsKeys(m: Memory, items: seq<Item>)
    ensures ItemSteps(m, items).published.Keys == m.published.Keys + Nodes(items)
  {
    if items != [] {
      ItemsKeys(m, items[..|items| - 1]);
      ItemKeys(ItemSteps(m, items[..|items| - 1]), items[|items| - 1]);
      NodesOfLast(items);
    }
  }

  lemma {:induction false} ItemsKeep(m: Memory, items: seq<Item>, ever: set<string>)
    requires Invariant(m, ever)
    ensures Invariant(ItemSteps(m, items), ever + Nodes(items))
  {
    if items == [] {
      assert ever + Nodes(items) == ever;
    } else {
      var front, last := items[..|items| - 1], items[|items| - 1];
      ItemsKeep(m, front, ever);
      ItemKeeps(ItemSteps(m, front), last, ever + Nodes(front));
      NodesOfLast(items);
      assert ever + Nodes(items) == ever + Nodes(front) + {last.device.node};
    }
  }

  lemma DepartKeeps(m: Memory, seen: set<string>, ever: set<string>)
    requires Invariant(m, ever)
    ensures Invariant(Depart(m, seen), ever)
  {
    var d := Depart(m, seen);
    forall n | n in ever ensures StatusOk(d, n) {
      assert StatusOk(m, n);
    }
    forall n, x | n in d.published && x in d.published[n].discovered ensures ConfigOk(d, n, x) {
      assert ConfigOk(m, n, x);
    }
  }

  lemma ConnectionKeeps(m: Memory, ever: set<string>, p: Payload)
    requires Invariant(m, ever)
    ensures Invariant(m.(offered := m.offered[Connection := p]), ever)
  {
    var c := m.(offered := m.offered[Connection := p]);
    forall n | n in ever ensures StatusOk(c, n) {
      assert StatusOk(m, n);
    }
    forall n, x | n in c.published && x in c.published[n].discovered ensures ConfigOk(c, n, x) {
      assert ConfigOk(m, n, x);
    }
  }

  lemma PublishKeeps(m: Memory, items: seq<Item>, ever: set<string>)
    requires Invariant(m, ever)
    ensures Invariant(PublishStep(m, items), ever + Nodes(items))
    ensures PublishStep(m, items).published.Keys == (m.published.Keys + Nodes(items)) * Nodes(items)
  {
    var all := ItemSteps(m, items);
    ItemsKeep(m, items, ever);
    ItemsKeys(m, items);
    DepartKeeps(all, Nodes(items), ever + Nodes(items));
    ConnectionKeeps(Depart(all, Nodes(items)), ever + Nodes(items), Text("online"));
  }

  function Ever(polls: seq<seq<Item>>): set<string> {
    if polls == [] then {} else Ever(polls[..|polls| - 1]) + Nodes(polls[|polls| - 1])
  }

  /** After every poll of every run: every node ever published is offered online or offline, online
      exactly if it is remembered, which is if the last poll had it; every suffix remembered as
      discovered is offered with its node's current device; and the collector itself is offered online. */
  lemma {:induction false} RunKeeps(polls: seq<seq<Item>>)
    ensures Invariant(After(polls), Ever(polls))
    ensures polls != [] ==> Offers(After(polls), Connection, Text("online"))
    ensures After(polls).published.Keys == if polls == [] then {} else Nodes(polls[|polls| - 1])
  {
    if polls != [] {
      RunKeeps(polls[..|polls| - 1]);
      PublishKeeps(After(polls[..|polls| - 1]), polls[|polls| - 1], Ever(polls[..|polls| - 1]));
    }
  }

  /** The sensors the items of a poll have, each with its device. */
  function Had(items: seq<Item>): set<(Device, Sensor)> {
    set i, s | i in items && s in i.sensors :: (i.device, s)
  }

  function EverHad(polls: seq<seq<Item>>): set<(Device, Sensor)> {
    if polls == [] then {} else EverHad(polls[..|polls| - 1]) + Had(polls[|polls| - 1])
  }

  /** What is offered as the configuration of a suffix is one of these sensors, under the topic of its node and
      suffix. */
  ghost predicate Configured(offered: map<Topic, Payload>, had: set<(Device, Sensor)>) {
    forall t :: t in offered && t.Config? ==>
      && offered[t].Discovery? && (offered[t].device, offered[t].sensor) in had
      && t == Config(offered[t].device.node, offered[t].sensor.suffix)
  }

  lemma {:induction false} OfferConfigured(
      offered: map<Topic, Payload>, device: Device, sensors: seq<Sensor>, had: set<(Device, Sensor)>)
    requires Configured(offered, had) && forall s :: s in sensors ==> (device, s) in had
    ensures Configured(OfferConfigs(offered, device, sensors), had)
  {
    if sensors != [] {
      OfferConfigured(offered, device, sensors[..|sensors| - 1], had);
    }
  }

  lemma {:induction false} UndoneFrom(sensors: seq<Sensor>, done: set<string>)
    ensures forall s :: s in Undone(sensors, done) ==> s in sensors
  {
    if sensors != [] {
      UndoneFrom(sensors[..|sensors| - 1], done);
    }
  }

  lemma {:induction false} ItemsConfigured(m: Memory, items: seq<Item>, had: set<(Device, Sensor)>)
    requires Configured(m.offered, had) && Had(items) <= had
    ensures Configured(ItemSteps(m, items).offered, had)
  {
    if items != [] {
      var front, last := items[..|items| - 1], items[|items| - 1];
      var before := ItemSteps(m, front);
      var todo := Undone(last.sensors, DoneBefore(before.published, last));
      ItemsConfigured(m, front, had);
      UndoneFrom(last.sensors, DoneBefore(before.published, last));
      assert forall s :: s in last.sensors ==> (last.device, s) in Had(items);
      OfferConfigured(before.offered, last.device, todo, had);
    }
  }

  /** Over every run: each configuration offered is of a sensor that an item of some poll had, with that item's
      device. */
  lemma {:induction false} RunConfigures(polls: seq<seq<Item>>)
    ensures Configured(After(polls).offered, EverHad(polls))
  {
    if polls != [] {
      var front, last := polls[..|polls| - 1], polls[|polls| - 1];
      RunConfigures(front);
      ItemsConfigured(After(front), last, EverHad(polls));
    }
  }

  /** The last item of a node in a poll. */
  predicate LastOf(items: seq<Item>, i: nat) {
    i < |items| && forall j :: i < j < |items| ==> items[j].device.node != items[i].device.node
  }

  lemma {:induction false} StateOfItems(m: Memory, items: seq<Item>, i: nat)
    requires LastOf(items, i) && Complete(items[i])
    ensures var node, after := items[i].device.node, ItemSteps(m, items);
            && node in after.published
            && after.published[node].device == items[i].device
            && Offers(after, State(node), Json(StateValues(items[i].values, after.published[node].discovered)))
            && items[i].values.Keys <= after.published[node].discovered
  {
    var n := |items| - 1;
    if i == n {
      ItemOwn(ItemSteps(m, items[..n]), items[n]);
    } else {
      assert LastOf(items[..n], i) && items[..n][i] == items[i];
      StateOfItems(m, items[..n], i);
      ItemOwn(ItemSteps(m, items[..n]), items[n]);
      ItemOffers(ItemSteps(m, items[..n]), items[n], State(items[i].device.node));
    }
  }

  /** Departures touch neither the states nor the nodes the poll had. */
  lemma PublishedItems(m: Memory, items: seq<Item>, node: string)
    requires node in Nodes(items) && node in ItemSteps(m, items).published
    ensures var all, after := ItemSteps(m, items), PublishStep(m, items);
            && node in after.published && after.published[node] == all.published[node]
            && (State(node) in all.offered ==>
                  State(node) in after.offered && after.offered[State(node)] == all.offered[State(node)])
  {
  }

  /** What a state that was offered and is still says. */
  ghost predicate StateSays(m: Memory, item: Item) {
    var node := item.device.node;
    && node in m.published && m.published[node].device == item.device
    && State(node) in m.offered && m.offered[State(node)].Json?
    && var state := m.offered[State(node)].values;
    && item.values.Keys <= state.Keys == m.published[node].discovered
    && forall x :: x in state ==> state[x] == if x in item.values then Some(item.values[x]) else None
  }

  lemma StateKept(all: Memory, after: Memory, item: Item)
    requires var node := item.device.node;
             && node in all.published && all.published[node].device == item.device
             && item.values.Keys <= all.published[node].discovered
             && Offers(all, State(node), Json(StateValues(item.values, all.published[node].discovered)))
             && node in after.published && after.published[node] == all.published[node]
             && State(node) in after.offered && after.offered[State(node)] == all.offered[State(node)]
    ensures StateSays(after, item)
  {
  }

  /** Each node of the last poll is remembered with the device it had there, and the state it is left with has exactly
      its discovered suffixes as keys, all that this poll had a value for among them, null for the others. */
  lemma StateHasDiscovered(polls: seq<seq<Item>>, i: nat)
    requires polls != [] && LastOf(polls[|polls| - 1], i) && Complete(polls[|polls| - 1][i])
    ensures StateSays(After(polls), polls[|polls| - 1][i])
  {
    var items := polls[|polls| - 1];
    var before := After(polls[..|polls| - 1]);
    StateOfItems(before, items, i);
    assert items[i].device.node in Nodes(items);
    PublishedItems(before, items, items[i].device.node);
    StateKept(ItemSteps(before, items), After(polls), items[i]);
  }

  /** Discovery is not repeated: while a node's device stays the same, a poll offers nothing for a
      suffix already discovered. */
  lemma DiscoveryNotRepeated(m: Memory, item: Item, x: string)
    requires !Renewed(m.published, item) && x in m.published[item.device.node].discovered
    ensures var t := Config(item.device.node, x);
            var after := OfferConfigs(m.offered, item.device, Undone(item.sensors, DoneBefore(m.published, item)));
            (t in after <==> t in m.offered) && (t in after ==> after[t] == m.offered[t])
    ensures forall i :: 0 <= i < |Undone(item.sensors, DoneBefore(m.published, item))| ==>
              Undone(item.sensors, DoneBefore(m.published, item))[i].suffix != x
  {
    var done := DoneBefore(m.published, item);
    UndoneSuffixes(item.sensors, done);
    OfferedConfigs(m.offered, item.device, Undone(item.sensors, done), Config(item.device.node, x));
    forall i | 0 <= i < |Undone(item.sensors, done)|
      ensures Undone(item.sensors, done)[i].suffix != x
    {
      assert Undone(item.sensors, done)[i].suffix in SuffixSet(Undone(item.sensors, done));
    }
  }

  /** Every poll has the node, with the device it had. */
  predicate Keeps(polls: seq<seq<Item>>, device: Device) {
    forall p :: 0 <= p < |polls| ==> KeepsDevice(polls[p], device)
  }

  predicate KeepsDevice(items: seq<Item>, device: Device) {
    && device.node in Nodes(items)
    && forall i :: 0 <= i < |items| && items[i].device.node == device.node ==> items[i].device == device
  }

  /** The node is known with its device and the suffix has been discovered. */
  predicate Knows(m: Memory, device: Device, x: string) {
    && device.node in m.published
    && m.published[device.node].device == device && x in m.published[device.node].discovered
  }

  lemma ItemNotReoffered(m: Memory, item: Item, device: Device, x: string)
    requires Knows(m, device, x) && (item.device.node == device.node ==> item.device == device)
    ensures Knows(ItemStep(m, item), device, x)
    ensures Config(device.node, x) !in ConfigsOf(m.published, item)
  {
    var done := DoneBefore(m.published, item);
    UndoneSuffixes(item.sensors, done);
    if item.device.node == device.node {
      assert x in done;
      forall s | s in Undone(item.sensors, done)
        ensures s.suffix != x
      {
        assert s.suffix in SuffixSet(Undone(item.sensors, done));
      }
    }
  }

  /** A poll with the same device offers no configuration of a suffix already discovered. */
  lemma {:induction false} ItemsNotReoffered(m: Memory, items: seq<Item>, device: Device, x: string)
    requires Knows(m, device, x)
    requires forall i :: 0 <= i < |items| && items[i].device.node == device.node ==> items[i].device == device
    ensures Knows(ItemSteps(m, items), device, x) && Config(device.node, x) !in Configs(m, items)
  {
    if items != [] {
      var front := items[..|items| - 1];
      ItemsNotReoffered(m, front, device, x);
      ItemNotReoffered(ItemSteps(m, front), items[|items| - 1], device, x);
    }
  }

  lemma PollNotReoffered(m: Memory, items: seq<Item>, device: Device, x: string)
    requires Knows(m, device, x) && KeepsDevice(items, device)
    ensures Knows(PublishStep(m, items), device, x) && Config(device.node, x) !in Configs(m, items)
  {
    ItemsNotReoffered(m, items, device, x);
  }

  /** From any state: over any polls that have the node with the same device, a discovered configuration that is not
      intact at the broker does not become so, nor does one that is stop being so. */
  method KeepPublishing(c: Collector, polls: seq<seq<Item>>, device: Device, x: string)
    requires c.client.Valid() && Knows(c.Memo(), device, x) && Keeps(polls, device)
    modifies c, c.client
    ensures c.client.Valid() && Knows(c.Memo(), device, x)
    ensures Config(device.node, x) in c.client.intact <==> old(Config(device.node, x) in c.client.intact)
  {
    for i := 0 to |polls|
      invariant c.client.Valid() && Knows(c.Memo(), device, x)
      invariant Config(device.node, x) in c.client.intact <==> old(Config(device.node, x) in c.client.intact)
    {
      assert KeepsDevice(polls[i], device);
      PollNotReoffered(c.Memo(), polls[i], device, x);
      c.Publish(polls[i]);
    }
  }

  /** A run of polls from the start. Where the last publish to a topic arrived and nothing was lost
      since, the broker retains what the invariant says is offered. */
  method RunPolls(polls: seq<seq<Item>>) returns (c: Collector)
    ensures c.client.Valid() && c.Memo() == After(polls)
    ensures forall n :: n in Ever(polls) && Status(n) in c.client.intact ==>
              && Status(n) in c.client.retained
              && c.client.retained[Status(n)] == Text(if n in c.published then "online" else "offline")
    ensures forall n, x :: n in c.published && x in c.published[n].discovered && Config(n, x) in c.client.intact ==>
              && Config(n, x) in c.client.retained && c.client.retained[Config(n, x)].Discovery?
              && c.client.retained[Config(n, x)].device == c.published[n].device
    ensures polls != [] && Connection in c.client.intact ==>
              Connection in c.client.retained && c.client.retained[Connection] == Text("online")
  {
    var client := new Client();
    c := new Collector(client);
    for i := 0 to |polls|
      invariant fresh(c) && fresh(c.client) && c.client.Valid()
      invariant c.Memo() == After(polls[..i])
    {
      assert polls[..i + 1][..i] == polls[..i];
      c.Publish(polls[i]);
    }
    assert polls[..|polls|] == polls;
    RunKeeps(polls);
    ghost var m := c.Memo();
    assert forall n :: n in Ever(polls) ==> StatusOk(m, n);
    assert forall n, x :: n in m.published && x in m.published[n].discovered ==> ConfigOk(m, n, x);
  }
}
