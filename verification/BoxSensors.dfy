/** The sensors of a switch's box services: readings in instance order get suffixes by their place, discovery
    finds them again by probing (src/sensors2mqtt/collector/snmp.py, `box_entity`, the box walks of `poll_switch`,
    `get_sensors_for_switch`, `new_sensor_defs`). */
module BoxSensors {
  import opened Numerals
  import opened Ordering

  datatype Kind = Fan | Temp | PsuPower

  /** A walked row: its instance, and an absent slot, a text that is no integer or a number. */
  datatype Raw = NotSupported | NotInteger | Number(value: int)
  datatype Row = Row(instance: seq<int>, raw: Raw)

  datatype Outcome = Failed | Rows(rows: seq<Row>)

  datatype Reading = Reading(instance: seq<int>, value: int)

  type Values = map<string, int>

  // ------------------------------------------------------------------
  // Suffixes
  // ------------------------------------------------------------------

  function Stem(kind: Kind): string {
    match kind
    case Fan => "fan"
    case Temp => "temp"
    case PsuPower => "psu_power"
  }

  /** The suffix `box_entity` gives. */
  function Suffix(kind: Kind, ordinal: nat): string {
    if kind.Fan? then "fan" + NatText(ordinal + 1) + "_rpm"
    else if ordinal == 0 then Stem(kind)
    else Stem(kind) + NatText(ordinal + 1)
  }

  lemma SuffixStart(kind: Kind, ordinal: nat)
    ensures |Suffix(kind, ordinal)| >= 4 && Suffix(kind, ordinal)[0] == Stem(kind)[0]
    ensures kind.PsuPower? ==> Suffix(kind, ordinal)[1] == 's'
  {
  }

  /** Every kind and ordinal has its own suffix. */
  lemma SuffixInjective(kind: Kind, ordinal: nat, kind': Kind, ordinal': nat)
    requires Suffix(kind, ordinal) == Suffix(kind', ordinal')
    ensures kind == kind' && ordinal == ordinal'
  {
    SuffixStart(kind, ordinal);
    SuffixStart(kind', ordinal');
    assert kind == kind';
    var s, n, n', stem := Suffix(kind, ordinal), NatText(ordinal + 1), NatText(ordinal' + 1), Stem(kind);
    if kind.Fan? {
      assert s[3..|s| - 4] == n && s[3..|s| - 4] == n';
      NatTextInjective(ordinal + 1, ordinal' + 1);
    } else if ordinal > 0 && ordinal' > 0 {
      assert s[|stem|..] == n && s[|stem|..] == n';
      NatTextInjective(ordinal + 1, ordinal' + 1);
    } else {
      assert |s| == |stem| <==> ordinal == 0;
      assert |s| == |stem| <==> ordinal' == 0;
    }
  }

  /** The suffixes that recorded history is kept under. */
  lemma HistoricSuffixes()
    ensures Suffix(Fan, 0) == "fan1_rpm" && Suffix(Fan, 1) == "fan2_rpm" && Suffix(Fan, 9) == "fan10_rpm"
    ensures Suffix(Temp, 0) == "temp" && Suffix(Temp, 1) == "temp2" && Suffix(Temp, 9) == "temp10"
    ensures Suffix(PsuPower, 0) == "psu_power" && Suffix(PsuPower, 1) == "psu_power2"
  {
    assert NatText(1) == "1" && NatText(2) == "2";
    assert NatText(10) == NatText(1) + NatText(0) == "10";
  }

  /** How box sensors are named: `Suffix`, of which the rest uses only that no two sensors share a name. */
  type Naming = (Kind, nat) -> string

  ghost predicate Injective(name: Naming) {
    forall k, o, k', o' :: name(k, o) == name(k', o') ==> k == k' && o == o'
  }

  lemma SuffixesDiffer()
    ensures Injective(Suffix)
  {
    forall k, o, k', o' | Suffix(k, o) == Suffix(k', o')
      ensures k == k' && o == o'
    {
      SuffixInjective(k, o, k', o');
    }
  }

  ghost predicate IsBoxName(name: Naming, s: string) {
    exists k, o :: s == name(k, o)
  }

  /** The suffixes of the other sensors, `poe_total_power` and `port{index:02}_poe_mw`, are none of these. */
  lemma PoeSuffixesAreNoBoxSuffixes(index: string)
    ensures !IsBoxName(Suffix, "poe_total_power") && !IsBoxName(Suffix, "port" + index + "_poe_mw")
  {
    forall k, o
      ensures Suffix(k, o) != "poe_total_power" && Suffix(k, o) != "port" + index + "_poe_mw"
    {
      SuffixStart(k, o);
    }
  }

  // ------------------------------------------------------------------
  // Readings in instance order
  // ------------------------------------------------------------------

  /** Tuples of instance and value. */
  predicate ReadingLe(a: Reading, b: Reading) {
    if a.instance == b.instance then a.value <= b.value else LexLe(IntLe, a.instance, b.instance)
  }

  lemma ReadingOrder()
    ensures TotalOrder(ReadingLe)
  {
    assert TotalOrder(IntLe);
    forall a, b
      ensures ReadingLe(a, b) || ReadingLe(b, a)
      ensures ReadingLe(a, b) && ReadingLe(b, a) ==> a == b
    {
      LexTotal(IntLe, a.instance, b.instance);
    }
    forall a, b, c | ReadingLe(a, b) && ReadingLe(b, c)
      ensures ReadingLe(a, c)
    {
      if a.instance != b.instance && b.instance != c.instance {
        LexTransitive(IntLe, a.instance, b.instance, c.instance);
        LexTotal(IntLe, a.instance, b.instance);
      }
    }
  }

  /** The rows that are readings. */
  function Readings(rows: seq<Row>): seq<Reading> {
    if rows == [] then []
    else
      var front, last := rows[..|rows| - 1], rows[|rows| - 1];
      Readings(front) + if last.raw.Number? then [Reading(last.instance, last.raw.value)] else []
  }

  function Ranked(walk: Outcome): seq<Reading> {
    if walk.Failed? then [] else Sort(ReadingLe, Readings(walk.rows))
  }

  lemma {:induction false} ReadingsPermuted(rows: seq<Row>, r: Reading)
    ensures multiset(Readings(rows))[r] == multiset(rows)[Row(r.instance, Number(r.value))]
  {
    if rows != [] {
      var front, last := rows[..|rows| - 1], rows[|rows| - 1];
      ReadingsPermuted(front, r);
      assert rows == front + [last];
    }
  }

  /** The ranking depends only on which rows were walked, not on their order. */
  lemma RankedIgnoresOrder(rows: seq<Row>, rows': seq<Row>)
    requires multiset(rows) == multiset(rows')
    ensures Ranked(Rows(rows)) == Ranked(Rows(rows'))
  {
    var a, b := multiset(Readings(rows)), multiset(Readings(rows'));
    forall r: Reading
      ensures a[r] == b[r]
    {
      ReadingsPermuted(rows, r);
      ReadingsPermuted(rows', r);
    }
    assert a == b;
    ReadingOrder();
    SortCanonical(ReadingLe, Readings(rows), Readings(rows'));
  }

  // ------------------------------------------------------------------
  // Which reading gets which place
  // ------------------------------------------------------------------

  /** The instance `a` is smaller: its numbers are the first of those of `b`, or less where they first differ. */
  ghost predicate Smaller(a: seq<int>, b: seq<int>) {
    a < b || exists k: nat :: DifferAt(a, b, k) && a[k] < b[k]
  }

  /** The numeric rows with smaller instances, and those with the same one. */
  ghost function CountSmaller(rows: seq<Row>, instance: seq<int>): nat {
    if rows == [] then 0
    else
      var last := rows[|rows| - 1];
      CountSmaller(rows[..|rows| - 1], instance) + if last.raw.Number? && Smaller(last.instance, instance) then 1 else 0
  }

  function CountSame(rows: seq<Row>, instance: seq<int>): nat {
    if rows == [] then 0
    else
      var last := rows[|rows| - 1];
      CountSame(rows[..|rows| - 1], instance) + if last.raw.Number? && last.instance == instance then 1 else 0
  }

  lemma SmallerMeans(a: seq<int>, b: seq<int>)
    ensures Smaller(a, b) <==> a != b && LexLe(IntLe, a, b)
    ensures Smaller(a, b) ==> !Smaller(b, a)
    ensures a != b ==> Smaller(a, b) || Smaller(b, a)
  {
    LexMeans(IntLe, a, b);
    LexMeans(IntLe, b, a);
    LexTotal(IntLe, a, b);
    assert forall k: nat :: DifferAt(a, b, k) ==> (IntLe(a[k], b[k]) <==> a[k] < b[k]);
    assert forall k: nat :: DifferAt(b, a, k) ==> (IntLe(b[k], a[k]) <==> b[k] < a[k]);
  }

  /** How many of the readings satisfy `p`. */
  function Count(p: Reading -> bool, rs: seq<Reading>): nat {
    if rs == [] then 0 else (if p(rs[0]) then 1 else 0) + Count(p, rs[1..])
  }

  lemma {:induction false} CountBoth(p: Reading -> bool, a: seq<Reading>, b: seq<Reading>)
    ensures Count(p, a + b) == Count(p, a) + Count(p, b)
  {
    if a == [] {
      assert a + b == b;
    } else {
      assert (a + b)[1..] == a[1..] + b;
      CountBoth(p, a[1..], b);
    }
  }

  lemma CountLast(p: Reading -> bool, rs: seq<Reading>, r: Reading)
    ensures Count(p, rs + [r]) == Count(p, rs) + if p(r) then 1 else 0
  {
    CountBoth(p, rs, [r]);
    assert [r][1..] == [];
  }

  lemma {:induction false} CountAll(p: Reading -> bool, rs: seq<Reading>)
    ensures (forall i :: 0 <= i < |rs| ==> p(rs[i])) ==> Count(p, rs) == |rs|
    ensures (forall i :: 0 <= i < |rs| ==> !p(rs[i])) ==> Count(p, rs) == 0
  {
    if rs != [] {
      CountAll(p, rs[1..]);
    }
  }

  lemma {:induction false} InsertCounts(p: Reading -> bool, le: (Reading, Reading) -> bool, x: Reading, s: seq<Reading>)
    ensures Count(p, Insert(le, x, s)) == (if p(x) then 1 else 0) + Count(p, s)
  {
    if s == [] || le(x, s[0]) {
      assert ([x] + s)[1..] == s;
    } else {
      InsertCounts(p, le, x, s[1..]);
      assert ([s[0]] + Insert(le, x, s[1..]))[1..] == Insert(le, x, s[1..]);
    }
  }

  lemma {:induction false} SortCounts(p: Reading -> bool, le: (Reading, Reading) -> bool, s: seq<Reading>)
    ensures Count(p, Sort(le, s)) == Count(p, s)
  {
    if s != [] {
      SortCounts(p, le, s[1..]);
      InsertCounts(p, le, s[0], Sort(le, s[1..]));
    }
  }

  lemma {:induction false} RowsCounted(
      rows: seq<Row>, instance: seq<int>, smaller: Reading -> bool, same: Reading -> bool)
    requires forall r :: smaller(r) <==> Smaller(r.instance, instance)
    requires forall r :: same(r) <==> r.instance == instance
    ensures Count(smaller, Readings(rows)) == CountSmaller(rows, instance)
    ensures Count(same, Readings(rows)) == CountSame(rows, instance)
  {
    if rows != [] {
      var front, last := rows[..|rows| - 1], rows[|rows| - 1];
      RowsCounted(front, instance, smaller, same);
      if last.raw.Number? {
        var r := Reading(last.instance, last.raw.value);
        CountLast(smaller, Readings(front), r);
        CountLast(same, Readings(front), r);
      } else {
        assert Readings(front) + [] == Readings(front);
      }
    }
  }

  /** The instances of the ranked readings ascend. */
  lemma RankedAscends(rows: seq<Row>, i: nat, j: nat)
    requires i < j < |Ranked(Rows(rows))|
    ensures !Smaller(Ranked(Rows(rows))[j].instance, Ranked(Rows(rows))[i].instance)
  {
    var ranked := Ranked(Rows(rows));
    ReadingOrder();
    SortAscends(ReadingLe, Readings(rows));
    assert ReadingLe(ranked[i], ranked[j]);
    SmallerMeans(ranked[i].instance, ranked[j].instance);
  }

  /** Below the place of a reading are at least the numeric rows with smaller instances, and no others but those with
      its own. */
  lemma RankedAt(rows: seq<Row>, o: nat)
    requires o < |Ranked(Rows(rows))|
    ensures var instance := Ranked(Rows(rows))[o].instance;
            CountSmaller(rows, instance) <= o < CountSmaller(rows, instance) + CountSame(rows, instance)
  {
    var ranked := Ranked(Rows(rows));
    var instance := ranked[o].instance;
    var smaller: Reading -> bool := (r: Reading) => r.instance != instance && LexLe(IntLe, r.instance, instance);
    var same: Reading -> bool := (r: Reading) => r.instance == instance;
    var upTo: Reading -> bool := (r: Reading) => smaller(r) || same(r);
    forall r: Reading
      ensures smaller(r) <==> Smaller(r.instance, instance)
    {
      SmallerMeans(r.instance, instance);
    }
    RowsCounted(rows, instance, smaller, same);
    SortCounts(smaller, ReadingLe, Readings(rows));
    SortCounts(same, ReadingLe, Readings(rows));
    CountApart(smaller, same, ranked);
    forall i: nat | i < |ranked|
      ensures i <= o ==> upTo(ranked[i])
      ensures i >= o ==> !smaller(ranked[i])
    {
      SmallerMeans(ranked[i].instance, instance);
      if i < o {
        RankedAscends(rows, i, o);
      } else if i > o {
        RankedAscends(rows, o, i);
      }
    }
    CountSplit(smaller, upTo, ranked, o);
  }

  lemma {:induction false} CountApart(p: Reading -> bool, q: Reading -> bool, rs: seq<Reading>)
    requires forall r :: !(p(r) && q(r))
    ensures Count(r => p(r) || q(r), rs) == Count(p, rs) + Count(q, rs)
  {
    if rs != [] {
      CountApart(p, q, rs[1..]);
    }
  }

  lemma CountSplit(p: Reading -> bool, q: Reading -> bool, rs: seq<Reading>, o: nat)
    requires o < |rs|
    requires forall i :: o <= i < |rs| ==> !p(rs[i])
    requires forall i :: 0 <= i <= o ==> q(rs[i])
    ensures Count(p, rs) <= o < Count(q, rs)
  {
    assert rs == rs[..o] + rs[o..] && rs == rs[..o + 1] + rs[o + 1..];
    CountBoth(p, rs[..o], rs[o..]);
    CountAll(p, rs[o..]);
    CountMost(p, rs[..o]);
    CountBoth(q, rs[..o + 1], rs[o + 1..]);
    CountAll(q, rs[..o + 1]);
  }

  lemma {:induction false} CountMost(p: Reading -> bool, rs: seq<Reading>)
    ensures Count(p, rs) <= |rs|
  {
    if rs != [] {
      CountMost(p, rs[1..]);
    }
  }

  /** A numeric row with an instance of its own has the place that is the number of numeric rows with smaller
      instances. */
  lemma PlaceOfRow(rows: seq<Row>, i: nat)
    requires i < |rows| && rows[i].raw.Number? && CountSame(rows, rows[i].instance) == 1
    ensures var o := CountSmaller(rows, rows[i].instance);
            o < |Ranked(Rows(rows))| && Ranked(Rows(rows))[o] == Reading(rows[i].instance, rows[i].raw.value)
  {
    var o := RankOf(rows, i);
    RankedAt(rows, o);
  }

  lemma RankOf(rows: seq<Row>, i: nat) returns (o: nat)
    requires i < |rows| && rows[i].raw.Number?
    ensures o < |Ranked(Rows(rows))| && Ranked(Rows(rows))[o] == Reading(rows[i].instance, rows[i].raw.value)
  {
    var r, ranked := Reading(rows[i].instance, rows[i].raw.value), Ranked(Rows(rows));
    ReadingsPermuted(rows, r);
    assert rows[i] in rows && Row(r.instance, Number(r.value)) == rows[i];
    SortPermutes(ReadingLe, Readings(rows));
    assert r in multiset(ranked);
    o :| 0 <= o < |ranked| && ranked[o] == r;
  }

  // ------------------------------------------------------------------
  // A poll
  // ------------------------------------------------------------------

  /** The values after the first `n` ranked readings are assigned. */
  function Assigned(name: Naming, values: Values, kind: Kind, ranked: seq<Reading>, n: nat): Values
    requires n <= |ranked|
  {
    if n == 0 then values
    else Assigned(name, values, kind, ranked, n - 1)[name(kind, n - 1) := ranked[n - 1].value]
  }

  /** The values after one walk. */
  function AfterWalk(name: Naming, values: Values, kind: Kind, walk: Outcome): Values {
    Assigned(name, values, kind, Ranked(walk), |Ranked(walk)|)
  }

  /** The values after the first `n` walks. */
  function Walked(name: Naming, values: Values, kinds: seq<Kind>, walks: seq<Outcome>, n: nat): Values
    requires n <= |kinds| == |walks|
  {
    if n == 0 then values
    else AfterWalk(name, Walked(name, values, kinds, walks, n - 1), kinds[n - 1], walks[n - 1])
  }

  method RankRows(rows: seq<Row>) returns (readings: seq<Reading>)
    ensures readings == Ranked(Rows(rows))
  {
    readings := [];
    for i := 0 to |rows|
      invariant readings == Readings(rows[..i])
    {
      assert rows[..i + 1][..i] == rows[..i];
      if rows[i].raw.Number? {
        readings := readings + [Reading(rows[i].instance, rows[i].raw.value)];
      }
    }
    assert rows[..|rows|] == rows;
    readings := Sort(ReadingLe, readings);
  }

  method WalkBox(name: Naming, start: Values, kind: Kind, walk: Outcome) returns (values: Values)
    ensures values == AfterWalk(name, start, kind, walk)
  {
    values := start;
    if walk.Failed? {
      return;
    }
    var readings := RankRows(walk.rows);
    for ordinal := 0 to |readings|
      invariant values == Assigned(name, start, kind, readings, ordinal)
    {
      values := values[name(kind, ordinal) := readings[ordinal].value];
    }
  }

  method WalkNext(name: Naming, ghost start: Values, kinds: seq<Kind>, walks: seq<Outcome>, i: nat, before: Values)
    returns (values: Values)
    requires i < |kinds| == |walks| && before == Walked(name, start, kinds, walks, i)
    ensures values == Walked(name, start, kinds, walks, i + 1)
  {
    values := WalkBox(name, before, kinds[i], walks[i]);
  }

  /** The box walks of one poll, onto the values of its other requests. */
  method PollBoxes(name: Naming, start: Values, kinds: seq<Kind>, walks: seq<Outcome>) returns (values: Values)
    requires |kinds| == |walks|
    ensures values == Walked(name, start, kinds, walks, |kinds|)
  {
    values := start;
    for i := 0 to |kinds|
      invariant values == Walked(name, start, kinds, walks, i)
    {
      values := WalkNext(name, start, kinds, walks, i, values);
    }
  }

  /** No other request of the switch has given a value a box sensor's name. */
  ghost predicate NoBox(name: Naming, values: Values) {
    forall kind, o: nat :: name(kind, o) !in values
  }

  /** What `values` holds under `kind` is exactly the ranked readings. */
  ghost predicate HasExactly(name: Naming, values: Values, kind: Kind, ranked: seq<Reading>) {
    forall o: nat :: if o < |ranked| then name(kind, o) in values && values[name(kind, o)] == ranked[o].value
                else name(kind, o) !in values
  }

  ghost predicate SameAt(values: Values, values': Values, s: string) {
    (s in values <==> s in values') && (s in values ==> values[s] == values'[s])
  }

  lemma {:induction false} AssignedAt(name: Naming, values: Values, kind: Kind, ranked: seq<Reading>, n: nat,
                                      kind': Kind, o: nat)
    requires n <= |ranked| && Injective(name)
    ensures var after, s := Assigned(name, values, kind, ranked, n), name(kind', o);
            if kind == kind' && o < n then s in after && after[s] == ranked[o].value
            else SameAt(values, after, s)
  {
    if n > 0 {
      AssignedAt(name, values, kind, ranked, n - 1, kind', o);
      assert name(kind, n - 1) == name(kind', o) ==> kind == kind' && n - 1 == o;
    }
  }

  lemma AssignedExactly(name: Naming, values: Values, kind: Kind, ranked: seq<Reading>, kind': Kind,
                        ranked': seq<Reading>)
    requires Injective(name) && HasExactly(name, values, kind', ranked')
    requires kind == kind' ==> ranked' == []
    ensures HasExactly(name, Assigned(name, values, kind, ranked, |ranked|), kind',
                       if kind == kind' then ranked else ranked')
  {
    forall o: nat
      ensures var after, s := Assigned(name, values, kind, ranked, |ranked|), name(kind', o);
              if kind == kind' && o < |ranked| then s in after && after[s] == ranked[o].value
              else SameAt(values, after, s)
    {
      AssignedAt(name, values, kind, ranked, |ranked|, kind', o);
    }
  }

  /** The ranked readings of the walk of `kind` among the first `n`; none if it was not walked. */
  function RankedOf(kinds: seq<Kind>, walks: seq<Outcome>, n: nat, kind: Kind): seq<Reading>
    requires n <= |kinds| == |walks|
  {
    if n == 0 then []
    else if kinds[n - 1] == kind then Ranked(walks[n - 1])
    else RankedOf(kinds, walks, n - 1, kind)
  }

  lemma {:induction false} NotYetRanked(kinds: seq<Kind>, walks: seq<Outcome>, n: nat, kind: Kind)
    requires n <= |kinds| == |walks| && forall i :: 0 <= i < n ==> kinds[i] != kind
    ensures RankedOf(kinds, walks, n, kind) == []
  {
    if n > 0 {
      NotYetRanked(kinds, walks, n - 1, kind);
    }
  }

  /** After a poll each kind has exactly the names of its ranked readings, with their values in rank order;
      a kind not walked, or whose walk failed, has none. */
  lemma {:induction false} PollHasExactly(name: Naming, values: Values, kinds: seq<Kind>, walks: seq<Outcome>,
                                          n: nat, kind: Kind)
    requires Injective(name) && NoBox(name, values) && n <= |kinds| == |walks| && Distinct(kinds)
    ensures HasExactly(name, Walked(name, values, kinds, walks, n), kind, RankedOf(kinds, walks, n, kind))
  {
    if n > 0 {
      PollHasExactly(name, values, kinds, walks, n - 1, kind);
      if kinds[n - 1] == kind {
        NotYetRanked(kinds, walks, n - 1, kind);
      }
      AssignedExactly(name, Walked(name, values, kinds, walks, n - 1), kinds[n - 1], Ranked(walks[n - 1]), kind,
                      RankedOf(kinds, walks, n - 1, kind));
    }
  }

  /** So the suffix whose ordinal is the number of numeric rows with smaller instances has the row's value. */
  lemma SuffixByInstance(values: Values, kind: Kind, rows: seq<Row>, i: nat)
    requires HasExactly(Suffix, values, kind, Ranked(Rows(rows)))
    requires i < |rows| && rows[i].raw.Number? && CountSame(rows, rows[i].instance) == 1
    ensures var s := Suffix(kind, CountSmaller(rows, rows[i].instance));
            s in values && values[s] == rows[i].raw.value
  {
    PlaceOfRow(rows, i);
  }

  // ------------------------------------------------------------------
  // Discovery
  // ------------------------------------------------------------------

  /** The first ordinal without a value. */
  ghost predicate FirstMissing(name: Naming, values: Values, kind: Kind, n: nat) {
    (forall o: nat :: o < n ==> name(kind, o) in values) && name(kind, n) !in values
  }

  /** The first `n` names of a kind. */
  ghost predicate Names(name: Naming, kind: Kind, s: seq<string>) {
    forall o: nat :: o < |s| ==> s[o] == name(kind, o)
  }

  /** A dict holding the first `n` names has at least `n` keys, so the probing ends. */
  lemma {:induction false} ProbesBounded(name: Naming, keys: set<string>, kind: Kind, n: nat)
    requires Injective(name) && forall o: nat :: o < n ==> name(kind, o) in keys
    ensures n <= |keys|
  {
    if n > 0 {
      var last := name(kind, n - 1);
      forall o: nat | o < n - 1
        ensures name(kind, o) in keys - {last}
      {
        assert name(kind, o) == last ==> o == n - 1;
      }
      ProbesBounded(name, keys - {last}, kind, n - 1);
    }
  }

  /** The probe loop, on any dict. */
  method Probe(name: Naming, kind: Kind, values: Values) returns (found: seq<string>)
    requires Injective(name)
    ensures Names(name, kind, found) && FirstMissing(name, values, kind, |found|)
  {
    found := [];
    var ordinal: nat := 0;
    while true
      invariant |found| == ordinal <= |values.Keys| && Names(name, kind, found)
      invariant forall o: nat :: o < ordinal ==> name(kind, o) in values
      decreases |values.Keys| - ordinal
    {
      var suffix := name(kind, ordinal);
      if suffix !in values {
        break;
      }
      found := found + [suffix];
      ordinal := ordinal + 1;
      ProbesBounded(name, values.Keys, kind, ordinal);
    }
  }

  /** `s` names a box sensor of one of the kinds, all of whose lower ordinals have values as well. */
  ghost predicate Probed(name: Naming, kinds: seq<Kind>, values: Values, s: string) {
    exists kind, o: nat :: kind in kinds && s == name(kind, o) && AllPresent(name, values, kind, o)
  }

  ghost predicate AllPresent(name: Naming, values: Values, kind: Kind, o: nat) {
    forall p: nat :: p <= o ==> name(kind, p) in values
  }

  /** What `get_sensors_for_switch` lists: the sensors requested singly that have a value, then the probed ones. */
  ghost predicate Listed(name: Naming, sensors: seq<string>, kinds: seq<Kind>, values: Values, defs: seq<string>) {
    Distinct(defs) && forall s :: s in defs <==> (s in sensors && s in values) || Probed(name, kinds, values, s)
  }

  lemma FoundAreProbed(name: Naming, values: Values, kind: Kind, found: seq<string>, s: string)
    requires Injective(name) && Names(name, kind, found) && FirstMissing(name, values, kind, |found|)
    ensures s in found <==> Probed(name, [kind], values, s)
  {
    if s in found {
      var i :| 0 <= i < |found| && found[i] == s;
      assert kind in [kind] && s == name(kind, i) && AllPresent(name, values, kind, i);
    }
    if Probed(name, [kind], values, s) {
      var k, o: nat :| k in [kind] && s == name(k, o) && AllPresent(name, values, k, o);
      assert o < |found| && found[o] == s;
    }
  }

  lemma ProbedMore(name: Naming, kinds: seq<Kind>, n: nat, values: Values, s: string)
    requires n < |kinds|
    ensures Probed(name, kinds[..n + 1], values, s)
       <==> Probed(name, kinds[..n], values, s) || Probed(name, [kinds[n]], values, s)
  {
    assert kinds[..n + 1] == kinds[..n] + [kinds[n]];
    if Probed(name, kinds[..n], values, s) {
      var k, o: nat :| k in kinds[..n] && s == name(k, o) && AllPresent(name, values, k, o);
      assert k in kinds[..n + 1];
    }
    if Probed(name, [kinds[n]], values, s) {
      var k, o: nat :| k in [kinds[n]] && s == name(k, o) && AllPresent(name, values, k, o);
      assert k in kinds[..n + 1];
    }
  }

  lemma ProbedKind(name: Naming, kinds: seq<Kind>, values: Values, k: Kind, o: nat)
    requires Injective(name)
    ensures Probed(name, kinds, values, name(k, o)) ==> k in kinds
  {
  }

  /** Names of another kind are new. */
  lemma FoundAreNew(name: Naming, sensors: seq<string>, kinds: seq<Kind>, n: nat, values: Values,
                    defs: seq<string>, s: string)
    requires Injective(name) && n < |kinds| && Distinct(kinds) && forall x :: x in sensors ==> !IsBoxName(name, x)
    requires Listed(name, sensors, kinds[..n], values, defs) && Probed(name, [kinds[n]], values, s)
    ensures s !in defs
  {
    var k, o: nat :| k in [kinds[n]] && s == name(k, o) && AllPresent(name, values, k, o);
    assert IsBoxName(name, s);
    ProbedKind(name, kinds[..n], values, k, o);
  }

  lemma DistinctAppend<T>(a: seq<T>, b: seq<T>)
    requires Distinct(a) && Distinct(b) && forall x :: x in b ==> x !in a
    ensures Distinct(a + b)
  {
    forall i, j | 0 <= i < j < |a + b|
      ensures (a + b)[i] != (a + b)[j]
    {
      if i < |a| <= j {
        assert a[i] in a && b[j - |a|] in b;
      }
    }
  }

  lemma ListedMore(name: Naming, sensors: seq<string>, kinds: seq<Kind>, n: nat, values: Values, defs: seq<string>,
                   found: seq<string>)
    requires Injective(name) && n < |kinds| && Distinct(kinds) && forall x :: x in sensors ==> !IsBoxName(name, x)
    requires Listed(name, sensors, kinds[..n], values, defs)
    requires Names(name, kinds[n], found) && FirstMissing(name, values, kinds[n], |found|)
    ensures Listed(name, sensors, kinds[..n + 1], values, defs + found)
  {
    forall s
      ensures s in found <==> Probed(name, [kinds[n]], values, s)
      ensures s in found ==> s !in defs
      ensures Probed(name, kinds[..n + 1], values, s)
         <==> Probed(name, kinds[..n], values, s) || Probed(name, [kinds[n]], values, s)
    {
      FoundAreProbed(name, values, kinds[n], found, s);
      ProbedMore(name, kinds, n, values, s);
      if s in found {
        FoundAreNew(name, sensors, kinds, n, values, defs, s);
      }
    }
    assert Distinct(found) by {
      forall i: nat, j: nat | i < j < |found|
        ensures found[i] != found[j]
      {
        assert found[i] == name(kinds[n], i) && found[j] == name(kinds[n], j);
      }
    }
    DistinctAppend(defs, found);
  }

  method GetSensors(name: Naming, sensors: seq<string>, kinds: seq<Kind>, values: Values) returns (defs: seq<string>)
    requires Injective(name) && Distinct(sensors) && Distinct(kinds)
    requires forall x :: x in sensors ==> !IsBoxName(name, x)
    ensures Listed(name, sensors, kinds, values, defs)
  {
    defs := [];
    for i := 0 to |sensors|
      invariant Distinct(defs) && forall s :: s in defs <==> s in sensors[..i] && s in values
    {
      assert sensors[..i + 1] == sensors[..i] + [sensors[i]];
      assert sensors[i] !in sensors[..i];
      if sensors[i] in values {
        defs := defs + [sensors[i]];
      }
    }
    assert sensors[..|sensors|] == sensors;
    for i := 0 to |kinds|
      invariant Listed(name, sensors, kinds[..i], values, defs)
    {
      var found := Probe(name, kinds[i], values);
      ListedMore(name, sensors, kinds, i, values, defs, found);
      defs := defs + found;
    }
    assert kinds[..|kinds|] == kinds;
  }

  /** Discovery lists exactly the box sensors the poll assigned: one per ranked reading of a walked kind. */
  lemma DiscoveryFindsThePoll(name: Naming, sensors: seq<string>, kinds: seq<Kind>, values: Values,
                              defs: seq<string>, k: Kind, ranked: seq<Reading>, o: nat)
    requires Injective(name) && forall x :: x in sensors ==> !IsBoxName(name, x)
    requires HasExactly(name, values, k, ranked) && (k !in kinds ==> ranked == [])
    requires Listed(name, sensors, kinds, values, defs)
    ensures name(k, o) in defs <==> o < |ranked|
  {
    assert IsBoxName(name, name(k, o));
    if name(k, o) in defs {
      var k', p: nat :| k' in kinds && name(k, o) == name(k', p) && AllPresent(name, values, k', p);
      assert name(k, o) in values;
    }
    if o < |ranked| {
      assert AllPresent(name, values, k, o);
    }
  }

  /** The port walks that follow add no box names. */
  lemma PortsKeep(name: Naming, values: Values, ports: Values, k: Kind, ranked: seq<Reading>)
    requires HasExactly(name, values, k, ranked) && NoBox(name, ports)
    ensures HasExactly(name, values + ports, k, ranked)
  {
  }

  /** A poll of the switch and the sensors it lists, with the names `box_entity` gives: the readings of each kind
      in rank order have its first suffixes, and those are listed. `gets` and `ports` are the values of the single
      requests before and of the port walks after the box walks. */
  method PollAndList(sensors: seq<string>, gets: Values, kinds: seq<Kind>, walks: seq<Outcome>, ports: Values)
    returns (values: Values, defs: seq<string>)
    requires |kinds| == |walks| && Distinct(kinds) && Distinct(sensors)
    requires NoBox(Suffix, gets) && NoBox(Suffix, ports) && forall x :: x in sensors ==> !IsBoxName(Suffix, x)
    ensures forall k :: HasExactly(Suffix, values, k, RankedOf(kinds, walks, |kinds|, k))
    ensures forall k, o: nat :: Suffix(k, o) in defs <==> o < |RankedOf(kinds, walks, |kinds|, k)|
    ensures Distinct(defs)
  {
    SuffixesDiffer();
    values := PollBoxes(Suffix, gets, kinds, walks);
    forall k
      ensures HasExactly(Suffix, values + ports, k, RankedOf(kinds, walks, |kinds|, k))
    {
      PollHasExactly(Suffix, gets, kinds, walks, |kinds|, k);
      PortsKeep(Suffix, values, ports, k, RankedOf(kinds, walks, |kinds|, k));
    }
    values := values + ports;
    defs := GetSensors(Suffix, sensors, kinds, values);
    forall k, o: nat
      ensures Suffix(k, o) in defs <==> o < |RankedOf(kinds, walks, |kinds|, k)|
    {
      if k !in kinds {
        NotYetRanked(kinds, walks, |kinds|, k);
      }
      DiscoveryFindsThePoll(Suffix, sensors, kinds, values, defs, k, RankedOf(kinds, walks, |kinds|, k), o);
    }
  }

  // ------------------------------------------------------------------
  // The same, said of the walked rows
  // ------------------------------------------------------------------

  function CountNumeric(rows: seq<Row>): nat {
    if rows == [] then 0 else CountNumeric(rows[..|rows| - 1]) + if rows[|rows| - 1].raw.Number? then 1 else 0
  }

  lemma {:induction false} ReadingsLength(rows: seq<Row>)
    ensures |Readings(rows)| == CountNumeric(rows)
  {
    if rows != [] {
      ReadingsLength(rows[..|rows| - 1]);
    }
  }

  /** As many suffixes of the kind are listed as there are numeric rows, and each row whose instance no other has
      gives its value to the suffix whose ordinal is the number of numeric rows with smaller instances. */
  ghost predicate ByInstance(values: Values, defs: seq<string>, kind: Kind, rows: seq<Row>) {
    && (forall o: nat :: Suffix(kind, o) in defs <==> o < CountNumeric(rows))
    && forall j :: 0 <= j < |rows| && rows[j].raw.Number? && CountSame(rows, rows[j].instance) == 1 ==>
         var s := Suffix(kind, CountSmaller(rows, rows[j].instance));
         s in values && values[s] == rows[j].raw.value
  }

  lemma RankedOfOther(kinds: seq<Kind>, walks: seq<Outcome>, n: nat, kind: Kind)
    requires 0 < n <= |kinds| == |walks|
    ensures RankedOf(kinds, walks, n, kind)
         == if kinds[n - 1] == kind then Ranked(walks[n - 1]) else RankedOf(kinds, walks, n - 1, kind)
  {
  }

  lemma {:induction false} RankedOfWalk(kinds: seq<Kind>, walks: seq<Outcome>, n: nat, i: nat, ranked: seq<Reading>)
    requires i < n <= |kinds| == |walks| && Distinct(kinds) && ranked == Ranked(walks[i])
    ensures RankedOf(kinds, walks, n, kinds[i]) == ranked
  {
    RankedOfOther(kinds, walks, n, kinds[i]);
    if i < n - 1 {
      RankedOfWalk(kinds, walks, n - 1, i, ranked);
    }
  }

  lemma WalkByInstance(values: Values, defs: seq<string>, kind: Kind, rows: seq<Row>)
    requires HasExactly(Suffix, values, kind, Ranked(Rows(rows)))
    requires forall o: nat :: Suffix(kind, o) in defs <==> o < |Ranked(Rows(rows))|
    ensures ByInstance(values, defs, kind, rows)
  {
    ReadingsLength(rows);
    SortPermutes(ReadingLe, Readings(rows));
    assert |Ranked(Rows(rows))| == |multiset(Ranked(Rows(rows)))| == |multiset(Readings(rows))|;
    forall j | 0 <= j < |rows| && rows[j].raw.Number? && CountSame(rows, rows[j].instance) == 1
      ensures var s := Suffix(kind, CountSmaller(rows, rows[j].instance));
              s in values && values[s] == rows[j].raw.value
    {
      SuffixByInstance(values, kind, rows, j);
    }
  }

  /** A poll of the switch and the sensors it lists, for every walk that succeeded, whatever order its rows came in. */
  method PollByInstance(sensors: seq<string>, gets: Values, kinds: seq<Kind>, walks: seq<Outcome>, ports: Values)
    returns (values: Values, defs: seq<string>)
    requires |kinds| == |walks| && Distinct(kinds) && Distinct(sensors)
    requires NoBox(Suffix, gets) && NoBox(Suffix, ports) && forall x :: x in sensors ==> !IsBoxName(Suffix, x)
    ensures forall i :: 0 <= i < |walks| && walks[i].Rows? ==> ByInstance(values, defs, kinds[i], walks[i].rows)
  {
    values, defs := PollAndList(sensors, gets, kinds, walks, ports);
    forall i | 0 <= i < |walks| && walks[i].Rows?
      ensures ByInstance(values, defs, kinds[i], walks[i].rows)
    {
      RankedOfWalk(kinds, walks, |kinds|, i, Ranked(walks[i]));
      WalkByInstance(values, defs, kinds[i], walks[i].rows);
    }
  }

  // ------------------------------------------------------------------
  // Announcing each suffix once
  // ------------------------------------------------------------------

  /** The suffixes announced so far, by switch. */
  class Announcer {
    var published: map<string, set<string>>

    constructor ()
      ensures published == map[]
    {
      published := map[];
    }

    method NewSensorDefs(node: string, defs: seq<string>) returns (new_: seq<string>)
      requires Distinct(defs)
      modifies this
      ensures Announces(Done(old(published), node), defs, new_)
      ensures published == old(published)[node := Done(old(published), node) + Elements(defs)]
    {
      var done := if node in published then published[node] else {};
      new_ := [];
      for i := 0 to |defs|
        invariant Announces(done, defs[..i], new_)
        invariant published == old(published)
      {
        AnnouncesMore(done, defs, i, new_);
        if defs[i] !in done {
          new_ := new_ + [defs[i]];
        }
      }
      assert defs[..|defs|] == defs;
      assert done + Elements(new_) == done + Elements(defs);
      published := published[node := done + Elements(new_)];
    }
  }

  function Done(published: map<string, set<string>>, node: string): set<string> {
    if node in published then published[node] else {}
  }

  function Elements<T(==)>(s: seq<T>): set<T> {
    set x | x in s
  }

  /** `new_` has the suffixes of `defs` not announced before, each once. */
  ghost predicate Announces(done: set<string>, defs: seq<string>, new_: seq<string>) {
    Distinct(new_) && forall s :: s in new_ <==> s in defs && s !in done
  }

  lemma AnnouncesMore(done: set<string>, defs: seq<string>, i: nat, new_: seq<string>)
    requires i < |defs| && Distinct(defs) && Announces(done, defs[..i], new_)
    ensures Announces(done, defs[..i + 1], if defs[i] in done then new_ else new_ + [defs[i]])
  {
    assert defs[..i + 1] == defs[..i] + [defs[i]];
    assert defs[i] !in defs[..i];
  }

  lemma AnnouncedOnce(announced: seq<string>, done: set<string>, defs: seq<string>, new_: seq<string>)
    requires Distinct(announced) && done == Elements(announced) && Announces(done, defs, new_)
    ensures Distinct(announced + new_) && done + Elements(defs) == Elements(announced + new_)
  {
    DistinctAppend(announced, new_);
    forall s
      ensures s in done + Elements(defs) <==> s in Elements(announced + new_)
    {
      assert s in new_ <==> s in defs && s !in done;
    }
  }

  /** Over any run of polls of a switch, other switches' polls between them or not, each suffix is
      announced exactly once. */
  method Run(polls: seq<(string, seq<string>)>, node: string) returns (announced: seq<string>)
    requires forall i :: 0 <= i < |polls| ==> Distinct(polls[i].1)
    ensures Distinct(announced)
    ensures forall s :: s in announced <==> exists i :: 0 <= i < |polls| && polls[i].0 == node && s in polls[i].1
  {
    var a := new Announcer();
    announced := [];
    for i := 0 to |polls|
      invariant Distinct(announced) && Done(a.published, node) == Elements(announced)
      invariant forall s :: s in announced <==> exists j :: 0 <= j < i && polls[j].0 == node && s in polls[j].1
    {
      var new_ := a.NewSensorDefs(polls[i].0, polls[i].1);
      if polls[i].0 == node {
        AnnouncedOnce(announced, Elements(announced), polls[i].1, new_);
        announced := announced + new_;
      }
    }
  }
}
