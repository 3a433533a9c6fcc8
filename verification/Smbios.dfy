/** The System Slot records of a raw SMBIOS structure table, and the slot numbers made from PCI addresses
    (src/sensors2mqtt/collector/storage/pcie.py; sections 6.1.2, 6.1.3 and 7.10 of DMTF DSP0134). */
module Smbios {
  import opened Wrappers
  import opened Numerals

  newtype byte = b: int | 0 <= b < 256

  datatype Slot = Slot(designation: string, address: string)

  // ------------------------------------------------------------------
  // Strings
  // ------------------------------------------------------------------

  /** ``table.find(b"\0\0", from)``, None for -1. */
  function FindDoubleNul(table: seq<byte>, from: nat): (r: Option<nat>)
    ensures r.Some? ==> from <= r.value && r.value + 2 <= |table|
    decreases if from < |table| then |table| - from else 0
  {
    if from + 2 > |table| then None
    else if table[from] == 0 && table[from + 1] == 0 then Some(from)
    else FindDoubleNul(table, from + 1)
  }

  /** ``s.split(sep)`` for a separator of one element. */
  function Split<T(==)>(sep: T, s: seq<T>): (parts: seq<seq<T>>)
    ensures parts != []
  {
    if s == [] then [[]]
    else
      var rest := Split(sep, s[1..]);
      if s[0] == sep then [[]] + rest else [[s[0]] + rest[0]] + rest[1..]
  }

  /** ``.decode("ascii", "replace")`` */
  function Decode(s: seq<byte>): (t: string)
    ensures |t| == |s|
  {
    if s == [] then [] else [if s[0] < 128 then s[0] as int as char else '\U{fffd}'] + Decode(s[1..])
  }

  /** The white space ``str.strip`` takes off, among the characters `Decode` gives. */
  predicate IsSpace(c: char) {
    '\t' <= c <= '\r' || '\U{1c}' <= c <= ' '
  }

  function StripLeft(s: string): string {
    if s != [] && IsSpace(s[0]) then StripLeft(s[1..]) else s
  }

  function StripRight(s: string): string {
    if s != [] && IsSpace(s[|s| - 1]) then StripRight(s[..|s| - 1]) else s
  }

  function Strip(s: string): string {
    StripRight(StripLeft(s))
  }

  function NameOf(s: seq<byte>): string {
    Strip(Decode(s))
  }

  // ------------------------------------------------------------------
  // Addresses
  // ------------------------------------------------------------------

  /** ``{segment:04x}:{bus:02x}:{devfn >> 3:02x}.{devfn & 7}`` */
  function Address(segment: nat, bus: nat, devfn: nat): string {
    Hex(segment, 4) + ":" + Hex(bus, 2) + ":" + Hex(devfn / 8, 2) + "." + Hex(devfn % 8, 1)
  }

  // ------------------------------------------------------------------
  // The parser
  // ------------------------------------------------------------------

  /** What a structure with the formatted area `area` and the string set `text` contributes. */
  type Reader = (seq<byte>, seq<byte>) -> seq<Slot>

  function ReadSlot(area: seq<byte>, text: seq<byte>): seq<Slot> {
    SlotOf(area, Split(0, text))
  }

  function AddressIn(area: seq<byte>): string
    requires |area| >= 0x11
  {
    Address(area[0x0D] as int + 256 * area[0x0E] as int, area[0x0F] as int, area[0x10] as int)
  }

  function SlotOf(area: seq<byte>, strings: seq<seq<byte>>): seq<Slot> {
    if |area| >= 0x11 && area[0] == 9 then
      var idx := area[4] as int;
      var name := if 0 < idx <= |strings| then NameOf(strings[idx - 1]) else "";
      if name != "" && area[0x0F] != 0xFF then [Slot(name, AddressIn(area))] else []
    else []
  }

  /** `out` and then what the structures from `pos` on contribute. */
  function SlotsAfter(read: Reader, table: seq<byte>, pos: nat, out: seq<Slot>): seq<Slot>
    decreases if pos < |table| then |table| - pos else 0
  {
    if pos + 4 > |table| then out
    else
      var mid := pos + table[pos + 1] as int;
      if mid < pos + 4 then out
      else
        var end := FindDoubleNul(table, mid);
        if end.None? then out
        else
          var now := out + read(table[pos..mid], table[mid..end.value]);
          if table[pos] == 127 then now else SlotsAfter(read, table, end.value + 2, now)
  }

  /** The loop; every index it uses is in range on any bytes. */
  method Walk(read: Reader, table: seq<byte>) returns (out: seq<Slot>)
    ensures out == SlotsAfter(read, table, 0, [])
  {
    out := [];
    var pos: nat := 0;
    while pos + 4 <= |table|
      invariant SlotsAfter(read, table, 0, []) == SlotsAfter(read, table, pos, out)
      decreases if pos < |table| then |table| - pos else 0
    {
      var stype, length := table[pos], table[pos + 1] as int;
      if length < 4 {
        break;
      }
      var end := FindDoubleNul(table, pos + length);
      if end.None? {
        break;
      }
      out := out + read(table[pos..pos + length], table[pos + length..end.value]);
      if stype == 127 {
        return;
      }
      pos := end.value + 2;
    }
  }

  method ParseSmbiosSlots(table: seq<byte>) returns (out: seq<Slot>)
    ensures out == SlotsAfter(ReadSlot, table, 0, [])
  {
    out := Walk(ReadSlot, table);
  }

  // ------------------------------------------------------------------
  // The encoding
  // ------------------------------------------------------------------

  /** A structure: its formatted area and the strings of its string set. */
  datatype Structure = Structure(area: seq<byte>, strings: seq<seq<byte>>)

  /** The area holds its own length; strings are neither empty nor hold a NUL. */
  predicate WellFormed(r: Structure) {
    && 4 <= |r.area| == r.area[1] as int
    && forall i :: 0 <= i < |r.strings| ==> r.strings[i] != [] && 0 !in r.strings[i]
  }

  predicate AllWellFormed(rs: seq<Structure>) {
    forall i :: 0 <= i < |rs| ==> WellFormed(rs[i])
  }

  function Joined(strings: seq<seq<byte>>): seq<byte> {
    if strings == [] then []
    else if |strings| == 1 then strings[0]
    else strings[0] + [0] + Joined(strings[1..])
  }

  /** Each string is followed by a NUL and the last by another; no strings at all are two NULs. */
  function StringSet(strings: seq<seq<byte>>): seq<byte> {
    Joined(strings) + [0, 0]
  }

  function Encode(rs: seq<Structure>): seq<byte> {
    if rs == [] then [] else rs[0].area + (StringSet(rs[0].strings) + Encode(rs[1..]))
  }

  predicate IsEnd(r: Structure)
    requires WellFormed(r)
  {
    r.area[0] == 127
  }

  predicate HasEnd(rs: seq<Structure>)
    requires AllWellFormed(rs)
  {
    exists i :: 0 <= i < |rs| && IsEnd(rs[i])
  }

  /** The system slot a structure describes, if it is one with a name and a known bus. */
  function SlotSaid(r: Structure): seq<Slot> {
    if |r.area| < 0x11 || r.area[0] != 9 || r.area[0x0F] == 0xFF then []
    else if r.area[4] == 0 || r.area[4] as int > |r.strings| then []
    else
      var name := NameOf(r.strings[r.area[4] as int - 1]);
      if name == "" then [] else [Slot(name, AddressIn(r.area))]
  }

  /** What `say` says of the structures, up to the first end-of-table structure. */
  function SaidOf(say: Structure -> seq<Slot>, rs: seq<Structure>): seq<Slot>
    requires AllWellFormed(rs)
  {
    if rs == [] then [] else say(rs[0]) + if IsEnd(rs[0]) then [] else SaidOf(say, rs[1..])
  }

  /** The formatted area of a system slot with these fields (section 7.10 of DMTF DSP0134). */
  function SlotArea(handle: seq<byte>, name: byte, kind: seq<byte>, segment: nat, bus: byte, devfn: byte,
                    more: seq<byte>): seq<byte>
    requires |handle| == 2 && |kind| == 8 && segment < 0x1_0000 && |more| <= 255 - 0x11
  {
    [9, (0x11 + |more|) as byte] + handle + [name] + kind
    + [(segment % 256) as byte, (segment / 256) as byte, bus, devfn] + more
  }

  // ------------------------------------------------------------------
  // Reading what was encoded
  // ------------------------------------------------------------------

  lemma {:induction false} SplitOne<T>(sep: T, s: seq<T>)
    requires sep !in s
    ensures Split(sep, s) == [s]
  {
    if s != [] {
      assert s[0] in s;
      SplitOne(sep, s[1..]);
      assert [s[0]] + s[1..] == s;
    }
  }

  lemma {:induction false} SplitHead<T>(sep: T, s: seq<T>, t: seq<T>)
    requires sep !in s
    ensures Split(sep, s + [sep] + t) == [s] + Split(sep, t)
  {
    var u := s + [sep] + t;
    if s == [] {
      assert u[1..] == t;
    } else {
      assert s[0] in s;
      assert u[1..] == s[1..] + [sep] + t;
      SplitHead(sep, s[1..], t);
      assert u[0] == s[0] && [s[0]] + s[1..] == s;
    }
  }

  /** The string set is split into the strings; an empty one into one empty string. */
  lemma {:induction false} SplitJoined(strings: seq<seq<byte>>)
    requires forall i :: 0 <= i < |strings| ==> 0 !in strings[i]
    ensures Split(0, Joined(strings)) == if strings == [] then [[]] else strings
  {
    if |strings| == 1 {
      SplitOne(0 as byte, strings[0]);
      assert strings == [strings[0]];
    } else if |strings| > 1 {
      SplitHead(0 as byte, strings[0], Joined(strings[1..]));
      SplitJoined(strings[1..]);
    }
  }

  /** Inside the joined strings, and at their end, no NUL follows another. */
  lemma {:induction false} NoDoubleNul(strings: seq<seq<byte>>, i: nat)
    requires forall k :: 0 <= k < |strings| ==> strings[k] != [] && 0 !in strings[k]
    requires i < |Joined(strings)|
    ensures Joined(strings) != [] && Joined(strings)[0] != 0 && Joined(strings)[|Joined(strings)| - 1] != 0
    ensures i + 1 < |Joined(strings)| ==> !(Joined(strings)[i] == 0 && Joined(strings)[i + 1] == 0)
  {
    var j, s := Joined(strings), strings[0];
    if |strings| == 1 {
      assert j[0] in s && j[|j| - 1] in s && j[i] in s;
    } else {
      var rest := Joined(strings[1..]);
      assert strings[1..][0] != [] && |rest| > 0 by {
        assert |strings[1..]| == 1 || rest == strings[1..][0] + [0] + Joined(strings[1..][1..]);
      }
      NoDoubleNul(strings[1..], if i > |s| then i - |s| - 1 else 0);
      assert j == s + [0] + rest;
      assert j[0] in s;
      assert i < |s| ==> j[i] in s;
      assert j[|s| + 1] == rest[0];
      if i > |s| {
        assert j[i] == rest[i - |s| - 1];
        assert i + 1 < |j| ==> j[i + 1] == rest[i - |s|];
      }
    }
  }

  lemma {:induction false} FindFirst(table: seq<byte>, from: nat, e: nat)
    requires from <= e && e + 2 <= |table| && table[e] == 0 && table[e + 1] == 0
    requires forall i :: from <= i < e ==> !(table[i] == 0 && table[i + 1] == 0)
    ensures FindDoubleNul(table, from) == Some(e)
    decreases e - from
  {
    if from < e {
      FindFirst(table, from + 1, e);
    }
  }

  /** The search from `mid` finds the end of the string set there. */
  lemma FindsEnd(table: seq<byte>, mid: nat, strings: seq<seq<byte>>)
    requires forall k :: 0 <= k < |strings| ==> strings[k] != [] && 0 !in strings[k]
    requires var e := mid + |Joined(strings)|;
             && e + 2 <= |table| && table[mid..e] == Joined(strings) && table[e] == table[e + 1] == 0
    ensures FindDoubleNul(table, mid) == Some(mid + |Joined(strings)|)
  {
    var j := Joined(strings);
    var e := mid + |j|;
    forall i | mid <= i < e
      ensures !(table[i] == 0 && table[i + 1] == 0)
    {
      NoDoubleNul(strings, i - mid);
      assert table[i] == table[mid..e][i - mid];
      assert i + 1 < e ==> table[i + 1] == table[mid..e][i + 1 - mid];
    }
    FindFirst(table, mid, e);
  }

  lemma NoName()
    ensures NameOf([]) == ""
  {
    assert Decode([]) == [];
  }

  lemma SlotOfSaid(r: Structure)
    requires WellFormed(r) && NameOf([]) == ""
    ensures SlotOf(r.area, if r.strings == [] then [[]] else r.strings) == SlotSaid(r)
  {
  }

  lemma ReadsSlot(r: Structure)
    requires WellFormed(r)
    ensures ReadBy(ReadSlot, r) == SlotSaid(r)
  {
    SplitJoined(r.strings);
    NoName();
    SlotOfSaid(r);
  }

  /** A system slot's structure describes the slot at the address of its fields. */
  lemma SlotAreaSaid(handle: seq<byte>, name: byte, kind: seq<byte>, segment: nat, bus: byte, devfn: byte,
                     more: seq<byte>, strings: seq<seq<byte>>)
    requires |handle| == 2 && |kind| == 8 && segment < 0x1_0000 && |more| <= 255 - 0x11
    requires 0 < name && name as int <= |strings| && bus != 0xFF && NameOf(strings[name as int - 1]) != ""
    ensures SlotSaid(Structure(SlotArea(handle, name, kind, segment, bus, devfn, more), strings))
         == [Slot(NameOf(strings[name as int - 1]), Address(segment, bus as int, devfn as int))]
  {
    var a, head, tail := SlotArea(handle, name, kind, segment, bus, devfn, more),
                         [9, (0x11 + |more|) as byte] + handle + [name],
                         [(segment % 256) as byte, (segment / 256) as byte, bus, devfn];
    assert a == head + kind + tail + more;
    assert |head| == 5 && head[4] == name;
    assert a[0] == head[0] && a[4] == head[4];
    assert a[13] == tail[0] && a[14] == tail[1] && a[15] == tail[2] && a[16] == tail[3];
  }

  /** At `pos` of the table stand the formatted area and the joined strings with their two NULs. */
  predicate Stands(table: seq<byte>, pos: nat, area: seq<byte>, j: seq<byte>) {
    var mid := pos + |area|;
    && mid + |j| + 2 <= |table| && table[pos..mid] == area && table[mid..mid + |j|] == j
    && table[mid + |j|] == table[mid + |j| + 1] == 0
  }

  lemma Pieces(table: seq<byte>, pos: nat, area: seq<byte>, strings: seq<seq<byte>>, more: seq<byte>)
    requires pos <= |table| && table[pos..] == area + (StringSet(strings) + more)
    ensures Stands(table, pos, area, Joined(strings))
    ensures table[pos + |area| + |StringSet(strings)|..] == more
  {
    var rest, j := table[pos..], Joined(strings);
    var mid := pos + |area|;
    assert table[pos..mid] == rest[..|area|] == area;
    assert table[mid..mid + |j|] == rest[|area|..|area| + |j|] == j;
    assert table[mid + |j|] == rest[|area| + |j|] == 0 && table[mid + |j| + 1] == rest[|area| + |j| + 1] == 0;
    assert table[mid + |j| + 2..] == rest[|area| + |j| + 2..] == more;
  }

  lemma ReadsAt(read: Reader, table: seq<byte>, pos: nat, area: seq<byte>, j: seq<byte>, out: seq<Slot>)
    requires 4 <= |area| == area[1] as int && Stands(table, pos, area, j)
    requires FindDoubleNul(table, pos + |area|) == Some(pos + |area| + |j|)
    ensures SlotsAfter(read, table, pos, out)
         == if area[0] == 127 then out + read(area, j)
            else SlotsAfter(read, table, pos + |area| + |j| + 2, out + read(area, j))
  {
    assert table[pos] == table[pos..pos + |area|][0] && table[pos + 1] == table[pos..pos + |area|][1];
  }

  /** Where the structure after `r` starts if `r` stands at `pos`. */
  function After(pos: nat, r: Structure): nat {
    pos + |r.area| + |StringSet(r.strings)|
  }

  predicate StandsAt(table: seq<byte>, pos: nat, r: Structure) {
    Stands(table, pos, r.area, Joined(r.strings))
  }

  /** What a reader makes of a structure. */
  function ReadBy(read: Reader, r: Structure): seq<Slot> {
    read(r.area, Joined(r.strings))
  }

  lemma EndOf(table: seq<byte>, pos: nat, r: Structure)
    requires WellFormed(r) && StandsAt(table, pos, r)
    ensures FindDoubleNul(table, pos + |r.area|) == Some(pos + |r.area| + |Joined(r.strings)|)
  {
    FindsEnd(table, pos + |r.area|, r.strings);
  }

  lemma ReadsStanding(read: Reader, table: seq<byte>, pos: nat, r: Structure, out: seq<Slot>)
    requires WellFormed(r) && StandsAt(table, pos, r)
    ensures SlotsAfter(read, table, pos, out)
         == if IsEnd(r) then out + ReadBy(read, r) else SlotsAfter(read, table, After(pos, r), out + ReadBy(read, r))
  {
    EndOf(table, pos, r);
    ReadsAt(read, table, pos, r.area, Joined(r.strings), out);
    assert After(pos, r) == pos + |r.area| + |Joined(r.strings)| + 2;
  }

  lemma EncodeFirst(table: seq<byte>, pos: nat, rs: seq<Structure>, after: seq<byte>)
    requires rs != [] && pos <= |table| && table[pos..] == Encode(rs) + after
    ensures var next := After(pos, rs[0]);
            && StandsAt(table, pos, rs[0])
            && next <= |table| && table[next..] == Encode(rs[1..]) + after
  {
    var a, s, e := rs[0].area, StringSet(rs[0].strings), Encode(rs[1..]);
    assert (a + (s + e)) + after == a + (s + (e + after));
    Pieces(table, pos, a, rs[0].strings, e + after);
  }

  /** From `pos` on the table holds the structures, up to the first end-of-table structure or, without
      one, to the table's end. */
  predicate Laid(table: seq<byte>, pos: nat, rs: seq<Structure>)
    requires AllWellFormed(rs)
    decreases |rs|
  {
    if rs == [] then pos == |table|
    else StandsAt(table, pos, rs[0]) && (IsEnd(rs[0]) || Laid(table, After(pos, rs[0]), rs[1..]))
  }

  /** Where `r` stands, `walk` finds what `say` says of it and goes on behind it. */
  ghost predicate StepsBy(walk: (nat, seq<Slot>) -> seq<Slot>, say: Structure -> seq<Slot>, table: seq<byte>) {
    forall pos: nat, r: Structure, out: seq<Slot> {:trigger StandsAt(table, pos, r), walk(pos, out)} ::
      WellFormed(r) && StandsAt(table, pos, r) ==>
        walk(pos, out) == if IsEnd(r) then out + say(r) else walk(After(pos, r), out + say(r))
  }

  lemma StepAt(walk: (nat, seq<Slot>) -> seq<Slot>, say: Structure -> seq<Slot>,
               table: seq<byte>, pos: nat, r: Structure, out: seq<Slot>)
    requires StepsBy(walk, say, table) && WellFormed(r) && StandsAt(table, pos, r)
    ensures walk(pos, out) == if IsEnd(r) then out + say(r) else walk(After(pos, r), out + say(r))
  {
  }

  lemma {:induction false} WalksLaid(walk: (nat, seq<Slot>) -> seq<Slot>, say: Structure -> seq<Slot>,
                                     table: seq<byte>, pos: nat, rs: seq<Structure>, out: seq<Slot>)
    requires StepsBy(walk, say, table) && forall found: seq<Slot> :: walk(|table|, found) == found
    requires AllWellFormed(rs) && Laid(table, pos, rs)
    ensures walk(pos, out) == out + SaidOf(say, rs)
    decreases |rs|
  {
    if rs == [] {
    } else if IsEnd(rs[0]) {
      StepAt(walk, say, table, pos, rs[0], out);
    } else {
      var r, more := rs[0], rs[1..];
      StepAt(walk, say, table, pos, r, out);
      WalksLaid(walk, say, table, After(pos, r), more, out + say(r));
      assert (out + say(r)) + SaidOf(say, more) == out + (say(r) + SaidOf(say, more));
    }
  }

  function Walker(read: Reader, table: seq<byte>): (nat, seq<Slot>) -> seq<Slot> {
    (pos: nat, out: seq<Slot>) => SlotsAfter(read, table, pos, out)
  }

  function Sayer(read: Reader): Structure -> seq<Slot> {
    (r: Structure) => ReadBy(read, r)
  }

  lemma ReaderSteps(read: Reader, table: seq<byte>)
    ensures StepsBy(Walker(read, table), Sayer(read), table)
  {
    var walk, say := Walker(read, table), Sayer(read);
    forall pos: nat, r: Structure, out: seq<Slot> {:trigger StandsAt(table, pos, r), walk(pos, out)}
      | WellFormed(r) && StandsAt(table, pos, r)
      ensures walk(pos, out) == if IsEnd(r) then out + say(r) else walk(After(pos, r), out + say(r))
    {
      ReadsStanding(read, table, pos, r, out);
    }
  }

  lemma EndLater(rs: seq<Structure>)
    requires AllWellFormed(rs) && HasEnd(rs) && !IsEnd(rs[0])
    ensures HasEnd(rs[1..])
  {
    var i :| 0 <= i < |rs| && IsEnd(rs[i]);
    assert rs[1..][i - 1] == rs[i];
  }

  lemma {:induction false} EncodeLays(table: seq<byte>, pos: nat, rs: seq<Structure>, after: seq<byte>)
    requires AllWellFormed(rs) && pos <= |table| && table[pos..] == Encode(rs) + after
    requires after == [] || HasEnd(rs)
    ensures Laid(table, pos, rs)
    decreases |rs|
  {
    if rs != [] {
      EncodeFirst(table, pos, rs, after);
      if !IsEnd(rs[0]) {
        if after != [] {
          EndLater(rs);
        }
        EncodeLays(table, After(pos, rs[0]), rs[1..], after);
      }
    }
  }

  lemma {:induction false} SaidAlike(say: Structure -> seq<Slot>, say': Structure -> seq<Slot>, rs: seq<Structure>)
    requires AllWellFormed(rs)
    requires forall i :: 0 <= i < |rs| ==> say(rs[i]) == say'(rs[i])
    ensures SaidOf(say, rs) == SaidOf(say', rs)
  {
    if rs != [] {
      SaidAlike(say, say', rs[1..]);
    }
  }

  /** A string without characters to strip or to replace names its slot as it stands. */
  lemma NameKept(s: seq<byte>)
    requires s != [] && !IsSpace(s[0] as int as char) && !IsSpace(s[|s| - 1] as int as char)
    requires forall i :: 0 <= i < |s| ==> s[i] < 128
    ensures |NameOf(s)| == |s| && forall i :: 0 <= i < |s| ==> NameOf(s)[i] == s[i] as int as char
  {
    DecodeAt(s);
  }

  lemma {:induction false} DecodeAt(s: seq<byte>)
    requires forall i :: 0 <= i < |s| ==> s[i] < 128
    ensures forall i :: 0 <= i < |s| ==> Decode(s)[i] == s[i] as int as char
  {
    if s != [] {
      DecodeAt(s[1..]);
    }
  }

  /** Parsing inverts encoding: it gives, in order, the slots the structures up to the end marker describe,
      whatever follows the marker. */
  lemma ParseInvertsEncode(rs: seq<Structure>, after: seq<byte>)
    requires AllWellFormed(rs)
    requires after == [] || HasEnd(rs)
    ensures SlotsAfter(ReadSlot, Encode(rs) + after, 0, []) == SaidOf(SlotSaid, rs)
  {
    var table := Encode(rs) + after;
    assert table[0..] == table;
    EncodeLays(table, 0, rs, after);
    ReaderSteps(ReadSlot, table);
    WalksLaid(Walker(ReadSlot, table), Sayer(ReadSlot), table, 0, rs, []);
    forall i | 0 <= i < |rs|
      ensures ReadBy(ReadSlot, rs[i]) == SlotSaid(rs[i])
    {
      ReadsSlot(rs[i]);
    }
    SaidAlike(Sayer(ReadSlot), SlotSaid, rs);
  }

  // ------------------------------------------------------------------
  // Addresses and bay numbers identify positions
  // ------------------------------------------------------------------

  /** The address of a device is its bay's key, a point and its function. */
  function Key(domain: nat, width: nat, bus: nat, device: nat): string {
    Hex(domain, width) + ":" + Hex(bus, 2) + ":" + Hex(device, 2)
  }

  /** The three hexadecimal numbers of a key; None for the ``ValueError`` of any other text. */
  function Position(key: string): Option<(nat, nat, nat)> {
    var parts := Split(':', key);
    if |parts| == 3 && parts[0] != "" && parts[1] != "" && parts[2] != ""
       && AllHex(parts[0]) && AllHex(parts[1]) && AllHex(parts[2])
    then Some((HexValue(parts[0]), HexValue(parts[1]), HexValue(parts[2])))
    else None
  }

  /** ``Bay.number`` */
  function Number(key: string): Option<nat> {
    var p := Position(key);
    if p.Some? then Some((p.value.0 * 256 + p.value.1) * 32 + p.value.2) else None
  }

  lemma PositionOfKey(domain: nat, width: nat, bus: nat, device: nat)
    requires 0 < width && domain < Pow16(width) && bus < 256 && device < 256
    ensures Position(Key(domain, width, bus, device)) == Some((domain, bus, device))
  {
    var a, b, c := Hex(domain, width), Hex(bus, 2), Hex(device, 2);
    SplitOne(':', c);
    SplitHead(':', b, c);
    SplitHead(':', a, b + [':'] + c);
    assert Key(domain, width, bus, device) == a + [':'] + (b + [':'] + c);
    assert Pow16(2) == 256;
    HexRoundTrip(domain, width);
    HexRoundTrip(bus, 2);
    HexRoundTrip(device, 2);
  }

  /** A bay's number determines its position: PCI devices are numbered below 32, buses below 256. */
  lemma NumbersIdentify(key: string, key': string)
    requires Position(key).Some? && Position(key).value.1 < 256 && Position(key).value.2 < 32
    requires Position(key').Some? && Position(key').value.1 < 256 && Position(key').value.2 < 32
    ensures Number(key) == Number(key') <==> Position(key) == Position(key')
  {
    var p, p' := Position(key).value, Position(key').value;
    PositionsDiffer(p.0, p.1, p.2, p'.0, p'.1, p'.2);
  }

  lemma PositionsDiffer(domain: nat, bus: nat, device: nat, domain': nat, bus': nat, device': nat)
    requires bus < 256 && device < 32 && bus' < 256 && device' < 32
    ensures (domain * 256 + bus) * 32 + device == (domain' * 256 + bus') * 32 + device'
        ==> domain == domain' && bus == bus' && device == device'
  {
  }

  /** A bay's number is made of its domain, bus and device. */
  lemma NumberOfKey(domain: nat, width: nat, bus: nat, device: nat)
    requires 0 < width && domain < Pow16(width) && bus < 256 && device < 256
    ensures Number(Key(domain, width, bus, device)) == Some(domain * 8192 + bus * 32 + device)
  {
    PositionOfKey(domain, width, bus, device);
  }

  /** A slot is numbered by where its device is. */
  lemma AddressPosition(segment: nat, bus: nat, devfn: nat)
    requires segment < 0x1_0000 && bus < 256 && devfn < 256
    ensures var a := Address(segment, bus, devfn);
            && |a| == 12 && a[10] == '.' && HexDigit(devfn % 8) == a[11]
            && Position(a[..10]) == Some((segment, bus, devfn / 8))
  {
    assert Hex(devfn % 8, 1) == [HexDigit(devfn % 8)] by {
      assert Hex(devfn % 8 / 16, 0) == [];
    }
    var key := Key(segment, 4, bus, devfn / 8);
    assert Address(segment, bus, devfn) == key + "." + Hex(devfn % 8, 1);
    assert |key| == 10;
    assert Address(segment, bus, devfn)[..10] == key;
    assert Pow16(4) == 0x1_0000;
    PositionOfKey(segment, 4, bus, devfn / 8);
  }

  /** Distinct segments, buses and device functions have distinct addresses. */
  lemma AddressInjective(segment: nat, bus: nat, devfn: nat, segment': nat, bus': nat, devfn': nat)
    requires segment < 0x1_0000 && bus < 256 && devfn < 256
    requires segment' < 0x1_0000 && bus' < 256 && devfn' < 256
    requires Address(segment, bus, devfn) == Address(segment', bus', devfn')
    ensures segment == segment' && bus == bus' && devfn == devfn'
  {
    AddressPosition(segment, bus, devfn);
    AddressPosition(segment', bus', devfn');
  }

  // ------------------------------------------------------------------
  // White space around names, and the end marker
  // ------------------------------------------------------------------

  /** Tab to carriage return, the four separators and the space. */
  predicate IsPadding(s: seq<byte>) {
    forall i :: 0 <= i < |s| ==> 9 <= s[i] <= 13 || 28 <= s[i] <= 32
  }

  lemma {:induction false} DecodeBoth(a: seq<byte>, b: seq<byte>)
    ensures Decode(a + b) == Decode(a) + Decode(b)
  {
    if a == [] {
      assert a + b == b;
    } else {
      assert (a + b)[1..] == a[1..] + b;
      DecodeBoth(a[1..], b);
    }
  }

  predicate AllSpaces(s: string) {
    forall i :: 0 <= i < |s| ==> IsSpace(s[i])
  }

  lemma {:induction false} PaddingIsSpaces(s: seq<byte>)
    requires IsPadding(s)
    ensures AllSpaces(Decode(s))
  {
    if s != [] {
      PaddingIsSpaces(s[1..]);
    }
  }

  lemma {:induction false} StripLeftSpaces(a: string, s: string)
    requires AllSpaces(a)
    ensures StripLeft(a + s) == StripLeft(s)
  {
    if a == [] {
      assert a + s == s;
    } else {
      assert (a + s)[1..] == a[1..] + s;
      StripLeftSpaces(a[1..], s);
    }
  }

  lemma {:induction false} StripRightSpaces(s: string, b: string)
    requires AllSpaces(b)
    ensures StripRight(s + b) == StripRight(s)
    decreases |b|
  {
    if b == [] {
      assert s + b == s;
    } else {
      assert (s + b)[..|s + b| - 1] == s + b[..|b| - 1];
      StripRightSpaces(s, b[..|b| - 1]);
    }
  }

  lemma {:induction false} StripLeftBefore(s: string, b: string)
    requires AllSpaces(b)
    ensures StripRight(StripLeft(s + b)) == StripRight(StripLeft(s))
  {
    if s == [] {
      assert s + b == b && b + [] == b;
      StripLeftSpaces(b, []);
    } else if IsSpace(s[0]) {
      assert (s + b)[1..] == s[1..] + b;
      StripLeftBefore(s[1..], b);
    } else {
      StripRightSpaces(s, b);
    }
  }

  /** White space around a name is taken off, whatever the name. */
  lemma Stripped(before: seq<byte>, name: seq<byte>, after: seq<byte>)
    requires IsPadding(before) && IsPadding(after)
    ensures NameOf(before + (name + after)) == NameOf(name)
  {
    DecodeBoth(before, name + after);
    DecodeBoth(name, after);
    PaddingIsSpaces(before);
    PaddingIsSpaces(after);
    StripLeftSpaces(Decode(before), Decode(name) + Decode(after));
    StripLeftBefore(Decode(name), Decode(after));
  }

  lemma {:induction false} SaidToEnd(say: Structure -> seq<Slot>, rs: seq<Structure>, i: nat)
    requires AllWellFormed(rs) && i < |rs| && IsEnd(rs[i])
    ensures SaidOf(say, rs) == SaidOf(say, rs[..i + 1])
  {
    if i > 0 && !IsEnd(rs[0]) {
      assert rs[1..][i - 1] == rs[i] && rs[..i + 1][1..] == rs[1..][..i];
      SaidToEnd(say, rs[1..], i - 1);
    }
  }

  /** What follows a structure of type 127 is not read. */
  lemma NothingAfterEnd(rs: seq<Structure>, i: nat, after: seq<byte>)
    requires AllWellFormed(rs) && i < |rs| && rs[i].area[0] == 127
    ensures SlotsAfter(ReadSlot, Encode(rs) + after, 0, []) == SlotsAfter(ReadSlot, Encode(rs[..i + 1]) + [], 0, [])
  {
    assert IsEnd(rs[i]) && HasEnd(rs);
    ParseInvertsEncode(rs, after);
    ParseInvertsEncode(rs[..i + 1], []);
    SaidToEnd(SlotSaid, rs, i);
  }
}
