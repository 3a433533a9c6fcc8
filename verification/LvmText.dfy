/** The parser of LVM's text metadata format, and the text it reads back
    (src/sensors2mqtt/collector/storage/lvm.py, `parse_lvm_metadata`). */
module LvmText {
  import opened LvmTokens
  import opened Wrappers

  /** A dict key. Numbers equal as Python numbers are one key. */
  datatype Key = Word(text: string) | Number(r: real)

  datatype Value =
    | Text(text: string)
    | Integer(i: int)
    | Decimal(r: real)
    | Items(items: seq<Value>)
    | Section(entries: seq<Entry>)

  /** A dict is its items in insertion order, each key once. */
  datatype Entry = Entry(key: Key, value: Value)

  /** The tokens still to be read. */
  datatype Stream = End | Next(token: Token, rest: Stream)

  type Parsed<T> = Result<(T, Stream), Fault>

  function From(toks: seq<Token>, pos: nat): Stream
    decreases |toks| - pos
  {
    if pos < |toks| then Next(toks[pos], From(toks, pos + 1)) else End
  }

  function Length(s: Stream): nat {
    if s.End? then 0 else 1 + Length(s.rest)
  }

  function Skip(s: Stream): Stream {
    if s.End? then End else s.rest
  }

  predicate HasKey(entries: seq<Entry>, key: Key) {
    exists i :: 0 <= i < |entries| && entries[i].key == key
  }

  /** ``out[key] = value``: a key already there keeps its place. */
  function Put(out: seq<Entry>, key: Key, value: Value): seq<Entry> {
    if out == [] then [Entry(key, value)]
    else if out[0].key == key then [Entry(key, value)] + out[1..]
    else [out[0]] + Put(out[1..], key, value)
  }

  function KeyOf(t: Token): Key {
    match t
    case Str(s) => Word(s)
    case Int(i) => Number(i as real)
    case Float(r) => Number(r)
    case Name(w) => Word(w)
    case Punct(c) => Word([c])
  }

  function Scalar(t: Token): Value {
    match t
    case Str(s) => Text(s)
    case Int(i) => Integer(i)
    case Float(r) => Decimal(r)
    case Name(w) => Text(w)
    case Punct(c) => Text([c])
  }

  // ------------------------------------------------------------------
  // What the recursive descent computes
  // ------------------------------------------------------------------

  function ParseValue(s: Stream): (r: Parsed<Value>)
    ensures r.Ok? ==> Length(r.value.1) < Length(s)
    decreases Length(s), 0
  {
    if s.End? then Err(OutOfTokens)
    else if s.token == Punct('[') then
      var (items, rest) :- ParseItems(s.rest, []);
      Ok((Items(items), rest))
    else Ok((Scalar(s.token), s.rest))
  }

  function ParseItems(s: Stream, items: seq<Value>): (r: Parsed<seq<Value>>)
    ensures r.Ok? ==> Length(r.value.1) < Length(s)
    decreases Length(s), 1
  {
    if s.End? then Err(OutOfTokens)
    else if s.token == Punct(']') then Ok((items, s.rest))
    else if s.token == Punct(',') then ParseItems(s.rest, items)
    else
      var (item, rest) :- ParseValue(s);
      ParseItems(rest, items + [item])
  }

  /** One ``key = value`` or ``key { ... }``; the closing brace may be missing at the end of input. */
  function ParseEntry(s: Stream): (r: Parsed<Entry>)
    requires s.Next?
    ensures r.Ok? ==> Length(r.value.1) < Length(s)
    decreases Length(s), 1
  {
    if s.rest.End? then Err(OutOfTokens)
    else
      assert Length(s.rest) == 1 + Length(s.rest.rest);
      match s.rest.token
      case Punct('=') =>
        var (value, rest) :- ParseValue(s.rest.rest);
        Ok((Entry(KeyOf(s.token), value), rest))
      case Punct('{') =>
        var (entries, rest) :- ParseSection(s.rest.rest, Some(Punct('}')), []);
        Ok((Entry(KeyOf(s.token), Section(entries)), Skip(rest)))
      case t => Err(UnexpectedToken(t))
  }

  /** A section's items up to the token `end`, or to the end of input; `end` itself is left. */
  function ParseSection(s: Stream, end: Option<Token>, out: seq<Entry>): (r: Parsed<seq<Entry>>)
    ensures r.Ok? ==> Length(r.value.1) <= Length(s)
    decreases Length(s), 2
  {
    if s.End? || Some(s.token) == end then Ok((out, s))
    else
      var (e, rest) :- ParseEntry(s);
      ParseSection(rest, end, Put(out, e.key, e.value))
  }

  /** ``parse_lvm_metadata(text)`` */
  function Parse(text: string): Result<seq<Entry>, Fault> {
    var toks :- Lex(text);
    var (entries, _) :- ParseSection(From(toks, 0), None, []);
    Ok(entries)
  }

  // ------------------------------------------------------------------
  // The recursive descent itself, moving `pos`
  // ------------------------------------------------------------------

  class Parser {
    const toks: seq<Token>
    var pos: nat

    constructor (toks: seq<Token>)
      ensures this.toks == toks && pos == 0
    {
      this.toks := toks;
      pos := 0;
    }

    function Ahead(): Stream
      reads this
    {
      From(toks, pos)
    }

    method ReadValue() returns (r: Result<Value, Fault>)
      modifies this
      ensures match ParseValue(old(Ahead()))
              case Ok((v, rest)) => r == Ok(v) && Ahead() == rest
              case Err(e) => r == Err(e)
      decreases Length(Ahead()), 0
    {
      if pos >= |toks| {
        return Err(OutOfTokens);
      }
      var t := toks[pos];
      pos := pos + 1;
      if t != Punct('[') {
        return Ok(Scalar(t));
      }
      var items := [];
      ghost var all := ParseItems(Ahead(), []);
      while pos < |toks| && toks[pos] != Punct(']')
        invariant Length(Ahead()) < old(Length(Ahead()))
        invariant all == ParseItems(Ahead(), items)
        decreases Length(Ahead())
      {
        if toks[pos] == Punct(',') {
          pos := pos + 1;
          continue;
        }
        var item := ReadValue();
        if item.Err? {
          return Err(item.error);
        }
        items := items + [item.value];
      }
      if pos >= |toks| {
        return Err(OutOfTokens);
      }
      pos := pos + 1;
      return Ok(Items(items));
    }

    method ReadEntry() returns (r: Result<Entry, Fault>)
      requires pos < |toks|
      modifies this
      ensures match ParseEntry(old(Ahead()))
              case Ok((e, rest)) => r == Ok(e) && Ahead() == rest
              case Err(e) => r == Err(e)
      decreases Length(Ahead()), 1
    {
      var key := KeyOf(toks[pos]);
      ghost var s := Ahead();
      pos := pos + 1;
      assert Ahead() == s.rest && Length(s.rest) < Length(s);
      if pos >= |toks| {
        return Err(OutOfTokens);
      }
      assert From(toks, pos + 1) == s.rest.rest && Length(s.rest.rest) < Length(s.rest);
      if toks[pos] == Punct('=') {
        pos := pos + 1;
        var value := ReadValue();
        if value.Err? {
          return Err(value.error);
        }
        return Ok(Entry(key, value.value));
      } else if toks[pos] == Punct('{') {
        pos := pos + 1;
        var entries := ReadSection(Some(Punct('}')));
        if entries.Err? {
          return Err(entries.error);
        }
        pos := pos + 1;
        return Ok(Entry(key, Section(entries.value)));
      }
      return Err(UnexpectedToken(toks[pos]));
    }

    method ReadSection(end: Option<Token>) returns (r: Result<seq<Entry>, Fault>)
      modifies this
      ensures match ParseSection(old(Ahead()), end, [])
              case Ok((entries, rest)) => r == Ok(entries) && Ahead() == rest
              case Err(e) => r == Err(e)
      decreases Length(Ahead()), 2
    {
      var out: seq<Entry> := [];
      ghost var all := ParseSection(Ahead(), end, []);
      while pos < |toks| && Some(toks[pos]) != end
        invariant Length(Ahead()) <= old(Length(Ahead()))
        invariant all == ParseSection(Ahead(), end, out)
        decreases Length(Ahead())
      {
        var e := ReadEntry();
        if e.Err? {
          return Err(e.error);
        }
        out := Put(out, e.value.key, e.value.value);
      }
      return Ok(out);
    }
  }

  method ParseLvmMetadata(text: string) returns (r: Result<seq<Entry>, Fault>)
    ensures r == Parse(text)
  {
    var toks := Tokens(text);
    if toks.Err? {
      return Err(toks.error);
    }
    var parser := new Parser(toks.value);
    r := parser.ReadSection(None);
  }

  // ------------------------------------------------------------------
  // Printing, in front of the tokens that follow
  // ------------------------------------------------------------------

  function PrintValue(v: Value, rest: Stream): Stream
    decreases v, 1
  {
    match v
    case Text(s) => Next(Str(s), rest)
    case Integer(i) => Next(Int(i), rest)
    case Decimal(r) => Next(Float(r), rest)
    case Items(items) => Next(Punct('['), PrintItems(items, Next(Punct(']'), rest)))
    case Section(entries) => Next(Punct('{'), PrintEntries(entries, Next(Punct('}'), rest)))
  }

  function PrintItems(items: seq<Value>, rest: Stream): Stream
    decreases items, 0
  {
    if items == [] then rest
    else if |items| == 1 then PrintValue(items[0], rest)
    else PrintValue(items[0], Next(Punct(','), PrintItems(items[1..], rest)))
  }

  function PrintKey(key: Key): Token {
    match key
    case Word(w) => Name(w)
    case Number(r) => Float(r)
  }

  function PrintEntry(e: Entry, rest: Stream): Stream
    decreases e, 0
  {
    Next(PrintKey(e.key),
         if e.value.Section? then PrintValue(e.value, rest) else Next(Punct('='), PrintValue(e.value, rest)))
  }

  function PrintEntries(entries: seq<Entry>, rest: Stream): Stream
    decreases entries, 0
  {
    if entries == [] then rest else PrintEntry(entries[0], PrintEntries(entries[1..], rest))
  }

  function ToSeq(s: Stream): (toks: seq<Token>) {
    if s.End? then [] else [s.token] + ToSeq(s.rest)
  }

  /** The tokens of a whole tree. */
  function Print(entries: seq<Entry>): seq<Token> {
    ToSeq(PrintEntries(entries, End))
  }

  lemma {:induction false} FromToSeq(before: seq<Token>, s: Stream)
    ensures From(before + ToSeq(s), |before|) == s
    decreases s
  {
    if s.Next? {
      FromToSeq(before + [s.token], s.rest);
      assert before + [s.token] + ToSeq(s.rest) == before + ToSeq(s);
    }
  }

  // ------------------------------------------------------------------
  // The trees the format can hold
  // ------------------------------------------------------------------

  /** What the format can express: no section inside a list, each key of a section once. */
  predicate Listable(v: Value) {
    match v
    case Items(items) => forall i :: 0 <= i < |items| ==> Listable(items[i])
    case Section(_) => false
    case _ => true
  }

  predicate WellKeyed(entries: seq<Entry>) {
    if entries == [] then true
    else
      && (forall i :: 0 < i < |entries| ==> entries[i].key != entries[0].key)
      && Expressible(entries[0])
      && WellKeyed(entries[1..])
  }

  predicate Expressible(e: Entry) {
    if e.value.Section? then WellKeyed(e.value.entries) else Listable(e.value)
  }

  /** What has a spelling: no decimals, and every key is a word that is not a number. */
  predicate Spellable(v: Value) {
    match v
    case Text(_) => true
    case Integer(_) => true
    case Decimal(_) => false
    case Items(items) => forall i :: 0 <= i < |items| ==> Spellable(items[i])
    case Section(entries) => AllSpellable(entries)
  }

  predicate AllSpellable(entries: seq<Entry>) {
    entries != [] ==> SpellableEntry(entries[0]) && AllSpellable(entries[1..])
  }

  predicate SpellableEntry(e: Entry) {
    Writable(PrintKey(e.key)) && Spellable(e.value)
  }

  predicate StreamWritable(s: Stream) {
    s.Next? ==> Writable(s.token) && StreamWritable(s.rest)
  }

  lemma {:induction false} ValueWritable(v: Value, rest: Stream)
    requires Spellable(v) && StreamWritable(rest)
    ensures StreamWritable(PrintValue(v, rest))
    decreases v, 1
  {
    match v
    case Items(items) => ItemsWritable(items, Next(Punct(']'), rest));
    case Section(entries) => EntriesWritable(entries, Next(Punct('}'), rest));
    case _ =>
  }

  lemma {:induction false} ItemsWritable(items: seq<Value>, rest: Stream)
    requires forall i :: 0 <= i < |items| ==> Spellable(items[i])
    requires StreamWritable(rest)
    ensures StreamWritable(PrintItems(items, rest))
    decreases items, 0
  {
    if |items| == 1 {
      ValueWritable(items[0], rest);
    } else if |items| > 1 {
      ItemsWritable(items[1..], rest);
      ValueWritable(items[0], Next(Punct(','), PrintItems(items[1..], rest)));
    }
  }

  lemma {:induction false} EntryWritable(e: Entry, rest: Stream)
    requires SpellableEntry(e) && StreamWritable(rest)
    ensures StreamWritable(PrintEntry(e, rest))
    decreases e, 0
  {
    ValueWritable(e.value, rest);
  }

  lemma {:induction false} EntriesWritable(entries: seq<Entry>, rest: Stream)
    requires AllSpellable(entries) && StreamWritable(rest)
    ensures StreamWritable(PrintEntries(entries, rest))
    decreases entries, 0
  {
    if entries != [] {
      EntriesWritable(entries[1..], rest);
      EntryWritable(entries[0], PrintEntries(entries[1..], rest));
    }
  }

  lemma {:induction false} ToSeqWritable(s: Stream)
    requires StreamWritable(s)
    ensures AllWritable(ToSeq(s))
  {
    if s.Next? {
      ToSeqWritable(s.rest);
    }
  }

  lemma PrintWritable(entries: seq<Entry>)
    requires AllSpellable(entries)
    ensures AllWritable(Print(entries))
  {
    EntriesWritable(entries, End);
    ToSeqWritable(PrintEntries(entries, End));
  }

  // ------------------------------------------------------------------
  // Parsing what was printed
  // ------------------------------------------------------------------

  lemma {:induction false} ValueParses(v: Value, rest: Stream)
    requires Listable(v)
    ensures ParseValue(PrintValue(v, rest)) == Ok((v, rest))
    decreases v, 1
  {
    if v.Items? {
      ItemsParse(v.items, rest, []);
      assert [] + v.items == v.items;
    }
  }

  lemma {:induction false} ItemParses(v: Value, rest: Stream, before: seq<Value>)
    requires Listable(v)
    ensures ParseItems(PrintValue(v, rest), before) == ParseItems(rest, before + [v])
    decreases v, 2
  {
    ValueParses(v, rest);
  }

  lemma {:induction false} ItemsParse(items: seq<Value>, rest: Stream, before: seq<Value>)
    requires forall i :: 0 <= i < |items| ==> Listable(items[i])
    ensures ParseItems(PrintItems(items, Next(Punct(']'), rest)), before) == Ok((before + items, rest))
    decreases items, 0
  {
    var close := Next(Punct(']'), rest);
    if items == [] {
      assert before + items == before;
    } else {
      var v, more := items[0], items[1..];
      assert before + [v] + more == before + items;
      if more == [] {
        assert |items| == 1 && before + [v] == before + items;
        ItemParses(v, close, before);
      } else {
        ItemsParse(more, rest, before + [v]);
        ItemParses(v, Next(Punct(','), PrintItems(more, close)), before);
      }
    }
  }

  lemma {:induction false} PutNew(out: seq<Entry>, key: Key, value: Value)
    requires !HasKey(out, key)
    ensures Put(out, key, value) == out + [Entry(key, value)]
  {
    if out != [] {
      assert out[0].key != key;
      forall i | 0 <= i < |out[1..]| ensures out[1..][i].key != key {
        assert out[1..][i] == out[i + 1];
      }
      PutNew(out[1..], key, value);
    }
  }

  predicate Fresh(out: seq<Entry>, entries: seq<Entry>) {
    forall i :: 0 <= i < |entries| ==> !HasKey(out, entries[i].key)
  }

  lemma FreshTail(out: seq<Entry>, entries: seq<Entry>)
    requires entries != [] && WellKeyed(entries) && Fresh(out, entries)
    ensures Fresh(out + [entries[0]], entries[1..])
  {
    forall i | 0 <= i < |entries[1..]|
      ensures !HasKey(out + [entries[0]], entries[1..][i].key)
    {
      assert entries[1..][i] == entries[i + 1];
      assert !HasKey(out, entries[i + 1].key);
    }
  }

  predicate Ends(s: Stream, end: Option<Token>) {
    s.End? || Some(s.token) == end
  }

  predicate Closing(end: Option<Token>) {
    end == None || end == Some(Punct('}'))
  }

  lemma {:induction false} EntryParses(e: Entry, rest: Stream)
    requires Expressible(e)
    ensures ParseEntry(PrintEntry(e, rest)) == Ok((e, rest))
    decreases e, 0
  {
    if e.value.Section? {
      SectionParses(e.value.entries, Next(Punct('}'), rest), Some(Punct('}')), []);
      assert [] + e.value.entries == e.value.entries;
    } else {
      ValueParses(e.value, rest);
    }
  }

  /** Whatever follows them, printed entries are read as those entries. */
  lemma {:induction false} SectionReads(entries: seq<Entry>, rest: Stream, end: Option<Token>, out: seq<Entry>)
    requires WellKeyed(entries) && Fresh(out, entries) && Closing(end)
    ensures ParseSection(PrintEntries(entries, rest), end, out) == ParseSection(rest, end, out + entries)
    decreases entries, 0
  {
    if entries == [] {
      assert out + entries == out;
    } else {
      var e, more := entries[0], entries[1..];
      FreshTail(out, entries);
      SectionReads(more, rest, end, out + [e]);
      assert out + [e] + more == out + entries;
      assert !HasKey(out, e.key);
      PutNew(out, e.key, e.value);
      EntryParses(e, PrintEntries(more, rest));
    }
  }

  lemma {:induction false} SectionParses(entries: seq<Entry>, rest: Stream, end: Option<Token>, out: seq<Entry>)
    requires WellKeyed(entries) && Fresh(out, entries)
    requires Closing(end) && Ends(rest, end)
    ensures ParseSection(PrintEntries(entries, rest), end, out) == Ok((out + entries, rest))
    decreases entries, 1
  {
    SectionReads(entries, rest, end, out);
  }

  lemma PrintLexes(entries: seq<Entry>, gaps: seq<string>)
    requires AllSpellable(entries)
    requires GapsFit(Print(entries), gaps)
    ensures AllWritable(Print(entries))
    ensures Lex(Write(Print(entries), gaps)) == Ok(Print(entries))
  {
    PrintWritable(entries);
    LexWrite(Print(entries), gaps);
  }

  lemma PrintParses(entries: seq<Entry>)
    requires WellKeyed(entries)
    ensures ParseSection(From(Print(entries), 0), None, []) == Ok((entries, End))
  {
    FromToSeq([], PrintEntries(entries, End));
    assert [] + Print(entries) == Print(entries);
    SectionParses(entries, End, None, []);
    assert [] + entries == entries;
  }

  /** Any tree, written with any spaces and comments between its tokens, parses to itself. */
  lemma RoundTrip(entries: seq<Entry>, gaps: seq<string>)
    requires WellKeyed(entries) && AllSpellable(entries)
    requires GapsFit(Print(entries), gaps)
    ensures AllWritable(Print(entries))
    ensures Parse(Write(Print(entries), gaps)) == Ok(entries)
  {
    PrintLexes(entries, gaps);
    PrintParses(entries);
  }

  // ------------------------------------------------------------------
  // What is not accepted, and keys that come twice
  // ------------------------------------------------------------------

  /** Behind any entries, a key with anything but ``=`` or an opening brace after it is an error that names that token;
      one with nothing after it is out of tokens. */
  lemma KeyAlone(entries: seq<Entry>, key: Token, after: Stream)
    requires WellKeyed(entries) && (after.Next? ==> after.token != Punct('=') && after.token != Punct('{'))
    ensures ParseSection(PrintEntries(entries, Next(key, after)), None, [])
         == Err(if after.Next? then UnexpectedToken(after.token) else OutOfTokens)
  {
    SectionReads(entries, Next(key, after), None, []);
  }

  /** So with any spaces and comments such a text is rejected. */
  lemma Rejected(entries: seq<Entry>, key: Token, after: Stream, gaps: seq<string>)
    requires WellKeyed(entries) && (after.Next? ==> after.token != Punct('=') && after.token != Punct('{'))
    requires var toks := ToSeq(PrintEntries(entries, Next(key, after))); AllWritable(toks) && GapsFit(toks, gaps)
    ensures Parse(Write(ToSeq(PrintEntries(entries, Next(key, after))), gaps))
         == Err(if after.Next? then UnexpectedToken(after.token) else OutOfTokens)
  {
    var s := PrintEntries(entries, Next(key, after));
    LexWrite(ToSeq(s), gaps);
    FromToSeq([], s);
    assert [] + ToSeq(s) == ToSeq(s);
    KeyAlone(entries, key, after);
  }

  /** A key that comes again keeps its place and gets the later value; nothing else changes. */
  lemma {:induction false} PutAgain(out: seq<Entry>, key: Key, value: Value, i: nat)
    requires i < |out| && out[i].key == key && forall j :: 0 <= j < i ==> out[j].key != key
    ensures Put(out, key, value) == out[i := Entry(key, value)]
  {
    if i > 0 {
      PutAgain(out[1..], key, value, i - 1);
    }
  }

  /** A key that is a number is that number however it is written, and no word. */
  lemma NumberKeys(i: int, r: real, w: string)
    ensures KeyOf(Int(i)) == KeyOf(Float(r)) <==> i as real == r
    ensures KeyOf(Int(i)) != KeyOf(Name(w)) && KeyOf(Name(w)) == KeyOf(Str(w))
  {
  }
}
