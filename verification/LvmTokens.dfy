/** The tokenizer of LVM's text metadata format (src/sensors2mqtt/collector/storage/lvm.py, `_tokens`). */
module LvmTokens {
  import opened Numerals
  import opened Scanning
  import opened Wrappers

  datatype Token =
    | Str(text: string)
    | Int(i: int)
    | Float(r: real)
    | Name(text: string)
    | Punct(c: char)

  datatype Fault =
    | UnexpectedCharacter(at: nat)  // ValueError of the tokenizer
    | UnexpectedToken(token: Token) // ValueError of the parser
    | OutOfTokens                   // IndexError of the parser

  // ------------------------------------------------------------------
  // Character classes and runs
  // ------------------------------------------------------------------

  /** What the regular expression class ``\s`` matches in a Python string. */
  predicate IsSpace(c: char) {
    || '\t' <= c <= '\r'
    || '\U{1c}' <= c <= ' '
    || c == '\U{85}' || c == '\U{a0}' || c == '\U{1680}'
    || c == '\U{2028}' || c == '\U{2029}' || c == '\U{202f}' || c == '\U{205f}' || c == '\U{3000}'
    || '\U{2000}' <= c <= '\U{200a}'
  }

  predicate IsWordChar(c: char) {
    'A' <= c <= 'Z' || 'a' <= c <= 'z' || IsDigit(c) || c == '_' || c == '.' || c == '+' || c == '-'
  }

  /** ``[^\n]`` */
  predicate InLine(c: char) {
    c != '\n'
  }

  predicate IsPunct(c: char) {
    c == '=' || c == '{' || c == '}' || c == '[' || c == ']' || c == ','
  }

  /** The length of the longest prefix of `s` whose characters all satisfy `p`. */
  function Run(s: string, p: char -> bool): (n: nat)
    ensures n <= |s|
    ensures forall i :: 0 <= i < n ==> p(s[i])
    ensures n < |s| ==> !p(s[n])
  {
    if s != [] && p(s[0]) then 1 + Run(s[1..], p) else 0
  }

  lemma {:induction false} RunUnique(s: string, p: char -> bool, n: nat)
    requires n <= |s|
    requires forall i :: 0 <= i < n ==> p(s[i])
    requires n < |s| ==> !p(s[n])
    ensures Run(s, p) == n
  {
    if n > 0 {
      assert forall i :: 0 <= i < n - 1 ==> s[1..][i] == s[i + 1];
      RunUnique(s[1..], p, n - 1);
    }
  }

  // ------------------------------------------------------------------
  // One match of the token expression
  // ------------------------------------------------------------------

  /** The index of the quote that closes a string body starting at `s`. An escape
      never covers a newline, so a backslash before one closes nothing. */
  function ClosingQuote(s: string): (r: Option<nat>)
    ensures r.Some? ==> r.value < |s| && s[r.value] == '"'
  {
    if s == [] then None
    else if s[0] == '"' then Some(0)
    else if s[0] == '\\' then
      if |s| < 2 || s[1] == '\n' then None else Shift(ClosingQuote(s[2..]), 2)
    else Shift(ClosingQuote(s[1..]), 1)
  }

  function Shift(r: Option<nat>, offset: nat): Option<nat> {
    if r.Some? then Some(r.value + offset) else None
  }

  /** Drops the backslash of each escape, left to right. */
  function Unescape(s: string): string {
    if s == [] then []
    else if s[0] == '\\' && |s| >= 2 && s[1] != '\n' then [s[1]] + Unescape(s[2..])
    else [s[0]] + Unescape(s[1..])
  }

  /** `-?\d+(?:\.\d+)?` over the whole word. */
  predicate IsNumber(w: string) {
    var m := Magnitude(w);
    var whole := Run(m, IsDigit);
    whole > 0 && (whole == |m| || (m[whole] == '.' && whole + 1 < |m| && AllDigits(m[whole + 1..])))
  }

  function Magnitude(w: string): string {
    if w != [] && w[0] == '-' then w[1..] else w
  }

  /** ``int(w)``, or ``float(w)`` without its rounding when there is a fraction. */
  function NumberToken(w: string): Token
    requires IsNumber(w)
  {
    var m := Magnitude(w);
    var whole := Run(m, IsDigit);
    var units: int := NatValue(m[..whole]);
    if whole == |m| then Int(if w[0] == '-' then -units else units)
    else
      var magnitude := units as real + Fraction(m[whole + 1..]);
      Float(if w[0] == '-' then -magnitude else magnitude)
  }

  /** The value of digits behind a point. */
  function Fraction(digits: string): real
    requires AllDigits(digits)
  {
    if digits == "" then 0.0 else (DigitValue(digits[0]) as real + Fraction(digits[1..])) / 10.0
  }

  function WordToken(w: string): Token {
    if IsNumber(w) then NumberToken(w) else Name(w)
  }

  /** The first alternative of the token expression that matches at the start of `s`. */
  function MatchAt(s: string): (r: Option<Match<Token>>)
    ensures r.Some? ==> 0 < r.value.length <= |s|
  {
    if s == [] then None
    else if IsSpace(s[0]) then Some(Match(None, Run(s, IsSpace)))
    else if s[0] == '#' then Some(Match(None, Run(s, InLine)))
    else if s[0] == '"' then
      match ClosingQuote(s[1..])
      case Some(q) => Some(Match(Some(Str(Unescape(s[1..q + 1]))), q + 2))
      case None => None
    else if IsWordChar(s[0]) then
      var n := Run(s, IsWordChar);
      Some(Match(Some(WordToken(s[..n])), n))
    else if IsPunct(s[0]) then Some(Match(Some(Punct(s[0])), 1))
    else None
  }

  // ------------------------------------------------------------------
  // The whole text
  // ------------------------------------------------------------------

  function Lex(text: string): Result<seq<Token>, Fault> {
    Located(Scan(MatchAt, text, 0))
  }

  function Located(r: Result<seq<Token>, nat>): Result<seq<Token>, Fault> {
    match r
    case Ok(toks) => Ok(toks)
    case Err(at) => Err(UnexpectedCharacter(at))
  }

  method Tokens(text: string) returns (r: Result<seq<Token>, Fault>)
    ensures r == Lex(text)
  {
    var found := Tokenize(MatchAt, text);
    r := Located(found);
  }

  // ------------------------------------------------------------------
  // Writing tokens down
  // ------------------------------------------------------------------

  function Escape(s: string): string {
    if s == [] then []
    else if s[0] == '"' || s[0] == '\\' then ['\\', s[0]] + Escape(s[1..])
    else [s[0]] + Escape(s[1..])
  }

  /** Every token but a float has a canonical spelling. */
  predicate Writable(t: Token) {
    match t
    case Str(_) => true
    case Int(_) => true
    case Float(_) => false
    case Name(w) => w != [] && (forall i :: 0 <= i < |w| ==> IsWordChar(w[i])) && !IsNumber(w)
    case Punct(c) => IsPunct(c)
  }

  function Spelling(t: Token): string
    requires Writable(t)
  {
    match t
    case Str(s) => "\"" + Escape(s) + "\""
    case Int(i) => IntText(i)
    case Name(w) => w
    case Punct(c) => [c]
  }

  predicate IsWordToken(t: Token) {
    t.Int? || t.Float? || t.Name?
  }

  /** Text that may stand between two tokens: spaces and comments, each comment ended by a newline. */
  predicate IsGap(g: string) {
    || g == []
    || (IsSpace(g[0]) && IsGap(g[1..]))
    || (g[0] == '#' && var n := Run(g, InLine); n < |g| && IsGap(g[n + 1..]))
  }

  /** Text that may follow the last token: the last comment may run to the end. */
  predicate IsTail(g: string) {
    || g == []
    || (IsSpace(g[0]) && IsTail(g[1..]))
    || (g[0] == '#' && var n := Run(g, InLine); 0 < n && IsTail(g[n..]))
  }

  /** `gaps[i]` stands before token `i`, the last gap after them all; two words never touch. */
  predicate GapsFit(toks: seq<Token>, gaps: seq<string>) {
    && |gaps| == |toks| + 1
    && (forall i :: 0 <= i < |toks| ==> IsGap(gaps[i]))
    && IsTail(gaps[|toks|])
    && (forall i :: 0 < i < |toks| && IsWordToken(toks[i - 1]) && IsWordToken(toks[i]) ==> gaps[i] != [])
  }

  predicate AllWritable(toks: seq<Token>) {
    forall i :: 0 <= i < |toks| ==> Writable(toks[i])
  }

  function Spellings(toks: seq<Token>): (words: seq<string>)
    requires AllWritable(toks)
    ensures |words| == |toks|
    ensures forall i :: 0 <= i < |toks| ==> words[i] == Spelling(toks[i])
  {
    seq(|toks|, i requires 0 <= i < |toks| => Spelling(toks[i]))
  }

  /** The text that writes `toks` with `gaps` around them. */
  function Write(toks: seq<Token>, gaps: seq<string>): string
    requires AllWritable(toks)
    requires |gaps| == |toks| + 1
  {
    Render(Spellings(toks), gaps)
  }

  // ------------------------------------------------------------------
  // Reading back what was written
  // ------------------------------------------------------------------

  lemma {:induction false} UnescapeEscape(s: string)
    ensures Unescape(Escape(s)) == s
  {
    if s != [] {
      UnescapeEscape(s[1..]);
      var e := Escape(s[1..]);
      if s[0] == '"' || s[0] == '\\' {
        assert (['\\', s[0]] + e)[2..] == e;
      } else {
        assert ([s[0]] + e)[1..] == e;
      }
    }
  }

  lemma PlainCloses(c: char, s: string)
    requires c != '"' && c != '\\'
    ensures ClosingQuote([c] + s) == Shift(ClosingQuote(s), 1)
  {
    assert ([c] + s)[1..] == s;
  }

  lemma HiddenCloses(c: char, s: string)
    requires c != '\n'
    ensures ClosingQuote(['\\', c] + s) == Shift(ClosingQuote(s), 2)
  {
    assert (['\\', c] + s)[2..] == s;
  }

  /** The quote that ends a written string is the first one no escape hides. */
  lemma {:induction false} EscapedCloses(s: string, tail: string)
    requires tail != [] && tail[0] == '"'
    ensures ClosingQuote(Escape(s) + tail) == Some(|Escape(s)|)
  {
    if s == [] {
      assert Escape(s) + tail == tail;
    } else {
      EscapedCloses(s[1..], tail);
      var c, e := s[0], Escape(s[1..]);
      if c == '"' || c == '\\' {
        assert (['\\', c] + e) + tail == ['\\', c] + (e + tail);
        HiddenCloses(c, e + tail);
      } else {
        assert ([c] + e) + tail == [c] + (e + tail);
        PlainCloses(c, e + tail);
      }
    }
  }

  lemma IntWord(i: int)
    ensures var w := IntText(i);
            && w != [] && (forall k :: 0 <= k < |w| ==> IsWordChar(w[k]))
            && IsNumber(w) && NumberToken(w) == Int(i)
  {
    var w := IntText(i);
    var digits := NatText(if i < 0 then -i else i);
    assert Magnitude(w) == digits by {
      assert i < 0 ==> w[1..] == digits;
    }
    RunUnique(digits, IsDigit, |digits|);
    assert digits[..|digits|] == digits;
    NatRoundTrip(if i < 0 then -i else i);
  }

  lemma QuoteMatches(s: string, q: nat)
    requires s != [] && s[0] == '"' && ClosingQuote(s[1..]) == Some(q)
    ensures MatchAt(s) == Some(Match(Some(Str(Unescape(s[1..q + 1]))), q + 2))
  {
  }

  lemma QuotedParts(e: string, rest: string)
    ensures var s := "\"" + e + "\"" + rest;
            s[0] == '"' && s[1..] == e + ("\"" + rest) && s[1..|e| + 1] == e
  {
    var s := "\"" + e + "\"" + rest;
    assert s[1..] == e + ("\"" + rest);
    assert s[1..|e| + 1] == e;
  }

  lemma StrMatches(text: string, rest: string)
    ensures var w := Spelling(Str(text));
            MatchAt(w + rest) == Some(Match(Some(Str(text)), |w|))
  {
    var e := Escape(text);
    EscapedCloses(text, "\"" + rest);
    UnescapeEscape(text);
    QuotedParts(e, rest);
    QuoteMatches("\"" + e + "\"" + rest, |e|);
  }

  lemma WordMatches(w: string, rest: string)
    requires w != [] && forall i :: 0 <= i < |w| ==> IsWordChar(w[i])
    requires rest != [] ==> !IsWordChar(rest[0])
    ensures MatchAt(w + rest) == Some(Match(Some(WordToken(w)), |w|))
  {
    var s := w + rest;
    assert s[0] == w[0];
    assert forall i :: 0 <= i < |w| ==> s[i] == w[i];
    RunUnique(s, IsWordChar, |w|);
    assert s[..|w|] == w;
  }

  /** A spelled token, with nothing after it that would lengthen it, is matched whole. */
  lemma SpellingMatches(t: Token, rest: string)
    requires Writable(t)
    requires IsWordToken(t) && rest != [] ==> !IsWordChar(rest[0])
    ensures Spelling(t) != []
    ensures MatchAt(Spelling(t) + rest) == Some(Match(Some(t), |Spelling(t)|))
  {
    match t
    case Str(text) => StrMatches(text, rest);
    case Punct(_) =>
    case Int(i) =>
      IntWord(i);
      WordMatches(IntText(i), rest);
    case Name(w) => WordMatches(w, rest);
  }

  lemma SpaceMatches(s: string)
    requires s != [] && IsSpace(s[0])
    ensures MatchAt(s) == Some(Match(None, 1 + Run(s[1..], IsSpace)))
  {
  }

  /** One leading space changes nothing but offsets. */
  lemma ScanSpace(s: string, at: nat)
    requires s != [] && IsSpace(s[0])
    ensures Scan(MatchAt, s, at) == Scan(MatchAt, s[1..], at + 1)
  {
    var t := s[1..];
    var n := Run(t, IsSpace);
    SpaceMatches(s);
    if n > 0 {
      SpaceMatches(t);
    }
    ScanShorter(MatchAt, s, n, at);
  }

  lemma SpaceSkips(g: string)
    requires |g| == 1 && IsSpace(g[0])
    ensures Skips(MatchAt, g)
  {
    forall rest: string, at: nat
      ensures Scan(MatchAt, g + rest, at) == Scan(MatchAt, rest, at + |g|)
    {
      ScanSpace(g + rest, at);
      assert (g + rest)[1..] == rest;
    }
  }

  lemma CommentMatches(g: string, rest: string)
    requires g != [] && g[0] == '#' && forall i :: 0 <= i < |g| ==> InLine(g[i])
    requires rest != [] ==> rest[0] == '\n'
    ensures MatchAt(g + rest) == Some(Match(None, |g|))
  {
    var s := g + rest;
    assert forall i :: 0 <= i < |g| ==> s[i] == g[i];
    RunUnique(s, InLine, |g|);
  }

  lemma CommentSkips(g: string, eol: string)
    requires g != [] && g[0] == '#' && forall i :: 0 <= i < |g| ==> InLine(g[i])
    requires |eol| == 1 && eol[0] == '\n'
    ensures Skips(MatchAt, g + eol)
  {
    SpaceSkips(eol);
    forall rest: string
      ensures MatchAt(g + (eol + rest)) == Some(Match(None, |g|))
    {
      CommentMatches(g, eol + rest);
    }
    assert MatchedBefore(MatchAt, g, eol);
    SkipsBefore(MatchAt, g, eol);
  }

  lemma SpaceFirst(g: string)
    requires g != [] && IsSpace(g[0]) && Skips(MatchAt, g[1..])
    ensures Skips(MatchAt, g)
  {
    var c, more := g[..1], g[1..];
    SpaceSkips(c);
    SkipsBoth(MatchAt, c, more);
    assert g == c + more;
  }

  lemma CommentFirst(g: string, n: nat)
    requires 0 < n < |g| && g[0] == '#' && g[n] == '\n' && Skips(MatchAt, g[n + 1..])
    requires forall i :: 0 <= i < n ==> InLine(g[i])
    ensures Skips(MatchAt, g)
  {
    var comment, eol, more := g[..n], g[n..n + 1], g[n + 1..];
    CommentSkips(comment, eol);
    SkipsBoth(MatchAt, comment + eol, more);
    assert g == comment + eol + more;
  }

  lemma {:induction false} GapSkips(g: string)
    requires IsGap(g)
    ensures Skips(MatchAt, g)
    decreases |g|
  {
    if g == [] {
      NothingSkips(MatchAt, g);
    } else if IsSpace(g[0]) {
      GapSkips(g[1..]);
      SpaceFirst(g);
    } else {
      var n := Run(g, InLine);
      GapSkips(g[n + 1..]);
      CommentFirst(g, n);
    }
  }

  lemma HashMatches(s: string)
    requires s != [] && s[0] == '#'
    ensures MatchAt(s) == Some(Match(None, Run(s, InLine)))
  {
  }

  lemma ScanComment(g: string, at: nat)
    requires g != [] && g[0] == '#' && 0 < Run(g, InLine)
    ensures var n := Run(g, InLine); Scan(MatchAt, g, at) == Scan(MatchAt, g[n..], at + n)
  {
    HashMatches(g);
    ScanSkip(MatchAt, g, Run(g, InLine), at);
  }

  lemma {:induction false} ScanTail(g: string, at: nat)
    requires IsTail(g)
    ensures Scan(MatchAt, g, at) == Ok([])
    decreases |g|
  {
    if g == [] {
    } else if IsSpace(g[0]) {
      ScanTail(g[1..], at + 1);
      ScanSpace(g, at);
    } else {
      var n := Run(g, InLine);
      ScanTail(g[n..], at + n);
      ScanComment(g, at);
    }
  }

  lemma GapStart(g: string)
    requires g != [] && (IsGap(g) || IsTail(g))
    ensures !IsWordChar(g[0])
  {
  }

  /** No word is lengthened by what the layout puts behind it. */
  lemma NotGlued(toks: seq<Token>, gaps: seq<string>, i: nat)
    requires i < |toks| && AllWritable(toks) && GapsFit(toks, gaps)
    ensures var rest := Render(Spellings(toks)[i + 1..], gaps[i + 1..]);
            IsWordToken(toks[i]) && rest != [] ==> !IsWordChar(rest[0])
  {
    var words := Spellings(toks);
    var g, rest := gaps[i + 1], Render(words[i + 1..], gaps[i + 1..]);
    if g != [] {
      GapStart(g);
      assert rest[0] == g[0];
    } else if i + 1 < |toks| && IsWordToken(toks[i]) {
      var next := toks[i + 1];
      SpellingMatches(next, []);
      assert rest[0] == words[i + 1][0] == Spelling(next)[0];
    }
  }

  /** Whatever stands between them, written tokens are read back unchanged. */
  lemma LexWrite(toks: seq<Token>, gaps: seq<string>)
    requires AllWritable(toks)
    requires GapsFit(toks, gaps)
    ensures Lex(Write(toks, gaps)) == Ok(toks)
  {
    var words := Spellings(toks);
    forall i | 0 <= i < |words|
      ensures words[i] != []
      ensures MatchAt(words[i] + Render(words[i + 1..], gaps[i + 1..])) == Some(Match(Some(toks[i]), |words[i]|))
      ensures Skips(MatchAt, gaps[i])
    {
      NotGlued(toks, gaps, i);
      SpellingMatches(toks[i], Render(words[i + 1..], gaps[i + 1..]));
      GapSkips(gaps[i]);
    }
    forall at: nat
      ensures Scan(MatchAt, gaps[|toks|], at) == Ok([])
    {
      ScanTail(gaps[|toks|], at);
    }
    ScanRender(MatchAt, toks, words, gaps, 0);
  }

  // ------------------------------------------------------------------
  // Which characters and words are which
  // ------------------------------------------------------------------

  /** The classes of the token expression by code point, and of ASCII white space. */
  lemma CharacterClasses(c: char)
    ensures var code := c as int;
            && (IsWordChar(c) <==> 65 <= code <= 90 || 97 <= code <= 122 || 48 <= code <= 57 || c in "_.+-")
            && (IsPunct(c) <==> c in "={}[],")
            && (code < 128 ==> (IsSpace(c) <==> 9 <= code <= 13 || 28 <= code <= 32))
  {
  }

  /** A sign, digits, and a point with digits behind it. */
  predicate IsNumeral(sign: string, whole: string, fraction: string) {
    && (sign == "" || sign == "-") && whole != "" && AllDigits(whole)
    && (fraction == "" || (fraction[0] == '.' && |fraction| > 1 && AllDigits(fraction[1..])))
  }

  /** The words that are numbers are those made of such parts, so `1data`, `-`, `1.` and `1e5` are names. */
  lemma NumberIff(w: string)
    ensures IsNumber(w)
       <==> exists sign, whole, fraction :: w == sign + whole + fraction && IsNumeral(sign, whole, fraction)
  {
    if IsNumber(w) {
      var m := Magnitude(w);
      var n := Run(m, IsDigit);
      var sign := if w != [] && w[0] == '-' then "-" else "";
      assert w == sign + m[..n] + m[n..];
      assert IsNumeral(sign, m[..n], m[n..]) by {
        if n < |m| {
          assert m[n..][1..] == m[n + 1..];
        }
      }
    }
    if sign, whole, fraction :| w == sign + whole + fraction && IsNumeral(sign, whole, fraction) {
      PartsAreNumber(sign, whole, fraction);
    }
  }

  /** The parts of a number word, found again in it. */
  lemma PartsOf(sign: string, whole: string, fraction: string)
    requires IsNumeral(sign, whole, fraction)
    ensures var w, m := sign + whole + fraction, whole + fraction;
            && w != "" && Magnitude(w) == m && (w[0] == '-' <==> sign == "-")
            && m[..|whole|] == whole && m[|whole|..] == fraction
            && (fraction != "" ==> m[|whole|] == '.' && m[|whole| + 1..] == fraction[1..])
  {
    var w, m := sign + whole + fraction, whole + fraction;
    assert sign == "-" ==> w[1..] == m;
    assert sign == "" ==> w == m && w[0] == whole[0];
    assert fraction != "" ==> m[|whole| + 1..] == fraction[1..];
  }

  lemma NumberBy(w: string, m: string, n: nat)
    requires Magnitude(w) == m && 0 < n <= |m| && AllDigits(m[..n])
    requires n < |m| ==> m[n] == '.' && n + 1 < |m| && AllDigits(m[n + 1..])
    ensures Run(m, IsDigit) == n && IsNumber(w)
  {
    assert forall i :: 0 <= i < n ==> m[i] == m[..n][i];
    RunUnique(m, IsDigit, n);
  }

  lemma PartsAreNumber(sign: string, whole: string, fraction: string)
    requires IsNumeral(sign, whole, fraction)
    ensures Run(whole + fraction, IsDigit) == |whole| && IsNumber(sign + whole + fraction)
  {
    PartsOf(sign, whole, fraction);
    NumberBy(sign + whole + fraction, whole + fraction, |whole|);
  }

  /** The word is a decimal with these digits before and behind its point. */
  predicate IsDecimal(w: string, whole: string, digits: string, negative: bool) {
    var m := Magnitude(w);
    && w != "" && (w[0] == '-' <==> negative) && IsNumber(w) && AllDigits(whole) && AllDigits(digits)
    && Run(m, IsDigit) == |whole| < |m| && m[..|whole|] == whole && m[|whole| + 1..] == digits
  }

  lemma DecimalParts(sign: string, whole: string, fraction: string)
    requires IsNumeral(sign, whole, fraction) && fraction != ""
    ensures IsDecimal(sign + whole + fraction, whole, fraction[1..], sign == "-")
  {
    PartsOf(sign, whole, fraction);
    PartsAreNumber(sign, whole, fraction);
  }

  /** A decimal is the number before its point plus the digits behind it, the `k`th of which counts for ten to the
      power of -k, with its sign. */
  lemma DecimalToken(w: string, whole: string, digits: string, negative: bool)
    requires IsDecimal(w, whole, digits, negative)
    ensures var magnitude := NatValue(whole) as real + Fraction(digits);
            WordToken(w) == Float(if negative then -magnitude else magnitude)
  {
  }

  // ------------------------------------------------------------------
  // Strings with other escapes, and broken ones
  // ------------------------------------------------------------------

  /** Quotes and backslashes escaped, and the characters of `more` as well. */
  function EscapeMore(s: string, more: set<char>): string {
    if s == [] then []
    else if s[0] == '"' || s[0] == '\\' || s[0] in more then ['\\', s[0]] + EscapeMore(s[1..], more)
    else [s[0]] + EscapeMore(s[1..], more)
  }

  lemma PlainUnescapes(c: char, s: string)
    requires c != '\\'
    ensures Unescape([c] + s) == [c] + Unescape(s)
  {
    assert ([c] + s)[1..] == s;
  }

  lemma HiddenUnescapes(c: char, s: string)
    requires c != '\n'
    ensures Unescape(['\\', c] + s) == [c] + Unescape(s)
  {
    assert (['\\', c] + s)[2..] == s;
  }

  lemma {:induction false} UnescapeMore(s: string, more: set<char>)
    requires '\n' !in more
    ensures Unescape(EscapeMore(s, more)) == s
  {
    if s != [] {
      UnescapeMore(s[1..], more);
      if s[0] == '"' || s[0] == '\\' || s[0] in more {
        HiddenUnescapes(s[0], EscapeMore(s[1..], more));
      } else {
        PlainUnescapes(s[0], EscapeMore(s[1..], more));
      }
    }
  }

  lemma HiddenBehind(c: char, e: string, tail: string, r: Option<nat>)
    requires c != '\n' && ClosingQuote(e + tail) == Shift(r, |e|)
    ensures ClosingQuote(['\\', c] + e + tail) == Shift(r, |['\\', c] + e|)
  {
    assert ['\\', c] + e + tail == ['\\', c] + (e + tail);
    HiddenCloses(c, e + tail);
  }

  lemma PlainBehind(c: char, e: string, tail: string, r: Option<nat>)
    requires c != '"' && c != '\\' && ClosingQuote(e + tail) == Shift(r, |e|)
    ensures ClosingQuote([c] + e + tail) == Shift(r, |[c] + e|)
  {
    assert [c] + e + tail == [c] + (e + tail);
    PlainCloses(c, e + tail);
  }

  lemma {:induction false} ClosesBehind(s: string, more: set<char>, tail: string)
    requires '\n' !in more
    ensures ClosingQuote(EscapeMore(s, more) + tail) == Shift(ClosingQuote(tail), |EscapeMore(s, more)|)
  {
    if s == [] {
      assert EscapeMore(s, more) + tail == tail;
    } else {
      ClosesBehind(s[1..], more, tail);
      if s[0] == '"' || s[0] == '\\' || s[0] in more {
        HiddenBehind(s[0], EscapeMore(s[1..], more), tail, ClosingQuote(tail));
      } else {
        PlainBehind(s[0], EscapeMore(s[1..], more), tail, ClosingQuote(tail));
      }
    }
  }

  /** Any character but a newline may be escaped without need. */
  lemma EscapedStringMatches(s: string, more: set<char>, rest: string)
    requires '\n' !in more
    ensures var e := EscapeMore(s, more);
            MatchAt("\"" + e + "\"" + rest) == Some(Match(Some(Str(s)), |e| + 2))
  {
    var e := EscapeMore(s, more);
    ClosesBehind(s, more, "\"" + rest);
    UnescapeMore(s, more);
    QuotedParts(e, rest);
    QuoteMatches("\"" + e + "\"" + rest, |e|);
  }

  /** A string that is not closed, or in which a newline follows a backslash, matches nothing. */
  lemma BrokenString(s: string, more: set<char>, tail: string)
    requires '\n' !in more && (tail == "" || (tail[0] == '\\' && (|tail| == 1 || tail[1] == '\n')))
    ensures MatchAt("\"" + EscapeMore(s, more) + tail) == None
  {
    ClosesBehind(s, more, tail);
    NothingCloses(tail);
    NoQuote("\"" + EscapeMore(s, more) + tail, EscapeMore(s, more) + tail);
  }

  lemma NothingCloses(s: string)
    requires s == "" || (s[0] == '\\' && (|s| == 1 || s[1] == '\n'))
    ensures ClosingQuote(s) == None
  {
  }

  lemma NoQuote(s: string, t: string)
    requires s == "\"" + t && ClosingQuote(t) == None
    ensures MatchAt(s) == None
  {
    assert s[1..] == t;
  }
}
