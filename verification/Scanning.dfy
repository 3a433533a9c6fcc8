/** A tokenizer's loop over any token expression: match at the front, keep what
    the match yields, go on behind it (src/sensors2mqtt/collector/storage/lvm.py, `_tokens`). */
module Scanning {
  import opened Wrappers

  /** What one match yields: a token, or nothing (space, comment), and its length. */
  datatype Match<+T> = Match(token: Option<T>, length: nat)

  type Matcher<!T> = string -> Option<Match<T>>

  /** The tokens of `s`, the text left at offset `at`; an error is the offset nothing matched at. */
  function Scan<T>(matcher: Matcher<T>, s: string, at: nat): Result<seq<T>, nat>
    decreases |s|
  {
    if s == [] then Ok([])
    else
      match matcher(s)
      case None => Err(at)
      case Some(m) =>
        if 0 < m.length <= |s|
        then Prepend(Emitted(m), Scan(matcher, s[m.length..], at + m.length))
        else Err(at)
  }

  function Emitted<T>(m: Match<T>): seq<T> {
    if m.token.Some? then [m.token.value] else []
  }

  function Prepend<T>(toks: seq<T>, r: Result<seq<T>, nat>): Result<seq<T>, nat> {
    if r.Ok? then Ok(toks + r.value) else r
  }

  lemma PrependTwice<T>(a: seq<T>, b: seq<T>, r: Result<seq<T>, nat>)
    ensures Prepend(a, Prepend(b, r)) == Prepend(a + b, r)
  {
    if r.Ok? {
      assert a + (b + r.value) == a + b + r.value;
    }
  }

  /** The loop: `pos` moves through the text, `toks` grows. */
  method Tokenize<T>(matcher: Matcher<T>, text: string) returns (r: Result<seq<T>, nat>)
    ensures r == Scan(matcher, text, 0)
  {
    var pos: nat, toks: seq<T> := 0, [];
    ghost var all := Scan(matcher, text, 0);
    assert text[0..] == text;
    assert all.Ok? ==> [] + all.value == all.value;
    while pos < |text|
      invariant pos <= |text|
      invariant all == Prepend(toks, Scan(matcher, text[pos..], pos))
    {
      var found := matcher(text[pos..]);
      if found.None? || found.value.length == 0 || found.value.length > |text| - pos {
        return Err(pos);
      }
      var m := found.value;
      assert text[pos..][m.length..] == text[pos + m.length..];
      PrependTwice(toks, Emitted(m), Scan(matcher, text[pos + m.length..], pos + m.length));
      pos, toks := pos + m.length, toks + Emitted(m);
    }
    assert toks + [] == toks;
    return Ok(toks);
  }

  // ------------------------------------------------------------------
  // Text laid out as words with gaps around them
  // ------------------------------------------------------------------

  /** `gaps[0] words[0] gaps[1] ... words[n-1] gaps[n]` */
  function Render(words: seq<string>, gaps: seq<string>): string
    requires |gaps| == |words| + 1
  {
    if words == [] then gaps[0] else gaps[0] + (words[0] + Render(words[1..], gaps[1..]))
  }

  /** Reading `g` and then anything is reading that thing. */
  ghost predicate Skips<T(!new)>(matcher: Matcher<T>, g: string) {
    forall rest: string, at: nat {:trigger Scan(matcher, g + rest, at)} ::
      Scan(matcher, g + rest, at) == Scan(matcher, rest, at + |g|)
  }

  lemma SkipsAt<T(!new)>(matcher: Matcher<T>, g: string, rest: string, at: nat)
    requires Skips(matcher, g)
    ensures Scan(matcher, g + rest, at) == Scan(matcher, rest, at + |g|)
  {
  }

  lemma NothingSkips<T(!new)>(matcher: Matcher<T>, g: string)
    requires g == []
    ensures Skips(matcher, g)
  {
    forall rest: string, at: nat
      ensures Scan(matcher, g + rest, at) == Scan(matcher, rest, at + |g|)
    {
      assert g + rest == rest;
    }
    assert Skips(matcher, g);
  }

  lemma ScanSkip<T>(matcher: Matcher<T>, s: string, n: nat, at: nat)
    requires 0 < n <= |s| && matcher(s) == Some(Match(None, n))
    ensures Scan(matcher, s, at) == Scan(matcher, s[n..], at + n)
  {
    var r := Scan(matcher, s[n..], at + n);
    assert r.Ok? ==> [] + r.value == r.value;
  }

  /** A match that yields nothing and covers `g` moves the scan to what follows `g`. */
  lemma ScanNothing<T>(matcher: Matcher<T>, g: string, rest: string, at: nat)
    requires g != [] && matcher(g + rest) == Some(Match(None, |g|))
    ensures Scan(matcher, g + rest, at) == Scan(matcher, rest, at + |g|)
  {
    ScanSkip(matcher, g + rest, |g|, at);
    assert (g + rest)[|g|..] == rest;
  }

  /** Matched as nothing, `s` scans as without its first character if that is matched as nothing to the same end. */
  lemma ScanShorter<T>(matcher: Matcher<T>, s: string, n: nat, at: nat)
    requires n < |s| && matcher(s) == Some(Match(None, 1 + n))
    requires n == 0 || matcher(s[1..]) == Some(Match(None, n))
    ensures Scan(matcher, s, at) == Scan(matcher, s[1..], at + 1)
  {
    var t := s[1..];
    ScanSkip(matcher, s, 1 + n, at);
    assert s[1 + n..] == t[n..];
    if n > 0 {
      ScanSkip(matcher, t, n, at + 1);
    } else {
      assert t[n..] == t;
    }
  }

  /** A match that yields `tok` and covers `word` puts `tok` before the tokens that follow. */
  lemma ScanToken<T>(matcher: Matcher<T>, tok: T, word: string, rest: string, at: nat)
    requires word != [] && matcher(word + rest) == Some(Match(Some(tok), |word|))
    ensures Scan(matcher, word + rest, at) == Prepend([tok], Scan(matcher, rest, at + |word|))
  {
    assert (word + rest)[|word|..] == rest;
  }

  /** `g` is matched as nothing whenever `h` follows. */
  ghost predicate MatchedBefore<T(!new)>(matcher: Matcher<T>, g: string, h: string) {
    forall rest: string {:trigger matcher(g + (h + rest))} ::
      matcher(g + (h + rest)) == Some(Match(None, |g|))
  }

  lemma SkipsBeforeAt<T(!new)>(matcher: Matcher<T>, g: string, h: string, rest: string, at: nat)
    requires g != [] && MatchedBefore(matcher, g, h) && Skips(matcher, h)
    ensures Scan(matcher, g + (h + rest), at) == Scan(matcher, rest, at + |g| + |h|)
  {
    ScanNothing(matcher, g, h + rest, at);
    SkipsAt(matcher, h, rest, at + |g|);
  }

  /** What is matched as nothing whenever `h` follows can be skipped together with `h`. */
  lemma SkipsBefore<T(!new)>(matcher: Matcher<T>, g: string, h: string)
    requires g != [] && MatchedBefore(matcher, g, h) && Skips(matcher, h)
    ensures Skips(matcher, g + h)
  {
    forall rest: string, at: nat
      ensures Scan(matcher, (g + h) + rest, at) == Scan(matcher, rest, at + |g + h|)
    {
      assert (g + h) + rest == g + (h + rest);
      SkipsBeforeAt(matcher, g, h, rest, at);
    }
    assert Skips(matcher, g + h);
  }

  lemma SkipsBoth<T(!new)>(matcher: Matcher<T>, g: string, h: string)
    requires Skips(matcher, g) && Skips(matcher, h)
    ensures Skips(matcher, g + h)
  {
    forall rest: string, at: nat
      ensures Scan(matcher, (g + h) + rest, at) == Scan(matcher, rest, at + |g + h|)
    {
      assert (g + h) + rest == g + (h + rest);
      SkipsAt(matcher, g, h + rest, at);
      SkipsAt(matcher, h, rest, at + |g|);
    }
    assert Skips(matcher, g + h);
  }

  ghost predicate YieldsNothing<T(!new)>(matcher: Matcher<T>, g: string) {
    forall at: nat :: Scan(matcher, g, at) == Ok([])
  }

  /** Each word, with what the layout puts behind it, is matched whole as its token. */
  ghost predicate Matched<T(!new)>(matcher: Matcher<T>, toks: seq<T>, words: seq<string>, gaps: seq<string>)
    requires |toks| == |words| && |gaps| == |words| + 1
  {
    forall i :: 0 <= i < |words| ==>
      && words[i] != []
      && matcher(words[i] + Render(words[i + 1..], gaps[i + 1..])) == Some(Match(Some(toks[i]), |words[i]|))
  }

  lemma MatchedTail<T(!new)>(matcher: Matcher<T>, toks: seq<T>, words: seq<string>, gaps: seq<string>)
    requires |toks| == |words| > 0 && |gaps| == |words| + 1
    requires Matched(matcher, toks, words, gaps)
    ensures Matched(matcher, toks[1..], words[1..], gaps[1..])
  {
    forall i | 0 <= i < |words[1..]|
      ensures var w := words[1..][i];
              && w != []
              && matcher(w + Render(words[1..][i + 1..], gaps[1..][i + 1..])) == Some(Match(Some(toks[1..][i]), |w|))
    {
      assert words[1..][i] == words[i + 1];
      assert words[1..][i + 1..] == words[i + 2..] && gaps[1..][i + 1..] == gaps[i + 2..];
    }
  }

  lemma {:induction false} ScanRender<T(!new)>(
      matcher: Matcher<T>, toks: seq<T>, words: seq<string>, gaps: seq<string>, at: nat)
    requires |toks| == |words| && |gaps| == |words| + 1
    requires Matched(matcher, toks, words, gaps)
    requires forall i :: 0 <= i < |words| ==> Skips(matcher, gaps[i])
    requires YieldsNothing(matcher, gaps[|words|])
    ensures Scan(matcher, Render(words, gaps), at) == Ok(toks)
    decreases |words|
  {
    if words != [] {
      var word, rest, start := words[0], Render(words[1..], gaps[1..]), at + |gaps[0]|;
      MatchedTail(matcher, toks, words, gaps);
      ScanRender(matcher, toks[1..], words[1..], gaps[1..], start + |word|);
      SkipsAt(matcher, gaps[0], word + rest, at);
      ScanToken(matcher, toks[0], word, rest, start);
      assert [toks[0]] + toks[1..] == toks;
    }
  }
}
