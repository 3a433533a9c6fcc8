/** A list as one text cut to fit a state (src/sensors2mqtt/collector/storage_lvm.py, `short_list`). */
module ShortList {
  import opened Numerals

  /** ``", ".join(items)`` */
  function Joined(items: seq<string>): string {
    if items == [] then ""
    else if |items| == 1 then items[0]
    else Joined(items[..|items| - 1]) + (", " + items[|items| - 1])
  }

  /** The mark for `k` items not shown. */
  function Hidden(k: nat): (s: string)
    ensures |s| == |NatText(k)| + 7
  {
    ", \U{2026} (+" + NatText(k) + ")"
  }

  /** The first `n` items and the number of the others. */
  function Cut(items: seq<string>, n: nat): string
    requires n <= |items|
  {
    Joined(items[..n]) + Hidden(|items| - n)
  }

  function Counted(items: seq<string>): string {
    NatText(|items|) + " items"
  }

  /** `n` items are shown: a proper prefix that fits, and no longer one does. */
  ghost predicate Longest(items: seq<string>, limit: int, n: nat) {
    && 0 < n < |items| && |Cut(items, n)| <= limit
    && forall m :: n < m < |items| ==> |Cut(items, m)| > limit
  }

  ghost predicate NoneFits(items: seq<string>, limit: int) {
    forall m :: 0 < m < |items| ==> |Cut(items, m)| > limit
  }

  /** All items if they fit, else the longest prefix that does, else only their number. */
  ghost predicate IsShort(items: seq<string>, limit: int, text: string) {
    if items == [] then text == "none"
    else if |Joined(items)| <= limit then text == Joined(items)
    else if NoneFits(items, limit) then text == Counted(items)
    else exists n :: Longest(items, limit, n) && text == Cut(items, n)
  }

  method ShortList(items: seq<string>, limit: int) returns (text: string)
    ensures IsShort(items, limit, text)
  {
    if items == [] {
      return "none";
    }
    text := Joined(items);
    if |text| <= limit {
      return;
    }
    var n := |items| - 1;
    while n > 0
      invariant 0 <= n < |items|
      invariant forall m :: n < m < |items| ==> |Cut(items, m)| > limit
    {
      text := Cut(items, n);
      if |text| <= limit {
        assert Longest(items, limit, n);
        return;
      }
      n := n - 1;
    }
    text := Counted(items);
  }

  /** One more decimal digit at most. */
  lemma {:induction false} NextNumeral(n: nat)
    ensures |NatText(n)| <= |NatText(n + 1)| <= |NatText(n)| + 1
  {
    if n >= 9 {
      if n / 10 != (n + 1) / 10 {
        NextNumeral(n / 10);
      }
    }
  }

  /** A longer prefix makes a longer text, although its count of hidden items may lose a digit. */
  lemma CutsGrow(items: seq<string>, n: nat)
    requires 0 < n < |items|
    ensures |Cut(items, n)| < |Cut(items, n + 1)|
  {
    NextNumeral(|items| - n - 1);
    assert items[..n + 1][..n] == items[..n];
    assert Joined(items[..n + 1]) == Joined(items[..n]) + (", " + items[n]);
  }

  lemma {:induction false} CutsOrdered(items: seq<string>, m: nat, n: nat)
    requires 0 < m <= n <= |items|
    ensures |Cut(items, m)| <= |Cut(items, n)|
    decreases n - m
  {
    if m < n {
      CutsGrow(items, m);
      CutsOrdered(items, m + 1, n);
    }
  }

  /** The prefixes that fit are exactly those up to the one shown; there is none exactly if one item already
      does not fit. */
  lemma FittingPrefixes(items: seq<string>, limit: int, n: nat, m: nat)
    requires 0 < m < |items|
    ensures Longest(items, limit, n) ==> (|Cut(items, m)| <= limit <==> m <= n)
    ensures NoneFits(items, limit) <==> |Cut(items, 1)| > limit
  {
    if 0 < n < |items| && m <= n {
      CutsOrdered(items, m, n);
    }
    forall k | 0 < k < |items|
      ensures |Cut(items, 1)| <= |Cut(items, k)|
    {
      CutsOrdered(items, 1, k);
    }
  }

  /** There is one such text. It is within the limit exactly if it is not forced beyond it: "none" or the bare
      number of items, when nothing longer fits, can be too long. */
  lemma ShortIsWithin(items: seq<string>, limit: int, text: string, text': string)
    requires IsShort(items, limit, text) && IsShort(items, limit, text')
    ensures text == text'
    ensures |text| <= limit <==>
              if items == [] then 4 <= limit
              else |Joined(items)| <= limit || !NoneFits(items, limit) || |Counted(items)| <= limit
  {
  }

  /** Items and lists of items are joined by a comma and a space. */
  lemma {:induction false} JoinedBoth(a: seq<string>, b: seq<string>)
    requires a != [] && b != []
    ensures Joined(a + b) == Joined(a) + ", " + Joined(b)
    ensures |b| == 1 ==> Joined(b) == b[0]
    decreases |b|
  {
    var front, last := b[..|b| - 1], b[|b| - 1];
    assert (a + b)[..|a + b| - 1] == a + front && (a + b)[|a + b| - 1] == last;
    if front == [] {
      assert a + front == a;
      assert Joined(a) + (", " + last) == Joined(a) + ", " + last;
    } else {
      JoinedBoth(a, front);
      assert Joined(a) + ", " + Joined(front) + (", " + last) == Joined(a) + ", " + (Joined(front) + (", " + last));
    }
  }

  /** A text that is cut says of all items either that they are shown or that they are counted. */
  lemma CutAccounts(items: seq<string>, n: nat)
    requires 0 < n < |items|
    ensures exists digits :: AllDigits(digits) && n + NatValue(digits) == |items|
                          && Cut(items, n) == Joined(items[..n]) + (", \U{2026} (+" + digits + ")")
    ensures exists digits :: AllDigits(digits) && NatValue(digits) == |items| && Counted(items) == digits + " items"
  {
    NatRoundTrip(|items| - n);
    NatRoundTrip(|items|);
    assert AllDigits(NatText(|items| - n)) && AllDigits(NatText(|items|));
  }
}
