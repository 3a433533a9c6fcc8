/** Device-mapper names of LVs: ``vg-lv`` with every hyphen of the two names doubled
    (src/sensors2mqtt/collector/storage/lvm.py, `dm_lv_name`). */
module DmName {

  /** A hyphen with no hyphen on either side. */
  predicate LoneHyphen(s: string, i: nat)
    requires i < |s|
  {
    s[i] == '-' && (i == 0 || s[i - 1] != '-') && (i + 1 == |s| || s[i + 1] != '-')
  }

  /** The first lone hyphen at or after `from`, or the length. */
  function SplitPoint(s: string, from: nat): (i: nat)
    requires from <= |s|
    ensures from <= i <= |s|
    ensures i < |s| ==> LoneHyphen(s, i)
    ensures forall j :: from <= j < i ==> !LoneHyphen(s, j)
    decreases |s| - from
  {
    if from == |s| || LoneHyphen(s, from) then from else SplitPoint(s, from + 1)
  }

  /** ``s.replace("--", "-")`` */
  function Undouble(s: string): string {
    if s == [] then []
    else if |s| >= 2 && s[0] == '-' && s[1] == '-' then "-" + Undouble(s[2..])
    else [s[0]] + Undouble(s[1..])
  }

  function DmLvName(dm: string): string {
    var i := SplitPoint(dm, 0);
    if i == |dm| then dm else Undouble(dm[..i]) + "/" + Undouble(dm[i + 1..])
  }

  // ------------------------------------------------------------------
  // The encoding
  // ------------------------------------------------------------------

  function Double(s: string): string {
    if s == [] then []
    else if s[0] == '-' then "--" + Double(s[1..])
    else [s[0]] + Double(s[1..])
  }

  function Encode(vg: string, lv: string): string {
    Double(vg) + "-" + Double(lv)
  }

  /** The names that encode without ambiguity. */
  predicate Separable(vg: string, lv: string) {
    (vg == [] || vg[|vg| - 1] != '-') && (lv == [] || lv[0] != '-')
  }

  lemma {:induction false} UndoubleDouble(s: string)
    ensures Undouble(Double(s)) == s
  {
    if s != [] {
      UndoubleDouble(s[1..]);
      var d := Double(s[1..]);
      if s[0] == '-' {
        assert ("--" + d)[2..] == d;
      } else {
        assert ([s[0]] + d)[1..] == d;
      }
    }
  }

  lemma {:induction false} DoubleEnds(s: string)
    requires s != []
    ensures var d := Double(s);
            && d != [] && d[0] == s[0] && d[|d| - 1] == s[|s| - 1]
            && (s[0] == '-' ==> |d| >= 2 && d[1] == '-')
            && (s[|s| - 1] == '-' ==> |d| >= 2 && d[|d| - 2] == '-')
  {
    if |s| > 1 {
      DoubleEnds(s[1..]);
    } else {
      assert Double(s[1..]) == [];
    }
  }

  /** Every hyphen of a doubled name has a hyphen beside it. */
  lemma {:induction false} DoubleHasNoLoneHyphen(s: string, i: nat)
    requires i < |Double(s)|
    ensures !LoneHyphen(Double(s), i)
  {
    var d, rest := Double(s), Double(s[1..]);
    if s[0] == '-' {
      assert d == "--" + rest;
      if i >= 2 {
        DoubleHasNoLoneHyphen(s[1..], i - 2);
      }
    } else {
      assert d == [s[0]] + rest;
      if i >= 1 {
        DoubleHasNoLoneHyphen(s[1..], i - 1);
      }
    }
  }

  /** In an encoded name the separator is the only hyphen that can stand alone, and it does
      exactly when neither name has a hyphen next to it. */
  lemma LoneInEncoded(vg: string, lv: string, i: nat)
    requires i < |Encode(vg, lv)|
    ensures LoneHyphen(Encode(vg, lv), i) <==> i == |Double(vg)| && Separable(vg, lv)
  {
    var a, b, e := Double(vg), Double(lv), Encode(vg, lv);
    if vg != [] { DoubleEnds(vg); }
    if lv != [] { DoubleEnds(lv); }
    if i < |a| {
      DoubleHasNoLoneHyphen(vg, i);
      assert e[i] == a[i] && (i > 0 ==> e[i - 1] == a[i - 1]) && (i + 1 < |a| ==> e[i + 1] == a[i + 1]);
    } else if i > |a| {
      var j := i - |a| - 1;
      DoubleHasNoLoneHyphen(lv, j);
      assert e[i] == b[j] && (j > 0 ==> e[i - 1] == b[j - 1]) && (j + 1 < |b| ==> e[i + 1] == b[j + 1]);
    }
  }

  lemma {:induction false} DoubleGrows(s: string)
    ensures |Double(s)| >= |s| && ('-' in s ==> |Double(s)| > |s|)
  {
    if s != [] {
      DoubleGrows(s[1..]);
    }
  }

  /** Decoding inverts encoding for exactly the separable pairs of names: not when the VG name
      ends in a hyphen, nor when the LV name starts with one. */
  lemma DecodeEncode(vg: string, lv: string)
    ensures DmLvName(Encode(vg, lv)) == vg + "/" + lv <==> Separable(vg, lv)
  {
    var a, e := Double(vg), Encode(vg, lv);
    var i := SplitPoint(e, 0);
    LoneInEncoded(vg, lv, |a|);
    if Separable(vg, lv) {
      if i < |e| {
        LoneInEncoded(vg, lv, i);
      }
      assert e[..i] == a && e[i + 1..] == Double(lv);
      UndoubleDouble(vg);
      UndoubleDouble(lv);
    } else {
      if i < |e| {
        LoneInEncoded(vg, lv, i);
      }
      DoubleGrows(vg);
      DoubleGrows(lv);
      assert |e| > |vg + "/" + lv|;
    }
  }

  /** Distinct pairs of separable names decode to distinct LVs when VG names have no slash. */
  lemma DecodedNamesDistinct(vg: string, lv: string, vg': string, lv': string)
    requires Separable(vg, lv) && Separable(vg', lv')
    requires '/' !in vg && '/' !in vg'
    requires DmLvName(Encode(vg, lv)) == DmLvName(Encode(vg', lv'))
    ensures vg == vg' && lv == lv'
  {
    DecodeEncode(vg, lv);
    DecodeEncode(vg', lv');
    var s := vg + "/" + lv;
    assert s == vg' + "/" + lv';
    assert s[|vg|] == '/' && s[|vg'|] == '/';
    assert forall i :: 0 <= i < |vg| ==> s[i] == vg[i];
    assert forall i :: 0 <= i < |vg'| ==> s[i] == vg'[i];
    assert vg == s[..|vg|] && vg' == s[..|vg'|];
    assert lv == s[|vg| + 1..] && lv' == s[|vg'| + 1..];
  }

  lemma UndoublePlain(c: char, s: string)
    requires c != '-'
    ensures Undouble([c] + s) == [c] + Undouble(s)
  {
    assert ([c] + s)[1..] == s;
  }

  lemma UndoublePair(s: string)
    ensures Undouble("--" + s) == "-" + Undouble(s)
  {
    assert ("--" + s)[2..] == s;
  }

  lemma PairFront(d: string, t: string, s: string, u: string)
    requires Undouble(d + t) == s + u
    ensures Undouble("--" + d + t) == "-" + s + u
  {
    assert "--" + d + t == "--" + (d + t);
    UndoublePair(d + t);
    assert "-" + (s + u) == "-" + s + u;
  }

  lemma PlainFront(c: char, d: string, t: string, s: string, u: string)
    requires c != '-' && Undouble(d + t) == s + u
    ensures Undouble([c] + d + t) == [c] + s + u
  {
    assert [c] + d + t == [c] + (d + t);
    UndoublePlain(c, d + t);
    assert [c] + (s + u) == [c] + s + u;
  }

  lemma {:induction false} UndoubleFront(s: string, t: string)
    ensures Undouble(Double(s) + t) == s + Undouble(t)
  {
    if s == [] {
      assert Double(s) + t == t;
    } else {
      UndoubleFront(s[1..], t);
      if s[0] == '-' {
        PairFront(Double(s[1..]), t, s[1..], Undouble(t));
      } else {
        PlainFront(s[0], Double(s[1..]), t, s[1..], Undouble(t));
      }
      assert s == [s[0]] + s[1..];
    }
  }

  lemma UndoubleHyphen(s: string)
    requires s == "" || s[0] != '-'
    ensures Undouble("-" + Double(s)) == "-" + s
  {
    UndoubleDouble(s);
    if s != "" {
      DoubleEnds(s);
    }
    assert ("-" + Double(s))[1..] == Double(s);
  }

  /** The first lone hyphen is the separator, whatever follows. */
  lemma SeparatorFirst(vg: string, lv: string, tail: string)
    requires Separable(vg, lv) && lv != ""
    ensures SplitPoint(Encode(vg, lv) + tail, 0) == |Double(vg)|
  {
    var e, l, n := Encode(vg, lv), Encode(vg, lv) + tail, |Double(vg)|;
    DoubleEnds(lv);
    forall i: nat | i <= n
      ensures LoneHyphen(l, i) <==> i == n
    {
      LoneInEncoded(vg, lv, i);
      assert l[i] == e[i] && l[i + 1] == e[i + 1] && (i > 0 ==> l[i - 1] == e[i - 1]);
    }
    var i := SplitPoint(l, 0);
    assert LoneHyphen(l, n);
  }

  lemma DecodedAt(dm: string, a: string, b: string)
    requires dm == a + "-" + b && SplitPoint(dm, 0) == |a|
    ensures DmLvName(dm) == Undouble(a) + "/" + Undouble(b)
  {
    assert dm[..|a|] == a && dm[|a| + 1..] == b;
  }

  /** The name of a device below an LV, such as a pool's `-tpool`, is that of the LV with the layer's name as it is. */
  lemma LayerKept(vg: string, lv: string, layer: string)
    requires Separable(vg, lv) && lv != "" && (layer == "" || layer[0] != '-')
    ensures DmLvName(Encode(vg, lv) + ("-" + Double(layer))) == vg + "/" + (lv + ("-" + layer))
  {
    var tail := "-" + Double(layer);
    SeparatorFirst(vg, lv, tail);
    UndoubleDouble(vg);
    UndoubleFront(lv, tail);
    UndoubleHyphen(layer);
    Regroup(Double(vg) + "-", Double(lv), tail);
    DecodedAt(Encode(vg, lv) + tail, Double(vg), Double(lv) + tail);
  }

  lemma Regroup(a: string, b: string, c: string)
    ensures (a + b) + c == a + (b + c)
  {
  }

  /** A name without a lone hyphen is no LV's and stays as it is. */
  lemma WithoutSeparator(dm: string)
    requires forall i: nat :: i < |dm| ==> !LoneHyphen(dm, i)
    ensures DmLvName(dm) == dm
  {
  }
}
