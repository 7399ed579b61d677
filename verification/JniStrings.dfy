/** UTF-32 to UTF-16 and back (jnipp.cpp), against the encoding of RFC 2781, for a 32-bit wchar_t. */
module JniStrings {
  import opened Wrappers

  type WChar = x: int | -0x8000_0000 <= x < 0x8000_0000
  type JChar = x: int | 0 <= x < 0x1_0000

  /** The truncating conversion to jchar. */
  function ToJChar(x: int): JChar { x % 0x1_0000 }

  predicate Supplementary(ch: int) { 0x1_0000 <= ch <= 0x10_FFFF }

  predicate Scalar(ch: int) { 0 <= ch < 0xD800 || 0xE000 <= ch <= 0x10_FFFF }

  predicate High(u: int) { 0xD800 <= u <= 0xDBFF }

  predicate Low(u: int) { 0xDC00 <= u <= 0xDFFF }

  // ---------- The encoder ----------

  function Units(ch: WChar): seq<JChar> {
    if ch > 0xFFFF then
      var rest := ch - 0x1_0000;
      [ToJChar(0xD800 + rest / 0x400), ToJChar(0xDC00 + rest % 0x400)]
    else
      [ToJChar(ch)]
  }

  function Encoded(str: seq<WChar>): seq<JChar> {
    if str == [] then [] else Encoded(str[..|str| - 1]) + Units(str[|str| - 1])
  }

  method ToJString(str: seq<WChar>) returns (result: seq<JChar>)
    ensures result == Encoded(str)
  {
    result := [];
    for i := 0 to |str|
      invariant result == Encoded(str[..i])
    {
      assert str[..i + 1][..i] == str[..i];
      ghost var before := result;
      var ch: int := str[i];
      if ch > 0xFFFF {
        ch := ch - 0x1_0000;
        result := result + [ToJChar(0xD800 + ch / 0x400)];
        ch := 0xDC00 + ch % 0x400;
      }
      result := result + [ToJChar(ch)];
      assert result == before + Units(str[i]);
    }
    assert str[..|str|] == str;
  }

  lemma EncodedLast(front: seq<WChar>, ch: WChar)
    ensures Encoded(front + [ch]) == Encoded(front) + Units(ch)
  {
    assert (front + [ch])[..|front|] == front;
  }

  lemma {:induction false} EncodedCons(ch: WChar, rest: seq<WChar>)
    ensures Encoded([ch] + rest) == Units(ch) + Encoded(rest)
    decreases |rest|
  {
    hide Units;
    if rest == [] {
      EncodedLast([], ch);
      assert [] + [ch] == [ch] + rest;
    } else {
      hide Encoded;
      var front, last := rest[..|rest| - 1], rest[|rest| - 1];
      assert rest == front + [last] && [ch] + rest == ([ch] + front) + [last];
      EncodedCons(ch, front);
      EncodedLast(front, last);
      EncodedLast([ch] + front, last);
    }
  }

  // ---------- Section 2.2 of RFC 2781 ----------

  /** The decoder of the standard; None for a sequence that is in error. */
  function Decoded(units: seq<JChar>): Option<seq<int>> {
    if units == [] then Some([])
    else
      var w1: int := units[0];
      if w1 < 0xD800 || w1 > 0xDFFF then Prepended(w1, Decoded(units[1..]))
      else if !High(w1) || |units| < 2 || !Low(units[1]) then None
      else Prepended(Pair(w1, units[1]), Decoded(units[2..]))
  }

  /** The ten low bits of each unit, and 0x10000. */
  function Pair(w1: int, w2: int): int { (w1 % 0x400) * 0x400 + w2 % 0x400 + 0x1_0000 }

  function Prepended(ch: int, rest: Option<seq<int>>): Option<seq<int>> {
    match rest
    case None => None
    case Some(s) => Some([ch] + s)
  }

  lemma PairOfUnits(ch: int)
    requires Supplementary(ch)
    ensures var r := ch - 0x1_0000; var w1, w2 := 0xD800 + r / 0x400, 0xDC00 + r % 0x400;
      High(w1) && Low(w2) && ToJChar(w1) == w1 && ToJChar(w2) == w2 && Pair(w1, w2) == ch
  {
    var r := ch - 0x1_0000;
    assert (0xD800 + r / 0x400) % 0x400 == r / 0x400;
    assert (0xDC00 + r % 0x400) % 0x400 == r % 0x400;
  }

  lemma PairIsSupplementary(w1: int, w2: int)
    ensures Supplementary(Pair(w1, w2))
  {}

  lemma UnitsDecode(ch: WChar, rest: seq<JChar>)
    requires Scalar(ch)
    ensures Decoded(Units(ch) + rest) == Prepended(ch, Decoded(rest))
  {
    var all := Units(ch) + rest;
    if ch > 0xFFFF {
      hide Pair, ToJChar;
      PairOfUnits(ch);
      assert all[2..] == rest;
    } else {
      assert all[1..] == rest && all[0] == ch;
    }
  }

  /** One character more: a unit, or above 0xFFFF a high and a low unit that carry ten bits each. */
  lemma EncodedIs(front: seq<WChar>, ch: WChar)
    ensures Encoded([]) == []
    ensures 0 <= ch <= 0xFFFF ==> Encoded(front + [ch]) == Encoded(front) + [ch]
    ensures ch < 0 ==> Encoded(front + [ch]) == Encoded(front) + [ch % 0x1_0000]
    ensures 0x1_0000 <= ch <= 0x10_FFFF ==>
      exists w1: JChar, w2: JChar ::
        && 0xD800 <= w1 <= 0xDBFF && 0xDC00 <= w2 <= 0xDFFF
        && ch == 0x1_0000 + (w1 - 0xD800) * 0x400 + (w2 - 0xDC00)
        && Encoded(front + [ch]) == Encoded(front) + [w1, w2]
  {
    EncodedLast(front, ch);
    if 0x1_0000 <= ch <= 0x10_FFFF {
      PairOfUnits(ch);
      var r := ch - 0x1_0000;
      var w1: JChar, w2: JChar := 0xD800 + r / 0x400, 0xDC00 + r % 0x400;
      hide Encoded, Pair;
      assert Encoded(front + [ch]) == Encoded(front) + [w1, w2];
    }
  }

  /** The decoder recovers every string of Unicode scalar values. */
  lemma {:induction false} DecodesEncoded(str: seq<WChar>)
    requires forall ch | ch in str :: Scalar(ch)
    ensures Decoded(Encoded(str)) == Some(str)
  {
    if str != [] {
      var ch, rest := str[0], str[1..];
      assert str == [ch] + rest;
      DecodesEncoded(rest);
      EncodedCons(ch, rest);
      UnitsDecode(ch, Encoded(rest));
    }
  }

  /** It never produces anything else. */
  lemma {:induction false} DecodedAreScalars(units: seq<JChar>)
    ensures Decoded(units).Some? ==> forall ch | ch in Decoded(units).value :: Scalar(ch)
    decreases |units|
  {
    if units != [] && Decoded(units).Some? {
      var w1: int := units[0];
      if w1 < 0xD800 || w1 > 0xDFFF {
        DecodedAreScalars(units[1..]);
      } else {
        DecodedAreScalars(units[2..]);
        PairIsSupplementary(w1, units[1]);
      }
    }
  }

  /** Exactly which strings the encoder carries over: those of scalar values. */
  lemma RoundTripIff(str: seq<WChar>)
    ensures Decoded(Encoded(str)) == Some(str) <==> forall ch | ch in str :: Scalar(ch)
  {
    if forall ch | ch in str :: Scalar(ch) {
      DecodesEncoded(str);
    }
    DecodedAreScalars(Encoded(str));
  }

  // ---------- The loader's own decoder ----------

  /** What toWString makes of a high unit: it adds that same unit again instead of the low one. */
  function FromHigh(u: int): int { (u - 0xD800) * 0x400 + (u - 0x1_DC00) }

  function Widened(units: seq<JChar>): seq<int> {
    if units == [] then []
    else if High(units[0]) then
      if |units| == 1 then [] else [FromHigh(units[0])] + Widened(units[2..])
    else [units[0]] + Widened(units[1..])
  }

  lemma WidenedAt(str: seq<JChar>, i: nat)
    requires i <= |str|
    ensures Widened(str[i..]) ==
      if i == |str| then []
      else if !High(str[i]) then [str[i]] + Widened(str[i + 1..])
      else if i + 1 == |str| then []
      else [FromHigh(str[i])] + Widened(str[i + 2..])
  {
    if i < |str| {
      assert str[i..][1..] == str[i + 1..];
      if i + 1 < |str| {
        assert str[i..][2..] == str[i + 2..];
      }
    }
  }

  method ToWString(str: seq<JChar>) returns (result: seq<int>)
    ensures result == Widened(str)
  {
    hide Widened;
    result := [];
    var i := 0;
    assert str[0..] == str;
    while i < |str|
      invariant 0 <= i <= |str| && result + Widened(str[i..]) == Widened(str)
    {
      WidenedAt(str, i);
      var ch: int := str[i];
      if 0xD800 <= ch <= 0xDBFF {
        if i + 1 >= |str| {
          break;
        }
        var again: int := str[i];
        ch := (ch - 0xD800) * 0x400;
        ch := ch + (again - 0x1_DC00);
        i := i + 1;
      }
      result := result + [ch];
      i := i + 1;
    }
    WidenedAt(str, |str|);
  }

  lemma WidenedCons(u: JChar, units: seq<JChar>)
    ensures Widened([u] + units) ==
      if !High(u) then [u] + Widened(units) else if units == [] then [] else [FromHigh(u)] + Widened(units[1..])
  {
    var all := [u] + units;
    assert all[1..] == units;
    if units != [] {
      assert all[2..] == units[1..];
    }
  }

  /** A high unit and the unit after it, whatever that is, become one number; at the end a high unit becomes nothing. */
  lemma HighIsMisread(u: JChar, next: JChar, units: seq<JChar>)
    requires 0xD800 <= u <= 0xDBFF
    ensures Widened([u]) == []
    ensures Widened([u, next] + units) == [1025 * (u - 0xD800) - 0x1_0400] + Widened(units)
  {
    assert ([u, next] + units)[2..] == units;
  }

  /** Characters of one unit that is not read as a high one. */
  predicate Plain(ch: int) { 0 <= ch <= 0xFFFF && !High(ch) }

  lemma SameHead(x: int, a: seq<int>, y: int, b: seq<int>)
    ensures [x] + a == [y] + b <==> x == y && a == b
  {
    assert ([x] + a)[1..] == a && ([y] + b)[1..] == b;
    assert ([x] + a)[0] == x && ([y] + b)[0] == y;
  }

  lemma UnitsOf(ch: WChar)
    ensures var units := Units(ch);
      && (ch <= 0xFFFF ==> units == [ToJChar(ch)])
      && (ch > 0xFFFF ==> |units| == 2 && Low(units[1]) && units == [units[0]] + [units[1]])
      && (Supplementary(ch) ==> High(units[0]))
      && (Plain(ch) ==> units == [ch])
  {
    if ch > 0xFFFF {
      var rest := ch - 0x1_0000;
      assert 0 <= rest % 0x400 < 0x400;
    }
  }

  /** The first unit of a character that is not plain is read as something else, unless it is the only one. */
  lemma MisreadFirst(ch: WChar)
    requires !Plain(ch)
    ensures var u := Units(ch)[0]; (if High(u) then FromHigh(u) else u) == ch ==> ch <= 0xFFFF && High(u)
  {
    if ch > 0xFFFF {
      var q := (ch - 0x1_0000) / 0x400;
      var u := Units(ch)[0];
      assert u == (0xD800 + q) % 0x1_0000;
      assert ch >= 0x1_0000 + 0x400 * q;
      if High(u) {
        assert q >= u - 0xD800;
      }
    }
  }

  lemma {:induction false} OutputsBounded(units: seq<JChar>, x: int)
    requires x in Widened(units)
    ensures x <= 0x10_FFFF
    decreases |units|
  {
    if High(units[0]) {
      assert FromHigh(units[0]) <= 0x10_FFFF;
      if x != FromHigh(units[0]) {
        OutputsBounded(units[2..], x);
      }
    } else if x != units[0] {
      OutputsBounded(units[1..], x);
    }
  }

  /** Below 0x110000 no character gives more than one. */
  lemma {:induction false} NotLonger(str: seq<WChar>)
    requires forall ch | ch in str :: ch <= 0x10_FFFF
    ensures |Widened(Encoded(str))| <= |str|
    decreases |str|
  {
    hide Widened, Encoded, Units, FromHigh, High, Low, ToJChar;
    EncodedNone();
    if str != [] {
      var ch, rest := str[0], str[1..];
      assert str == [ch] + rest;
      EncodedCons(ch, rest);
      UnitsOf(ch);
      assert forall x | x in rest :: x in str;
      NotLonger(rest);
      WidenedCons(Units(ch)[0], Encoded(rest));
      if ch > 0xFFFF {
        assert ch in str;
        WidenedPair(Units(ch)[0], Units(ch)[1], Encoded(rest));
      } else if rest != [] {
        var next, more := rest[0], rest[1..];
        assert rest == [next] + more;
        assert forall x | x in more :: x in str;
        EncodedCons(next, more);
        UnitsOf(next);
        NotLonger(more);
        SecondOf(Units(next), Encoded(more));
        if next > 0xFFFF {
          LowIsNotHigh(Units(next)[1]);
          WidenedCons(Units(next)[1], Encoded(more));
        }
      }
    }
  }

  lemma EncodedNone()
    ensures Encoded([]) == [] && Widened([]) == []
  {}

  lemma LowIsNotHigh(u: int)
    requires Low(u)
    ensures !High(u)
  {}

  lemma WidenedPair(high: JChar, low: JChar, units: seq<JChar>)
    requires High(high)
    ensures Widened([high] + [low] + units) == [FromHigh(high)] + Widened(units)
  {
    hide Widened;
    WidenedCons(high, [low] + units);
    assert [high] + [low] + units == [high] + ([low] + units) && ([low] + units)[1..] == units;
  }

  lemma SecondOf(first: seq<JChar>, units: seq<JChar>)
    requires 1 <= |first| <= 2
    ensures first + units != [] && (first + units)[1..] == if |first| == 1 then units else [first[1]] + units
  {}

  /** Where the only unit of a character is read as that character, the next unit is lost with it. */
  lemma NextIsLost(ch: WChar, rest: seq<WChar>)
    requires ch <= 0xFFFF && High(ToJChar(ch))
    ensures Widened(Encoded([ch] + rest)) != [ch] + rest
  {
    hide Widened, Encoded, Units, FromHigh, High, Low, ToJChar;
    EncodedNone();
    EncodedCons(ch, rest);
    UnitsOf(ch);
    WidenedCons(ToJChar(ch), Encoded(rest));
    if rest != [] {
      var next, more := rest[0], rest[1..];
      assert rest == [next] + more;
      EncodedCons(next, more);
      UnitsOf(next);
      SecondOf(Units(next), Encoded(more));
      var left := Widened(Encoded(rest)[1..]);
      SameHead(FromHigh(ToJChar(ch)), left, ch, rest);
      if next > 0xFFFF {
        LowIsNotHigh(Units(next)[1]);
        WidenedCons(Units(next)[1], Encoded(more));
        SameHead(Units(next)[1], Widened(Encoded(more)), next, more);
      } else if left == rest {
        forall x | x in more ensures x <= 0x10_FFFF {
          assert x in left;
          OutputsBounded(Encoded(more), x);
        }
        NotLonger(more);
        assert false;
      }
    }
  }

  /** Exactly when it undoes the encoder, for every string: when each character is a single unit and not a high one. */
  lemma {:induction false} WidenedIff(str: seq<WChar>)
    ensures Widened(Encoded(str)) == str <==> forall ch | ch in str :: Plain(ch)
  {
    hide Widened, Encoded, Units, FromHigh, High, ToJChar;
    EncodedNone();
    if str != [] {
      var ch, rest := str[0], str[1..];
      assert str == [ch] + rest;
      assert forall x :: x in str <==> x == ch || x in rest;
      EncodedCons(ch, rest);
      UnitsOf(ch);
      if Plain(ch) {
        WidenedIff(rest);
        WidenedCons(ch, Encoded(rest));
        SameHead(ch, Widened(Encoded(rest)), ch, rest);
      } else {
        Misread(ch, rest);
      }
    }
  }

  lemma Misread(ch: WChar, rest: seq<WChar>)
    requires !Plain(ch)
    ensures Widened(Encoded([ch] + rest)) != [ch] + rest
  {
    hide Widened, Encoded, Units, FromHigh, High, Low, ToJChar, Plain;
    EncodedCons(ch, rest);
    UnitsOf(ch);
    MisreadFirst(ch);
    var u := Units(ch)[0];
    var more := if ch <= 0xFFFF then Encoded(rest) else [Units(ch)[1]] + Encoded(rest);
    assert Encoded([ch] + rest) == [u] + more;
    WidenedCons(u, more);
    if ch <= 0xFFFF && High(u) {
      NextIsLost(ch, rest);
    } else if High(u) {
      SameHead(FromHigh(u), Widened(more[1..]), ch, rest);
    } else {
      SameHead(u, Widened(more), ch, rest);
    }
  }

  /** The first supplementary character comes back as a negative number. */
  lemma SupplementaryIsLost()
    ensures Widened(Encoded([0x1_0000])) == [-0x1_0400]
  {
    EncodedCons(0x1_0000, []);
    assert [0x1_0000] + [] == [0x1_0000];
    var units := Units(0x1_0000);
    assert units + [] == units && units == [0xD800, 0xDC00];
    assert units[2..] == [];
  }
}
