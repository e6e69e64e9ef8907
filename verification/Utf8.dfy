/**
 UTF-8 as sections 3 and 4 of RFC 3629 define it, on byte strings, and the repair of malformed
 input by the Go library's `bytes.ToValidUTF8`.
 */
module Utf8 {
  type byte = x: int | 0 <= x < 256

  predicate IsTail(b: byte) {
    0x80 <= b <= 0xBF
  }

  /** `utf8.RuneStart`. */
  predicate RuneStart(b: byte) {
    !IsTail(b)
  }

  /** The number of bytes of the well-formed character at the front of `s`, or zero. */
  function CharWidth(s: seq<byte>): (w: nat)
    ensures w <= 4 && w <= |s|
  {
    if s == [] then 0
    else if s[0] <= 0x7F then 1
    else if |s| < 2 then 0
    else if 0xC2 <= s[0] <= 0xDF && IsTail(s[1]) then 2
    else if |s| < 3 || !IsTail(s[2]) then 0
    else if (s[0] == 0xE0 && 0xA0 <= s[1] <= 0xBF) || (0xE1 <= s[0] <= 0xEC && IsTail(s[1]))
         || (s[0] == 0xED && 0x80 <= s[1] <= 0x9F) || (0xEE <= s[0] <= 0xEF && IsTail(s[1])) then 3
    else if |s| < 4 || !IsTail(s[3]) then 0
    else if (s[0] == 0xF0 && 0x90 <= s[1] <= 0xBF) || (0xF1 <= s[0] <= 0xF3 && IsTail(s[1]))
         || (s[0] == 0xF4 && 0x80 <= s[1] <= 0x8F) then 4
    else 0
  }

  // ---------------------------------------------------------------------------------------
  // The characters are the encoded scalar values, section 3 of RFC 3629.

  predicate Scalar(n: int) {
    0 <= n < 0xD800 || 0xE000 <= n < 0x11_0000
  }

  function Tail(n: nat): byte {
    0x80 + n % 64
  }

  function Encoded(n: nat): seq<byte>
    requires Scalar(n)
  {
    if n < 0x80 then [n]
    else if n < 0x800 then [0xC0 + n / 64, Tail(n)]
    else if n < 0x1_0000 then [0xE0 + n / 64 / 64, Tail(n / 64), Tail(n)]
    else [0xF0 + n / 64 / 64 / 64, Tail(n / 64 / 64), Tail(n / 64), Tail(n)]
  }

  /** A scalar value from the parts that its bytes carry. */
  lemma Parts(lead: nat, tail: byte)
    requires IsTail(tail)
    ensures var n: nat := lead * 64 + (tail - 0x80); n / 64 == lead && Tail(n) == tail
  {
  }

  /** Text begins with a well-formed character exactly when it begins with the encoding of a scalar value. */
  lemma CharsExactly(s: seq<byte>)
    ensures CharWidth(s) > 0 <==> exists n: nat :: Scalar(n) && Encoded(n) <= s
    ensures forall n: nat | Scalar(n) && Encoded(n) <= s :: CharWidth(s) == |Encoded(n)|
  {
    if CharWidth(s) > 0 {
      var n := DecodedChar(s);
    }
    forall n: nat | Scalar(n) && Encoded(n) <= s ensures CharWidth(s) == |Encoded(n)| {
      EncodedWidth(n, s);
    }
  }

  lemma EncodedWidth(n: nat, s: seq<byte>)
    requires Scalar(n) && Encoded(n) <= s
    ensures CharWidth(s) == |Encoded(n)|
  {
    var e := Encoded(n);
    assert s[..|e|] == e;
    assert forall i | 0 <= i < |e| :: s[i] == e[i];
  }

  lemma DecodedChar(s: seq<byte>) returns (n: nat)
    requires CharWidth(s) > 0
    ensures Scalar(n) && Encoded(n) <= s
  {
    var w := CharWidth(s);
    n := if w == 1 then s[0] else if w == 2 then s[0] - 0xC0 else if w == 3 then s[0] - 0xE0 else s[0] - 0xF0;
    if w > 1 {
      Parts(n, s[1]);
      n := n * 64 + (s[1] - 0x80);
    }
    if w > 2 {
      Parts(n, s[2]);
      n := n * 64 + (s[2] - 0x80);
    }
    if w > 3 {
      Parts(n, s[3]);
      n := n * 64 + (s[3] - 0x80);
    }
    assert Encoded(n) == s[..w];
  }

  predicate ValidUtf8(s: seq<byte>) {
    s == [] || (CharWidth(s) > 0 && ValidUtf8(s[CharWidth(s)..]))
  }

  /** The encoding of U+FFFD. */
  const REPLACEMENT: seq<byte> := [0xEF, 0xBF, 0xBD]

  /** Every maximal run of bytes outside well-formed characters becomes one replacement character;
      `inRun` says that the byte before `s` was such a byte. */
  function Repair(s: seq<byte>, inRun: bool): seq<byte>
    decreases |s|
  {
    var w := CharWidth(s);
    if s == [] then []
    else if w > 0 then s[..w] + Repair(s[w..], false)
    else (if inRun then [] else REPLACEMENT) + Repair(s[1..], true)
  }

  function ToValidUtf8(s: seq<byte>): seq<byte> {
    Repair(s, false)
  }

  lemma PrependChar(s: seq<byte>, t: seq<byte>)
    requires CharWidth(s) > 0 && ValidUtf8(t)
    ensures ValidUtf8(s[..CharWidth(s)] + t)
  {
  }

  lemma {:induction false} RepairIsValid(s: seq<byte>, inRun: bool)
    ensures ValidUtf8(Repair(s, inRun))
    decreases |s|
  {
    var w := CharWidth(s);
    if s == [] {
    } else if w > 0 {
      RepairIsValid(s[w..], false);
      PrependChar(s, Repair(s[w..], false));
    } else {
      RepairIsValid(s[1..], true);
      assert [] + Repair(s[1..], true) == Repair(s[1..], true);
      if !inRun {
        assert REPLACEMENT[..3] == REPLACEMENT;
        PrependChar(REPLACEMENT, Repair(s[1..], true));
      }
    }
  }

  /** Well-formed input is left alone. */
  lemma {:induction false} RepairKeepsValid(s: seq<byte>)
    requires ValidUtf8(s)
    ensures Repair(s, false) == s
    decreases |s|
  {
    if s != [] {
      RepairKeepsValid(s[CharWidth(s)..]);
      assert s == s[..CharWidth(s)] + s[CharWidth(s)..];
    }
  }

  /** What repairing means: well-formed text stays, and a run of bytes none of which begins a well-formed
      character becomes one replacement character. */
  lemma RepairOfRun(a: seq<byte>, b: seq<byte>, c: seq<byte>)
    requires ValidUtf8(a) && b != [] && (c == [] || CharWidth(c) > 0)
    requires forall i | 0 <= i < |b| :: CharWidth((b + c)[i..]) == 0
    ensures ToValidUtf8(a + b + c) == a + REPLACEMENT + ToValidUtf8(c)
  {
    RepairPrefix(a, b + c);
    assert a + b + c == a + (b + c);
    RunGoesOn(b, c);
    RepairRest(b[1..], c);
    hide CharWidth, ValidUtf8;
    assert Repair(b + c, false) == REPLACEMENT + Repair(c, false);
    hide *;
    Regroup(a, REPLACEMENT, Repair(c, false));
  }

  lemma WidthOfFront(a: seq<byte>, s: seq<byte>)
    requires CharWidth(a) > 0
    ensures CharWidth(a + s) == CharWidth(a)
  {
    assert a <= a + s;
  }

  lemma Regroup(a: seq<byte>, b: seq<byte>, c: seq<byte>)
    ensures a + (b + c) == a + b + c
  {
  }

  lemma CutFront(a: seq<byte>, s: seq<byte>, w: nat)
    requires 0 < w <= |a|
    ensures a + s != [] && (a + s)[..w] == a[..w] && (a + s)[w..] == a[w..] + s
    ensures a[..w] + (a[w..] + s) == a + s
  {
  }

  lemma RunGoesOn(b: seq<byte>, c: seq<byte>)
    requires b != [] && forall i | 0 <= i < |b| :: CharWidth((b + c)[i..]) == 0
    ensures CharWidth(b + c) == 0 && (b + c)[1..] == b[1..] + c
    ensures forall i | 0 <= i < |b[1..]| :: CharWidth((b[1..] + c)[i..]) == 0
  {
    hide CharWidth;
    assert (b + c)[0..] == b + c && (b + c)[1..] == b[1..] + c;
    forall i | 0 <= i < |b[1..]| ensures CharWidth((b[1..] + c)[i..]) == 0 {
      assert (b[1..] + c)[i..] == (b + c)[i + 1..];
    }
  }

  lemma {:induction false} RepairPrefix(a: seq<byte>, s: seq<byte>)
    requires ValidUtf8(a)
    ensures Repair(a + s, false) == a + Repair(s, false)
    decreases |a|
  {
    if a == [] {
      assert a + s == s;
    } else {
      var w := CharWidth(a);
      WidthOfFront(a, s);
      RepairPrefix(a[w..], s);
      hide CharWidth, ValidUtf8;
      CutFront(a, s, w);
      CutFront(a, Repair(s, false), w);
    }
  }

  /** The rest of a run disappears. */
  lemma {:induction false} RepairRest(b: seq<byte>, c: seq<byte>)
    requires c == [] || CharWidth(c) > 0
    requires forall i | 0 <= i < |b| :: CharWidth((b + c)[i..]) == 0
    ensures Repair(b + c, true) == Repair(c, false)
    decreases |b|
  {
    if b == [] {
      assert b + c == c;
    } else {
      RunGoesOn(b, c);
      RepairRest(b[1..], c);
      hide CharWidth;
      assert [] + Repair(c, false) == Repair(c, false);
    }
  }

  lemma CharShape(s: seq<byte>, i: nat)
    requires i < CharWidth(s)
    ensures RuneStart(s[i]) <==> i == 0
  {
  }

  /** In well-formed text the places where a character may begin are seen from one byte. */
  lemma {:induction false} SuffixAtBoundary(s: seq<byte>, p: nat)
    requires ValidUtf8(s) && p <= |s|
    ensures ValidUtf8(s[p..]) <==> p == |s| || RuneStart(s[p])
    decreases |s|
  {
    if p == 0 {
      assert s[0..] == s;
      if s != [] { CharShape(s, 0); }
    } else {
      var w := CharWidth(s);
      if p < w {
        CharShape(s, p);
        assert s[p..][0] == s[p];
      } else {
        SuffixAtBoundary(s[w..], p - w);
        assert s[w..][p - w..] == s[p..];
      }
    }
  }

  /** A character begins, or the text ends, within any four consecutive places. */
  lemma {:induction false} BoundaryNearby(s: seq<byte>, p: nat) returns (q: nat)
    requires ValidUtf8(s) && p <= |s|
    ensures p <= q <= p + 3 && q <= |s| && (q == |s| || RuneStart(s[q]))
    decreases |s|
  {
    if p == 0 {
      q := 0;
      if s != [] { CharShape(s, 0); }
    } else {
      var w := CharWidth(s);
      if p <= w {
        q := w;
        if w < |s| { CharShape(s[w..], 0); }
      } else {
        q := BoundaryNearby(s[w..], p - w);
        q := q + w;
      }
    }
  }
}
