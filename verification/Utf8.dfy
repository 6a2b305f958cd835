/** Which byte sequences are text in UTF-8, and where such a text can be cut. A character stands for the
    byte of its code. */
module Utf8 {

  predicate Within(c: char, low: int, high: int) { low <= c as int <= high }

  /** How many bytes a first byte announces; none if it cannot be first. */
  function Width(first: char): nat {
    if Within(first, 0x00, 0x7F) then 1
    else if Within(first, 0xC2, 0xDF) then 2
    else if Within(first, 0xE0, 0xEF) then 3
    else if Within(first, 0xF0, 0xF4) then 4
    else 0
  }

  predicate Continues(c: char) { Within(c, 0x80, 0xBF) }

  /** The second byte a first byte allows: no longer form than needed, no surrogate, nothing too high. */
  predicate Second(first: char, second: char) {
    if Within(first, 0xE0, 0xE0) then Within(second, 0xA0, 0xBF)
    else if Within(first, 0xED, 0xED) then Within(second, 0x80, 0x9F)
    else if Within(first, 0xF0, 0xF0) then Within(second, 0x90, 0xBF)
    else if Within(first, 0xF4, 0xF4) then Within(second, 0x80, 0x8F)
    else Continues(second)
  }

  predicate StartsWell(s: string) {
    && s != [] && 1 <= Width(s[0]) <= |s|
    && (Width(s[0]) > 1 ==> Second(s[0], s[1]))
    && forall i :: 2 <= i < Width(s[0]) ==> Continues(s[i])
  }

  predicate IsText(s: string) {
    s == [] || (StartsWell(s) && IsText(s[Width(s[0])..]))
  }

  /** A cut after `n` bytes falls between two characters. */
  predicate BetweenCharacters(s: string, n: nat) {
    n >= |s| || !Continues(s[n])
  }

  lemma {:induction false} Join(a: string, b: string)
    requires IsText(a) && IsText(b)
    ensures IsText(a + b)
  {
    if a == [] {
      assert a + b == b;
    } else {
      var w := Width(a[0]);
      Join(a[w..], b);
      assert (a + b)[w..] == a[w..] + b;
    }
  }

  /** What is left of a text after a text is one. */
  lemma {:induction false} Rest(a: string, b: string)
    requires IsText(a) && IsText(a + b)
    ensures IsText(b)
  {
    if a == [] {
      assert a + b == b;
    } else {
      var w := Width(a[0]);
      assert (a + b)[w..] == a[w..] + b;
      Rest(a[w..], b);
    }
  }

  /** A text parts where no continuation byte stands. */
  lemma {:induction false} Part(a: string, b: string)
    requires IsText(a + b) && (b == [] || !Continues(b[0]))
    ensures IsText(a) && IsText(b)
  {
    if a == [] {
      assert a + b == b;
    } else {
      var s, w := a + b, Width(a[0]);
      assert s[0] == a[0];
      FirstFits(a, b);
      assert s[w..] == a[w..] + b;
      Part(a[w..], b);
      assert forall i :: 0 <= i < |a| ==> s[i] == a[i];
    }
  }

  lemma FirstFits(a: string, b: string)
    requires a != [] && StartsWell(a + b) && (b == [] || !Continues(b[0]))
    ensures Width(a[0]) <= |a|
  {
    var s := a + b;
    if b != [] { assert s[|a|] == b[0]; }
  }

  /** The start of a text is one exactly when the cut falls between two characters. */
  lemma CutIff(s: string, n: nat)
    requires IsText(s) && n <= |s|
    ensures IsText(s[..n]) <==> BetweenCharacters(s, n)
  {
    assert s == s[..n] + s[n..];
    if BetweenCharacters(s, n) {
      Part(s[..n], s[n..]);
    } else if IsText(s[..n]) {
      Rest(s[..n], s[n..]);
    }
  }

  /** In plain ASCII every cut does. */
  lemma AsciiCuts(s: string, n: nat)
    requires forall i :: 0 <= i < |s| ==> s[i] as int < 0x80
    ensures BetweenCharacters(s, n)
  {
  }

  // ---- Text is what characters encode ----

  /** The characters that have a code: all up to the last, surrogates aside. */
  predicate Scalar(c: nat) { c < 0x11_0000 && !(0xD800 <= c < 0xE000) }

  /** The code of a character, six bits in each byte after the first. */
  function Encode(c: nat): (bytes: string)
    requires Scalar(c)
    ensures bytes != ""
  {
    if c < 0x80 then [c as char]
    else if c < 0x800 then [(0xC0 + c / 64) as char, Low(c)]
    else if c < 0x1_0000 then [(0xE0 + c / 4096) as char, Low(c / 64), Low(c)]
    else [(0xF0 + c / 262_144) as char, Low(c / 4096), Low(c / 64), Low(c)]
  }

  /** The byte of the low six bits. */
  function Low(n: nat): char { (0x80 + n % 64) as char }

  function Bits(c: char): nat
    requires Continues(c)
  {
    c as int - 0x80
  }

  /** The character a text starts with. */
  function First(s: string): nat
    requires StartsWell(s)
  {
    var w, a := Width(s[0]), s[0] as int;
    if w == 1 then a
    else
      assert Continues(s[1]);
      if w == 2 then (a - 0xC0) * 64 + Bits(s[1])
      else
        if w == 3 then (a - 0xE0) * 4096 + Bits(s[1]) * 64 + Bits(s[2])
        else (a - 0xF0) * 262_144 + Bits(s[1]) * 4096 + Bits(s[2]) * 64 + Bits(s[3])
  }

  lemma Two(a: nat, b: nat)
    requires 0xC2 <= a <= 0xDF && b < 64
    ensures var c := (a - 0xC0) * 64 + b; 0x80 <= c < 0x800 && c / 64 == a - 0xC0 && c % 64 == b
  {
  }

  lemma Three(a: nat, b: nat, d: nat)
    requires 0xE0 <= a <= 0xEF && b < 64 && d < 64
    requires (a == 0xE0 ==> b >= 0x20) && (a == 0xED ==> b < 0x20)
    ensures
      var c := (a - 0xE0) * 4096 + b * 64 + d;
      && 0x800 <= c < 0x1_0000 && Scalar(c)
      && c / 4096 == a - 0xE0 && c / 64 % 64 == b && c % 64 == d
  {
    var c := (a - 0xE0) * 4096 + b * 64 + d;
    assert c / 64 == (a - 0xE0) * 64 + b;
  }

  lemma Four(a: nat, b: nat, d: nat, e: nat)
    requires 0xF0 <= a <= 0xF4 && b < 64 && d < 64 && e < 64
    requires (a == 0xF0 ==> b >= 0x10) && (a == 0xF4 ==> b < 0x10)
    ensures
      var c := (a - 0xF0) * 262_144 + b * 4096 + d * 64 + e;
      && 0x1_0000 <= c < 0x11_0000
      && c / 262_144 == a - 0xF0 && c / 4096 % 64 == b && c / 64 % 64 == d && c % 64 == e
  {
    var c := (a - 0xF0) * 262_144 + b * 4096 + d * 64 + e;
    assert c / 64 == (a - 0xF0) * 4096 + b * 64 + d;
    assert c / 4096 == (a - 0xF0) * 64 + b;
  }

  lemma FirstDecodes(s: string)
    requires StartsWell(s)
    ensures Scalar(First(s)) && Encode(First(s)) == s[..Width(s[0])]
  {
    var w, a := Width(s[0]), s[0] as int;
    if w == 1 {
      assert s[..1] == [s[0]];
    } else if w == 2 {
      Two(a, Bits(s[1]));
      assert s[..2] == [s[0], s[1]];
    } else if w == 3 {
      Three(a, Bits(s[1]), Bits(s[2]));
      assert s[..3] == [s[0], s[1], s[2]];
    } else {
      Four(a, Bits(s[1]), Bits(s[2]), Bits(s[3]));
      assert s[..4] == [s[0], s[1], s[2], s[3]];
    }
  }

  lemma EncodeStartsWell(c: nat, rest: string)
    requires Scalar(c)
    ensures StartsWell(Encode(c) + rest) && Width(Encode(c)[0]) == |Encode(c)|
  {
    var s := Encode(c) + rest;
    if 0x80 <= c < 0x800 {
      assert 2 <= c / 64 < 32;
    } else if 0x800 <= c < 0x1_0000 {
      SecondOfThree(c);
    } else if c >= 0x1_0000 {
      SecondOfFour(c);
    }
  }

  lemma SecondOfThree(c: nat)
    requires 0x800 <= c < 0x1_0000 && Scalar(c)
    ensures c / 4096 < 16
    ensures c / 4096 == 0 ==> c / 64 % 64 >= 0x20
    ensures c / 4096 == 0xD ==> c / 64 % 64 < 0x20
  {
    assert c / 64 == c / 4096 * 64 + c / 64 % 64;
  }

  lemma SecondOfFour(c: nat)
    requires 0x1_0000 <= c < 0x11_0000
    ensures c / 262_144 <= 4
    ensures c / 262_144 == 0 ==> c / 4096 % 64 >= 0x10
    ensures c / 262_144 == 4 ==> c / 4096 % 64 < 0x10
  {
    assert c / 4096 == c / 262_144 * 64 + c / 4096 % 64;
  }

  function EncodeAll(cs: seq<nat>): string
    requires forall c <- cs :: Scalar(c)
  {
    if cs == [] then "" else Encode(cs[0]) + EncodeAll(cs[1..])
  }

  /** Bytes are a text exactly when they are the codes of some characters, one after the other. */
  lemma {:induction false} TextIff(s: string)
    ensures IsText(s) <==> exists cs: seq<nat> :: (forall c <- cs :: Scalar(c)) && s == EncodeAll(cs)
  {
    if IsText(s) {
      var _ := Decoded(s);
    }
    if cs: seq<nat> :| (forall c <- cs :: Scalar(c)) && s == EncodeAll(cs) {
      EncodedIsText(cs);
    }
  }

  lemma {:induction false} Decoded(s: string) returns (cs: seq<nat>)
    requires IsText(s)
    ensures (forall c <- cs :: Scalar(c)) && s == EncodeAll(cs)
  {
    if s == "" {
      cs := [];
    } else {
      FirstDecodes(s);
      var rest := Decoded(s[Width(s[0])..]);
      cs := [First(s)] + rest;
      assert cs[1..] == rest;
      assert s == s[..Width(s[0])] + s[Width(s[0])..];
    }
  }

  lemma {:induction false} EncodedIsText(cs: seq<nat>)
    requires forall c <- cs :: Scalar(c)
    ensures IsText(EncodeAll(cs))
  {
    if cs != [] {
      EncodedIsText(cs[1..]);
      var code, rest := Encode(cs[0]), EncodeAll(cs[1..]);
      EncodeStartsWell(cs[0], rest);
      assert (code + rest)[|code|..] == rest && (code + rest)[0] == code[0];
    }
  }
}
