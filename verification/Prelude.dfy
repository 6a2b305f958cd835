/** Small types and string operations shared by the models. */
module Prelude {

  datatype Option<+T> = None | Some(value: T) {
    function GetOr(default: T): T {
      match this
      case Some(v) => v
      case None => default
    }
  }

  datatype Result<+T, +E> = Ok(value: T) | Err(error: E)

  /** Instants and durations are integers counting nanoseconds. */
  type Time = int

  const SECOND: int := 1_000_000_000
  const HOUR: int := 3600 * SECOND
  const DAY: int := 24 * HOUR

  function Min(a: int, b: int): int {
    if a <= b then a else b
  }

  function Max(a: int, b: int): int {
    if a >= b then a else b
  }

  predicate EndsWith(s: string, suffix: string) {
    |suffix| <= |s| && s[|s| - |suffix|..] == suffix
  }

  predicate Contains(s: string, part: string) {
    exists i: nat :: i + |part| <= |s| && part <= s[i..]
  }

  function DropEnd(s: string, n: nat): string
    requires n <= |s|
  {
    s[..|s| - n]
  }

  /** `s` without its trailing copies of `c`. */
  function TrimEnd(s: string, c: char): (r: string)
    ensures r <= s
    ensures r == "" || r[|r| - 1] != c
    ensures forall i :: |r| <= i < |s| ==> s[i] == c
  {
    if s != [] && s[|s| - 1] == c then TrimEnd(s[..|s| - 1], c) else s
  }

  /** The pieces of `s` between the occurrences of `c`; never empty. */
  function Split(s: string, c: char): (parts: seq<string>)
    ensures |parts| >= 1
  {
    if s == [] then [[]]
    else
      var rest := Split(s[1..], c);
      if s[0] == c then [[]] + rest else [[s[0]] + rest[0]] + rest[1..]
  }

  /** The parts of `s` around its last `c`, if there is one. */
  function RSplitOnce(s: string, c: char): Option<(string, string)> {
    if s == [] then None
    else if s[|s| - 1] == c then Some((s[..|s| - 1], []))
    else
      match RSplitOnce(s[..|s| - 1], c)
      case None => None
      case Some((a, b)) => Some((a, b + [s[|s| - 1]]))
  }

  predicate IsSpace(c: char) { c == ' ' || '\t' <= c <= '\r' }

  predicate Blank(s: string) {
    forall i :: 0 <= i < |s| ==> IsSpace(s[i])
  }

  function TrimSpaces(s: string): string {
    if s != [] && IsSpace(s[0]) then TrimSpaces(s[1..])
    else if s != [] && IsSpace(s[|s| - 1]) then TrimSpaces(s[..|s| - 1])
    else s
  }

  lemma {:induction false} TrimSpacesIs(before: string, text: string, after: string)
    requires Blank(before) && Blank(after)
    requires text != "" && !IsSpace(text[0]) && !IsSpace(text[|text| - 1])
    ensures TrimSpaces(before + text + after) == text
    decreases |before| + |after|
  {
    var s := before + text + after;
    if before != "" {
      assert s[0] == before[0] && s[1..] == before[1..] + text + after;
      TrimSpacesIs(before[1..], text, after);
    } else if after != "" {
      assert s[0] == text[0] && s[|s| - 1] == after[|after| - 1];
      assert s[..|s| - 1] == before + text + after[..|after| - 1];
      TrimSpacesIs(before, text, after[..|after| - 1]);
    } else {
      assert s == text;
    }
  }

  lemma {:induction false} TrimBlank(s: string)
    requires Blank(s)
    ensures TrimSpaces(s) == ""
  {
    if s != "" { TrimBlank(s[1..]); }
  }

  predicate IsDigit(c: char) { '0' <= c <= '9' }

  predicate IsAlphanumeric(c: char) {
    IsDigit(c) || 'a' <= c <= 'z' || 'A' <= c <= 'Z'
  }

  /** Every character of `s` is alphanumeric or one of `extra`. */
  predicate AllAlphanumericOr(s: string, extra: string) {
    forall i :: 0 <= i < |s| ==> IsAlphanumeric(s[i]) || s[i] in extra
  }

  predicate AllDigits(s: string) {
    forall i :: 0 <= i < |s| ==> IsDigit(s[i])
  }

  function DecimalValue(s: string): nat
    requires AllDigits(s)
  {
    if s == [] then 0
    else
      var last := s[|s| - 1];
      assert IsDigit(last);
      10 * DecimalValue(s[..|s| - 1]) + (last as int - '0' as int)
  }

  lemma {:induction false} SplitAppend(a: string, b: string, c: char)
    ensures Split(a + [c] + b, c) == Split(a, c) + Split(b, c)
  {
    if a == [] {
      assert [] + [c] + b == [c] + b;
      assert ([c] + b)[1..] == b;
    } else {
      assert (a + [c] + b)[1..] == a[1..] + [c] + b;
      SplitAppend(a[1..], b, c);
    }
  }

  /** The parts of `s` around its first `c`, if there is one. */
  function SplitOnce(s: string, c: char): (r: Option<(string, string)>)
    ensures r.Some? ==> s == r.value.0 + [c] + r.value.1 && c !in r.value.0
    ensures r.None? ==> c !in s
  {
    if s == [] then None
    else if s[0] == c then Some(([], s[1..]))
    else
      match SplitOnce(s[1..], c)
      case None => None
      case Some((a, b)) => Some(([s[0]] + a, b))
  }

  lemma {:induction false} SplitOnceAppend(a: string, b: string, c: char)
    requires c !in a
    ensures SplitOnce(a + [c] + b, c) == Some((a, b))
  {
    if a == [] {
      assert [] + [c] + b == [c] + b;
      assert ([c] + b)[1..] == b;
    } else {
      assert (a + [c] + b)[1..] == a[1..] + [c] + b;
      SplitOnceAppend(a[1..], b, c);
      assert [a[0]] + a[1..] == a;
    }
  }

  lemma {:induction false} RSplitOnceMeaning(s: string, c: char)
    ensures match RSplitOnce(s, c)
            case None => c !in s
            case Some((a, b)) => s == a + [c] + b && c !in b
  {
    if s != [] && s[|s| - 1] != c {
      RSplitOnceMeaning(s[..|s| - 1], c);
      assert s == s[..|s| - 1] + [s[|s| - 1]];
    }
  }

  lemma {:induction false} RSplitOnceAppend(a: string, b: string, c: char)
    requires c !in b
    ensures RSplitOnce(a + [c] + b, c) == Some((a, b))
  {
    var s := a + [c] + b;
    if b == [] {
      assert s[..|s| - 1] == a;
    } else {
      assert s[..|s| - 1] == a + [c] + b[..|b| - 1];
      RSplitOnceAppend(a, b[..|b| - 1], c);
      assert b == b[..|b| - 1] + [b[|b| - 1]];
    }
  }

  lemma {:induction false} SplitWithout(s: string, c: char)
    requires c !in s
    ensures Split(s, c) == [s]
  {
    if s != [] {
      SplitWithout(s[1..], c);
      assert [s[0]] + s[1..] == s;
    }
  }

  // ---- A finite set of integers in ascending order ----

  predicate IsLeast(s: set<int>, d: int) {
    d in s && forall e :: e in s ==> d <= e
  }

  lemma Inhabited(s: set<int>)
    ensures s == {} || exists d: int :: d in s
  {
    if forall d: int :: d !in s { assert s == {}; }
  }

  lemma {:induction false} MinExists(s: set<int>)
    requires s != {}
    ensures exists d :: IsLeast(s, d)
  {
    Inhabited(s);
    var d: int :| d in s;
    var rest := s - {d};
    if rest == {} {
      assert s == {d};
      assert IsLeast(s, d);
    } else {
      MinExists(rest);
      var m: int :| IsLeast(rest, m);
      assert forall e :: e in s ==> e == d || e in rest;
      assert IsLeast(s, if d <= m then d else m);
    }
  }

  function Least(s: set<int>): (d: int)
    requires s != {}
    ensures IsLeast(s, d)
  {
    MinExists(s);
    var d: int :| d in s && IsLeast(s, d);
    d
  }

  function Ascending(s: set<int>): (days: seq<int>)
    ensures forall d :: d in days <==> d in s
    ensures forall i, j :: 0 <= i < j < |days| ==> days[i] < days[j]
    decreases |s|
  {
    if s == {} then []
    else
      var d := Least(s);
      [d] + Ascending(s - {d})
  }

  lemma LastIsGreatest(a: seq<int>)
    requires forall i, j :: 0 <= i < j < |a| ==> a[i] < a[j]
    ensures a != [] ==> a[|a| - 1] in a && forall x :: x in a ==> x <= a[|a| - 1]
  {
    forall x | x in a ensures x <= a[|a| - 1] {
      var i :| 0 <= i < |a| && a[i] == x;
    }
  }

  /** Strictly ascending sequences with the same elements are the same. */
  lemma {:induction false} AscendingUnique(a: seq<int>, b: seq<int>)
    requires forall i, j :: 0 <= i < j < |a| ==> a[i] < a[j]
    requires forall i, j :: 0 <= i < j < |b| ==> b[i] < b[j]
    requires forall x :: x in a <==> x in b
    ensures a == b
  {
    LastIsGreatest(a);
    LastIsGreatest(b);
    if a != [] && b != [] {
      var x := a[|a| - 1];
      assert x == b[|b| - 1];
      var a', b' := a[..|a| - 1], b[..|b| - 1];
      assert forall z :: z in a <==> z in a' || z == x;
      assert forall z :: z in b <==> z in b' || z == x;
      AscendingUnique(a', b');
    }
  }

  lemma AscendingAppends(a: seq<int>, d: int)
    requires forall i, j :: 0 <= i < j < |a| ==> a[i] < a[j]
    requires forall x :: x in a ==> x < d
    ensures forall i, j :: 0 <= i < j < |a + [d]| ==> (a + [d])[i] < (a + [d])[j]
    ensures forall x :: x in a + [d] <==> x in a || x == d
  {
    assert forall i :: 0 <= i < |a| ==> a[i] in a;
  }

  // ---- Sizes of sets ----

  lemma {:induction false} SubsetSize<T>(a: set<T>, b: set<T>)
    requires a <= b
    ensures |a| <= |b|
    ensures |a| == |b| ==> a == b
  {
    if a != {} {
      var x :| x in a;
      SubsetSize(a - {x}, b - {x});
    }
  }
}
