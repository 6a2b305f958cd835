/** Canonical JSON: the one form of a value that is signed and hashed. */
module Canon {
  import opened Prelude

  /** A JSON value. Members keep the order in which they are stored; a number is its text. */
  datatype Json =
    | Null
    | Bool(b: bool)
    | Number(text: string)
    | Str(s: string)
    | Array(items: seq<Json>)
    | Object(members: seq<Member>)

  datatype Member = Member(key: string, value: Json)

  /** No object repeats a key, at any depth. */
  predicate WellFormed(v: Json) {
    match v
    case Array(items) => forall i :: 0 <= i < |items| ==> WellFormed(items[i])
    case Object(ms) =>
      && DistinctKeys(ms)
      && forall i :: 0 <= i < |ms| ==> WellFormed(ms[i].value)
    case _ => true
  }

  predicate DistinctKeys(ms: seq<Member>) {
    forall i, j :: 0 <= i < j < |ms| ==> ms[i].key != ms[j].key
  }

  /** Equal up to the order of object members, at every depth. */
  predicate Same(a: Json, b: Json)
    decreases a
  {
    match (a, b)
    case (Array(xs), Array(ys)) =>
      |xs| == |ys| && forall i :: 0 <= i < |xs| ==> Same(xs[i], ys[i])
    case (Object(ms), Object(ns)) =>
      |ms| == |ns| && forall i :: 0 <= i < |ms| ==> HasMember(ms, i, ns)
    case _ => a == b
  }

  predicate HasMember(ms: seq<Member>, i: nat, ns: seq<Member>)
    requires i < |ms|
    decreases ms, 0
  {
    exists j :: 0 <= j < |ns| && SameMember(ms[i], ns[j])
  }

  predicate SameMember(m: Member, n: Member)
    decreases m
  {
    m.key == n.key && Same(m.value, n.value)
  }

  // ---- The order of keys ----

  predicate Less(a: string, b: string) {
    b != [] && (a == [] || a[0] < b[0] || (a[0] == b[0] && Less(a[1..], b[1..])))
  }

  lemma {:induction false} LessTotal(a: string, b: string)
    ensures Less(a, b) || a == b || Less(b, a)
    ensures !(Less(a, b) && Less(b, a)) && !Less(a, a)
  {
    if a != [] && b != [] {
      LessTotal(a[1..], b[1..]);
      if a[0] == b[0] && a[1..] == b[1..] { assert a == [a[0]] + a[1..]; }
    }
    if a != [] { LessTotal(a[1..], a[1..]); }
  }

  lemma {:induction false} LessTransitive(a: string, b: string, c: string)
    requires Less(a, b) && Less(b, c)
    ensures Less(a, c)
  {
    if a != [] && a[0] == b[0] == c[0] { LessTransitive(a[1..], b[1..], c[1..]); }
  }

  // ---- Sorting ----

  function Insert(m: Member, ms: seq<Member>): seq<Member> {
    if ms == [] || Less(m.key, ms[0].key) then [m] + ms
    else [ms[0]] + Insert(m, ms[1..])
  }

  /** The value with the members of every object in the order of their keys. */
  function Sorted(v: Json): Json
    decreases v, 0
  {
    match v
    case Array(items) => Array(SortedItems(items))
    case Object(ms) => Object(SortedMembers(ms))
    case _ => v
  }

  function SortedItems(items: seq<Json>): (r: seq<Json>)
    ensures |r| == |items|
    ensures forall i :: 0 <= i < |items| ==> r[i] == Sorted(items[i])
    decreases items, 1
  {
    seq(|items|, i requires 0 <= i < |items| => Sorted(items[i]))
  }

  function SortedMember(m: Member): Member
    decreases m
  {
    Member(m.key, Sorted(m.value))
  }

  function SortedMembers(ms: seq<Member>): seq<Member>
    decreases ms, 1
  {
    if ms == [] then [] else Insert(SortedMember(ms[0]), SortedMembers(ms[1..]))
  }

  ghost predicate Ordered(ms: seq<Member>) {
    forall i, j :: 0 <= i < j < |ms| ==> Less(ms[i].key, ms[j].key)
  }

  lemma {:induction false} InsertMeaning(m: Member, ms: seq<Member>)
    ensures forall p :: p in Insert(m, ms) <==> p == m || p in ms
    ensures |Insert(m, ms)| == |ms| + 1
    ensures Ordered(ms) && (forall i :: 0 <= i < |ms| ==> ms[i].key != m.key) ==> Ordered(Insert(m, ms))
  {
    if ms == [] {
    } else if Less(m.key, ms[0].key) {
      if Ordered(ms) {
        forall j | 0 < j < |ms| ensures Less(m.key, ms[j].key) { LessTransitive(m.key, ms[0].key, ms[j].key); }
      }
    } else {
      InsertMeaning(m, ms[1..]);
      LessTotal(m.key, ms[0].key);
      var rest := Insert(m, ms[1..]);
      assert ms == [ms[0]] + ms[1..];
      if Ordered(ms) && forall i :: 0 <= i < |ms| ==> ms[i].key != m.key {
        forall j | 0 <= j < |rest| ensures Less(ms[0].key, rest[j].key) {
          assert rest[j] in rest;
          if rest[j] != m { assert rest[j] in ms[1..]; }
        }
      }
    }
  }

  lemma {:induction false} SortedMembersMeaning(ms: seq<Member>)
    requires DistinctKeys(ms)
    ensures |SortedMembers(ms)| == |ms|
    ensures Ordered(SortedMembers(ms))
    ensures forall i :: 0 <= i < |ms| ==> SortedMember(ms[i]) in SortedMembers(ms)
    ensures forall p <- SortedMembers(ms) :: exists i :: 0 <= i < |ms| && p == SortedMember(ms[i])
  {
    if ms != [] {
      var rest := ms[1..];
      SortedMembersMeaning(rest);
      var m := SortedMember(ms[0]);
      var sorted := SortedMembers(rest);
      forall i | 0 <= i < |sorted| ensures sorted[i].key != m.key {
        assert sorted[i] in sorted;
        var k :| 0 <= k < |rest| && sorted[i] == SortedMember(rest[k]);
        assert rest[k] == ms[k + 1];
      }
      InsertMeaning(m, sorted);
      forall i | 0 <= i < |ms| ensures SortedMember(ms[i]) in SortedMembers(ms) {
        if i > 0 { assert rest[i - 1] == ms[i]; }
      }
      forall p | p in SortedMembers(ms)
        ensures exists i :: 0 <= i < |ms| && p == SortedMember(ms[i])
      {
        if p != m {
          var k :| 0 <= k < |rest| && p == SortedMember(rest[k]);
          assert ms[k + 1] == rest[k];
        }
      }
    }
  }

  /** An ordered list of members is determined by its elements. */
  lemma {:induction false} OrderedUnique(a: seq<Member>, b: seq<Member>)
    requires Ordered(a) && Ordered(b) && |a| == |b|
    requires forall p :: p in a <==> p in b
    ensures a == b
  {
    if a != [] {
      assert a[0] in b && b != [];
      assert b[0] in a;
      assert a[0] == b[0] by {
        var i :| 0 <= i < |b| && b[i] == a[0];
        var j :| 0 <= j < |a| && a[j] == b[0];
        LessTotal(a[0].key, b[0].key);
      }
      LessTotal(a[0].key, a[0].key);
      forall p ensures p in a[1..] <==> p in b[1..] {
        assert p in a <==> p == a[0] || p in a[1..] by { assert a == [a[0]] + a[1..]; }
        assert p in b <==> p == b[0] || p in b[1..] by { assert b == [b[0]] + b[1..]; }
        assert forall k :: 0 <= k < |a[1..]| ==> a[1..][k] == a[k + 1] && a[k + 1] != a[0];
        assert forall k :: 0 <= k < |b[1..]| ==> b[1..][k] == b[k + 1] && b[k + 1] != b[0];
      }
      OrderedUnique(a[1..], b[1..]);
      assert a == [a[0]] + a[1..] && b == [b[0]] + b[1..];
    }
  }

  // ---- Canonical means: the same up to member order ----

  lemma SortedMatches(ms: seq<Member>, ns: seq<Member>)
    requires DistinctKeys(ms) && DistinctKeys(ns) && |ms| == |ns|
    requires forall i :: 0 <= i < |ms| ==>
      exists j :: 0 <= j < |ns| && ns[j].key == ms[i].key && Sorted(ns[j].value) == Sorted(ms[i].value)
    ensures SortedMembers(ms) == SortedMembers(ns)
  {
    SortedMembersMeaning(ms);
    SortedMembersMeaning(ns);
    var a, b := SortedMembers(ms), SortedMembers(ns);
    forall p | p in a ensures p in b {
      var i :| 0 <= i < |ms| && p == SortedMember(ms[i]);
      var j :| 0 <= j < |ns| && ns[j].key == ms[i].key && Sorted(ns[j].value) == Sorted(ms[i].value);
      assert SortedMember(ns[j]) in b;
    }
    EqualSizes(a, b);
    OrderedUnique(a, b);
  }

  lemma EqualSizes(a: seq<Member>, b: seq<Member>)
    requires Ordered(a) && Ordered(b) && |a| == |b|
    requires forall p <- a :: p in b
    ensures forall p <- b :: p in a
  {
    OrderedSetSize(a);
    OrderedSetSize(b);
    var sa, sb := Elements(a), Elements(b);
    assert sa <= sb;
    SubsetSize(sa, sb);
    forall p | p in b ensures p in a { assert p in sb; }
  }

  function Elements(ms: seq<Member>): set<Member> { set p <- ms }

  lemma {:induction false} OrderedSetSize(a: seq<Member>)
    requires Ordered(a)
    ensures |Elements(a)| == |a|
  {
    if a != [] {
      var rest := a[..|a| - 1];
      OrderedSetSize(rest);
      var last := a[|a| - 1];
      LessTotal(last.key, last.key);
      assert a == rest + [last];
      assert last !in rest;
      assert Elements(a) == Elements(rest) + {last};
    }
  }

  /** Sorting identifies exactly the values that differ only in the order of members. */
  lemma {:induction false} SortedIff(a: Json, b: Json)
    requires WellFormed(a) && WellFormed(b)
    ensures Sorted(a) == Sorted(b) <==> Same(a, b)
    decreases a
  {
    match (a, b)
    case (Array(xs), Array(ys)) =>
      if |xs| == |ys| {
        forall i | 0 <= i < |xs| ensures Sorted(xs[i]) == Sorted(ys[i]) <==> Same(xs[i], ys[i]) {
          SortedIff(xs[i], ys[i]);
        }
        if Sorted(a) == Sorted(b) {
          forall i | 0 <= i < |xs| ensures Same(xs[i], ys[i]) {
            assert SortedItems(xs)[i] == SortedItems(ys)[i];
          }
        }
        assert (forall i :: 0 <= i < |xs| ==> Sorted(xs[i]) == Sorted(ys[i])) ==> SortedItems(xs) == SortedItems(ys);
      } else {
        assert |SortedItems(xs)| != |SortedItems(ys)|;
      }
    case (Object(ms), Object(ns)) =>
      ObjectsIff(ms, ns);
    case _ =>
  }

  lemma {:induction false} ObjectsIff(ms: seq<Member>, ns: seq<Member>)
    requires WellFormed(Object(ms)) && WellFormed(Object(ns))
    ensures SortedMembers(ms) == SortedMembers(ns) <==> Same(Object(ms), Object(ns))
    decreases ms, 0
  {
    forall i, j | 0 <= i < |ms| && 0 <= j < |ns|
      ensures Sorted(ms[i].value) == Sorted(ns[j].value) <==> Same(ms[i].value, ns[j].value)
    {
      SortedIff(ms[i].value, ns[j].value);
    }
    SortedMembersMeaning(ms);
    SortedMembersMeaning(ns);
    if SortedMembers(ms) == SortedMembers(ns) {
      forall i | 0 <= i < |ms| ensures HasMember(ms, i, ns) {
        assert SortedMember(ms[i]) in SortedMembers(ns);
        var j :| 0 <= j < |ns| && SortedMember(ms[i]) == SortedMember(ns[j]);
        assert SameMember(ms[i], ns[j]);
      }
    } else if Same(Object(ms), Object(ns)) {
      forall i | 0 <= i < |ms|
        ensures exists j :: 0 <= j < |ns| && ns[j].key == ms[i].key && Sorted(ns[j].value) == Sorted(ms[i].value)
      {
        assert HasMember(ms, i, ns);
      }
      SortedMatches(ms, ns);
    }
  }

  /** Sorting changes nothing but the order: every key keeps its value, at every depth. */
  lemma {:induction false} SortedIsSame(v: Json)
    requires WellFormed(v)
    ensures WellFormed(Sorted(v)) && Same(Sorted(v), v)
    decreases v
  {
    match v
    case Array(items) =>
      forall i | 0 <= i < |items|
        ensures WellFormed(SortedItems(items)[i]) && Same(SortedItems(items)[i], items[i])
      {
        SortedIsSame(items[i]);
      }
    case Object(ms) =>
      SortedMembersMeaning(ms);
      var sorted := SortedMembers(ms);
      forall i | 0 <= i < |ms| ensures WellFormed(Sorted(ms[i].value)) && Same(Sorted(ms[i].value), ms[i].value) {
        SortedIsSame(ms[i].value);
      }
      forall k | 0 <= k < |sorted| ensures WellFormed(sorted[k].value) && HasMember(sorted, k, ms) {
        assert sorted[k] in sorted;
        var i :| 0 <= i < |ms| && sorted[k] == SortedMember(ms[i]);
      }
      forall i, j | 0 <= i < j < |sorted| ensures sorted[i].key != sorted[j].key {
        LessTotal(sorted[i].key, sorted[j].key);
      }
    case _ =>
  }

  lemma SortedIdempotent(v: Json)
    requires WellFormed(v)
    ensures Sorted(Sorted(v)) == Sorted(v)
  {
    SortedIsSame(v);
    SortedIff(Sorted(v), v);
  }

  // ---- Canonical form without some root keys ----

  function Without(ms: seq<Member>, skip: seq<string>): (r: seq<Member>)
    ensures forall m :: m in r <==> m in ms && m.key !in skip
  {
    if ms == [] then []
    else (if ms[0].key !in skip then [ms[0]] else []) + Without(ms[1..], skip)
  }

  /** The canonical value; `None` when root keys are to be skipped and the root is no object. */
  function Canonical(v: Json, skip: seq<string>): Option<Json> {
    if skip == [] then Some(Sorted(v))
    else if v.Object? then Some(Sorted(Object(Without(v.members, skip))))
    else None
  }

  lemma {:induction false} WithoutDistinct(ms: seq<Member>, skip: seq<string>)
    requires WellFormed(Object(ms))
    ensures WellFormed(Object(Without(ms, skip)))
  {
    if ms != [] {
      var rest := ms[1..];
      assert WellFormed(Object(rest)) by {
        forall i, j | 0 <= i < j < |rest| ensures rest[i].key != rest[j].key {
          assert rest[i] == ms[i + 1] && rest[j] == ms[j + 1];
        }
      }
      WithoutDistinct(rest, skip);
      var r := Without(rest, skip);
      forall i | 0 <= i < |r| ensures r[i].key != ms[0].key {
        assert r[i] in r && r[i] in rest;
        var k :| 0 <= k < |rest| && rest[k] == r[i];
        assert rest[k] == ms[k + 1];
      }
    }
  }

  /** Two objects have one canonical form exactly when what remains of them without the skipped
      root keys is the same up to member order: neither order nor skipped keys count. */
  lemma CanonicalIff(ms: seq<Member>, ns: seq<Member>, skip: seq<string>)
    requires WellFormed(Object(ms)) && WellFormed(Object(ns))
    ensures Canonical(Object(ms), skip) == Canonical(Object(ns), skip)
            <==> Same(Object(Without(ms, skip)), Object(Without(ns, skip)))
  {
    WithoutDistinct(ms, skip);
    WithoutDistinct(ns, skip);
    if skip == [] {
      WithoutNothing(ms);
      WithoutNothing(ns);
    }
    SortedIff(Object(Without(ms, skip)), Object(Without(ns, skip)));
  }

  lemma {:induction false} WithoutNothing(ms: seq<Member>)
    ensures Without(ms, []) == ms
  {
    if ms != [] { WithoutNothing(ms[1..]); }
  }

  // ---- The algorithm ----

  function KeysOf(ms: seq<Member>): (keys: seq<string>)
    ensures |keys| == |ms|
    ensures forall i :: 0 <= i < |ms| ==> keys[i] == ms[i].key
  {
    seq(|ms|, i requires 0 <= i < |ms| => ms[i].key)
  }

  function InsertKey(k: string, keys: seq<string>): seq<string> {
    if keys == [] || Less(k, keys[0]) then [k] + keys else [keys[0]] + InsertKey(k, keys[1..])
  }

  function SortKeys(keys: seq<string>): seq<string> {
    if keys == [] then [] else InsertKey(keys[0], SortKeys(keys[1..]))
  }

  lemma {:induction false} SortedKeysAre(ms: seq<Member>)
    ensures |SortKeys(KeysOf(ms))| == |SortedMembers(ms)|
    ensures SortKeys(KeysOf(ms)) == KeysOf(SortedMembers(ms))
  {
    if ms != [] {
      SortedKeysAre(ms[1..]);
      assert KeysOf(ms)[1..] == KeysOf(ms[1..]);
      InsertKeyAgrees(SortedMember(ms[0]), SortedMembers(ms[1..]));
    }
  }

  lemma {:induction false} InsertKeyAgrees(m: Member, ms: seq<Member>)
    ensures InsertKey(m.key, KeysOf(ms)) == KeysOf(Insert(m, ms))
  {
    if ms != [] && !Less(m.key, ms[0].key) {
      assert KeysOf(ms)[1..] == KeysOf(ms[1..]);
      InsertKeyAgrees(m, ms[1..]);
    }
  }

  lemma SortedAt(ms: seq<Member>, k: nat)
    requires DistinctKeys(ms) && k < |ms|
    ensures |SortKeys(KeysOf(ms))| == |SortedMembers(ms)| == |ms|
    ensures exists i :: 0 <= i < |ms| && ms[i].key == SortKeys(KeysOf(ms))[k]
    ensures forall i :: 0 <= i < |ms| && ms[i].key == SortKeys(KeysOf(ms))[k] ==>
              SortedMembers(ms)[k] == SortedMember(ms[i])
  {
    SortedKeysAre(ms);
    SortedMembersMeaning(ms);
    assert SortedMembers(ms)[k] in SortedMembers(ms);
    var i :| 0 <= i < |ms| && SortedMembers(ms)[k] == SortedMember(ms[i]);
    assert ms[i].key == SortKeys(KeysOf(ms))[k];
  }

  function Lookup(ms: seq<Member>, key: string): (i: nat)
    requires exists i :: 0 <= i < |ms| && ms[i].key == key
    ensures i < |ms| && ms[i].key == key
  {
    if ms[0].key == key then 0 else Lookup(ms[1..], key) + 1
  }

  /** Sorts the keys, then moves each member out under its key with a sorted value. */
  method SortValue(v: Json) returns (r: Json)
    requires WellFormed(v)
    ensures r == Sorted(v)
    decreases v, 0
  {
    match v {
      case Object(ms) =>
        var out := SortObject(ms);
        r := Object(out);
      case Array(items) =>
        var out := [];
        for k := 0 to |items|
          invariant out == SortedItems(items)[..k]
        {
          var item := SortValue(items[k]);
          out := out + [item];
        }
        r := Array(out);
      case _ => r := v;
    }
  }

  method SortObject(ms: seq<Member>) returns (out: seq<Member>)
    requires WellFormed(Object(ms))
    ensures out == SortedMembers(ms)
    decreases ms, 1
  {
    var keys := SortKeys(KeysOf(ms));
    ghost var target := SortedMembers(ms);
    SortedKeysAre(ms);
    SortedMembersMeaning(ms);
    out := [];
    for k := 0 to |keys|
      invariant out == target[..k]
    {
      SortedAt(ms, k);
      var i := Lookup(ms, keys[k]);
      var m := ms[i];
      var value := SortValue(m.value);
      out := out + [Member(keys[k], value)];
    }
  }
}
