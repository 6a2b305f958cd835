/** Audit events: drafts, sealing into a hash chain, and verification of a chain. */
module Ledger {
  import opened Prelude
  import opened Canon

  const EVENT_VERSION: nat := 0
  const GENESIS: string := "genesis"

  /** The kinds of event the models distinguish. */
  datatype Kind = ToolCall | ToolResult | PolicyDeny | ApprovalRequested | LedgerSeal | Other(name: string)

  datatype Draft = Draft(
    at: Time, task: Option<string>, step: Option<nat>, actor: string,
    kind: Kind, payload: Json, idem: Option<string>)

  datatype Event = Event(
    v: nat, number: nat, prev: string, at: Time, task: Option<string>, step: Option<nat>,
    actor: string, kind: Kind, payload: Json, idem: Option<string>, hash: Option<string>)

  // ---- Payloads ----

  const FORBIDDEN: set<string> := {
    "password", "secret", "token", "api_key", "apikey", "authorization",
    "cookie", "private_key", "content", "body"
  }

  /** Capital letters become small ones, nothing else changes. */
  function Lowercase(s: string): (r: string)
    ensures |r| == |s|
    ensures forall i :: 0 <= i < |s| ==>
              if 'A' <= s[i] <= 'Z' then r[i] as int - 'a' as int == s[i] as int - 'A' as int else r[i] == s[i]
  {
    seq(|s|, i requires 0 <= i < |s| =>
      if 'A' <= s[i] <= 'Z' then (s[i] as int + 32) as char else s[i])
  }

  /** No object of the payload, at any depth, has a forbidden key. */
  predicate Harmless(payload: Json) {
    match payload
    case Object(ms) => forall i :: 0 <= i < |ms| ==> HarmlessMember(ms[i])
    case Array(items) => forall i :: 0 <= i < |items| ==> Harmless(items[i])
    case _ => true
  }

  predicate HarmlessMember(m: Member) {
    Lowercase(m.key) !in FORBIDDEN && Harmless(m.value)
  }

  /** The key stands in the payload where this path leads: positions of members and items, one per level. */
  predicate KeyAt(v: Json, path: seq<nat>, key: string)
    decreases path
  {
    && path != []
    && match v
       case Object(ms) =>
         path[0] < |ms| && if |path| == 1 then ms[path[0]].key == key else KeyAt(ms[path[0]].value, path[1..], key)
       case Array(items) => path[0] < |items| && KeyAt(items[path[0]], path[1..], key)
       case _ => false
  }

  predicate Named(key: string) {
    var k := Lowercase(key);
    || k == "password" || k == "secret" || k == "token" || k == "api_key" || k == "apikey"
    || k == "authorization" || k == "cookie" || k == "private_key" || k == "content" || k == "body"
  }

  /** Nothing in the value, at any path, has one of these names. */
  ghost predicate Unnamed(v: Json) {
    forall path, key :: KeyAt(v, path, key) ==> !Named(key)
  }

  lemma UnnamedMembers(ms: seq<Member>)
    ensures Unnamed(Object(ms)) <==> forall i :: 0 <= i < |ms| ==> !Named(ms[i].key) && Unnamed(ms[i].value)
  {
    hide Named;
    var v := Object(ms);
    if forall i :: 0 <= i < |ms| ==> !Named(ms[i].key) && Unnamed(ms[i].value) {
      forall path, key | KeyAt(v, path, key) ensures !Named(key) {
        assert !Named(ms[path[0]].key) && Unnamed(ms[path[0]].value);
        if |path| > 1 { assert KeyAt(ms[path[0]].value, path[1..], key); }
      }
    } else {
      var i: nat :| i < |ms| && !(!Named(ms[i].key) && Unnamed(ms[i].value));
      if Named(ms[i].key) {
        assert KeyAt(v, [i], ms[i].key);
      } else {
        var path, key :| KeyAt(ms[i].value, path, key) && Named(key);
        assert ([i] + path)[1..] == path;
        assert KeyAt(v, [i] + path, key);
      }
    }
  }

  lemma UnnamedItems(items: seq<Json>)
    ensures Unnamed(Array(items)) <==> forall i :: 0 <= i < |items| ==> Unnamed(items[i])
  {
    hide Named;
    var v := Array(items);
    if forall i :: 0 <= i < |items| ==> Unnamed(items[i]) {
      forall path, key | KeyAt(v, path, key) ensures !Named(key) {
        assert Unnamed(items[path[0]]) && KeyAt(items[path[0]], path[1..], key);
      }
    } else {
      var i: nat :| i < |items| && !Unnamed(items[i]);
      var path, key :| KeyAt(items[i], path, key) && Named(key);
      assert ([i] + path)[1..] == path;
      assert KeyAt(v, [i] + path, key);
    }
  }

  /** A payload is refused exactly when some path, through objects and lists at any depth, leads to one of
      these keys, in any case. */
  lemma {:induction false} HarmlessIff(v: Json)
    ensures Harmless(v) <==> Unnamed(v)
    decreases v
  {
    hide Named; hide Lowercase; hide Unnamed;
    match v
    case Object(ms) =>
      forall i | 0 <= i < |ms| ensures HarmlessMember(ms[i]) <==> !Named(ms[i].key) && Unnamed(ms[i].value) {
        HarmlessIff(ms[i].value);
        ForbiddenIff(ms[i].key);
      }
      UnnamedMembers(ms);
    case Array(items) =>
      forall i | 0 <= i < |items| ensures Harmless(items[i]) <==> Unnamed(items[i]) {
        HarmlessIff(items[i]);
      }
      UnnamedItems(items);
    case _ => PlainHasNoKey(v);
  }

  lemma PlainHasNoKey(v: Json)
    requires !v.Object? && !v.Array?
    ensures Unnamed(v)
  {
  }

  lemma ForbiddenIff(key: string)
    ensures Lowercase(key) in FORBIDDEN <==> Named(key)
  {
  }

  // ---- Sealing an event ----

  /** The hash of an event, over everything but the hash itself. */
  function HashOf(hash: Event -> string, e: Event): string {
    hash(e.(hash := None))
  }

  /** The event a draft becomes at this number, after the event whose hash is `prev`; `None` when
      its payload is refused. */
  function Seal(hash: Event -> string, d: Draft, number: nat, prev: string): (r: Option<Event>)
    ensures r.Some? <==> Harmless(d.payload)
  {
    if !Harmless(d.payload) then None
    else
      var e := Event(EVENT_VERSION, number, prev, d.at, d.task, d.step, d.actor, d.kind, d.payload, d.idem, None);
      Some(e.(hash := Some(hash(e))))
  }

  // ---- Chains ----

  function HashBefore(es: seq<Event>, i: nat): string
    requires i <= |es|
  {
    if i == 0 then GENESIS else es[i - 1].hash.GetOr("")
  }

  predicate Linked(hash: Event -> string, es: seq<Event>, i: nat)
    requires i < |es|
  {
    && es[i].v == EVENT_VERSION
    && es[i].prev == HashBefore(es, i)
    && es[i].hash == Some(HashOf(hash, es[i]))
    && (i > 0 ==> es[i].number == es[i - 1].number + 1)
  }

  /** Numbers follow each other, every event names its predecessor's hash and carries its own. */
  ghost predicate Chained(hash: Event -> string, es: seq<Event>) {
    forall i: nat :: i < |es| ==> Linked(hash, es, i)
  }

  /** A draft with a harmless payload becomes an event that says what it says, at its place in the chain, and
      whose hash is over everything else. */
  lemma SealedIs(hash: Event -> string, d: Draft, number: nat, prev: string)
    requires Unnamed(d.payload)
    ensures Seal(hash, d, number, prev).Some?
    ensures
      var e := Seal(hash, d, number, prev).value;
      && e.number == number && e.prev == prev && e.v == 0
      && Draft(e.at, e.task, e.step, e.actor, e.kind, e.payload, e.idem) == d
      && e.hash == Some(hash(e.(hash := None)))
  {
    hide Unnamed; hide Harmless;
    HarmlessIff(d.payload);
  }

  /** In a chain the numbers count on from the first, each event carries the hash of what it says and names
      that of the event before it, the first one naming none. */
  lemma ChainIs(hash: Event -> string, es: seq<Event>)
    ensures Chained(hash, es) <==>
              forall i: nat :: i < |es| ==>
                && es[i].v == 0 && es[i].number == es[0].number + i
                && es[i].hash == Some(hash(es[i].(hash := None)))
                && if i == 0 then es[i].prev == "genesis" else es[i - 1].hash == Some(es[i].prev)
  {
    if Chained(hash, es) {
      forall i: nat | i < |es| ensures es[i].number == es[0].number + i && es[i].hash.Some? {
        CountsOn(hash, es, i);
      }
      forall i: nat | i < |es|
        ensures es[i].v == 0 && es[i].hash == Some(hash(es[i].(hash := None)))
        ensures if i == 0 then es[i].prev == "genesis" else es[i - 1].hash == Some(es[i].prev)
      {
        assert Linked(hash, es, i);
        if i > 0 { assert Linked(hash, es, i - 1); }
      }
    } else {
      var i: nat :| i < |es| && !Linked(hash, es, i);
      if i > 0 { assert es[i].number != es[i - 1].number + 1 || es[i].prev != HashBefore(es, i) || es[i].v != 0
                        || es[i].hash != Some(HashOf(hash, es[i])); }
    }
  }

  lemma {:induction false} CountsOn(hash: Event -> string, es: seq<Event>, i: nat)
    requires Chained(hash, es) && i < |es|
    ensures es[i].number == es[0].number + i && es[i].hash.Some?
  {
    assert Linked(hash, es, i);
    if i > 0 { CountsOn(hash, es, i - 1); }
  }

  datatype ChainError =
    | UnknownVersion(v: nat)
    | BrokenChain(number: nat)

  /** Checks a chain event by event and names the first that does not fit. */
  method VerifyChain(hash: Event -> string, es: seq<Event>) returns (error: Option<ChainError>)
    ensures error.None? <==> Chained(hash, es)
    ensures error.Some? ==>
      exists i: nat :: i < |es| && !Linked(hash, es, i) && (forall j: nat :: j < i ==> Linked(hash, es, j))
        && error.value == if es[i].v != EVENT_VERSION then UnknownVersion(es[i].v) else BrokenChain(es[i].number)
  {
    var expectedPrev := GENESIS;
    var expectedNumber: Option<nat> := None;
    for i := 0 to |es|
      invariant expectedPrev == HashBefore(es, i)
      invariant expectedNumber == if i == 0 then None else Some(es[i - 1].number + 1)
      invariant forall j: nat :: j < i ==> Linked(hash, es, j)
    {
      var e := es[i];
      if e.v != EVENT_VERSION {
        assert !Linked(hash, es, i);
        return Some(UnknownVersion(e.v));
      }
      if (expectedNumber.Some? && e.number != expectedNumber.value)
         || e.prev != expectedPrev
         || e.hash != Some(HashOf(hash, e)) {
        assert !Linked(hash, es, i);
        return Some(BrokenChain(e.number));
      }
      expectedPrev := e.hash.GetOr("");
      expectedNumber := Some(e.number + 1);
    }
    error := None;
  }

  // ---- What a head commits to ----

  /** The same event up to the order of its payload's members, at every depth. */
  predicate SameEvent(a: Event, b: Event) {
    a.(payload := Null) == b.(payload := Null) && Same(a.payload, b.payload)
  }

  /** The same said by both, whatever comes before them in their chains. */
  predicate SaysTheSame(a: Event, b: Event) {
    SameEvent(a.(prev := "", hash := None), b.(prev := "", hash := None))
  }

  /** No object of a payload repeats a key: such a value cannot be built. */
  predicate WellFormedEvents(es: seq<Event>) {
    forall i :: 0 <= i < |es| ==> WellFormed(es[i].payload)
  }

  /** The standing assumption on the event hash: it tells events apart exactly up to the order of
      members, and is never the genesis mark. */
  ghost predicate CanonicalHash(hash: Event -> string) {
    && (forall a: Event, b: Event :: WellFormed(a.payload) && WellFormed(b.payload) ==>
          (hash(a) == hash(b) <==> SameEvent(a, b)))
    && (forall e :: hash(e) != GENESIS)
  }

  /** The hash of the canonical form. */
  function Canonically(digest: Event -> string): Event -> string {
    (e: Event) => digest(e.(payload := Sorted(e.payload)))
  }

  /** A collision-free digest of canonical forms is such a hash. */
  lemma CanonicalFormsHash(digest: Event -> string)
    requires forall a, b :: digest(a) == digest(b) ==> a == b
    requires forall e :: digest(e) != GENESIS
    ensures CanonicalHash(Canonically(digest))
  {
    var hash := Canonically(digest);
    forall a: Event, b: Event | WellFormed(a.payload) && WellFormed(b.payload)
      ensures hash(a) == hash(b) <==> SameEvent(a, b)
    {
      SortedIff(a.payload, b.payload);
      var a', b' := a.(payload := Sorted(a.payload)), b.(payload := Sorted(b.payload));
      assert a'.(payload := Null) == a.(payload := Null) && b'.(payload := Null) == b.(payload := Null);
      assert a' == b' <==> a.(payload := Null) == b.(payload := Null) && a'.payload == b'.payload;
    }
    forall e ensures hash(e) != GENESIS {
      assert digest(e.(payload := Sorted(e.payload))) != GENESIS;
    }
  }

  /** The head commits to everything but the order of members: two verified chains have the same head
      exactly when they say the same, event by event. */
  lemma {:induction false} HeadsAgreeIff(hash: Event -> string, a: seq<Event>, b: seq<Event>)
    requires CanonicalHash(hash) && Chained(hash, a) && Chained(hash, b)
    requires WellFormedEvents(a) && WellFormedEvents(b)
    ensures HashBefore(a, |a|) == HashBefore(b, |b|) <==>
              |a| == |b| && forall i :: 0 <= i < |a| ==> SaysTheSame(a[i], b[i])
  {
    hide Chained; hide SaysTheSame; hide SameEvent; hide WellFormed; hide CanonicalHash;
    if a != [] { HeadIsHash(hash, a); }
    if b != [] { HeadIsHash(hash, b); }
    if a != [] && b != [] {
      var a', b' := a[..|a| - 1], b[..|b| - 1];
      var x, y := a[|a| - 1], b[|b| - 1];
      PrefixChained(hash, a, |a| - 1);
      PrefixChained(hash, b, |b| - 1);
      HeadsAgreeIff(hash, a', b');
      SameHashIff(hash, x, y);
      assert forall i :: 0 <= i < |a'| ==> a'[i] == a[i];
      assert forall i :: 0 <= i < |b'| ==> b'[i] == b[i];
    }
  }

  lemma HeadIsHash(hash: Event -> string, es: seq<Event>)
    requires Chained(hash, es) && es != []
    ensures HashBefore(es, |es|) == HashOf(hash, es[|es| - 1])
    ensures CanonicalHash(hash) ==> HashBefore(es, |es|) != GENESIS
    ensures es[|es| - 1].prev == HashBefore(es, |es| - 1)
  {
    assert Linked(hash, es, |es| - 1);
  }

  lemma SameHashIff(hash: Event -> string, x: Event, y: Event)
    requires CanonicalHash(hash) && WellFormed(x.payload) && WellFormed(y.payload)
    ensures HashOf(hash, x) == HashOf(hash, y) <==> SaysTheSame(x, y) && x.prev == y.prev
  {
    AloneOrAfter(x, y);
  }

  lemma AloneOrAfter(x: Event, y: Event)
    ensures SameEvent(x.(hash := None), y.(hash := None)) <==> SaysTheSame(x, y) && x.prev == y.prev
  {
    var x', y' := x.(hash := None, payload := Null), y.(hash := None, payload := Null);
    assert x.(prev := "", hash := None).(payload := Null) == x'.(prev := "");
    assert y.(prev := "", hash := None).(payload := Null) == y'.(prev := "");
    assert x'.(prev := "") == y'.(prev := "") && x.prev == y.prev <==> x' == y';
  }

  /** So a stored payload can have its members reordered and the chain still verify, with its head. */
  lemma ReorderedMembersVerify(hash: Event -> string, d: Draft, payload: Json)
    requires CanonicalHash(hash) && WellFormed(d.payload) && WellFormed(payload)
    requires Harmless(d.payload) && Same(d.payload, payload) && d.payload != payload
    ensures
      var written := Seal(hash, d, 0, GENESIS).value;
      var stored := written.(payload := payload);
      && stored != written && Chained(hash, [written]) && Chained(hash, [stored])
      && HashBefore([stored], 1) == HashBefore([written], 1)
  {
    var written := Seal(hash, d, 0, GENESIS).value;
    var stored := written.(payload := payload);
    assert written.(hash := None).hash.None?;
    assert HashOf(hash, written) == written.hash.value;
    assert stored.(hash := None).(payload := Null) == written.(hash := None).(payload := Null);
    assert SameEvent(written.(hash := None), stored.(hash := None));
    assert Linked(hash, [written], 0) && Linked(hash, [stored], 0);
  }

  /** Such payloads exist. */
  lemma TwoOrders()
    ensures
      var p, q := Member("a", Null), Member("b", Null);
      && WellFormed(Object([p, q])) && WellFormed(Object([q, p])) && Harmless(Object([p, q]))
      && Same(Object([p, q]), Object([q, p])) && Object([p, q]) != Object([q, p])
  {
    var p, q := Member("a", Null), Member("b", Null);
    var ms, ns := [p, q], [q, p];
    assert p.key[0] != q.key[0];
    assert SameMember(ms[0], ns[1]) && SameMember(ms[1], ns[0]);
    assert HasMember(ms, 0, ns) && HasMember(ms, 1, ns);
    assert Lowercase("a") == "a" && Lowercase("b") == "b";
    assert forall w :: w in FORBIDDEN ==> |w| > 1;
  }

  lemma PrefixChained(hash: Event -> string, es: seq<Event>, n: nat)
    requires Chained(hash, es) && n <= |es|
    ensures Chained(hash, es[..n])
    ensures HashBefore(es[..n], n) == HashBefore(es, n)
  {
    forall i: nat | i < n ensures Linked(hash, es[..n], i) {
      assert Linked(hash, es, i);
    }
  }

  lemma ChainGrows(hash: Event -> string, es: seq<Event>, d: Draft)
    requires Chained(hash, es) && Harmless(d.payload)
    ensures
      var e := Seal(hash, d, if es == [] then 0 else es[|es| - 1].number + 1, HashBefore(es, |es|)).value;
      Chained(hash, es + [e]) && HashBefore(es + [e], |es| + 1) == HashOf(hash, e)
  {
    var e := Seal(hash, d, if es == [] then 0 else es[|es| - 1].number + 1, HashBefore(es, |es|)).value;
    assert e.(hash := None).hash.None?;
    assert HashOf(hash, e) == hash(e.(hash := None));
    var es' := es + [e];
    forall i: nat | i < |es'| ensures Linked(hash, es', i) {
      if i < |es| { assert Linked(hash, es, i); }
    }
  }
}
