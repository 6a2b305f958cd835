/** What readers make of the events of a log: sorting, filtering, and what one scan remembers. */
module Views {
  import opened Prelude
  import opened Ledger
  import opened DayFiles

  // ---- Sorting by number ----

  predicate NonDescending(es: seq<Event>) {
    forall i, j :: 0 <= i < j < |es| ==> es[i].number <= es[j].number
  }

  /** Events with the same number are the same event. */
  ghost predicate OneEventPerNumber(es: seq<Event>) {
    forall x, y :: x in es && y in es && x.number == y.number ==> x == y
  }

  function Insert(sorted: seq<Event>, e: Event): seq<Event> {
    if sorted == [] || sorted[|sorted| - 1].number <= e.number then sorted + [e]
    else Insert(sorted[..|sorted| - 1], e) + [sorted[|sorted| - 1]]
  }

  /** A stable sort. */
  function SortByNumber(es: seq<Event>): seq<Event> {
    if es == [] then [] else Insert(SortByNumber(es[..|es| - 1]), es[|es| - 1])
  }

  lemma LastOf(es: seq<Event>)
    requires es != []
    ensures es == es[..|es| - 1] + [es[|es| - 1]]
    ensures multiset(es) == multiset(es[..|es| - 1]) + multiset{es[|es| - 1]}
  {
    assert es == es[..|es| - 1] + [es[|es| - 1]];
  }

  lemma LastIsGreatest(es: seq<Event>)
    requires NonDescending(es) && es != []
    ensures forall x :: x in es ==> x.number <= es[|es| - 1].number
  {
    forall x | x in es ensures x.number <= es[|es| - 1].number {
      var i :| 0 <= i < |es| && es[i] == x;
    }
  }

  lemma NonDescendingGrows(es: seq<Event>, e: Event)
    requires NonDescending(es) && forall x :: x in es ==> x.number <= e.number
    ensures NonDescending(es + [e])
  {
    forall i | 0 <= i < |es| ensures es[i].number <= e.number {
      assert es[i] in es;
    }
  }

  lemma {:induction false} InsertSorts(sorted: seq<Event>, e: Event)
    requires NonDescending(sorted)
    ensures NonDescending(Insert(sorted, e))
    ensures multiset(Insert(sorted, e)) == multiset(sorted) + multiset{e}
  {
    if sorted != [] { LastIsGreatest(sorted); }
    if sorted == [] || sorted[|sorted| - 1].number <= e.number {
      NonDescendingGrows(sorted, e);
    } else {
      var before, last := sorted[..|sorted| - 1], sorted[|sorted| - 1];
      LastOf(sorted);
      InsertSorts(before, e);
      forall x | x in Insert(before, e) ensures x.number <= last.number {
        assert x in multiset(Insert(before, e));
        assert x in before || x == e;
      }
      NonDescendingGrows(Insert(before, e), last);
    }
  }

  lemma {:induction false} SortSorts(es: seq<Event>)
    ensures NonDescending(SortByNumber(es))
    ensures multiset(SortByNumber(es)) == multiset(es)
  {
    if es != [] {
      LastOf(es);
      SortSorts(es[..|es| - 1]);
      InsertSorts(SortByNumber(es[..|es| - 1]), es[|es| - 1]);
    }
  }

  lemma SameElements(a: seq<Event>, b: seq<Event>)
    requires multiset(a) == multiset(b)
    ensures forall x :: x in a <==> x in b
    ensures |a| == |b|
  {
    forall x ensures x in a <==> x in b {
      assert x in a <==> x in multiset(a);
      assert x in b <==> x in multiset(b);
    }
    assert |multiset(a)| == |a| && |multiset(b)| == |b|;
  }

  lemma SameGreatest(a: seq<Event>, b: seq<Event>)
    requires multiset(a) == multiset(b) && a != []
    requires NonDescending(a) && NonDescending(b) && OneEventPerNumber(a)
    ensures |a| == |b| && a[|a| - 1] == b[|b| - 1]
    ensures OneEventPerNumber(a[..|a| - 1])
  {
    SameElements(a, b);
    LastIsGreatest(a);
    LastIsGreatest(b);
    assert a[|a| - 1] in b && b[|b| - 1] in a;
    assert forall z :: z in a[..|a| - 1] ==> z in a;
  }

  lemma WithoutLast(a: seq<Event>, b: seq<Event>)
    requires multiset(a) == multiset(b) && a != [] && b != []
    requires a[|a| - 1] == b[|b| - 1]
    ensures multiset(a[..|a| - 1]) == multiset(b[..|b| - 1])
  {
    LastOf(a);
    LastOf(b);
    var x := a[|a| - 1];
    assert multiset(a[..|a| - 1]) == multiset(a) - multiset{x};
    assert multiset(b[..|b| - 1]) == multiset(b) - multiset{x};
  }

  /** There is one way to sort events whose numbers tell them apart. */
  lemma {:induction false} SortedOneWay(a: seq<Event>, b: seq<Event>)
    requires multiset(a) == multiset(b)
    requires NonDescending(a) && NonDescending(b) && OneEventPerNumber(a)
    ensures a == b
  {
    assert |multiset(a)| == |multiset(b)|;
    if a != [] {
      SameGreatest(a, b);
      WithoutLast(a, b);
      SortedOneWay(a[..|a| - 1], b[..|b| - 1]);
      LastOf(a);
      LastOf(b);
    }
  }

  // ---- Selecting ----

  function Select(es: seq<Event>, p: Event -> bool): seq<Event> {
    if es == [] then []
    else Select(es[..|es| - 1], p) + if p(es[|es| - 1]) then [es[|es| - 1]] else []
  }

  lemma SelectGrows(es: seq<Event>, e: Event, p: Event -> bool)
    ensures Select(es + [e], p) == Select(es, p) + if p(e) then [e] else []
  {
    assert (es + [e])[..|es|] == es;
  }

  lemma {:induction false} SelectSplits(a: seq<Event>, b: seq<Event>, p: Event -> bool)
    ensures Select(a + b, p) == Select(a, p) + Select(b, p)
  {
    if b == [] {
      assert a + b == a;
    } else {
      assert a + b == (a + b[..|b| - 1]) + [b[|b| - 1]];
      SelectSplits(a, b[..|b| - 1], p);
      SelectGrows(a + b[..|b| - 1], b[|b| - 1], p);
    }
  }

  lemma {:induction false} SelectCounts(es: seq<Event>, p: Event -> bool, e: Event)
    ensures multiset(Select(es, p))[e] == if p(e) then multiset(es)[e] else 0
  {
    if es != [] {
      LastOf(es);
      SelectCounts(es[..|es| - 1], p, e);
    }
  }

  lemma SelectIn(es: seq<Event>, p: Event -> bool, e: Event)
    ensures e in Select(es, p) <==> e in es && p(e)
  {
    SelectCounts(es, p, e);
    assert e in es <==> multiset(es)[e] > 0;
    assert e in Select(es, p) <==> multiset(Select(es, p))[e] > 0;
  }

  lemma {:induction false} SelectSorted(es: seq<Event>, p: Event -> bool)
    requires NonDescending(es)
    ensures NonDescending(Select(es, p))
  {
    if es != [] {
      var most, last := es[..|es| - 1], es[|es| - 1];
      SelectSorted(most, p);
      forall x | x in Select(most, p) ensures x.number <= last.number {
        SelectIn(most, p, x);
        var i :| 0 <= i < |most| && most[i] == x;
        assert es[i] == x;
      }
    }
  }

  /** Selecting twice is selecting on both conditions. */
  lemma {:induction false} SelectTwice(es: seq<Event>, p: Event -> bool, q: Event -> bool, both: Event -> bool)
    requires forall e :: e in es ==> both(e) == (p(e) && q(e))
    ensures Select(Select(es, p), q) == Select(es, both)
  {
    if es != [] {
      var before, last := es[..|es| - 1], es[|es| - 1];
      assert last in es;
      SelectTwice(before, p, q, both);
      SelectGrows(Select(before, p), last, q);
      assert Select(before, p) + [] == Select(before, p);
    }
  }

  function WithNumber(n: nat): Event -> bool { (e: Event) => e.number == n }

  lemma {:induction false} InsertIsStable(sorted: seq<Event>, e: Event, n: nat)
    ensures Select(Insert(sorted, e), WithNumber(n)) ==
            Select(sorted, WithNumber(n)) + if e.number == n then [e] else []
  {
    if sorted == [] || sorted[|sorted| - 1].number <= e.number {
      SelectGrows(sorted, e, WithNumber(n));
    } else {
      var before, last := sorted[..|sorted| - 1], sorted[|sorted| - 1];
      InsertIsStable(before, e, n);
      SelectGrows(Insert(before, e), last, WithNumber(n));
      assert Select(before, WithNumber(n)) + [] == Select(before, WithNumber(n));
    }
  }

  /** Events of the same number stay in their order. */
  lemma {:induction false} SortIsStable(es: seq<Event>, n: nat)
    ensures Select(SortByNumber(es), WithNumber(n)) == Select(es, WithNumber(n))
  {
    if es != [] {
      SortIsStable(es[..|es| - 1], n);
      InsertIsStable(SortByNumber(es[..|es| - 1]), es[|es| - 1], n);
    }
  }

  // ---- Filters ----

  datatype Filter = Filter(
    task: Option<string>, kinds: seq<Kind>, since: Option<nat>, until: Option<nat>, limit: Option<nat>)
  {
    predicate Accepts(e: Event) {
      && (task.Some? ==> e.task == task)
      && (kinds != [] ==> e.kind in kinds)
      && (since.Some? ==> since.value <= e.number)
      && (until.Some? ==> e.number <= until.value)
    }

    function Cut(es: seq<Event>): seq<Event> {
      if limit.Some? && limit.value < |es| then es[..limit.value] else es
    }
  }

  function Accepting(filter: Filter): Event -> bool { (e: Event) => filter.Accepts(e) }

  function From(number: nat): Event -> bool { (e: Event) => e.number >= number }

  /** The journal as a reader of everything gets it: all files, sorted by number. */
  function ReadOrder(log: seq<Event>): seq<Event> { SortByNumber(FileOrder(log)) }

  lemma ReadOrderHolds(log: seq<Event>)
    ensures NonDescending(ReadOrder(log))
    ensures multiset(ReadOrder(log)) == multiset(log)
    ensures forall e :: e in ReadOrder(log) <==> e in log
  {
    SortSorts(FileOrder(log));
    FileOrderPermutes(log);
    SameElements(ReadOrder(log), log);
  }

  lemma ReadOrderLength(log: seq<Event>)
    ensures |ReadOrder(log)| == |log|
  {
    ReadOrderHolds(log);
    SameElements(ReadOrder(log), log);
  }

  /** Whatever the dates, a log written in number order is read back as it was written. */
  lemma ReadOrderIsWriteOrder(log: seq<Event>)
    requires NonDescending(log) && OneEventPerNumber(log)
    ensures ReadOrder(log) == log
  {
    ReadOrderHolds(log);
    SortedOneWay(log, ReadOrder(log));
  }

  // ---- What each condition of a filter does ----

  function OfKinds(kinds: seq<Kind>): Event -> bool { (e: Event) => e.kind in kinds }

  function OfTask(task: string): Event -> bool { (e: Event) => e.task == Some(task) }

  function NumberedFrom(first: nat, last: nat): Event -> bool { (e: Event) => first <= e.number <= last }

  /** Kinds given: exactly the events of those kinds among what the same filter without kinds accepts. */
  lemma KindsNarrow(es: seq<Event>, filter: Filter)
    requires filter.kinds != []
    ensures Select(es, Accepting(filter)) == Select(Select(es, Accepting(filter.(kinds := []))), OfKinds(filter.kinds))
  {
    SelectTwice(es, Accepting(filter.(kinds := [])), OfKinds(filter.kinds), Accepting(filter));
  }

  lemma TaskNarrows(es: seq<Event>, filter: Filter)
    requires filter.task.Some?
    ensures Select(es, Accepting(filter)) ==
            Select(Select(es, Accepting(filter.(task := None))), OfTask(filter.task.value))
  {
    SelectTwice(es, Accepting(filter.(task := None)), OfTask(filter.task.value), Accepting(filter));
  }

  /** Both bounds given: exactly the events numbered from one to the other, both included. */
  lemma BoundsNarrow(es: seq<Event>, filter: Filter)
    requires filter.since.Some? && filter.until.Some?
    ensures Select(es, Accepting(filter)) ==
            Select(Select(es, Accepting(filter.(since := None, until := None))),
                   NumberedFrom(filter.since.value, filter.until.value))
  {
    var open := filter.(since := None, until := None);
    SelectTwice(es, Accepting(open), NumberedFrom(filter.since.value, filter.until.value), Accepting(filter));
  }

  /** A missing bound is no bound: one that no event is beyond gives the same. */
  lemma MissingBoundIsNone(es: seq<Event>, filter: Filter, most: nat)
    requires forall e <- es :: e.number <= most
    ensures filter.since.None? ==> Select(es, Accepting(filter)) == Select(es, Accepting(filter.(since := Some(0))))
    ensures filter.until.None? ==> Select(es, Accepting(filter)) == Select(es, Accepting(filter.(until := Some(most))))
  {
    var s, u := filter.(since := Some(0)), filter.(until := Some(most));
    forall e | e in es ensures filter.since.None? ==> filter.Accepts(e) == s.Accepts(e) {
    }
    forall e | e in es ensures filter.until.None? ==> filter.Accepts(e) == u.Accepts(e) {
    }
    if filter.since.None? { SelectEvery(es, s, filter); }
    if filter.until.None? { SelectEvery(es, u, filter); }
  }

  lemma {:induction false} SelectEvery(es: seq<Event>, a: Filter, b: Filter)
    requires forall e <- es :: a.Accepts(e) == b.Accepts(e)
    ensures Select(es, Accepting(a)) == Select(es, Accepting(b))
  {
    if es != [] {
      assert es[|es| - 1] in es;
      SelectEvery(es[..|es| - 1], a, b);
    }
  }

  /** Without any condition everything is accepted. */
  lemma {:induction false} NoConditionKeepsAll(es: seq<Event>, limit: Option<nat>)
    ensures Select(es, Accepting(Filter(None, [], None, None, limit))) == es
  {
    if es != [] {
      NoConditionKeepsAll(es[..|es| - 1], limit);
      assert es == es[..|es| - 1] + [es[|es| - 1]];
    }
  }

  // ---- What one scan remembers ----

  function NextOf(es: seq<Event>): nat {
    if es == [] then 0 else es[|es| - 1].number + 1
  }

  function HeadOf(es: seq<Event>): string {
    if es == [] then GENESIS else es[|es| - 1].hash.GetOr(GENESIS)
  }

  /** The number of events after the last seal. */
  function SinceOf(es: seq<Event>): nat {
    if es == [] || es[|es| - 1].kind == LedgerSeal then 0 else SinceOf(es[..|es| - 1]) + 1
  }

  /** The number of the first event of a task, in the order of `es`. */
  function FirstOf(es: seq<Event>, task: string): Option<nat> {
    if es == [] then None
    else
      match FirstOf(es[..|es| - 1], task)
      case Some(n) => Some(n)
      case None => if es[|es| - 1].task == Some(task) then Some(es[|es| - 1].number) else None
  }

  function ValueAt<K, V>(m: map<K, V>, k: K): Option<V> {
    if k in m then Some(m[k]) else None
  }

  ghost predicate Scanned(es: seq<Event>, firsts: map<string, nat>) {
    forall t :: ValueAt(firsts, t) == FirstOf(es, t)
  }

  /** What one more event does to the table of first numbers. */
  function WithFirst(firsts: map<string, nat>, e: Event): map<string, nat> {
    if e.task.Some? && e.task.value !in firsts then firsts[e.task.value := e.number] else firsts
  }

  lemma ScanGrows(es: seq<Event>, firsts: map<string, nat>, e: Event)
    requires Scanned(es, firsts)
    ensures Scanned(es + [e], WithFirst(firsts, e))
    ensures NextOf(es + [e]) == e.number + 1 && HeadOf(es + [e]) == e.hash.GetOr(GENESIS)
  {
    assert (es + [e])[..|es|] == es;
    forall t ensures ValueAt(WithFirst(firsts, e), t) == FirstOf(es + [e], t) {
      assert ValueAt(firsts, t) == FirstOf(es, t);
    }
  }

  lemma SinceGrows(es: seq<Event>, e: Event)
    ensures SinceOf(es + [e]) == if e.kind == LedgerSeal then 0 else SinceOf(es) + 1
  {
    assert (es + [e])[..|es|] == es;
  }

  lemma FirstOfGrows(es: seq<Event>, e: Event, t: string)
    ensures FirstOf(es + [e], t) ==
            if FirstOf(es, t).None? && e.task == Some(t) then Some(e.number) else FirstOf(es, t)
  {
    assert (es + [e])[..|es|] == es;
  }

  lemma {:induction false} FirstOfSplits(a: seq<Event>, b: seq<Event>, t: string)
    ensures FirstOf(a + b, t) == if FirstOf(a, t).Some? then FirstOf(a, t) else FirstOf(b, t)
  {
    if b == [] {
      assert a + b == a;
    } else {
      assert (a + b)[..|a + b| - 1] == a + b[..|b| - 1];
      FirstOfSplits(a, b[..|b| - 1], t);
    }
  }

  /** `i` is where the task starts in `es`. */
  predicate Starts(es: seq<Event>, t: string, i: nat) {
    i < |es| && es[i].task == Some(t) && forall j :: 0 <= j < i ==> es[j].task != Some(t)
  }

  lemma {:induction false} FirstOfMeaning(es: seq<Event>, t: string)
    ensures FirstOf(es, t).None? <==> forall i :: 0 <= i < |es| ==> es[i].task != Some(t)
    ensures forall i: nat :: Starts(es, t, i) ==> FirstOf(es, t) == Some(es[i].number)
  {
    if es != [] {
      var most := es[..|es| - 1];
      FirstOfMeaning(most, t);
      forall i: nat | Starts(es, t, i) ensures FirstOf(es, t) == Some(es[i].number) {
        if i < |most| { assert Starts(most, t, i); }
      }
    }
  }

  lemma {:induction false} TaskStarts(es: seq<Event>, t: string) returns (i: nat)
    requires FirstOf(es, t).Some?
    ensures Starts(es, t, i) && FirstOf(es, t) == Some(es[i].number)
  {
    var most := es[..|es| - 1];
    if FirstOf(most, t).Some? {
      i := TaskStarts(most, t);
    } else {
      FirstOfMeaning(most, t);
      i := |es| - 1;
    }
  }
}
