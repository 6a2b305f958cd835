/** What reading the day files in name order makes of a log written in another order. */
module Reopening {
  import opened Prelude
  import opened Ledger
  import opened DayFiles
  import opened Views

  /** Event `i` has number `i`. */
  ghost predicate Numbered(log: seq<Event>) {
    forall i :: 0 <= i < |log| ==> log[i].number == i
  }

  ghost predicate DatesInOrder(log: seq<Event>) {
    forall i, j :: 0 <= i < j < |log| ==> Day(log[i]) <= Day(log[j])
  }

  /** No event is dated of a later day than the last one written. */
  ghost predicate LastDayIsLatest(log: seq<Event>) {
    forall i :: 0 <= i < |log| ==> Day(log[i]) <= Day(log[|log| - 1])
  }

  // ---- The end of the name order ----

  lemma {:induction false} DayEnds(log: seq<Event>, day: int) returns (i: nat)
    requires day in Days(log)
    ensures i < |log| && Day(log[i]) == day && forall j :: i < j < |log| ==> Day(log[j]) != day
    ensures OfDay(log, day) != [] && OfDay(log, day)[|OfDay(log, day)| - 1] == log[i]
  {
    if Day(log[|log| - 1]) == day {
      i := |log| - 1;
    } else {
      i := DayEnds(log[..|log| - 1], day);
    }
  }

  /** Name order ends with the last event written on the latest day. */
  lemma NameOrderEnds(log: seq<Event>) returns (i: nat)
    requires log != []
    ensures i < |log| && FileOrder(log) != [] && FileOrder(log)[|FileOrder(log)| - 1] == log[i]
    ensures forall j :: 0 <= j < |log| ==> Day(log[j]) <= Day(log[i])
    ensures forall j :: i < j < |log| ==> Day(log[j]) < Day(log[i])
  {
    var days := Ascending(Days(log));
    DaysHave(log, 0);
    Prelude.LastIsGreatest(days);
    var last := days[|days| - 1];
    i := DayEnds(log, last);
    forall j | 0 <= j < |log| ensures Day(log[j]) <= last {
      DaysHave(log, j);
    }
  }

  /** Reopening finds the next number and the head exactly when no event is dated after the last
      one's day; otherwise the next number is one already given. */
  lemma ReopenFindsTheEndIff(log: seq<Event>)
    requires Numbered(log)
    ensures NextOf(FileOrder(log)) == |log| <==> LastDayIsLatest(log)
    ensures NextOf(FileOrder(log)) <= |log|
    ensures LastDayIsLatest(log) ==> HeadOf(FileOrder(log)) == HeadOf(log)
  {
    if log != [] {
      var i := NameOrderEnds(log);
      if i < |log| - 1 { assert Day(log[|log| - 1]) < Day(log[i]); }
    }
  }

  // ---- The first event of each task ----

  /** `i` is the first event of the task on the earliest of these days that has one. */
  ghost predicate Earliest(log: seq<Event>, days: set<int>, t: string, i: nat) {
    && i < |log| && log[i].task == Some(t) && Day(log[i]) in days
    && forall j :: 0 <= j < |log| && log[j].task == Some(t) && Day(log[j]) in days ==>
         Day(log[i]) < Day(log[j]) || (Day(log[i]) == Day(log[j]) && i <= j)
  }

  /** `i` is the first event of the task on that day. */
  ghost predicate StartsOn(log: seq<Event>, day: int, t: string, i: nat) {
    && i < |log| && log[i].task == Some(t) && Day(log[i]) == day
    && forall j :: 0 <= j < i ==> log[j].task != Some(t) || Day(log[j]) != day
  }

  lemma {:induction false} NoneOnDay(log: seq<Event>, day: int, t: string)
    ensures FirstOf(OfDay(log, day), t).None? <==>
              forall i :: 0 <= i < |log| && Day(log[i]) == day ==> log[i].task != Some(t)
  {
    if log != [] {
      var before, last := log[..|log| - 1], log[|log| - 1];
      NoneOnDay(before, day, t);
      FirstOfGrows(OfDay(before, day), last, t);
      assert forall i :: 0 <= i < |before| ==> before[i] == log[i];
      assert OfDay(before, day) + [] == OfDay(before, day);
    }
  }

  lemma {:induction false} FirstOnDay(log: seq<Event>, day: int, t: string, i: nat)
    requires StartsOn(log, day, t, i)
    ensures FirstOf(OfDay(log, day), t) == Some(log[i].number)
  {
    var before, last := log[..|log| - 1], log[|log| - 1];
    FirstOfGrows(OfDay(before, day), last, t);
    assert OfDay(before, day) + [] == OfDay(before, day);
    if i < |before| {
      assert StartsOn(before, day, t, i);
      FirstOnDay(before, day, t, i);
    } else {
      NoneOnDay(before, day, t);
    }
  }

  lemma {:induction false} NoneInDays(log: seq<Event>, days: seq<int>, t: string)
    requires forall i :: 0 <= i < |log| && log[i].task == Some(t) ==> Day(log[i]) !in days
    ensures FirstOf(InDays(log, days), t).None?
  {
    if days != [] {
      var rest, last := days[..|days| - 1], days[|days| - 1];
      NoneInDays(log, rest, t);
      NoneOnDay(log, last, t);
      FirstOfSplits(InDays(log, rest), OfDay(log, last), t);
    }
  }

  lemma {:induction false} FirstInDays(log: seq<Event>, days: seq<int>, t: string, i: nat)
    requires forall i, j :: 0 <= i < j < |days| ==> days[i] < days[j]
    requires Earliest(log, (set d <- days), t, i)
    ensures FirstOf(InDays(log, days), t) == Some(log[i].number)
  {
    var rest, last := days[..|days| - 1], days[|days| - 1];
    FirstOfSplits(InDays(log, rest), OfDay(log, last), t);
    if Day(log[i]) in rest {
      assert Earliest(log, (set d <- rest), t, i);
      FirstInDays(log, rest, t, i);
    } else {
      assert StartsOn(log, last, t, i);
      FirstOnDay(log, last, t, i);
      assert forall k :: 0 <= k < |rest| ==> days[k] < days[|days| - 1];
      assert forall d :: d in rest ==> d in days && d < last;
      NoneInDays(log, rest, t);
    }
  }

  /** Reopening finds where a task starts exactly when no event of the task is dated of a day
      before the one it started on. */
  lemma ReopenFindsTheStartIff(log: seq<Event>, t: string, i: nat)
    requires Numbered(log) && Starts(log, t, i)
    ensures FirstOf(FileOrder(log), t) == FirstOf(log, t) <==>
              forall j :: 0 <= j < |log| && log[j].task == Some(t) ==> Day(log[i]) <= Day(log[j])
  {
    FirstOfMeaning(log, t);
    var days := Ascending(Days(log));
    var e := EarliestOf(log, t, i);
    forall j | 0 <= j < |log| ensures Day(log[j]) in days { DaysHave(log, j); }
    assert Earliest(log, (set d <- days), t, e);
    FirstInDays(log, days, t, e);
    assert FirstOf(FileOrder(log), t) == Some(e);
  }

  lemma {:induction false} EarliestOf(log: seq<Event>, t: string, i: nat) returns (e: nat)
    requires i < |log| && log[i].task == Some(t)
    ensures e < |log| && log[e].task == Some(t)
    ensures forall j :: 0 <= j < |log| && log[j].task == Some(t) ==>
              Day(log[e]) < Day(log[j]) || (Day(log[e]) == Day(log[j]) && e <= j)
  {
    var before, last := log[..|log| - 1], log[|log| - 1];
    if k: nat :| k < |before| && before[k].task == Some(t) {
      e := EarliestOf(before, t, k);
      if last.task == Some(t) && Day(last) < Day(before[e]) {
        e := |before|;
      }
    } else {
      e := i;
    }
  }

  // ---- When the clock never goes back a day ----

  lemma AscendingGrows(s: set<int>, d: int)
    requires forall x :: x in s ==> x < d
    ensures Ascending(s + {d}) == Ascending(s) + [d]
  {
    AscendingAppends(Ascending(s), d);
    AscendingUnique(Ascending(s + {d}), Ascending(s) + [d]);
  }

  lemma {:induction false} InDaysUntouched(log: seq<Event>, e: Event, days: seq<int>)
    requires Day(e) !in days
    ensures InDays(log + [e], days) == InDays(log, days)
  {
    if days != [] {
      InDaysUntouched(log, e, days[..|days| - 1]);
      OfDayGrows(log, e, days[|days| - 1]);
    }
  }

  lemma InDaysEnd(log: seq<Event>, rest: set<int>, day: int)
    requires forall d :: d in rest ==> d < day
    ensures InDays(log, Ascending(rest + {day})) == InDays(log, Ascending(rest)) + OfDay(log, day)
  {
    AscendingGrows(rest, day);
    var earlier := Ascending(rest);
    assert (earlier + [day])[..|earlier|] == earlier;
  }

  lemma FileOrderGrows(log: seq<Event>, e: Event)
    requires forall d :: d in Days(log) ==> d <= Day(e)
    ensures FileOrder(log + [e]) == FileOrder(log) + [e]
  {
    hide InDays; hide OfDay; hide Days; hide Ascending;
    var day := Day(e);
    var rest := Days(log) - {day};
    DaysGrow(log, e);
    assert Days(log + [e]) == rest + {day};
    InDaysEnd(log + [e], rest, day);
    InDaysUntouched(log, e, Ascending(rest));
    OfDayGrows(log, e, day);
    OfDayEmpty(log, day);
    if day in Days(log) {
      assert Days(log) == rest + {day};
      InDaysEnd(log, rest, day);
    } else {
      assert Days(log) == rest;
    }
  }

  /** Under a clock that never goes back a day, name order is write order: reopening finds
      everything as it was. */
  lemma {:induction false} DatedInOrderReopensSame(log: seq<Event>)
    requires DatesInOrder(log)
    ensures FileOrder(log) == log
  {
    if log == [] {
      assert Ascending(Days(log)) == [];
    } else {
      var before, e := log[..|log| - 1], log[|log| - 1];
      DatedInOrderReopensSame(before);
      assert log == before + [e];
      forall d | d in Days(before) ensures d <= Day(e) {
        var i := DayEnds(before, d);
        assert Day(log[i]) <= Day(log[|log| - 1]);
      }
      FileOrderGrows(before, e);
    }
  }
}
