/** A model asked again when it concludes too early: the reminders are replayed in every later view. */
module Reminders {
  import opened Prelude

  const REMINDERS: nat := 2

  datatype Message = Message(role: string, content: string)

  /** A conclusion and the reminder that answered it, and how long the history was then. */
  datatype Insert = Insert(position: nat, conclusion: Message, reminder: Message)

  // ---- Views ----

  /** Insertions were made in the order of the history, none beyond its end. */
  ghost predicate Fits(inserts: seq<Insert>, length: nat) {
    && (forall i, j :: 0 <= i < j < |inserts| ==> inserts[i].position <= inserts[j].position)
    && (forall i :: 0 <= i < |inserts| ==> inserts[i].position <= length)
  }

  function Reached(inserts: seq<Insert>, length: nat): (r: nat)
    ensures r <= length
  {
    if inserts == [] then 0 else Min(inserts[|inserts| - 1].position, length)
  }

  /** The view up to the last insertion. */
  ghost function Opening(inserts: seq<Insert>, history: seq<Message>): seq<Message>
    requires Fits(inserts, |history|)
  {
    if inserts == [] then []
    else
      var before, last := inserts[..|inserts| - 1], inserts[|inserts| - 1];
      assert Reached(before, |history|) <= last.position;
      Opening(before, history) + history[Reached(before, |history|)..last.position] + [last.conclusion, last.reminder]
  }

  ghost function View(inserts: seq<Insert>, history: seq<Message>): seq<Message>
    requires Fits(inserts, |history|)
  {
    Opening(inserts, history) + history[Reached(inserts, |history|)..]
  }

  /** How many insertions stand at or before message `i` of the history. */
  function Before(inserts: seq<Insert>, i: nat): nat {
    if inserts == [] then 0
    else Before(inserts[..|inserts| - 1], i) + if inserts[|inserts| - 1].position <= i then 1 else 0
  }

  lemma {:induction false} AllBefore(inserts: seq<Insert>, i: nat)
    requires forall k :: 0 <= k < |inserts| ==> inserts[k].position <= i
    ensures Before(inserts, i) == |inserts|
  {
    if inserts != [] { AllBefore(inserts[..|inserts| - 1], i); }
  }

  lemma Spliced<T>(a: seq<T>, b: seq<T>, x: T, y: T)
    ensures
      var c := a + b + [x, y];
      && |c| == |a| + |b| + 2 && c[|a| + |b|] == x && c[|a| + |b| + 1] == y
      && (forall i :: 0 <= i < |a| ==> c[i] == a[i])
      && (forall i :: 0 <= i < |b| ==> c[|a| + i] == b[i])
  {
  }

  /** The last insertion, spliced after what comes before it. */
  lemma OpeningEnds(inserts: seq<Insert>, history: seq<Message>)
    requires Fits(inserts, |history|) && inserts != []
    ensures
      var before, last := inserts[..|inserts| - 1], inserts[|inserts| - 1];
      && Fits(before, |history|) && Reached(before, |history|) <= last.position <= |history|
      && Opening(inserts, history) ==
           Opening(before, history) + history[Reached(before, |history|)..last.position]
           + [last.conclusion, last.reminder]
  {
  }

  lemma {:induction false} OpeningLength(inserts: seq<Insert>, history: seq<Message>)
    requires Fits(inserts, |history|)
    ensures |Opening(inserts, history)| == Reached(inserts, |history|) + 2 * |inserts|
  {
    hide Opening;
    if inserts == [] {
      EmptyOpening(history);
    } else {
      OpeningEnds(inserts, history);
      OpeningLength(inserts[..|inserts| - 1], history);
    }
  }

  lemma EmptyOpening(history: seq<Message>)
    ensures Fits([], |history|) && Opening([], history) == []
  {
  }

  lemma {:induction false} OpeningInsert(inserts: seq<Insert>, history: seq<Message>, k: nat)
    requires Fits(inserts, |history|) && k < |inserts|
    ensures inserts[k].position + 2 * k + 1 < |Opening(inserts, history)|
    ensures Opening(inserts, history)[inserts[k].position + 2 * k] == inserts[k].conclusion
    ensures Opening(inserts, history)[inserts[k].position + 2 * k + 1] == inserts[k].reminder
  {
    hide Opening;
    var before, last := inserts[..|inserts| - 1], inserts[|inserts| - 1];
    OpeningEnds(inserts, history);
    OpeningLength(before, history);
    Spliced(Opening(before, history), history[Reached(before, |history|)..last.position],
            last.conclusion, last.reminder);
    if k < |before| { OpeningInsert(before, history, k); }
  }

  lemma {:induction false} OpeningHistory(inserts: seq<Insert>, history: seq<Message>, i: nat)
    requires Fits(inserts, |history|) && i < Reached(inserts, |history|)
    ensures i + 2 * Before(inserts, i) < |Opening(inserts, history)|
    ensures Opening(inserts, history)[i + 2 * Before(inserts, i)] == history[i]
  {
    hide Opening;
    var before, last := inserts[..|inserts| - 1], inserts[|inserts| - 1];
    OpeningEnds(inserts, history);
    OpeningLength(before, history);
    var from := Reached(before, |history|);
    Spliced(Opening(before, history), history[from..last.position], last.conclusion, last.reminder);
    if i < from {
      OpeningHistory(before, history, i);
    } else {
      AllReached(before, |history|, i);
      assert history[from..last.position][i - from] == history[i];
    }
  }

  /** Beyond the last insertion, all of them stand before. */
  lemma AllReached(inserts: seq<Insert>, length: nat, i: nat)
    requires Fits(inserts, length) && Reached(inserts, length) <= i
    ensures Before(inserts, i) == |inserts|
  {
    forall k | 0 <= k < |inserts| ensures inserts[k].position <= i {
      assert k == |inserts| - 1 || inserts[k].position <= inserts[|inserts| - 1].position;
    }
    AllBefore(inserts, i);
  }

  lemma ViewInsert(inserts: seq<Insert>, history: seq<Message>, k: nat)
    requires Fits(inserts, |history|) && k < |inserts|
    ensures
      var view, at := View(inserts, history), inserts[k].position + 2 * k;
      at + 1 < |view| && view[at] == inserts[k].conclusion && view[at + 1] == inserts[k].reminder
  {
    hide Opening;
    OpeningInsert(inserts, history, k);
  }

  lemma ViewHistory(inserts: seq<Insert>, history: seq<Message>, i: nat)
    requires Fits(inserts, |history|) && i < |history|
    ensures
      var view, at := View(inserts, history), i + 2 * Before(inserts, i);
      at < |view| && view[at] == history[i]
  {
    hide Opening;
    OpeningLength(inserts, history);
    var opening, from := Opening(inserts, history), Reached(inserts, |history|);
    if i < from {
      OpeningHistory(inserts, history, i);
    } else {
      AllReached(inserts, |history|, i);
      assert (opening + history[from..])[|opening| + (i - from)] == history[from..][i - from];
    }
  }

  /** What a view is: the history, each message moved by two for every insertion at or before it, and
      each insertion where the history stood when it was made. Nothing else. */
  lemma ViewShape(inserts: seq<Insert>, history: seq<Message>)
    requires Fits(inserts, |history|)
    ensures
      var view := View(inserts, history);
      && |view| == |history| + 2 * |inserts|
      && (forall k :: 0 <= k < |inserts| ==>
            && inserts[k].position + 2 * k + 1 < |view|
            && view[inserts[k].position + 2 * k] == inserts[k].conclusion
            && view[inserts[k].position + 2 * k + 1] == inserts[k].reminder)
      && (forall i: nat :: i < |history| ==>
            && i + 2 * Before(inserts, i) < |view|
            && view[i + 2 * Before(inserts, i)] == history[i])
  {
    hide View; hide Opening; hide Fits;
    ViewLength(inserts, history);
    forall k | 0 <= k < |inserts|
      ensures inserts[k].position + 2 * k + 1 < |View(inserts, history)|
      ensures View(inserts, history)[inserts[k].position + 2 * k] == inserts[k].conclusion
      ensures View(inserts, history)[inserts[k].position + 2 * k + 1] == inserts[k].reminder
    {
      ViewInsert(inserts, history, k);
    }
    forall i: nat | i < |history|
      ensures i + 2 * Before(inserts, i) < |View(inserts, history)|
      ensures View(inserts, history)[i + 2 * Before(inserts, i)] == history[i]
    {
      ViewHistory(inserts, history, i);
    }
  }

  lemma ViewLength(inserts: seq<Insert>, history: seq<Message>)
    requires Fits(inserts, |history|)
    ensures |View(inserts, history)| == |history| + 2 * |inserts|
  {
    OpeningLength(inserts, history);
  }

  lemma {:induction false} OpeningStays(inserts: seq<Insert>, history: seq<Message>, longer: seq<Message>)
    requires Fits(inserts, |history|) && history <= longer
    ensures Fits(inserts, |longer|) && Opening(inserts, longer) == Opening(inserts, history)
    ensures Reached(inserts, |longer|) == Reached(inserts, |history|)
  {
    if inserts != [] {
      var before, last := inserts[..|inserts| - 1], inserts[|inserts| - 1];
      OpeningStays(before, history, longer);
      assert Reached(before, |history|) <= last.position <= |history|;
      assert longer[..|history|] == history;
      assert longer[Reached(before, |history|)..last.position] == history[Reached(before, |history|)..last.position];
    }
  }

  /** With a history that only grows and insertions made at its end, a view starts every later view. */
  lemma ViewGrows(inserts: seq<Insert>, history: seq<Message>, longer: seq<Message>)
    requires Fits(inserts, |history|) && history <= longer
    ensures Fits(inserts, |longer|) && View(inserts, history) <= View(inserts, longer)
  {
    OpeningStays(inserts, history, longer);
    var from := Reached(inserts, |history|);
    assert longer[..|history|] == history;
    assert longer[from..] == history[from..] + longer[|history|..];
  }

  lemma InsertGrows(inserts: seq<Insert>, history: seq<Message>, insert: Insert)
    requires Fits(inserts, |history|) && insert.position == |history|
    ensures Fits(inserts + [insert], |history|)
    ensures View(inserts + [insert], history) == View(inserts, history) + [insert.conclusion, insert.reminder]
  {
    assert (inserts + [insert])[..|inserts|] == inserts;
    assert history[|history|..] == [];
  }

  /** Each view starts the next, and the last one starts `current`. */
  ghost predicate Nested(views: seq<seq<Message>>, current: seq<Message>) {
    && (forall i, j :: 0 <= i < j < |views| ==> views[i] <= views[j])
    && (forall i :: 0 <= i < |views| ==> views[i] <= current)
  }

  lemma NestedAsk(views: seq<seq<Message>>, current: seq<Message>)
    requires Nested(views, current)
    ensures Nested(views + [current], current)
  {
  }

  lemma NestedGrows(views: seq<seq<Message>>, current: seq<Message>, longer: seq<Message>)
    requires Nested(views, current) && current <= longer
    ensures Nested(views, longer)
  {
    forall i | 0 <= i < |views| ensures views[i] <= longer {
      assert longer[..|current|] == current;
    }
  }

  lemma InsertKeepsNested(inserts: seq<Insert>, history: seq<Message>, insert: Insert, views: seq<seq<Message>>)
    requires Fits(inserts, |history|) && insert.position == |history| && Nested(views, View(inserts, history))
    ensures Fits(inserts + [insert], |history|) && Nested(views, View(inserts + [insert], history))
  {
    InsertGrows(inserts, history, insert);
    NestedGrows(views, View(inserts, history), View(inserts + [insert], history));
  }

  lemma LongerKeepsNested(inserts: seq<Insert>, history: seq<Message>, longer: seq<Message>, views: seq<seq<Message>>)
    requires Fits(inserts, |history|) && history <= longer && Nested(views, View(inserts, history))
    ensures Fits(inserts, |longer|) && Nested(views, View(inserts, longer))
  {
    ViewGrows(inserts, history, longer);
    NestedGrows(views, View(inserts, history), View(inserts, longer));
  }

  // ---- The model seen through the deliverables ----

  datatype Turn = Final(text: string) | Other

  /** The outside, by question number: what the model answers and for how many tokens, which
      deliverables are missing then, and whether the reminder can be recorded. */
  datatype Outside = Outside(
    answer: nat -> Option<(Turn, nat)>, missing: nat -> seq<string>, recorded: nat -> bool,
    text: (seq<string>, nat) -> string)

  datatype TurnError = ModelFailed | NotRecorded

  function Tokens(outside: Outside, first: nat, next: nat): nat
    requires first <= next
    decreases next - first
  {
    if first == next then 0
    else
      Tokens(outside, first, next - 1)
      + match outside.answer(next - 1) case Some((_, n)) => n case None => 0
  }

  lemma NoTokens(outside: Outside, first: nat)
    ensures Tokens(outside, first, first) == 0
  {
  }

  lemma TokensGrow(outside: Outside, first: nat, next: nat)
    requires first <= next && outside.answer(next).Some?
    ensures Tokens(outside, first, next + 1) == Tokens(outside, first, next) + outside.answer(next).value.1
  {
  }

  class Reminder {
    const outside: Outside
    var inserts: seq<Insert>
    var left: nat
    /** Every view sent to the model, and the last history they were made from. */
    ghost var views: seq<seq<Message>>
    ghost var seen: seq<Message>
    var asked: nat

    constructor (outside: Outside)
      ensures Valid() && this.outside == outside && left == 2
      ensures views == [] && seen == [] && inserts == [] && asked == 0
    {
      this.outside := outside;
      inserts, left, asked := [], REMINDERS, 0;
      views, seen := [], [];
    }

    /** Each view starts the next, and the last one starts what would be sent now. */
    ghost predicate Valid()
      reads this
    {
      && |views| == asked
      && Fits(inserts, |seen|) && left + |inserts| <= REMINDERS
      && Nested(views, View(inserts, seen))
    }

    /** At this question the model concluded too early: its conclusion and the reminder of that rank, naming
        what was missing then, stand at the end of the history. */
    ghost predicate Reminded(insert: Insert, history: seq<Message>, question: nat, rank: int)
    {
      && insert.position == |history| && rank >= 0
      && outside.answer(question).Some? && outside.answer(question).value.0.Final?
      && outside.missing(question) != [] && outside.recorded(question)
      && insert.conclusion == Message("assistant", outside.answer(question).value.0.text)
      && insert.reminder == Message("user", outside.text(outside.missing(question), rank))
    }

    /** From this insertion on they were made one question after the other, the ranks counting on. */
    ghost predicate AllReminded(inserts: seq<Insert>, first: nat, history: seq<Message>, question: nat, rank: int) {
      forall k: nat :: first <= k < |inserts| ==>
        Reminded(inserts[k], history, question + (k - first), rank + (k - first))
    }

    lemma OneMoreReminded(inserts: seq<Insert>, first: nat, history: seq<Message>, question: nat, rank: int,
                          insert: Insert)
      requires AllReminded(inserts, first, history, question, rank) && first <= |inserts|
      requires Reminded(insert, history, question + (|inserts| - first), rank + (|inserts| - first))
      ensures AllReminded(inserts + [insert], first, history, question, rank)
    {
      hide Reminded;
    }

    lemma NothingReminded(inserts: seq<Insert>, history: seq<Message>, question: nat, rank: int)
      ensures AllReminded(inserts, |inserts|, history, question, rank)
    {
    }

    lemma RemindedNow(text: string, history: seq<Message>, question: nat, rank: nat)
      requires outside.answer(question).Some? && outside.answer(question).value.0 == Final(text)
      requires outside.missing(question) != [] && outside.recorded(question)
      ensures
        var reminder := Message("user", outside.text(outside.missing(question), rank));
        Reminded(Insert(|history|, Message("assistant", text), reminder), history, question, rank)
    {
    }

    method BuildView(history: seq<Message>) returns (view: seq<Message>)
      requires Fits(inserts, |history|)
      ensures view == View(inserts, history)
    {
      view := [];
      var from := 0;
      for k := 0 to |inserts|
        invariant Fits(inserts[..k], |history|)
        invariant from == Reached(inserts[..k], |history|) && view == Opening(inserts[..k], history)
      {
        var position := Min(inserts[k].position, |history|);
        assert inserts[..k + 1][..k] == inserts[..k];
        view := view + history[from..position] + [inserts[k].conclusion, inserts[k].reminder];
        from := position;
      }
      assert inserts[..|inserts|] == inserts;
      view := view + history[from..];
    }

    /** Asks, and asks again with a reminder while a conclusion comes before the deliverables. */
    method NextTurn(history: seq<Message>) returns (r: Result<(Turn, nat), TurnError>)
      requires Valid() && seen <= history
      modifies this
      ensures Valid() && seen == history
      ensures old(views) <= views && old(inserts) <= inserts
      ensures old(asked) < asked <= old(asked) + 1 + (old(left) - left) <= old(asked) + 1 + old(left)
      ensures r.Ok? ==> r.value.1 == Tokens(outside, old(asked), asked)
      ensures r.Ok? ==> outside.answer(asked - 1).Some? && r.value.0 == outside.answer(asked - 1).value.0
      ensures r.Ok? && r.value.0.Final? ==> outside.missing(asked - 1) == [] || left == 0
      ensures r.Ok? ==> |inserts| == |old(inserts)| + old(left) - left
      ensures AllReminded(inserts, |old(inserts)|, history, old(asked), 3 - old(left))
      ensures r.Err? ==>
                if r.error == ModelFailed then outside.answer(asked - 1).None? else !outside.recorded(asked - 1)
    {
      hide View; hide Fits; hide Nested; hide Reminded; hide AllReminded; hide Tokens; hide Reached; hide Min;
      NothingReminded(inserts, history, asked, 3 - left);
      NoTokens(outside, asked);
      LongerKeepsNested(inserts, seen, history, views);
      seen := history;
      var total := 0;
      while true
        invariant Valid() && seen == history
        invariant old(views) <= views && old(inserts) <= inserts
        invariant asked == old(asked) + (old(left) - left) && left <= old(left)
        invariant total == Tokens(outside, old(asked), asked)
        invariant |inserts| == |old(inserts)| + old(left) - left
        invariant AllReminded(inserts, |old(inserts)|, history, old(asked), 3 - old(left))
        decreases left
      {
        var view := BuildView(history);
        var question := asked;
        NestedAsk(views, view);
        views, asked := views + [view], asked + 1;
        var answer := outside.answer(question);
        if answer.None? {
          return Err(ModelFailed);
        }
        TokensGrow(outside, old(asked), question);
        var (turn, tokens) := answer.value;
        total := total + tokens;
        if turn.Other? {
          return Ok((turn, total));
        }
        var missing := outside.missing(question);
        if missing == [] || left == 0 {
          return Ok((turn, total));
        }
        left := left - 1;
        var rank := REMINDERS - left;
        if !outside.recorded(question) {
          return Err(NotRecorded);
        }
        var insert := Insert(|history|, Message("assistant", turn.text), Message("user", outside.text(missing, rank)));
        RemindedNow(turn.text, history, question, rank);
        OneMoreReminded(inserts, |old(inserts)|, history, old(asked), 3 - old(left), insert);
        InsertKeepsNested(inserts, history, insert, views);
        inserts := inserts + [insert];
      }
    }
  }
}
