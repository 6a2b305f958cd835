/** The audit journal: day files that only grow, and the tables that find events in them. */
module Store {
  import opened Prelude
  import opened Canon
  import opened Lines
  import opened Ledger
  import opened DayFiles
  import opened Views
  import opened Reopening

  // ---- Seals ----

  datatype Stamp = Stamp(upTo: nat, head: string, signature: string, signer: string)

  /** How stamps are written as payloads, and which ones have a good signature. */
  datatype Notary = Notary(write: Stamp -> Json, read: Json -> Option<Stamp>, verify: Stamp -> bool) {
    ghost predicate Faithful() {
      forall s :: read(write(s)) == Some(s) && Harmless(write(s))
    }
  }

  /** A signing key: what it signs verifies under its own public key. */
  datatype Sealer = Sealer(public: string, sign: (nat, string) -> string) {
    function Stamped(upTo: nat, head: string): Stamp {
      Stamp(upTo, head, sign(upTo, head), public)
    }

    ghost predicate Sound(notary: Notary) {
      forall n, h :: notary.verify(Stamped(n, h))
    }
  }

  /** Event `i` is a seal naming its predecessor's number and hash, with a good signature. */
  ghost predicate SealsBefore(notary: Notary, log: seq<Event>, i: nat)
    requires i < |log|
  {
    && notary.read(log[i].payload).Some?
    && var stamp := notary.read(log[i].payload).value;
    && notary.verify(stamp)
    && stamp.upTo == (if i == 0 then 0 else i - 1)
    && stamp.head == HashBefore(log, i)
  }

  /** Every seal of the log is one. */
  ghost predicate Sealed(notary: Notary, log: seq<Event>) {
    forall i: nat :: i < |log| && log[i].kind == LedgerSeal ==> SealsBefore(notary, log, i)
  }

  function SealCount(es: seq<Event>): nat {
    if es == [] then 0 else SealCount(es[..|es| - 1]) + if es[|es| - 1].kind == LedgerSeal then 1 else 0
  }

  // ---- The tables ----

  /** The event stands at this place of the files. */
  ghost predicate Stands(codec: Codec, log: seq<Event>, e: Event, place: Place) {
    exists i: nat :: i < |log| && log[i] == e && PlaceOf(codec, log, i) == place
  }

  /** The event written under this key stands there. */
  ghost predicate KeyStands(codec: Codec, log: seq<Event>, key: string, place: Place) {
    exists i: nat :: i < |log| && log[i].idem == Some(key) && PlaceOf(codec, log, i) == place
  }

  /** Every number leads to the place of an event that has it. */
  ghost predicate IndexHolds(codec: Codec, log: seq<Event>, index: map<nat, Place>) {
    && (forall i :: 0 <= i < |log| ==> log[i].number in index)
    && (forall n :: n in index ==> Leads(codec, log, index[n], n))
  }

  ghost predicate Leads(codec: Codec, log: seq<Event>, place: Place, number: nat) {
    exists i: nat :: i < |log| && log[i].number == number && PlaceOf(codec, log, i) == place
  }

  /** The keys of the table are those of the log, each leading to the number of its event. */
  ghost predicate IdemsHold(log: seq<Event>, idems: map<string, nat>) {
    && (forall i :: 0 <= i < |log| && log[i].idem.Some? ==> log[i].idem.value in idems)
    && (forall k :: k in idems ==> KeyLeads(log, k, idems[k]))
  }

  ghost predicate KeyLeads(log: seq<Event>, key: string, number: nat) {
    exists i: nat :: i < |log| && log[i].idem == Some(key) && log[i].number == number
  }

  /** No idempotence key is written twice. */
  ghost predicate KeysOnce(log: seq<Event>) {
    forall i, j :: 0 <= i < j < |log| ==> log[i].idem.None? || log[i].idem != log[j].idem
  }

  ghost predicate DistinctNumbers(log: seq<Event>) {
    forall i, j :: 0 <= i < j < |log| ==> log[i].number != log[j].number
  }

  ghost predicate LinesHold(log: seq<Event>, lines: map<int, nat>) {
    && lines.Keys == Days(log)
    && forall d :: d in lines ==> lines[d] == |OfDay(log, d)|
  }

  ghost predicate TasksHold(log: seq<Event>, firsts: map<string, nat>) {
    forall t :: t in firsts <==> FirstOf(log, t).Some?
  }

  // The tables are functions of the log: whatever built them, they are the same.

  lemma IndexOneWay(codec: Codec, log: seq<Event>, a: map<nat, Place>, b: map<nat, Place>)
    requires IndexHolds(codec, log, a) && IndexHolds(codec, log, b) && DistinctNumbers(log)
    ensures a == b
  {
    forall n ensures n in a <==> n in b {
      if n in a { assert Leads(codec, log, a[n], n); }
      if n in b { assert Leads(codec, log, b[n], n); }
    }
    forall n | n in a ensures a[n] == b[n] {
      var _ := IndexLeads(codec, log, a, n);
      var _ := IndexLeads(codec, log, b, n);
    }
  }

  /** With distinct numbers, a number leads to the place of its only event. */
  lemma IndexLeads(codec: Codec, log: seq<Event>, index: map<nat, Place>, n: nat) returns (i: nat)
    requires IndexHolds(codec, log, index) && n in index
    ensures i < |log| && log[i].number == n && PlaceOf(codec, log, i) == index[n]
    ensures DistinctNumbers(log) ==>
              forall j: nat :: j < |log| && log[j].number == n ==> PlaceOf(codec, log, j) == index[n]
  {
    assert Leads(codec, log, index[n], n);
    i :| i < |log| && log[i].number == n && PlaceOf(codec, log, i) == index[n];
  }

  lemma IdemsOneWay(log: seq<Event>, a: map<string, nat>, b: map<string, nat>)
    requires IdemsHold(log, a) && IdemsHold(log, b) && KeysOnce(log)
    ensures a == b
  {
    forall k ensures k in a <==> k in b {
      if k in a { assert KeyLeads(log, k, a[k]); }
      if k in b { assert KeyLeads(log, k, b[k]); }
    }
    forall k | k in a ensures a[k] == b[k] {
      assert KeyLeads(log, k, a[k]) && KeyLeads(log, k, b[k]);
    }
  }

  lemma LinesOneWay(log: seq<Event>, a: map<int, nat>, b: map<int, nat>)
    requires LinesHold(log, a) && LinesHold(log, b)
    ensures a == b
  {
    assert forall d :: d in a.Keys <==> d in b.Keys;
    assert forall d :: d in a ==> a[d] == b[d];
  }

  lemma IndexGrows(codec: Codec, log: seq<Event>, index: map<nat, Place>, e: Event)
    requires IndexHolds(codec, log, index)
    ensures IndexHolds(codec, log + [e], index[e.number := PlaceOf(codec, log + [e], |log|)])
  {
    var log' := log + [e];
    var index' := index[e.number := PlaceOf(codec, log', |log|)];
    forall n | n in index' ensures Leads(codec, log', index'[n], n) {
      if n == e.number {
        assert log'[|log|].number == n;
      } else {
        assert Leads(codec, log, index[n], n);
        var i: nat :| i < |log| && log[i].number == n && PlaceOf(codec, log, i) == index[n];
        PlaceKept(codec, log, e, i);
        assert log'[i].number == n;
      }
    }
  }

  function WithKey(idems: map<string, nat>, e: Event): map<string, nat> {
    if e.idem.Some? then idems[e.idem.value := e.number] else idems
  }

  lemma IdemsGrow(log: seq<Event>, idems: map<string, nat>, e: Event)
    requires IdemsHold(log, idems)
    ensures IdemsHold(log + [e], WithKey(idems, e))
    ensures KeysOnce(log) && (e.idem.None? || e.idem.value !in idems) ==> KeysOnce(log + [e])
  {
    var log', idems' := log + [e], WithKey(idems, e);
    forall k | k in idems' ensures KeyLeads(log', k, idems'[k]) {
      if e.idem == Some(k) {
        assert log'[|log|].idem == Some(k);
      } else {
        assert KeyLeads(log, k, idems[k]);
        var i: nat :| i < |log| && log[i].idem == Some(k) && log[i].number == idems[k];
        assert log'[i].idem == Some(k);
      }
    }
  }

  lemma LinesGrow(log: seq<Event>, lines: map<int, nat>, e: Event)
    requires LinesHold(log, lines)
    ensures LinesBefore(lines, Day(e)) == |OfDay(log, Day(e))|
    ensures LinesHold(log + [e], lines[Day(e) := LinesBefore(lines, Day(e)) + 1])
  {
    DaysGrow(log, e);
    OfDayEmpty(log, Day(e));
    forall d ensures |OfDay(log + [e], d)| == |OfDay(log, d)| + if Day(e) == d then 1 else 0 {
      OfDayGrows(log, e, d);
    }
  }

  /** A day without a count has no file yet. */
  function LinesBefore(lines: map<int, nat>, day: int): nat {
    if day in lines then lines[day] else 0
  }

  lemma TasksGrow(log: seq<Event>, firsts: map<string, nat>, e: Event)
    requires TasksHold(log, firsts)
    ensures TasksHold(log + [e], WithFirst(firsts, e))
  {
    forall t ensures t in WithFirst(firsts, e) <==> FirstOf(log + [e], t).Some? {
      FirstOfGrows(log, e, t);
    }
  }

  lemma PlaceOfLast(codec: Codec, log: seq<Event>, e: Event)
    ensures PlaceOf(codec, log + [e], |log|) ==
            Place(Day(e), |OfDay(log, Day(e))|, |Text(codec, OfDay(log, Day(e)))|)
  {
    assert (log + [e])[..|log|] == log;
  }

  // ---- Seals along a growing log ----

  lemma SealedGrows(notary: Notary, log: seq<Event>, e: Event)
    requires Sealed(notary, log)
    requires e.kind == LedgerSeal ==> SealsBefore(notary, log + [e], |log|)
    ensures Sealed(notary, log + [e])
  {
    forall i: nat | i < |log + [e]| && (log + [e])[i].kind == LedgerSeal
      ensures SealsBefore(notary, log + [e], i)
    {
      if i < |log| { assert SealsBefore(notary, log, i); }
    }
  }

  lemma SealWritten(notary: Notary, log: seq<Event>, e: Event, stamp: Stamp)
    requires notary.read(e.payload) == Some(stamp) && notary.verify(stamp) && e.kind == LedgerSeal
    requires stamp.upTo == (if |log| == 0 then 0 else |log| - 1) && stamp.head == HashBefore(log, |log|)
    ensures SealsBefore(notary, log + [e], |log|)
    ensures SinceOf(log + [e]) == 0
  {
  }

  lemma SeekLines(codec: Codec, es: seq<Event>, m: nat)
    requires codec.Faithful() && m <= |es|
    ensures
      var byte := |Text(codec, es[..m])|;
      && byte <= |Text(codec, es)|
      && SplitTerminator(Text(codec, es)[byte..]) == Encoded(codec, es[m..])
  {
    assert es == es[..m] + es[m..];
    TextSplits(codec, es[..m], es[m..]);
    TextLines(codec, es[m..]);
    assert Text(codec, es)[|Text(codec, es[..m])|..] == Text(codec, es[m..]);
  }

  /** What the line at an event's place reads as. */
  lemma PlaceReads(codec: Codec, log: seq<Event>, files: map<int, string>, i: nat)
    requires codec.Faithful() && FilesHold(codec, log, files) && i < |log|
    ensures
      var place := PlaceOf(codec, log, i);
      && place.day in files
      && place.byte <= |files[place.day]|
      && var lines := SplitTerminator(files[place.day][place.byte..]);
      && lines != [] && codec.decode(lines[0]) == Some(log[i])
  {
    DaysHave(log, i);
    var es := OfDay(log, Day(log[i]));
    RankOf(log, i);
    SeekLines(codec, es, |OfDay(log[..i], Day(log[i]))|);
  }

  /** An event's rank in its day is where the day's events have it. */
  lemma {:induction false} RankOf(log: seq<Event>, i: nat)
    requires i < |log|
    ensures
      var es, before := OfDay(log, Day(log[i])), OfDay(log[..i], Day(log[i]));
      |before| < |es| && es[|before|] == log[i] && es[..|before|] == before
  {
    if i < |log| - 1 {
      RankOf(log[..|log| - 1], i);
      assert log[..|log| - 1][..i] == log[..i];
    }
  }

  ghost predicate TablesHold(codec: Codec, log: seq<Event>, files: map<int, string>, index: map<nat, Place>,
                             idems: map<string, nat>, lines: map<int, nat>, firsts: map<string, nat>) {
    && FilesHold(codec, log, files)
    && IndexHolds(codec, log, index)
    && IdemsHold(log, idems) && KeysOnce(log)
    && LinesHold(log, lines)
    && TasksHold(log, firsts)
  }

  lemma TablesGrow(codec: Codec, log: seq<Event>, files: map<int, string>, index: map<nat, Place>,
                   idems: map<string, nat>, lines: map<int, nat>, firsts: map<string, nat>, e: Event)
    requires TablesHold(codec, log, files, index, idems, lines, firsts)
    requires e.idem.None? || e.idem.value !in idems
    ensures
      var day := Day(e);
      var place := Place(day, LinesBefore(lines, day), |FileText(files, day)|);
      TablesHold(codec, log + [e], files[day := FileText(files, day) + codec.encode(e) + "\n"],
                 index[e.number := place], WithKey(idems, e), lines[day := LinesBefore(lines, day) + 1],
                 WithFirst(firsts, e))
  {
    FilesGrow(codec, log, files, e);
    FileTextHolds(codec, log, files, Day(e));
    IndexGrows(codec, log, index, e);
    PlaceOfLast(codec, log, e);
    IdemsGrow(log, idems, e);
    LinesGrow(log, lines, e);
    TasksGrow(log, firsts, e);
  }

  /** Numbers are 0, 1, 2… in the order of the writes, each event is linked to the one before,
      and `next`, `head` and `firsts` are where the chain ends and where each task starts. */
  ghost predicate FollowsOn(hash: Event -> string, log: seq<Event>, next: nat, head: string, firsts: map<string, nat>) {
    && Numbered(log) && next == |log|
    && Chained(hash, log) && head == HashBefore(log, |log|)
    && Scanned(log, firsts)
  }

  lemma OrderGrows(hash: Event -> string, log: seq<Event>, next: nat, head: string, firsts: map<string, nat>,
                   draft: Draft)
    requires FollowsOn(hash, log, next, head, firsts) && Harmless(draft.payload)
    ensures
      var e := Seal(hash, draft, next, head).value;
      FollowsOn(hash, log + [e], next + 1, e.hash.GetOr(GENESIS), WithFirst(firsts, e))
  {
    ChainGrows(hash, log, draft);
    ScanGrows(log, firsts, Seal(hash, draft, next, head).value);
  }

  // ---- Reading a suffix ----

  /** Where to start reading a day file, and the number expected there. */
  datatype Start = Start(line: nat, byte: nat, number: nat)

  /** Each day with a place among these numbers has a start, its lowest line. */
  ghost predicate StartsHold(index: map<nat, Place>, numbers: seq<int>, starts: map<int, Start>) {
    && (forall n: nat :: n in numbers && n in index ==>
          index[n].day in starts && starts[index[n].day].line <= index[n].line)
    && (forall d :: d in starts ==>
          && starts[d].number in numbers && starts[d].number in index
          && index[starts[d].number] == Place(d, starts[d].line, starts[d].byte))
  }

  function WithStart(starts: map<int, Start>, place: Place, number: nat): map<int, Start> {
    if place.day in starts && starts[place.day].line <= place.line then starts
    else starts[place.day := Start(place.line, place.byte, number)]
  }

  lemma StartsGrow(index: map<nat, Place>, numbers: seq<int>, starts: map<int, Start>, n: nat)
    requires StartsHold(index, numbers, starts) && n in index
    ensures StartsHold(index, numbers + [n], WithStart(starts, index[n], n))
  {
  }

  /** Before the lowest line of a day that leads to a number from `from` on, all numbers are lower. */
  lemma EarlierAreLower(codec: Codec, log: seq<Event>, index: map<nat, Place>, day: int, line: nat, from: nat)
    requires IndexHolds(codec, log, index) && DistinctNumbers(log)
    requires forall n: nat :: n in index && n >= from && index[n].day == day ==> line <= index[n].line
    ensures forall j :: 0 <= j < line && j < |OfDay(log, day)| ==> OfDay(log, day)[j].number < from
  {
    forall j | 0 <= j < line && j < |OfDay(log, day)| ensures OfDay(log, day)[j].number < from {
      var i := NthOfDay(codec, log, day, j);
      var n := log[i].number;
      var _ := IndexLeads(codec, log, index, n);
    }
  }

  lemma {:induction false} NoneSelected(es: seq<Event>, p: Event -> bool)
    requires forall e :: e in es ==> !p(e)
    ensures Select(es, p) == []
  {
    if es != [] { NoneSelected(es[..|es| - 1], p); }
  }

  ghost predicate IsPlaceOf(index: map<nat, Place>, day: int, start: Start) {
    start.number in index && index[start.number] == Place(day, start.line, start.byte)
  }

  /** An indexed place is where some event of its day starts. */
  lemma StartStands(codec: Codec, log: seq<Event>, index: map<nat, Place>, day: int, start: Start)
    requires IndexHolds(codec, log, index) && IsPlaceOf(index, day, start)
    ensures
      var es := OfDay(log, day);
      day in Days(log) && start.line <= |es| && start.byte == |Text(codec, es[..start.line])|
  {
    hide OfDay; hide Text; hide Days;
    var i := IndexLeads(codec, log, index, start.number);
    DaysHave(log, i);
    RankOf(log, i);
  }

  /** The line of a start holds an event of its number. */
  lemma StartFirst(codec: Codec, log: seq<Event>, index: map<nat, Place>, day: int, start: Start)
    requires IndexHolds(codec, log, index) && IsPlaceOf(index, day, start)
    ensures start.line < |OfDay(log, day)| && OfDay(log, day)[start.line].number == start.number
  {
    hide OfDay; hide Text;
    var i := IndexLeads(codec, log, index, start.number);
    RankOf(log, i);
  }

  /** Some number from `from` on leads to this line of the day or to one before it. */
  ghost predicate LedTo(index: map<nat, Place>, from: nat, day: int, line: nat) {
    exists n :: n in index && n >= from && index[n].day == day && index[n].line <= line
  }

  /** What reading from a number on comes across: each file is read from the lowest line a number from
      `from` on leads to. When numbers repeat an earlier event of the number has no entry of its own. */
  ghost predicate FoundFrom(log: seq<Event>, index: map<nat, Place>, e: Event, from: nat) {
    && e.number >= from
    && exists i: nat :: i < |log| && log[i] == e && LedTo(index, from, Day(e), |OfDay(log[..i], Day(e))|)
  }

  /** An event written over by a later one of its number is missed, unless its day has a higher number. */
  lemma RepeatedIsMissed(codec: Codec, log: seq<Event>, index: map<nat, Place>, e: Event, last: Event)
    requires IndexHolds(codec, log, index) && e in log
    requires last.number == e.number && Day(last) != Day(e)
    requires forall n :: n in index && n > e.number ==> index[n].day != Day(e)
    ensures
      var log', index' := log + [last], index[last.number := PlaceOf(codec, log + [last], |log|)];
      IndexHolds(codec, log', index') && e in log' && !FoundFrom(log', index', e, e.number)
  {
    hide OfDay; hide IndexHolds;
    IndexGrows(codec, log, index, last);
  }

  lemma TailHas(codec: Codec, log: seq<Event>, day: int, line: nat, e: Event)
    requires line <= |OfDay(log, day)|
    ensures e in OfDay(log, day)[line..] <==>
              exists i: nat :: i < |log| && log[i] == e && Day(e) == day && line <= |OfDay(log[..i], day)|
  {
    hide OfDay; hide Text;
    var tail := OfDay(log, day)[line..];
    if e in tail {
      var m: nat :| m < |tail| && tail[m] == e;
      var i := NthOfDay(codec, log, day, line + m);
    }
    forall i: nat | i < |log| && log[i] == e && Day(e) == day && line <= |OfDay(log[..i], day)| ensures e in tail {
      RankOf(log, i);
      assert tail[|OfDay(log[..i], day)| - line] == e;
    }
  }

  /** The starts are the lowest lines led to, and each is the place of a number. */
  lemma StartsLead(index: map<nat, Place>, numbers: seq<int>, starts: map<int, Start>, from: nat)
    requires StartsHold(index, numbers, starts)
    requires forall n :: n in numbers <==> n in index && n >= from
    ensures forall d :: d in starts ==> IsPlaceOf(index, d, starts[d])
    ensures forall d: int, line: nat :: LedTo(index, from, d, line) <==> d in starts && starts[d].line <= line
  {
    forall d: int, line: nat ensures LedTo(index, from, d, line) <==> d in starts && starts[d].line <= line {
      if LedTo(index, from, d, line) {
        var n :| n in index && n >= from && index[n].day == d && index[n].line <= line;
        assert n in numbers;
      }
      if d in starts && starts[d].line <= line { assert starts[d].number in index; }
    }
  }

  /** What one day file gives, read from its start on. */
  lemma DayFound(codec: Codec, log: seq<Event>, index: map<nat, Place>, day: int, start: nat, from: nat, e: Event)
    requires start <= |OfDay(log, day)|
    requires forall line: nat :: LedTo(index, from, day, line) <==> start <= line
    ensures e in Select(OfDay(log, day)[start..], From(from)) <==> Day(e) == day && FoundFrom(log, index, e, from)
  {
    hide OfDay; hide Select; hide LedTo;
    SelectIn(OfDay(log, day)[start..], From(from), e);
    TailHas(codec, log, day, start, e);
  }

  /** Reading from the start of a day, or reading the whole day, selects the same events. */
  lemma StartSelects(codec: Codec, log: seq<Event>, index: map<nat, Place>, day: int, start: Start, from: nat)
    requires IndexHolds(codec, log, index) && DistinctNumbers(log) && start.line <= |OfDay(log, day)|
    requires forall n: nat :: n in index && n >= from && index[n].day == day ==> start.line <= index[n].line
    ensures Select(OfDay(log, day)[start.line..], From(from)) == Select(OfDay(log, day), From(from))
  {
    hide Select; hide OfDay; hide Text; hide Days;
    EarlierAreLower(codec, log, index, day, start.line, from);
    hide IndexHolds; hide DistinctNumbers;
    SkipLower(OfDay(log, day), start.line, from);
  }

  lemma SkipLower(es: seq<Event>, line: nat, from: nat)
    requires line <= |es| && forall j :: 0 <= j < line ==> es[j].number < from
    ensures Select(es[line..], From(from)) == Select(es, From(from))
  {
    hide Select;
    var early := es[..line];
    forall e | e in early ensures !From(from)(e) {
      var j :| 0 <= j < |early| && early[j] == e;
    }
    NoneSelected(early, From(from));
    SelectSplits(early, es[line..], From(from));
    assert es == early + es[line..];
  }

  /** Sorting what the days with an event from `from` on select gives the end of the reading order. */
  lemma SelectedDaysSorted(log: seq<Event>, days: seq<int>, from: nat)
    requires DistinctNumbers(log)
    requires forall i, j :: 0 <= i < j < |days| ==> days[i] < days[j]
    requires forall e :: e in log && e.number >= from ==> Day(e) in days
    ensures SortByNumber(Select(InDays(log, days), From(from))) == Select(ReadOrder(log), From(from))
  {
    hide Select; hide SortByNumber; hide InDays; hide ReadOrder; hide NonDescending;
    var selected, all := Select(InDays(log, days), From(from)), ReadOrder(log);
    ReadOrderHolds(log);
    SelectSorted(all, From(from));
    SortSorts(selected);
    forall e ensures multiset(selected)[e] == multiset(Select(all, From(from)))[e] {
      SelectCounts(InDays(log, days), From(from), e);
      SelectCounts(all, From(from), e);
      InDaysCounts(log, days, e);
      assert e in log <==> multiset(log)[e] > 0;
    }
    assert multiset(selected) == multiset(Select(all, From(from)));
    SelectedApart(log, from);
    SortedOneWay(Select(all, From(from)), SortByNumber(selected));
  }

  lemma SelectedApart(log: seq<Event>, from: nat)
    requires DistinctNumbers(log)
    ensures OneEventPerNumber(Select(ReadOrder(log), From(from)))
  {
    hide Select; hide ReadOrder;
    var all := ReadOrder(log);
    ReadOrderHolds(log);
    forall x, y | x in Select(all, From(from)) && y in Select(all, From(from)) && x.number == y.number ensures x == y {
      SelectIn(all, From(from), x);
      SelectIn(all, From(from), y);
    }
  }

  // ---- Rebuilding the tables ----

  /** What the tables are when these events of the log have been read. */
  ghost predicate Reading(codec: Codec, log: seq<Event>, seen: seq<Event>, index: map<nat, Place>,
                          idems: map<string, nat>, firsts: map<string, nat>) {
    && (forall n :: n in index ==> Leads(codec, log, index[n], n))
    && (forall e :: e in seen ==> e.number in index)
    && (forall k :: k in idems ==> KeyLeads(log, k, idems[k]))
    && (forall e :: e in seen && e.idem.Some? ==> e.idem.value in idems)
    && Scanned(seen, firsts)
  }

  /** These days were counted, and no other. */
  ghost predicate LinesRead(log: seq<Event>, days: seq<int>, lines: map<int, nat>) {
    && (forall d :: d in lines <==> d in days)
    && (forall d :: d in lines ==> lines[d] == |OfDay(log, d)|)
  }

  lemma LinesReadMore(log: seq<Event>, days: seq<int>, lines: map<int, nat>, day: int)
    requires LinesRead(log, days, lines)
    ensures LinesRead(log, days + [day], lines[day := |OfDay(log, day)|])
  {
    hide OfDay;
  }

  lemma AllLinesRead(codec: Codec, log: seq<Event>, files: map<int, string>, lines: map<int, nat>)
    requires FilesHold(codec, log, files) && LinesRead(log, Ascending(files.Keys), lines)
    ensures LinesHold(log, lines)
  {
    hide OfDay; hide Ascending;
    assert forall d :: d in lines.Keys <==> d in files.Keys;
  }

  lemma NothingRead(codec: Codec, log: seq<Event>)
    ensures Reading(codec, log, [], map[], map[], map[])
    ensures NextOf([]) == 0 && HeadOf([]) == GENESIS && SinceOf([]) == 0
    ensures LinesRead(log, [], map[])
  {
  }

  lemma NameOrder(codec: Codec, log: seq<Event>, files: map<int, string>)
    requires FilesHold(codec, log, files)
    ensures InDays(log, Ascending(files.Keys)) == FileOrder(log)
  {
  }

  lemma ReadingGrows(codec: Codec, log: seq<Event>, seen: seq<Event>, index: map<nat, Place>,
                     idems: map<string, nat>, firsts: map<string, nat>, i: nat)
    requires Reading(codec, log, seen, index, idems, firsts) && i < |log|
    ensures
      var e := log[i];
      Reading(codec, log, seen + [e], index[e.number := PlaceOf(codec, log, i)], WithKey(idems, e),
              WithFirst(firsts, e))
  {
    var e := log[i];
    ScanGrows(seen, firsts, e);
    var index' := index[e.number := PlaceOf(codec, log, i)];
    assert Leads(codec, log, PlaceOf(codec, log, i), e.number);
    assert e.idem.Some? ==> KeyLeads(log, e.idem.value, e.number);
    forall x | x in seen + [e] ensures x.number in index' {
      assert x in seen || x == e;
    }
  }

  lemma ReadingDone(codec: Codec, log: seq<Event>, index: map<nat, Place>, idems: map<string, nat>,
                    firsts: map<string, nat>)
    requires Reading(codec, log, FileOrder(log), index, idems, firsts)
    ensures IndexHolds(codec, log, index) && IdemsHold(log, idems) && TasksHold(log, firsts)
  {
    FileOrderPermutes(log);
    SameElements(FileOrder(log), log);
    forall i | 0 <= i < |log| ensures log[i].number in index && (log[i].idem.Some? ==> log[i].idem.value in idems) {
      assert log[i] in FileOrder(log);
    }
    forall t ensures t in firsts <==> FirstOf(log, t).Some? {
      assert ValueAt(firsts, t) == FirstOf(FileOrder(log), t);
      SameTasks(log, t);
    }
  }

  /** A line that is not blank and does not read as an event. */
  ghost predicate Bad(codec: Codec, text: string, line: nat) {
    var lines := SplitTerminator(text);
    line < |lines| && !Blank(lines[line]) && codec.decode(lines[line]).None?
  }

  // ---- Queries ----

  /** The number a query starts reading from. */
  function QueryFrom(filter: Filter, firsts: map<string, nat>): nat {
    var since := filter.since.GetOr(0);
    if filter.task.Some? && filter.task.value in firsts && firsts[filter.task.value] > since
    then firsts[filter.task.value] else since
  }

  function Reached(filter: Filter, from: nat): Event -> bool {
    (e: Event) => filter.Accepts(e) && e.number >= from
  }

  /** Starting from a number misses nothing exactly when no accepted event has a lower one. */
  lemma {:induction false} ReachesAllIff(es: seq<Event>, filter: Filter, from: nat)
    ensures Select(es, Reached(filter, from)) == Select(es, Accepting(filter)) <==>
              forall e :: e in es && filter.Accepts(e) ==> e.number >= from
  {
    forall e ensures e in Select(es, Reached(filter, from)) <==> e in es && filter.Accepts(e) && e.number >= from {
      SelectIn(es, Reached(filter, from), e);
    }
    forall e ensures e in Select(es, Accepting(filter)) <==> e in es && filter.Accepts(e) {
      SelectIn(es, Accepting(filter), e);
    }
    if forall e :: e in es && filter.Accepts(e) ==> e.number >= from {
      SelectSame(es, Reached(filter, from), Accepting(filter));
    }
  }

  lemma {:induction false} SelectSame(es: seq<Event>, p: Event -> bool, q: Event -> bool)
    requires forall e :: e in es ==> p(e) == q(e)
    ensures Select(es, p) == Select(es, q)
  {
    if es != [] {
      assert es[|es| - 1] in es;
      SelectSame(es[..|es| - 1], p, q);
    }
  }

  lemma NothingDescends()
    ensures NonDescending([])
  {
  }

  /** In a whole chain no event of a task comes before the number the task is said to start at. */
  lemma OrderedReachesAll(log: seq<Event>, firsts: map<string, nat>, filter: Filter)
    requires Numbered(log) && Scanned(log, firsts)
    ensures forall e :: e in log && filter.Accepts(e) ==> e.number >= QueryFrom(filter, firsts)
  {
    forall e | e in log && filter.Accepts(e) ensures e.number >= QueryFrom(filter, firsts) {
      if filter.task.Some? && filter.task.value in firsts {
        var t := filter.task.value;
        assert ValueAt(firsts, t) == FirstOf(log, t);
        var s := TaskStarts(log, t);
        var i :| 0 <= i < |log| && log[i] == e;
      }
    }
  }

  // ---- Reopening a whole chain ----

  /** Each task starts on the earliest day that has one of its events. */
  ghost predicate TasksStartEarliest(log: seq<Event>) {
    forall t: string, i: nat, j: nat ::
      Starts(log, t, i) && j < |log| && log[j].task == Some(t) ==> Day(log[i]) <= Day(log[j])
  }

  /** What a reopened store remembers of a whole chain is right exactly when the last event is of
      the latest day and each task starts on its earliest day. When the first half fails, the next
      number it gives is one already given. */
  lemma ReopenedInOrderIff(hash: Event -> string, log: seq<Event>, firsts: map<string, nat>)
    requires Numbered(log) && Chained(hash, log) && Scanned(FileOrder(log), firsts)
    ensures FollowsOn(hash, log, NextOf(FileOrder(log)), HeadOf(FileOrder(log)), firsts) <==>
              LastDayIsLatest(log) && TasksStartEarliest(log)
    ensures !LastDayIsLatest(log) ==> exists i :: 0 <= i < |log| && log[i].number == NextOf(FileOrder(log))
  {
    hide Chained;
    ReopenFindsTheEndIff(log);
    HeadIsLastHash(hash, log);
    var next := NextOf(FileOrder(log));
    if !LastDayIsLatest(log) { assert log[next].number == next; }
    forall t: string, i: nat | Starts(log, t, i)
      ensures ValueAt(firsts, t) == FirstOf(log, t) <==>
                forall j: nat :: j < |log| && log[j].task == Some(t) ==> Day(log[i]) <= Day(log[j])
    {
      assert ValueAt(firsts, t) == FirstOf(FileOrder(log), t);
      ReopenFindsTheStartIff(log, t, i);
    }
    forall t | FirstOf(log, t).None? ensures ValueAt(firsts, t) == FirstOf(log, t) {
      assert ValueAt(firsts, t) == FirstOf(FileOrder(log), t);
      SameTasks(log, t);
    }
    forall t | FirstOf(log, t).Some? ensures exists i: nat :: Starts(log, t, i) {
      var _ := TaskStarts(log, t);
    }
  }

  /** It happens to any two events of which the second is dated of an earlier day: written to an
      empty journal they make a whole chain, and reopening gives the second one's number again. */
  lemma ClockSteppedBack(hash: Event -> string, first: Draft, second: Draft)
    requires Harmless(first.payload) && Harmless(second.payload) && DayOf(second.at) < DayOf(first.at)
    ensures
      var j := Write(hash, Write(hash, Journal([], 0, GENESIS), first.(idem := None)), second.(idem := None));
      && |j.log| == 2 && Numbered(j.log) && Chained(hash, j.log) && j.next == 2
      && Reopened(j).next == j.log[1].number == 1
  {
    var start := Journal([], 0, GENESIS);
    var a, b := first.(idem := None), second.(idem := None);
    var j1 := Write(hash, start, a);
    var j := Write(hash, j1, b);
    OrderGrows(hash, [], 0, GENESIS, map[], a);
    var e1 := Seal(hash, a, 0, GENESIS).value;
    assert [] + [e1] == j1.log;
    OrderGrows(hash, j1.log, 1, j1.head, WithFirst(map[], e1), b);
    ReopenFindsTheEndIff(j.log);
    assert Day(j.log[0]) > Day(j.log[1]);
    var i := NameOrderEnds(j.log);
    assert i == 0;
  }

  lemma HeadIsLastHash(hash: Event -> string, log: seq<Event>)
    requires Chained(hash, log)
    ensures HeadOf(log) == HashBefore(log, |log|)
  {
    if log != [] { assert Linked(hash, log, |log| - 1); }
  }

  /** The files know the same tasks as the log. */
  lemma SameTasks(log: seq<Event>, t: string)
    ensures FirstOf(FileOrder(log), t).Some? <==> FirstOf(log, t).Some?
  {
    FileOrderPermutes(log);
    SameElements(FileOrder(log), log);
    FirstOfMeaning(log, t);
    FirstOfMeaning(FileOrder(log), t);
    assert FirstOf(log, t).Some? <==> exists e :: e in log && e.task == Some(t);
    assert FirstOf(FileOrder(log), t).Some? <==> exists e :: e in FileOrder(log) && e.task == Some(t);
  }

  // ---- What appending does to the journal, tables aside ----

  datatype Journal = Journal(log: seq<Event>, next: nat, head: string)

  predicate HasKey(log: seq<Event>, key: string) {
    exists i :: 0 <= i < |log| && log[i].idem == Some(key)
  }

  /** A draft whose key is in the log changes nothing; nor does one whose payload is refused. */
  function Write(hash: Event -> string, j: Journal, draft: Draft): Journal {
    if draft.idem.Some? && HasKey(j.log, draft.idem.value) then j
    else
      match Seal(hash, draft, j.next, j.head)
      case None => j
      case Some(e) => Journal(j.log + [e], j.next + 1, e.hash.GetOr(GENESIS))
  }

  /** A ledger process that stops and reads its files again. */
  function Reopened(j: Journal): Journal {
    Journal(j.log, NextOf(FileOrder(j.log)), HeadOf(FileOrder(j.log)))
  }

  lemma KeysAreTheTable(log: seq<Event>, idems: map<string, nat>, key: string)
    requires IdemsHold(log, idems)
    ensures key in idems <==> HasKey(log, key)
  {
    if key in idems { assert KeyLeads(log, key, idems[key]); }
  }

  /** Two events at the same place are the same. */
  lemma OneEventPerPlace(codec: Codec, log: seq<Event>, i: nat, j: nat)
    requires i < |log| && j < |log| && PlaceOf(codec, log, i) == PlaceOf(codec, log, j)
    ensures log[i] == log[j]
  {
    hide Text;
    RankOf(log, i);
    RankOf(log, j);
  }

  // ---- The store ----

  datatype StoreError = Refused | BadLine(day: int, line: nat) | BadStamp

  datatype Report = Report(ok: bool, checked: nat, seals: nat, firstBad: Option<nat>)

  predicate GoodStamp(notary: Notary, payload: Json) {
    notary.read(payload).Some? && notary.verify(notary.read(payload).value)
  }

  ghost predicate GoodStamps(notary: Notary, es: seq<Event>) {
    forall i :: 0 <= i < |es| && es[i].kind == LedgerSeal ==> GoodStamp(notary, es[i].payload)
  }

  lemma {:induction false} SealCountGrows(es: seq<Event>, n: nat)
    requires n < |es|
    ensures SealCount(es[..n + 1]) == SealCount(es[..n]) + if es[n].kind == LedgerSeal then 1 else 0
  {
    assert es[..n + 1][..n] == es[..n];
  }

  /** A whole chain is read back as it was written, whatever the dates. */
  lemma WholeChainReads(log: seq<Event>)
    requires Numbered(log)
    ensures ReadOrder(log) == log
  {
    ReadOrderIsWriteOrder(log);
  }

  class Store {
    const codec: Codec
    const hash: Event -> string
    const notary: Notary

    var files: map<int, string>
    var nextSeq: nat
    var lastHash: string
    var index: map<nat, Place>
    var lines: map<int, nat>
    var firsts: map<string, nat>
    var idems: map<string, nat>
    var sinceSeal: nat
    var sealer: Option<Sealer>
    ghost var log: seq<Event>

    /** The files hold the log, in the order of the writes within each day, and the tables agree
        with them. Kept by every operation, whatever the dates and however often the store was
        reopened. */
    ghost predicate Valid()
      reads this
    {
      && codec.Faithful() && notary.Faithful()
      && (sealer.Some? ==> sealer.value.Sound(notary))
      && TablesHold(codec, log, files, index, idems, lines, firsts)
    }

    /** The files hold a whole chain, and the store knows where it ends and where tasks start. */
    ghost predicate InOrder()
      reads this
    {
      Valid() && FollowsOn(hash, log, nextSeq, lastHash, firsts)
    }

    /** Besides, only `MaybeSeal` ever wrote seals. */
    ghost predicate OwnSeals()
      reads this
    {
      InOrder() && Sealed(notary, log) && sinceSeal == SinceOf(log)
    }

    method WriteLine(e: Event)
      requires Valid() && (e.idem.None? || e.idem.value !in idems)
      modifies `files, `lines, `index, `firsts, `idems, `log
      ensures Valid() && log == old(log) + [e]
      ensures files == old(files)[Day(e) := FileText(old(files), Day(e)) + codec.encode(e) + "\n"]
      ensures firsts == WithFirst(old(firsts), e) && idems == WithKey(old(idems), e)
    {
      hide TablesHold;
      var day := Day(e);
      var existing := LinesBefore(lines, day);
      var byte := |FileText(files, day)|;
      TablesGrow(codec, log, files, index, idems, lines, firsts, e);
      files := files[day := FileText(files, day) + codec.encode(e) + "\n"];
      lines := lines[day := existing + 1];
      index := index[e.number := Place(day, existing, byte)];
      firsts := WithFirst(firsts, e);
      idems := WithKey(idems, e);
      log := log + [e];
    }

    /** The event of this number, read straight from its byte. */
    method EventAt(number: nat) returns (r: Option<Event>)
      requires Valid()
      ensures r.Some? <==> number in index
      ensures r.Some? ==> r.value in log && r.value.number == number
      ensures r.Some? ==> Stands(codec, log, r.value, index[number])
    {
      if number !in index {
        return None;
      }
      var place := index[number];
      ghost var i := IndexLeads(codec, log, index, number);
      PlaceReads(codec, log, files, i);
      var text := files[place.day][place.byte..];
      var e := codec.decode(SplitTerminator(text)[0]).value;
      assert Stands(codec, log, e, index[number]);
      r := if e.number == number then Some(e) else None;
    }

    /** The draft was written as this event, at the end of the log and nowhere else. */
    twostate predicate Wrote(draft: Draft, e: Event)
      reads this
    {
      && Seal(hash, draft, old(nextSeq), old(lastHash)) == Some(e)
      && log == old(log) + [e]
      && nextSeq == old(nextSeq) + 1 && Some(lastHash) == e.hash
      && firsts == WithFirst(old(firsts), e) && idems == WithKey(old(idems), e)
      && sinceSeal == old(sinceSeal) + 1
    }

    method AppendNew(draft: Draft) returns (r: Result<Event, StoreError>)
      requires Valid() && (draft.idem.None? || draft.idem.value !in idems)
      modifies this
      ensures Valid() && sealer == old(sealer)
      ensures if Harmless(draft.payload) then r.Ok? && Wrote(draft, r.value) else unchanged(this) && r == Err(Refused)
      ensures old(InOrder()) ==> InOrder()
    {
      hide TablesHold;
      hide FollowsOn;
      var sealed := Seal(hash, draft, nextSeq, lastHash);
      if sealed.None? {
        return Err(Refused);
      }
      var e := sealed.value;
      if InOrder() { OrderGrows(hash, log, nextSeq, lastHash, firsts, draft); }
      WriteLine(e);
      nextSeq := nextSeq + 1;
      lastHash := e.hash.GetOr(GENESIS);
      sinceSeal := sinceSeal + 1;
      r := Ok(e);
    }

    ghost function InJournal(): Journal
      reads this
    {
      Journal(log, nextSeq, lastHash)
    }

    lemma KeyInTable(key: string)
      requires Valid()
      ensures key in idems <==> HasKey(log, key)
    {
      KeysAreTheTable(log, idems, key);
    }

    lemma KeyStandsIff(key: string, e: Event)
      requires Valid() && e.number in index && Stands(codec, log, e, index[e.number])
      ensures e.idem == Some(key) <==> KeyStands(codec, log, key, index[e.number])
    {
      hide TablesHold;
      var i: nat :| i < |log| && log[i] == e && PlaceOf(codec, log, i) == index[e.number];
      forall j: nat | j < |log| && PlaceOf(codec, log, j) == PlaceOf(codec, log, i) ensures log[j] == log[i] {
        OneEventPerPlace(codec, log, i, j);
      }
      if e.idem == Some(key) { assert log[i].idem == Some(key); }
    }

    lemma OnlyEventOfKey(key: string, e: Event)
      requires Valid() && key in idems && e in log && e.number == idems[key]
      ensures DistinctNumbers(log) ==> e.idem == Some(key)
    {
      assert KeyLeads(log, key, idems[key]);
      var i :| 0 <= i < |log| && log[i] == e;
    }

    lemma KeyIndexed(key: string)
      requires Valid() && key in idems
      ensures idems[key] in index
    {
      assert KeyLeads(log, key, idems[key]);
    }

    /** A draft whose key is already written is not written again. */
    method Append(draft: Draft) returns (r: Result<Event, StoreError>)
      requires Valid()
      modifies this
      ensures Valid() && sealer == old(sealer)
      ensures draft.idem.Some? && draft.idem.value in old(idems) ==>
                && unchanged(this) && r.Ok? && r.value in log && r.value.number == idems[draft.idem.value]
                && (r.value.idem == draft.idem <==> KeyStands(codec, log, draft.idem.value, index[r.value.number]))
                && (DistinctNumbers(log) ==> r.value.idem == draft.idem)
      ensures draft.idem.None? || draft.idem.value !in old(idems) ==>
                if Harmless(draft.payload) then r.Ok? && Wrote(draft, r.value) else unchanged(this) && r == Err(Refused)
      ensures InJournal() == Write(hash, old(InJournal()), draft)
      ensures old(InOrder()) ==> InOrder()
      ensures old(OwnSeals()) && draft.kind != LedgerSeal ==> OwnSeals()
    {
      hide TablesHold;
      hide FollowsOn;
      hide Sealed;
      if draft.idem.Some? { KeyInTable(draft.idem.value); }
      if draft.idem.Some? && draft.idem.value in idems {
        KeyIndexed(draft.idem.value);
        var found := EventAt(idems[draft.idem.value]);
        if found.Some? {
          OnlyEventOfKey(draft.idem.value, found.value);
          KeyStandsIff(draft.idem.value, found.value);
          return Ok(found.value);
        }
      }
      r := AppendNew(draft);
      if r.Ok? && old(OwnSeals()) && draft.kind != LedgerSeal {
        SinceGrows(old(log), r.value);
        SealedGrows(notary, old(log), r.value);
      }
    }

    /** Seals the chain when enough events follow the last seal, or when told to. */
    method MaybeSeal(now: Time, threshold: nat, force: bool) returns (r: Option<Event>)
      requires Valid()
      modifies this
      ensures Valid() && sealer == old(sealer)
      ensures r.None? <==> sealer.None? || (!force && old(sinceSeal) < threshold)
      ensures r.None? ==> unchanged(this)
      ensures r.Some? ==> log == old(log) + [r.value] && r.value.kind == LedgerSeal && sinceSeal == 0
      ensures old(InOrder()) ==> InOrder() && (r.Some? ==> SealsBefore(notary, log, |log| - 1))
      ensures r.Some? && old(InOrder()) ==>
                && notary.read(r.value.payload).Some?
                && var stamp := notary.read(r.value.payload).value;
                   var upTo := if old(log) == [] then 0 else old(log)[|old(log)| - 1].number;
                   var head := if old(log) == [] then "genesis" else old(log)[|old(log)| - 1].hash.GetOr("");
                   && stamp == Stamp(upTo, head, sealer.value.sign(upTo, head), sealer.value.public)
                   && notary.verify(stamp)
      ensures r.Some? ==> r.value.at == now && r.value.task.None? && r.value.idem.None?
      ensures old(OwnSeals()) ==> OwnSeals()
    {
      hide TablesHold;
      hide Sealed;
      if sealer.None? || (!force && sinceSeal < threshold) {
        return None;
      }
      var stamp := sealer.value.Stamped(if nextSeq == 0 then 0 else nextSeq - 1, lastHash);
      var draft := Draft(now, None, None, "daemon:ledger", LedgerSeal, notary.write(stamp), None);
      assert notary.read(draft.payload) == Some(stamp);
      var written := Append(draft);
      sinceSeal := 0;
      if old(InOrder()) {
        SealWritten(notary, old(log), written.value, stamp);
        if old(OwnSeals()) { SealedGrows(notary, old(log), written.value); }
      }
      r := Some(written.value);
    }

    lemma FilesAreDays()
      requires Valid()
      ensures files.Keys == Days(log)
    {
    }

    /** Every event of the journal, by number. */
    method ReadAll() returns (events: seq<Event>)
      requires Valid()
      ensures events == ReadOrder(log)
    {
      hide TablesHold; hide SplitTerminator; hide DecodeLines; hide SortByNumber; hide Ascending; hide OfDay;
      FilesAreDays();
      var days := Ascending(files.Keys);
      events := [];
      for k := 0 to |days|
        invariant events == InDays(log, days[..k])
      {
        assert days[..k + 1][..k] == days[..k];
        ReadsDay(days[k], 0);
        var read := ReadFrom(codec, files[days[k]], 0, 0);
        events := events + read.value;
      }
      assert days[..|days|] == days;
      events := SortByNumber(events);
    }

    /** Reading a day file from the byte where line `m` starts gives the day's events from `m` on. */
    lemma ReadsDay(day: int, m: nat)
      requires Valid() && day in files && m <= |OfDay(log, day)|
      ensures
        var byte := |Text(codec, OfDay(log, day)[..m])|;
        && (m == 0 ==> byte == 0)
        && byte <= |files[day]|
        && DecodeLines(codec, SplitTerminator(files[day][byte..])) == Ok(OfDay(log, day)[m..])
    {
      SeekReads(codec, OfDay(log, day), m);
    }

    /** The events from a number on, reading each day file from the first line that has one. When
        numbers repeat, exactly those `FoundFrom` describes, in number order. */
    method ReadSince(from: nat) returns (events: seq<Event>)
      requires Valid()
      ensures DistinctNumbers(log) ==> events == Select(ReadOrder(log), From(from))
      ensures NonDescending(events) && forall e :: e in events <==> FoundFrom(log, index, e, from)
    {
      hide TablesHold; hide Select; hide SortByNumber; hide Ascending; hide OfDay; hide DistinctNumbers;
      hide NonDescending; hide FoundFrom; hide StartsHold; hide LedTo;
      var numbers := Ascending(set n | n in index && n >= from);
      var starts := Starts(numbers);
      StartsLead(index, numbers, starts, from);
      var days := Ascending(starts.Keys);
      events := [];
      NoneSelected([], From(from));
      for k := 0 to |days|
        invariant DistinctNumbers(log) ==> events == Select(InDays(log, days[..k]), From(from))
        invariant forall e :: e in events <==> Day(e) in days[..k] && FoundFrom(log, index, e, from)
      {
        var day := days[k];
        assert days[..k + 1][..k] == days[..k];
        assert days[..k + 1] == days[..k] + [day];
        var read := ReadDayFrom(day, starts[day]);
        DaySelected(day, starts[day], from);
        SelectSplits(InDays(log, days[..k]), OfDay(log, day), From(from));
        events := events + Select(read, From(from));
      }
      assert days[..|days|] == days;
      FoundInDays(days, from);
      SortSorts(events);
      SameElements(events, SortByNumber(events));
      if DistinctNumbers(log) {
        forall e | e in log && e.number >= from ensures Day(e) in days {
          DayIsIndexed(e);
        }
        SelectedDaysSorted(log, days, from);
      }
      events := SortByNumber(events);
    }

    method Starts(numbers: seq<int>) returns (starts: map<int, Start>)
      requires forall n :: n in numbers ==> 0 <= n && n in index
      ensures StartsHold(index, numbers, starts)
    {
      starts := map[];
      for k := 0 to |numbers|
        invariant StartsHold(index, numbers[..k], starts)
      {
        assert numbers[k] in numbers;
        var n: nat := numbers[k];
        StartsGrow(index, numbers[..k], starts, n);
        assert numbers[..k + 1] == numbers[..k] + [n];
        starts := WithStart(starts, index[n], n);
      }
      assert numbers[..|numbers|] == numbers;
    }

    lemma DayIsIndexed(e: Event)
      requires Valid() && DistinctNumbers(log) && e in log
      ensures e.number in index && index[e.number].day == Day(e)
    {
      var i: nat :| i < |log| && log[i] == e;
      var _ := IndexLeads(codec, log, index, e.number);
    }

    /** What a day file has from its start on. The code reads the whole file if the start is not what
        it should be, which no index of the log gives it. */
    method ReadDayFrom(day: int, start: Start) returns (read: seq<Event>)
      requires Valid() && IsPlaceOf(index, day, start)
      ensures start.line <= |OfDay(log, day)| && read == OfDay(log, day)[start.line..]
    {
      hide OfDay; hide Text;
      StartStands(codec, log, index, day, start);
      ReadsDay(day, start.line);
      var tail := ReadFrom(codec, files[day], start.byte, start.line);
      read := tail.value;
      if read == [] || read[0].number != start.number {
        ReadsDay(day, 0);
        var whole := ReadFrom(codec, files[day], 0, 0);
        read := whole.value;
      }
      StartFirst(codec, log, index, day, start);
    }

    lemma DaySelected(day: int, start: Start, from: nat)
      requires Valid() && start.line <= |OfDay(log, day)|
      requires forall line: nat :: LedTo(index, from, day, line) <==> start.line <= line
      ensures
        var selected := Select(OfDay(log, day)[start.line..], From(from));
        && (DistinctNumbers(log) ==> selected == Select(OfDay(log, day), From(from)))
        && forall e :: e in selected <==> Day(e) == day && FoundFrom(log, index, e, from)
    {
      hide Select; hide OfDay; hide FoundFrom; hide DistinctNumbers;
      forall n: nat | n in index && n >= from && index[n].day == day ensures start.line <= index[n].line {
        assert LedTo(index, from, day, index[n].line);
      }
      if DistinctNumbers(log) { StartSelects(codec, log, index, day, start, from); }
      forall e ensures e in Select(OfDay(log, day)[start.line..], From(from)) <==>
                       Day(e) == day && FoundFrom(log, index, e, from)
      {
        DayFound(codec, log, index, day, start.line, from, e);
      }
    }

    lemma FoundInDays(days: seq<int>, from: nat)
      requires forall d: int, line: nat :: LedTo(index, from, d, line) ==> d in days
      ensures forall e :: FoundFrom(log, index, e, from) ==> Day(e) in days
    {
    }

    lemma QueryMeaning(filter: Filter, from: nat)
      requires Valid() && from == QueryFrom(filter, firsts)
      ensures
        var answer := Select(ReadOrder(log), Reached(filter, from));
        && (filter.task.Some? && filter.task.value !in firsts ==> answer == Select([], Accepting(filter)))
        && Select(Select(ReadOrder(log), From(from)), Accepting(filter)) == answer
        && (filter.task.None? && filter.since.None? ==> Select(ReadOrder(log), Accepting(filter)) == answer)
        && (InOrder() ==> answer == Select(log, Accepting(filter)))
    {
      hide ReadOrder; hide Select;
      var all := ReadOrder(log);
      ReadOrderHolds(log);
      SelectTwice(all, From(from), Accepting(filter), Reached(filter, from));
      if filter.task.Some? && filter.task.value !in firsts {
        FirstOfMeaning(log, filter.task.value);
        NoneSelected(all, Reached(filter, from));
        NoneSelected([], Accepting(filter));
      }
      if filter.task.None? && filter.since.None? {
        SelectSame(all, Reached(filter, from), Accepting(filter));
      }
      if InOrder() {
        ReadOrderIsWriteOrder(log);
        OrderedReachesAll(log, firsts, filter);
        SelectSame(log, Reached(filter, from), Accepting(filter));
      }
    }

    /** What a query comes across: everything without a task or a first number, else what reading from
        its starting number comes across. */
    ghost predicate ComesAcross(filter: Filter, e: Event)
      reads this
    {
      if filter.task.None? && filter.since.None? then e in log
      else FoundFrom(log, index, e, QueryFrom(filter, firsts))
    }

    lemma NothingOfTheTask(filter: Filter)
      requires Valid() && filter.task.Some? && filter.task.value !in firsts
      ensures forall e :: e in log ==> !filter.Accepts(e)
    {
      hide FilesHold; hide IndexHolds; hide IdemsHold; hide LinesHold;
      FirstOfMeaning(log, filter.task.value);
    }

    /** The accepted events it comes across, in number order. */
    ghost predicate IsAnswer(filter: Filter, found: seq<Event>)
      reads this
    {
      NonDescending(found) && forall e :: e in found <==> filter.Accepts(e) && ComesAcross(filter, e)
    }

    /** The answer cut to the limit. With distinct numbers it is what the query starts early enough to
        reach; in a whole chain, everything accepted. */
    method Query(filter: Filter) returns (events: seq<Event>)
      requires Valid()
      ensures forall e <- events ::
                && e in log
                && (filter.task.Some? ==> e.task == filter.task)
                && (filter.kinds != [] ==> e.kind in filter.kinds)
                && (filter.since.Some? ==> filter.since.value <= e.number)
                && (filter.until.Some? ==> e.number <= filter.until.value)
      ensures exists found ::
                && IsAnswer(filter, found) && events <= found
                && |events| == if filter.limit.Some? && filter.limit.value < |found|
                               then filter.limit.value else |found|
      ensures DistinctNumbers(log) ==>
                events == filter.Cut(Select(ReadOrder(log), Reached(filter, QueryFrom(filter, firsts))))
      ensures InOrder() ==> events == filter.Cut(Select(log, Accepting(filter)))
      ensures InOrder() && filter.limit.None? ==> forall e <- log :: e in events <==>
                && (filter.task.Some? ==> e.task == filter.task)
                && (filter.kinds != [] ==> e.kind in filter.kinds)
                && (filter.since.Some? ==> filter.since.value <= e.number)
                && (filter.until.Some? ==> e.number <= filter.until.value)
    {
      hide TablesHold; hide FollowsOn; hide ReadOrder; hide Select; hide DistinctNumbers; hide QueryFrom;
      hide NonDescending; hide FoundFrom;
      var from := QueryFrom(filter, firsts);
      QueryMeaning(filter, from);
      if InOrder() { NumberedAreDistinct(); }
      if filter.task.Some? && filter.task.value !in firsts {
        events := [];
        NothingDescends();
        NothingOfTheTask(filter);
        FoundIsLogged(from);
      } else if filter.task.Some? || filter.since.Some? {
        events := ReadSince(from);
      } else {
        events := ReadAll();
        ReadOrderHolds(log);
      }
      SelectSorted(events, Accepting(filter));
      forall e ensures e in Select(events, Accepting(filter)) <==> e in events && filter.Accepts(e) {
        SelectIn(events, Accepting(filter), e);
      }
      events := Select(events, Accepting(filter));
      FoundIsLogged(from);
      AcceptedOf(filter, events);
      assert IsAnswer(filter, events);
      events := filter.Cut(events);
    }

    /** What a query selects, in terms of the events themselves. */
    lemma AcceptedOf(filter: Filter, found: seq<Event>)
      requires IsAnswer(filter, found)
      ensures forall e <- found ::
                && e in log
                && (filter.task.Some? ==> e.task == filter.task)
                && (filter.kinds != [] ==> e.kind in filter.kinds)
                && (filter.since.Some? ==> filter.since.value <= e.number)
                && (filter.until.Some? ==> e.number <= filter.until.value)
      ensures found == Select(log, Accepting(filter)) ==> forall e <- log :: e in found <==>
                && (filter.task.Some? ==> e.task == filter.task)
                && (filter.kinds != [] ==> e.kind in filter.kinds)
                && (filter.since.Some? ==> filter.since.value <= e.number)
                && (filter.until.Some? ==> e.number <= filter.until.value)
    {
      hide Select; hide QueryFrom; hide FoundFrom; hide NonDescending;
      FoundIsLogged(QueryFrom(filter, firsts));
      forall e ensures e in Select(log, Accepting(filter)) <==> e in log && filter.Accepts(e) {
        SelectIn(log, Accepting(filter), e);
      }
    }

    lemma FoundIsLogged(from: nat)
      ensures forall e :: FoundFrom(log, index, e, from) ==> e in log
    {
    }

    lemma NumberedAreDistinct()
      requires InOrder()
      ensures DistinctNumbers(log)
    {
    }

    /** Checks the chain, then the signature of every seal if the store can sign. */
    method Verify() returns (r: Result<Report, StoreError>)
      requires Valid()
      ensures (r.Ok? && r.value.ok) <==>
                Chained(hash, ReadOrder(log)) && (sealer.Some? ==> GoodStamps(notary, ReadOrder(log)))
      ensures r.Ok? ==> r.value.checked == |log|
      ensures r.Ok? && r.value.ok ==> r.value.seals == if sealer.Some? then SealCount(ReadOrder(log)) else 0
      ensures OwnSeals() ==> r == Ok(Report(true, |log|, if sealer.Some? then SealCount(log) else 0, None))
    {
      hide TablesHold; hide Chained; hide ReadOrder; hide SealsBefore; hide Scanned;
      if OwnSeals() { OwnSealsAreGood(); }
      var events := ReadAll();
      assert |events| == |log| by { ReadOrderLength(log); }
      var error := VerifyChain(hash, events);
      if error.Some? {
        var bad := if error.value.BrokenChain? then Some(error.value.number) else None;
        return Ok(Report(false, |events|, 0, bad));
      }
      var seals := 0;
      if sealer.Some? {
        for k := 0 to |events|
          invariant seals == SealCount(events[..k])
          invariant forall i :: 0 <= i < k && events[i].kind == LedgerSeal ==> GoodStamp(notary, events[i].payload)
        {
          SealCountGrows(events, k);
          if events[k].kind == LedgerSeal {
            var stamp := notary.read(events[k].payload);
            if stamp.None? {
              return Err(BadStamp);
            }
            if !notary.verify(stamp.value) {
              return Ok(Report(false, |events|, seals, Some(events[k].number)));
            }
            seals := seals + 1;
          }
        }
        assert events[..|events|] == events;
      }
      r := Ok(Report(true, |events|, seals, None));
    }

    lemma OwnSealsAreGood()
      requires OwnSeals()
      ensures ReadOrder(log) == log && Chained(hash, log) && GoodStamps(notary, log)
    {
      WholeChainReads(log);
      forall i: nat | i < |log| && log[i].kind == LedgerSeal ensures GoodStamp(notary, log[i].payload) {
        assert SealsBefore(notary, log, i);
      }
    }

    // ---- Opening ----

    constructor (codec: Codec, hash: Event -> string, notary: Notary, files: map<int, string>, ghost log: seq<Event>)
      ensures this.codec == codec && this.hash == hash && this.notary == notary
      ensures this.files == files && this.log == log && Unread()
    {
      this.codec, this.hash, this.notary := codec, hash, notary;
      this.files, this.log := files, log;
      nextSeq, lastHash, sinceSeal, sealer := 0, GENESIS, 0, None;
      index, lines, firsts, idems := map[], map[], map[], map[];
    }

    /** Nothing was read yet. */
    ghost predicate Unread()
      reads this
    {
      && nextSeq == 0 && lastHash == GENESIS && sinceSeal == 0 && sealer.None?
      && index == map[] && lines == map[] && firsts == map[] && idems == map[]
    }

    /** What the store remembers is what reading these events one after the other leaves. */
    ghost predicate Remembers(seen: seq<Event>)
      reads this
    {
      && nextSeq == NextOf(seen) && lastHash == HeadOf(seen) && sinceSeal == SinceOf(seen)
      && Reading(codec, log, seen, index, idems, firsts)
    }

    /** Reads every day file in the order of names. */
    method RebuildIndex() returns (error: Option<StoreError>)
      requires codec.Faithful() && notary.Faithful() && Unread()
      modifies `nextSeq, `lastHash, `index, `lines, `firsts, `idems, `sinceSeal
      ensures error.None? <==> forall d, m: nat :: d in files ==> !Bad(codec, files[d], m)
      ensures error.Some? ==>
                && error.value.BadLine? && error.value.day in files && error.value.line > 0
                && Bad(codec, files[error.value.day], error.value.line - 1)
      ensures FilesHold(codec, log, files) && KeysOnce(log) ==>
                error.None? && Valid() && Remembers(FileOrder(log))
      ensures FilesHold(codec, log, files) && KeysOnce(log) ==>
                InJournal() == Reopened(old(InJournal()))
    {
      hide FilesHold; hide KeysOnce; hide Reading; hide OfDay; hide Bad; hide Ascending; hide TablesHold;
      hide NextOf; hide HeadOf; hide SinceOf; hide FileOrder; hide LinesRead;
      ghost var held := FilesHold(codec, log, files) && KeysOnce(log);
      NothingRead(codec, log);
      var days := Ascending(files.Keys);
      for k := 0 to |days|
        invariant forall j, m: nat :: 0 <= j < k ==> !Bad(codec, files[days[j]], m)
        invariant held ==> Remembers(InDays(log, days[..k]))
        invariant held ==> LinesRead(log, days[..k], lines)
      {
        var day := days[k];
        assert days[..k + 1][..k] == days[..k];
        assert days[..k + 1] == days[..k] + [day];
        if held { LinesReadMore(log, days[..k], lines, day); }
        error := RebuildDay(day, held, InDays(log, days[..k]));
        if error.Some? {
          return;
        }
      }
      assert days[..|days|] == days;
      if held {
        NameOrder(codec, log, files);
        Rebuilt();
      }
      error := None;
    }

    lemma Rebuilt()
      requires FilesHold(codec, log, files) && KeysOnce(log) && Remembers(FileOrder(log))
      requires LinesRead(log, Ascending(files.Keys), lines)
      ensures TablesHold(codec, log, files, index, idems, lines, firsts)
    {
      hide FileOrder; hide OfDay; hide Reading; hide FilesHold; hide LinesRead; hide LinesHold;
      hide IndexHolds; hide IdemsHold; hide TasksHold; hide KeysOnce;
      ReadingDone(codec, log, index, idems, firsts);
      AllLinesRead(codec, log, files, lines);
    }

    method RebuildDay(day: int, ghost held: bool, ghost seen: seq<Event>) returns (error: Option<StoreError>)
      requires codec.Faithful() && day in files
      requires held ==> FilesHold(codec, log, files) && Remembers(seen)
      modifies `nextSeq, `lastHash, `index, `lines, `firsts, `idems, `sinceSeal
      ensures error.None? <==> forall m: nat :: !Bad(codec, files[day], m)
      ensures error.Some? ==> exists m: nat :: Bad(codec, files[day], m) && error == Some(BadLine(day, m + 1))
      ensures held ==> error.None? && Remembers(seen + OfDay(log, day))
      ensures held ==> lines == old(lines)[day := |OfDay(log, day)|]
    {
      hide Reading; hide Text; hide OfDay; hide FilesHold; hide SplitTerminator; hide Blank;
      hide NextOf; hide SinceOf; hide HeadOf;
      var pieces := SplitTerminator(files[day]);
      ghost var es := OfDay(log, day);
      if held {
        DayPieces(day);
        assert seen + es[..0] == seen;
      }
      var byte: nat := 0;
      for m := 0 to |pieces|
        invariant forall j: nat :: j < m ==> !Bad(codec, files[day], j)
        invariant held ==> byte == |Text(codec, es[..m])| && Remembers(seen + es[..m])
        invariant held ==> lines == if m == 0 then old(lines) else old(lines)[day := m]
      {
        var line, start := pieces[m], byte;
        byte := byte + |line| + 1;
        lines := lines[day := m + 1];
        if !Blank(line) {
          var read := codec.decode(line);
          if read.None? {
            assert Bad(codec, files[day], m);
            return Some(BadLine(day, m + 1));
          }
          if held { NextPiece(day, m, seen); }
          Take(read.value, Place(day, m, start));
        }
      }
      if held { assert es[..|es|] == es; }
      error := None;
    }

    lemma DayPieces(day: int)
      requires codec.Faithful() && FilesHold(codec, log, files) && day in files
      ensures SplitTerminator(files[day]) == Encoded(codec, OfDay(log, day))
      ensures OfDay(log, day) != [] && Text(codec, OfDay(log, day)[..0]) == ""
    {
      TextLines(codec, OfDay(log, day));
      OfDayEmpty(log, day);
    }

    lemma NextPiece(day: int, m: nat, seen: seq<Event>)
      requires codec.Faithful() && m < |OfDay(log, day)|
      requires Remembers(seen + OfDay(log, day)[..m])
      ensures
        var es := OfDay(log, day);
        var place := Place(day, m, |Text(codec, es[..m])|);
        && |Text(codec, es[..m + 1])| == |Text(codec, es[..m])| + |codec.encode(es[m])| + 1
        && seen + es[..m + 1] == (seen + es[..m]) + [es[m]]
        && NextOf(seen + es[..m + 1]) == es[m].number + 1
        && HeadOf(seen + es[..m + 1]) == es[m].hash.GetOr(GENESIS)
        && SinceOf(seen + es[..m + 1]) == (if es[m].kind == LedgerSeal then 0 else SinceOf(seen + es[..m]) + 1)
        && Reading(codec, log, seen + es[..m + 1], index[es[m].number := place],
                   WithKey(idems, es[m]), WithFirst(firsts, es[m]))
    {
      hide Reading; hide Text; hide OfDay;
      var es := OfDay(log, day);
      var i := NthOfDay(codec, log, day, m);
      assert es[..m + 1] == es[..m] + [es[m]];
      assert seen + es[..m + 1] == (seen + es[..m]) + [es[m]];
      TextGrows(codec, es[..m], es[m]);
      SinceGrows(seen + es[..m], es[m]);
      ReadingGrows(codec, log, seen + es[..m], index, idems, firsts, i);
    }

    /** One event read while rebuilding. */
    method Take(e: Event, place: Place)
      modifies `nextSeq, `lastHash, `index, `firsts, `idems, `sinceSeal
      ensures index == old(index)[e.number := place]
      ensures firsts == WithFirst(old(firsts), e) && idems == WithKey(old(idems), e)
      ensures nextSeq == e.number + 1 && lastHash == e.hash.GetOr(GENESIS)
      ensures sinceSeal == if e.kind == LedgerSeal then 0 else old(sinceSeal) + 1
    {
      index := index[e.number := place];
      firsts := WithFirst(firsts, e);
      idems := WithKey(idems, e);
      nextSeq := e.number + 1;
      lastHash := e.hash.GetOr(GENESIS);
      sinceSeal := if e.kind == LedgerSeal then 0 else sinceSeal + 1;
    }
  }
}
