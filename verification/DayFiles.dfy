/** Day files of the audit journal: how a log of events lies in them, line by line and byte by byte. */
module DayFiles {
  import opened Prelude
  import opened Lines
  import opened Ledger

  /** The day file an instant belongs to. File names sort as days do. */
  function DayOf(at: Time): int { at / DAY }

  /** A day is 86,400 seconds, whichever side of the first one it is on. */
  lemma DayIs(at: Time, day: int)
    ensures DayOf(at) == day <==> day * 86_400_000_000_000 <= at < (day + 1) * 86_400_000_000_000
  {
  }

  function Day(e: Event): int { DayOf(e.at) }

  /** How an event is written on a line, and what a line reads as. */
  datatype Codec = Codec(encode: Event -> string, decode: string -> Option<Event>) {
    ghost predicate Faithful() {
      forall e :: decode(encode(e)) == Some(e) && '\n' !in encode(e) && !Blank(encode(e))
    }
  }

  /** Where a line stands: its file, its rank, and the byte where it starts. */
  datatype Place = Place(day: int, line: nat, byte: nat)

  // ---- A log in its files ----

  /** The events of one day, in the order in which they were written. */
  function OfDay(log: seq<Event>, day: int): seq<Event> {
    if log == [] then []
    else
      OfDay(log[..|log| - 1], day) + if Day(log[|log| - 1]) == day then [log[|log| - 1]] else []
  }

  function Text(codec: Codec, es: seq<Event>): string {
    if es == [] then ""
    else Text(codec, es[..|es| - 1]) + codec.encode(es[|es| - 1]) + "\n"
  }

  function Days(log: seq<Event>): set<int> {
    if log == [] then {} else Days(log[..|log| - 1]) + {Day(log[|log| - 1])}
  }

  ghost predicate FilesHold(codec: Codec, log: seq<Event>, files: map<int, string>) {
    && files.Keys == Days(log)
    && forall d <- files :: files[d] == Text(codec, OfDay(log, d))
  }

  /** The place event `i` of the log was written at. */
  ghost function PlaceOf(codec: Codec, log: seq<Event>, i: nat): Place
    requires i < |log|
  {
    var before := OfDay(log[..i], Day(log[i]));
    Place(Day(log[i]), |before|, |Text(codec, before)|)
  }

  lemma OfDayGrows(log: seq<Event>, e: Event, day: int)
    ensures OfDay(log + [e], day) == OfDay(log, day) + if Day(e) == day then [e] else []
  {
    assert (log + [e])[..|log|] == log;
  }

  lemma TextGrows(codec: Codec, es: seq<Event>, e: Event)
    ensures Text(codec, es + [e]) == Text(codec, es) + codec.encode(e) + "\n"
  {
    assert (es + [e])[..|es|] == es;
  }

  lemma {:induction false} TextSplits(codec: Codec, a: seq<Event>, b: seq<Event>)
    ensures Text(codec, a + b) == Text(codec, a) + Text(codec, b)
  {
    if b == [] {
      assert a + b == a;
    } else {
      var b', e := b[..|b| - 1], b[|b| - 1];
      assert a + b == (a + b') + [e] && b == b' + [e];
      TextSplits(codec, a, b');
      TextGrows(codec, a + b', e);
    }
  }

  lemma {:induction false} OfDayEmpty(log: seq<Event>, day: int)
    ensures OfDay(log, day) == [] <==> day !in Days(log)
  {
    if log != [] {
      OfDayEmpty(log[..|log| - 1], day);
    }
  }

  lemma {:induction false} DaysHave(log: seq<Event>, i: nat)
    requires i < |log|
    ensures Day(log[i]) in Days(log)
  {
    if i < |log| - 1 { DaysHave(log[..|log| - 1], i); }
  }

  lemma DaysGrow(log: seq<Event>, e: Event)
    ensures Days(log + [e]) == Days(log) + {Day(e)}
  {
    assert (log + [e])[..|log|] == log;
  }

  /** The contents of a day file, empty before the first write of the day. */
  function FileText(files: map<int, string>, day: int): string {
    if day in files then files[day] else ""
  }

  lemma FileTextHolds(codec: Codec, log: seq<Event>, files: map<int, string>, day: int)
    requires FilesHold(codec, log, files)
    ensures FileText(files, day) == Text(codec, OfDay(log, day))
  {
    OfDayEmpty(log, day);
  }

  lemma FilesGrow(codec: Codec, log: seq<Event>, files: map<int, string>, e: Event)
    requires FilesHold(codec, log, files)
    ensures FilesHold(codec, log + [e], files[Day(e) := FileText(files, Day(e)) + codec.encode(e) + "\n"])
  {
    var files' := files[Day(e) := FileText(files, Day(e)) + codec.encode(e) + "\n"];
    DaysGrow(log, e);
    FileTextHolds(codec, log, files, Day(e));
    TextGrows(codec, OfDay(log, Day(e)), e);
    assert files'.Keys == Days(log + [e]);
    forall d | d in files' ensures files'[d] == Text(codec, OfDay(log + [e], d)) {
      OfDayGrows(log, e, d);
      if d != Day(e) { assert OfDay(log, d) + [] == OfDay(log, d); }
    }
  }

  lemma PlaceKept(codec: Codec, log: seq<Event>, e: Event, i: nat)
    requires i < |log|
    ensures PlaceOf(codec, log + [e], i) == PlaceOf(codec, log, i)
  {
    assert (log + [e])[..i] == log[..i];
  }

  /** The `m`-th event of a day is some event of the log, at the place its rank says. */
  lemma {:induction false} NthOfDay(codec: Codec, log: seq<Event>, day: int, m: nat) returns (i: nat)
    requires m < |OfDay(log, day)|
    ensures i < |log| && log[i] == OfDay(log, day)[m] && Day(log[i]) == day
    ensures OfDay(log[..i], day) == OfDay(log, day)[..m]
    ensures PlaceOf(codec, log, i) == Place(day, m, |Text(codec, OfDay(log, day)[..m])|)
  {
    var before := log[..|log| - 1];
    if m < |OfDay(before, day)| {
      i := NthOfDay(codec, before, day, m);
      assert before[..i] == log[..i];
    } else {
      i := |log| - 1;
      assert OfDay(log, day)[..m] == OfDay(before, day);
    }
  }

  // ---- Reading lines back ----

  /** The events of a list of lines, blank ones skipped; an error gives the line from one. */
  function DecodeLines(codec: Codec, lines: seq<string>): Result<seq<Event>, nat> {
    if lines == [] then Ok([])
    else
      match DecodeLines(codec, lines[..|lines| - 1])
      case Err(n) => Err(n)
      case Ok(es) =>
        var line := lines[|lines| - 1];
        if Blank(line) then Ok(es)
        else
          match codec.decode(line)
          case None => Err(|lines|)
          case Some(e) => Ok(es + [e])
  }

  function Encoded(codec: Codec, es: seq<Event>): (lines: seq<string>)
    ensures |lines| == |es|
    ensures forall i :: 0 <= i < |es| ==> lines[i] == codec.encode(es[i])
  {
    seq(|es|, i requires 0 <= i < |es| => codec.encode(es[i]))
  }

  lemma {:induction false} TextLines(codec: Codec, es: seq<Event>)
    requires codec.Faithful()
    ensures AtBoundary(Text(codec, es))
    ensures SplitTerminator(Text(codec, es)) == Encoded(codec, es)
  {
    hide Tail; hide Kept; hide CompleteLines; hide SplitTerminator; hide EndsWith; hide Blank;
    var text := Text(codec, es);
    if es == [] {
      NoLine("");
      assert SplitTerminator("") == [] by { LinesToRead(""); }
    } else {
      var es', e := es[..|es| - 1], es[|es| - 1];
      TextLines(codec, es');
      var text' := Text(codec, es');
      BoundaryMeansEnded(text');
      LinesToRead(text');
      LinesOfAppend(text', codec.encode(e));
      LinesOfEnd(text' + codec.encode(e));
      assert Tail(text') + codec.encode(e) == codec.encode(e);
      BoundaryMeansEnded(text);
      LinesToRead(text);
      assert Encoded(codec, es) == Encoded(codec, es') + [codec.encode(e)];
    }
  }

  lemma {:induction false} DecodeEncoded(codec: Codec, es: seq<Event>)
    requires codec.Faithful()
    ensures DecodeLines(codec, Encoded(codec, es)) == Ok(es)
  {
    if es != [] {
      var es' := es[..|es| - 1];
      DecodeEncoded(codec, es');
      assert Encoded(codec, es)[..|es| - 1] == Encoded(codec, es');
      assert es == es' + [es[|es| - 1]];
    }
  }

  lemma {:induction false} DecodeStops(codec: Codec, lines: seq<string>, n: nat)
    requires n <= |lines|
    requires DecodeLines(codec, lines[..n]).Err?
    ensures DecodeLines(codec, lines) == DecodeLines(codec, lines[..n])
  {
    if n < |lines| {
      var shorter := lines[..|lines| - 1];
      assert shorter[..n] == lines[..n];
      DecodeStops(codec, shorter, n);
    } else {
      assert lines[..n] == lines;
    }
  }

  /** The events of a file from a byte on; an error gives the line counted from `first`. */
  method ReadFrom(codec: Codec, text: string, byte: nat, first: nat) returns (r: Result<seq<Event>, nat>)
    requires byte <= |text|
    ensures
      match DecodeLines(codec, SplitTerminator(text[byte..]))
      case Ok(es) => r == Ok(es)
      case Err(n) => r == Err(first + n)
  {
    var lines := SplitTerminator(text[byte..]);
    var events := [];
    for rank := 0 to |lines|
      invariant DecodeLines(codec, lines[..rank]) == Ok(events)
    {
      assert lines[..rank + 1][..rank] == lines[..rank];
      var line := lines[rank];
      if !Blank(line) {
        match codec.decode(line) {
          case None =>
            DecodeStops(codec, lines, rank + 1);
            return Err(first + rank + 1);
          case Some(e) => events := events + [e];
        }
      }
    }
    assert lines[..|lines|] == lines;
    r := Ok(events);
  }

  /** Seeking to the byte where line `m` starts reads exactly the events from the `m`-th on. */
  lemma SeekReads(codec: Codec, es: seq<Event>, m: nat)
    requires codec.Faithful() && m <= |es|
    ensures
      var byte := |Text(codec, es[..m])|;
      && byte <= |Text(codec, es)|
      && DecodeLines(codec, SplitTerminator(Text(codec, es)[byte..])) == Ok(es[m..])
  {
    assert es == es[..m] + es[m..];
    TextSplits(codec, es[..m], es[m..]);
    TextLines(codec, es[m..]);
    DecodeEncoded(codec, es[m..]);
    var byte := |Text(codec, es[..m])|;
    assert Text(codec, es)[byte..] == Text(codec, es[m..]);
  }

  // ---- Files in the order of their names ----

  /** The events of these days, day after day. */
  function InDays(log: seq<Event>, days: seq<int>): seq<Event> {
    if days == [] then []
    else InDays(log, days[..|days| - 1]) + OfDay(log, days[|days| - 1])
  }

  /** The log as reading its files in name order gives it. */
  function FileOrder(log: seq<Event>): seq<Event> {
    InDays(log, Ascending(Days(log)))
  }

  lemma {:induction false} OfDayCounts(log: seq<Event>, day: int, e: Event)
    ensures multiset(OfDay(log, day))[e] == if Day(e) == day then multiset(log)[e] else 0
  {
    if log != [] {
      OfDayCounts(log[..|log| - 1], day, e);
      assert log == log[..|log| - 1] + [log[|log| - 1]];
    }
  }

  lemma {:induction false} InDaysCounts(log: seq<Event>, days: seq<int>, e: Event)
    requires forall i, j :: 0 <= i < j < |days| ==> days[i] < days[j]
    ensures multiset(InDays(log, days))[e] == if Day(e) in days then multiset(log)[e] else 0
  {
    if days != [] {
      var rest, last := days[..|days| - 1], days[|days| - 1];
      InDaysCounts(log, rest, e);
      OfDayCounts(log, last, e);
      assert days == rest + [last];
    }
  }

  /** The files hold the events of the log, no more and no less. */
  lemma FileOrderPermutes(log: seq<Event>)
    ensures multiset(FileOrder(log)) == multiset(log)
  {
    forall e ensures multiset(FileOrder(log))[e] == multiset(log)[e] {
      InDaysCounts(log, Ascending(Days(log)), e);
      if e in log {
        var i: nat :| i < |log| && log[i] == e;
        DaysHave(log, i);
      }
    }
  }
}
