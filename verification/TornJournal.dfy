/** The audit journal when writes are cut short: by a crash, or by a failure the service survives. */
module TornJournal {
  import opened Prelude
  import opened Lines
  import opened Ledger
  import opened DayFiles
  import opened Store

  /** An attempt to write an event, and how many bytes of its line reached the file. */
  datatype Attempt = Attempt(e: Event, bytes: nat) {
    /** The line and its end. */
    predicate Whole(codec: Codec) { bytes > |codec.encode(e)| }

    /** The line without its end. */
    predicate Unended(codec: Codec) { bytes == |codec.encode(e)| }

    function Piece(codec: Codec): string {
      if Whole(codec) then codec.encode(e) + "\n" else codec.encode(e)[..bytes]
    }
  }

  /** The day files after these attempts. */
  function FilesAfter(codec: Codec, files: map<int, string>, tries: seq<Attempt>): map<int, string> {
    if tries == [] then files
    else
      var before, last := FilesAfter(codec, files, tries[..|tries| - 1]), tries[|tries| - 1];
      before[Day(last.e) := FileText(before, Day(last.e)) + last.Piece(codec)]
  }

  function Glue(codec: Codec, tries: seq<Attempt>): string {
    if tries == [] then "" else Glue(codec, tries[..|tries| - 1]) + tries[|tries| - 1].Piece(codec)
  }

  /** Starts of lines, one after the other without an end of line, read only when they are one whole line. */
  ghost predicate OneLineOnly(codec: Codec) {
    forall tries: seq<Attempt> ::
      tries != [] && (forall t <- tries :: t.bytes > 0 && !t.Whole(codec)) ==>
        && !Blank(Glue(codec, tries))
        && (codec.decode(Glue(codec, tries)).Some? ==> |tries| == 1 && tries[0].Unended(codec))
  }

  // ---- What one day file is made of ----

  /** The pieces after the last end of line of a day. */
  function Pending(codec: Codec, tries: seq<Attempt>, day: int): seq<Attempt> {
    if tries == [] then []
    else
      var before, last := Pending(codec, tries[..|tries| - 1], day), tries[|tries| - 1];
      if Day(last.e) != day || last.bytes == 0 then before
      else if last.Whole(codec) then []
      else before + [last]
  }

  /** No end of line was written after a piece of another line. */
  predicate Clean(codec: Codec, tries: seq<Attempt>, day: int) {
    tries == [] ||
    var before, last := tries[..|tries| - 1], tries[|tries| - 1];
    && Clean(codec, before, day)
    && (Day(last.e) == day && last.Whole(codec) ==> Pending(codec, before, day) == [])
  }

  /** The events of a day whose line has its end. */
  function Ended(codec: Codec, tries: seq<Attempt>, day: int): seq<Event> {
    if tries == [] then []
    else
      var before, last := Ended(codec, tries[..|tries| - 1], day), tries[|tries| - 1];
      if Day(last.e) == day && last.Whole(codec) then before + [last.e] else before
  }

  lemma {:induction false} PendingAreStarts(codec: Codec, tries: seq<Attempt>, day: int)
    ensures forall t <- Pending(codec, tries, day) :: t.bytes > 0 && !t.Whole(codec)
  {
    if tries != [] { PendingAreStarts(codec, tries[..|tries| - 1], day); }
  }

  lemma GlueGrows(codec: Codec, tries: seq<Attempt>, t: Attempt)
    ensures Glue(codec, tries + [t]) == Glue(codec, tries) + t.Piece(codec)
  {
    assert (tries + [t])[..|tries|] == tries;
  }

  lemma DecodeGrows(codec: Codec, lines: seq<string>, line: string)
    ensures DecodeLines(codec, lines + [line]) ==
            match DecodeLines(codec, lines)
            case Err(n) => Err(n)
            case Ok(es) =>
              if Blank(line) then Ok(es)
              else if codec.decode(line).None? then Err(|lines| + 1)
              else Ok(es + [codec.decode(line).value])
  {
    assert (lines + [line])[..|lines|] == lines;
  }

  /** A line ended after these pieces reads exactly when there are none. */
  lemma EndedLine(codec: Codec, pending: seq<Attempt>, e: Event)
    requires codec.Faithful() && OneLineOnly(codec)
    requires forall t <- pending :: t.bytes > 0 && !t.Whole(codec)
    ensures
      var line := Glue(codec, pending) + codec.encode(e);
      && !Blank(line)
      && codec.decode(line) == if pending == [] then Some(e) else None
  {
    var t := Attempt(e, |codec.encode(e)|);
    assert codec.encode(e)[..t.bytes] == codec.encode(e);
    GlueGrows(codec, pending, t);
    NeverEmpty(codec, e);
    GlueNothing(codec);
    assert "" + codec.encode(e) == codec.encode(e);
    hide Glue; hide Blank;
    assert forall x <- pending + [t] :: x.bytes > 0 && !x.Whole(codec);
  }

  /** The ended lines of a day file read exactly when none was glued, and then as its events; what
      follows them is the pending pieces. */
  lemma {:induction false} FileIs(codec: Codec, log: seq<Event>, files: map<int, string>, tries: seq<Attempt>, day: int)
    requires codec.Faithful() && OneLineOnly(codec) && FilesHold(codec, log, files)
    ensures
      var text := FileText(FilesAfter(codec, files, tries), day);
      var read := DecodeLines(codec, CompleteLines(text));
      && Tail(text) == Glue(codec, Pending(codec, tries, day))
      && (read.Ok? <==> Clean(codec, tries, day))
      && (read.Ok? ==> read.value == OfDay(log, day) + Ended(codec, tries, day))
  {
    hide Tail; hide CompleteLines; hide Glue; hide OneLineOnly; hide OfDay; hide FilesHold;
    hide Blank; hide DecodeLines;
    var text := FileText(FilesAfter(codec, files, tries), day);
    if tries == [] {
      GlueNothing(codec);
      FileBefore(codec, log, files, day);
    } else {
      var before, last := tries[..|tries| - 1], tries[|tries| - 1];
      FileIs(codec, log, files, before, day);
      var text' := FileText(FilesAfter(codec, files, before), day);
      var pending := Pending(codec, before, day);
      PendingAreStarts(codec, before, day);
      if Day(last.e) == day {
        assert text == text' + last.Piece(codec);
        if last.bytes == 0 {
          assert text == text';
        } else if last.Whole(codec) {
          LineAdded(codec, text', last.e, pending);
          assert text == text' + codec.encode(last.e) + "\n";
          GlueNothing(codec);
          assert OfDay(log, day) + (Ended(codec, before, day) + [last.e]) ==
                 (OfDay(log, day) + Ended(codec, before, day)) + [last.e];
        } else {
          assert '\n' !in last.Piece(codec);
          LinesOfAppend(text', last.Piece(codec));
          GlueGrows(codec, pending, last);
        }
      }
    }
  }

  lemma NothingIsBlank()
    ensures Blank("")
  {
  }

  lemma GlueNothing(codec: Codec)
    ensures Glue(codec, []) == ""
  {
  }

  lemma FileBefore(codec: Codec, log: seq<Event>, files: map<int, string>, day: int)
    requires codec.Faithful() && FilesHold(codec, log, files)
    ensures
      var text := FileText(files, day);
      && Tail(text) == ""
      && DecodeLines(codec, CompleteLines(text)) == Ok(OfDay(log, day) + [])
  {
    hide Tail; hide Kept; hide CompleteLines; hide SplitTerminator; hide EndsWith; hide Blank; hide DecodeLines;
    var es := OfDay(log, day);
    FileTextHolds(codec, log, files, day);
    TextLines(codec, es);
    BoundaryMeansEnded(Text(codec, es));
    LinesToRead(Text(codec, es));
    DecodeEncoded(codec, es);
    assert es + [] == es;
  }

  lemma LineAdded(codec: Codec, text: string, e: Event, pending: seq<Attempt>)
    requires codec.Faithful() && OneLineOnly(codec)
    requires Tail(text) == Glue(codec, pending) && forall t <- pending :: t.bytes > 0 && !t.Whole(codec)
    ensures
      var before := DecodeLines(codec, CompleteLines(text));
      var text' := text + codec.encode(e) + "\n";
      var after := DecodeLines(codec, CompleteLines(text'));
      && Tail(text') == ""
      && (after.Ok? <==> before.Ok? && pending == [])
      && (after.Ok? ==> after.value == before.value + [e])
  {
    hide Tail; hide CompleteLines; hide Glue; hide OneLineOnly; hide Blank; hide DecodeLines;
    LinesOfAppend(text, codec.encode(e));
    LinesOfEnd(text + codec.encode(e));
    EndedLine(codec, pending, e);
    DecodeGrows(codec, CompleteLines(text), Glue(codec, pending) + codec.encode(e));
  }

  // ---- When the journal opens again ----

  /** Every attempt of the day left nothing or its whole line. */
  ghost predicate AllOrNothing(codec: Codec, tries: seq<Attempt>, day: int) {
    forall t <- tries :: Day(t.e) == day ==> t.bytes == 0 || t.Whole(codec)
  }

  /** The same, but for one line that only lacks its end and after which nothing was written. */
  ghost predicate OnlyTheLastUnended(codec: Codec, tries: seq<Attempt>, day: int) {
    forall i :: 0 <= i < |tries| && Day(tries[i].e) == day ==>
      || tries[i].bytes == 0
      || tries[i].Whole(codec)
      || (tries[i].Unended(codec) &&
          forall j :: i < j < |tries| && Day(tries[j].e) == day ==> tries[j].bytes == 0)
  }

  lemma {:induction false} AllOrNothingIff(codec: Codec, tries: seq<Attempt>, day: int)
    ensures AllOrNothing(codec, tries, day) <==>
              Clean(codec, tries, day) && Pending(codec, tries, day) == []
  {
    if tries != [] {
      var before, last := tries[..|tries| - 1], tries[|tries| - 1];
      AllOrNothingIff(codec, before, day);
      assert tries == before + [last];
    }
  }

  /** The pieces left pending make one whole line. */
  predicate OneUnended(codec: Codec, pending: seq<Attempt>) {
    |pending| == 1 && pending[0].Unended(codec)
  }

  lemma {:induction false} LastUnendedIff(codec: Codec, tries: seq<Attempt>, day: int)
    ensures OnlyTheLastUnended(codec, tries, day) <==>
              && Clean(codec, tries, day)
              && (Pending(codec, tries, day) == [] || OneUnended(codec, Pending(codec, tries, day)))
  {
    if tries != [] {
      var before, last := tries[..|tries| - 1], tries[|tries| - 1];
      LastUnendedIff(codec, before, day);
      AllOrNothingIff(codec, before, day);
      LastDecides(codec, before, last, day);
      assert tries == before + [last];
    }
  }

  lemma LastDecides(codec: Codec, before: seq<Attempt>, last: Attempt, day: int)
    ensures OnlyTheLastUnended(codec, before + [last], day) <==>
              if Day(last.e) != day || last.bytes == 0 then OnlyTheLastUnended(codec, before, day)
              else AllOrNothing(codec, before, day) && (last.Whole(codec) || last.Unended(codec))
  {
    var tries := before + [last];
    assert tries[|before|] == last;
    assert forall i :: 0 <= i < |before| ==> tries[i] == before[i];
    if AllOrNothing(codec, before, day) {
      assert forall i :: 0 <= i < |before| ==> before[i] in before;
    } else {
      var t :| t in before && Day(t.e) == day && t.bytes != 0 && !t.Whole(codec);
      var i :| 0 <= i < |before| && before[i] == t;
      assert tries[i] == t;
    }
  }

  lemma {:induction false} NoBadIff(codec: Codec, lines: seq<string>)
    ensures DecodeLines(codec, lines).Ok? <==>
              forall m :: 0 <= m < |lines| ==> Blank(lines[m]) || codec.decode(lines[m]).Some?
  {
    hide Blank;
    if lines != [] {
      var before, last := lines[..|lines| - 1], lines[|lines| - 1];
      NoBadIff(codec, before);
      assert forall m :: 0 <= m < |before| ==> before[m] == lines[m];
    }
  }

  /** The events of a day whose line is in its file, ended or not. */
  function Reached(codec: Codec, tries: seq<Attempt>, day: int): seq<Event> {
    if tries == [] then []
    else
      var before, last := Reached(codec, tries[..|tries| - 1], day), tries[|tries| - 1];
      if Day(last.e) == day && (last.Whole(codec) || last.Unended(codec)) then before + [last.e] else before
  }

  lemma {:induction false} ReachedIs(codec: Codec, tries: seq<Attempt>, day: int)
    requires codec.Faithful() && OnlyTheLastUnended(codec, tries, day)
    ensures
      var pending := Pending(codec, tries, day);
      && (pending == [] || OneUnended(codec, pending))
      && Reached(codec, tries, day) == Ended(codec, tries, day) + if pending == [] then [] else [pending[0].e]
  {
    hide Codec.Faithful; hide OnlyTheLastUnended; hide AllOrNothing; hide Clean;
    LastUnendedIff(codec, tries, day);
    if tries != [] {
      var before, last := tries[..|tries| - 1], tries[|tries| - 1];
      assert tries == before + [last];
      LastDecides(codec, before, last, day);
      NeverEmpty(codec, last.e);
      if Day(last.e) != day || last.bytes == 0 {
        ReachedIs(codec, before, day);
      } else {
        AllOrNothingIff(codec, before, day);
        WholeMeansLast(codec, before, day);
        ReachedIs(codec, before, day);
      }
    }
  }

  lemma NeverEmpty(codec: Codec, e: Event)
    requires codec.Faithful()
    ensures codec.encode(e) != ""
  {
    assert !Blank(codec.encode(e)) && Blank("");
  }

  lemma WholeMeansLast(codec: Codec, tries: seq<Attempt>, day: int)
    requires AllOrNothing(codec, tries, day)
    ensures OnlyTheLastUnended(codec, tries, day)
  {
    assert forall i :: 0 <= i < |tries| ==> tries[i] in tries;
  }

  /** Rebuilding the index finds no bad line in this file. */
  ghost predicate Reads(codec: Codec, text: string) {
    forall m: nat :: !Bad(codec, text, m)
  }

  lemma ReadsMeansDecodes(codec: Codec, text: string)
    ensures Reads(codec, text) <==> DecodeLines(codec, SplitTerminator(text)).Ok?
  {
    hide SplitTerminator; hide Blank; hide DecodeLines;
    var lines := SplitTerminator(text);
    NoBadIff(codec, lines);
    if Reads(codec, text) {
      forall m: nat | m < |lines| ensures Blank(lines[m]) || codec.decode(lines[m]).Some? {
        assert !Bad(codec, text, m);
      }
    }
  }

  /** A day file reads back exactly when every attempt of the day left nothing or a whole line, but for
      a last one that may lack its end. It then gives the events whose line reached it. */
  lemma DayReadsIff(codec: Codec, log: seq<Event>, files: map<int, string>, tries: seq<Attempt>, day: int)
    requires codec.Faithful() && OneLineOnly(codec) && FilesHold(codec, log, files)
    ensures
      var text := FileText(FilesAfter(codec, files, tries), day);
      && (Reads(codec, text) <==> OnlyTheLastUnended(codec, tries, day))
      && (OnlyTheLastUnended(codec, tries, day) ==>
            DecodeLines(codec, SplitTerminator(text)) == Ok(OfDay(log, day) + Reached(codec, tries, day)))
  {
    hide Tail; hide Kept; hide CompleteLines; hide SplitTerminator; hide EndsWith; hide Blank; hide DecodeLines;
    hide Glue; hide OneLineOnly; hide FilesHold; hide OfDay; hide AtBoundary; hide OnlyTheLastUnended;
    var text := FileText(FilesAfter(codec, files, tries), day);
    var pending := Pending(codec, tries, day);
    FileIs(codec, log, files, tries, day);
    LastUnendedIff(codec, tries, day);
    PendingAreStarts(codec, tries, day);
    ReadsMeansDecodes(codec, text);
    TailReads(codec, text, pending);
    if OnlyTheLastUnended(codec, tries, day) {
      ReachedIs(codec, tries, day);
      if pending == [] {
        assert Ended(codec, tries, day) + [] == Ended(codec, tries, day);
      } else {
        assert OfDay(log, day) + (Ended(codec, tries, day) + [pending[0].e]) ==
               (OfDay(log, day) + Ended(codec, tries, day)) + [pending[0].e];
      }
    }
  }

  /** What follows the ended lines adds nothing, one event, or an error. */
  lemma TailReads(codec: Codec, text: string, pending: seq<Attempt>)
    requires codec.Faithful() && OneLineOnly(codec) && Tail(text) == Glue(codec, pending)
    requires forall t <- pending :: t.bytes > 0 && !t.Whole(codec)
    ensures
      var ended, all := DecodeLines(codec, CompleteLines(text)), DecodeLines(codec, SplitTerminator(text));
      && (pending == [] ==> all == ended)
      && (OneUnended(codec, pending) && ended.Ok? ==> all == Ok(ended.value + [pending[0].e]))
      && (all.Ok? ==> ended.Ok? && (pending == [] || OneUnended(codec, pending)))
  {
    hide Tail; hide Kept; hide CompleteLines; hide SplitTerminator; hide EndsWith; hide DecodeLines; hide Blank;
    hide Glue;
    GlueNothing(codec);
    BoundaryMeansEnded(text);
    LinesToRead(text);
    DecodeGrows(codec, CompleteLines(text), Tail(text));
    NothingIsBlank();
    if OneUnended(codec, pending) { GlueOne(codec, pending); }
  }

  lemma GlueOne(codec: Codec, pending: seq<Attempt>)
    requires OneUnended(codec, pending)
    ensures Glue(codec, pending) == codec.encode(pending[0].e)
  {
    assert pending == [] + [pending[0]];
    GlueGrows(codec, [], pending[0]);
  }

  /** The journal opens again exactly when that holds of every day. */
  lemma OpensAgainIff(codec: Codec, log: seq<Event>, files: map<int, string>, tries: seq<Attempt>)
    requires codec.Faithful() && OneLineOnly(codec) && FilesHold(codec, log, files)
    ensures
      var files' := FilesAfter(codec, files, tries);
      (forall d <- files' :: Reads(codec, files'[d])) <==> forall d: int :: OnlyTheLastUnended(codec, tries, d)
  {
    hide OnlyTheLastUnended; hide FilesHold; hide OneLineOnly; hide Reads; hide OfDay; hide Reached;
    var files' := FilesAfter(codec, files, tries);
    NothingReads(codec);
    forall d: int
      ensures OnlyTheLastUnended(codec, tries, d) <==> (d in files' ==> Reads(codec, files'[d]))
    {
      DayReadsIff(codec, log, files, tries, d);
    }
  }

  lemma NothingReads(codec: Codec)
    ensures Reads(codec, "")
  {
  }
}
