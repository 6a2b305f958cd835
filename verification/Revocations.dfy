/** The revocation register: one line per revoked subject, appended and synchronised, in a file
    that a crash may leave with a torn last line. Characters stand for bytes. */
module Revocations {
  import opened Prelude
  import opened Lines
  import opened Utf8

  /** How a line is written, and what a complete line reads as. */
  datatype Codec = Codec(encode: (string, Time) -> string, decode: string -> Option<string>) {
    ghost predicate Faithful() {
      forall sub, at ::
        decode(encode(sub, at)) == Some(sub) && '\n' !in encode(sub, at) && IsText(encode(sub, at))
    }

    /** The fragment begins as a line does, which is all that a cut line can leave. */
    ghost predicate Begun(fragment: string) {
      exists sub, at :: encode(sub, at) != [] && encode(sub, at)[..1] <= fragment
    }

    /** Nothing that begins as a line does, stuck in front of a line, still reads as a line. */
    ghost predicate NeverGlues() {
      forall fragment, sub, at ::
        Begun(fragment) && '\n' !in fragment ==> decode(fragment + encode(sub, at)).None?
    }
  }

  // ---- Opening ----

  /** Position, from one, of the first line that does not read. */
  function DecodeAll(codec: Codec, lines: seq<string>): Result<seq<string>, nat> {
    if lines == [] then Ok([])
    else
      match DecodeAll(codec, lines[..|lines| - 1])
      case Err(e) => Err(e)
      case Ok(subjects) =>
        match codec.decode(lines[|lines| - 1])
        case None => Err(|lines|)
        case Some(sub) => Ok(subjects + [sub])
  }

  /** The subjects an opening reads: those of the complete lines, if the file is text at all. */
  function Reading(codec: Codec, text: string): Result<seq<string>, nat> {
    if IsText(text) then DecodeAll(codec, CompleteLines(text)) else Err(0)
  }

  function Line(codec: Codec, sub: string, at: Time): string {
    codec.encode(sub, at) + "\n"
  }

  /** What a write of the line leaves in the file: all of it, or its start if it fails. */
  function Written(codec: Codec, sub: string, at: Time, failsAfter: Option<nat>): string {
    var line := Line(codec, sub, at);
    match failsAfter
    case None => line
    case Some(n) => if n < |line| then line[..n] else line
  }

  class Register {
    const codec: Codec
    var file: string

    constructor (codec: Codec, file: string)
      ensures this.codec == codec && this.file == file
    {
      this.codec := codec;
      this.file := file;
    }

    /** Reads the revoked subjects and removes a torn last line; a file that is no text, or an
        unreadable complete line, refuses the register and leaves the file alone. */
    method Ouvrir() returns (r: Result<seq<string>, nat>)
      modifies this
      ensures r == Reading(codec, old(file))
      ensures file == if r.Ok? then Kept(old(file)) else old(file)
    {
      hide SplitTerminator; hide CompleteLines; hide Kept; hide EndsWith; hide IsText;
      if !IsText(file) {
        return Err(0);
      }
      var complete := EndsWith(file, "\n");
      var lines := SplitTerminator(file);
      var subjects := [];
      ghost var whole := CompleteLines(file);
      LinesToRead(file);
      if file == [] { NoLine(file); }
      for rank := 0 to |lines|
        invariant file == old(file)
        invariant rank <= |whole|
        invariant DecodeAll(codec, whole[..rank]) == Ok(subjects)
      {
        if !complete && rank + 1 == |lines| {
          assert whole[..rank] == whole;
          file := Kept(file);
          return Ok(subjects);
        }
        assert lines[rank] == whole[rank];
        assert whole[..rank + 1][..rank] == whole[..rank];
        match codec.decode(lines[rank]) {
          case None =>
            DecodeAllStops(codec, whole, rank + 1);
            return Err(rank + 1);
          case Some(sub) => subjects := subjects + [sub];
        }
      }
      assert whole[..|whole|] == whole;
      r := Ok(subjects);
    }

    /** Appends one line. The write may fail after some bytes, all of them when it is the
        synchronisation that fails; what was written stays. */
    method Inscrire(sub: string, at: Time, failsAfter: Option<nat>) returns (ok: bool)
      modifies this
      ensures ok <==> failsAfter.None?
      ensures file == old(file) + Written(codec, sub, at, failsAfter)
    {
      file := file + Written(codec, sub, at, failsAfter);
      ok := failsAfter.None?;
    }
  }

  lemma {:induction false} DecodeAllStops(codec: Codec, lines: seq<string>, n: nat)
    requires n <= |lines|
    requires DecodeAll(codec, lines[..n]).Err?
    ensures DecodeAll(codec, lines) == DecodeAll(codec, lines[..n])
  {
    if n < |lines| {
      var shorter := lines[..|lines| - 1];
      assert shorter[..n] == lines[..n];
      DecodeAllStops(codec, shorter, n);
    } else {
      assert lines[..n] == lines;
    }
  }

  // ---- A register only grows ----

  lemma {:induction false} LinesStay(text: string, more: string)
    ensures CompleteLines(text) <= CompleteLines(text + more)
  {
    hide CompleteLines; hide Tail;
    if more == "" {
      assert text + more == text;
    } else {
      var before, c := more[..|more| - 1], more[|more| - 1];
      LinesStay(text, before);
      assert text + more == (text + before) + [c];
      if c == '\n' {
        LinesOfEnd(text + before);
      } else {
        LinesOfAppend(text + before, [c]);
      }
    }
  }

  lemma {:induction false} DecodedStay(codec: Codec, lines: seq<string>, n: nat)
    requires n <= |lines| && DecodeAll(codec, lines).Ok?
    ensures DecodeAll(codec, lines[..n]).Ok?
    ensures DecodeAll(codec, lines[..n]).value <= DecodeAll(codec, lines).value
  {
    if n < |lines| {
      var shorter := lines[..|lines| - 1];
      assert shorter[..n] == lines[..n];
      DecodedStay(codec, shorter, n);
    } else {
      assert lines[..n] == lines;
    }
  }

  lemma LineIsText(codec: Codec, sub: string, at: Time)
    requires codec.Faithful()
    ensures var line := Line(codec, sub, at); IsText(line) && line != [] && !Continues(line[0])
  {
    var line, encoded := Line(codec, sub, at), codec.encode(sub, at);
    assert IsText(encoded);
    assert IsText("\n") by { assert "\n"[1..] == ""; }
    Join(encoded, "\n");
  }

  /** What was read stays read, and a register once unreadable stays so, whatever part of a line follows. */
  lemma ReadingStays(codec: Codec, text: string, more: string)
    requires more == [] || !Continues(more[0])
    ensures Reading(codec, text).Err? ==> Reading(codec, text + more).Err?
    ensures Reading(codec, text + more).Ok? ==> Reading(codec, text).value <= Reading(codec, text + more).value
  {
    hide IsText;
    var lines, lines' := CompleteLines(text), CompleteLines(text + more);
    if IsText(text + more) { Part(text, more); }
    LinesStay(text, more);
    assert lines == lines'[..|lines|];
    if DecodeAll(codec, lines').Ok? { DecodedStay(codec, lines', |lines|); }
  }

  /** Part of a line written before its end changes nothing that is read, unless it was cut inside a
      character: then the file is no text any more. */
  lemma CutReads(codec: Codec, text: string, sub: string, at: Time, n: nat)
    requires codec.Faithful() && n < |Line(codec, sub, at)|
    ensures
      var line := Line(codec, sub, at);
      var text' := text + line[..n];
      && (AtBoundary(text') <==> AtBoundary(text) && n == 0)
      && Tail(text') == Tail(text) + line[..n]
      && Kept(text') == Kept(text)
      && (Reading(codec, text).Err? ==> Reading(codec, text').Err?)
      && (Reading(codec, text).Ok? ==>
            Reading(codec, text') == if BetweenCharacters(line, n) then Reading(codec, text) else Err(0))
  {
    hide DecodeAll;
    var line := Line(codec, sub, at);
    var fragment := line[..n];
    assert fragment == codec.encode(sub, at)[..n];
    LinesOfAppend(text, fragment);
    LineIsText(codec, sub, at);
    CutIff(line, n);
    if fragment != [] { assert fragment[0] == line[0]; }
    hide IsText;
    if IsText(text) {
      if IsText(fragment) { Join(text, fragment); }
      if IsText(text + fragment) { Rest(text, fragment); }
    } else if IsText(text + fragment) {
      Part(text, fragment);
    }
  }

  lemma AppendedLine(codec: Codec, file: string, sub: string, at: Time)
    requires codec.Faithful()
    ensures AtBoundary(file + Line(codec, sub, at))
    ensures CompleteLines(file + Line(codec, sub, at)) == CompleteLines(file) + [Tail(file) + codec.encode(sub, at)]
  {
    var line := codec.encode(sub, at);
    LinesOfAppend(file, line);
    LinesOfEnd(file + line);
    assert file + Line(codec, sub, at) == file + line + "\n";
  }

  lemma InscriptionReads(codec: Codec, file: string, sub: string, at: Time)
    requires codec.Faithful() && AtBoundary(file) && Reading(codec, file).Ok?
    ensures AtBoundary(file + Line(codec, sub, at))
    ensures Reading(codec, file + Line(codec, sub, at)) == Ok(Reading(codec, file).value + [sub])
  {
    hide IsText;
    AppendedLine(codec, file, sub, at);
    LineIsText(codec, sub, at);
    Join(file, Line(codec, sub, at));
    var line := codec.encode(sub, at);
    assert Tail(file) + line == line;
    var lines := CompleteLines(file);
    assert (lines + [line])[..|lines|] == lines;
  }

  /** A readable file ends at a line boundary, or in the start of a line. */
  ghost predicate Tidy(codec: Codec, file: string) {
    AtBoundary(file) || codec.Begun(Tail(file))
  }

  lemma LastLineRefused(codec: Codec, lines: seq<string>, last: string)
    requires codec.decode(last).None?
    ensures DecodeAll(codec, lines + [last]).Err?
  {
    assert (lines + [last])[..|lines|] == lines;
  }

  lemma GluedIsRefused(codec: Codec, file: string, sub: string, at: Time)
    requires codec.Faithful() && codec.NeverGlues() && codec.Begun(Tail(file))
    ensures Reading(codec, file + Line(codec, sub, at)).Err?
  {
    hide IsText; hide Codec.Faithful; hide Codec.Begun; hide Tail; hide CompleteLines; hide DecodeAll;
    Shape(file);
    AppendedLine(codec, file, sub, at);
    assert codec.decode(Tail(file) + codec.encode(sub, at)).None?;
    LastLineRefused(codec, CompleteLines(file), Tail(file) + codec.encode(sub, at));
  }

  /** An inscription is read back as itself exactly when the file stood at a line boundary: after
      a partial write that no opening repaired, it would stick to the fragment. */
  lemma InscriptionReadsIff(codec: Codec, file: string, sub: string, at: Time)
    requires codec.Faithful() && codec.NeverGlues() && Reading(codec, file).Ok? && Tidy(codec, file)
    ensures Reading(codec, file + Line(codec, sub, at)) == Ok(Reading(codec, file).value + [sub])
            <==> AtBoundary(file)
    ensures Reading(codec, file + Line(codec, sub, at)).Ok? <==> AtBoundary(file)
  {
    if AtBoundary(file) {
      InscriptionReads(codec, file, sub, at);
    } else {
      GluedIsRefused(codec, file, sub, at);
    }
  }

  /** What a line, whole or cut, leaves behind it. */
  lemma WriteKeepsTidy(codec: Codec, file: string, sub: string, at: Time, failsAfter: Option<nat>)
    requires codec.Faithful() && Tidy(codec, file)
    ensures Tidy(codec, file + Written(codec, sub, at, failsAfter))
  {
    var line := Line(codec, sub, at);
    if failsAfter.Some? && failsAfter.value < |line| {
      var n := failsAfter.value;
      CutReads(codec, file, sub, at, n);
      if n == 0 {
        assert file + line[..0] == file;
      } else if AtBoundary(file) {
        assert line[..n][..1] == codec.encode(sub, at)[..1];
        assert Tail(file + line[..n]) == line[..n];
        assert codec.encode(sub, at)[..1] <= line[..n];
      } else {
        var s, t :| codec.encode(s, t) != [] && codec.encode(s, t)[..1] <= Tail(file);
        assert codec.encode(s, t)[..1] <= Tail(file) + line[..n];
      }
    } else {
      AppendedLine(codec, file, sub, at);
    }
  }

  /** What is kept of a text is one. */
  lemma KeptIsText(text: string)
    requires IsText(text)
    ensures IsText(Kept(text))
  {
    hide IsText;
    Shape(text);
    RSplitOnceMeaning(text, '\n');
    match RSplitOnce(text, '\n')
    case None => EmptyIsText();
    case Some((before, after)) =>
      assert text == before + ("\n" + after);
      Part(before, "\n" + after);
      AfterNewline(after);
      assert text == Kept(text) + after;
      Part(Kept(text), after);
  }

  lemma EmptyIsText()
    ensures IsText("")
  {
  }

  lemma AfterNewline(after: string)
    requires IsText("\n" + after)
    ensures IsText(after) && (after == [] || !Continues(after[0]))
  {
    assert ("\n" + after)[1..] == after;
  }

  // ---- Runs with crashes ----

  /** An inscription completes, or a crash stops its write after `written` bytes and the register
      is opened again. */
  datatype Event = Inscribed(sub: string, at: Time) | Torn(sub: string, at: Time, written: nat)

  function Step(codec: Codec, file: string, e: Event): Option<string> {
    match e
    case Inscribed(sub, at) => Some(file + Line(codec, sub, at))
    case Torn(sub, at, written) =>
      var torn := file + Written(codec, sub, at, Some(written));
      if Reading(codec, torn).Ok? then Some(Kept(torn)) else None
  }

  /** The register after these events, from an empty one; `None` once an opening is refused. */
  function Run(codec: Codec, events: seq<Event>): Option<string> {
    if events == [] then Some("")
    else
      match Run(codec, events[..|events| - 1])
      case None => None
      case Some(file) => Step(codec, file, events[|events| - 1])
  }

  /** The write was not cut inside a character. */
  predicate CleanCut(codec: Codec, e: Event) {
    e.Torn? ==> BetweenCharacters(Line(codec, e.sub, e.at), e.written)
  }

  predicate Completed(codec: Codec, e: Event) {
    e.Torn? ==> e.written >= |Line(codec, e.sub, e.at)|
  }

  function Confirmed(codec: Codec, events: seq<Event>): seq<string> {
    if events == [] then []
    else
      var last := events[|events| - 1];
      Confirmed(codec, events[..|events| - 1]) + if Completed(codec, last) then [last.sub] else []
  }

  /** A file at a line boundary, read after one event. */
  lemma StepReads(codec: Codec, file: string, e: Event)
    requires codec.Faithful() && AtBoundary(file) && Reading(codec, file).Ok?
    ensures Step(codec, file, e).Some? <==> CleanCut(codec, e)
    ensures Step(codec, file, e).Some? ==>
              && AtBoundary(Step(codec, file, e).value)
              && Reading(codec, Step(codec, file, e).value) ==
                   Ok(Reading(codec, file).value + if Completed(codec, e) then [e.sub] else [])
  {
    var line := Line(codec, e.sub, e.at);
    if Completed(codec, e) {
      InscriptionReads(codec, file, e.sub, e.at);
      var whole := file + line;
      KeptIsBoundary(whole);
      KeptIsText(whole);
    } else {
      hide IsText;
      CutReads(codec, file, e.sub, e.at, e.written);
      Shape(file);
      assert Kept(file) == file by { assert Kept(file) + [] == Kept(file); }
      assert Reading(codec, file).value + [] == Reading(codec, file).value;
    }
  }

  /** Wherever writes are cut, the register can be opened after each exactly when none was cut inside a
      character, and it then holds exactly the revocations whose writing completed, in order, and ends
      at a line boundary. */
  lemma {:induction false} CrashConsistent(codec: Codec, events: seq<Event>)
    requires codec.Faithful()
    ensures Run(codec, events).Some? <==> forall e <- events :: CleanCut(codec, e)
    ensures Run(codec, events).Some? ==>
              && AtBoundary(Run(codec, events).value)
              && Reading(codec, Run(codec, events).value) == Ok(Confirmed(codec, events))
  {
    hide Step; hide CleanCut;
    if events == [] {
      NoLine("");
    } else {
      var before, last := events[..|events| - 1], events[|events| - 1];
      CrashConsistent(codec, before);
      assert forall e :: e in events <==> e in before || e == last;
      if Run(codec, before).Some? { StepReads(codec, Run(codec, before).value, last); }
    }
  }

  /** With ASCII subjects no write can be cut inside a character. */
  lemma AsciiNeverRefused(codec: Codec, events: seq<Event>)
    requires codec.Faithful()
    requires forall sub, at, i :: 0 <= i < |codec.encode(sub, at)| ==> codec.encode(sub, at)[i] as int < 0x80
    ensures Run(codec, events).Some?
  {
    CrashConsistent(codec, events);
    forall e | e in events ensures CleanCut(codec, e) {
      AsciiCuts(Line(codec, e.sub, e.at), if e.Torn? then e.written else 0);
    }
  }
}
