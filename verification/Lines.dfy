/** Texts made of lines, as files hold them. Characters stand for bytes. */
module Lines {
  import opened Prelude

  /** What follows the last end of line: empty at a line boundary. */
  function Tail(text: string): string {
    match RSplitOnce(text, '\n')
    case None => text
    case Some((_, after)) => after
  }

  predicate AtBoundary(text: string) { Tail(text) == [] }

  /** The text up to its last end of line, included. */
  function Kept(text: string): string {
    match RSplitOnce(text, '\n')
    case None => ""
    case Some((before, _)) => before + "\n"
  }

  /** The pieces ended by an end of line, plus an unended last piece if it is not empty. */
  function SplitTerminator(text: string): seq<string> {
    var parts := Split(text, '\n');
    if parts[|parts| - 1] == [] then parts[..|parts| - 1] else parts
  }

  function CompleteLines(text: string): seq<string> {
    var parts := Split(text, '\n');
    parts[..|parts| - 1]
  }

  /** Both ways of cutting a text agree: the part after the last end of line is the last piece,
      and the pieces before it are the complete lines. */
  lemma Shape(text: string)
    ensures '\n' !in Tail(text)
    ensures text == Kept(text) + Tail(text)
    ensures Split(text, '\n') == CompleteLines(text) + [Tail(text)]
    ensures RSplitOnce(text, '\n').None? ==> CompleteLines(text) == []
    ensures RSplitOnce(text, '\n').Some? ==>
              CompleteLines(text) == Split(RSplitOnce(text, '\n').value.0, '\n')
  {
    RSplitOnceMeaning(text, '\n');
    match RSplitOnce(text, '\n')
    case None => SplitWithout(text, '\n');
    case Some((a, b)) =>
      SplitAppend(a, b, '\n');
      SplitWithout(b, '\n');
  }

  lemma ShapeOf(a: string, b: string)
    requires '\n' !in b
    ensures Tail(a + "\n" + b) == b
    ensures Kept(a + "\n" + b) == a + "\n"
    ensures CompleteLines(a + "\n" + b) == Split(a, '\n')
  {
    RSplitOnceAppend(a, b, '\n');
    assert a + ['\n'] + b == a + "\n" + b;
    Shape(a + "\n" + b);
  }

  lemma NoLine(text: string)
    requires '\n' !in text
    ensures Tail(text) == text && Kept(text) == "" && CompleteLines(text) == []
  {
    RSplitOnceMeaning(text, '\n');
    SplitWithout(text, '\n');
  }

  lemma KeptIsBoundary(text: string)
    ensures AtBoundary(Kept(text))
    ensures CompleteLines(Kept(text)) == CompleteLines(text)
    ensures Kept(text) == [] || EndsWith(Kept(text), "\n")
  {
    Shape(text);
    match RSplitOnce(text, '\n')
    case None => NoLine("");
    case Some((a, b)) =>
      ShapeOf(a, "");
      assert a + "\n" + "" == a + "\n";
  }

  lemma BoundaryMeansEnded(text: string)
    ensures AtBoundary(text) <==> text == [] || EndsWith(text, "\n")
  {
    Shape(text);
    KeptIsBoundary(text);
    if EndsWith(text, "\n") {
      var a := text[..|text| - 1];
      assert text == a + "\n" + "";
      ShapeOf(a, "");
    }
  }

  lemma LinesOfAppend(text: string, line: string)
    requires '\n' !in line
    ensures Tail(text + line) == Tail(text) + line
    ensures Kept(text + line) == Kept(text)
    ensures CompleteLines(text + line) == CompleteLines(text)
  {
    Shape(text);
    match RSplitOnce(text, '\n')
    case None => NoLine(text + line);
    case Some((a, b)) =>
      assert text + line == a + "\n" + (b + line);
      ShapeOf(a, b + line);
  }

  lemma LinesOfEnd(text: string)
    ensures AtBoundary(text + "\n")
    ensures CompleteLines(text + "\n") == CompleteLines(text) + [Tail(text)]
  {
    assert text + "\n" + "" == text + "\n";
    ShapeOf(text, "");
    Shape(text);
  }

  /** What a reader goes through: the complete lines, then a torn one if there is one. */
  lemma LinesToRead(text: string)
    ensures EndsWith(text, "\n") || text == [] ==> SplitTerminator(text) == CompleteLines(text) && Kept(text) == text
    ensures !EndsWith(text, "\n") && text != [] ==> SplitTerminator(text) == CompleteLines(text) + [Tail(text)]
  {
    Shape(text);
    BoundaryMeansEnded(text);
  }
}
