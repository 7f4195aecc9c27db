/** Text as lines that keep their newline (`split_inclusive('\n')` in Rust), and back. */
module Lines {
  type Line = string

  /** The length of the first line of a text. */
  function FirstLine(text: string): (n: nat)
    requires text != ""
    ensures 0 < n <= |text| && '\n' !in text[..n - 1]
    ensures n < |text| ==> text[n - 1] == '\n'
  {
    if text[0] == '\n' || |text| == 1 then 1 else 1 + FirstLine(text[1..])
  }

  function Split(text: string): seq<Line> {
    if text == "" then [] else [text[..FirstLine(text)]] + Split(text[FirstLine(text)..])
  }

  function Join(lines: seq<Line>): string {
    if lines == [] then "" else lines[0] + Join(lines[1..])
  }

  /** A non-empty line with no newline before its end. */
  predicate OneLine(line: Line) {
    line != "" && '\n' !in line[..|line| - 1]
  }

  predicate Whole(line: Line) {
    OneLine(line) && line[|line| - 1] == '\n'
  }

  /** Lines as a text splits into: each ends in its only newline, except perhaps the last. */
  predicate Proper(lines: seq<Line>) {
    (forall i :: 0 <= i < |lines| ==> OneLine(lines[i])) && (forall i :: 0 <= i < |lines| - 1 ==> Whole(lines[i]))
  }

  lemma {:induction false} JoinAppend(x: seq<Line>, y: seq<Line>)
    ensures Join(x + y) == Join(x) + Join(y)
  {
    if x == [] {
      assert x + y == y;
    } else {
      JoinAppend(x[1..], y);
      assert (x + y)[1..] == x[1..] + y && (x + y)[0] == x[0];
      assert x[0] + (Join(x[1..]) + Join(y)) == (x[0] + Join(x[1..])) + Join(y);
    }
  }

  lemma {:induction false} FirstLineOf(line: Line, rest: string)
    requires OneLine(line) && (rest == "" || Whole(line))
    ensures FirstLine(line + rest) == |line|
  {
    if |line| > 1 {
      assert line[..|line| - 1][0] == line[0] && line[1..][..|line| - 2] == line[..|line| - 1][1..];
      FirstLineOf(line[1..], rest);
      assert (line + rest)[1..] == line[1..] + rest;
    }
  }

  lemma ProperCons(line: Line, rest: seq<Line>)
    requires OneLine(line) && Proper(rest) && (rest != [] ==> Whole(line))
    ensures Proper([line] + rest)
  {
    hide OneLine, Whole;
  }

  /** Splitting and joining are inverse, and exactly the proper lists of lines are splits. */
  lemma {:induction false} SplitJoin(text: string)
    ensures Join(Split(text)) == text && Proper(Split(text))
  {
    hide Proper;
    if text == "" {
      NoLinesProper();
    } else {
      var n := FirstLine(text);
      SplitJoin(text[n..]);
      assert text[..n][..n - 1] == text[..n - 1];
      ProperCons(text[..n], Split(text[n..]));
    }
  }

  lemma NoLinesProper()
    ensures Proper([])
  {
  }

  lemma {:induction false} JoinSplit(lines: seq<Line>)
    requires Proper(lines)
    ensures Split(Join(lines)) == lines
  {
    if lines != [] {
      JoinSplit(lines[1..]);
      FirstLineOf(lines[0], Join(lines[1..]));
    }
  }

  lemma ProperSplit(x: seq<Line>, y: seq<Line>)
    requires Proper(x + y)
    ensures Proper(x) && Proper(y)
    ensures y != [] ==> forall l :: l in x ==> Whole(l)
  {
    hide OneLine;
    assert forall i :: 0 <= i < |x| ==> (x + y)[i] == x[i];
    assert forall i :: 0 <= i < |y| ==> (x + y)[|x| + i] == y[i];
  }

  lemma ProperAppend(x: seq<Line>, y: seq<Line>)
    requires Proper(x) && Proper(y) && (y != [] ==> forall l :: l in x ==> Whole(l))
    ensures Proper(x + y)
  {
    hide OneLine;
    assert x != [] ==> x[|x| - 1] in x;
  }
}
