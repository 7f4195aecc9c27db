/** Conflict files in the GUI's merge editor (gui/src/main.rs): the grammar of a file with
    conflict markers, what parsing keeps of it, and what choosing sides composes. */
module Conflict {
  import opened Lines
  import opened Wrappers

  datatype Marker = Open | Middle | Close

  function Prefix(marker: Marker): string {
    match marker
    case Open => "<<<<<<<"
    case Middle => "======="
    case Close => ">>>>>>>"
  }

  predicate StartsWith(line: Line, marker: Marker) {
    Prefix(marker) <= line
  }

  /** The first line from `from` on with the marker, or the number of lines. */
  function Find(lines: seq<Line>, from: nat, marker: Marker): (n: nat)
    requires from <= |lines|
    ensures from <= n <= |lines|
    ensures forall i :: from <= i < n ==> !StartsWith(lines[i], marker)
    ensures n < |lines| ==> StartsWith(lines[n], marker)
    decreases |lines| - from
  {
    if from == |lines| || StartsWith(lines[from], marker) then from else Find(lines, from + 1, marker)
  }

  lemma FindIs(lines: seq<Line>, from: nat, marker: Marker, n: nat)
    requires from <= n <= |lines| && (n < |lines| ==> StartsWith(lines[n], marker))
    requires forall i :: from <= i < n ==> !StartsWith(lines[i], marker)
    ensures Find(lines, from, marker) == n
  {
    hide StartsWith;
  }

  datatype Source = Ours | Theirs

  datatype ConflictHunk = ConflictHunk(ours: seq<Line>, theirs: seq<Line>, choices: seq<Source>)

  datatype ConflictSection = Plain(text: string) | Hunk(hunk: ConflictHunk)

  datatype ParseError = MissingMiddle | MissingClose

  // -------------------------------------------------------------------- the file grammar

  datatype Piece =
    | Text(lines: seq<Line>)
    | Marked(open: Line, ours: seq<Line>, middle: Line, theirs: seq<Line>, close: Line)

  /** How a file ends: after a complete piece, or inside a conflict. */
  datatype Ending =
    | Complete
    | InOurs(open: Line, ours: seq<Line>)
    | InTheirs(open: Line, ours: seq<Line>, middle: Line, theirs: seq<Line>)

  datatype File = File(pieces: seq<Piece>, ending: Ending)

  predicate NoLineStarts(lines: seq<Line>, marker: Marker) {
    forall i :: 0 <= i < |lines| ==> !StartsWith(lines[i], marker)
  }

  predicate GoodPiece(p: Piece) {
    match p
    case Text(lines) => lines != [] && NoLineStarts(lines, Open)
    case Marked(open, ours, middle, theirs, close) =>
      && StartsWith(open, Open) && NoLineStarts(ours, Middle) && StartsWith(middle, Middle)
      && NoLineStarts(theirs, Close) && StartsWith(close, Close)
  }

  predicate GoodEnding(e: Ending) {
    match e
    case Complete => true
    case InOurs(open, ours) => StartsWith(open, Open) && NoLineStarts(ours, Middle)
    case InTheirs(open, ours, middle, theirs) =>
      StartsWith(open, Open) && NoLineStarts(ours, Middle) && StartsWith(middle, Middle) && NoLineStarts(theirs, Close)
  }

  predicate GoodPieces(pieces: seq<Piece>) {
    forall i :: 0 <= i < |pieces| ==> GoodPiece(pieces[i])
  }

  /** Adjacent texts are one text. */
  predicate Separated(pieces: seq<Piece>) {
    forall i :: 0 <= i < |pieces| - 1 ==> !(pieces[i].Text? && pieces[i + 1].Text?)
  }

  predicate Good(f: File) {
    GoodPieces(f.pieces) && Separated(f.pieces) && GoodEnding(f.ending)
  }

  function PieceLines(p: Piece): seq<Line> {
    match p
    case Text(lines) => lines
    case Marked(open, ours, middle, theirs, close) => [open] + ours + [middle] + theirs + [close]
  }

  function EndingLines(e: Ending): seq<Line> {
    match e
    case Complete => []
    case InOurs(open, ours) => [open] + ours
    case InTheirs(open, ours, middle, theirs) => [open] + ours + [middle] + theirs
  }

  function PiecesLines(pieces: seq<Piece>): seq<Line> {
    if pieces == [] then [] else PieceLines(pieces[0]) + PiecesLines(pieces[1..])
  }

  /** The lines of a file, markers and all. */
  function Written(f: File): seq<Line> {
    PiecesLines(f.pieces) + EndingLines(f.ending)
  }

  /** A line, or a piece, in front of a file. */
  function Prepend(line: Line, f: File): File {
    if f.pieces != [] && f.pieces[0].Text? then Before(Text([line] + f.pieces[0].lines), f.(pieces := f.pieces[1..]))
    else Before(Text([line]), f)
  }

  function Before(p: Piece, f: File): File {
    f.(pieces := [p] + f.pieces)
  }

  function Read(lines: seq<Line>): File {
    if lines == [] then File([], Complete)
    else if !StartsWith(lines[0], Open) then Prepend(lines[0], Read(lines[1..]))
    else
      var m := Find(lines, 1, Middle);
      if m == |lines| then File([], InOurs(lines[0], lines[1..]))
      else
        var c := Find(lines, m + 1, Close);
        if c == |lines| then File([], InTheirs(lines[0], lines[1..m], lines[m], lines[m + 1..]))
        else Before(Marked(lines[0], lines[1..m], lines[m], lines[m + 1..c], lines[c]), Read(lines[c + 1..]))
  }

  lemma BeforeGood(p: Piece, f: File)
    requires Good(f) && GoodPiece(p) && !(p.Text? && f.pieces != [] && f.pieces[0].Text?)
    ensures Good(Before(p, f)) && Written(Before(p, f)) == PieceLines(p) + Written(f)
  {
    hide GoodPiece;
    assert Before(p, f).pieces[1..] == f.pieces;
  }

  lemma TailGood(f: File)
    requires Good(f) && f.pieces != []
    ensures var rest := f.(pieces := f.pieces[1..]);
      Good(rest) && GoodPiece(f.pieces[0]) && f == Before(f.pieces[0], rest)
        && Written(f) == PieceLines(f.pieces[0]) + Written(rest)
  {
    hide GoodPiece;
  }

  lemma PrependGood(line: Line, f: File)
    requires Good(f) && !StartsWith(line, Open)
    ensures Good(Prepend(line, f)) && Written(Prepend(line, f)) == [line] + Written(f)
  {
    hide Good, Written, StartsWith;
    if f.pieces != [] && f.pieces[0].Text? {
      TailGood(f);
      if |f.pieces| > 1 {
        NextNotText(f);
      }
      TextPiece(line, f.pieces[0]);
      BeforeGood(Text([line] + f.pieces[0].lines), f.(pieces := f.pieces[1..]));
    } else {
      BeforeGood(Text([line]), f);
    }
  }

  lemma TextPiece(line: Line, p: Piece)
    requires p.Text? && GoodPiece(p) && !StartsWith(line, Open)
    ensures GoodPiece(Text([line] + p.lines))
  {
  }

  lemma NextNotText(f: File)
    requires Good(f) && |f.pieces| > 1 && f.pieces[0].Text?
    ensures !f.pieces[1].Text?
  {
    hide GoodPiece;
  }

  /** Every list of lines is written by some good file. */
  lemma {:induction false} ReadWritten(lines: seq<Line>)
    ensures Good(Read(lines)) && Written(Read(lines)) == lines
  {
    hide StartsWith, Good, GoodPiece, GoodEnding, PieceLines, EndingLines, Written, Prepend, Before;
    if lines == [] {
      NothingWritten();
    } else if !StartsWith(lines[0], Open) {
      ReadWritten(lines[1..]);
      PrependGood(lines[0], Read(lines[1..]));
    } else {
      var m := Find(lines, 1, Middle);
      var c := if m == |lines| then m else Find(lines, m + 1, Close);
      if c == |lines| {
        CutEnding(lines, m);
        EndingGood(Read(lines).ending);
      } else {
        ReadWritten(lines[c + 1..]);
        CutConflict(lines, m, c);
        BeforeGood(Marked(lines[0], lines[1..m], lines[m], lines[m + 1..c], lines[c]), Read(lines[c + 1..]));
      }
    }
  }

  lemma CutConflict(lines: seq<Line>, m: nat, c: nat)
    requires 1 <= m < c < |lines| && StartsWith(lines[0], Open) && StartsWith(lines[m], Middle)
      && StartsWith(lines[c], Close)
    requires forall i :: 1 <= i < m ==> !StartsWith(lines[i], Middle)
    requires forall i :: m < i < c ==> !StartsWith(lines[i], Close)
    ensures var p := Marked(lines[0], lines[1..m], lines[m], lines[m + 1..c], lines[c]);
      GoodPiece(p) && PieceLines(p) + lines[c + 1..] == lines
  {
    hide StartsWith, NoLineStarts;
    SliceNone(lines, 1, m, Middle);
    SliceNone(lines, m + 1, c, Close);
    assert lines == [lines[0]] + lines[1..m] + [lines[m]] + lines[m + 1..c] + [lines[c]] + lines[c + 1..];
  }

  lemma CutEnding(lines: seq<Line>, m: nat)
    requires 1 <= m <= |lines| && StartsWith(lines[0], Open)
    requires forall i :: 1 <= i < m ==> !StartsWith(lines[i], Middle)
    requires m < |lines| ==> StartsWith(lines[m], Middle) && forall i :: m < i < |lines| ==> !StartsWith(lines[i], Close)
    ensures var e := if m == |lines| then InOurs(lines[0], lines[1..])
      else InTheirs(lines[0], lines[1..m], lines[m], lines[m + 1..]);
      GoodEnding(e) && EndingLines(e) == lines
  {
    hide StartsWith, NoLineStarts;
    if m == |lines| {
      SliceNone(lines, 1, m, Middle);
      assert lines == [lines[0]] + lines[1..];
    } else {
      SliceNone(lines, 1, m, Middle);
      SliceNone(lines, m + 1, |lines|, Close);
      assert lines == [lines[0]] + lines[1..m] + [lines[m]] + lines[m + 1..];
    }
  }

  lemma SliceNone(lines: seq<Line>, from: nat, to: nat, marker: Marker)
    requires from <= to <= |lines| && forall i :: from <= i < to ==> !StartsWith(lines[i], marker)
    ensures NoLineStarts(lines[from..to], marker) && (to == |lines| ==> NoLineStarts(lines[from..], marker))
  {
    hide StartsWith;
  }

  lemma NothingWritten()
    ensures Good(File([], Complete)) && Written(File([], Complete)) == []
  {
  }

  lemma EndingGood(e: Ending)
    requires GoodEnding(e)
    ensures Good(File([], e)) && Written(File([], e)) == EndingLines(e)
  {
  }

  /** A file that starts with text, without its first line. */
  lemma Peel(f: File) returns (line: Line, less: File)
    requires Good(f) && f.pieces != [] && f.pieces[0].Text?
    ensures Good(less) && !StartsWith(line, Open)
    ensures Written(f) == [line] + Written(less) && f == Prepend(line, less)
  {
    hide StartsWith, Good, Written;
    var text, rest := f.pieces[0].lines, f.(pieces := f.pieces[1..]);
    TailGood(f);
    if rest.pieces != [] {
      NextNotText(f);
    }
    line, less := text[0], rest;
    assert text == [line] + text[1..] && (|text| == 1 ==> text == [line]);
    if |text| > 1 {
      less := Before(Text(text[1..]), rest);
      BeforeGood(Text(text[1..]), rest);
      assert less.pieces[1..] == rest.pieces;
    }
  }

  /** ... and by one only: the grammar is unambiguous. */
  lemma {:induction false} WrittenOnce(f: File)
    requires Good(f)
    ensures Read(Written(f)) == f
    decreases |Written(f)|
  {
    hide StartsWith, Good, Written, Read, Prepend, PieceLines;
    if f.pieces == [] {
      EndingOnce(f);
    } else {
      match f.pieces[0]
      case Text(_) =>
        var line, less := Peel(f);
        WrittenOnce(less);
        ReadLine(line, Written(less));
      case Marked(open, ours, middle, theirs, close) =>
        var rest := f.(pieces := f.pieces[1..]);
        TailGood(f);
        MarkedLines(f.pieces[0]);
        WrittenOnce(rest);
        ReadMarked(open, ours, middle, theirs, close, Written(rest));
    }
  }

  lemma MarkedLines(p: Piece)
    requires p.Marked?
    ensures PieceLines(p) != []
  {
  }

  lemma ReadLine(line: Line, rest: seq<Line>)
    requires !StartsWith(line, Open)
    ensures Read([line] + rest) == Prepend(line, Read(rest))
  {
    hide StartsWith, Prepend;
    assert ([line] + rest)[1..] == rest;
  }

  lemma ReadMarked(open: Line, ours: seq<Line>, middle: Line, theirs: seq<Line>, close: Line, rest: seq<Line>)
    requires GoodPiece(Marked(open, ours, middle, theirs, close))
    ensures var p := Marked(open, ours, middle, theirs, close); Read(PieceLines(p) + rest) == Before(p, Read(rest))
  {
    hide StartsWith, Find, Read, Before;
    var p := Marked(open, ours, middle, theirs, close);
    var lines, m := PieceLines(p) + rest, 1 + |ours|;
    var c := m + 1 + |theirs|;
    assert lines[1..m] == ours && lines[m + 1..c] == theirs && lines[c + 1..] == rest;
    ReadConflict(lines, m, c);
  }

  /** Reading at an opening marker, in terms of the two searches. */
  lemma ReadOpening(lines: seq<Line>, m: nat, c: nat)
    requires lines != [] && StartsWith(lines[0], Open) && m == Find(lines, 1, Middle)
    requires if m == |lines| then c == m else c == Find(lines, m + 1, Close)
    ensures m == |lines| ==> Read(lines) == File([], InOurs(lines[0], lines[1..]))
    ensures m < |lines| && c == |lines| ==> Read(lines) == File([], InTheirs(lines[0], lines[1..m], lines[m], lines[m + 1..]))
    ensures m < |lines| && c < |lines| ==>
      Read(lines) == Before(Marked(lines[0], lines[1..m], lines[m], lines[m + 1..c], lines[c]), Read(lines[c + 1..]))
  {
    hide StartsWith, Find, Before;
  }

  lemma ReadConflict(lines: seq<Line>, m: nat, c: nat)
    requires 1 <= m < c < |lines| && StartsWith(lines[0], Open) && StartsWith(lines[m], Middle)
      && StartsWith(lines[c], Close)
    requires forall i :: 1 <= i < m ==> !StartsWith(lines[i], Middle)
    requires forall i :: m < i < c ==> !StartsWith(lines[i], Close)
    ensures Read(lines) == Before(Marked(lines[0], lines[1..m], lines[m], lines[m + 1..c], lines[c]), Read(lines[c + 1..]))
  {
    hide StartsWith, Find, Before, Read;
    FindIs(lines, 1, Middle, m);
    FindIs(lines, m + 1, Close, c);
    ReadOpening(lines, m, c);
  }

  lemma ReadEnding(lines: seq<Line>, m: nat)
    requires 1 <= m <= |lines| && StartsWith(lines[0], Open)
    requires forall i :: 1 <= i < m ==> !StartsWith(lines[i], Middle)
    requires m < |lines| ==> StartsWith(lines[m], Middle) && forall i :: m < i < |lines| ==> !StartsWith(lines[i], Close)
    ensures Read(lines) ==
      File([], if m == |lines| then InOurs(lines[0], lines[1..]) else InTheirs(lines[0], lines[1..m], lines[m], lines[m + 1..]))
  {
    hide StartsWith, Find, Before, Read;
    FindIs(lines, 1, Middle, m);
    if m < |lines| {
      FindIs(lines, m + 1, Close, |lines|);
    }
    ReadOpening(lines, m, |lines|);
  }

  lemma EndingOnce(f: File)
    requires Good(f) && f.pieces == []
    ensures Read(Written(f)) == f
  {
    hide StartsWith, Read, NoLineStarts;
    assert Written(f) == EndingLines(f.ending);
    match f.ending
    case Complete =>
      ReadNothing();
    case InOurs(open, ours) =>
      InOursOnce(open, ours);
    case InTheirs(open, ours, middle, theirs) =>
      InTheirsOnce(open, ours, middle, theirs);
  }

  lemma InOursOnce(open: Line, ours: seq<Line>)
    requires StartsWith(open, Open) && NoLineStarts(ours, Middle)
    ensures Read([open] + ours) == File([], InOurs(open, ours))
  {
    hide StartsWith, Read;
    var lines := [open] + ours;
    assert lines[1..] == ours;
    ReadEnding(lines, |lines|);
  }

  lemma InTheirsOnce(open: Line, ours: seq<Line>, middle: Line, theirs: seq<Line>)
    requires StartsWith(open, Open) && NoLineStarts(ours, Middle) && StartsWith(middle, Middle)
      && NoLineStarts(theirs, Close)
    ensures Read([open] + ours + [middle] + theirs) == File([], InTheirs(open, ours, middle, theirs))
  {
    hide StartsWith, Read;
    var lines, m := [open] + ours + [middle] + theirs, 1 + |ours|;
    assert lines[1..m] == ours && lines[m + 1..] == theirs;
    ReadEnding(lines, m);
  }

  lemma ReadNothing()
    ensures Read([]) == File([], Complete)
  {
  }

  // ------------------------------------------------------------------------ parsing

  /** Ours where it has a line, else theirs. */
  function DefaultChoices(ours: nat, theirs: nat): seq<Source> {
    seq(Max(ours, theirs), i => if i < ours then Ours else Theirs)
  }

  function SectionOf(p: Piece): ConflictSection {
    match p
    case Text(lines) => Plain(Join(lines))
    case Marked(_, ours, _, theirs, _) => Hunk(ConflictHunk(ours, theirs, DefaultChoices(|ours|, |theirs|)))
  }

  function SectionsOf(pieces: seq<Piece>): seq<ConflictSection> {
    seq(|pieces|, i requires 0 <= i < |pieces| => SectionOf(pieces[i]))
  }

  /** What the editor gets from a file. */
  function Meaning(f: File): Result<seq<ConflictSection>, ParseError> {
    match f.ending
    case Complete => Ok(SectionsOf(f.pieces))
    case InOurs(_, _) => Err(MissingMiddle)
    case InTheirs(_, _, _, _) => Err(MissingClose)
  }

  /** `parse_conflict_sections`. */
  function Parse(raw: string): Result<seq<ConflictSection>, ParseError> {
    Meaning(Read(Split(raw)))
  }

  /** Parsing is lossless and total: the input is the text of exactly one good file, it parses
      exactly when that file ends complete, and the sections are that file's pieces. */
  lemma ParseExact(raw: string, f: File)
    ensures Good(f) && Join(Written(f)) == raw && Proper(Written(f)) <==> f == Read(Split(raw))
    ensures f == Read(Split(raw)) ==>
      && (Parse(raw).Ok? <==> f.ending == Complete)
      && (Parse(raw) == Err(MissingMiddle) <==> f.ending.InOurs?)
      && (Parse(raw).Ok? ==> Parse(raw).value == SectionsOf(f.pieces))
  {
    SplitJoin(raw);
    ReadWritten(Split(raw));
    if Good(f) && Join(Written(f)) == raw && Proper(Written(f)) {
      JoinSplit(Written(f));
      WrittenOnce(f);
    }
  }

  // ----------------------------------------------------------------------- composing

  function ChoiceAt(h: ConflictHunk, i: nat): Source {
    if i < |h.choices| then h.choices[i] else Ours
  }

  function ChosenAt(h: ConflictHunk, i: nat): seq<Line> {
    var side := if ChoiceAt(h, i) == Ours then h.ours else h.theirs;
    if i < |side| then [side[i]] else []
  }

  /** The lines chosen in the first `n` rows. */
  function Chosen(h: ConflictHunk, n: nat): seq<Line> {
    if n == 0 then [] else Chosen(h, n - 1) + ChosenAt(h, n - 1)
  }

  function ChosenLines(h: ConflictHunk): seq<Line> {
    Chosen(h, Max(|h.ours|, |h.theirs|))
  }

  function SectionText(s: ConflictSection): string {
    match s
    case Plain(text) => text
    case Hunk(h) => Join(ChosenLines(h))
  }

  /** `compose_conflict_editor_output`. */
  function Compose(sections: seq<ConflictSection>): string {
    if sections == [] then "" else Compose(sections[..|sections| - 1]) + SectionText(sections[|sections| - 1])
  }

  predicate SameSides(s: ConflictSection, edited: ConflictSection) {
    match s
    case Plain(_) => edited == s
    case Hunk(h) => edited.Hunk? && edited.hunk.ours == h.ours && edited.hunk.theirs == h.theirs
  }

  /** The same file with other choices. */
  predicate Rechosen(sections: seq<ConflictSection>, edited: seq<ConflictSection>) {
    |sections| == |edited| && forall i :: 0 <= i < |sections| ==> SameSides(sections[i], edited[i])
  }

  /** The lines a piece contributes under the given choices. */
  function OutputOf(p: Piece, edited: ConflictSection): seq<Line> {
    match p
    case Text(lines) => lines
    case Marked(_, _, _, _, _) => if edited.Hunk? then ChosenLines(edited.hunk) else []
  }

  function Output(pieces: seq<Piece>, edited: seq<ConflictSection>): seq<Line>
    requires |pieces| == |edited|
  {
    if pieces == [] then []
      else Output(pieces[..|pieces| - 1], edited[..|edited| - 1]) + OutputOf(pieces[|pieces| - 1], edited[|edited| - 1])
  }

  lemma {:induction false} ComposeJoins(pieces: seq<Piece>, edited: seq<ConflictSection>)
    requires Rechosen(SectionsOf(pieces), edited)
    ensures Compose(edited) == Join(Output(pieces, edited))
  {
    if pieces != [] {
      var n := |pieces| - 1;
      ComposeJoins(pieces[..n], edited[..n]);
      JoinAppend(Output(pieces[..n], edited[..n]), OutputOf(pieces[n], edited[n]));
    }
  }

  lemma {:induction false} ChosenIsFromHunk(h: ConflictHunk, n: nat)
    ensures forall l :: l in Chosen(h, n) ==> l in h.ours || l in h.theirs
  {
    if n > 0 {
      ChosenIsFromHunk(h, n - 1);
    }
  }

  lemma {:induction false} PiecesAppend(x: seq<Piece>, p: Piece)
    ensures PiecesLines(x + [p]) == PiecesLines(x) + PieceLines(p)
  {
    hide PieceLines;
    if x == [] {
      assert x + [p] == [p] && [p][1..] == [];
    } else {
      PiecesAppend(x[1..], p);
      assert (x + [p])[1..] == x[1..] + [p];
    }
  }

  /** Every line of a hunk ends in its newline. */
  lemma HunkLinesWhole(open: Line, ours: seq<Line>, middle: Line, theirs: seq<Line>, close: Line)
    requires Proper(PieceLines(Marked(open, ours, middle, theirs, close)))
    ensures forall l :: l in ours || l in theirs ==> Whole(l)
  {
    ProperSplit([open] + ours + [middle] + theirs, [close]);
    forall l | l in ours || l in theirs ensures l in [open] + ours + [middle] + theirs {
    }
  }

  /** The lines one piece contributes, given that the piece's own lines are proper. */
  lemma OutputOfProper(p: Piece, edited: ConflictSection)
    requires Proper(PieceLines(p)) && SameSides(SectionOf(p), edited)
    ensures Proper(OutputOf(p, edited))
    ensures OutputOf(p, edited) != [] ==> PieceLines(p) != []
    ensures (forall l :: l in PieceLines(p) ==> Whole(l)) ==> forall l :: l in OutputOf(p, edited) ==> Whole(l)
  {
    hide OneLine, Whole, DefaultChoices, ChosenLines;
    if p.Marked? {
      HunkLinesWhole(p.open, p.ours, p.middle, p.theirs, p.close);
      HunkOutput(edited.hunk);
    }
  }

  lemma HunkOutput(h: ConflictHunk)
    requires forall l :: l in h.ours || l in h.theirs ==> Whole(l)
    ensures Proper(ChosenLines(h)) && forall l :: l in ChosenLines(h) ==> Whole(l)
  {
    ChosenIsFromHunk(h, Max(|h.ours|, |h.theirs|));
    forall l | l in ChosenLines(h) ensures OneLine(l) {
      assert Whole(l);
    }
    hide OneLine, Whole, ChosenLines;
  }

  /** Whatever is chosen, the output lines are proper lines: no two lines run together. */
  lemma {:induction false} OutputProper(pieces: seq<Piece>, edited: seq<ConflictSection>)
    requires Proper(PiecesLines(pieces)) && Rechosen(SectionsOf(pieces), edited)
    ensures Proper(Output(pieces, edited))
    ensures (forall l :: l in PiecesLines(pieces) ==> Whole(l)) ==> forall l :: l in Output(pieces, edited) ==> Whole(l)
  {
    hide Proper, Whole, SectionOf, SameSides, PieceLines, OutputOf;
    if pieces == [] {
      NoLinesProper();
    } else {
      var n := |pieces| - 1;
      PiecesAppend(pieces[..n], pieces[n]);
      assert pieces == pieces[..n] + [pieces[n]];
      ProperSplit(PiecesLines(pieces[..n]), PieceLines(pieces[n]));
      OutputProper(pieces[..n], edited[..n]);
      OutputOfProper(pieces[n], edited[n]);
      ProperAppend(Output(pieces[..n], edited[..n]), OutputOf(pieces[n], edited[n]));
    }
  }

  /** Re-splitting: whatever is chosen, the composed text splits into exactly the plain lines
      and the chosen lines. */
  lemma {:induction false} ComposeResplits(raw: string, edited: seq<ConflictSection>)
    requires Parse(raw).Ok? && Rechosen(Parse(raw).value, edited)
    ensures Split(Compose(edited)) == Output(Read(Split(raw)).pieces, edited)
  {
    SplitJoin(raw);
    ReadWritten(Split(raw));
    var f := Read(Split(raw));
    assert Written(f) == PiecesLines(f.pieces);
    OutputProper(f.pieces, edited);
    ComposeJoins(f.pieces, edited);
    JoinSplit(Output(f.pieces, edited));
  }

  // ------------------------------------------------------------------------ re-parsing

  lemma {:induction false} NoMarkersNoHunks(lines: seq<Line>)
    requires NoLineStarts(lines, Open)
    ensures Read(lines) == File(if lines == [] then [] else [Text(lines)], Complete)
  {
    hide StartsWith;
    if lines != [] {
      NoMarkersNoHunks(lines[1..]);
      assert lines == [lines[0]] + lines[1..];
      PrependAlone(lines[0], lines[1..]);
    }
  }

  lemma PrependAlone(line: Line, rest: seq<Line>)
    ensures Prepend(line, File(if rest == [] then [] else [Text(rest)], Complete)) == File([Text([line] + rest)], Complete)
  {
    if rest == [] {
      assert [line] + rest == [line] && [Text([line])] + [] == [Text([line])];
    } else {
      assert [Text(rest)][1..] == [] && [Text([line] + rest)] + [] == [Text([line] + rest)];
    }
  }

  lemma NoHunksNoMarkers(lines: seq<Line>)
    requires Read(lines) == File(if lines == [] then [] else [Text(lines)], Complete)
    ensures NoLineStarts(lines, Open)
  {
    hide StartsWith, Read;
    ReadWritten(lines);
    if lines != [] {
      assert Read(lines).pieces[0] == Text(lines);
    }
  }

  /** Some chosen line looks like the start of a conflict. */
  ghost predicate ChoosesMarker(edited: seq<ConflictSection>) {
    exists i :: 0 <= i < |edited| && MarkerIn(edited[i])
  }

  predicate MarkerIn(s: ConflictSection) {
    s.Hunk? && !NoLineStarts(ChosenLines(s.hunk), Open)
  }

  lemma {:induction false} OutputMarkers(pieces: seq<Piece>, edited: seq<ConflictSection>)
    requires GoodPieces(pieces) && Rechosen(SectionsOf(pieces), edited)
    ensures NoLineStarts(Output(pieces, edited), Open) <==> !ChoosesMarker(edited)
  {
    hide StartsWith, NoLineStarts, GoodPiece, SectionOf, SameSides, OutputOf;
    if pieces == [] {
      NoneOfNothing();
    } else {
      var n := |pieces| - 1;
      OutputMarkers(pieces[..n], edited[..n]);
      PieceMarkers(pieces[n], edited[n]);
      NoneOfBoth(Output(pieces[..n], edited[..n]), OutputOf(pieces[n], edited[n]), Open);
      if i :| 0 <= i < |edited| && MarkerIn(edited[i]) {
        assert i < n ==> edited[..n][i] == edited[i];
      }
      if i :| 0 <= i < n && MarkerIn(edited[..n][i]) {
        assert edited[i] == edited[..n][i];
      }
    }
  }

  lemma NoneOfNothing()
    ensures NoLineStarts([], Open)
  {
  }

  lemma PieceMarkers(p: Piece, edited: ConflictSection)
    requires GoodPiece(p) && SameSides(SectionOf(p), edited)
    ensures NoLineStarts(OutputOf(p, edited), Open) <==> !MarkerIn(edited)
  {
    hide StartsWith, DefaultChoices, ChosenLines;
  }

  lemma NoneOfBoth(x: seq<Line>, y: seq<Line>, marker: Marker)
    ensures NoLineStarts(x + y, marker) <==> NoLineStarts(x, marker) && NoLineStarts(y, marker)
  {
    hide StartsWith;
    assert forall i :: 0 <= i < |x| ==> (x + y)[i] == x[i];
    assert forall i :: 0 <= i < |y| ==> (x + y)[|x| + i] == y[i];
  }

  function PlainSections(text: string): seq<ConflictSection> {
    if text == "" then [] else [Plain(text)]
  }

  /** A text is plain exactly when no line of it starts with an opening marker. */
  lemma PlainIff(text: string)
    ensures Parse(text) == Ok(PlainSections(text)) <==> NoLineStarts(Split(text), Open)
  {
    hide Read, Split, StartsWith, NoLineStarts, Proper, Good, Written, SectionsOf;
    var lines := Split(text);
    SplitJoin(text);
    ReadWritten(lines);
    OneText(lines);
    if NoLineStarts(lines, Open) {
      NoMarkersNoHunks(lines);
    }
    if Parse(text) == Ok(PlainSections(text)) {
      assert forall s :: s in PlainSections(text) ==> s.Plain?;
      PlainIsText(Read(lines));
      NoHunksNoMarkers(lines);
    }
  }

  /** The composed text parses back as one plain text exactly when no chosen line starts with
      an opening marker. (A side may hold one: only the closing marker of a side is looked for.) */
  lemma ReparsesPlainIff(raw: string, edited: seq<ConflictSection>)
    requires Parse(raw).Ok? && Rechosen(Parse(raw).value, edited)
    ensures Parse(Compose(edited)) == Ok(PlainSections(Compose(edited))) <==> !ChoosesMarker(edited)
  {
    hide Read, Split, StartsWith, Rechosen, ChoosesMarker, Output, NoLineStarts;
    ReadWritten(Split(raw));
    ComposeResplits(raw, edited);
    OutputMarkers(Read(Split(raw)).pieces, edited);
    PlainIff(Compose(edited));
  }

  lemma OneText(lines: seq<Line>)
    ensures SectionsOf([Text(lines)]) == [Plain(Join(lines))] && SectionsOf([]) == []
    ensures Join([]) == "" && Split("") == []
  {
  }

  lemma PlainIsText(f: File)
    requires Good(f) && Meaning(f).Ok? && |Meaning(f).value| <= 1 && forall s :: s in Meaning(f).value ==> s.Plain?
    ensures f == File(if Written(f) == [] then [] else [Text(Written(f))], Complete)
  {
    hide StartsWith, Join, DefaultChoices;
    if f.pieces != [] {
      var p := f.pieces[0];
      assert Meaning(f).value[0] == SectionOf(p) && SectionOf(p) in Meaning(f).value;
      assert GoodPiece(p) && p.Text?;
      assert f.pieces == [p] && PiecesLines(f.pieces[1..]) == [];
      assert Written(f) == p.lines;
    }
  }

  // ------------------------------------------------------------------------ projection

  function ChooseAll(s: ConflictSection, source: Source): ConflictSection {
    match s
    case Plain(_) => s
    case Hunk(h) => Hunk(h.(choices := seq(|h.choices|, _ => source)))
  }

  /** `apply_conflict_choice_to_all_hunks`. */
  function ChooseAllSections(sections: seq<ConflictSection>, source: Source): seq<ConflictSection> {
    seq(|sections|, i requires 0 <= i < |sections| => ChooseAll(sections[i], source))
  }

  /** The file with every conflict replaced by the given side's lines. */
  function Side(pieces: seq<Piece>, source: Source): seq<Line> {
    if pieces == [] then []
    else
      Side(pieces[..|pieces| - 1], source) + SideOf(pieces[|pieces| - 1], source)
  }

  function SideOf(p: Piece, source: Source): seq<Line> {
    match p
    case Text(lines) => lines
    case Marked(_, ours, _, theirs, _) => if source == Ours then ours else theirs
  }

  /** ... or by ours followed by what theirs has beyond it. */
  function Defaults(pieces: seq<Piece>): seq<Line> {
    if pieces == [] then []
    else
      Defaults(pieces[..|pieces| - 1]) + DefaultOf(pieces[|pieces| - 1])
  }

  function DefaultOf(p: Piece): seq<Line> {
    match p
    case Text(lines) => lines
    case Marked(_, ours, _, theirs, _) => ours + (if |ours| < |theirs| then theirs[|ours|..] else [])
  }

  lemma {:induction false} ChosenOneSide(h: ConflictHunk, source: Source, n: nat)
    requires forall i :: 0 <= i < n ==> ChoiceAt(h, i) == source
    ensures var side := if source == Ours then h.ours else h.theirs; Chosen(h, n) == side[..Min(n, |side|)]
  {
    if n > 0 {
      ChosenOneSide(h, source, n - 1);
    }
  }

  lemma DefaultAt(ours: seq<Line>, theirs: seq<Line>, i: nat)
    requires i < Max(|ours|, |theirs|)
    ensures ChosenAt(ConflictHunk(ours, theirs, DefaultChoices(|ours|, |theirs|)), i) == [if i < |ours| then ours[i] else theirs[i]]
  {
  }

  lemma {:induction false} ChosenByDefault(ours: seq<Line>, theirs: seq<Line>, n: nat)
    requires n <= Max(|ours|, |theirs|)
    ensures Chosen(ConflictHunk(ours, theirs, DefaultChoices(|ours|, |theirs|)), n) ==
      if n <= |ours| then ours[..n] else ours + theirs[|ours|..n]
  {
    hide DefaultChoices, ChosenAt, Chosen;
    var h := ConflictHunk(ours, theirs, DefaultChoices(|ours|, |theirs|));
    if n == 0 {
      ChosenNone(h);
    } else {
      ChosenByDefault(ours, theirs, n - 1);
      DefaultAt(ours, theirs, n - 1);
      ChosenNext(h, n);
      if n <= |ours| {
        assert ours[..n] == ours[..n - 1] + [ours[n - 1]];
      } else {
        assert theirs[|ours|..n] == theirs[|ours|..n - 1] + [theirs[n - 1]];
      }
    }
  }

  lemma ChosenNone(h: ConflictHunk)
    ensures Chosen(h, 0) == []
  {
  }

  lemma ChosenNext(h: ConflictHunk, n: nat)
    requires n > 0
    ensures Chosen(h, n) == Chosen(h, n - 1) + ChosenAt(h, n - 1)
  {
    hide ChosenAt;
  }

  lemma {:induction false} SideOutput(pieces: seq<Piece>, source: Source)
    ensures var edited := ChooseAllSections(SectionsOf(pieces), source);
      Rechosen(SectionsOf(pieces), edited) && Output(pieces, edited) == Side(pieces, source)
  {
    hide ChooseAll, SectionOf, OutputOf, SideOf, SameSides;
    if pieces != [] {
      var n := |pieces| - 1;
      SideOutput(pieces[..n], source);
      var edited := ChooseAllSections(SectionsOf(pieces), source);
      assert edited[..n] == ChooseAllSections(SectionsOf(pieces[..n]), source);
      PieceSide(pieces[n], source);
      forall i | 0 <= i < |pieces| ensures SameSides(SectionsOf(pieces)[i], edited[i]) {
        PieceSide(pieces[i], source);
      }
    }
  }

  lemma PieceSide(p: Piece, source: Source)
    ensures var edited := ChooseAll(SectionOf(p), source);
      SameSides(SectionOf(p), edited) && OutputOf(p, edited) == SideOf(p, source)
  {
    if p.Marked? {
      var h := ChooseAll(SectionOf(p), source).hunk;
      ChosenOneSide(h, source, Max(|h.ours|, |h.theirs|));
    }
  }

  lemma {:induction false} DefaultOutput(pieces: seq<Piece>)
    ensures Rechosen(SectionsOf(pieces), SectionsOf(pieces)) && Output(pieces, SectionsOf(pieces)) == Defaults(pieces)
  {
    hide SectionOf, OutputOf, DefaultOf, SameSides;
    if pieces != [] {
      var n := |pieces| - 1;
      DefaultOutput(pieces[..n]);
      assert SectionsOf(pieces)[..n] == SectionsOf(pieces[..n]);
      PieceDefault(pieces[n]);
      assert SectionsOf(pieces)[n] == SectionOf(pieces[n]);
    }
  }

  lemma PieceDefault(p: Piece)
    ensures SameSides(SectionOf(p), SectionOf(p)) && OutputOf(p, SectionOf(p)) == DefaultOf(p)
  {
    hide DefaultChoices, Chosen;
    if p.Marked? {
      ChosenByDefault(p.ours, p.theirs, Max(|p.ours|, |p.theirs|));
    }
  }

  /** Choosing one side everywhere composes the input with each conflict replaced by that
      side's lines; leaving the defaults gives ours and then the tail of theirs. */
  lemma Projection(raw: string, source: Source)
    requires Parse(raw).Ok?
    ensures var f, sections := Read(Split(raw)), Parse(raw).value;
      && Split(Compose(ChooseAllSections(sections, source))) == Side(f.pieces, source)
      && Split(Compose(sections)) == Defaults(f.pieces)
  {
    var f, sections := Read(Split(raw)), Parse(raw).value;
    SideOutput(f.pieces, source);
    ComposeResplits(raw, ChooseAllSections(sections, source));
    DefaultOutput(f.pieces);
    ComposeResplits(raw, sections);
  }

  // ---------------------------------------------------------------- mixed, per-line choices

  /** The rows of a hunk one after another. */
  function Concat(rows: seq<seq<Line>>): seq<Line> {
    if rows == [] then [] else rows[0] + Concat(rows[1..])
  }

  lemma {:induction false} ConcatAppend(x: seq<seq<Line>>, y: seq<seq<Line>>)
    ensures Concat(x + y) == Concat(x) + Concat(y)
  {
    if x == [] {
      assert x + y == y;
    } else {
      ConcatAppend(x[1..], y);
      assert (x + y)[1..] == x[1..] + y;
    }
  }

  /** `rows[r]` is the line row `r` contributes, if any: the line of the side chosen for that
      row, ours when no choice is recorded, nothing when that side has no such line. */
  ghost predicate AreRows(h: ConflictHunk, rows: seq<seq<Line>>) {
    && |rows| == (if |h.ours| > |h.theirs| then |h.ours| else |h.theirs|)
    && forall r :: 0 <= r < |rows| ==>
         rows[r] == if r < |h.choices| && h.choices[r] == Theirs then (if r < |h.theirs| then [h.theirs[r]] else [])
                    else (if r < |h.ours| then [h.ours[r]] else [])
  }

  /** A hunk contributes its rows in order, each by its own choice. */
  lemma ChosenRows(h: ConflictHunk, rows: seq<seq<Line>>)
    requires AreRows(h, rows)
    ensures ChosenLines(h) == Concat(rows)
  {
    ChosenUpTo(h, rows, |rows|);
    assert rows[..|rows|] == rows;
  }

  lemma {:induction false} ChosenUpTo(h: ConflictHunk, rows: seq<seq<Line>>, n: nat)
    requires AreRows(h, rows) && n <= |rows|
    ensures Chosen(h, n) == Concat(rows[..n])
  {
    hide Concat;
    if n == 0 {
      NoRows();
    } else {
      ChosenUpTo(h, rows, n - 1);
      assert rows[..n] == rows[..n - 1] + [rows[n - 1]];
      ConcatAppend(rows[..n - 1], [rows[n - 1]]);
      OneRow(rows[n - 1]);
    }
  }

  lemma NoRows()
    ensures Concat([]) == []
  {
  }

  lemma OneRow(row: seq<Line>)
    ensures Concat([row]) == row
  {
    assert [row][1..] == [];
  }

  lemma {:induction false} SingleRows(rows: seq<seq<Line>>)
    requires forall r :: 0 <= r < |rows| ==> |rows[r]| == 1
    ensures |Concat(rows)| == |rows| && forall r :: 0 <= r < |rows| ==> Concat(rows)[r] == rows[r][0]
  {
    if rows != [] {
      SingleRows(rows[1..]);
    }
  }

  /** With sides and choices of one length, line `r` is the line of the side chosen for it. */
  lemma MixedChoices(h: ConflictHunk)
    requires |h.ours| == |h.theirs| == |h.choices|
    ensures |ChosenLines(h)| == |h.choices|
    ensures forall r :: 0 <= r < |h.choices| ==>
      ChosenLines(h)[r] == if h.choices[r] == Ours then h.ours[r] else h.theirs[r]
  {
    var rows := seq(|h.choices|, r requires 0 <= r < |h.choices| => [if h.choices[r] == Ours then h.ours[r] else h.theirs[r]]);
    ChosenRows(h, rows);
    SingleRows(rows);
  }

  /** Changing one row's choice replaces what that row contributes, and nothing else. */
  lemma RowsAreIndependent(h: ConflictHunk, r: nat, choice: Source) returns (before: seq<Line>, after: seq<Line>)
    requires r < |h.choices| && (r < |h.ours| || r < |h.theirs|)
    ensures var side, other := if h.choices[r] == Ours then h.ours else h.theirs, if choice == Ours then h.ours else h.theirs;
      && ChosenLines(h) == before + (if r < |side| then [side[r]] else []) + after
      && ChosenLines(h.(choices := h.choices[r := choice])) == before + (if r < |other| then [other[r]] else []) + after
  {
    hide Concat, ChosenLines, RowsOf, AreRows;
    var changed := h.(choices := h.choices[r := choice]);
    var rows, rows' := RowsOf(h), RowsOf(changed);
    ChosenRows(h, rows);
    ChosenRows(changed, rows');
    OneRowChanges(h, r, choice);
    before, after := Concat(rows[..r]), Concat(rows[r + 1..]);
    ConcatAround(rows, r);
    ConcatAround(rows', r);
  }

  lemma OneRowChanges(h: ConflictHunk, r: nat, choice: Source)
    requires r < |h.choices| && (r < |h.ours| || r < |h.theirs|)
    ensures var rows, rows' := RowsOf(h), RowsOf(h.(choices := h.choices[r := choice]));
      var side, other := if h.choices[r] == Ours then h.ours else h.theirs, if choice == Ours then h.ours else h.theirs;
      && |rows| == |rows'| > r && rows'[..r] == rows[..r] && rows'[r + 1..] == rows[r + 1..]
      && rows[r] == (if r < |side| then [side[r]] else []) && rows'[r] == (if r < |other| then [other[r]] else [])
  {
  }

  lemma ConcatAround(rows: seq<seq<Line>>, r: nat)
    requires r < |rows|
    ensures Concat(rows) == Concat(rows[..r]) + rows[r] + Concat(rows[r + 1..])
  {
    hide Concat;
    assert rows == rows[..r] + ([rows[r]] + rows[r + 1..]);
    ConcatAppend(rows[..r], [rows[r]] + rows[r + 1..]);
    ConcatAppend([rows[r]], rows[r + 1..]);
    OneRow(rows[r]);
  }

  function RowsOf(h: ConflictHunk): (rows: seq<seq<Line>>)
    ensures AreRows(h, rows)
  {
    seq(Max(|h.ours|, |h.theirs|), r requires 0 <= r =>
      if r < |h.choices| && h.choices[r] == Theirs then (if r < |h.theirs| then [h.theirs[r]] else [])
      else (if r < |h.ours| then [h.ours[r]] else []))
  }

  lemma {:induction false} ComposeAppend(a: seq<ConflictSection>, b: seq<ConflictSection>)
    ensures Compose(a + b) == Compose(a) + Compose(b)
  {
    hide SectionText;
    if b == [] {
      assert a + b == a;
    } else {
      ComposeAppend(a, b[..|b| - 1]);
      var text := SectionText(b[|b| - 1]);
      assert (a + b)[..|a + b| - 1] == a + b[..|b| - 1] && (a + b)[|a + b| - 1] == b[|b| - 1];
      assert (Compose(a) + Compose(b[..|b| - 1])) + text == Compose(a) + (Compose(b[..|b| - 1]) + text);
    }
  }

  /** The composed text around a hunk, and around plain text. */
  lemma ComposeAround(a: seq<ConflictSection>, s: ConflictSection, b: seq<ConflictSection>)
    ensures s.Plain? ==> Compose(a + [s] + b) == Compose(a) + s.text + Compose(b)
    ensures s.Hunk? ==> Compose(a + [s] + b) == Compose(a) + Join(Concat(RowsOf(s.hunk))) + Compose(b)
  {
    ComposeAppend(a + [s], b);
    ComposeAppend(a, [s]);
    assert Compose([]) == "" && [s][..0] == [];
    if s.Hunk? {
      ChosenRows(s.hunk, RowsOf(s.hunk));
    }
  }

  /** A section of equal sides with a choice for every line: the output around it is unchanged
      and line `r` of it is ours or theirs as chosen for it. */
  lemma ComposeMixed(a: seq<ConflictSection>, h: ConflictHunk, b: seq<ConflictSection>, lines: seq<Line>)
    requires |h.ours| == |h.theirs| == |h.choices| == |lines|
    requires forall r :: 0 <= r < |lines| ==> lines[r] == if h.choices[r] == Ours then h.ours[r] else h.theirs[r]
    ensures Compose(a + [Hunk(h)] + b) == Compose(a) + Join(lines) + Compose(b)
  {
    ComposeAround(a, Hunk(h), b);
    ChosenRows(h, RowsOf(h));
    MixedChoices(h);
    assert ChosenLines(h) == lines;
  }

  // ----------------------------------------------------------------------- a worked example

  function ExampleLines(): seq<Line> {
    ["prefix\n", "<<<<<<< HEAD\n", "a\n", "b\n", "=======\n", "x\n", "y\n", ">>>>>>> branch\n", "suffix\n"]
  }

  function ExampleSections(choices: seq<Source>): seq<ConflictSection> {
    [Plain("prefix\n"), Hunk(ConflictHunk(["a\n", "b\n"], ["x\n", "y\n"], choices)), Plain("suffix\n")]
  }

  /** The file parses into its text and one hunk. */
  lemma ExampleParses()
    ensures Parse(Join(ExampleLines())) == Ok(ExampleSections([Ours, Ours]))
  {
    hide Read, Split, Join, Good, Written, PieceLines;
    var hunk := Marked("<<<<<<< HEAD\n", ["a\n", "b\n"], "=======\n", ["x\n", "y\n"], ">>>>>>> branch\n");
    var f := File([Text(["prefix\n"]), hunk, Text(["suffix\n"])], Complete);
    ExampleProper();
    ExampleGood(f);
    JoinSplit(ExampleLines());
    WrittenOnce(f);
    OneLineText("prefix\n");
    OneLineText("suffix\n");
    assert SectionsOf(f.pieces) == ExampleSections([Ours, Ours]) by {
      assert DefaultChoices(2, 2) == [Ours, Ours];
    }
  }

  lemma OneLineText(line: Line)
    ensures Join([line]) == line
  {
    assert [line][1..] == [];
  }

  lemma ProperThree(a: Line, b: Line, c: Line)
    requires Whole(a) && Whole(b) && Whole(c)
    ensures Proper([a, b, c]) && forall l :: l in [a, b, c] ==> Whole(l)
  {
  }

  lemma ExampleProper()
    ensures Proper(ExampleLines())
  {
    hide Proper, Whole;
    var x, y, z := ["prefix\n", "<<<<<<< HEAD\n", "a\n"], ["b\n", "=======\n", "x\n"], ["y\n", ">>>>>>> branch\n", "suffix\n"];
    WholeExamples();
    ProperThree(x[0], x[1], x[2]);
    ProperThree(y[0], y[1], y[2]);
    ProperThree(z[0], z[1], z[2]);
    ProperAppend(x, y);
    ProperAppend(x + y, z);
    assert ExampleLines() == x + y + z;
  }

  lemma WholeExamples()
    ensures Whole("prefix\n") && Whole("<<<<<<< HEAD\n") && Whole("a\n") && Whole("b\n") && Whole("=======\n")
    ensures Whole("x\n") && Whole("y\n") && Whole(">>>>>>> branch\n") && Whole("suffix\n")
  {
    WholeMarkers();
  }

  lemma WholeMarkers()
    ensures Whole("<<<<<<< HEAD\n") && Whole("=======\n") && Whole(">>>>>>> branch\n")
  {
  }

  lemma ExampleGood(f: File)
    requires f.ending == Complete
    requires f.pieces == [Text(["prefix\n"]),
                          Marked("<<<<<<< HEAD\n", ["a\n", "b\n"], "=======\n", ["x\n", "y\n"], ">>>>>>> branch\n"),
                          Text(["suffix\n"])]
    ensures Good(f) && Written(f) == ExampleLines()
  {
    hide StartsWith, PieceLines;
    ExampleMarkers();
    var p := f.pieces;
    PiecesOfExample(p);
  }

  lemma PiecesOfExample(p: seq<Piece>)
    requires p == [Text(["prefix\n"]),
                   Marked("<<<<<<< HEAD\n", ["a\n", "b\n"], "=======\n", ["x\n", "y\n"], ">>>>>>> branch\n"),
                   Text(["suffix\n"])]
    ensures PiecesLines(p) + [] == ExampleLines()
  {
    assert p[1..] == [p[1], p[2]] && p[1..][1..] == [p[2]] && p[1..][1..][1..] == [];
    assert PiecesLines([p[2]]) == ["suffix\n"];
    assert PiecesLines([p[1], p[2]]) == PieceLines(p[1]) + ["suffix\n"];
  }

  lemma ExampleMarkers()
    ensures StartsWith("<<<<<<< HEAD\n", Open) && StartsWith("=======\n", Middle) && StartsWith(">>>>>>> branch\n", Close)
    ensures !StartsWith("prefix\n", Open) && !StartsWith("suffix\n", Open)
    ensures !StartsWith("a\n", Middle) && !StartsWith("b\n", Middle)
    ensures !StartsWith("x\n", Close) && !StartsWith("y\n", Close)
  {
    assert "<<<<<<< HEAD\n"[..7] == "<<<<<<<";
    assert "=======\n"[..7] == "=======";
    assert ">>>>>>> branch\n"[..7] == ">>>>>>>";
    assert "prefix\n"[0] != "<<<<<<<"[0] && "suffix\n"[0] != "<<<<<<<"[0];
    assert "a\n"[0] != "======="[0] && "b\n"[0] != "======="[0] && "x\n"[0] != ">>>>>>>"[0] && "y\n"[0] != ">>>>>>>"[0];
  }

  /** Theirs for the first line and ours for the second composes the one and then the other. */
  lemma ExampleComposes()
    ensures Compose(ExampleSections([Theirs, Ours])) == "prefix\nx\nb\nsuffix\n"
  {
    hide Compose, Join, Concat, RowsOf;
    var h := ConflictHunk(["a\n", "b\n"], ["x\n", "y\n"], [Theirs, Ours]);
    var before, after := [Plain("prefix\n")], [Plain("suffix\n")];
    ComposeMixed(before, h, after, ["x\n", "b\n"]);
    assert ExampleSections([Theirs, Ours]) == before + [Hunk(h)] + after;
    ComposePlain("prefix\n");
    ComposePlain("suffix\n");
    TwoLines("x\n", "b\n");
    assert "prefix\n" + ("x\n" + "b\n") + "suffix\n" == "prefix\nx\nb\nsuffix\n";
  }

  lemma ComposePlain(text: string)
    ensures Compose([Plain(text)]) == text
  {
    assert [Plain(text)][..0] == [];
  }

  lemma TwoLines(x: Line, y: Line)
    ensures Join([x, y]) == x + y
  {
    assert [x, y][1..] == [y];
    OneLineText(y);
  }
}
