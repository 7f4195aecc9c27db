/** The merge editor's own loops (gui/src/main.rs): parsing with a cursor over the lines,
    composing the output, and setting every choice in place. */
module ConflictEditor {
  import opened Conflict
  import opened Lines
  import opened Wrappers

  /** Text waiting in front of the sections still to come. */
  function WithPlain(plain: string, more: seq<ConflictSection>): seq<ConflictSection> {
    if plain == "" then more
    else if more != [] && more[0].Plain? then [Plain(plain + more[0].text)] + more[1..]
    else [Plain(plain)] + more
  }

  /** What is parsed so far, the text collected, and what is still to come. */
  function Glued(sections: seq<ConflictSection>, plain: string, rest: Result<seq<ConflictSection>, ParseError>)
    : Result<seq<ConflictSection>, ParseError>
  {
    match rest
    case Err(_) => rest
    case Ok(more) => Ok(sections + WithPlain(plain, more))
  }

  lemma WithPlainTwice(plain: string, line: string, more: seq<ConflictSection>)
    requires line != ""
    ensures WithPlain(plain, WithPlain(line, more)) == WithPlain(plain + line, more)
  {
    if more != [] && more[0].Plain? {
      assert plain + (line + more[0].text) == plain + line + more[0].text;
    }
    assert WithPlain(line, more)[1..] == if more != [] && more[0].Plain? then more[1..] else more;
    assert plain == "" ==> plain + line == line;
  }

  lemma PlainLine(lines: seq<Line>, i: nat, sections: seq<ConflictSection>, plain: string)
    requires i < |lines| && lines[i] != "" && !StartsWith(lines[i], Open)
    ensures Glued(sections, plain, Meaning(Read(lines[i..]))) == Glued(sections, plain + lines[i], Meaning(Read(lines[i + 1..])))
  {
    hide StartsWith, Read, Meaning, Prepend, WithPlain;
    var rest := Meaning(Read(lines[i + 1..]));
    assert lines[i..] == [lines[i]] + lines[i + 1..];
    ReadLine(lines[i], lines[i + 1..]);
    PrependMeaning(lines[i], Read(lines[i + 1..]));
    if rest.Ok? {
      WithPlainTwice(plain, lines[i], rest.value);
    }
  }

  lemma PrependMeaning(line: Line, f: File)
    requires line != ""
    ensures Meaning(Prepend(line, f)) == match Meaning(f) case Err(_) => Meaning(f) case Ok(more) => Ok(WithPlain(line, more))
  {
    hide DefaultChoices, Join, Before, Meaning;
    OneLineJoins(line);
    if f.pieces != [] && f.pieces[0].Text? {
      var rest := f.(pieces := f.pieces[1..]);
      assert f == Before(f.pieces[0], rest) by { FrontPiece(f); }
      BeforeMeaning(f.pieces[0], rest);
      BeforeMeaning(Text([line] + f.pieces[0].lines), rest);
      JoinAppend([line], f.pieces[0].lines);
    } else {
      BeforeMeaning(Text([line]), f);
      if Meaning(f).Ok? {
        FirstSection(f);
      }
    }
  }

  lemma FrontPiece(f: File)
    requires f.pieces != []
    ensures f == Before(f.pieces[0], f.(pieces := f.pieces[1..]))
  {
  }

  lemma FirstSection(f: File)
    requires Meaning(f).Ok?
    ensures |Meaning(f).value| == |f.pieces| && (f.pieces != [] ==> Meaning(f).value[0] == SectionOf(f.pieces[0]))
  {
    hide SectionOf;
  }

  lemma OneLineJoins(line: Line)
    ensures Join([line]) == line
  {
    assert [line][1..] == [];
  }

  lemma ConflictLines(lines: seq<Line>, i: nat, m: nat, c: nat, sections: seq<ConflictSection>, plain: string)
    requires i < m < c < |lines| && StartsWith(lines[i], Open) && StartsWith(lines[m], Middle)
      && StartsWith(lines[c], Close)
    requires forall k :: i < k < m ==> !StartsWith(lines[k], Middle)
    requires forall k :: m < k < c ==> !StartsWith(lines[k], Close)
    ensures var ours, theirs := lines[i + 1..m], lines[m + 1..c];
      var hunk := Hunk(ConflictHunk(ours, theirs, DefaultChoices(|ours|, |theirs|)));
      Glued(sections, plain, Meaning(Read(lines[i..])))
        == Glued(sections + (if plain == "" then [] else [Plain(plain)]) + [hunk], "", Meaning(Read(lines[c + 1..])))
  {
    hide StartsWith, DefaultChoices, Read, Meaning, Before;
    var p, rest := Marked(lines[i], lines[i + 1..m], lines[m], lines[m + 1..c], lines[c]), Read(lines[c + 1..]);
    var here := lines[i..];
    assert here[1..m - i] == lines[i + 1..m];
    assert here[m - i + 1..c - i] == lines[m + 1..c];
    assert here[c - i + 1..] == lines[c + 1..];
    ReadConflict(here, m - i, c - i);
    BeforeMeaning(p, rest);
    if Meaning(rest).Ok? {
      GlueHunk(sections, plain, SectionOf(p), Meaning(rest).value);
    }
  }

  lemma GlueHunk(sections: seq<ConflictSection>, plain: string, hunk: ConflictSection, more: seq<ConflictSection>)
    requires hunk.Hunk?
    ensures sections + WithPlain(plain, [hunk] + more)
      == sections + (if plain == "" then [] else [Plain(plain)]) + [hunk] + WithPlain("", more)
  {
  }

  lemma BeforeMeaning(p: Piece, f: File)
    ensures Meaning(Before(p, f)) == match Meaning(f) case Err(e) => Meaning(f) case Ok(more) => Ok([SectionOf(p)] + more)
  {
    hide DefaultChoices;
    if f.ending.Complete? {
      assert SectionsOf([p] + f.pieces) == [SectionOf(p)] + SectionsOf(f.pieces);
    }
  }

  lemma UnfinishedOurs(lines: seq<Line>, i: nat)
    requires i < |lines| && StartsWith(lines[i], Open) && forall k :: i < k < |lines| ==> !StartsWith(lines[k], Middle)
    ensures Meaning(Read(lines[i..])) == Err(MissingMiddle)
  {
    hide StartsWith, Read;
    ReadEnding(lines[i..], |lines| - i);
  }

  lemma UnfinishedTheirs(lines: seq<Line>, i: nat, m: nat)
    requires i < m < |lines| && StartsWith(lines[i], Open) && StartsWith(lines[m], Middle)
    requires forall k :: i < k < m ==> !StartsWith(lines[k], Middle)
    requires forall k :: m < k < |lines| ==> !StartsWith(lines[k], Close)
    ensures Meaning(Read(lines[i..])) == Err(MissingClose)
  {
    hide StartsWith, Read;
    ReadEnding(lines[i..], m - i);
  }

  /** The lines from the cursor up to the next line with the marker. */
  method TakeUntil(lines: seq<Line>, from: nat, marker: Marker) returns (taken: seq<Line>, idx: nat)
    requires from <= |lines|
    ensures from <= idx <= |lines| && taken == lines[from..idx]
    ensures forall k :: from <= k < idx ==> !StartsWith(lines[k], marker)
    ensures idx < |lines| ==> StartsWith(lines[idx], marker)
  {
    hide StartsWith;
    idx := from;
    taken := [];
    while idx < |lines| && !StartsWith(lines[idx], marker)
      invariant from <= idx <= |lines| && taken == lines[from..idx]
      invariant forall k :: from <= k < idx ==> !StartsWith(lines[k], marker)
    {
      taken := taken + [lines[idx]];
      idx := idx + 1;
    }
  }

  method InitialChoices(ours: nat, theirs: nat) returns (choices: seq<Source>)
    ensures choices == DefaultChoices(ours, theirs)
  {
    choices := [];
    for i := 0 to Max(ours, theirs)
      invariant choices == DefaultChoices(ours, theirs)[..i]
    {
      choices := choices + [if i < ours then Ours else Theirs];
    }
  }

  /** `parse_conflict_sections`. */
  method ParseConflictSections(raw: string) returns (r: Result<seq<ConflictSection>, ParseError>)
    ensures r == Parse(raw)
  {
    hide Split, StartsWith, Read, DefaultChoices, Meaning;
    var lines := Split(raw);
    SplitJoin(raw);
    var sections, plain, idx := [], "", 0;
    assert lines[0..] == lines;
    GluedNothing(sections, Parse(raw));
    while idx < |lines|
      invariant 0 <= idx <= |lines|
      invariant Parse(raw) == Glued(sections, plain, Meaning(Read(lines[idx..])))
    {
      var line := lines[idx];
      if StartsWith(line, Open) {
        ghost var was, before, open := plain, sections, idx;
        if plain != "" {
          sections := sections + [Plain(plain)];
          plain := "";
        }
        var ours, theirs;
        ours, idx := TakeUntil(lines, idx + 1, Middle);
        if idx >= |lines| {
          UnfinishedOurs(lines, open);
          return Err(MissingMiddle);
        }
        ghost var middle := idx;
        theirs, idx := TakeUntil(lines, idx + 1, Close);
        if idx >= |lines| {
          UnfinishedTheirs(lines, open, middle);
          return Err(MissingClose);
        }
        ConflictLines(lines, open, middle, idx, before, was);
        idx := idx + 1;
        var choices := InitialChoices(|ours|, |theirs|);
        assert before + [] == before;
        sections := sections + [Hunk(ConflictHunk(ours, theirs, choices))];
      } else {
        PlainLine(lines, idx, sections, plain);
        plain := plain + line;
        idx := idx + 1;
      }
    }
    NothingMore(lines[idx..], plain);
    assert sections + [] == sections;
    if plain != "" {
      sections := sections + [Plain(plain)];
    }
    r := Ok(sections);
  }

  lemma GluedNothing(sections: seq<ConflictSection>, rest: Result<seq<ConflictSection>, ParseError>)
    requires sections == []
    ensures Glued(sections, "", rest) == rest
  {
    if rest.Ok? {
      assert sections + rest.value == rest.value;
    }
  }

  lemma NothingMore(lines: seq<Line>, plain: string)
    requires lines == []
    ensures Meaning(Read(lines)) == Ok([]) && WithPlain(plain, []) == if plain == "" then [] else [Plain(plain)]
  {
    assert SectionsOf([]) == [];
  }

  method AppendChosen(out: string, hunk: ConflictHunk) returns (r: string)
    ensures r == out + Join(ChosenLines(hunk))
  {
    hide Join, Chosen;
    r := out;
    NoneChosen(out, hunk);
    for row := 0 to Max(|hunk.ours|, |hunk.theirs|)
      invariant r == out + Join(Chosen(hunk, row))
    {
      var choice := if row < |hunk.choices| then hunk.choices[row] else Ours;
      RowChosen(out, hunk, row);
      match choice
      case Ours =>
        if row < |hunk.ours| {
          r := r + hunk.ours[row];
        }
      case Theirs =>
        if row < |hunk.theirs| {
          r := r + hunk.theirs[row];
        }
    }
  }

  lemma NoneChosen(out: string, hunk: ConflictHunk)
    ensures out + Join(Chosen(hunk, 0)) == out
  {
    assert out + "" == out;
  }

  lemma RowChosen(out: string, hunk: ConflictHunk, row: nat)
    ensures var side := if ChoiceAt(hunk, row) == Ours then hunk.ours else hunk.theirs;
      out + Join(Chosen(hunk, row + 1)) == out + Join(Chosen(hunk, row)) + (if row < |side| then side[row] else "")
  {
    var side := if ChoiceAt(hunk, row) == Ours then hunk.ours else hunk.theirs;
    JoinAppend(Chosen(hunk, row), ChosenAt(hunk, row));
    if row < |side| {
      OneLineJoins(side[row]);
    }
    hide Join, Chosen, ChosenAt;
    assert out + (Join(Chosen(hunk, row)) + Join(ChosenAt(hunk, row))) == out + Join(Chosen(hunk, row)) + Join(ChosenAt(hunk, row));
  }

  /** `compose_conflict_editor_output`. */
  method ComposeConflictEditorOutput(sections: seq<ConflictSection>) returns (out: string)
    ensures out == Compose(sections)
  {
    hide Join, ChosenLines;
    out := "";
    for i := 0 to |sections|
      invariant out == Compose(sections[..i])
    {
      assert sections[..i + 1][..i] == sections[..i];
      match sections[i]
      case Plain(text) =>
        out := out + text;
      case Hunk(hunk) =>
        out := AppendChosen(out, hunk);
    }
    assert sections[..|sections|] == sections;
  }

  /** `apply_conflict_choice_to_all_hunks`. */
  method ApplyConflictChoiceToAllHunks(sections: array<ConflictSection>, source: Source)
    modifies sections
    ensures sections[..] == ChooseAllSections(old(sections[..]), source)
  {
    for i := 0 to sections.Length
      invariant forall k :: 0 <= k < i ==> sections[k] == ChooseAll(old(sections[k]), source)
      invariant forall k :: i <= k < sections.Length ==> sections[k] == old(sections[k])
    {
      match sections[i]
      case Plain(_) =>
      case Hunk(hunk) =>
        var choices := hunk.choices;
        for row := 0 to |choices|
          invariant |choices| == |hunk.choices| && forall k :: 0 <= k < row ==> choices[k] == source
        {
          choices := choices[row := source];
        }
        assert choices == seq(|hunk.choices|, _ => source);
        sections[i] := Hunk(hunk.(choices := choices));
    }
  }
}
