/** The operation log file: one line per operation, replayed when a store is opened. */
module Journal {
  import opened Log
  import opened Operations
  import opened Wrappers

  /** A line of `ops.log`: blank, undecodable (a torn write), or an operation. */
  datatype Line = Blank | Torn | Entry(op: Operation)

  datatype LoadError = Undecodable(line: nat) | Unloadable(line: nat, outcome: Outcome)

  /** `loadOps`. */
  function Load(lines: seq<Line>): Result<Ops, LoadError> {
    if lines == [] then Ok([])
    else
      var before := Load(lines[..|lines| - 1]);
      if before.Err? then before
      else
        match lines[|lines| - 1]
        case Blank => before
        case Torn => Err(Undecodable(|lines|))
        case Entry(op) =>
          match OutcomeOf(before.value, op)
          case Added => Ok(before.value + [op])
          case Duplicate => before
          case outcome => Err(Unloadable(|lines|, outcome))
  }

  lemma LoadAppended(lines: seq<Line>, op: Operation)
    requires Load(lines).Ok?
    ensures Load(lines + [Entry(op)]) ==
      match OutcomeOf(Load(lines).value, op)
      case Added => Ok(Load(lines).value + [op])
      case Duplicate => Load(lines)
      case outcome => Err(Unloadable(|lines| + 1, outcome))
  {
    hide OutcomeOf;
    assert (lines + [Entry(op)])[..|lines|] == lines;
  }

  /** The first line that cannot be loaded decides. */
  lemma {:induction false} LoadFails(lines: seq<Line>, n: nat)
    requires n <= |lines| && Load(lines[..n]).Err?
    ensures Load(lines) == Load(lines[..n])
  {
    hide OutcomeOf;
    if n == |lines| {
      assert lines[..n] == lines;
    } else {
      assert lines[..|lines| - 1][..n] == lines[..n];
      LoadFails(lines[..|lines| - 1], n);
    }
  }

  function Entries(log: Ops): seq<Line> {
    seq(|log|, i requires 0 <= i < |log| => Entry(log[i]))
  }

  /** The operations on the lines, each at its first occurrence. */
  function Firsts(lines: seq<Line>): Ops {
    if lines == [] then []
    else
      var before, last := Firsts(lines[..|lines| - 1]), lines[|lines| - 1];
      if last.Entry? && last.op !in before then before + [last.op] else before
  }

  /** A journal loads exactly when no line is torn and the distinct operations on it
      form a well-formed log; repeated lines and blank lines change nothing. */
  lemma {:induction false} LoadExact(lines: seq<Line>)
    ensures Load(lines).Ok? <==> Torn !in lines && WellFormed(Firsts(lines))
    ensures Load(lines).Ok? ==> Load(lines).value == Firsts(lines)
  {
    hide WellFormed, OutcomeOf;
    if lines == [] {
      EmptyWellFormed();
    } else {
      var front, last := lines[..|lines| - 1], lines[|lines| - 1];
      LoadExact(front);
      assert lines == front + [last];
      if WellFormed(Firsts(lines)) {
        WellFormedPrefix(Firsts(lines), |Firsts(front)|);
        assert Firsts(lines)[..|Firsts(front)|] == Firsts(front);
      }
      if Load(front).Ok? && last.Entry? {
        EntryExtends(Firsts(front), last.op);
      }
    }
  }

  /** Why a journal does not load: its first bad line, by number. The line is torn, or the store
      that holds what the lines before it say refuses its operation. */
  lemma {:induction false} LoadFailure(lines: seq<Line>)
    requires Load(lines).Err?
    ensures exists n :: FailsFirst(lines, n)
  {
    hide WellFormed, OutcomeOf, Firsts;
    if lines != [] {
      var front := lines[..|lines| - 1];
      if Load(front).Err? {
        LoadFailure(front);
        var n :| FailsFirst(front, n);
        assert front[..n] == lines[..n];
        assert FailsFirst(lines, n);
      } else {
        LoadExact(front);
        assert FailsFirst(lines, |front|);
      }
    }
  }

  /** The lines before line `n` load, a store that holds what they say refuses line `n`, and that
      is the error. */
  ghost predicate FailsFirst(lines: seq<Line>, n: int)
    requires Load(lines).Err?
  {
    0 <= n < |lines| && Load(lines[..n]).Ok? && Refuses(Firsts(lines[..n]), lines[n], n + 1, Load(lines).error)
  }

  /** A store with this log cannot take the line, and that is the error. */
  ghost predicate Refuses(log: Ops, line: Line, number: nat, error: LoadError) {
    match line
    case Blank => false
    case Torn => error == Undecodable(number)
    case Entry(op) =>
      var outcome := OutcomeOf(log, op);
      (outcome == Conflict || outcome.Invalid?) && error == Unloadable(number, outcome)
  }

  lemma EmptyWellFormed()
    ensures WellFormed([])
  {
  }

  lemma WellFormedPrefix(log: Ops, n: nat)
    requires WellFormed(log) && n <= |log|
    ensures WellFormed(log[..n])
  {
  }

  lemma EntryExtends(log: Ops, op: Operation)
    requires WellFormed(log)
    ensures OutcomeOf(log, op) == Duplicate <==> op in log
    ensures op !in log ==> (OutcomeOf(log, op) == Added <==> WellFormed(log + [op]))
  {
    hide Valid;
    AddOutcome(log, op);
    if op !in log && WellFormed(log + [op]) {
      assert op in log + [op];
      forall o | o in log ensures !SameKey(o, op) {
        var i :| 0 <= i < |log| && log[i] == o;
        assert (log + [op])[i] == o && (log + [op])[|log|] == op;
      }
    }
  }

  /** Crash recovery: what a store has written replays to the log it held. */
  lemma {:induction false} ReplayWritten(log: Ops)
    requires WellFormed(log)
    ensures Load(Entries(log)) == Ok(log)
  {
    LoadExact(Entries(log));
    FirstsOfEntries(log);
  }

  lemma {:induction false} FirstsOfEntries(log: Ops)
    requires WellFormed(log)
    ensures Firsts(Entries(log)) == log && Torn !in Entries(log)
  {
    hide Valid;
    if log != [] {
      var front := log[..|log| - 1];
      WellFormedPrefix(log, |front|);
      FirstsOfEntries(front);
      assert Entries(log)[..|log| - 1] == Entries(front);
      assert log == front + [log[|log| - 1]];
    }
  }
}
