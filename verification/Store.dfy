/** The store (gossip/store.go): the operation list, its three indexes, and the log file
    behind them. Every method is proved against the log functions. */
module Store {
  import opened Consensus
  import opened Journal
  import opened Log
  import opened Operations
  import Pending
  import opened Strings
  import opened Wrappers

  /** `authorSeqIndex`: exactly one entry per operation, under its key. */
  ghost predicate KeysIndexed(ops: Ops, index: map<string, OpId>) {
    && (forall o :: o in ops ==> AuthorSeqKey(o.author, o.seqNo) in index && index[AuthorSeqKey(o.author, o.seqNo)] == o.id)
    && (forall k :: k in index ==> exists o :: o in ops && AuthorSeqKey(o.author, o.seqNo) == k)
  }

  function Ids(ops: Ops): set<OpId> {
    set o | o in ops :: o.id
  }

  /** The key index answers whether an author and sequence is taken. */
  lemma KeyTaken(ops: Ops, index: map<string, OpId>, op: Operation)
    requires KeysIndexed(ops, index)
    ensures AuthorSeqKey(op.author, op.seqNo) in index <==> exists o :: o in ops && SameKey(o, op)
  {
    hide AuthorSeqKey;
    forall o | o in ops && AuthorSeqKey(o.author, o.seqNo) == AuthorSeqKey(op.author, op.seqNo) ensures SameKey(o, op) {
      AuthorSeqKeyInjective(o.author, o.seqNo, op.author, op.seqNo);
    }
  }

  lemma KeyAdded(ops: Ops, index: map<string, OpId>, op: Operation)
    requires KeysIndexed(ops, index) && !exists o :: o in ops && SameKey(o, op)
    ensures KeysIndexed(ops + [op], index[AuthorSeqKey(op.author, op.seqNo) := op.id])
  {
    hide AuthorSeqKey;
    KeyTaken(ops, index, op);
    var key := AuthorSeqKey(op.author, op.seqNo);
    var later := index[key := op.id];
    forall k | k in later ensures exists o :: o in ops + [op] && AuthorSeqKey(o.author, o.seqNo) == k {
      if k == key {
        assert op in ops + [op];
      } else {
        var o :| o in ops && AuthorSeqKey(o.author, o.seqNo) == k;
        assert o in ops + [op];
      }
    }
  }

  lemma SummaryAdded(ops: Ops, op: Operation)
    requires op.seqNo > 0
    ensures SummaryOf(ops + [op]) ==
      if op.seqNo > At(SummaryOf(ops), op.author) then SummaryOf(ops)[op.author := op.seqNo] else SummaryOf(ops)
  {
    hide Extent;
    AtSummary(ops, op.author);
    assert Authors(ops + [op]) == Authors(ops) + {op.author};
    forall a ensures Extent(ops + [op], a) == if op.author == a && op.seqNo > Extent(ops, a) then op.seqNo else Extent(ops, a) {
      ExtentAppend(ops, op, a);
    }
  }

  class Store {
    const nodeId: NodeId
    var ops: Ops
    var opIDs: set<OpId>
    var seqByAuthor: Summary
    var authorSeqIndex: map<string, OpId>
    /** The lines of `ops.log`. */
    var opsLog: seq<Line>
    /** `consensus.json`. */
    var configFile: ConfigFile
    /** `pending_pushes.json`. */
    var pendingFile: Pending.PendingFile

    /** The indexes agree with the operation list. */
    ghost predicate Indexed()
      reads this
    {
      && WellFormed(ops)
      && opIDs == Ids(ops)
      && seqByAuthor == SummaryOf(ops)
      && KeysIndexed(ops, authorSeqIndex)
    }

    /** ... and the log file replays to it. */
    ghost predicate Valid()
      reads this
    {
      Indexed() && Load(opsLog) == Ok(ops)
    }

    constructor (nodeId: NodeId, lines: seq<Line>, configFile: ConfigFile, pendingFile: Pending.PendingFile)
      ensures this.nodeId == nodeId && opsLog == lines && this.configFile == configFile
        && this.pendingFile == pendingFile
      ensures Indexed() && ops == []
    {
      this.nodeId := nodeId;
      ops, opIDs, seqByAuthor, authorSeqIndex := [], {}, map[], map[];
      opsLog := lines;
      this.configFile, this.pendingFile := configFile, pendingFile;
    }

    /** `addOperationLocked`. */
    method AddOperation(op: Operation, persist: bool) returns (outcome: Outcome)
      requires Indexed()
      modifies this`ops, this`opIDs, this`seqByAuthor, this`authorSeqIndex, this`opsLog
      ensures Indexed()
      ensures outcome == OutcomeOf(old(ops), op) && ops == AddTo(old(ops), op)
      ensures opsLog == if persist && outcome == Added then old(opsLog) + [Entry(op)] else old(opsLog)
    {
      hide WellFormed, Verify, Sign, SummaryOf, KeysIndexed, AuthorSeqKey, TrimSpace;
      ValidIffSigned(op);
      AddOutcome(ops, op);
      var problem := Verify(op);
      if problem.Some? {
        return Invalid(problem.value);
      }
      if op.id in opIDs {
        return Duplicate;
      }
      var key := AuthorSeqKey(op.author, op.seqNo);
      KeyTaken(ops, authorSeqIndex, op);
      if key in authorSeqIndex && authorSeqIndex[key] != op.id {
        IndexedIdKnown(ops, authorSeqIndex, key);
        return Conflict;
      }
      IndexedIdKnown(ops, authorSeqIndex, key);
      KeyAdded(ops, authorSeqIndex, op);
      SummaryAdded(ops, op);
      assert Ids(ops + [op]) == Ids(ops) + {op.id};
      ops := ops + [op];
      opIDs := opIDs + {op.id};
      authorSeqIndex := authorSeqIndex[key := op.id];
      if op.seqNo > At(seqByAuthor, op.author) {
        seqByAuthor := seqByAuthor[op.author := op.seqNo];
      }
      if persist {
        opsLog := opsLog + [Entry(op)];
      }
      outcome := Added;
    }

    /** `AddRemoteOp`. */
    method AddRemoteOp(op: Operation) returns (outcome: Outcome)
      requires Indexed()
      modifies this`ops, this`opIDs, this`seqByAuthor, this`authorSeqIndex, this`opsLog
      ensures Indexed() && (old(Valid()) ==> Valid())
      ensures outcome == OutcomeOf(old(ops), op) && ops == AddTo(old(ops), op)
      ensures opsLog == if outcome == Added then old(opsLog) + [Entry(op)] else old(opsLog)
    {
      hide Indexed, OutcomeOf;
      outcome := AddOperation(op, true);
      if old(Valid()) {
        LoadAppended(old(opsLog), op);
      }
    }

    /** `AppendLocalOp`, at one reading of the clock. */
    method AppendLocalOp(payload: Payload, now: int) returns (r: Result<Operation, AppendError>)
      requires Indexed()
      modifies this`ops, this`opIDs, this`seqByAuthor, this`authorSeqIndex, this`opsLog
      ensures Indexed() && (old(Valid()) ==> Valid())
      ensures r == LocalOp(old(ops), nodeId, now, payload)
      ensures ops == if r.Ok? then old(ops) + [r.value] else old(ops)
      ensures opsLog == if r.Ok? then old(opsLog) + [Entry(r.value)] else old(opsLog)
    {
      hide WellFormed, KeysIndexed, OutcomeOf, Load;
      if TrimSpace(payload.Type()) == "" {
        return Err(NoType);
      }
      AtSummary(ops, nodeId);
      var seqNo := NextSeq(At(seqByAuthor, nodeId));
      var op := Sign(nodeId, seqNo, now, CleanPayload(payload));
      var outcome := AddRemoteOp(op);
      match outcome
      case Added => r := Ok(op);
      case Duplicate => r := Err(Exists);
      case _ => r := Err(Refused(outcome));
    }

    /** `loadOps`: replay the log file into an empty store. */
    method LoadOps() returns (failure: Option<LoadError>)
      requires Indexed() && ops == []
      modifies this`ops, this`opIDs, this`seqByAuthor, this`authorSeqIndex, this`opsLog
      ensures opsLog == old(opsLog)
      ensures failure.None? ==> Valid() && Load(opsLog) == Ok(ops)
      ensures failure.Some? ==> Load(opsLog) == Err(failure.value)
    {
      hide Indexed, OutcomeOf;
      failure := None;
      var line := 0;
      while line < |opsLog|
        invariant 0 <= line <= |opsLog| && opsLog == old(opsLog)
        invariant Indexed() && Load(opsLog[..line]) == Ok(ops)
      {
        var text := opsLog[line];
        line := line + 1;
        assert opsLog[..line][..line - 1] == opsLog[..line - 1];
        match text
        case Blank =>
        case Torn =>
          assert Load(opsLog[..line]) == Err(Undecodable(line));
          LoadFails(opsLog, line);
          return Some(Undecodable(line));
        case Entry(op) =>
          var outcome := AddOperation(op, false);
          if outcome == Conflict || outcome.Invalid? {
            assert Load(opsLog[..line]) == Err(Unloadable(line, outcome));
            LoadFails(opsLog, line);
            return Some(Unloadable(line, outcome));
          }
      }
      assert opsLog[..line] == opsLog;
    }

    /** `Summary`: a fresh copy of the highest sequence per author. */
    method Summary() returns (out: Summary)
      requires Indexed()
      ensures out == SummaryOf(ops)
    {
      hide WellFormed, KeysIndexed, Load, SummaryOf, Ids;
      out := map[];
      var authors := seqByAuthor.Keys;
      while authors != {}
        invariant authors <= seqByAuthor.Keys && out.Keys == seqByAuthor.Keys - authors
        invariant forall a :: a in out ==> out[a] == seqByAuthor[a]
        decreases authors
      {
        var author :| author in authors;
        out := out[author := seqByAuthor[author]];
        authors := authors - {author};
      }
    }

    /** `MissingFor`. */
    method MissingFor(summary: Log.Summary, limit: int) returns (out: Ops)
      requires Indexed()
      ensures out == Missing(ops, summary, limit)
    {
      hide Indexed, SortedOps;
      var ordered := SortedOps(ops);
      out := [];
      for i := 0 to |ordered|
        invariant out == Newer(ordered[..i], summary)
        invariant limit > 0 ==> |out| < limit
      {
        assert ordered[..i + 1][..i] == ordered[..i];
        if ordered[i].seqNo > At(summary, ordered[i].author) {
          out := out + [ordered[i]];
          if limit > 0 && |out| >= limit {
            NewerPrefix(ordered, summary, i + 1);
            break;
          }
        }
      }
      assert ordered[..|ordered|] == ordered;
    }

    /** `Ops`: all operations in author and sequence order, or the last `limit` of them. */
    method Operations(limit: int) returns (ordered: Ops)
      requires Indexed()
      ensures ordered == Tail(SortedOps(ops), limit)
    {
      ordered := SortedOps(ops);
      if limit > 0 && |ordered| > limit {
        ordered := ordered[|ordered| - limit..];
      }
    }
  }

  lemma {:induction false} NewerPrefix(ops: Ops, summary: Log.Summary, n: nat)
    requires n <= |ops|
    ensures Newer(ops[..n], summary) <= Newer(ops, summary)
  {
    if n == |ops| {
      assert ops[..n] == ops;
    } else {
      assert ops[..|ops| - 1][..n] == ops[..n];
      NewerPrefix(ops[..|ops| - 1], summary, n);
    }
  }

  lemma IndexedIdKnown(ops: Ops, index: map<string, OpId>, key: string)
    requires KeysIndexed(ops, index)
    ensures key in index ==> index[key] in Ids(ops)
  {
    if key in index {
      var o :| o in ops && AuthorSeqKey(o.author, o.seqNo) == key;
    }
  }
}
