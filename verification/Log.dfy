/** The replicated log as a value: what a store holds is the sequence of operations in
    the order they were added. Everything a store answers is a function of it. */
module Log {
  import opened Operations
  import opened Sorting
  import opened Strings
  import opened Wrappers

  type Ops = seq<Operation>

  datatype Outcome = Invalid(error: VerifyError) | Duplicate | Conflict | Added

  /** What `addOperationLocked` decides about `op`. */
  function OutcomeOf(log: Ops, op: Operation): Outcome {
    if !Valid(op) then Invalid(Verify(op).value)
    else if exists o :: o in log && o.id == op.id then Duplicate
    else if exists o :: o in log && SameKey(o, op) then Conflict
    else Added
  }

  function AddTo(log: Ops, op: Operation): Ops {
    if OutcomeOf(log, op) == Added then log + [op] else log
  }

  function AddAll(log: Ops, ops: Ops): Ops {
    if ops == [] then log else AddTo(AddAll(log, ops[..|ops| - 1]), ops[|ops| - 1])
  }

  /** Every log a store can hold: verified operations, one per author and sequence. */
  ghost predicate WellFormed(log: Ops) {
    && (forall o :: o in log ==> Valid(o))
    && (forall i, j :: 0 <= i < j < |log| ==> !SameKey(log[i], log[j]))
  }

  /** The highest sequence known for an author, 0 when there is none. */
  function Extent(log: Ops, a: NodeId): Uint64 {
    if log == [] then 0
    else
      var e, last := Extent(log[..|log| - 1], a), log[|log| - 1];
      if last.author == a && last.seqNo > e then last.seqNo else e
  }

  function Authors(log: Ops): set<NodeId> {
    set o | o in log :: o.author
  }

  type Summary = map<NodeId, Uint64>

  function At(summary: Summary, a: NodeId): Uint64 {
    if a in summary then summary[a] else 0
  }

  function SummaryOf(log: Ops): Summary {
    map a | a in Authors(log) :: Extent(log, a)
  }

  function SortedOps(log: Ops): Ops {
    Sort(KeyLess, log)
  }

  /** The operations above a summary, in the given order. */
  function Newer(ops: Ops, summary: Summary): Ops {
    if ops == [] then []
    else
      var last := ops[|ops| - 1];
      Newer(ops[..|ops| - 1], summary) + (if last.seqNo > At(summary, last.author) then [last] else [])
  }

  function Truncate(ops: Ops, limit: int): Ops {
    if limit > 0 && |ops| > limit then ops[..limit] else ops
  }

  /** The last `limit` of a list, or all of it. */
  function Tail(ops: Ops, limit: int): Ops {
    if limit > 0 && |ops| > limit then ops[|ops| - limit..] else ops
  }

  /** `MissingFor`. */
  function Missing(log: Ops, summary: Summary, limit: int): Ops {
    Truncate(Newer(SortedOps(log), summary), limit)
  }

  datatype AppendError = NoType | Exists | Refused(outcome: Outcome)

  /** Sequence numbers are unsigned 64-bit and wrap around. */
  function NextSeq(n: Uint64): Uint64 {
    (n + 1) % 0x1_0000_0000_0000_0000
  }

  function CleanPayload(payload: Payload): Payload {
    if payload.Event? then payload.(kind := TrimSpace(payload.kind)) else payload
  }

  /** The operation `AppendLocalOp` adds to its author's log, or why it does not. */
  function LocalOp(log: Ops, node: NodeId, timestamp: int, payload: Payload): Result<Operation, AppendError> {
    if TrimSpace(payload.Type()) == "" then Err(NoType)
    else
      var op := Sign(node, NextSeq(Extent(log, node)), timestamp, CleanPayload(payload));
      match OutcomeOf(log, op)
      case Added => Ok(op)
      case Duplicate => Err(Exists)
      case outcome => Err(Refused(outcome))
  }

  // ---------------------------------------------------------------- basic facts

  lemma KeyOrder()
    ensures TotalPreorder(KeyLess)
    ensures forall x, y {:trigger KeyLess(x, y)} {:trigger KeyLess(y, x)} :: KeyLess(x, y) || KeyLess(y, x) || SameKey(x, y)
  {
    LessLaws();
  }

  /** Strictly ordered operations have distinct keys. */
  lemma OrderedKeysDistinct(ops: Ops)
    requires StrictlyOrdered(KeyLess, ops)
    ensures forall i, j :: 0 <= i < j < |ops| ==> !SameKey(ops[i], ops[j])
  {
    forall i, j | 0 <= i < j < |ops| ensures !SameKey(ops[i], ops[j]) {
      assert KeyLess(ops[i], ops[j]);
      LessIrreflexive(ops[i].author);
    }
  }

  lemma {:induction false} ExtentIsMax(log: Ops, a: NodeId)
    ensures forall o :: o in log && o.author == a ==> o.seqNo <= Extent(log, a)
    ensures Extent(log, a) == 0 || exists o :: o in log && o.author == a && o.seqNo == Extent(log, a)
  {
    if log != [] {
      var front, last := log[..|log| - 1], log[|log| - 1];
      ExtentIsMax(front, a);
      assert log == front + [last];
      assert Extent(front, a) == 0 || exists o :: o in log && o.author == a && o.seqNo == Extent(front, a);
      assert last in log;
    }
  }

  lemma {:induction false} ExtentGrows(x: Ops, y: Ops, a: NodeId)
    requires x <= y
    ensures Extent(x, a) <= Extent(y, a)
  {
    if |x| < |y| {
      ExtentGrows(x, y[..|y| - 1], a);
    } else {
      assert x == y;
    }
  }

  lemma AtSummary(log: Ops, a: NodeId)
    ensures At(SummaryOf(log), a) == Extent(log, a)
  {
    ExtentIsMax(log, a);
  }

  lemma ExtentAppend(log: Ops, op: Operation, a: NodeId)
    ensures Extent(log + [op], a) == if op.author == a && op.seqNo > Extent(log, a) then op.seqNo else Extent(log, a)
  {
    assert (log + [op])[..|log|] == log;
  }

  /** Adding to a well-formed log: the operation is held already, refused, or appended. */
  lemma AddOutcome(log: Ops, op: Operation)
    requires WellFormed(log)
    ensures WellFormed(AddTo(log, op))
    ensures OutcomeOf(log, op) == Duplicate <==> op in log
    ensures OutcomeOf(log, op) == Added <==> Valid(op) && !exists o :: o in log && SameKey(o, op)
    ensures OutcomeOf(log, op) == Conflict <==> Valid(op) && op !in log && exists o :: o in log && SameKey(o, op)
    ensures OutcomeOf(log, op).Invalid? <==> !Valid(op)
    ensures !Valid(op) ==> Verify(op) == Some(OutcomeOf(log, op).error)
  {
    forall o | o in log && Valid(op) && o.id == op.id ensures o == op {
      SameIdSameOperation(o, op);
    }
  }

  lemma SortedStrictly(log: Ops)
    requires WellFormed(log)
    ensures StrictlyOrdered(KeyLess, SortedOps(log))
    ensures forall o :: o in SortedOps(log) <==> o in log
  {
    hide KeyLess, WellFormed;
    var s := SortedOps(log);
    KeyOrder();
    SortOrdered(KeyLess, log);
    SortElements(KeyLess, log);
    KeysDistinct(log);
    SortDistinct(KeyLess, log);
    forall i, j | 0 <= i < j < |s| ensures KeyLess(s[i], s[j]) {
      assert s[i] in log && s[j] in log;
    }
  }

  lemma KeysDistinct(log: Ops)
    requires WellFormed(log)
    ensures Distinct(log)
    ensures forall o, p :: o in log && p in log && SameKey(o, p) ==> o == p
  {
    hide Valid;
  }

  lemma {:induction false} NewerElements(ops: Ops, summary: Summary)
    ensures forall o :: o in Newer(ops, summary) <==> o in ops && o.seqNo > At(summary, o.author)
  {
    if ops != [] {
      NewerElements(ops[..|ops| - 1], summary);
      assert ops == ops[..|ops| - 1] + [ops[|ops| - 1]];
    }
  }

  lemma {:induction false} NewerOrdered(ops: Ops, summary: Summary)
    requires StrictlyOrdered(KeyLess, ops)
    ensures StrictlyOrdered(KeyLess, Newer(ops, summary))
  {
    if ops != [] {
      NewerOrdered(ops[..|ops| - 1], summary);
      NewerElements(ops[..|ops| - 1], summary);
    }
  }

  /** The whole difference: what the log holds above the summary, once each, in order. */
  lemma MissingIsDifference(log: Ops, summary: Summary)
    requires WellFormed(log)
    ensures StrictlyOrdered(KeyLess, Missing(log, summary, 0))
    ensures forall o :: o in Missing(log, summary, 0) <==> o in log && o.seqNo > At(summary, o.author)
  {
    SortedStrictly(log);
    NewerElements(SortedOps(log), summary);
    NewerOrdered(SortedOps(log), summary);
  }

  /** A limited answer is a prefix of the unlimited one. */
  lemma MissingPrefix(log: Ops, summary: Summary, limit: int)
    ensures Missing(log, summary, limit) <= Missing(log, summary, 0)
  {
  }

  /** A local append succeeds, one past the author's extent, except when the sequence number
      wraps around to 0, which never verifies. */
  lemma LocalOpSpec(log: Ops, node: NodeId, timestamp: int, payload: Payload)
    requires WellFormed(log) && TrimSpace(node) != "" && TrimSpace(payload.Type()) != ""
    ensures LocalOp(log, node, timestamp, payload).Ok? <==> Extent(log, node) < 0xFFFF_FFFF_FFFF_FFFF
    ensures LocalOp(log, node, timestamp, payload).Ok? ==>
      var op := LocalOp(log, node, timestamp, payload).value;
      && op == Sign(node, Extent(log, node) + 1, timestamp, CleanPayload(payload))
      && Valid(op) && OutcomeOf(log, op) == Added
  {
    hide TrimSpace, Verify, Extent;
    var op := Sign(node, NextSeq(Extent(log, node)), timestamp, CleanPayload(payload));
    ExtentIsMax(log, node);
    ValidIffSigned(op);
    TrimIdempotent(payload.Type());
    AddOutcome(log, op);
  }

  // ------------------------------------------------------------- what local appends do

  /** The node can append nothing more: it is nameless, or its sequence numbers are used up. */
  predicate Exhausted(log: Ops, node: NodeId) {
    TrimSpace(node) == "" || Extent(log, node) == 0xFFFF_FFFF_FFFF_FFFF
  }

  lemma AppendsIffNotExhausted(log: Ops, node: NodeId, now: int, payload: Payload)
    requires WellFormed(log) && TrimSpace(payload.Type()) != ""
    ensures LocalOp(log, node, now, payload).Ok? <==> !Exhausted(log, node)
  {
    if TrimSpace(node) != "" {
      LocalOpSpec(log, node, now, payload);
    } else {
      ValidIffSigned(Sign(node, NextSeq(Extent(log, node)), now, CleanPayload(payload)));
    }
  }

  /** The operation an append adds, field by field, or why it adds none. */
  lemma LocalOpMeans(log: Ops, node: NodeId, timestamp: int, payload: Payload)
    requires WellFormed(log)
    ensures var r := LocalOp(log, node, timestamp, payload);
      if TrimSpace(payload.Type()) == "" then r == Err(NoType)
      else if TrimSpace(node) == "" then r == Err(Refused(Invalid(MissingAuthor)))
      else if Extent(log, node) == 0xFFFF_FFFF_FFFF_FFFF then r == Err(Refused(Invalid(ZeroSeq)))
      else
        && r.Ok? && Valid(r.value) && r.value !in log
        && r.value.author == node && r.value.seqNo == Extent(log, node) + 1 && r.value.timestamp == timestamp
        && (payload.Event? ==> r.value.payload == Event(TrimSpace(payload.kind), payload.text))
        && (!payload.Event? ==> r.value.payload == payload)
  {
    hide TrimSpace, Extent, WellFormed;
    if TrimSpace(payload.Type()) != "" {
      TrimIdempotent(payload.Type());
      if TrimSpace(node) != "" {
        LocalOpSpec(log, node, timestamp, payload);
        if LocalOp(log, node, timestamp, payload).Ok? {
          AddOutcome(log, LocalOp(log, node, timestamp, payload).value);
        }
      }
    }
  }

  // -------------------------------------------------------------- the order and its tail

  /** Author by author in text order, and each author's operations by sequence. */
  lemma SortedMeans(log: Ops, i: nat, j: nat)
    requires WellFormed(log) && i < j < |SortedOps(log)|
    ensures var x, y := SortedOps(log)[i], SortedOps(log)[j];
      Less(x.author, y.author) || (x.author == y.author && x.seqNo < y.seqNo)
  {
    hide WellFormed, SortedOps, Less;
    SortedStrictly(log);
    assert KeyLess(SortedOps(log)[i], SortedOps(log)[j]);
  }

  /** With a positive limit, the last operations that fit under it; else all of them. */
  lemma TailMeans(ops: Ops, limit: int)
    ensures limit <= 0 ==> Tail(ops, limit) == ops
    ensures limit > 0 ==> |Tail(ops, limit)| == (if |ops| < limit then |ops| else limit)
    ensures forall i :: 0 <= i < |Tail(ops, limit)| ==> Tail(ops, limit)[i] == ops[|ops| - |Tail(ops, limit)| + i]
  {
  }
}
