/** The event recorder (`recordGitEvent` in main.go) opens a second store on the log file the
    executor is still using. When does the file still load after a call? */
module Recorder {
  import opened Consensus
  import opened Executor
  import opened Journal
  import opened Log
  import opened Operations
  import opened Pending
  import opened Quorum
  import opened Strings
  import opened Wrappers

  /** The executor's store and the log file agree. */
  ghost predicate Aligned(st: Progress) {
    WellFormed(st.log) && Journal.Load(st.journal) == Ok(st.log)
  }

  /** The log file holds an event at the sequence number the executor's store would use next. */
  ghost predicate Ahead(st: Progress, node: NodeId) {
    && WellFormed(st.log) && Journal.Load(st.journal).Ok?
    && var disk := Journal.Load(st.journal).value;
       WellFormed(disk) && |st.log| < |disk| && st.log <= disk && IsNextEvent(st.log, node, disk[|st.log|])
  }

  predicate IsNextEvent(log: Ops, node: NodeId, o: Operation) {
    o.author == node && o.seqNo == NextSeq(Extent(log, node)) && o.payload.Event?
  }

  /** Before and after the first push of the call that was executed. */
  ghost predicate Fresh(st: Progress) {
    Aligned(st) && st.counts.executed == 0
  }

  ghost predicate Spent(st: Progress, node: NodeId) {
    st.counts.executed > 0 && (Ahead(st, node) || (Aligned(st) && Exhausted(st.log, node)))
  }

  ghost predicate Broken(st: Progress) {
    Journal.Load(st.journal).Err?
  }

  lemma StaysBroken(lines: seq<Line>, line: Line)
    requires Journal.Load(lines).Err?
    ensures Journal.Load(lines + [line]).Err?
  {
    assert (lines + [line])[..|lines|] == lines;
  }

  lemma EventType(pid: string)
    ensures TrimSpace(Event("git.push", pid).Type()) != ""
  {
  }

  /** Recording an event on a file that loads keeps it loading, and leaves the executor's
      store behind unless nothing can be appended. */
  lemma EventKeepsLoading(st: Progress, node: NodeId, pid: string, now: int)
    requires Aligned(st) || Ahead(st, node)
    ensures var next := st.(journal := EventRecorded(st.journal, node, pid, now));
      Ahead(next, node) || (Aligned(st) && next.journal == st.journal && Exhausted(st.log, node))
    ensures Aligned(st) && Exhausted(st.log, node) ==> EventRecorded(st.journal, node, pid, now) == st.journal
  {
    hide WellFormed, TrimSpace, OutcomeOf, Extent, Valid, Exhausted;
    var disk := Journal.Load(st.journal).value;
    var op := LocalOp(disk, node, now, Event("git.push", pid));
    EventType(pid);
    AppendsIffNotExhausted(disk, node, now, Event("git.push", pid));
    if op.Ok? {
      Journal.LoadAppended(st.journal, op.value);
      AddOutcome(disk, op.value);
      if Aligned(st) {
        assert (disk + [op.value])[|st.log|] == op.value;
      } else {
        assert (disk + [op.value])[|st.log|] == disk[|st.log|];
      }
    }
  }

  /** A certificate signed by a store that is behind reuses the event's sequence number. */
  lemma CertificateCollides(st: Progress, node: NodeId, cfg: ConfigFile, pid: string, now: int)
    requires Ahead(st, node) && IssuedOp(st.log, st.log, node, cfg, Certify(pid, false), now).Ok?
    ensures Journal.Load(st.journal + [Entry(IssuedOp(st.log, st.log, node, cfg, Certify(pid, false), now).value)]).Err?
  {
    hide WellFormed, TrimSpace, Extent, Valid, Verify, StatusOf;
    var disk, op := Journal.Load(st.journal).value, IssuedOp(st.log, st.log, node, cfg, Certify(pid, false), now).value;
    var event := disk[|st.log|];
    assert event in disk && SameKey(event, op) && event.payload != op.payload;
    KeysDistinct(disk);
    AddOutcome(disk, op);
    Journal.LoadAppended(st.journal, op);
  }

  lemma CertificateExtends(st: Progress, node: NodeId, cfg: ConfigFile, pid: string, now: int)
    requires Aligned(st) && IssuedOp(st.log, st.log, node, cfg, Certify(pid, false), now).Ok?
    ensures var op := IssuedOp(st.log, st.log, node, cfg, Certify(pid, false), now).value;
      Aligned(st.(log := st.log + [op], journal := st.journal + [Entry(op)]))
  {
    hide IssuedOp, WellFormed, OutcomeOf;
    UnforcedCertCertifies(st.log, node, cfg, pid, now);
    Journal.LoadAppended(st.journal, IssuedOp(st.log, st.log, node, cfg, Certify(pid, false), now).value);
  }

  /** Handling the record issues a certificate: the guard of the branch that does. */
  ghost predicate Certifies(st: Progress, node: NodeId, cfg: ConfigFile, push: PendingPush, i: nat, world: World) {
    var status := StatusOf(st.log, node, cfg, push.proposalId, world.statusAt(i));
    && status.Ok? && !status.value.expired && !status.value.certified && status.value.hasQuorum
    && IssuedOp(st.log, st.log, node, cfg, Certify(push.proposalId, false), world.certifyAt(i)).Ok?
  }

  lemma ExhaustedIssuesNothing(log: Ops, node: NodeId, cfg: ConfigFile, pid: string, now: int)
    requires WellFormed(log) && Exhausted(log, node)
    ensures IssuedOp(log, log, node, cfg, Certify(pid, false), now).Err?
  {
    hide TrimSpace, StatusOf, OutcomeOf, Extent, WellFormed, LocalOp, Exhausted;
    var payload := Issue(log, node, cfg, Certify(pid, false), now);
    if payload.Ok? {
      CertType();
      AppendsIffNotExhausted(log, node, now, payload.value);
    }
  }

  lemma CertType()
    ensures TrimSpace("consensus.cert") != ""
  {
  }

  lemma PushJournal(st: Progress, node: NodeId, push: PendingPush, i: nat, world: World)
    ensures var next := Push(st, node, push, i, world);
      && (Fresh(st) ==> Fresh(next) || Spent(next, node))
      && (Spent(st, node) ==> Spent(next, node))
      && (Broken(st) ==> Broken(next))
  {
    hide WellFormed, Marked, Message, EventRecorded, IsNextEvent, Exhausted;
    if world.git(i).None? {
      if Aligned(st) || Ahead(st, node) {
        EventKeepsLoading(st, node, push.proposalId, world.eventAt(i));
      } else if Broken(st) {
        BrokenRecordsNothing(st.journal, node, push.proposalId, world.eventAt(i));
      }
    }
  }

  lemma BrokenRecordsNothing(journal: seq<Line>, node: NodeId, pid: string, now: int)
    requires Journal.Load(journal).Err?
    ensures EventRecorded(journal, node, pid, now) == journal
  {
  }

  /** The state a certificate leaves. */
  ghost function AfterCertificate(st: Progress, op: Operation): Progress {
    st.(counts := st.counts.(checked := st.counts.checked + 1), log := st.log + [op], journal := st.journal + [Entry(op)])
  }

  lemma CertificateJournal(st: Progress, node: NodeId, cfg: ConfigFile, pid: string, now: int)
    requires IssuedOp(st.log, st.log, node, cfg, Certify(pid, false), now).Ok?
    ensures var next := AfterCertificate(st, IssuedOp(st.log, st.log, node, cfg, Certify(pid, false), now).value);
      && (Fresh(st) ==> Fresh(next))
      && (Spent(st, node) || Broken(st) ==> Broken(next))
  {
    hide WellFormed, IssuedOp, IsNextEvent, Exhausted;
    if Fresh(st) {
      CertificateExtends(st, node, cfg, pid, now);
    } else if Spent(st, node) {
      if Ahead(st, node) {
        CertificateCollides(st, node, cfg, pid, now);
      } else {
        ExhaustedIssuesNothing(st.log, node, cfg, pid, now);
      }
    } else if Broken(st) {
      StaysBroken(st.journal, Entry(IssuedOp(st.log, st.log, node, cfg, Certify(pid, false), now).value));
    }
  }

  /** The three ways a record is handled, as far as the log and its file are concerned. */
  lemma HandleCases(st: Progress, node: NodeId, cfg: ConfigFile, push: PendingPush, i: nat, world: World)
    ensures var next, checked := Handle(st, node, cfg, push, i, world), st.(counts := st.counts.(checked := st.counts.checked + 1));
      if Certifies(st, node, cfg, push, i, world) then
        var cert := IssuedOp(st.log, st.log, node, cfg, Certify(push.proposalId, false), world.certifyAt(i));
        cert.Ok? && next == Push(AfterCertificate(st, cert.value), node, push, i, world)
      else next == Push(checked, node, push, i, world) || SameFiles(st, next)
  {
    hide StatusOf, IssuedOp, Push, Marked, Message, Waiting;
  }

  predicate SameFiles(st: Progress, next: Progress) {
    next.log == st.log && next.journal == st.journal && next.counts.executed == st.counts.executed
  }

  lemma HandleJournal(st: Progress, node: NodeId, cfg: ConfigFile, push: PendingPush, i: nat, world: World)
    ensures var next := Handle(st, node, cfg, push, i, world);
      && (Fresh(st) ==> Fresh(next) || Spent(next, node))
      && (Spent(st, node) ==> if Certifies(st, node, cfg, push, i, world) then Broken(next) else Spent(next, node))
      && (Broken(st) ==> Broken(next))
  {
    hide WellFormed, IssuedOp, Push, Handle, Certifies, IsNextEvent, Exhausted;
    HandleCases(st, node, cfg, push, i, world);
    if Certifies(st, node, cfg, push, i, world) {
      var cert := IssuedOp(st.log, st.log, node, cfg, Certify(push.proposalId, false), world.certifyAt(i)).value;
      CertificateJournal(st, node, cfg, push.proposalId, world.certifyAt(i));
      PushJournal(AfterCertificate(st, cert), node, push, i, world);
    } else {
      PushJournal(st.(counts := st.counts.(checked := st.counts.checked + 1)), node, push, i, world);
    }
  }

  /** Among the first `n` records, some certificate is issued after an earlier record's push
      was executed. */
  ghost predicate CertifiesAfterPush(start: Progress, node: NodeId, cfg: ConfigFile, only: string, n: nat, world: World)
    requires n <= |start.pushes|
  {
    exists k: nat :: LateCertificate(start, node, cfg, only, n, world, k)
  }

  ghost predicate LateCertificate(start: Progress, node: NodeId, cfg: ConfigFile, only: string, n: nat, world: World,
                                  k: nat)
    requires n <= |start.pushes|
  {
    && k < n && Selected(only, start.pushes[k]) && Process(start, node, cfg, only, k, world).counts.executed > 0
    && Certifies(Process(start, node, cfg, only, k, world), node, cfg, start.pushes[k], k, world)
  }

  lemma LateStep(start: Progress, node: NodeId, cfg: ConfigFile, only: string, n: nat, world: World)
    requires 0 < n <= |start.pushes|
    ensures CertifiesAfterPush(start, node, cfg, only, n, world)
      <==> CertifiesAfterPush(start, node, cfg, only, n - 1, world) || LateCertificate(start, node, cfg, only, n, world, n - 1)
  {
    hide Certifies, Process, Selected;
    if CertifiesAfterPush(start, node, cfg, only, n, world) {
      var k: nat :| LateCertificate(start, node, cfg, only, n, world, k);
      assert k < n - 1 ==> LateCertificate(start, node, cfg, only, n - 1, world, k);
    }
    if CertifiesAfterPush(start, node, cfg, only, n - 1, world) {
      var k: nat :| LateCertificate(start, node, cfg, only, n - 1, world, k);
      assert LateCertificate(start, node, cfg, only, n, world, k);
    }
  }

  lemma NoneLate(start: Progress, node: NodeId, cfg: ConfigFile, only: string, world: World)
    ensures !CertifiesAfterPush(start, node, cfg, only, 0, world)
  {
  }

  lemma StatesDisjoint(st: Progress, node: NodeId)
    ensures Fresh(st) ==> Journal.Load(st.journal).Ok? && st.counts.executed == 0
    ensures Spent(st, node) ==> Journal.Load(st.journal).Ok? && st.counts.executed > 0
  {
    hide WellFormed, IsNextEvent, Exhausted;
  }

  /** The log file loads again after a call exactly when no proposal is certified after another
      record's push was executed: the recorder appends through its own store, and the
      executor's next certificate reuses that sequence number. */
  lemma {:induction false} JournalSurvivesIff(start: Progress, node: NodeId, cfg: ConfigFile, only: string, n: nat,
                                              world: World)
    requires n <= |start.pushes| && Fresh(start)
    ensures var end := Process(start, node, cfg, only, n, world);
      && (Journal.Load(end.journal).Ok? <==> !CertifiesAfterPush(start, node, cfg, only, n, world))
      && (Fresh(end) || Spent(end, node) || Broken(end))
  {
    hide Handle, Certifies, WellFormed, Journal.Load, CertifiesAfterPush, Fresh, Spent;
    StatesDisjoint(Process(start, node, cfg, only, n, world), node);
    if n == 0 {
      NoneLate(start, node, cfg, only, world);
    } else {
      var st, push := Process(start, node, cfg, only, n - 1, world), start.pushes[n - 1];
      JournalSurvivesIff(start, node, cfg, only, n - 1, world);
      LateStep(start, node, cfg, only, n, world);
      StatesDisjoint(st, node);
      if Selected(only, push) {
        HandleJournal(st, node, cfg, push, n - 1, world);
      }
    }
  }

  // ------------------------------------------------- the same condition, before the call

  /** `log` is the executor's log after `k` records: certificates it signed for some of them. */
  ghost predicate Advanced(start: Progress, log: Ops, node: NodeId, k: nat)
    requires k <= |start.pushes|
  {
    && WellFormed(log) && Extent(log, node) <= Extent(start.log, node) + k
    && exists certs :: log == start.log + certs && Certificates(certs, node, start.pushes[..k])
  }

  ghost predicate Certificates(certs: Ops, node: NodeId, handled: seq<PendingPush>) {
    forall c :: c in certs ==>
      c.payload.Cert? && c.author == node && exists p :: p in handled && p.proposalId == c.payload.cert.proposalId
  }

  /** What the exact condition needs of the start: a file in step, distinct clean records, a
      membership that a certificate of the node's own does not change, and sequence numbers to
      spare. */
  ghost predicate Steady(start: Progress, node: NodeId, cfg: ConfigFile) {
    && Fresh(start) && Listed(start.pushes) && UniqueIds(start.pushes)
    && TrimSpace(node) != "" && Extent(start.log, node) + |start.pushes| < 0xFFFF_FFFF_FFFF_FFFF
    && (ReadConfig(cfg).Ok? ==> ReadConfig(cfg).value.members != [] || node in Authors(start.log))
  }

  lemma {:induction false} StatusUnmoved(log: Ops, certs: Ops, node: NodeId, cfg: ConfigFile, pid: string, now: int)
    requires forall c :: c in certs ==> c.payload.Cert? && c.author == node && c.payload.cert.proposalId != TrimSpace(pid)
    requires ReadConfig(cfg).Ok? ==> ReadConfig(cfg).value.members != [] || node in Authors(log)
    ensures StatusOf(log + certs, node, cfg, pid, now) == StatusOf(log, node, cfg, pid, now)
  {
    hide StatusOf, TrimSpace, ReadConfig;
    if certs == [] {
      assert log + certs == log;
    } else {
      var front, last := certs[..|certs| - 1], certs[|certs| - 1];
      StatusUnmoved(log, front, node, cfg, pid, now);
      assert log + certs == (log + front) + [last];
      assert last in certs && Authors(log) <= Authors(log + front);
      UnrelatedOperation(log + front, last, node, cfg, pid, now);
    }
  }

  lemma IssuesIff(log: Ops, node: NodeId, cfg: ConfigFile, pid: string, now: int)
    requires WellFormed(log)
    ensures IssuedOp(log, log, node, cfg, Certify(pid, false), now).Ok?
      <==> CertToIssue(log, node, cfg, pid, false, now).Ok? && !Exhausted(log, node)
  {
    hide TrimSpace, StatusOf, OutcomeOf, Extent, WellFormed, LocalOp, Exhausted;
    var payload := CertToIssue(log, node, cfg, pid, false, now);
    if payload.Ok? {
      CertType();
      AppendsIffNotExhausted(log, node, now, payload.value);
    }
  }

  lemma EarlierCertificates(certs: Ops, node: NodeId, listed: seq<PendingPush>, k: nat)
    requires k < |listed| && UniqueIds(listed) && Clean(listed[k]) && Certificates(certs, node, listed[..k])
    ensures forall c :: c in certs ==>
      c.payload.Cert? && c.author == node && c.payload.cert.proposalId != TrimSpace(listed[k].proposalId)
  {
    hide TrimSpace;
    forall c | c in certs ensures c.payload.Cert? && c.payload.cert.proposalId != listed[k].proposalId {
      var p :| p in listed[..k] && p.proposalId == c.payload.cert.proposalId;
      var j :| 0 <= j < k && listed[j] == p;
    }
  }

  /** What has been certified before does not change what happens to another record. */
  lemma SameVerdict(start: Progress, st: Progress, node: NodeId, cfg: ConfigFile, k: nat, world: World)
    requires Steady(start, node, cfg) && k < |start.pushes| && Advanced(start, st.log, node, k)
    ensures var p := start.pushes[k];
      && (Certifies(st, node, cfg, p, k, world) <==> Certifies(start, node, cfg, p, k, world))
      && (Pushable(st.log, node, cfg, p.proposalId, world.statusAt(k), world.certifyAt(k))
          <==> Pushable(start.log, node, cfg, p.proposalId, world.statusAt(k), world.certifyAt(k)))
  {
    hide TrimSpace, StatusOf, IssuedOp, WellFormed, Extent, Certificates, ReadConfig, UniqueIds, Clean, Journal.Load;
    var pid := start.pushes[k].proposalId;
    var certs :| st.log == start.log + certs && Certificates(certs, node, start.pushes[..k]);
    assert start.pushes[k] in start.pushes;
    EarlierCertificates(certs, node, start.pushes, k);
    StatusUnmoved(start.log, certs, node, cfg, pid, world.statusAt(k));
    StatusUnmoved(start.log, certs, node, cfg, pid, world.certifyAt(k));
    IssuesIff(st.log, node, cfg, pid, world.certifyAt(k));
    IssuesIff(start.log, node, cfg, pid, world.certifyAt(k));
  }

  lemma AdvanceByCertificate(start: Progress, log: Ops, node: NodeId, cfg: ConfigFile, k: nat, now: int)
    requires Steady(start, node, cfg) && k < |start.pushes| && Advanced(start, log, node, k)
    requires IssuedOp(log, log, node, cfg, Certify(start.pushes[k].proposalId, false), now).Ok?
    ensures var cert := IssuedOp(log, log, node, cfg, Certify(start.pushes[k].proposalId, false), now).value;
      Advanced(start, log + [cert], node, k + 1)
  {
    hide TrimSpace, StatusOf, IssuedOp, WellFormed, Extent, ReadConfig, UniqueIds, Journal.Load, OutcomeOf,
         Certificates,
         IsCertified, Clean;
    var p := start.pushes[k];
    var cert := IssuedOp(log, log, node, cfg, Certify(p.proposalId, false), now).value;
    assert p in start.pushes;
    CleanId(p);
    UnforcedCertCertifies(log, node, cfg, p.proposalId, now);
    CertSeqNo(log, node, cfg, p.proposalId, now);
    hide Advanced, Steady;
    AdvanceWith(start, log, cert, node, k);
  }

  lemma AdvanceWith(start: Progress, log: Ops, cert: Operation, node: NodeId, k: nat)
    requires k < |start.pushes| && Advanced(start, log, node, k) && WellFormed(log + [cert])
    requires IsCertified(cert, start.pushes[k].proposalId) && cert.author == node
      && cert.seqNo == NextSeq(Extent(log, node))
    ensures Advanced(start, log + [cert], node, k + 1)
  {
    hide WellFormed, Extent, Certificates, IsCertified;
    var p := start.pushes[k];
    ExtentAppend(log, cert, node);
    var certs :| log == start.log + certs && Certificates(certs, node, start.pushes[..k]);
    assert log + [cert] == start.log + (certs + [cert]);
    assert start.pushes[..k + 1] == start.pushes[..k] + [p];
    MoreCertificates(certs, cert, node, start.pushes[..k], p);
  }

  lemma MoreCertificates(certs: Ops, cert: Operation, node: NodeId, handled: seq<PendingPush>, p: PendingPush)
    requires Certificates(certs, node, handled) && IsCertified(cert, p.proposalId) && cert.author == node
    ensures Certificates(certs + [cert], node, handled + [p])
  {
    forall c | c in certs + [cert]
      ensures c.payload.Cert? && c.author == node
        && exists q :: q in handled + [p] && q.proposalId == c.payload.cert.proposalId
    {
      if c in certs {
        var q :| q in handled && q.proposalId == c.payload.cert.proposalId;
        assert q in handled + [p];
      } else {
        assert c == cert && p in handled + [p];
      }
    }
  }

  lemma CleanId(p: PendingPush)
    requires Clean(p)
    ensures TrimSpace(p.proposalId) == p.proposalId
  {
  }

  lemma AdvanceIdly(start: Progress, log: Ops, node: NodeId, k: nat)
    requires k < |start.pushes| && Advanced(start, log, node, k)
    ensures Advanced(start, log, node, k + 1)
  {
    hide WellFormed, Extent;
    var certs :| log == start.log + certs && Certificates(certs, node, start.pushes[..k]);
    assert start.pushes[..k + 1] == start.pushes[..k] + [start.pushes[k]];
    assert Certificates(certs, node, start.pushes[..k + 1]);
  }

  lemma PushKeepsLog(st: Progress, node: NodeId, push: PendingPush, i: nat, world: World)
    ensures Push(st, node, push, i, world).log == st.log
  {
    hide Marked, EventRecorded, Message;
  }

  /** The `j`-th record is pushed successfully, judged before the call. */
  ghost predicate Pushes(start: Progress, node: NodeId, cfg: ConfigFile, only: string, world: World, j: nat) {
    && j < |start.pushes| && Selected(only, start.pushes[j]) && world.git(j).None?
    && Pushable(start.log, node, cfg, start.pushes[j].proposalId, world.statusAt(j), world.certifyAt(j))
  }

  ghost predicate PushesBefore(start: Progress, node: NodeId, cfg: ConfigFile, only: string, world: World, k: nat) {
    exists j: nat :: j < k && Pushes(start, node, cfg, only, world, j)
  }

  lemma {:induction false} CallAdvances(start: Progress, node: NodeId, cfg: ConfigFile, only: string, k: nat,
                                        world: World)
    requires Steady(start, node, cfg) && k <= |start.pushes|
    ensures var st := Process(start, node, cfg, only, k, world);
      && Advanced(start, st.log, node, k)
      && (st.counts.executed > 0 <==> PushesBefore(start, node, cfg, only, world, k))
  {
    hide Handle, Push, Pushable, Advanced, Certifies, Steady, Selected;
    if k == 0 {
      NothingYet(start, node, cfg);
    } else {
      var st, p := Process(start, node, cfg, only, k - 1, world), start.pushes[k - 1];
      CallAdvances(start, node, cfg, only, k - 1, world);
      assert PushesBefore(start, node, cfg, only, world, k)
        <==> PushesBefore(start, node, cfg, only, world, k - 1) || Pushes(start, node, cfg, only, world, k - 1);
      if Selected(only, p) {
        SameVerdict(start, st, node, cfg, k - 1, world);
        ExecutedIffPushed(st, node, cfg, p, k - 1, world);
        RecordAdvances(start, st, node, cfg, k - 1, world);
      } else {
        AdvanceIdly(start, st.log, node, k - 1);
      }
    }
  }

  lemma NothingYet(start: Progress, node: NodeId, cfg: ConfigFile)
    requires Steady(start, node, cfg)
    ensures Advanced(start, start.log, node, 0) && start.counts.executed == 0
  {
    hide WellFormed, Extent;
    assert start.log == start.log + [] && Certificates([], node, start.pushes[..0]);
  }

  lemma RecordAdvances(start: Progress, st: Progress, node: NodeId, cfg: ConfigFile, k: nat, world: World)
    requires Steady(start, node, cfg) && k < |start.pushes| && Advanced(start, st.log, node, k)
    ensures Advanced(start, Handle(st, node, cfg, start.pushes[k], k, world).log, node, k + 1)
  {
    hide Handle, Push, Advanced, Certifies, Steady, IssuedOp;
    var p := start.pushes[k];
    var checked := st.(counts := st.counts.(checked := st.counts.checked + 1));
    HandleCases(st, node, cfg, p, k, world);
    if Certifies(st, node, cfg, p, k, world) {
      var cert := IssuedOp(st.log, st.log, node, cfg, Certify(p.proposalId, false), world.certifyAt(k)).value;
      AdvanceByCertificate(start, st.log, node, cfg, k, world.certifyAt(k));
      PushKeepsLog(AfterCertificate(st, cert), node, p, k, world);
    } else {
      PushKeepsLog(checked, node, p, k, world);
      AdvanceIdly(start, st.log, node, k);
    }
  }

  /** A later record that a certificate would be issued for, judged before the call. */
  ghost predicate CertifiedLate(start: Progress, node: NodeId, cfg: ConfigFile, only: string, world: World, k: nat) {
    && k < |start.pushes| && Selected(only, start.pushes[k]) && Certifies(start, node, cfg, start.pushes[k], k, world)
    && PushesBefore(start, node, cfg, only, world, k)
  }

  /** The condition of `JournalSurvivesIff`, evaluated before the call: the log file loads
      after it exactly when no selected record that is open, uncertified and ready to certify
      comes after a selected one that can be pushed and whose `git push` succeeds. */
  lemma {:induction false} JournalSurvivesIffBefore(start: Progress, node: NodeId, cfg: ConfigFile, only: string,
                                                    world: World)
    requires Steady(start, node, cfg)
    ensures Journal.Load(Process(start, node, cfg, only, |start.pushes|, world).journal).Ok?
      <==> !exists k: nat :: CertifiedLate(start, node, cfg, only, world, k)
  {
    hide Process, Pushable, Advanced, Certifies, Selected, Fresh, Listed, UniqueIds, TrimSpace, Extent, ReadConfig,
         Journal.Load,
         PushesBefore;
    var n := |start.pushes|;
    JournalSurvivesIff(start, node, cfg, only, n, world);
    forall k: nat | k < n
      ensures LateCertificate(start, node, cfg, only, n, world, k) <==> CertifiedLate(start, node, cfg, only, world, k)
    {
      CallAdvances(start, node, cfg, only, k, world);
      SameVerdict(start, Process(start, node, cfg, only, k, world), node, cfg, k, world);
    }
    if k: nat :| CertifiedLate(start, node, cfg, only, world, k) {
      assert LateCertificate(start, node, cfg, only, n, world, k);
    }
    if k: nat :| LateCertificate(start, node, cfg, only, n, world, k) {
      assert CertifiedLate(start, node, cfg, only, world, k);
    }
  }

  /** Selecting one proposal is always safe: its record is the only one handled. */
  lemma OneRecordIsSafe(start: Progress, node: NodeId, cfg: ConfigFile, only: string, world: World)
    requires Fresh(start) && UniqueIds(start.pushes) && only != ""
    ensures Journal.Load(Process(start, node, cfg, only, |start.pushes|, world).journal).Ok?
  {
    hide Process, Certifies, WellFormed, Journal.Load, UniqueIds, Fresh;
    var n := |start.pushes|;
    JournalSurvivesIff(start, node, cfg, only, n, world);
    if CertifiesAfterPush(start, node, cfg, only, n, world) {
      var k: nat :| LateCertificate(start, node, cfg, only, n, world, k);
      OthersSkipped(start, node, cfg, only, k, k, world);
      StatesDisjoint(start, node);
    }
  }

  lemma {:induction false} OthersSkipped(start: Progress, node: NodeId, cfg: ConfigFile, only: string, k: nat, n: nat,
                                         world: World)
    requires n <= k < |start.pushes| && UniqueIds(start.pushes) && only != "" && start.pushes[k].proposalId == only
    ensures Process(start, node, cfg, only, n, world) == start
  {
    hide Handle;
    if n > 0 {
      OthersSkipped(start, node, cfg, only, k, n - 1, world);
    }
  }

  // --------------------------------------------------------- an input that breaks the file

  /** The node is the whole membership and has voted yes on an open, uncertified proposal. */
  ghost predicate ReadyAlone(log: Ops, node: NodeId, cfg: ConfigFile, pid: string) {
    && ReadConfig(cfg) == Ok(Config(0.5, [node]))
    && (exists o :: o in log && IsProposal(o, pid))
    && (forall o :: o in log && IsProposal(o, pid) ==> o.payload.proposal.expiresAt.None?)
    && Votes(log, pid, node, "yes")
    && !exists o :: o in log && IsCertified(o, pid)
  }

  lemma ReadyAloneIsCertified(log: Ops, node: NodeId, cfg: ConfigFile, pid: string, now: int)
    requires WellFormed(log) && pid != "" && TrimSpace(pid) == pid && ReadyAlone(log, node, cfg, pid)
    ensures StatusOf(log, node, cfg, pid, now).Ok?
    ensures var s := StatusOf(log, node, cfg, pid, now).value;
      !s.expired && !s.certified && s.certifiedOpId.None? && s.hasQuorum
  {
    hide StatusOf, WellFormed, TrimSpace, Votes, ShowsCertificate, IsCertified, IsProposal;
    StatusOutcome(log, node, cfg, pid, now);
    StatusSpec(log, node, cfg, pid, now);
    var s := StatusOf(log, node, cfg, pid, now).value;
    StatusMembers(log, node, cfg, pid, now);
    assert node in s.yesVoters && |s.yesVoters| >= 1;
  }

  lemma ReadyAloneCertifies(st: Progress, node: NodeId, cfg: ConfigFile, push: PendingPush, i: nat, world: World)
    requires WellFormed(st.log) && Clean(push) && ReadyAlone(st.log, node, cfg, push.proposalId)
      && !Exhausted(st.log, node)
    ensures Certifies(st, node, cfg, push, i, world)
    ensures var cert := IssuedOp(st.log, st.log, node, cfg, Certify(push.proposalId, false), world.certifyAt(i)).value;
      OutcomeOf(st.log, cert) == Added && IsCertified(cert, push.proposalId)
  {
    hide WellFormed, TrimSpace, StatusOf, ReadyAlone, LocalOp, OutcomeOf, Exhausted;
    ReadyAloneIsCertified(st.log, node, cfg, push.proposalId, world.statusAt(i));
    ReadyAloneIsCertified(st.log, node, cfg, push.proposalId, world.certifyAt(i));
    CertType();
    var payload := Issue(st.log, node, cfg, Certify(push.proposalId, false), world.certifyAt(i)).value;
    AppendsIffNotExhausted(st.log, node, world.certifyAt(i), payload);
    UnforcedCertCertifies(st.log, node, cfg, push.proposalId, world.certifyAt(i));
  }

  lemma StillReady(log: Ops, cert: Operation, node: NodeId, cfg: ConfigFile, pid: string, other: string)
    requires ReadyAlone(log, node, cfg, pid) && IsCertified(cert, other) && other != pid
    ensures ReadyAlone(log + [cert], node, cfg, pid)
  {
    assert !IsProposal(cert, pid) && !IsCertified(cert, pid) && !IsVote(cert, pid);
    hide Votes, IsProposal, IsCertified, IsVote, ReadConfig;
    VoteKept(log, cert, pid, node, "yes");
    var o :| o in log && IsProposal(o, pid);
    assert (log + [cert])[|log|] == cert && o in log + [cert];
    forall r | r in log + [cert] && IsProposal(r, pid) ensures r in log {
    }
    forall r | r in log + [cert] ensures !IsCertified(r, pid) {
    }
  }

  /** Two proposals ready at once: executing both pushes in one call leaves a log file that no
      longer loads. */
  lemma TwoReadyPushesBreakTheFile(start: Progress, node: NodeId, cfg: ConfigFile, world: World)
    requires Fresh(start) && |start.pushes| == 2 && Clean(start.pushes[0]) && Clean(start.pushes[1])
    requires start.pushes[0].status != COMPLETED && start.pushes[1].status != COMPLETED
    requires start.pushes[0].proposalId != start.pushes[1].proposalId
    requires ReadyAlone(start.log, node, cfg, start.pushes[0].proposalId)
      && ReadyAlone(start.log, node, cfg, start.pushes[1].proposalId)
    requires TrimSpace(node) != "" && Extent(start.log, node) < 0xFFFF_FFFF_FFFF_FFFE && world.git(0).None?
    ensures Journal.Load(Process(start, node, cfg, "", 2, world).journal).Err?
  {
    hide WellFormed, TrimSpace, ReadyAlone, IssuedOp, Extent, OutcomeOf, Certifies, EventRecorded, Handle,
         Journal.Load, IsCertified;
    var first, second := start.pushes[0], start.pushes[1];
    var st := Process(start, node, cfg, "", 1, world);
    assert Process(start, node, cfg, "", 0, world) == start;
    ReadyAloneCertifies(start, node, cfg, first, 0, world);
    HandleCases(start, node, cfg, first, 0, world);
    var cert := IssuedOp(start.log, start.log, node, cfg, Certify(first.proposalId, false), world.certifyAt(0)).value;
    assert st.log == start.log + [cert] && st.counts.executed == 1;
    AddOutcome(start.log, cert);
    ExtentAppend(start.log, cert, node);
    CertSeqNo(start.log, node, cfg, first.proposalId, world.certifyAt(0));
    StillReady(start.log, cert, node, cfg, second.proposalId, first.proposalId);
    ReadyAloneCertifies(st, node, cfg, second, 1, world);
    JournalSurvivesIff(start, node, cfg, "", 2, world);
    assert LateCertificate(start, node, cfg, "", 2, world, 1);
  }

  lemma CertSeqNo(log: Ops, node: NodeId, cfg: ConfigFile, pid: string, now: int)
    requires IssuedOp(log, log, node, cfg, Certify(pid, false), now).Ok?
    ensures var cert := IssuedOp(log, log, node, cfg, Certify(pid, false), now).value;
      cert.author == node && cert.seqNo == NextSeq(Extent(log, node))
  {
    hide StatusOf, OutcomeOf, Extent, TrimSpace;
  }

  /** Such an input: node "n" alone has proposed "p" and "q" and voted yes on both. */
  function ProposalOf(pid: string): Payload {
    Proposal(ProposalPayload(pid, "refs/heads/main", "", "a1", 0, None))
  }

  function YesOn(pid: string): Payload {
    Vote(VotePayload(pid, 0, "yes"))
  }

  function ExampleLog(): Ops {
    [Sign("n", 1, 0, ProposalOf("p")), Sign("n", 2, 0, YesOn("p")), Sign("n", 3, 0, ProposalOf("q")), Sign("n", 4, 0, YesOn("q"))]
  }

  function AloneFile(): ConfigFile {
    Saved(Config(0.5, ["n"]))
  }

  function ExamplePush(pid: string): PendingPush {
    PendingPush(pid, "origin", "main", "refs/heads/main", "a1", ["origin", "main"], PENDING, 0, "", "", "", "", "")
  }

  lemma ExampleOk()
    ensures WellFormed(ExampleLog()) && Extent(ExampleLog(), "n") <= 4
  {
    hide TrimSpace;
    TrimmedExamples();
    forall o | o in ExampleLog() ensures Valid(o) {
      ValidIffSigned(o);
    }
    ExtentIsMax(ExampleLog(), "n");
  }

  lemma TrimmedExamples()
    ensures TrimSpace("n") == "n" && TrimSpace("p") == "p" && TrimSpace("q") == "q"
    ensures TrimSpace("consensus.proposal") != "" && TrimSpace("consensus.vote") != ""
  {
    hide TrimSpace;
    Untrimmed("n");
    Untrimmed("p");
    Untrimmed("q");
    Untrimmed("consensus.proposal");
    Untrimmed("consensus.vote");
  }

  lemma ExampleReady(pid: string)
    requires pid == "p" || pid == "q"
    ensures ReadyAlone(ExampleLog(), "n", AloneFile(), pid)
  {
    hide TrimSpace, Votes, ReadConfig, ExampleLog, IsProposal, IsCertified;
    ExampleConfig();
    ExampleVotes(pid);
    ExampleProposals(pid);
  }

  lemma ExampleProposals(pid: string)
    requires pid == "p" || pid == "q"
    ensures exists o :: o in ExampleLog() && IsProposal(o, pid)
    ensures forall o :: o in ExampleLog() && IsProposal(o, pid) ==> o.payload.proposal.expiresAt.None?
    ensures !exists o :: o in ExampleLog() && IsCertified(o, pid)
  {
    var log := ExampleLog();
    assert log[0] in log && log[2] in log;
  }

  lemma ExampleConfig()
    ensures ReadConfig(AloneFile()) == Ok(Config(0.5, ["n"]))
  {
    hide TrimSpace, Quorum.Normalize;
    TrimmedExamples();
    NormalizedIsFixed(Config(0.5, ["n"]));
  }

  lemma ExampleVotes(pid: string)
    requires pid == "p" || pid == "q"
    ensures Votes(ExampleLog(), pid, "n", "yes")
  {
    var log := ExampleLog();
    var vote := if pid == "p" then log[1] else log[3];
    assert vote in log;
    assert forall o :: o in log && IsVote(o, pid) ==> o == vote;
  }

  lemma ExampleClean(pid: string)
    requires pid == "p" || pid == "q"
    ensures Clean(ExamplePush(pid))
  {
    hide TrimSpace;
    TrimmedExamples();
    Untrimmed("origin");
    Untrimmed("main");
    Untrimmed("refs/heads/main");
    Untrimmed("a1");
    Untrimmed("");
  }

  /** A file that loads before a call and does not load after it. */
  lemma BreakableFile(world: World)
    requires world.git(0).None?
    ensures var start := Begin(ExampleLog(), Entries(ExampleLog()), [ExamplePush("p"), ExamplePush("q")]);
      && Journal.Load(start.journal) == Ok(start.log)
      && Journal.Load(Process(start, "n", AloneFile(), "", 2, world).journal).Err?
  {
    hide WellFormed, TrimSpace, ReadyAlone, Extent, Process, Journal.Load, Clean, ExampleLog;
    var start := Begin(ExampleLog(), Entries(ExampleLog()), [ExamplePush("p"), ExamplePush("q")]);
    ExampleOk();
    ExampleReady("p");
    ExampleReady("q");
    ExampleClean("p");
    ExampleClean("q");
    TrimmedExamples();
    ReplayWritten(ExampleLog());
    TwoReadyPushesBreakTheFile(start, "n", AloneFile(), world);
  }
}
