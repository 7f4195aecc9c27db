/** What users of a running system observe: certification never goes away, and the GUI and the
    status command agree on every store's log. */
module Observed {
  import opened Certification
  import opened Consensus
  import opened Log
  import Merge
  import opened Network
  import opened Operations
  import opened Replica
  import opened Strings
  import Views
  import opened Wrappers

  /** Once a store has reported a proposal certified, then for the rest of the run that store
      reports it certified, and so does every store that has received what it then held:
      whatever the clock, the votes and the readable configuration are. */
  lemma CertifiedForever(nodes: set<NodeId>, steps: seq<Step>, i: nat, n: NodeId, file: ConfigFile, pid: string,
                         now: int,
                         m: NodeId, other: ConfigFile, later: int)
    requires (forall x :: x in nodes ==> TrimSpace(x) != "") && i <= |steps| && n in nodes && m in nodes
    requires n in After(Init(nodes), steps[..i]).logs
    requires StatusOf(After(Init(nodes), steps[..i]).logs[n], n, file, pid, now).Ok?
    requires StatusOf(After(Init(nodes), steps[..i]).logs[n], n, file, pid, now).value.certified
    requires ReadConfig(other).Ok?
    ensures var logs := After(Init(nodes), steps).logs;
      && n in logs && m in logs
      && (m == n || (forall o :: o in After(Init(nodes), steps[..i]).logs[n] ==> o in logs[m]) ==>
            StatusOf(logs[m], m, other, pid, later).Ok? && StatusOf(logs[m], m, other, pid, later).value.certified)
  {
    hide After, StatusOf, Core, WellFormed;
    InitInv(nodes);
    RunKeepsInv(Init(nodes), steps[..i]);
    RunKeepsInv(Init(nodes), steps);
    var early, logs := After(Init(nodes), steps[..i]).logs, After(Init(nodes), steps).logs;
    CoreGapless(early, n);
    CoreGapless(logs, m);
    forall o | o in early[n] ensures o in logs[n] {
      HeldForever(nodes, steps, i, n, o);
    }
    if m == n || forall o :: o in early[n] ==> o in logs[m] {
      Merge.CertificationIsStable(early[n], logs[m], n, m, file, other, pid, now, later);
    }
  }

  lemma CastVotesReadable(view: Ops, log: Ops, n: NodeId, file: ConfigFile, action: Action, now: int, op: Operation)
    requires IssuedOp(view, log, n, file, action, now) == Ok(op) && op.payload.Vote?
    ensures op.payload.vote.decision == "yes" || op.payload.vote.decision == "no"
  {
    hide StatusOf, TrimSpace, ToLower, OutcomeOf, Extent;
  }

  lemma HeldVotesReadable(logs: Logs, n: NodeId, o: Operation)
    requires Core(logs) && AllIssued(AnyConfig, logs) && n in logs && o in logs[n] && o.payload.Vote?
    ensures o.payload.vote.decision == "yes" || o.payload.vote.decision == "no"
  {
    hide Core, IssuedOp, Allows;
    HeldIsGenuine(logs, n, o);
    var own := logs[o.author];
    var i :| 0 <= i < |own| && own[i] == o;
    assert Issued(AnyConfig, own, o.author, i);
    var seen: nat, file, action, now :| seen <= i && Allows(AnyConfig, file)
      && IssuedOp(own[..seen], own[..i], o.author, file, action, now) == Ok(o);
    CastVotesReadable(own[..seen], own[..i], o.author, file, action, now, o);
  }

  /** In every run, at every store and at any time, the GUI's pass over the file and the status
      command agree on a proposal with a unique ID: same counts, members, required votes and
      quorum; and on certification exactly when no certified certificate is hidden behind a
      later uncertified one. */
  lemma ViewsAgreeInEveryRun(nodes: set<NodeId>, steps: seq<Step>, n: NodeId, file: ConfigFile, pid: string, now: int,
                             op: Operation)
    requires (forall x :: x in nodes ==> TrimSpace(x) != "") && n in nodes && Views.SavedByStore(file)
    requires pid != "" && TrimSpace(pid) == pid && n in After(Init(nodes), steps).logs
    requires var log := After(Init(nodes), steps).logs[n];
      && op in log && IsProposal(op, pid) && (forall p :: p in log && IsProposal(p, pid) ==> p == op)
      && (Views.ConfigIn(file).members != [] || n in Authors(log)
          || (n != op.payload.proposal.ref && n != op.payload.proposal.newOid))
    ensures var log := After(Init(nodes), steps).logs[n];
      var r, data := StatusOf(log, n, file, pid, now), Views.ReadGossip(n, log, Views.ConfigIn(file));
      && r.Ok? && Views.CountsAgree(data, Views.ViewOf(data, op, now), r.value)
      && (Views.ViewOf(data, op, now).certified == r.value.certified
          <==> (Views.HoldsCertified(log, pid) ==> Views.FileCertified(log, pid)))
  {
    hide After, Core, StatusOf, WellFormed, TrimSpace, AllIssued, Gapless, Sound;
    hide Views.CountsAgree, Views.ViewOf, Views.ReadGossip, Views.SavedByStore, Views.Ascending,
         Views.HoldsCertified, Views.FileCertified;
    RunIssued(AnyConfig, nodes, steps) by { NoPolicy(steps); }
    var logs := After(Init(nodes), steps).logs;
    CoreGapless(logs, n);
    Views.GaplessAscending(logs[n]);
    forall o: Operation | o in logs[n] && o.payload.Vote? && o.payload.vote.proposalId == pid ensures IsVote(o, pid) {
      HeldVotesReadable(logs, n, o);
    }
    Views.ViewRefinesStatus(logs[n], n, file, pid, now, op);
    Views.ViewCertificationAgreesIff(logs[n], n, file, pid, now, op);
  }

  lemma NoPolicy(steps: seq<Step>)
    ensures Follows(AnyConfig, steps)
  {
  }
}
