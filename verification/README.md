# Gossip replication, consensus and conflict editing: a verified model

A Dafny model of a Git companion in which nodes keep a replicated, signed operation log,
synchronise it with anti-entropy, vote on and certify ref updates, and run a queued
`git push` only once its proposal is certified; and of the merge-conflict editor in its
desktop GUI. `dafny verify dfyconfig.toml` checks everything.

## How it is organised

What a store holds is the sequence of operations in the order they were added (`Log.dfy`);
every answer of a store is a function of it, and the results are proved about those
functions. The code that changes state step by step is a class or a method with loops,
proved equal to them:

| part | results | the code, proved against them |
|---|---|---|
| log, indexes, log file | Log, Journal | Store |
| delta exchange and sessions | Delta, Session, Calls, Convergence, Merge | Peers |
| any number of stores, messages and crashes | Replica, Network, Gossip | Store and Peers, whose sessions are runs of it (SessionRuns) |
| votes, quorum, certificates | Quorum, Consensus, Ballot, Expiry, Certification, Observed | Voting |
| the GUI's own tally | Views, Observed, Disagreement | Views |
| pending pushes and their executor | Pending, Executor, Recorder, Repository | PushQueue, PushExecutor |
| conflict files | Lines, Conflict | ConflictEditor |

`Network.dfy` is a transition system: messages are never removed once sent, so loss, delay,
duplication and reordering are all runs of it; batches are added one operation at a time with
any other step in between; summaries may be stale; a node may crash and reload its file.
A session between two nodes, as `Peers` runs it, is a run of this system (`SessionRuns.dfy`).
`Repository.dfy` does the same for the histories of one repository's push queue.

## What the proofs say about the code

Where the code does not do what its documentation suggests, the exact condition is proved:

- Nothing checks on receipt that an author's sequences are contiguous, and a hole would never
  be filled (`Convergence.HiddenGapNeverHeals`). No run of the protocol makes one
  (`Network.Contiguity`).
- `sync.go` pushes one round late, so closing a gap towards the server takes one round more
  than its size suggests (`Convergence.ConvergenceBound`).
- Auto-discovered membership uses the proposal's ref and new OID as placeholder keys and
  deletes them: a node whose ID equals either is no member until it has authored an operation,
  while the GUI counts it (`Views.MembershipsAgreeIff`, `Disagreement.MembershipsDiffer`).
- The GUI keeps only the last certificate in file order: a later uncertified one hides a
  certified one from it, but not from the status command (`Views.ViewCertificationAgreesIff`).
  A node that certifies by force before it hears of a vote is enough
  (`Disagreement.CertificationsDiffer`).
- The executor keeps using its own store while the event recorder appends to the same file
  through another. Certifying a second proposal in the same call reuses a sequence number,
  and the file no longer loads (`Recorder.JournalSurvivesIffBefore`, `Recorder.BreakableFile`).
- `UpsertPendingPush` is exported and resets the record of a completed proposal that is queued
  again, and its push can then succeed twice (`Repository.PushedAgainIff`,
  `Repository.PushedTwiceExample`). The program itself always queues under an ID it has just
  generated, and so never does (`Repository.ProgramPushSafety`).

## Model

| member | source | states |
|---|---|---|
| Operations.AuthorSeqKeyInjective | gossip/store.go:487-489 | the text key determines author and sequence, even for authors that contain colons or digits |
| Log.AddOutcome | gossip/store.go:491-519 | against a well-formed log: `Duplicate` iff the operation is held, `Added` iff it is valid and its author and sequence are free; the log stays well formed either way |
| Log.LocalOpSpec | gossip/store.go:176-216 | a local append succeeds iff the author's extent is below 2^64-1 (sequence numbers wrap to 0, which never verifies) and then signs exactly extent + 1 |
| Log.LocalOpMeans | gossip/store.go:176-216 | the operation a local append adds, field by field, and which refusal applies when it adds none |
| Log.SortedStrictly | gossip/store.go:267-284 | the sorted operations are strictly increasing by author and sequence and are exactly the ones held |
| Log.MissingIsDifference | gossip/store.go:237-264 | an unlimited answer is, once each and in order, what the log holds above the given summary |
| Log.ExtentIsMax | gossip/store.go:508-510 | the summary entry of an author is the greatest sequence held, 0 when none is |
| Store.Store.constructor | gossip/store.go:703-710 | a new store is empty with agreeing indexes, over whatever log file is there |
| Store.Store.AddOperation | gossip/store.go:491-519 | with the three indexes in place of searches it decides and does what the log functions say; only an added operation is written to the file; the indexes stay exact |
| Store.Store.AddRemoteOp | gossip/store.go:219-223 | the same with persistence; a file that replays to the store still does afterwards |
| Store.Store.AppendLocalOp | gossip/store.go:176-216 | appends and writes exactly the operation `LocalOp` names, or reports why not and changes nothing |
| Store.Store.Summary | gossip/store.go:226-234 | the loop's copy is the greatest sequence per author over the operations held |
| Store.Store.MissingFor | gossip/store.go:237-264 | the loop with its early exit returns the first `limit` operations of the sorted difference |
| Store.Store.Operations | gossip/store.go:267-284 | all operations in author and sequence order, or the last `limit` of them |
| Store.Store.LoadOps | gossip/store.go:703-736 | replaying a file rebuilds the operations and all three indexes, or reports the line and reason at which replay fails; a file that loads never hits the conflict error |
| Store.KeyTaken | gossip/store.go:499-502 | a lookup in the text-keyed index answers exactly whether some operation held has that author and sequence |
| Store.SummaryAdded | gossip/store.go:508-510 | raising one entry keeps the summary the per-author maximum after any append |
| Journal.LoadExact | gossip/store.go:703-736 | a file loads iff no line is torn and the distinct operations on it form a well-formed log, and it loads to exactly those: repeated and blank lines change nothing |
| Journal.LoadFailure | gossip/store.go:703-736 | a file that does not load fails at its first bad line, with that number: torn, or an operation that a store holding what the lines before it say refuses, with that outcome |
| Journal.ReplayWritten | gossip/store.go:521-537 | crash recovery: the lines a store has written replay to the log it held |
| Delta.MissingAfterBatch | gossip/store.go:237-264 | applying any prefix of a delta adds all of it and leaves exactly the rest missing, whatever holes the receiver has |
| Delta.GapIgnoresShared | gossip/store.go:255-262 | operations the other side holds never enter the difference |
| Session.RoundMoves | gossip/sync.go:75-109 | one delivered round moves exactly one push batch and one pull batch, with exact counts, and stops iff nothing was left to pull before it and nothing is left to push after it |
| Session.SessionProgress | gossip/sync.go:75-109 | after any number of passes: the exact logs, staged batch, counts and status of a fault-free session; it never stops early or late |
| Calls.PassMeans | gossip/sync.go:75-109 | one pass under any delivery: a lost call fails the session, leaves the client alone and the server changed only if the request got through; a delivered one adds each store's growth and the refusals to the counts and settles iff the client learned nothing and lacks nothing to push |
| Calls.StatusMeans | gossip/sync.go:75-111 | whatever the transport does, a session fails iff some call it gets to is not delivered, and settles iff every call up to one was delivered and that one moved nothing |
| Calls.LostFails | gossip/sync.go:81-86 | what a failed session leaves: the logs as of the last delivered call (and the lost push on the server, if it got through), a round for each delivered call, and the lost push counted as sent |
| Calls.SyncFailsIff | gossip/sync.go:83-86 | `SyncPeer` returns an error iff a call it makes is lost |
| Calls.UnreachablePeer | gossip/sync.go:83-86 | a peer that is down is an error, with both logs as they were and all counts 0 |
| Calls.BoundInNumbers | gossip/sync.go:63-68 | the bound on rounds in the caller's own limit and round count, with the defaults 256 and 6 and the clamp at 2048 as numbers |
| Convergence.ConvergenceBound | gossip/sync.go:51-112 | both differences are closed iff `rounds * pull` covers what the client lacked and `(rounds - 1) * push` what the server lacked (push lags a round; pull is clamped to 2048); the counts are exactly the operations moved; stopping early implies closed |
| Convergence.RoundDecreases | gossip/sync.go:105-108 | every round that does not stop strictly decreases the operations still missing or, at equality, goes from nothing staged to something staged |
| Convergence.HiddenGapNeverHeals | gossip/store.go:256-257 | an operation below a store's extent that it does not hold never reaches it, on the client or the server side, whatever the transport does and with any number of rounds |
| Convergence.SettledIffNoHiddenGap | gossip/sync.go:106-108 | a session that stopped by itself leaves equal stores iff neither started with a hidden gap towards the other |
| Convergence.AgreeingStoresConverge | gossip/sync.go:51-112 | stores with prefixes of common histories end equal iff the rounds suffice |
| Convergence.ReachableStoresConverge | gossip/sync.go:51-112 | in every state of every run, a fault-free session between any two stores makes them equal iff it has enough rounds |
| Peers.AddBatch | gossip/daemon.go:194-205 | the batch loop adds what can be added and counts exactly the added and the refused |
| Peers.HandleSync | gossip/daemon.go:182-214 | the handler, with its limit defaults and the 2048 clamp, is the server half of a round |
| Peers.CallSync | gossip/sync.go:114-158 | a lost request leaves the server alone; a lost response leaves it changed and the client uninformed |
| Peers.SyncRound | gossip/sync.go:75-109 | the loop body over two stores is one round of the session function, under any delivery |
| Peers.SyncPeer | gossip/sync.go:51-112 | the whole loop over two stores equals the session the convergence results are about, failures included |
| Merge.ArrivalOrderIrrelevant | gossip/store.go:491-519 | any order and repetition of a conflict-free set of operations gives equal `Ops`, `Summary`, `MissingFor` and `ProposalStatus` |
| Merge.DeltaLinked | gossip/store.go:237-264 | every operation of an answer, limited or not, is at most one past what the receiver then holds of its author |
| Merge.DeltaRefinesMerge | gossip/store.go:237-264 | for agreeing stores, adding a delta equals merging the sender's whole log; a limited delta is its first operations; the receiver is left without a hole |
| Merge.CertificationIsStable | gossip/consensus.go:409-443 | certified at one store means certified at every store that holds at least its operations, whatever votes, clock or readable configuration |
| Network.StepKeepsInv | gossip/sync.go:75-109 | no step of any number of stores with lost, delayed, duplicated and reordered messages, stale summaries, interleaved appends and crashes breaks the invariant or shrinks a log |
| Network.Contiguity | gossip/store.go:491-519 | in every run, at every store, each author's operations are exactly 1..extent, inserted in that order, although nothing checks it on receipt |
| Network.PrefixAgreement | gossip/store.go:499-502 | in every run, what a store holds of an author is a prefix of the author's own log, and no two stores disagree on an author and sequence |
| Network.NothingRefused | gossip/sync.go:93-98 | in every run, the next operation of every delivered batch is added or already held, never invalid or in conflict, and a crashed store reopens with its log |
| SessionRuns.RoundIsRun | gossip/sync.go:75-109 | each pass of the client loop, under every outcome of the call, is an explicit run of the network: summary, request, the server's additions, its reply, the client's additions, the next push staged; in a reachable system neither side refuses anything |
| SessionRuns.SyncIsRun | gossip/sync.go:51-112 | so a whole `SyncPeer` between two nodes, with losses or without, is a run of the network that changes those two logs as the session says; in a reachable system its rejected and dropped counts are 0 |
| Gossip.SpreadsExactly | gossip/sync.go:51-112 | after any schedule of long enough sessions among any number of reachable stores, a store holds exactly what the nodes it has heard of held at the start |
| Gossip.EveryoneConverges | gossip/sync.go:51-112 | with as many passes over the links as any two nodes are hops apart, in any order, all stores end with the union |
| Quorum.ConfigRoundTrip | gossip/consensus.go:116-140 | a configuration is accepted iff its threshold is in [0, 1); what is saved reads back unchanged; members are the distinct non-blank trimmed names, sorted |
| Consensus.ConfigRead | gossip/consensus.go:146-167 | a missing file is a threshold of a half over everyone known; an unreadable file or one out of range is an error; any other gives its threshold and its distinct trimmed members |
| Quorum.StrictThreshold | gossip/consensus.go:481-493 | reaching the required count is exactly a yes ratio strictly above the threshold, as README.md promises; the clamps never bind |
| Quorum.RequiredAboveHalf | gossip/consensus.go:481-493 | a threshold of at least a half asks for more than half the members |
| Quorum.QuorumsMeetIff | gossip/consensus.go:399-400 | every two quorums over one membership share a member iff the required count is above half; a threshold of a half or more suffices |
| Consensus.MembersSpec | gossip/consensus.go:338-359 | the members are the configured list, or every author plus the node itself unless its ID equals the proposal's ref or new OID; sorted, without repeats, never empty |
| Consensus.VotersSpec | gossip/consensus.go:365-395 | a member is counted yes (no) iff its highest-sequence readable vote on the proposal is yes (no) |
| Consensus.StatusSpec | gossip/consensus.go:302-445 | voter lists are sorted, disjoint and exactly the members whose latest vote says so; counts fit the membership; a quorum is a yes ratio above the threshold; certified iff a certified certificate is held, whoever issued it |
| Consensus.StatusOutcome | gossip/consensus.go:302-336 | when a status is reported, which error otherwise, that it is about the proposal least in author and sequence order, shows the greatest certificate, and when it is expired |
| Consensus.StatusMembersMean | gossip/consensus.go:338-359 | the members a reported status names, in terms of the log and the configuration |
| Consensus.StatusNamesCertificate | gossip/consensus.go:409-427 | the certificate a status names is the greatest certified one in author and sequence order, and none iff there is none |
| Consensus.VoteMeans | gossip/consensus.go:225-257 | a vote goes on record exactly as asked for: the trimmed ID, the decision in lower case, the proposal's epoch, at the node's next sequence; or which refusal applies |
| Consensus.CertificateMeans | gossip/consensus.go:260-299 | a certificate copies the status field by field; already certified refuses it even by force, expired and short of quorum without force, in that order |
| Consensus.ProposalMeans | gossip/consensus.go:182-222 | a proposal goes on record field by field, trimmed, its expiry the clock plus a positive TTL and otherwise absent; a missing ref or new OID refuses it |
| Voting.Members | gossip/consensus.go:338-359 | the placeholder map, its deletions and the author loop compute that membership |
| Voting.CountVotes | gossip/consensus.go:360-397 | the vote loops compute the sorted lists of members by latest vote |
| Voting.FindCertificates | gossip/consensus.go:409-427 | one loop finds both the last certificate and the last certified one |
| Voting.ProposalStatus | gossip/consensus.go:302-445 | the scan, tally and certificate loops over a store compute the status function the results are about |
| Voting.SaveConsensusConfig | gossip/consensus.go:170-179 | an invalid configuration is refused and the file left alone; a valid one is written normalized |
| Voting.ProposeRefUpdate | gossip/consensus.go:182-222 | appends the trimmed proposal, under a fresh ID when none is given, or changes nothing |
| Voting.CastVote | gossip/consensus.go:225-257 | appends a vote only for a known, unexpired proposal and only yes or no, or changes nothing |
| Voting.CertifyProposal | gossip/consensus.go:260-299 | appends a snapshot of the tally unless already certified, or, without force, expired or short of quorum |
| Ballot.RevoteMovesOneVoter | gossip/consensus.go:365-397 | a later vote of a member moves exactly that member to the side it names; members, required count and certification stay |
| Ballot.QuorumLost | gossip/consensus.go:399-443 | a bare quorum is lost when one of its voters votes no, and a certificate already issued still stands |
| Ballot.CastVoteCounts | gossip/consensus.go:225-257 | after a vote is appended the node's latest vote is the one asked for and not the other; if the node is a member of the next status, at any reader and time, it is listed on that side and not on the other |
| Ballot.VoterIsMember | gossip/consensus.go:338-359 | who has voted is a member unless the members are listed without it |
| Expiry.ExpiresAfterTtl | gossip/consensus.go:402-407 | a proposal made at clock c is expired, for the status at any node and for the GUI, iff it has a positive TTL and the clock reads more than c + TTL |
| Expiry.ExpiryIsFinal | gossip/consensus.go:402-407 | expired once is expired at every later time, at every store and under every readable configuration |
| Expiry.VotingEnds | gossip/consensus.go:225-238 | a vote on such a proposal is accepted up to c + TTL and refused as expired after it, for every node |
| Expiry.PushingEnds | main.go:677-686 | after c + TTL its queued push fails and `git push` is not run, certified or not |
| Certification.RunIssued | gossip/consensus.go:260-299 | in every run every operation of every store is what one of its own methods decided on an earlier state of that store |
| Certification.CertificatesJustified | gossip/consensus.go:280-289 | in every run every certificate held anywhere was true of its issuer's log when it read the status, under the configuration it then read, even with force: it is about the proposal the ID names, its voters are all the members of that proposal whose latest vote is yes, and no, its counts and threshold are theirs, and it is certified iff the yes ratio is above the threshold |
| Certification.CertifiedQuorumsMeet | gossip/consensus.go:399-400 | two justified certified certificates under one explicit member list and thresholds of at least a half share a yes voter, across stores, issuers and times |
| Certification.HeldForever | gossip/store.go:504-507 | in every run an operation once held is held for the rest of it, crashes included |
| Certification.CompetingCertificatesShareAVoter | gossip/consensus.go:260-299 | under one explicit member list and thresholds of at least a half, if two proposals are certified anywhere at any times of a run, some member has voted yes on both |
| Certification.AtMostOneCertified | gossip/consensus.go:260-299 | so if no member ever votes yes on both, at most one is ever certified anywhere |
| Observed.CertifiedForever | gossip/consensus.go:409-443 | in every run, once a store reports a proposal certified it always does, and so does every store that receives what it held |
| Views.ComputeProposalViews | gui/src/main.rs:3085-3198 | the single pass over the file with its three maps computes, per proposal ID, the view function below |
| Views.CollectAuthors | gui/src/main.rs:3136-3144 | the loop collects the non-blank authors and the node itself |
| Views.CountDecisions | gui/src/main.rs:3159-3170 | the counting loop counts exactly the members whose remembered decision is yes, and no |
| Views.TallyView | gui/src/main.rs:3147-3193 | one proposal's view from what the pass remembers, with its own membership and required count |
| Views.GaplessAscending | gossip/store.go:504-505 | a log without holes lists each author's operations in ascending order in the file |
| Views.PassFindsLatestVote | gui/src/main.rs:3113-3123 | on such a file the last decision the pass remembers of an author is its highest-sequence vote |
| Views.PassFindsLastProposal | gui/src/main.rs:3090-3112 | the proposals shown are those with a non-blank ID, each the last in the file under its ID |
| Views.ViewCountsLastDecisions | gui/src/main.rs:3113-3170 | on any file: the yes count is how many members' last vote on the proposal in the file reads yes in any case, and likewise no; the status ignores decisions in capitals, which no store writes but `vcs op append` can |
| Views.ViewQuorumMeans | gui/src/main.rs:3147-3193 | the GUI's quorum for any configuration on file, normalized or not: repeated members count, a zero threshold is a half, one or more asks for all, a negative one for a single vote, and otherwise strictly more than the share |
| Views.ViewShowsLastCertificate | gui/src/main.rs:3124-3130 | the GUI's certified flag is what the last certificate in the file says, and never claims more than the log holds |
| Views.MembershipsAgreeIff | gui/src/main.rs:3148-3153 | the two memberships are equal iff the placeholder deletion does not drop the node itself |
| Disagreement.MembershipsDiffer | gossip/consensus.go:340-347 | a written-out log on which they differ: a proposal for a ref named like a node that has authored nothing |
| Views.ViewRefinesStatus | gui/src/main.rs:3147-3192 | on any log one store writes, the file-order pass gives the same counts, members, required votes, quorum and expiry as the status on the sorted log |
| Views.ViewCertificationAgreesIff | gui/src/main.rs:3124-3130 | the certified flags agree iff the log holds no certified certificate for the proposal or the last one in the file is certified; in particular when none is uncertified |
| Disagreement.CertificationsDiffer | gossip/consensus.go:260-299 | a written-out run of two nodes under one configuration after which the status says certified and the GUI does not: one certifies, and a sync then brings the certificate the other had issued by force |
| Observed.ViewsAgreeInEveryRun | gui/src/main.rs:3085-3198 | in every run, at every store and time, GUI and status command agree on the counts, members and quorum of a proposal with a unique ID, and on certification iff no certified certificate is hidden behind a later uncertified one |
| Pending.NormalizeExact | gossip/pending.go:51-83 | a record is accepted iff its trimmed ID and target are not blank and its status is blank or known; what is accepted is trimmed and accepted unchanged again |
| Pending.LoadListed | gossip/pending.go:85-113 | whatever loads is clean and in listing order (creation text, then proposal ID) |
| Pending.LoadMeans | gossip/pending.go:85-113 | what is loaded: nothing from a missing file, an error from an unreadable one or that of the first bad record, else every record, trimmed, by creation text and then ID |
| Pending.ListedReloads | gossip/pending.go:115-117 | a clean ordered list, once saved, loads back unchanged |
| Pending.MarkedListed | gossip/pending.go:170-207 | marking touches the first record of the proposal only and keeps the list clean and in order |
| Pending.MarkedMeans | gossip/pending.go:170-207 | the marked record field by field: one more attempt, the trimmed error, and a completed one without error and with its time; all others unchanged |
| Pending.UpsertedUnique | gossip/pending.go:134-168 | inserting or replacing keeps proposal IDs distinct and every other record as it was |
| Pending.StoredMeans | gossip/pending.go:134-168 | the stored record field by field: a new one goes last with its creation time set once; a replacing one takes the place and the creation time of the first and the greater number of attempts |
| PushQueue.ListPendingPushes | gossip/pending.go:85-132 | normalizes in file order, reports the first bad record, and sorts |
| PushQueue.UpsertPendingPush | gossip/pending.go:134-168 | the search loop inserts or replaces; creation time and the higher attempt count survive; errors leave the file alone |
| PushQueue.UpdatePendingPushStatus | gossip/pending.go:170-207 | the search loop marks exactly the first matching record, or reports which of three errors and leaves the file alone |
| Executor.CountsBalance | main.go:654-736 | checked = executed + pending + failed, and an error is returned iff one failed |
| Executor.FirstFailure | main.go:654-736 | the error returned is that of the least listed record that fails: a status error, expiry, a refused certificate or git's own, and there is none iff none fails |
| Executor.FirstIsKept | main.go:680-682 | no later record changes it |
| Executor.EveryWantedIsChecked | main.go:663-671 | every listed record that is selected and not completed is checked once, and no other |
| Executor.RecordSays | main.go:671-723 | what is written to the record: expiry in words, git's own message, how many of how many members have voted yes and how many must, or a time of completion and no error |
| Executor.EventMeans | main.go:1346-1363 | a push leaves one `git.push` event about its proposal at the next sequence in the file, or nothing if the file does not load or the node's sequences are used up |
| Executor.RecordTellsCounts | main.go:671-723 | handling a record marks that record alone, once more attempted, with the status under which it is counted |
| Executor.PushRunsIff | main.go:671-713 | `git push` runs, with the record's own arguments, iff the proposal is open and by then certified in the log |
| Executor.UnforcedCertCertifies | gossip/consensus.go:271-299 | a certificate issued without force certifies and is always added |
| Executor.PushesAreCertified | main.go:690-713 | every push run in a call has a certified certificate for its proposal in the store at that moment |
| Executor.ProcessKeepsOnce | main.go:668-670 | whatever happened before, after a call no proposal has been attempted again after a success, and only completed records have one |
| Executor.OnlyOpenRecordsRun | main.go:663-670 | every push run in a call is that of a listed record that was selected and not completed, with its own arguments |
| Executor.CompletedNotRun | main.go:668-670 | a completed record is not run, whether or not its success is among the known runs |
| PushExecutor.RecordGitEvent | main.go:1346-1363 | opening a second store on the file and appending through it is `EventRecorded`, failures ignored |
| PushExecutor.ProcessRecord | main.go:671-733 | the loop body over a store and its files handles one record as the function says |
| PushExecutor.ProcessPendingPushes | main.go:654-736 | the loop over the listed snapshot equals the function the executor results are about: store, log file, records, counts, first error and pushes run |
| Repository.PushSafety | main.go:654-736 | over any sequence of calls, queued pushes and appends by others that re-arms no completed record: every push ever run was certified in its log, and once a proposal's push has succeeded it is never run again |
| Repository.ProgramPushSafety | main.go:358-392 | the same without that assumption for every history in which each push is queued under an ID no other is queued under, as the program queues it right after generating the ID |
| Repository.CompletedNeverRuns | main.go:668-670 | over every history whatsoever, no call runs a record that is completed in the file it reads |
| Repository.PushedAgainIff | gossip/pending.go:147-161 | let a proposal's push have succeeded; queueing it and processing it again runs it once more iff it is not queued as completed and the proposal is open and certified or ready to be, and succeeds twice iff `git push` then succeeds too |
| Repository.PushedTwice | gossip/pending.go:147-161 | wherever a node alone has voted yes on an open, uncertified proposal, queueing and processing its push twice pushes it twice |
| Repository.PushedTwiceExample | gossip/pending.go:147-161 | such an input, written out |
| Recorder.JournalSurvivesIff | main.go:724-732 | the log file loads after a call iff no proposal is certified in it after an earlier record's push was executed: the event recorder's second store has taken the sequence number the next certificate uses |
| Recorder.JournalSurvivesIffBefore | main.go:654-736 | the same condition judged before the call: no selected record that is open, uncertified and ready to certify comes after a selected one that can be pushed and whose `git push` succeeds |
| Consensus.UnrelatedOperation | gossip/consensus.go:302-445 | an operation about something else, by a known author or under an explicit member list, leaves a status as it was |
| Recorder.CertificateCollides | main.go:702-709 | a certificate signed by a store that is behind the file makes the file unloadable |
| Recorder.TwoReadyPushesBreakTheFile | main.go:654-736 | wherever a node alone has voted yes on two open, uncertified proposals, executing both pushes in one call leaves a log file that no longer loads |
| Recorder.BreakableFile | main.go:654-736 | such an input, written out: a four-line log that loads before the call and not after it |
| Recorder.OneRecordIsSafe | main.go:664-666 | a call that selects one proposal always leaves a log file that loads |
| Lines.SplitJoin | gui/src/main.rs:2540-2543 | splitting keeps every character and gives lines that end in their only newline, except perhaps the last |
| Lines.JoinSplit | gui/src/main.rs:2540-2543 | every such list of lines is the split of its own concatenation |
| Conflict.ReadWritten | gui/src/main.rs:2552-2598 | every list of lines is written by some file of the conflict grammar, markers and all |
| Conflict.WrittenOnce | gui/src/main.rs:2552-2598 | ... and by only one: the grammar is unambiguous |
| Conflict.ParseExact | gui/src/main.rs:2539-2604 | parsing is lossless: the input is the text of exactly one file of the grammar; it parses iff that file is complete, into that file's pieces, and each error names how it ends |
| Conflict.HunkLinesWhole | gui/src/main.rs:2560-2577 | every line of a hunk ends in its newline |
| Conflict.ComposeResplits | gui/src/main.rs:2606-2636 | whatever is chosen, the composed text splits into exactly the plain lines and the chosen lines |
| Conflict.ReparsesPlainIff | gui/src/main.rs:2606-2636 | the composed text parses back without hunks iff no chosen line starts with an opening marker |
| Conflict.Projection | gui/src/main.rs:2580-2649 | one side everywhere composes the input with each conflict replaced by that side's lines, for unequal lengths too; the defaults give ours and then the tail of theirs |
| Conflict.ChosenRows | gui/src/main.rs:2606-2636 | a hunk contributes its rows in order: each the line of the side chosen for that row, ours if no choice is recorded, nothing if that side is shorter |
| Conflict.MixedChoices | gui/src/main.rs:2612-2628 | for sides and choices of one length, exactly that many lines, line r ours or theirs as choice r says |
| Conflict.RowsAreIndependent | gui/src/main.rs:2612-2628 | changing the choice of one row replaces what that row contributes and nothing before or after it, for unequal sides too |
| Conflict.ComposeMixed | gui/src/main.rs:2606-2636 | the composed text around and inside such a hunk, in terms of its lines and choices |
| Conflict.ExampleComposes | gui/src/main.rs:3993-4011 | the written-out conflict of the repository's own test, with mixed choices |
| ConflictEditor.ParseConflictSections | gui/src/main.rs:2539-2604 | the cursor loop with its text buffer computes that parse, both errors included |
| ConflictEditor.ComposeConflictEditorOutput | gui/src/main.rs:2606-2636 | the nested loops, missing choices read as ours, compose the chosen lines |
| ConflictEditor.ApplyConflictChoiceToAllHunks | gui/src/main.rs:2638-2649 | sets every choice of every hunk in place and nothing else |

## Left out

- Cryptography and encodings: a signature names its signer and what it covers, a digest determines its input, and the public key is folded into the node ID; key formats, base64, JSON and canonical bytes are not modelled.
- Timestamps and expiry times are instants; an unreadable one is an absent expiry, and an operation with an unreadable timestamp is not modelled. `Views` reads them alike on both sides.
- Failing writes: a store mutates memory before it writes, and every write here succeeds. A line longer than the scanner's buffer is not modelled.
- Quorum.StrictThreshold: does not model the rounding of `float64` products, because the threshold is an exact real.
- `strings.TrimSpace` covers the Latin-1 white space characters and `strings.ToLower` the ASCII letters.
- Strings are compared by character; Go compares bytes, which agrees for UTF-8 text without surrogates.
- Store.Store.LoadOps: does not say which operations are held after a failure, because the source discards the store then.
- Views.ComputeProposalViews: does not model the order of the views by creation text.
- Concurrency of two processes on one log or pending file, beyond the event recorder's second store: in `Network` one store writes each log, and in `Repository` other processes append between commands.
- In `Network` git events go through the node's own store, and consensus operations come from `ProposeRefUpdate`, `CastVote` and `CertifyProposal` only; `vcs op append` can bypass them.
- The configuration and pending files do not change during one method call; a run may use a different configuration at every step.
- Executor.Message: the texts of the status and certification errors stored in a record are stand-ins; the expiry, waiting and push texts are the source's.
- Repository.ProgramPushSafety: takes generated proposal IDs to differ from each other.
- Repository.PushSafety: assumes `Mark*` calls succeed, whose errors the source discards.
- The payload of the recorded push event is its proposal ID only.
- Default GUI data loading, drawing and argument building; git wrapper commands and push-argument parsing; peers, identity loading, HTTP, tickers, signals and locks (each locked method is one step).
- `ProposalSummaries` and other listings, which would only add easy members.
