/** Pending push records (gossip/pending.go) as values: normalization, the order records are
    listed in, inserting or replacing one, and marking one. */
module Pending {
  import opened Sorting
  import opened Strings
  import opened Wrappers

  const PENDING := "pending"
  const FAILED := "failed"
  const COMPLETED := "completed"

  /** Times are the text the source stores. */
  datatype PendingPush = PendingPush(
    proposalId: string, remote: string, sourceRef: string, targetRef: string, newOid: string, gitArgs: seq<string>,
    status: string, attempts: nat, lastError: string,
    createdAt: string, updatedAt: string, lastTriedAt: string, completedAt: string)

  datatype PendingError = MissingProposal | MissingTarget | BadStatus | BadFile | NotFound

  predicate KnownStatus(status: string) {
    status == PENDING || status == FAILED || status == COMPLETED
  }

  function Trimmed(push: PendingPush): PendingPush {
    push.(proposalId := TrimSpace(push.proposalId), remote := TrimSpace(push.remote),
          sourceRef := TrimSpace(push.sourceRef), targetRef := TrimSpace(push.targetRef),
          newOid := TrimSpace(push.newOid), lastError := TrimSpace(push.lastError),
          status := if push.status == "" then PENDING else push.status)
  }

  /** `normalizePendingPush` without its write stamps. */
  function Normalize(push: PendingPush): Result<PendingPush, PendingError> {
    var clean := Trimmed(push);
    if clean.proposalId == "" then Err(MissingProposal)
    else if clean.targetRef == "" then Err(MissingTarget)
    else if !KnownStatus(clean.status) then Err(BadStatus)
    else Ok(clean)
  }

  /** ... and with them. */
  function Stamp(push: PendingPush, now: string): PendingPush {
    push.(createdAt := if push.createdAt == "" then now else push.createdAt, updatedAt := now)
  }

  /** `pending_pushes.json`. */
  datatype PendingFile = NoFile | Unreadable | Pushes(pushes: seq<PendingPush>)

  function NormalizeAll(pushes: seq<PendingPush>): Result<seq<PendingPush>, PendingError> {
    if pushes == [] then Ok([])
    else
      var front := NormalizeAll(pushes[..|pushes| - 1]);
      if front.Err? then front
      else
        var last := Normalize(pushes[|pushes| - 1]);
        if last.Err? then Err(last.error) else Ok(front.value + [last.value])
  }

  /** Listing order: creation text, then proposal ID. */
  predicate ListedBefore(x: PendingPush, y: PendingPush) {
    if x.createdAt != y.createdAt then Less(x.createdAt, y.createdAt) else Less(x.proposalId, y.proposalId)
  }

  /** `loadPendingPushesLocked`. */
  function Load(file: PendingFile): Result<seq<PendingPush>, PendingError> {
    match file
    case NoFile => Ok([])
    case Unreadable => Err(BadFile)
    case Pushes(pushes) =>
      var normal := NormalizeAll(pushes);
      if normal.Err? then normal else Ok(Sort(ListedBefore, normal.value))
  }

  /** The first record for a proposal, or the length. */
  function IndexOf(pushes: seq<PendingPush>, pid: string): (i: nat)
    ensures i <= |pushes|
    ensures i < |pushes| ==> pushes[i].proposalId == pid
    ensures forall j :: 0 <= j < i ==> pushes[j].proposalId != pid
  {
    if pushes == [] then 0
    else if pushes[0].proposalId == pid then 0
    else 1 + IndexOf(pushes[1..], pid)
  }

  /** What replaces an existing record: creation time and the higher attempt count survive. */
  function Merged(push: PendingPush, existing: PendingPush): PendingPush {
    push.(createdAt := existing.createdAt, attempts := Max(push.attempts, existing.attempts))
  }

  function Upserted(pushes: seq<PendingPush>, push: PendingPush): seq<PendingPush> {
    var i := IndexOf(pushes, push.proposalId);
    if i < |pushes| then pushes[i := Merged(push, pushes[i])] else pushes + [push]
  }

  function Touched(push: PendingPush, status: string, lastError: string, now: string): PendingPush {
    push.(status := status, lastError := if status == COMPLETED then "" else TrimSpace(lastError),
          updatedAt := now, lastTriedAt := now, attempts := push.attempts + 1,
          completedAt := if status == COMPLETED then now else push.completedAt)
  }

  /** `updatePendingPushStatus`: exactly one record is touched, or nothing is. */
  function Marked(pushes: seq<PendingPush>, pid: string, status: string, lastError: string,
                  now: string): seq<PendingPush> {
    var i := IndexOf(pushes, pid);
    if i < |pushes| then pushes[i := Touched(pushes[i], status, lastError, now)] else pushes
  }

  // ------------------------------------------------------------------ record lifecycle

  ghost predicate UniqueIds(pushes: seq<PendingPush>) {
    forall i, j :: 0 <= i < j < |pushes| ==> pushes[i].proposalId != pushes[j].proposalId
  }

  predicate Clean(push: PendingPush) {
    Normalize(push) == Ok(push)
  }

  /** A list as `Load` returns it. */
  ghost predicate Listed(pushes: seq<PendingPush>) {
    && (forall p :: p in pushes ==> Clean(p))
    && Ordered(ListedBefore, pushes)
  }

  lemma ListingOrder()
    ensures TotalPreorder(ListedBefore)
  {
    LessLaws();
    forall x, y, z | ListedBefore(x, y) && ListedBefore(y, z) ensures ListedBefore(x, z) {
      if x.createdAt != y.createdAt && y.createdAt != z.createdAt {
        LessTransitive(x.createdAt, y.createdAt, z.createdAt);
        if x.createdAt == z.createdAt {
          LessIrreflexive(x.createdAt);
        }
      }
    }
    forall x, y, z | ListedBefore(x, z) ensures ListedBefore(x, y) || ListedBefore(y, z) {
      LessTotal(x.createdAt, y.createdAt);
      LessTotal(y.createdAt, z.createdAt);
      LessTotal(x.proposalId, y.proposalId);
      LessTotal(y.proposalId, z.proposalId);
    }
  }

  lemma NormalizeIsClean(push: PendingPush)
    requires Normalize(push).Ok?
    ensures Clean(Normalize(push).value)
  {
    hide TrimSpace;
    TrimIdempotent(push.proposalId);
    TrimIdempotent(push.remote);
    TrimIdempotent(push.sourceRef);
    TrimIdempotent(push.targetRef);
    TrimIdempotent(push.newOid);
    TrimIdempotent(push.lastError);
  }

  /** Which records are accepted, what an accepted one looks like, and what is wrong with any
      other: no proposal, then no target, then an unknown status. */
  lemma NormalizeExact(push: PendingPush)
    ensures Normalize(push).Ok?
      <==> TrimSpace(push.proposalId) != "" && TrimSpace(push.targetRef) != "" && (push.status == "" || KnownStatus(push.status))
    ensures Clean(push)
      <==> push == Trimmed(push) && push.proposalId != "" && push.targetRef != "" && KnownStatus(push.status)
    ensures Normalize(push).Ok? ==> Clean(Normalize(push).value)
    ensures Normalize(push).Ok? ==>
      var status := if push.status == "" then "pending" else push.status;
      Normalize(push).value
      == PendingPush(TrimSpace(push.proposalId), TrimSpace(push.remote), TrimSpace(push.sourceRef), TrimSpace(push.targetRef),
                     TrimSpace(push.newOid), push.gitArgs, status, push.attempts, TrimSpace(push.lastError), push.createdAt,
                     push.updatedAt, push.lastTriedAt, push.completedAt)
    ensures Normalize(push).Err? ==>
      Normalize(push).error == if TrimSpace(push.proposalId) == "" then MissingProposal
                               else if TrimSpace(push.targetRef) == "" then MissingTarget else BadStatus
    ensures KnownStatus(push.status) <==> push.status in {"pending", "failed", "completed"}
  {
    hide TrimSpace;
    if Normalize(push).Ok? {
      NormalizeIsClean(push);
    }
  }

  lemma {:induction false} NormalizeAllClean(pushes: seq<PendingPush>)
    requires NormalizeAll(pushes).Ok?
    ensures forall p :: p in NormalizeAll(pushes).value ==> Clean(p)
  {
    hide Normalize;
    if pushes != [] {
      NormalizeAllClean(pushes[..|pushes| - 1]);
      NormalizeIsClean(pushes[|pushes| - 1]);
    }
  }

  lemma {:induction false} CleanIsFixed(pushes: seq<PendingPush>)
    requires forall p :: p in pushes ==> Clean(p)
    ensures NormalizeAll(pushes) == Ok(pushes)
  {
    hide Normalize;
    if pushes != [] {
      CleanIsFixed(pushes[..|pushes| - 1]);
      assert Clean(pushes[|pushes| - 1]);
      assert pushes == pushes[..|pushes| - 1] + [pushes[|pushes| - 1]];
    }
  }

  /** Loading always yields a clean, ordered list, and a saved list loads back unchanged. */
  lemma LoadListed(file: PendingFile)
    requires Load(file).Ok?
    ensures Listed(Load(file).value)
  {
    hide Clean, ListedBefore;
    if file.Pushes? {
      var normal := NormalizeAll(file.pushes).value;
      NormalizeAllClean(file.pushes);
      ListingOrder();
      SortOrdered(ListedBefore, normal);
      SortElements(ListedBefore, normal);
    } else {
      assert Ordered(ListedBefore, []);
    }
  }

  lemma ListedReloads(pushes: seq<PendingPush>)
    requires Listed(pushes)
    ensures Load(Pushes(pushes)) == Ok(pushes)
  {
    hide Clean, ListedBefore;
    CleanIsFixed(pushes);
    SortFixed(ListedBefore, pushes);
  }

  lemma TouchedIsClean(push: PendingPush, status: string, lastError: string, now: string)
    requires Clean(push) && KnownStatus(status)
    ensures Clean(Touched(push, status, lastError, now))
  {
    hide TrimSpace;
    TrimIdempotent(lastError);
    Untrimmed("");
  }

  /** Marking keeps the list in listing order, changes the first record of the proposal and
      leaves every other record alone; with distinct IDs that is its only record. */
  lemma MarkedListed(pushes: seq<PendingPush>, pid: string, status: string, lastError: string, now: string)
    requires Listed(pushes) && KnownStatus(status)
    ensures var r := Marked(pushes, pid, status, lastError, now);
      && Listed(r) && |r| == |pushes|
      && (forall i :: 0 <= i < |r| ==> r[i].proposalId == pushes[i].proposalId && r[i].createdAt == pushes[i].createdAt)
      && (forall i :: 0 <= i < |r| ==>
           r[i] == if i == IndexOf(pushes, pid) then Touched(pushes[i], status, lastError, now) else pushes[i])
  {
    hide Clean;
    var i, r := IndexOf(pushes, pid), Marked(pushes, pid, status, lastError, now);
    if i < |pushes| {
      assert pushes[i] in pushes;
      TouchedIsClean(pushes[i], status, lastError, now);
      forall p | p in r ensures Clean(p) {
        assert p == r[i] || p in pushes;
      }
    }
  }

  /** Inserting or replacing keeps IDs distinct; a replaced record keeps its creation time. */
  lemma UpsertedUnique(pushes: seq<PendingPush>, push: PendingPush)
    requires UniqueIds(pushes)
    ensures UniqueIds(Upserted(pushes, push))
    ensures forall p :: p in Upserted(pushes, push) ==>
      p in pushes || (p.proposalId == push.proposalId && p.status == push.status)
    ensures forall p :: p in pushes && p.proposalId != push.proposalId ==> p in Upserted(pushes, push)
  {
    var i, r := IndexOf(pushes, push.proposalId), Upserted(pushes, push);
    forall p | p in pushes && p.proposalId != push.proposalId ensures p in r {
      var j :| 0 <= j < |pushes| && pushes[j] == p;
      assert r[j] == p;
    }
  }

  lemma SortedUnique(pushes: seq<PendingPush>)
    requires UniqueIds(pushes)
    ensures UniqueIds(Sort(ListedBefore, pushes))
  {
    hide ListedBefore;
    var r := Sort(ListedBefore, pushes);
    SortElements(ListedBefore, pushes);
    assert Distinct(pushes);
    SortDistinct(ListedBefore, pushes);
    forall i, j | 0 <= i < j < |r| ensures r[i].proposalId != r[j].proposalId {
      assert r[i] in pushes && r[j] in pushes;
    }
  }

  // ------------------------------------------------------- what is loaded and what is stored

  /** The first record that is not accepted. */
  ghost predicate FirstRefused(pushes: seq<PendingPush>, i: int) {
    0 <= i < |pushes| && Normalize(pushes[i]).Err? && forall j :: 0 <= j < i ==> Normalize(pushes[j]).Ok?
  }

  lemma {:induction false} NormalizeAllMeans(pushes: seq<PendingPush>)
    ensures NormalizeAll(pushes).Ok? ==>
      var r := NormalizeAll(pushes).value;
      |r| == |pushes| && forall i :: 0 <= i < |pushes| ==> Normalize(pushes[i]) == Ok(r[i])
    ensures NormalizeAll(pushes).Err? ==>
      exists i :: FirstRefused(pushes, i) && NormalizeAll(pushes).error == Normalize(pushes[i]).error
  {
    hide Normalize;
    if pushes != [] {
      var front := pushes[..|pushes| - 1];
      NormalizeAllMeans(front);
      if NormalizeAll(front).Err? {
        var i :| FirstRefused(front, i) && NormalizeAll(front).error == Normalize(front[i]).error;
        assert FirstRefused(pushes, i);
      } else if NormalizeAll(pushes).Err? {
        var r := NormalizeAll(front).value;
        assert forall j :: 0 <= j < |front| ==> Normalize(front[j]) == Ok(r[j]);
        assert FirstRefused(pushes, |front|);
      }
    }
  }

  /** A missing file holds no record. A file that cannot be decoded is an error, and so is one
      with a record that is not accepted: the first such record says which. Otherwise every record
      is returned once, trimmed; of two neighbours the first was created earlier, or at the same
      time under a smaller or equal ID. */
  lemma LoadMeans(file: PendingFile)
    ensures file.NoFile? ==> Load(file) == Ok([])
    ensures file.Unreadable? ==> Load(file) == Err(BadFile)
    ensures file.Pushes? && Load(file).Err? ==>
      exists i :: FirstRefused(file.pushes, i) && Load(file).error == Normalize(file.pushes[i]).error
    ensures file.Pushes? && Load(file).Ok? ==>
      && (forall p :: p in file.pushes ==> Normalize(p).Ok? && Normalize(p).value in Load(file).value)
      && |Load(file).value| == |file.pushes|
      && (forall q :: q in Load(file).value ==> exists p :: p in file.pushes && Normalize(p) == Ok(q))
      && forall i :: 0 < i < |Load(file).value| ==>
           var x, y := Load(file).value[i - 1], Load(file).value[i];
           Less(x.createdAt, y.createdAt) || (x.createdAt == y.createdAt && !Less(y.proposalId, x.proposalId))
  {
    hide Normalize, Less, Sort;
    if file.Pushes? {
      NormalizeAllMeans(file.pushes);
      if Load(file).Ok? {
        var normal, r := NormalizeAll(file.pushes).value, Load(file).value;
        ListingOrder();
        SortOrdered(ListedBefore, normal);
        SortElements(ListedBefore, normal);
        forall p | p in file.pushes ensures Normalize(p).Ok? && Normalize(p).value in r {
          var i :| 0 <= i < |file.pushes| && file.pushes[i] == p;
          assert normal[i] in normal;
        }
        forall q | q in r ensures exists p :: p in file.pushes && Normalize(p) == Ok(q) {
          var i :| 0 <= i < |normal| && normal[i] == q;
          assert file.pushes[i] in file.pushes;
        }
        forall i | 0 < i < |r|
          ensures Less(r[i - 1].createdAt, r[i].createdAt)
               || (r[i - 1].createdAt == r[i].createdAt && !Less(r[i].proposalId, r[i - 1].proposalId))
        {
          assert !ListedBefore(r[i], r[i - 1]);
          LessTotal(r[i - 1].createdAt, r[i].createdAt);
        }
      }
    }
  }

  /** The first record of a proposal is at position `i`. */
  ghost predicate FirstOf(pushes: seq<PendingPush>, pid: string, i: int) {
    0 <= i < |pushes| && pushes[i].proposalId == pid && forall j :: 0 <= j < i ==> pushes[j].proposalId != pid
  }

  /** What is stored for a record handed over at `now`: the first time a proposal is queued, the
      record itself, last, created now unless it says when; after that, in the place of the
      earlier record, with the earlier creation time and no fewer attempts than either had. */
  lemma StoredMeans(pushes: seq<PendingPush>, record: PendingPush, now: string)
    ensures var r := Upserted(pushes, Stamp(record, now));
      && ((forall p :: p in pushes ==> p.proposalId != record.proposalId) ==>
            r == pushes + [record.(createdAt := if record.createdAt != "" then record.createdAt else now, updatedAt := now)])
      && forall i :: FirstOf(pushes, record.proposalId, i) ==>
           && |r| == |pushes| && r[..i] == pushes[..i] && r[i + 1..] == pushes[i + 1..]
           && r[i].attempts >= record.attempts && r[i].attempts >= pushes[i].attempts
           && r[i].attempts in {record.attempts, pushes[i].attempts}
           && r[i] == record.(createdAt := pushes[i].createdAt, updatedAt := now, attempts := r[i].attempts)
  {
    var k := IndexOf(pushes, record.proposalId);
    if k < |pushes| {
      assert pushes[k] in pushes;
    }
  }

  /** What is marked: the first record of the proposal, with one attempt more. A completed record
      has its time of completion and no error; any other mark leaves the earlier time of
      completion and keeps the error it is given, trimmed. */
  lemma MarkedMeans(pushes: seq<PendingPush>, pid: string, status: string, lastError: string, now: string, i: nat)
    requires FirstOf(pushes, pid, i)
    ensures var r, before := Marked(pushes, pid, status, lastError, now), pushes[i];
      && |r| == |pushes| && r[..i] == pushes[..i] && r[i + 1..] == pushes[i + 1..]
      && (status == "completed" ==>
            r[i] == before.(status := "completed", lastError := "", attempts := before.attempts + 1,
                            updatedAt := now, lastTriedAt := now, completedAt := now))
      && (status != "completed" ==>
            r[i] == before.(status := status, lastError := TrimSpace(lastError), attempts := before.attempts + 1,
                            updatedAt := now, lastTriedAt := now))
  {
    hide TrimSpace;
    assert IndexOf(pushes, pid) == i;
  }
}
