/** The pending push file behind a store (gossip/pending.go). */
module PushQueue {
  import opened Pending
  import opened Sorting
  import opened Store
  import opened Strings
  import opened Wrappers

  /** `loadPendingPushesLocked`, which is also what `ListPendingPushes` returns a copy of. */
  method ListPendingPushes(s: Store) returns (r: Result<seq<PendingPush>, PendingError>)
    ensures r == Load(s.pendingFile)
  {
    hide Pending.Normalize;
    match s.pendingFile
    case NoFile => r := Ok([]);
    case Unreadable => r := Err(BadFile);
    case Pushes(file) =>
      var pushes: seq<PendingPush> := [];
      for i := 0 to |file|
        invariant NormalizeAll(file[..i]) == Ok(pushes)
      {
        assert file[..i + 1][..i] == file[..i];
        var normal := Pending.Normalize(file[i]);
        if normal.Err? {
          NormalizeFails(file, i + 1);
          return Err(normal.error);
        }
        pushes := pushes + [normal.value];
      }
      assert file[..|file|] == file;
      r := Ok(Sort(ListedBefore, pushes));
  }

  lemma {:induction false} NormalizeFails(pushes: seq<PendingPush>, n: nat)
    requires n <= |pushes| && NormalizeAll(pushes[..n]).Err?
    ensures NormalizeAll(pushes) == NormalizeAll(pushes[..n])
  {
    if n == |pushes| {
      assert pushes[..n] == pushes;
    } else {
      assert pushes[..|pushes| - 1][..n] == pushes[..n];
      NormalizeFails(pushes[..|pushes| - 1], n);
    }
  }

  /** `UpsertPendingPush`: insert, or replace the record of the same proposal. */
  method UpsertPendingPush(s: Store, record: PendingPush, now: string) returns (r: Result<PendingPush, PendingError>)
    modifies s`pendingFile
    ensures var clean, before := Pending.Normalize(record), old(Load(s.pendingFile));
      if clean.Err? then r == Err(clean.error) && s.pendingFile == old(s.pendingFile)
      else if before.Err? then r == Err(before.error) && s.pendingFile == old(s.pendingFile)
      else
        var push := Stamp(clean.value, now);
        && s.pendingFile == Pushes(Upserted(before.value, push))
        && r.Ok? && r.value == Upserted(before.value, push)[IndexOf(before.value, push.proposalId)]
  {
    hide Pending.Normalize, Load;
    var clean := Pending.Normalize(record);
    if clean.Err? {
      return Err(clean.error);
    }
    var push := Stamp(clean.value, now);
    var loaded := ListPendingPushes(s);
    if loaded.Err? {
      return Err(loaded.error);
    }
    var pushes := loaded.value;
    var replaced := false;
    var i := 0;
    while i < |pushes| && !replaced
      invariant 0 <= i <= |loaded.value| && |pushes| == |loaded.value|
      invariant !replaced ==> pushes == loaded.value && push == Stamp(clean.value, now)
      invariant !replaced ==> forall j :: 0 <= j < i ==> pushes[j].proposalId != push.proposalId
      invariant replaced ==> i < |pushes| && i == IndexOf(loaded.value, push.proposalId)
      invariant replaced ==> push == Merged(Stamp(clean.value, now), loaded.value[i]) && pushes == loaded.value[i := push]
      decreases |pushes| - i, !replaced
    {
      var existing := pushes[i];
      if existing.proposalId != push.proposalId {
        i := i + 1;
        continue;
      }
      push := push.(createdAt := existing.createdAt);
      if push.attempts < existing.attempts {
        push := push.(attempts := existing.attempts);
      }
      pushes := pushes[i := push];
      replaced := true;
    }
    if !replaced {
      pushes := pushes + [push];
    }
    s.pendingFile := Pushes(pushes);
    r := Ok(push);
  }

  /** `updatePendingPushStatus`. */
  method UpdatePendingPushStatus(s: Store, proposalId: string, status: string, lastError: string, now: string)
    returns (failure: Option<PendingError>)
    modifies s`pendingFile
    ensures var pid, before := TrimSpace(proposalId), old(Load(s.pendingFile));
      if pid == "" then failure == Some(MissingProposal) && s.pendingFile == old(s.pendingFile)
      else if before.Err? then failure == Some(before.error) && s.pendingFile == old(s.pendingFile)
      else if IndexOf(before.value, pid) == |before.value| then failure == Some(NotFound)
        && s.pendingFile == old(s.pendingFile)
      else failure == None && s.pendingFile == Pushes(Marked(before.value, pid, status, lastError, now))
  {
    hide Load, TrimSpace;
    var pid := TrimSpace(proposalId);
    if pid == "" {
      return Some(MissingProposal);
    }
    var loaded := ListPendingPushes(s);
    if loaded.Err? {
      return Some(loaded.error);
    }
    var pushes := loaded.value;
    for i := 0 to |pushes|
      invariant pushes == loaded.value
      invariant forall j :: 0 <= j < i ==> pushes[j].proposalId != pid
    {
      var push := pushes[i];
      if push.proposalId != pid {
        continue;
      }
      push := push.(status := status, lastError := TrimSpace(lastError), updatedAt := now, lastTriedAt := now,
                    attempts := push.attempts + 1);
      if status == COMPLETED {
        push := push.(completedAt := now, lastError := "");
      }
      pushes := pushes[i := push];
      s.pendingFile := Pushes(pushes);
      return None;
    }
    failure := Some(NotFound);
  }
}
