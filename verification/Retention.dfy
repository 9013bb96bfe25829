/** Snapshot retention: which autosaved snapshots are kept by count and by age. */
module Retention {
  import opened Times
  import opened Uuids

  datatype Snapshot = Snapshot(engramId: Uuid, createdAt: Time)

  const NANOS_PER_DAY: nat := 24 * NANOS_PER_HOUR

  function Max(a: int, b: int): int { if a > b then a else b }

  /** The cutoff instant and the count limit. A zero `now` means the clock's own reading. */
  function Cutoff(now: Time, clock: Time, retentionDays: int): int {
    (if now == 0 then clock else now) - Max(retentionDays, 1) * NANOS_PER_DAY
  }

  function CountLimit(maxSnapshots: int): (limit: nat)
    ensures limit >= 1
  {
    Max(maxSnapshots, 1)
  }

  predicate ShouldKeep(index: nat, s: Snapshot, cutoff: int, limit: nat) {
    index < limit && s.createdAt >= cutoff
  }

  function KeepIds(snapshots: seq<Snapshot>, cutoff: int, limit: nat): set<Uuid> {
    if snapshots == [] then {}
    else
      var n := |snapshots| - 1;
      var before := KeepIds(snapshots[..n], cutoff, limit);
      if ShouldKeep(n, snapshots[n], cutoff, limit) then before + {snapshots[n].engramId} else before
  }

  /** The snapshots that stay, in order. */
  function Survivors(snapshots: seq<Snapshot>, keep: set<Uuid>): seq<Snapshot> {
    if snapshots == [] then []
    else
      var n := |snapshots| - 1;
      var before := Survivors(snapshots[..n], keep);
      if snapshots[n].engramId in keep then before + [snapshots[n]] else before
  }

  function PruneIds(snapshots: seq<Snapshot>, keep: set<Uuid>): seq<Uuid> {
    if snapshots == [] then []
    else
      var n := |snapshots| - 1;
      var before := PruneIds(snapshots[..n], keep);
      if snapshots[n].engramId in keep then before else before + [snapshots[n].engramId]
  }

  /** The ids pruned under given limits at a given time. */
  function Pruned(snapshots: seq<Snapshot>, retentionDays: int, maxSnapshots: int, now: Time, clock: Time): seq<Uuid> {
    PruneIds(snapshots, KeepIds(snapshots, Cutoff(now, clock, retentionDays), CountLimit(maxSnapshots)))
  }

  method SelectRetentionPruneIds(snapshots: seq<Snapshot>, retentionDays: int, maxSnapshots: int, now: Time, clock: Time)
    returns (pruned: seq<Uuid>)
    ensures pruned == Pruned(snapshots, retentionDays, maxSnapshots, now, clock)
  {
    if |snapshots| == 0 {
      return [];
    }
    var cutoff, limit := Cutoff(now, clock, retentionDays), CountLimit(maxSnapshots);
    var keep := CollectKeepIds(snapshots, cutoff, limit);
    pruned := [];
    for i := 0 to |snapshots|
      invariant pruned == PruneIds(snapshots[..i], keep)
    {
      assert snapshots[..i + 1][..i] == snapshots[..i];
      if snapshots[i].engramId in keep {
        continue;
      }
      pruned := pruned + [snapshots[i].engramId];
    }
    assert snapshots[..|snapshots|] == snapshots;
  }

  method CollectKeepIds(snapshots: seq<Snapshot>, cutoff: int, limit: nat) returns (keep: set<Uuid>)
    ensures keep == KeepIds(snapshots, cutoff, limit)
  {
    keep := {};
    for i := 0 to |snapshots|
      invariant keep == KeepIds(snapshots[..i], cutoff, limit)
    {
      assert snapshots[..i + 1][..i] == snapshots[..i];
      if ShouldKeep(i, snapshots[i], cutoff, limit) {
        keep := keep + {snapshots[i].engramId};
      }
    }
    assert snapshots[..|snapshots|] == snapshots;
  }

  ghost predicate DistinctIds(snapshots: seq<Snapshot>) {
    forall i, j :: 0 <= i < j < |snapshots| ==> snapshots[i].engramId != snapshots[j].engramId
  }

  /** An id is kept exactly when one of its snapshots is recent enough and early enough in the list. */
  lemma {:induction false} KeepIdsMembers(snapshots: seq<Snapshot>, cutoff: int, limit: nat)
    ensures forall id: Uuid :: id in KeepIds(snapshots, cutoff, limit) <==>
              exists i :: 0 <= i < |snapshots| && snapshots[i].engramId == id && ShouldKeep(i, snapshots[i], cutoff, limit)
    ensures |KeepIds(snapshots, cutoff, limit)| <= limit && |KeepIds(snapshots, cutoff, limit)| <= |snapshots|
  {
    if snapshots != [] {
      KeepIdsMembers(snapshots[..|snapshots| - 1], cutoff, limit);
    }
  }

  /** Kept and pruned share the snapshots between them. */
  lemma {:induction false} KeptAndPrunedPartition(snapshots: seq<Snapshot>, keep: set<Uuid>)
    ensures |Survivors(snapshots, keep)| + |PruneIds(snapshots, keep)| == |snapshots|
    ensures forall s :: s in Survivors(snapshots, keep) <==> s in snapshots && s.engramId in keep
    ensures forall id: Uuid :: id in PruneIds(snapshots, keep) <==>
              id !in keep && exists s :: s in snapshots && s.engramId == id
  {
    if snapshots != [] {
      var n := |snapshots| - 1;
      KeptAndPrunedPartition(snapshots[..n], keep);
      assert snapshots == snapshots[..n] + [snapshots[n]];
    }
  }

  /** With distinct ids the survivors are the snapshots that pass the test at their place, and keep passing it. */
  lemma {:induction false} SurvivorsPass(snapshots: seq<Snapshot>, keep: set<Uuid>, cutoff: int, limit: nat)
    requires forall i :: 0 <= i < |snapshots| ==>
               (snapshots[i].engramId in keep <==> ShouldKeep(i, snapshots[i], cutoff, limit))
    ensures var kept := Survivors(snapshots, keep);
            |kept| <= limit && |kept| <= |snapshots|
            && forall i :: 0 <= i < |kept| ==> ShouldKeep(i, kept[i], cutoff, limit) && kept[i].engramId in keep
  {
    if snapshots != [] {
      SurvivorsPass(snapshots[..|snapshots| - 1], keep, cutoff, limit);
    }
  }

  lemma KeepTestAtPlace(snapshots: seq<Snapshot>, cutoff: int, limit: nat)
    requires DistinctIds(snapshots)
    ensures forall i :: 0 <= i < |snapshots| ==>
              (snapshots[i].engramId in KeepIds(snapshots, cutoff, limit) <==> ShouldKeep(i, snapshots[i], cutoff, limit))
  {
    KeepIdsMembers(snapshots, cutoff, limit);
  }

  lemma {:induction false} NothingPruned(snapshots: seq<Snapshot>, keep: set<Uuid>)
    requires forall i :: 0 <= i < |snapshots| ==> snapshots[i].engramId in keep
    ensures PruneIds(snapshots, keep) == [] && Survivors(snapshots, keep) == snapshots
  {
    if snapshots != [] {
      NothingPruned(snapshots[..|snapshots| - 1], keep);
    }
  }

  /** At most the limit is kept, and pruning the survivors again at the same time prunes nothing. */
  lemma PruningIsStable(snapshots: seq<Snapshot>, cutoff: int, limit: nat)
    requires DistinctIds(snapshots)
    ensures var kept := Survivors(snapshots, KeepIds(snapshots, cutoff, limit));
            |kept| <= limit && PruneIds(kept, KeepIds(kept, cutoff, limit)) == []
  {
    var keep := KeepIds(snapshots, cutoff, limit);
    var kept := Survivors(snapshots, keep);
    KeepTestAtPlace(snapshots, cutoff, limit);
    SurvivorsPass(snapshots, keep, cutoff, limit);
    KeepIdsMembers(kept, cutoff, limit);
    NothingPruned(kept, KeepIds(kept, cutoff, limit));
  }

  lemma TighterKeepsFewer(snapshots: seq<Snapshot>, cutoff: int, limit: nat, later: int, tighter: nat)
    requires cutoff <= later && tighter <= limit
    ensures KeepIds(snapshots, later, tighter) <= KeepIds(snapshots, cutoff, limit)
  {
  }

  /** A later time, fewer days or fewer snapshots only add to what is pruned. */
  lemma PruningOnlyGrows(snapshots: seq<Snapshot>, days: int, maxSnapshots: int, now: Time, clock: Time,
                         fewerDays: int, fewerSnapshots: int, later: Time)
    requires 0 < now <= later && fewerDays <= days && fewerSnapshots <= maxSnapshots
    ensures forall id: Uuid :: id in Pruned(snapshots, days, maxSnapshots, now, clock) ==>
              id in Pruned(snapshots, fewerDays, fewerSnapshots, later, clock)
  {
    var cutoff, laterCutoff := Cutoff(now, clock, days), Cutoff(later, clock, fewerDays);
    TighterKeepsFewer(snapshots, cutoff, CountLimit(maxSnapshots), laterCutoff, CountLimit(fewerSnapshots));
    KeptAndPrunedPartition(snapshots, KeepIds(snapshots, cutoff, CountLimit(maxSnapshots)));
    KeptAndPrunedPartition(snapshots, KeepIds(snapshots, laterCutoff, CountLimit(fewerSnapshots)));
  }

  /** Of a newest-first list the kept snapshots are the beginning. */
  lemma {:induction false} NewestFirstKeepsPrefix(snapshots: seq<Snapshot>, keep: set<Uuid>, cutoff: int, limit: nat)
    requires forall i, j :: 0 <= i < j < |snapshots| ==> snapshots[i].createdAt >= snapshots[j].createdAt
    requires forall i :: 0 <= i < |snapshots| ==>
               (snapshots[i].engramId in keep <==> ShouldKeep(i, snapshots[i], cutoff, limit))
    ensures Survivors(snapshots, keep) <= snapshots
    ensures snapshots != [] && snapshots[|snapshots| - 1].engramId in keep ==> Survivors(snapshots, keep) == snapshots
  {
    if snapshots != [] {
      var n := |snapshots| - 1;
      NewestFirstKeepsPrefix(snapshots[..n], keep, cutoff, limit);
      assert snapshots == snapshots[..n] + [snapshots[n]];
      if snapshots[n].engramId in keep && n > 0 {
        assert ShouldKeep(n - 1, snapshots[n - 1], cutoff, limit);
      }
    }
  }

  lemma KeptArePrefix(snapshots: seq<Snapshot>, cutoff: int, limit: nat)
    requires DistinctIds(snapshots)
    requires forall i, j :: 0 <= i < j < |snapshots| ==> snapshots[i].createdAt >= snapshots[j].createdAt
    ensures Survivors(snapshots, KeepIds(snapshots, cutoff, limit)) <= snapshots
  {
    KeepTestAtPlace(snapshots, cutoff, limit);
    NewestFirstKeepsPrefix(snapshots, KeepIds(snapshots, cutoff, limit), cutoff, limit);
  }

  /**
   * With distinct ids the snapshot at place `i` is pruned exactly when as many snapshots as may stay, at least one, come
   * before it, or it is more than the retention days old, at least one; a zero `now` stands for the clock's reading.
   */
  lemma PrunedIff(snapshots: seq<Snapshot>, retentionDays: int, maxSnapshots: int, now: Time, clock: Time, i: nat)
    requires DistinctIds(snapshots) && i < |snapshots|
    ensures var days, limit := if retentionDays > 1 then retentionDays else 1, if maxSnapshots > 1 then maxSnapshots else 1;
            var reference := if now == 0 then clock else now;
            snapshots[i].engramId in Pruned(snapshots, retentionDays, maxSnapshots, now, clock)
            <==> i >= limit || snapshots[i].createdAt < reference - days * (24 * 60 * 60 * 1_000_000_000)
  {
    var cutoff, limit := Cutoff(now, clock, retentionDays), CountLimit(maxSnapshots);
    KeepTestAtPlace(snapshots, cutoff, limit);
    KeptAndPrunedPartition(snapshots, KeepIds(snapshots, cutoff, limit));
  }

  /** Pruned ids come in the order of their snapshots, each once. */
  lemma {:induction false} PrunedInOrder(snapshots: seq<Snapshot>, keep: set<Uuid>)
    requires DistinctIds(snapshots)
    ensures var pruned := PruneIds(snapshots, keep);
            forall a, b :: 0 <= a < b < |pruned| ==>
              exists i, j :: 0 <= i < j < |snapshots| && snapshots[i].engramId == pruned[a]
                             && snapshots[j].engramId == pruned[b]
  {
    if snapshots != [] {
      var n := |snapshots| - 1;
      var before, pruned := PruneIds(snapshots[..n], keep), PruneIds(snapshots, keep);
      PrunedInOrder(snapshots[..n], keep);
      KeptAndPrunedPartition(snapshots[..n], keep);
      forall a, b | 0 <= a < b < |pruned|
        ensures exists i, j :: 0 <= i < j < |snapshots| && snapshots[i].engramId == pruned[a]
                               && snapshots[j].engramId == pruned[b]
      {
        if b < |before| {
          var i, j :| 0 <= i < j < n && snapshots[..n][i].engramId == before[a] && snapshots[..n][j].engramId == before[b];
          assert snapshots[i].engramId == pruned[a] && snapshots[j].engramId == pruned[b];
        } else {
          assert before[a] in before;
          var s :| s in snapshots[..n] && s.engramId == before[a];
          var i :| 0 <= i < n && snapshots[..n][i] == s;
          assert snapshots[i].engramId == pruned[a] && snapshots[n].engramId == pruned[b];
        }
      }
    }
  }
}
