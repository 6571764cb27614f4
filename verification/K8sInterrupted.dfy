/** A second run that meets failing calls, or is broken off, after a first one that went through. */
module K8sInterrupted {
  import opened Text
  import opened Values
  import opened K8sModel
  import opened K8s
  import opened K8sTheorems

  /** The same jobs, whatever the API server answers this time. */
  predicate SameAsked(jobs: seq<Job>, again: seq<Job>) {
    |jobs| == |again| && forall i :: 0 <= i < |jobs| ==> SameJob(jobs[i], again[i])
  }

  predicate SameJob(job: Job, job2: Job) {
    match job
    case Absent => job2.Absent?
    case Unnamed => job2.Unnamed?
    case Put(key, s, api) => job2.Put? && job2.key == key && job2.secret == s
  }

  /** However the second run fails, the cluster stays as it is. */
  ghost predicate Harmless(after: Secrets, jobs: seq<Job>, mode: string, ownerRef: bool) {
    forall again :: SameAsked(jobs, again) ==> Reconcile(after, again, mode, ownerRef).0 == after
  }

  /** What a job leaves alone once all have gone through: its own Secret is what the last one of the target, or under
      merge all of them together, brought. */
  predicate Kept(job: Job, jobs: seq<Job>, mode: string, ownerRef: bool)
    requires job.Put? && job in jobs
  {
    if mode == "merge" then
      var all := MergeAll(BLANK, jobs, job.key, ownerRef);
      Merged(all, job.secret, ownerRef) == all
    else
      var last := LastFor(jobs, job.key).value;
      last.data == job.secret.data && last.labels == job.secret.labels && last.annotations == job.secret.annotations &&
      (ownerRef ==> last.owners == job.secret.owners)
  }

  /** After a first run that went through, a second one is harmless wherever it fails exactly when every job asks for
      what the last one of its target, or under merge all of them together, left there. In the other modes it always
      is. */
  lemma InterruptedIff(c: Secrets, jobs: seq<Job>, mode: string, ownerRef: bool)
    requires CallsWork(jobs) && Reconcile(c, jobs, mode, ownerRef).1.None?
    ensures Harmless(Reconcile(c, jobs, mode, ownerRef).0, jobs, mode, ownerRef) <==>
            !Updates(mode) || forall job :: job in jobs && job.Put? ==> Kept(job, jobs, mode, ownerRef)
  {
    var after := Reconcile(c, jobs, mode, ownerRef).0;
    AllCreated(c, jobs, mode, ownerRef);
    if !Updates(mode) {
      forall again | SameAsked(jobs, again) ensures Reconcile(after, again, mode, ownerRef).0 == after {
        SameKeys(jobs, again, after);
        PresentLeaves(after, again, mode, ownerRef);
      }
    } else if forall job :: job in jobs && job.Put? ==> Kept(job, jobs, mode, ownerRef) {
      forall job | job in jobs && job.Put? ensures Upserted(after, job, mode, ownerRef) == after[job.key] {
        KeptIff(c, jobs, job, mode, ownerRef);
      }
      forall again | SameAsked(jobs, again) ensures Reconcile(after, again, mode, ownerRef).0 == after {
        KeptLeaves(after, jobs, again, mode, ownerRef);
      }
    } else {
      var job :| job in jobs && job.Put? && !Kept(job, jobs, mode, ownerRef);
      KeptIff(c, jobs, job, mode, ownerRef);
      AloneBreaks(c, jobs, job, mode, ownerRef);
    }
  }

  lemma SameKeys(jobs: seq<Job>, again: seq<Job>, after: Secrets)
    requires SameAsked(jobs, again) && forall j :: j in jobs && j.Put? ==> j.key in after
    ensures forall j :: j in again && j.Put? ==> j.key in after
  {
    forall j | j in again && j.Put? ensures j.key in after {
      var i :| 0 <= i < |again| && again[i] == j;
      assert SameJob(jobs[i], again[i]) && jobs[i] in jobs;
    }
  }

  /** The Secret that an update makes of the target. */
  function Upserted(c: Secrets, job: Job, mode: string, ownerRef: bool): KSecret
    requires job.Put? && job.key in c
  {
    if mode == "merge" then Merged(c[job.key], job.secret, ownerRef) else Overwritten(c[job.key], job.secret, ownerRef)
  }

  lemma {:induction false} KeptLeaves(after: Secrets, jobs: seq<Job>, again: seq<Job>, mode: string, ownerRef: bool)
    requires Updates(mode) && SameAsked(jobs, again)
    requires forall j :: j in jobs && j.Put? ==> j.key in after && Upserted(after, j, mode, ownerRef) == after[j.key]
    ensures Reconcile(after, again, mode, ownerRef).0 == after
  {
    if jobs != [] {
      KeptLeaves(after, jobs[..|jobs| - 1], again[..|again| - 1], mode, ownerRef);
      assert jobs[|jobs| - 1] in jobs && SameJob(jobs[|jobs| - 1], again[|again| - 1]);
    }
  }

  // ---------- what one job leaves alone ----------

  lemma KeptIff(c: Secrets, jobs: seq<Job>, job: Job, mode: string, ownerRef: bool)
    requires Updates(mode) && Reconcile(c, jobs, mode, ownerRef).1.None? && job in jobs && job.Put?
    ensures var after := Reconcile(c, jobs, mode, ownerRef).0;
            job.key in after && (Upserted(after, job, mode, ownerRef) == after[job.key] <==>
              Kept(job, jobs, mode, ownerRef))
  {
    var after := Reconcile(c, jobs, mode, ownerRef).0;
    AllCreated(c, jobs, mode, ownerRef);
    if mode == "merge" {
      MergeIsMergeAll(c, jobs, ownerRef, job.key);
      MergeAgainIff(MergeBase(c, jobs, job.key).value, jobs, job, ownerRef);
    } else {
      assert Targets(job, job.key);
      OverwriteLastWins(c, jobs, mode, ownerRef, job.key);
    }
  }

  /** All jobs together bring at least what each of them brings. */
  lemma {:induction false} AllBring(jobs: seq<Job>, job: Job, ownerRef: bool)
    requires job in jobs && job.Put?
    ensures var all := MergeAll(BLANK, jobs, job.key, ownerRef);
            job.secret.data.Keys <= all.data.Keys && job.secret.labels.Keys <= all.labels.Keys &&
            job.secret.annotations.Keys <= all.annotations.Keys &&
              (ownerRef && |job.secret.owners| > 0 ==> |all.owners| > 0)
  {
    if jobs[|jobs| - 1] != job {
      AllBring(jobs[..|jobs| - 1], job, ownerRef);
    }
  }

  lemma SameAdded<V>(base: map<string, V>, a: map<string, V>, b: map<string, V>)
    requires base + a == base + b && a.Keys == b.Keys
    ensures a == b
  {
    forall k | k in a ensures a[k] == b[k] {
      assert (base + a)[k] == (base + b)[k];
    }
  }

  lemma MergeAgainIff(base: KSecret, jobs: seq<Job>, job: Job, ownerRef: bool)
    requires job in jobs && job.Put?
    ensures var after, all := MergeAll(base, jobs, job.key, ownerRef), MergeAll(BLANK, jobs, job.key, ownerRef);
            Merged(after, job.secret, ownerRef) == after <==> Merged(all, job.secret, ownerRef) == all
  {
    var all := MergeAll(BLANK, jobs, job.key, ownerRef);
    var more := Merged(all, job.secret, ownerRef);
    MergeAllAdds(base, jobs, job.key, ownerRef);
    MergedAssociates(base, all, job.secret, ownerRef);
    AllBring(jobs, job, ownerRef);
    if Merged(base, more, true) == Merged(base, all, true) {
      SameAdded(base.data, more.data, all.data);
      SameAdded(base.labels, more.labels, all.labels);
      SameAdded(base.annotations, more.annotations, all.annotations);
    }
  }

  // ---------- a run that gets to one job only ----------

  /** The second run gets through the first `m` jobs. */
  function BrokenOff(jobs: seq<Job>, m: nat): (again: seq<Job>)
    ensures SameAsked(jobs, again)
  {
    seq(|jobs|, i requires 0 <= i < |jobs| => if i < m || !jobs[i].Put? then jobs[i] else jobs[i].(api := GetFails))
  }

  lemma {:induction false} BrokenOffIsPrefix(after: Secrets, jobs: seq<Job>, m: nat, n: nat, mode: string,
      ownerRef: bool)
    requires m <= n <= |jobs|
    ensures Reconcile(after, BrokenOff(jobs, m)[..n], mode, ownerRef).0 == Reconcile(after, jobs[..m], mode, ownerRef).0
    decreases n
  {
    var again := BrokenOff(jobs, m);
    if n == m {
      assert again[..m] == jobs[..m];
    } else {
      assert again[..n][..n - 1] == again[..n - 1];
      BrokenOffIsPrefix(after, jobs, m, n - 1, mode, ownerRef);
    }
  }

  lemma AloneBreaks(c: Secrets, jobs: seq<Job>, job: Job, mode: string, ownerRef: bool)
    requires Updates(mode) && CallsWork(jobs) && Reconcile(c, jobs, mode, ownerRef).1.None? && job in jobs && job.Put?
    requires var after := Reconcile(c, jobs, mode, ownerRef).0;
             job.key in after && Upserted(after, job, mode, ownerRef) != after[job.key]
    ensures !Harmless(Reconcile(c, jobs, mode, ownerRef).0, jobs, mode, ownerRef)
  {
    var after := Reconcile(c, jobs, mode, ownerRef).0;
    var m :| 0 <= m < |jobs| && jobs[m] == job;
    BrokenOffIsPrefix(after, jobs, m, |jobs|, mode, ownerRef);
    BrokenOffIsPrefix(after, jobs, m + 1, |jobs|, mode, ownerRef);
    assert BrokenOff(jobs, m)[..|jobs|] == BrokenOff(jobs, m) &&
           BrokenOff(jobs, m + 1)[..|jobs|] == BrokenOff(jobs, m + 1);
    if Reconcile(after, jobs[..m], mode, ownerRef).0 == after {
      SameErrors(c, after, jobs, mode, ownerRef);
      PrefixIsClean(after, jobs, m + 1, mode, ownerRef);
      NextChanges(after, jobs, m, mode, ownerRef);
    }
  }

  lemma NextChanges(after: Secrets, jobs: seq<Job>, m: nat, mode: string, ownerRef: bool)
    requires Updates(mode) && m < |jobs| && jobs[m].Put? && jobs[m].key in after
    requires Reconcile(after, jobs[..m], mode, ownerRef).0 == after &&
             Reconcile(after, jobs[..m + 1], mode, ownerRef).1.None?
    ensures At(Reconcile(after, jobs[..m + 1], mode, ownerRef).0, jobs[m].key) ==
            Some(Upserted(after, jobs[m], mode, ownerRef))
  {
    assert jobs[..m + 1][..m] == jobs[..m];
  }

  lemma PrefixIsClean(c: Secrets, jobs: seq<Job>, m: nat, mode: string, ownerRef: bool)
    requires m <= |jobs| && Reconcile(c, jobs, mode, ownerRef).1.None?
    ensures Reconcile(c, jobs[..m], mode, ownerRef).1.None?
  {
    if Reconcile(c, jobs[..m], mode, ownerRef).1.Some? {
      ErrorSticks(c, jobs, m, mode, ownerRef);
    }
  }

  // ---------- distinct targets, and an example ----------

  lemma {:induction false} OnlyForKey(jobs: seq<Job>, i: nat, ownerRef: bool)
    requires i < |jobs| && jobs[i].Put? && forall j :: 0 <= j < |jobs| && j != i ==> !Targets(jobs[j], jobs[i].key)
    ensures LastFor(jobs, jobs[i].key) == Some(jobs[i].secret)
    ensures MergeAll(BLANK, jobs, jobs[i].key, ownerRef) == Merged(BLANK, jobs[i].secret, ownerRef)
  {
    if i < |jobs| - 1 {
      OnlyForKey(jobs[..|jobs| - 1], i, ownerRef);
    } else {
      MergeNothing(BLANK, jobs[..i], jobs[i].key, ownerRef);
    }
  }

  lemma OnlyIsKept(jobs: seq<Job>, i: nat, mode: string, ownerRef: bool)
    requires i < |jobs| && jobs[i].Put? && forall j :: 0 <= j < |jobs| && j != i ==> !Targets(jobs[j], jobs[i].key)
    ensures Kept(jobs[i], jobs, mode, ownerRef)
  {
    OnlyForKey(jobs, i, ownerRef);
    MergedAssociates(BLANK, jobs[i].secret, jobs[i].secret, ownerRef);
    MergeOntoItself(jobs[i].secret, ownerRef);
    var s := jobs[i].secret;
    assert map[] + s.data == s.data && map[] + s.labels == s.labels && map[] + s.annotations == s.annotations;
  }

  /** With distinct targets a second run is harmless wherever it fails, in every mode. */
  lemma DistinctIsHarmless(c: Secrets, jobs: seq<Job>, mode: string, ownerRef: bool)
    requires CallsWork(jobs) && Reconcile(c, jobs, mode, ownerRef).1.None?
    requires forall i, j :: 0 <= i < j < |jobs| && jobs[i].Put? && jobs[j].Put? ==> jobs[i].key != jobs[j].key
    ensures Harmless(Reconcile(c, jobs, mode, ownerRef).0, jobs, mode, ownerRef)
  {
    forall job | job in jobs && job.Put? ensures Kept(job, jobs, mode, ownerRef) {
      var i :| 0 <= i < |jobs| && jobs[i] == job;
      OnlyIsKept(jobs, i, mode, ownerRef);
    }
    InterruptedIff(c, jobs, mode, ownerRef);
  }

  /** Two secrets overwrite one target; a second run whose second write fails leaves what the first of them brought. */
  lemma RolledBack(key: Key, s: KSecret, t: KSecret, ownerRef: bool)
    requires SizeOf(s.data) <= MAX_SECRET_SIZE && SizeOf(t.data) <= MAX_SECRET_SIZE
    ensures var first := Reconcile(map[], [Put(key, s, Works), Put(key, t, Works)], "overwrite", ownerRef).0;
            var second := Reconcile(first, [Put(key, s, Works), Put(key, t, WriteFails)], "overwrite", ownerRef).0;
            DataOf(first, key) == t.data && DataOf(second, key) == s.data
  {
    var put, failing := Put(key, t, Works), Put(key, t, WriteFails);
    PairRun(map[], Put(key, s, Works), put, "overwrite", ownerRef);
    var first := Reconcile(map[], [Put(key, s, Works), put], "overwrite", ownerRef).0;
    PairRun(first, Put(key, s, Works), failing, "overwrite", ownerRef);
  }

  lemma PairRun(c: Secrets, a: Job, b: Job, mode: string, ownerRef: bool)
    requires Step(c, a, mode, ownerRef).1.None?
    ensures Reconcile(c, [a, b], mode, ownerRef) == Step(Step(c, a, mode, ownerRef).0, b, mode, ownerRef)
  {
    assert [a, b][..1] == [a] && [a][..0] == [];
    assert Reconcile(c, [a], mode, ownerRef) == Step(c, a, mode, ownerRef);
  }
}
