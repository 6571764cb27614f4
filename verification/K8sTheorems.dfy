/** What reconciliation and rotation promise about the cluster. */
module K8sTheorems {
  import opened Text
  import opened Values
  import opened K8sModel
  import opened K8s

  predicate Targets(job: Job, key: Key) {
    job.Put? && job.key == key
  }

  /** The first job for a key. */
  function FirstFor(jobs: seq<Job>, key: Key): (r: Option<KSecret>)
    ensures r.None? <==> forall j :: j in jobs ==> !Targets(j, key)
  {
    if jobs == [] then None
    else
      var last, before := jobs[|jobs| - 1], FirstFor(jobs[..|jobs| - 1], key);
      if before.None? && Targets(last, key) then Some(last.secret) else before
  }

  /** The last job for a key. */
  function LastFor(jobs: seq<Job>, key: Key): (r: Option<KSecret>)
    ensures r.None? <==> forall j :: j in jobs ==> !Targets(j, key)
  {
    if jobs == [] then None
    else
      var last := jobs[|jobs| - 1];
      if Targets(last, key) then Some(last.secret) else LastFor(jobs[..|jobs| - 1], key)
  }

  // ---------- overwrite: the last one wins ----------

  /** What overwriting leaves under a key. */
  function OverwriteResult(prior: Option<KSecret>, jobs: seq<Job>, key: Key, ownerRef: bool): Option<KSecret> {
    match LastFor(jobs, key)
    case None => prior
    case Some(last) =>
      var base := if prior.Some? then prior.value else FirstFor(jobs, key).value;
      Some(KSecret(last.data, last.labels, last.annotations, if ownerRef then last.owners else base.owners, base.typ))
  }

  /** Under overwrite the last secret that names a target decides its data, labels and annotations; type and,
      without owner references, owners stay those of the existing Secret or of the first one created. */
  lemma {:induction false} OverwriteLastWins(c: Secrets, jobs: seq<Job>, mode: string, ownerRef: bool, key: Key)
    requires mode == "overwrite" || mode == ""
    requires Reconcile(c, jobs, mode, ownerRef).1.None?
    ensures At(Reconcile(c, jobs, mode, ownerRef).0, key) == OverwriteResult(At(c, key), jobs, key, ownerRef)
  {
    if jobs != [] {
      var init, last := jobs[..|jobs| - 1], jobs[|jobs| - 1];
      OverwriteLastWins(c, init, mode, ownerRef, key);
      OverwriteStep(Reconcile(c, init, mode, ownerRef).0, last, mode, ownerRef, key);
      assert forall j :: j in jobs <==> j in init || j == last;
    }
  }

  lemma OverwriteStep(c: Secrets, job: Job, mode: string, ownerRef: bool, key: Key)
    requires mode == "overwrite" || mode == ""
    requires Step(c, job, mode, ownerRef).1.None?
    ensures At(Step(c, job, mode, ownerRef).0, key) ==
            if !Targets(job, key) then At(c, key)
            else Some(if key in c then Overwritten(c[key], job.secret, ownerRef) else job.secret)
  {
  }

  // ---------- merge: every key has its last writer ----------

  /** The last job for a target that carries a data key. */
  function LastWriter(jobs: seq<Job>, key: Key, k: string): Option<Bytes> {
    if jobs == [] then None
    else
      var last := jobs[|jobs| - 1];
      if Targets(last, key) && k in last.secret.data then Some(last.secret.data[k])
      else LastWriter(jobs[..|jobs| - 1], key, k)
  }

  function DataAt(s: Option<KSecret>, k: string): Option<Bytes> {
    if s.Some? && k in s.value.data then Some(s.value.data[k]) else None
  }

  /** Under merge each data key of a target holds the bytes of its last writer, and keys nobody writes survive. */
  lemma {:induction false} MergeLastWriter(c: Secrets, jobs: seq<Job>, ownerRef: bool, key: Key, k: string)
    requires Reconcile(c, jobs, "merge", ownerRef).1.None?
    ensures DataAt(At(Reconcile(c, jobs, "merge", ownerRef).0, key), k) ==
            if LastWriter(jobs, key, k).Some? then LastWriter(jobs, key, k) else DataAt(At(c, key), k)
  {
    if jobs != [] {
      MergeLastWriter(c, jobs[..|jobs| - 1], ownerRef, key, k);
    }
  }

  // ---------- skip-if-exists: the first one wins ----------

  /** Under skip-if-exists a Secret that exists is left alone, and a missing one is created by the first that names
      it. */
  lemma {:induction false} SkipFirstWins(c: Secrets, jobs: seq<Job>, ownerRef: bool, key: Key)
    requires Reconcile(c, jobs, "skip-if-exists", ownerRef).1.None?
    ensures At(Reconcile(c, jobs, "skip-if-exists", ownerRef).0, key) ==
            if key in c then At(c, key) else FirstFor(jobs, key)
  {
    if jobs != [] {
      var init, last := jobs[..|jobs| - 1], jobs[|jobs| - 1];
      SkipFirstWins(c, init, ownerRef, key);
    }
  }

  // ---------- fail: all targets are new ----------

  /** The job asks for nothing, or for a Secret of allowed size through calls that work. */
  ghost predicate Sane(job: Job) {
    job.Absent? || (job.Put? && job.api.Works? && SizeOf(job.secret.data) <= MAX_SECRET_SIZE)
  }

  ghost predicate FreshTargets(c: Secrets, jobs: seq<Job>) {
    (forall i :: 0 <= i < |jobs| && jobs[i].Put? ==> jobs[i].key !in c) &&
    forall i, j :: 0 <= i < j < |jobs| && jobs[i].Put? && jobs[j].Put? ==> jobs[i].key != jobs[j].key
  }

  /** Under fail the loop succeeds exactly when all targets are absent before and pairwise distinct, and no Secret lacks
      a name, is too big or meets a failing call; then each target holds its own secret and nothing else has changed. */
  lemma {:induction false} FailModeIff(c: Secrets, jobs: seq<Job>, ownerRef: bool)
    ensures Reconcile(c, jobs, "fail", ownerRef).1.None? <==> FreshTargets(c, jobs) && forall j :: j in jobs ==> Sane(j)
    ensures Reconcile(c, jobs, "fail", ownerRef).1.None? ==>
              forall key :: At(Reconcile(c, jobs, "fail", ownerRef).0, key) ==
                if key in c then At(c, key) else FirstFor(jobs, key)
  {
    if jobs != [] {
      var init, last := jobs[..|jobs| - 1], jobs[|jobs| - 1];
      FailModeIff(c, init, ownerRef);
      assert jobs == init + [last] && (forall j :: j in jobs <==> j in init || j == last);
      FreshIff(c, init, last);
      var (after, err) := Reconcile(c, init, "fail", ownerRef);
      if err.None? {
        FailStep(after, last, ownerRef);
        if last.Put? {
          assert At(after, last.key) == if last.key in c then At(c, last.key) else FirstFor(init, last.key);
        }
      }
    }
  }

  lemma FailStep(c: Secrets, job: Job, ownerRef: bool)
    ensures var (after, err) := Step(c, job, "fail", ownerRef);
            (err.None? <==> Sane(job) && (job.Put? ==> job.key !in c)) &&
            (err.None? ==> after == if job.Put? then c[job.key := job.secret] else c)
  {
  }

  lemma FreshIff(c: Secrets, init: seq<Job>, last: Job)
    ensures FreshTargets(c, init + [last]) <==>
            FreshTargets(c, init) && (last.Put? ==> last.key !in c && FirstFor(init, last.key).None?)
  {
    var jobs := init + [last];
    assert jobs[|init|] == last && forall i :: 0 <= i < |init| ==> jobs[i] == init[i];
    if last.Put? && FirstFor(init, last.key).Some? {
      var j :| j in init && Targets(j, last.key);
      var i :| 0 <= i < |init| && init[i] == j;
      assert jobs[i].key == jobs[|init|].key;
    } else if last.Put? {
      forall i | 0 <= i < |init| && init[i].Put? ensures init[i].key != last.key {
        assert !Targets(init[i], last.key);
      }
    }
  }

  // ---------- nothing else changes ----------

  /** In every mode, success or not, a Secret that no job names is untouched, and none is ever deleted. */
  lemma {:induction false} OthersUntouched(c: Secrets, jobs: seq<Job>, mode: string, ownerRef: bool, key: Key)
    ensures var after := Reconcile(c, jobs, mode, ownerRef).0;
            ((forall j :: j in jobs ==> !Targets(j, key)) ==> At(after, key) == At(c, key)) &&
              (key in c ==> key in after)
  {
    if jobs != [] {
      OthersUntouched(c, jobs[..|jobs| - 1], mode, ownerRef, key);
      assert jobs[|jobs| - 1] in jobs;
    }
  }

  // ---------- running it again ----------

  predicate CallsWork(jobs: seq<Job>) {
    forall j :: j in jobs && j.Put? ==> j.api.Works?
  }

  predicate Updates(mode: string) {
    mode == "merge" || mode == "overwrite" || mode == ""
  }

  /** Under the updating and skipping modes errors do not depend on the cluster. */
  lemma {:induction false} SameErrors(c: Secrets, d: Secrets, jobs: seq<Job>, mode: string, ownerRef: bool)
    requires (Updates(mode) || mode == "skip-if-exists") && CallsWork(jobs)
    ensures Reconcile(c, jobs, mode, ownerRef).1 == Reconcile(d, jobs, mode, ownerRef).1
  {
    if jobs != [] {
      assert jobs[|jobs| - 1] in jobs;
      SameErrors(c, d, jobs[..|jobs| - 1], mode, ownerRef);
    }
  }

  /** Merging all jobs for a key into a Secret. */
  function MergeAll(s: KSecret, jobs: seq<Job>, key: Key, ownerRef: bool): KSecret {
    if jobs == [] then s
    else
      var last, before := jobs[|jobs| - 1], MergeAll(s, jobs[..|jobs| - 1], key, ownerRef);
      if Targets(last, key) then Merged(before, last.secret, ownerRef) else before
  }

  const BLANK := KSecret(map[], map[], map[], [], "")

  lemma MergedAssociates(s: KSecret, d: KSecret, t: KSecret, ownerRef: bool)
    ensures Merged(Merged(s, d, true), t, ownerRef) == Merged(s, Merged(d, t, ownerRef), true)
  {
    assert (s.data + d.data) + t.data == s.data + (d.data + t.data);
    assert (s.labels + d.labels) + t.labels == s.labels + (d.labels + t.labels);
    assert (s.annotations + d.annotations) + t.annotations == s.annotations + (d.annotations + t.annotations);
  }

  /** What the jobs add does not depend on what they are added to. */
  lemma {:induction false} MergeAllAdds(s: KSecret, jobs: seq<Job>, key: Key, ownerRef: bool)
    ensures MergeAll(s, jobs, key, ownerRef) == Merged(s, MergeAll(BLANK, jobs, key, ownerRef), true)
  {
    if jobs == [] {
      assert s.data + map[] == s.data && s.labels + map[] == s.labels && s.annotations + map[] == s.annotations;
    } else {
      var init, last := jobs[..|jobs| - 1], jobs[|jobs| - 1];
      MergeAllAdds(s, init, key, ownerRef);
      if Targets(last, key) {
        MergedAssociates(s, MergeAll(BLANK, init, key, ownerRef), last.secret, ownerRef);
      }
    }
  }

  lemma MergeAllTwice(s: KSecret, jobs: seq<Job>, key: Key, ownerRef: bool)
    ensures MergeAll(MergeAll(s, jobs, key, ownerRef), jobs, key, ownerRef) == MergeAll(s, jobs, key, ownerRef)
  {
    var d := MergeAll(BLANK, jobs, key, ownerRef);
    MergeAllAdds(s, jobs, key, ownerRef);
    MergeAllAdds(Merged(s, d, true), jobs, key, ownerRef);
    MergedAssociates(s, d, d, true);
    MergeOntoItself(d, true);
  }

  lemma {:induction false} MergeNothing(s: KSecret, jobs: seq<Job>, key: Key, ownerRef: bool)
    requires forall j :: j in jobs ==> !Targets(j, key)
    ensures MergeAll(s, jobs, key, ownerRef) == s
  {
    if jobs != [] {
      assert jobs[|jobs| - 1] in jobs;
      MergeNothing(s, jobs[..|jobs| - 1], key, ownerRef);
    }
  }

  /** Where the merges into a target start: at the existing Secret, or at the first one that names it. */
  function MergeBase(c: Secrets, jobs: seq<Job>, key: Key): Option<KSecret> {
    if key in c then At(c, key) else FirstFor(jobs, key)
  }

  lemma {:induction false} MergeIsMergeAll(c: Secrets, jobs: seq<Job>, ownerRef: bool, key: Key)
    requires Reconcile(c, jobs, "merge", ownerRef).1.None?
    ensures At(Reconcile(c, jobs, "merge", ownerRef).0, key) ==
            match MergeBase(c, jobs, key) case None => None case Some(base) => Some(MergeAll(base, jobs, key, ownerRef))
  {
    if jobs != [] {
      var init, last := jobs[..|jobs| - 1], jobs[|jobs| - 1];
      MergeIsMergeAll(c, init, ownerRef, key);
      if Targets(last, key) && MergeBase(c, init, key).None? {
        MergeNothing(last.secret, init, key, ownerRef);
        MergeOntoItself(last.secret, ownerRef);
      }
    }
  }

  lemma MergeOntoItself(s: KSecret, ownerRef: bool)
    ensures Merged(s, s, ownerRef) == s
  {
    assert s.data + s.data == s.data && s.labels + s.labels == s.labels &&
           s.annotations + s.annotations == s.annotations;
  }

  lemma {:induction false} AllCreated(c: Secrets, jobs: seq<Job>, mode: string, ownerRef: bool)
    requires Reconcile(c, jobs, mode, ownerRef).1.None?
    ensures forall j :: j in jobs && j.Put? ==> j.key in Reconcile(c, jobs, mode, ownerRef).0
  {
    if jobs != [] {
      AllCreated(c, jobs[..|jobs| - 1], mode, ownerRef);
    }
  }

  /** Outside the updating modes existing targets are left alone. */
  lemma {:induction false} PresentLeaves(c: Secrets, jobs: seq<Job>, mode: string, ownerRef: bool)
    requires !Updates(mode)
    requires forall j :: j in jobs && j.Put? ==> j.key in c
    ensures Reconcile(c, jobs, mode, ownerRef).0 == c
  {
    if jobs != [] {
      assert jobs[|jobs| - 1] in jobs;
      PresentLeaves(c, jobs[..|jobs| - 1], mode, ownerRef);
    }
  }

  lemma CleanRunTwice(c: Secrets, jobs: seq<Job>, mode: string, ownerRef: bool)
    requires CallsWork(jobs) && Reconcile(c, jobs, mode, ownerRef).1.None?
    ensures var after := Reconcile(c, jobs, mode, ownerRef).0;
            Reconcile(after, jobs, mode, ownerRef).0 == after
  {
    var after := Reconcile(c, jobs, mode, ownerRef).0;
    var again := Reconcile(after, jobs, mode, ownerRef).0;
    if !Updates(mode) && mode != "skip-if-exists" {
      AllCreated(c, jobs, mode, ownerRef);
      PresentLeaves(after, jobs, mode, ownerRef);
    } else {
      SameErrors(c, after, jobs, mode, ownerRef);
      forall key ensures At(again, key) == At(after, key) {
        if mode == "merge" {
          MergeIsMergeAll(c, jobs, ownerRef, key);
          MergeIsMergeAll(after, jobs, ownerRef, key);
          if MergeBase(c, jobs, key).Some? {
            MergeAllTwice(MergeBase(c, jobs, key).value, jobs, key, ownerRef);
          }
        } else if mode == "skip-if-exists" {
          SkipFirstWins(c, jobs, ownerRef, key);
          SkipFirstWins(after, jobs, ownerRef, key);
        } else {
          OverwriteLastWins(c, jobs, mode, ownerRef, key);
          OverwriteLastWins(after, jobs, mode, ownerRef, key);
        }
      }
      SameMap(again, after);
    }
  }

  lemma {:induction false} ErrorSticks(c: Secrets, jobs: seq<Job>, n: nat, mode: string, ownerRef: bool)
    requires n <= |jobs| && Reconcile(c, jobs[..n], mode, ownerRef).1.Some?
    ensures Reconcile(c, jobs, mode, ownerRef) == Reconcile(c, jobs[..n], mode, ownerRef)
    decreases |jobs|
  {
    if n == |jobs| {
      assert jobs[..n] == jobs;
    } else {
      assert jobs[..|jobs| - 1][..n] == jobs[..n];
      ErrorSticks(c, jobs[..|jobs| - 1], n, mode, ownerRef);
    }
  }

  /** Where a run that fails stops: after a clean prefix, at a step that changes nothing. */
  lemma {:induction false} FirstError(c: Secrets, jobs: seq<Job>, mode: string, ownerRef: bool) returns (n: nat)
    requires Reconcile(c, jobs, mode, ownerRef).1.Some?
    ensures n < |jobs|
    ensures var (after, err) := Reconcile(c, jobs, mode, ownerRef);
            Reconcile(c, jobs[..n], mode, ownerRef) == (after, None) &&
              Step(after, jobs[n], mode, ownerRef) == (after, err)
  {
    var init := jobs[..|jobs| - 1];
    if Reconcile(c, init, mode, ownerRef).1.None? {
      n := |jobs| - 1;
    } else {
      n := FirstError(c, init, mode, ownerRef);
      assert init[..n] == jobs[..n];
    }
  }

  /** Running the same reconciliation a second time changes nothing, in any mode, even when several secrets share
      a target and even when the first run stopped at an error. */
  lemma ReconcileTwice(c: Secrets, jobs: seq<Job>, mode: string, ownerRef: bool)
    requires CallsWork(jobs)
    ensures var after := Reconcile(c, jobs, mode, ownerRef).0;
            Reconcile(after, jobs, mode, ownerRef).0 == after
  {
    var (after, err) := Reconcile(c, jobs, mode, ownerRef);
    if err.None? {
      CleanRunTwice(c, jobs, mode, ownerRef);
    } else {
      var n := FirstError(c, jobs, mode, ownerRef);
      assert CallsWork(jobs[..n]);
      CleanRunTwice(c, jobs[..n], mode, ownerRef);
      var upTo := jobs[..n + 1];
      assert upTo[..n] == jobs[..n];
      ErrorSticks(after, jobs, n + 1, mode, ownerRef);
    }
  }

  // ---------- sizes ----------

  /** The entries of `a` that `b` replaces. */
  function Replaced(a: Data, b: Data): Data {
    map k | k in a && k in b :: a[k]
  }

  /** Adding data costs its size less that of the entries it replaces. */
  lemma {:induction false} SizeOfUnion(a: Data, b: Data)
    ensures SizeOf(a + b) + SizeOf(Replaced(a, b)) == SizeOf(a) + SizeOf(b)
    decreases |b|
  {
    if b == map[] {
      assert a + b == a && Replaced(a, b) == map[];
    } else {
      var k :| k in b;
      SizeOfUnion(a - {k}, b - {k});
      SizeWithout(b, k);
      UnionWithout(a, b, k);
      ReplacedWithout(a, b, k);
    }
  }

  lemma UnionWithout(a: Data, b: Data, k: string)
    requires k in b
    ensures SizeOf(a + b) == |k| + |b[k]| + SizeOf((a - {k}) + (b - {k}))
  {
    SizeWithout(a + b, k);
    assert (a + b) - {k} == (a - {k}) + (b - {k});
  }

  lemma ReplacedWithout(a: Data, b: Data, k: string)
    requires k in b
    ensures SizeOf(a) - SizeOf(Replaced(a, b)) == SizeOf(a - {k}) - SizeOf(Replaced(a - {k}, b - {k}))
  {
    var r := Replaced(a, b);
    assert r - {k} == Replaced(a - {k}, b - {k});
    if k in a {
      SizeWithout(a, k);
      SizeWithout(r, k);
    } else {
      assert a - {k} == a && r - {k} == r;
    }
  }

  function CountFor(jobs: seq<Job>, key: Key): nat {
    if jobs == [] then 0 else CountFor(jobs[..|jobs| - 1], key) + if Targets(jobs[|jobs| - 1], key) then 1 else 0
  }

  /** The size of a Secret; nothing for one that does not exist. */
  ghost function SizeAt(c: Secrets, key: Key): nat {
    if key in c then SizeOf(c[key].data) else 0
  }

  lemma StepGrowth(c: Secrets, job: Job, mode: string, ownerRef: bool, key: Key)
    ensures SizeAt(Step(c, job, mode, ownerRef).0, key) <=
            SizeAt(c, key) + if Targets(job, key) then MAX_SECRET_SIZE else 0
  {
    if Targets(job, key) && key in c {
      SizeOfUnion(c[key].data, job.secret.data);
    }
  }

  /** In every mode a Secret grows by at most the single-Secret limit with each job that names it. */
  lemma {:induction false} SizeGrowth(c: Secrets, jobs: seq<Job>, mode: string, ownerRef: bool, key: Key)
    ensures SizeAt(Reconcile(c, jobs, mode, ownerRef).0, key) <= SizeAt(c, key) + CountFor(jobs, key) * MAX_SECRET_SIZE
  {
    if jobs != [] {
      var init, last := jobs[..|jobs| - 1], jobs[|jobs| - 1];
      SizeGrowth(c, init, mode, ownerRef, key);
      StepGrowth(Reconcile(c, init, mode, ownerRef).0, last, mode, ownerRef, key);
    }
  }

  /** Outside merge a Secret keeps its data or ends within the limit. */
  lemma {:induction false} SizeLimited(c: Secrets, jobs: seq<Job>, mode: string, ownerRef: bool, key: Key)
    requires mode != "merge" && key in Reconcile(c, jobs, mode, ownerRef).0
    ensures var after := Reconcile(c, jobs, mode, ownerRef).0;
            SizeOf(after[key].data) <= MAX_SECRET_SIZE || (key in c && after[key].data == c[key].data)
  {
    if jobs != [] {
      var init := jobs[..|jobs| - 1];
      if key in Reconcile(c, init, mode, ownerRef).0 {
        SizeLimited(c, init, mode, ownerRef, key);
      }
    }
  }

  lemma SizeOfOne(k: string, v: Bytes)
    ensures SizeOf(map[k := v]) == |k| + |v|
  {
    SizeWithout(map[k := v], k);
    assert map[k := v] - {k} == map[];
  }

  /** A merge that goes through ends within the limit exactly when what was there and what comes in,
      less what is replaced, fit: the check that is made looks at what comes in only. */
  lemma MergeWithinLimitIff(c: Secrets, key: Key, s: KSecret, api: Api, ownerRef: bool)
    requires key in c && Step(c, Put(key, s, api), "merge", ownerRef).1.None?
    ensures SizeAt(Step(c, Put(key, s, api), "merge", ownerRef).0, key) <= MAX_SECRET_SIZE <==>
            SizeOf(c[key].data) + SizeOf(s.data) - SizeOf(Replaced(c[key].data, s.data)) <= MAX_SECRET_SIZE
  {
    SizeOfUnion(c[key].data, s.data);
  }

  function DataOf(c: Secrets, key: Key): Data {
    if key in c then c[key].data else map[]
  }

  lemma MergeRunData(c: Secrets, jobs: seq<Job>, ownerRef: bool, key: Key)
    requires Reconcile(c, jobs, "merge", ownerRef).1.None?
    ensures DataOf(Reconcile(c, jobs, "merge", ownerRef).0, key) ==
            DataOf(c, key) + MergeAll(BLANK, jobs, key, ownerRef).data
  {
    var after, incoming := Reconcile(c, jobs, "merge", ownerRef).0, MergeAll(BLANK, jobs, key, ownerRef).data;
    var left, right := DataOf(after, key), DataOf(c, key) + incoming;
    forall k ensures (k in left <==> k in right) && (k in left ==> left[k] == right[k]) {
      MergeLastWriter(c, jobs, ownerRef, key, k);
      MergeAllWriters(jobs, key, k, ownerRef);
    }
  }

  /** The same for a whole run and any target, existing or not: what comes in is the last value written under each data
      key. */
  lemma MergeRunWithinLimitIff(c: Secrets, jobs: seq<Job>, ownerRef: bool, key: Key)
    requires Reconcile(c, jobs, "merge", ownerRef).1.None?
    ensures var incoming := MergeAll(BLANK, jobs, key, ownerRef).data;
            SizeAt(Reconcile(c, jobs, "merge", ownerRef).0, key) <= MAX_SECRET_SIZE <==>
            SizeAt(c, key) + SizeOf(incoming) - SizeOf(Replaced(DataOf(c, key), incoming)) <= MAX_SECRET_SIZE
  {
    MergeRunData(c, jobs, ownerRef, key);
    SizeOfUnion(DataOf(c, key), MergeAll(BLANK, jobs, key, ownerRef).data);
  }

  /** Merging all jobs for a target leaves the last value written under each data key. */
  lemma {:induction false} MergeAllWriters(jobs: seq<Job>, key: Key, k: string, ownerRef: bool)
    ensures DataAt(Some(MergeAll(BLANK, jobs, key, ownerRef)), k) == LastWriter(jobs, key, k)
  {
    if jobs != [] {
      MergeAllWriters(jobs[..|jobs| - 1], key, k, ownerRef);
    }
  }

  /** Merge checks only what comes in: two Secrets at the limit merge into one of twice the limit, without an error. */
  lemma MergeExceedsLimit(key: Key, prior: KSecret, s: KSecret, big: Bytes, ownerRef: bool)
    requires |big| == MAX_SECRET_SIZE - 1 && prior.data == map["a" := big] && s.data == map["b" := big]
    ensures var (after, err) := Reconcile(map[key := prior], [Put(key, s, Works)], "merge", ownerRef);
            SizeOf(prior.data) == MAX_SECRET_SIZE && SizeOf(s.data) == MAX_SECRET_SIZE &&
            err.None? && key in after && SizeOf(after[key].data) == 2 * MAX_SECRET_SIZE
  {
    SizeOfOne("a", big);
    SizeOfOne("b", big);
    var both := prior.data + s.data;
    assert both - {"b"} == map["a" := big];
    SizeWithout(both, "b");
    var job := Put(key, s, Works);
    assert [job][..0] == [];
    assert Reconcile(map[key := prior], [job], "merge", ownerRef) == Step(map[key := prior], job, "merge", ownerRef);
  }
}
