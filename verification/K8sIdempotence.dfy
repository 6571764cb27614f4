/** Running the reconcile loop again from the same pod, configuration and Keeper state. Each run makes its data anew,
    in an order of its own where several fields go under one key. */
module K8sIdempotence {
  import opened Text
  import opened Values
  import opened Annotations
  import opened Records
  import opened K8sModel
  import opened K8s
  import opened K8sTheorems
  import opened K8sRotation

  /** What both runs start from. */
  datatype Setting = Setting(pod: Pod, cfg: InjectionConfig, k: Keeper)

  function AllWork(n: nat): seq<Api> {
    seq(n, _ => Works)
  }

  /** The loop is entered: the batch has an entry for every secret. */
  ghost predicate Starts(st: Setting) {
    BatchSucceeds(st.k, st.cfg)
  }

  function RefAt(st: Setting, i: nat): SecretRef
    requires i < |st.cfg.secrets|
  {
    st.cfg.secrets[i]
  }

  function EntryOf(st: Setting, i: nat): Entry
    requires i < |st.cfg.secrets| && st.k.vault.records.Some?
  {
    BatchEntry(st.k, st.k.vault.records.value, RefAt(st, i))
  }

  /** The jobs of a run whose calls go through: for every secret one that its record can give rise to.
      What comes after an error does not matter. */
  ghost predicate IsRun(st: Setting, jobs: seq<Job>)
    requires st.k.vault.records.Some?
  {
    |jobs| == |st.cfg.secrets| && forall i: nat :: i < |jobs| ==> CanBe(st, i, jobs[i])
  }

  ghost predicate CanBe(st: Setting, i: nat, job: Job)
    requires i < |st.cfg.secrets| && st.k.vault.records.Some?
  {
    JobOf(st.pod, st.cfg, RefAt(st, i), EntryOf(st, i), Works, job)
  }

  ghost function After(st: Setting, c: Secrets, jobs: seq<Job>): Secrets {
    Reconcile(c, jobs, st.cfg.k8sSecretMode, st.cfg.k8sSecretOwnerRef).0
  }

  /** Whatever the cluster and the map orders, a second run changes nothing. */
  ghost predicate Idempotent(st: Setting)
    requires st.k.vault.records.Some?
  {
    forall c, js, js2 :: IsRun(st, js) && IsRun(st, js2) ==> After(st, After(st, c, js), js2) == After(st, c, js)
  }

  // ---------- what one secret can give rise to ----------

  /** The secret becomes a Secret with a name. */
  predicate IsPut(st: Setting, i: nat)
    requires i < |st.cfg.secrets| && st.k.vault.records.Some?
  {
    EntryOf(st, i).Have? && TargetName(RefAt(st, i), st.cfg) != ""
  }

  function KeyAt(st: Setting, i: nat): Key
    requires i < |st.cfg.secrets|
  {
    TargetKey(st.pod, RefAt(st, i), st.cfg)
  }

  ghost predicate Projects(st: Setting, i: nat, p: Data)
    requires i < |st.cfg.secrets| && st.k.vault.records.Some?
  {
    IsPut(st, i) && IsProjection(p, RefAt(st, i), EntryOf(st, i).fields)
  }

  predicate SkippedFor(st: Setting, i: nat)
    requires i < |st.cfg.secrets| && st.k.vault.records.Some?
  {
    EntryOf(st, i).Missing?
  }

  /** The projection is within the limit. */
  ghost predicate Fits(st: Setting, i: nat, p: Data)
    requires i < |st.cfg.secrets| && st.k.vault.records.Some?
  {
    Projects(st, i, p) && SizeOf(p) <= MAX_SECRET_SIZE
  }

  /** Some order of the fields lets the loop get past the secret. */
  ghost predicate CanPass(st: Setting, i: nat)
    requires i < |st.cfg.secrets| && st.k.vault.records.Some?
  {
    SkippedFor(st, i) || exists p :: Fits(st, i, p)
  }

  /** Every order does. */
  ghost predicate AlwaysPasses(st: Setting, i: nat)
    requires i < |st.cfg.secrets| && st.k.vault.records.Some?
  {
    SkippedFor(st, i) || (IsPut(st, i) && forall p :: Projects(st, i, p) ==> SizeOf(p) <= MAX_SECRET_SIZE)
  }

  /** The loop can get past the secret and all before it. */
  ghost predicate Within(st: Setting, i: nat)
    requires i < |st.cfg.secrets| && st.k.vault.records.Some?
  {
    forall j: nat :: j <= i ==> CanPass(st, j)
  }

  /** The data of the secret is the same in every order. */
  ghost predicate Fixed(st: Setting, i: nat)
    requires i < |st.cfg.secrets| && st.k.vault.records.Some?
  {
    IsPut(st, i) ==> Unambiguous(RefAt(st, i), EntryOf(st, i).fields)
  }

  /** The Secret made of the secret with the given data. */
  function SecretWith(st: Setting, i: nat, p: Data): KSecret
    requires i < |st.cfg.secrets|
  {
    var ref := RefAt(st, i);
    KSecret(
      p, LABELS, map["keeper.security/source-pod" := st.pod.name, "keeper.security/source-record" := ref.name],
      if st.cfg.k8sSecretOwnerRef then [Owner(st.pod.name, st.pod.uid)] else [],
      if ref.k8sSecretType != "" then ref.k8sSecretType
      else if st.cfg.k8sSecretType != "" then st.cfg.k8sSecretType else "Opaque")
  }

  function PutWith(st: Setting, i: nat, p: Data): Job
    requires i < |st.cfg.secrets|
  {
    Put(KeyAt(st, i), SecretWith(st, i, p), Works)
  }

  lemma PutsAre(st: Setting, i: nat, job: Job)
    requires i < |st.cfg.secrets| && st.k.vault.records.Some? && job.Put?
    ensures CanBe(st, i, job) <==> Projects(st, i, job.secret.data) && job == PutWith(st, i, job.secret.data)
  {
  }

  /** The kind of job does not depend on the order, and neither does its target. */
  lemma JobKind(st: Setting, i: nat, job: Job)
    requires i < |st.cfg.secrets| && st.k.vault.records.Some? && CanBe(st, i, job)
    ensures job.Absent? <==> SkippedFor(st, i)
    ensures job.Put? <==> IsPut(st, i)
    ensures job.Put? ==> job.key == KeyAt(st, i) && job.api.Works?
  {
  }

  lemma FixedJob(st: Setting, i: nat, job: Job, job2: Job)
    requires i < |st.cfg.secrets| && st.k.vault.records.Some? && CanBe(st, i, job) && CanBe(st, i, job2) && Fixed(st, i)
    ensures job == job2
  {
    JobKind(st, i, job);
    JobKind(st, i, job2);
    if job.Put? {
      PutsAre(st, i, job);
      PutsAre(st, i, job2);
      ProjectionsEqual(job.secret.data, job2.secret.data, RefAt(st, i), EntryOf(st, i).fields);
    }
  }

  lemma AlwaysIsSane(st: Setting, i: nat, job: Job)
    requires i < |st.cfg.secrets| && st.k.vault.records.Some? && CanBe(st, i, job) && AlwaysPasses(st, i)
    ensures Sane(job)
  {
    JobKind(st, i, job);
    if job.Put? {
      PutsAre(st, i, job);
    }
  }

  /** A secret that cannot be passed stops the loop and changes nothing. */
  lemma NeverPasses(st: Setting, i: nat, job: Job, c: Secrets)
    requires i < |st.cfg.secrets| && st.k.vault.records.Some? && CanBe(st, i, job) && !CanPass(st, i)
    ensures var (after, err) := Step(c, job, st.cfg.k8sSecretMode, st.cfg.k8sSecretOwnerRef);
            after == c && err.Some?
  {
    JobKind(st, i, job);
    if job.Put? {
      PutsAre(st, i, job);
      assert !Fits(st, i, job.secret.data);
    }
  }

  // ---------- runs ----------

  /** How many secrets the loop can get past at most. */
  lemma {:induction false} StopOf(st: Setting, m: nat) returns (stop: nat)
    requires m <= |st.cfg.secrets| && st.k.vault.records.Some?
    ensures stop <= m && (stop < m ==> !CanPass(st, stop)) && forall i: nat :: i < stop ==> CanPass(st, i)
  {
    if m == 0 {
      stop := 0;
    } else {
      stop := StopOf(st, m - 1);
      if stop == m - 1 && CanPass(st, m - 1) {
        stop := m;
      }
    }
  }

  /** Only the secrets up to the first one that cannot be passed count. */
  lemma UpToStop(st: Setting, c: Secrets, js: seq<Job>, stop: nat)
    requires st.k.vault.records.Some? && IsRun(st, js)
    requires stop <= |js| && (stop < |js| ==> !CanPass(st, stop))
    ensures After(st, c, js) == After(st, c, js[..stop])
  {
    var mode, ownerRef := st.cfg.k8sSecretMode, st.cfg.k8sSecretOwnerRef;
    if stop == |js| {
      assert js[..stop] == js;
    } else if Reconcile(c, js[..stop], mode, ownerRef).1.Some? {
      ErrorSticks(c, js, stop, mode, ownerRef);
    } else {
      NeverPasses(st, stop, js[stop], After(st, c, js[..stop]));
      assert js[..stop + 1][..stop] == js[..stop];
      ErrorSticks(c, js, stop + 1, mode, ownerRef);
    }
  }

  /** Some job for every secret, one that lets the loop pass where there is one. */
  ghost function SomeJob(st: Setting, i: nat): (job: Job)
    requires Starts(st) && i < |st.cfg.secrets|
    ensures CanBe(st, i, job) && (CanPass(st, i) ==> Sane(job))
  {
    assert RefAt(st, i) in st.cfg.secrets;
    if SkippedFor(st, i) then Absent
    else if !IsPut(st, i) then Unnamed
    else if CanPass(st, i) then
      var p :| Fits(st, i, p);
      PutsAre(st, i, PutWith(st, i, p));
      PutWith(st, i, p)
    else
      var p := SomeProjection(RefAt(st, i), EntryOf(st, i).fields);
      PutsAre(st, i, PutWith(st, i, p));
      PutWith(st, i, p)
  }

  /** A run in which secret `i` has the given data and all others pass where they can. */
  ghost function RunWith(st: Setting, i: nat, p: Data): (js: seq<Job>)
    requires Starts(st) && i < |st.cfg.secrets| && Projects(st, i, p)
    ensures IsRun(st, js) && js[i] == PutWith(st, i, p)
    ensures forall j: nat :: j < |js| && j != i && CanPass(st, j) ==> Sane(js[j])
  {
    PutsAre(st, i, PutWith(st, i, p));
    seq(|st.cfg.secrets|, j requires 0 <= j < |st.cfg.secrets| => if j == i then PutWith(st, i, p) else SomeJob(st, j))
  }

  /** What a call to the webhook asks for, up to its first error, is the start of a run, and all that the run does. */
  lemma JobsAreARun(st: Setting, c: Secrets, jobs: seq<Job>) returns (js: seq<Job>)
    requires Starts(st) && JobsOf(st.pod, st.cfg, st.k, st.k.vault.records.value, AllWork(|st.cfg.secrets|), jobs)
    requires |jobs| == |st.cfg.secrets| || Reconcile(c, jobs, st.cfg.k8sSecretMode, st.cfg.k8sSecretOwnerRef).1.Some?
    ensures IsRun(st, js) && jobs <= js && After(st, c, js) == After(st, c, jobs)
  {
    js := seq(|st.cfg.secrets|, i requires 0 <= i < |st.cfg.secrets| => if i < |jobs| then jobs[i] else SomeJob(st, i));
    assert js[..|jobs|] == jobs;
    if |jobs| == |st.cfg.secrets| {
      assert js == jobs;
    } else {
      ErrorSticks(c, js, |jobs|, st.cfg.k8sSecretMode, st.cfg.k8sSecretOwnerRef);
    }
  }

  /** In the modes that go on over existing targets sane jobs never meet an error. */
  lemma {:induction false} SaneIsClean(c: Secrets, jobs: seq<Job>, mode: string, ownerRef: bool)
    requires (Updates(mode) || mode == "skip-if-exists") && forall j :: j in jobs ==> Sane(j)
    ensures Reconcile(c, jobs, mode, ownerRef).1.None?
  {
    if jobs != [] {
      SaneIsClean(c, jobs[..|jobs| - 1], mode, ownerRef);
      assert jobs[|jobs| - 1] in jobs;
    }
  }

  /** Projections have the same keys. */
  lemma SameKeys(p: Data, q: Data, ref: SecretRef, fields: Fields)
    requires IsProjection(p, ref, fields) && IsProjection(q, ref, fields)
    ensures p.Keys == q.Keys && p + q == q
  {
    forall key ensures key in p <==> key in q {
      assert OverlaysAt(p, map[], ref, fields, fields.Keys, key) && OverlaysAt(q, map[], ref, fields, fields.Keys, key);
    }
  }

  /** Where fields with different bytes go under one key there is another projection than any given one. */
  lemma AnotherProjection(p: Data, ref: SecretRef, fields: Fields) returns (q: Data)
    requires !Unambiguous(ref, fields)
    ensures IsProjection(q, ref, fields) && q != p
  {
    DeterminedIffUnambiguous(ref, fields);
    var a, b :| IsProjection(a, ref, fields) && IsProjection(b, ref, fields) && a != b;
    q := if a == p then b else a;
  }

  // ---------- one secret for a target ----------

  /** What one job leaves at its target in the modes that go on over existing targets. */
  ghost function Leaves(prior: Option<KSecret>, s: KSecret, mode: string, ownerRef: bool): Option<KSecret> {
    if SizeOf(s.data) > MAX_SECRET_SIZE then prior
    else
      match prior
      case None => Some(s)
      case Some(e) =>
        if mode == "merge" then Some(Merged(e, s, ownerRef))
        else if Updates(mode) then Some(Overwritten(e, s, ownerRef))
        else prior
  }

  lemma {:induction false} SuffixLeaves(c: Secrets, jobs: seq<Job>, m: nat, mode: string, ownerRef: bool, key: Key)
    requires m <= |jobs| && forall j :: m <= j < |jobs| ==> !Targets(jobs[j], key)
    ensures At(Reconcile(c, jobs, mode, ownerRef).0, key) == At(Reconcile(c, jobs[..m], mode, ownerRef).0, key)
    decreases |jobs|
  {
    if m == |jobs| {
      assert jobs[..m] == jobs;
    } else {
      var init := jobs[..|jobs| - 1];
      assert init[..m] == jobs[..m];
      SuffixLeaves(c, init, m, mode, ownerRef, key);
    }
  }

  lemma OneStep(c: Secrets, job: Job, mode: string, ownerRef: bool)
    requires (Updates(mode) || mode == "skip-if-exists") && job.Put? && job.api.Works?
    ensures At(Step(c, job, mode, ownerRef).0, job.key) == Leaves(At(c, job.key), job.secret, mode, ownerRef)
  {
  }

  /** A target that only job `i` names, once the loop gets there. */
  lemma OnlyWriter(c: Secrets, jobs: seq<Job>, i: nat, mode: string, ownerRef: bool)
    requires (Updates(mode) || mode == "skip-if-exists") && i < |jobs| && jobs[i].Put? && jobs[i].api.Works?
    requires forall j :: 0 <= j < i ==> Sane(jobs[j])
    requires forall j :: 0 <= j < |jobs| && j != i ==> !Targets(jobs[j], jobs[i].key)
    ensures At(Reconcile(c, jobs, mode, ownerRef).0, jobs[i].key) ==
            Leaves(At(c, jobs[i].key), jobs[i].secret, mode, ownerRef)
  {
    var key, upTo := jobs[i].key, jobs[..i + 1];
    SuffixLeaves(c, jobs, i + 1, mode, ownerRef, key);
    assert upTo[..i] == jobs[..i] && upTo[i] == jobs[i];
    SaneIsClean(c, jobs[..i], mode, ownerRef);
    OthersUntouched(c, jobs[..i], mode, ownerRef, key);
    OneStep(Reconcile(c, jobs[..i], mode, ownerRef).0, jobs[i], mode, ownerRef);
  }

  ghost predicate DistinctKeys(st: Setting)
    requires st.k.vault.records.Some?
  {
    forall i: nat, j: nat :: i < j < |st.cfg.secrets| && IsPut(st, i) && IsPut(st, j) ==> KeyAt(st, i) != KeyAt(st, j)
  }

  /** Two runs that differ in one secret that both get to, and what they leave at its target. */
  lemma RunTwiceAt(st: Setting, i: nat, p: Data, q: Data)
    requires Starts(st) && DistinctKeys(st) && i < |st.cfg.secrets| && Within(st, i) && Projects(st, i, p) &&
             Projects(st, i, q)
    requires Updates(st.cfg.k8sSecretMode) || st.cfg.k8sSecretMode == "skip-if-exists"
    ensures var first := After(st, map[], RunWith(st, i, p));
            var mode, ownerRef := st.cfg.k8sSecretMode, st.cfg.k8sSecretOwnerRef;
            At(first, KeyAt(st, i)) == Leaves(None, SecretWith(st, i, p), mode, ownerRef) &&
            At(After(st, first, RunWith(st, i, q)), KeyAt(st, i)) ==
              Leaves(Leaves(None, SecretWith(st, i, p), mode, ownerRef), SecretWith(st, i, q), mode, ownerRef)
  {
    var js, js2 := RunWith(st, i, p), RunWith(st, i, q);
    var mode, ownerRef := st.cfg.k8sSecretMode, st.cfg.k8sSecretOwnerRef;
    OnlyTarget(st, js, i);
    OnlyTarget(st, js2, i);
    OnlyWriter(map[], js, i, mode, ownerRef);
    OnlyWriter(After(st, map[], js), js2, i, mode, ownerRef);
  }

  lemma OnlyTarget(st: Setting, js: seq<Job>, i: nat)
    requires Starts(st) && DistinctKeys(st) && IsRun(st, js) && i < |js| && IsPut(st, i)
    ensures forall j :: 0 <= j < |js| && j != i ==> !Targets(js[j], KeyAt(st, i))
  {
    forall j: nat | j < |js| && j != i ensures !Targets(js[j], KeyAt(st, i)) {
      JobKind(st, j, js[j]);
    }
  }

  // ---------- distinct targets ----------

  /** The jobs up to a point, where none of them depends on an order. */
  lemma FixedPrefix(st: Setting, js: seq<Job>, js2: seq<Job>, m: nat)
    requires st.k.vault.records.Some? && IsRun(st, js) && IsRun(st, js2) && m <= |js|
    requires forall i: nat :: i < m ==> Fixed(st, i)
    ensures js[..m] == js2[..m]
  {
    forall i: nat | i < m ensures js[i] == js2[i] {
      FixedJob(st, i, js[i], js2[i]);
    }
  }

  lemma RunCallsWork(st: Setting, js: seq<Job>)
    requires st.k.vault.records.Some? && IsRun(st, js)
    ensures CallsWork(js)
  {
    forall j | j in js && j.Put? ensures j.api.Works? {
      var i: nat :| i < |js| && js[i] == j;
      JobKind(st, i, js[i]);
    }
  }

  /** If no data depends on an order, as far as the loop can get, a second run changes nothing, in any mode. */
  lemma FixedIsIdempotent(st: Setting)
    requires st.k.vault.records.Some?
    requires forall i: nat :: i < |st.cfg.secrets| && Within(st, i) ==> Fixed(st, i)
    ensures Idempotent(st)
  {
    var stop := StopOf(st, |st.cfg.secrets|);
    forall i: nat | i < stop ensures Fixed(st, i) {
      assert Within(st, i);
    }
    forall c, js, js2 | IsRun(st, js) && IsRun(st, js2) ensures After(st, After(st, c, js), js2) == After(st, c, js) {
      UpToStop(st, c, js, stop);
      UpToStop(st, After(st, c, js), js2, stop);
      FixedPrefix(st, js, js2, stop);
      RunCallsWork(st, js);
      assert CallsWork(js[..stop]);
      ReconcileTwice(c, js[..stop], st.cfg.k8sSecretMode, st.cfg.k8sSecretOwnerRef);
    }
  }

  /** With distinct targets and an updating mode it takes just that: a second run changes nothing, whatever the orders,
      exactly when no secret the loop can get past has fields with different bytes under one key. */
  lemma UpdatingIff(st: Setting)
    requires Starts(st) && DistinctKeys(st) && Updates(st.cfg.k8sSecretMode)
    ensures Idempotent(st) <==> forall i: nat :: i < |st.cfg.secrets| && Within(st, i) ==> Fixed(st, i)
  {
    if forall i: nat :: i < |st.cfg.secrets| && Within(st, i) ==> Fixed(st, i) {
      FixedIsIdempotent(st);
    } else {
      var i: nat :| i < |st.cfg.secrets| && Within(st, i) && !Fixed(st, i);
      AmbiguousBreaks(st, i);
    }
  }

  lemma AmbiguousBreaks(st: Setting, i: nat)
    requires Starts(st) && DistinctKeys(st) && Updates(st.cfg.k8sSecretMode)
    requires i < |st.cfg.secrets| && Within(st, i) && !Fixed(st, i)
    ensures !Idempotent(st)
  {
    assert CanPass(st, i);
    var p :| Fits(st, i, p);
    var q := AnotherProjection(p, RefAt(st, i), EntryOf(st, i).fields);
    SameKeys(p, q, RefAt(st, i), EntryOf(st, i).fields);
    if SizeOf(q) <= MAX_SECRET_SIZE {
      RunTwiceAt(st, i, p, q);
    } else {
      RunTwiceAt(st, i, q, p);
    }
  }

  // ---------- skip-if-exists ----------

  /** A secret before the `i`-th has the target. */
  predicate NamedBefore(st: Setting, i: nat, key: Key)
    requires i < |st.cfg.secrets| && st.k.vault.records.Some?
  {
    exists j: nat :: j < i && IsPut(st, j) && KeyAt(st, j) == key
  }

  /** From a secret on that is refused in some orders only, no secret that can be reached has a target that is not named
      before it. */
  ghost predicate NoneLeftOut(st: Setting)
    requires st.k.vault.records.Some?
  {
    forall i: nat, j: nat ::
      i <= j < |st.cfg.secrets| && Within(st, j) && !AlwaysPasses(st, i) && IsPut(st, j) ==>
        NamedBefore(st, i, KeyAt(st, j))
  }

  /** Under skip-if-exists only the size of the data counts: a second run changes nothing exactly when nothing is left
      out by the first one that the second one can get to. Targets may be shared. */
  lemma SkipIff(st: Setting)
    requires Starts(st) && st.cfg.k8sSecretMode == "skip-if-exists"
    ensures Idempotent(st) <==> NoneLeftOut(st)
  {
    if i: nat, j: nat :| i <= j < |st.cfg.secrets| && Within(st, j) && !AlwaysPasses(st, i) && IsPut(st, j) &&
                         !NamedBefore(st, i, KeyAt(st, j)) {
      RefusedFirst(st, i, j);
    } else {
      forall c, js, js2 | IsRun(st, js) && IsRun(st, js2) ensures After(st, After(st, c, js), js2) == After(st, c, js) {
        SkippedTwice(st, c, js, js2);
      }
    }
  }

  /** The first run stops at secret `i`; the second passes it and creates the target of secret `j`. */
  lemma RefusedFirst(st: Setting, i: nat, j: nat)
    requires Starts(st) && st.cfg.k8sSecretMode == "skip-if-exists" && i <= j < |st.cfg.secrets| && Within(st, j)
    requires !AlwaysPasses(st, i) && IsPut(st, j) && !NamedBefore(st, i, KeyAt(st, j))
    ensures !Idempotent(st)
  {
    assert CanPass(st, i);
    var p :| Fits(st, i, p);
    var q :| Projects(st, i, q) && SizeOf(q) > MAX_SECRET_SIZE;
    var js, js2 := RunWith(st, i, q), RunWith(st, i, p);
    StoppedBefore(st, js, i, KeyAt(st, j));
    ReachedIsThere(st, After(st, map[], js), js2, j);
  }

  lemma StoppedBefore(st: Setting, js: seq<Job>, i: nat, key: Key)
    requires st.k.vault.records.Some? && IsRun(st, js) && i < |js| && js[i].Put? &&
             SizeOf(js[i].secret.data) > MAX_SECRET_SIZE
    requires !NamedBefore(st, i, key)
    ensures key !in After(st, map[], js)
  {
    var mode, ownerRef := st.cfg.k8sSecretMode, st.cfg.k8sSecretOwnerRef;
    BigStops(map[], js, i, mode, ownerRef);
    forall job | job in js[..i] ensures !Targets(job, key) {
      var m: nat :| m < i && js[m] == job;
      JobKind(st, m, js[m]);
    }
    OthersUntouched(map[], js[..i], mode, ownerRef, key);
  }

  lemma BigStops(c: Secrets, jobs: seq<Job>, i: nat, mode: string, ownerRef: bool)
    requires i < |jobs| && jobs[i].Put? && SizeOf(jobs[i].secret.data) > MAX_SECRET_SIZE
    ensures Reconcile(c, jobs, mode, ownerRef).0 == Reconcile(c, jobs[..i], mode, ownerRef).0
  {
    assert jobs[..i + 1][..i] == jobs[..i];
    ErrorSticks(c, jobs, i + 1, mode, ownerRef);
  }

  lemma ReachedIsThere(st: Setting, c: Secrets, js: seq<Job>, j: nat)
    requires st.k.vault.records.Some? && st.cfg.k8sSecretMode == "skip-if-exists" && IsRun(st, js) && j < |js| &&
             IsPut(st, j)
    requires forall m: nat :: m <= j ==> Sane(js[m])
    ensures KeyAt(st, j) in After(st, c, js)
  {
    var mode, ownerRef := st.cfg.k8sSecretMode, st.cfg.k8sSecretOwnerRef;
    JobKind(st, j, js[j]);
    SaneIsClean(c, js[..j + 1], mode, ownerRef);
    AllCreated(c, js[..j + 1], mode, ownerRef);
    assert js[j] in js[..j + 1];
    NoneDeleted(c, js, j + 1, mode, ownerRef, KeyAt(st, j));
  }

  /** How far a run gets: to its end or to a job that is not sane. */
  lemma CleanPart(c: Secrets, jobs: seq<Job>, mode: string, ownerRef: bool) returns (n: nat)
    requires Updates(mode) || mode == "skip-if-exists"
    ensures n <= |jobs| && Reconcile(c, jobs[..n], mode, ownerRef) == (Reconcile(c, jobs, mode, ownerRef).0, None)
    ensures n < |jobs| ==> !Sane(jobs[n])
  {
    if Reconcile(c, jobs, mode, ownerRef).1.None? {
      n := |jobs|;
      assert jobs[..n] == jobs;
    } else {
      n := FirstError(c, jobs, mode, ownerRef);
    }
  }

  lemma SkippedTwice(st: Setting, c: Secrets, js: seq<Job>, js2: seq<Job>)
    requires st.k.vault.records.Some? && st.cfg.k8sSecretMode == "skip-if-exists" && IsRun(st, js) && IsRun(st, js2)
    requires NoneLeftOut(st)
    ensures After(st, After(st, c, js), js2) == After(st, c, js)
  {
    var mode, ownerRef := st.cfg.k8sSecretMode, st.cfg.k8sSecretOwnerRef;
    var first := After(st, c, js);
    var stop := StopOf(st, |st.cfg.secrets|);
    UpToStop(st, c, js, stop);
    UpToStop(st, first, js2, stop);
    var n := CleanPart(c, js[..stop], mode, ownerRef);
    var n2 := CleanPart(first, js2[..stop], mode, ownerRef);
    assert js[..stop][..n] == js[..n] && js2[..stop][..n2] == js2[..n2];
    AllCreated(c, js[..n], mode, ownerRef);
    SkippedTargets(st, first, js, js2, stop, n, n2);
    PresentLeaves(first, js2[..n2], mode, ownerRef);
  }

  lemma SkippedTargets(st: Setting, first: Secrets, js: seq<Job>, js2: seq<Job>, stop: nat, n: nat, n2: nat)
    requires st.k.vault.records.Some? && IsRun(st, js) && IsRun(st, js2) && n <= stop <= |js| && n2 <= stop
    requires (forall j: nat :: j < stop ==> CanPass(st, j)) && (n < stop ==> !Sane(js[n]))
    requires NoneLeftOut(st)
    requires forall job :: job in js[..n] && job.Put? ==> job.key in first
    ensures forall job :: job in js2[..n2] && job.Put? ==> job.key in first
  {
    forall job | job in js2[..n2] && job.Put? ensures job.key in first {
      var m: nat :| m < n2 && js2[m] == job;
      var i := SameTargetBefore(st, js, js2, stop, n, m);
      assert js[i] in js[..n];
    }
  }

  /** Every target the second run gets to is named before the point where the first one stopped. */
  lemma SameTargetBefore(st: Setting, js: seq<Job>, js2: seq<Job>, stop: nat, n: nat, m: nat) returns (i: nat)
    requires st.k.vault.records.Some? && IsRun(st, js) && IsRun(st, js2) && m < stop <= |js| && n <= stop && js2[m].Put?
    requires (forall j: nat :: j < stop ==> CanPass(st, j)) && (n < stop ==> !Sane(js[n]))
    requires NoneLeftOut(st)
    ensures i < n && Targets(js[i], js2[m].key)
  {
    JobKind(st, m, js2[m]);
    i := m;
    if n <= m {
      if AlwaysPasses(st, n) {
        AlwaysIsSane(st, n, js[n]);
        assert false;
      }
      assert Within(st, m);
      i :| i < n && IsPut(st, i) && KeyAt(st, i) == KeyAt(st, m);
    }
    JobKind(st, i, js[i]);
  }

  // ---------- fail, and modes nobody knows ----------

  /** The first secret that has a record. */
  ghost predicate IsFirst(st: Setting, i: nat)
    requires st.k.vault.records.Some?
  {
    i < |st.cfg.secrets| && !SkippedFor(st, i) && forall j: nat :: j < i ==> SkippedFor(st, j)
  }

  /** The first secret that has a record, if any. */
  lemma {:induction false} FirstPresent(st: Setting, m: nat) returns (i: nat)
    requires m <= |st.cfg.secrets| && st.k.vault.records.Some?
    ensures i <= m && (i < m ==> IsFirst(st, i)) && forall j: nat :: j < i ==> SkippedFor(st, j)
  {
    if m == 0 {
      i := 0;
    } else {
      i := FirstPresent(st, m - 1);
      if i == m - 1 && SkippedFor(st, m - 1) {
        i := m;
      }
    }
  }

  lemma {:induction false} AbsentLeave(c: Secrets, jobs: seq<Job>, mode: string, ownerRef: bool)
    requires forall j :: j in jobs ==> j.Absent?
    ensures Reconcile(c, jobs, mode, ownerRef) == (c, None)
  {
    if jobs != [] {
      AbsentLeave(c, jobs[..|jobs| - 1], mode, ownerRef);
      assert jobs[|jobs| - 1] in jobs;
    }
  }

  /** After the missing ones the first secret decides: if it meets an error the cluster stays as it is. */
  lemma FirstDecides(st: Setting, c: Secrets, js: seq<Job>, i: nat)
    requires st.k.vault.records.Some? && IsRun(st, js) && i < |js| && forall j: nat :: j < i ==> SkippedFor(st, j)
    ensures var (after, err) := Step(c, js[i], st.cfg.k8sSecretMode, st.cfg.k8sSecretOwnerRef);
            After(st, c, js[..i + 1]) == after && (err.Some? ==> After(st, c, js) == after)
  {
    var mode, ownerRef := st.cfg.k8sSecretMode, st.cfg.k8sSecretOwnerRef;
    forall j | j in js[..i] ensures j.Absent? {
      var m: nat :| m < i && js[m] == j;
      JobKind(st, m, js[m]);
    }
    AbsentLeave(c, js[..i], mode, ownerRef);
    assert js[..i + 1][..i] == js[..i];
    if Step(c, js[i], mode, ownerRef).1.Some? {
      ErrorSticks(c, js, i + 1, mode, ownerRef);
    }
  }

  /** Under fail, and in modes nobody knows, a second run changes nothing exactly when the first secret that has a
      record is always passed, if it can be at all. Targets may be shared. */
  lemma StrictIff(st: Setting)
    requires Starts(st) && !Updates(st.cfg.k8sSecretMode) && st.cfg.k8sSecretMode != "skip-if-exists"
    ensures Idempotent(st) <==> forall i: nat :: IsFirst(st, i) && CanPass(st, i) ==> AlwaysPasses(st, i)
  {
    var i := FirstPresent(st, |st.cfg.secrets|);
    if i == |st.cfg.secrets| {
      forall m: nat | m < |st.cfg.secrets| ensures Fixed(st, m) {
        assert SkippedFor(st, m);
      }
      FixedIsIdempotent(st);
    } else if CanPass(st, i) && !AlwaysPasses(st, i) {
      StraddleBreaks(st, i);
    } else {
      forall c, js, js2 | IsRun(st, js) && IsRun(st, js2) ensures After(st, After(st, c, js), js2) == After(st, c, js) {
        StrictTwice(st, c, js, js2, i);
      }
    }
  }

  lemma StrictTwice(st: Setting, c: Secrets, js: seq<Job>, js2: seq<Job>, i: nat)
    requires st.k.vault.records.Some? && IsRun(st, js) && IsRun(st, js2) && i < |js|
    requires !Updates(st.cfg.k8sSecretMode) && st.cfg.k8sSecretMode != "skip-if-exists"
    requires IsFirst(st, i) && (CanPass(st, i) ==> AlwaysPasses(st, i))
    ensures After(st, After(st, c, js), js2) == After(st, c, js)
  {
    var after := After(st, c, js);
    FirstDecides(st, c, js, i);
    FirstDecides(st, after, js2, i);
    if !CanPass(st, i) {
      NeverPasses(st, i, js[i], c);
      NeverPasses(st, i, js2[i], after);
    } else {
      JobKind(st, i, js[i]);
      JobKind(st, i, js2[i]);
      AlwaysIsSane(st, i, js[i]);
      AlwaysIsSane(st, i, js2[i]);
      TargetIsThere(st, c, js, i);
    }
  }

  lemma TargetIsThere(st: Setting, c: Secrets, js: seq<Job>, i: nat)
    requires st.k.vault.records.Some? && IsRun(st, js) && i < |js| && js[i].Put? && Sane(js[i])
    requires !Updates(st.cfg.k8sSecretMode) && st.cfg.k8sSecretMode != "skip-if-exists"
    requires forall j: nat :: j < i ==> SkippedFor(st, j)
    ensures js[i].key in After(st, c, js)
  {
    var mode, ownerRef := st.cfg.k8sSecretMode, st.cfg.k8sSecretOwnerRef;
    FirstDecides(st, c, js, i);
    OthersUntouched(c, js, mode, ownerRef, js[i].key);
    if js[i].key !in c {
      assert js[i].key in After(st, c, js[..i + 1]);
      NoneDeleted(c, js, i + 1, mode, ownerRef, js[i].key);
    }
  }

  lemma {:induction false} NoneDeleted(c: Secrets, jobs: seq<Job>, m: nat, mode: string, ownerRef: bool, key: Key)
    requires m <= |jobs| && key in Reconcile(c, jobs[..m], mode, ownerRef).0
    ensures key in Reconcile(c, jobs, mode, ownerRef).0
    decreases |jobs|
  {
    if m == |jobs| {
      assert jobs[..m] == jobs;
    } else {
      assert jobs[..|jobs| - 1][..m] == jobs[..m];
      NoneDeleted(c, jobs[..|jobs| - 1], m, mode, ownerRef, key);
    }
  }

  /** Data too big in one order and not in another: the second run creates what the first one refused. */
  lemma StraddleBreaks(st: Setting, i: nat)
    requires Starts(st) && i < |st.cfg.secrets| && CanPass(st, i) && !AlwaysPasses(st, i)
    requires !Updates(st.cfg.k8sSecretMode) && st.cfg.k8sSecretMode != "skip-if-exists"
    requires forall j: nat :: j < i ==> SkippedFor(st, j)
    ensures !Idempotent(st)
  {
    var p :| Fits(st, i, p);
    var q :| Projects(st, i, q) && SizeOf(q) > MAX_SECRET_SIZE;
    var js, js2 := RunWith(st, i, q), RunWith(st, i, p);
    FirstDecides(st, map[], js, i);
    assert After(st, map[], js) == map[];
    TargetIsThere(st, map[], js2, i);
  }

  // ---------- an example ----------

  /** One record with two fields, both mapped to one data key. */
  const TWO_FIELDS: Fields := map["a" := Str("1"), "b" := Str("2")]
  const ONE_KEY := NewRef("r", "json").(k8sSecretName := "s", k8sSecretKeys := map["a" := "k", "b" := "k"])

  function Example(mode: string): Setting {
    Setting(
      Pod("p", "n", "u"), InjectionConfig(false, true, [ONE_KEY], "", "", mode, "", false),
      Keeper(Vault(None, Some([Record("1", "r", "", "", TWO_FIELDS)])), false, map[], map[]))
  }

  lemma FilterOne(r: Record, p: Record -> bool)
    requires p(r)
    ensures Filter([r], p) == [r]
  {
    assert [r][..0] == [];
  }

  lemma ExampleEntry(mode: string)
    ensures Starts(Example(mode)) && EntryOf(Example(mode), 0) == Have(TWO_FIELDS)
  {
    var rs := [Record("1", "r", "", "", TWO_FIELDS)];
    FilterOne(rs[0], (r: Record) => r.title == "r");
  }

  lemma ExampleProjection(v: string)
    requires v == "1" || v == "2"
    ensures IsProjection(map["k" := v], ONE_KEY, TWO_FIELDS)
  {
    forall key ensures OverlaysAt(map["k" := v], map[], ONE_KEY, TWO_FIELDS, TWO_FIELDS.Keys, key) {
      assert Route(ONE_KEY, "a") == Some("k") && Route(ONE_KEY, "b") == Some("k");
      assert "a" in TWO_FIELDS && "b" in TWO_FIELDS;
    }
  }

  lemma ExampleFits(mode: string, v: string)
    requires (v == "1" || v == "2") && Starts(Example(mode))
    ensures Fits(Example(mode), 0, map["k" := v])
  {
    ExampleEntry(mode);
    ExampleProjection(v);
    SizeOfOne("k", v);
  }

  /** In the updating modes the first run can leave "1" under the key and the second one "2". */
  lemma ExampleChanges(mode: string) returns (js: seq<Job>, js2: seq<Job>)
    requires Updates(mode)
    ensures var st, key := Example(mode), Key("n", "s");
            IsRun(st, js) && IsRun(st, js2) && DataOf(After(st, map[], js), key) == map["k" := "1"] &&
            DataOf(After(st, After(st, map[], js), js2), key) == map["k" := "2"]
  {
    var st := Example(mode);
    ExampleEntry(mode);
    ExampleFits(mode, "1");
    ExampleFits(mode, "2");
    js, js2 := RunWith(st, 0, map["k" := "1"]), RunWith(st, 0, map["k" := "2"]);
    OneSecretTwice(st, map["k" := "1"], map["k" := "2"]);
  }

  /** A pod with one secret: each run leaves the data it makes. */
  lemma OneSecretTwice(st: Setting, p: Data, q: Data)
    requires Starts(st) && |st.cfg.secrets| == 1 && Fits(st, 0, p) && Fits(st, 0, q) && Updates(st.cfg.k8sSecretMode)
    requires q.Keys == p.Keys
    ensures var first := After(st, map[], RunWith(st, 0, p));
            DataOf(first, KeyAt(st, 0)) == p && DataOf(After(st, first, RunWith(st, 0, q)), KeyAt(st, 0)) == q
  {
    RunTwiceAt(st, 0, p, q);
    assert p + q == q;
  }
}
