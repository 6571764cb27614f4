/** What becomes of Secrets, case by case, in terms of the secret's configuration, the record list and the jobs. */
module K8sCases {
  import opened Text
  import opened Values
  import opened Annotations
  import opened Records
  import opened RecordCases
  import opened K8sModel
  import opened K8s
  import opened K8sTheorems

  // ---------- what a merge leaves ----------

  /** The last value the jobs for a target write under a key of the given part. */
  function LastValue<V>(jobs: seq<Job>, key: Key, part: KSecret -> map<string, V>, x: string): Option<V> {
    if jobs == [] then None
    else
      var last := jobs[|jobs| - 1];
      if Targets(last, key) && x in part(last.secret) then Some(part(last.secret)[x])
      else LastValue(jobs[..|jobs| - 1], key, part, x)
  }

  /** The owners of the last job for a target that has any. */
  function LastOwners(jobs: seq<Job>, key: Key): Option<seq<Owner>> {
    if jobs == [] then None
    else
      var last := jobs[|jobs| - 1];
      if Targets(last, key) && last.secret.owners != [] then Some(last.secret.owners)
      else LastOwners(jobs[..|jobs| - 1], key)
  }

  /** The Secret that was there, or else the one the first job for the target created. */
  function Origin(c: Secrets, jobs: seq<Job>, key: Key): Option<KSecret> {
    if key in c then Some(c[key]) else FirstFor(jobs, key)
  }

  function ValueAt<V>(s: Option<KSecret>, part: KSecret -> map<string, V>, x: string): Option<V> {
    if s.Some? && x in part(s.value) then Some(part(s.value)[x]) else None
  }

  /** The value under a key of the given part: the last one written, or what was there before. */
  ghost predicate LastWins<V>(
    after: Secrets, c: Secrets, jobs: seq<Job>, key: Key, part: KSecret -> map<string, V>, x: string)
  {
    ValueAt(At(after, key), part, x) ==
    if LastValue(jobs, key, part, x).Some? then LastValue(jobs, key, part, x) else ValueAt(At(c, key), part, x)
  }

  lemma OneMerge(c: Secrets, job: Job, ownerRef: bool, key: Key)
    requires Step(c, job, "merge", ownerRef).1.None?
    ensures var after := Step(c, job, "merge", ownerRef).0;
            if !Targets(job, key) then At(after, key) == At(c, key)
            else
              key in after &&
              if key !in c then after[key] == job.secret
              else
                var t, s := after[key], job.secret;
                t.data == c[key].data + s.data && t.labels == c[key].labels + s.labels &&
                t.annotations == c[key].annotations + s.annotations && t.typ == c[key].typ &&
                t.owners == if ownerRef && s.owners != [] then s.owners else c[key].owners
  {
  }

  /** A merge that goes through leaves a target with the owners of the last secret that has any, if owner references are
      kept, and otherwise with those it was created with. Its type is the one it was created with. */
  lemma {:induction false} MergeOwners(c: Secrets, jobs: seq<Job>, ownerRef: bool, key: Key)
    requires Reconcile(c, jobs, "merge", ownerRef).1.None?
    ensures var after, origin := Reconcile(c, jobs, "merge", ownerRef).0, Origin(c, jobs, key);
            (key in after <==> origin.Some?) &&
            (origin.Some? ==>
               after[key].typ == origin.value.typ &&
               after[key].owners ==
                 if ownerRef && LastOwners(jobs, key).Some? then LastOwners(jobs, key).value else origin.value.owners)
  {
    if jobs != [] {
      var init, last := jobs[..|jobs| - 1], jobs[|jobs| - 1];
      MergeOwners(c, init, ownerRef, key);
      OneMerge(Reconcile(c, init, "merge", ownerRef).0, last, ownerRef, key);
      if Targets(last, key) && Origin(c, init, key).None? {
        NoOwners(init, key);
      }
    }
  }

  lemma {:induction false} NoOwners(jobs: seq<Job>, key: Key)
    requires forall j :: j in jobs ==> !Targets(j, key)
    ensures LastOwners(jobs, key) == None
  {
    if jobs != [] {
      assert jobs[|jobs| - 1] in jobs;
      NoOwners(jobs[..|jobs| - 1], key);
    }
  }

  lemma {:induction false} MergeData(c: Secrets, jobs: seq<Job>, ownerRef: bool, key: Key, x: string)
    requires Reconcile(c, jobs, "merge", ownerRef).1.None?
    ensures LastWins(Reconcile(c, jobs, "merge", ownerRef).0, c, jobs, key, (s: KSecret) => s.data, x)
  {
    if jobs != [] {
      var init, last := jobs[..|jobs| - 1], jobs[|jobs| - 1];
      MergeData(c, init, ownerRef, key, x);
      OneMerge(Reconcile(c, init, "merge", ownerRef).0, last, ownerRef, key);
    }
  }

  lemma {:induction false} MergeLabels(c: Secrets, jobs: seq<Job>, ownerRef: bool, key: Key, x: string)
    requires Reconcile(c, jobs, "merge", ownerRef).1.None?
    ensures LastWins(Reconcile(c, jobs, "merge", ownerRef).0, c, jobs, key, (s: KSecret) => s.labels, x)
  {
    if jobs != [] {
      var init, last := jobs[..|jobs| - 1], jobs[|jobs| - 1];
      MergeLabels(c, init, ownerRef, key, x);
      OneMerge(Reconcile(c, init, "merge", ownerRef).0, last, ownerRef, key);
    }
  }

  lemma {:induction false} MergeAnnotations(c: Secrets, jobs: seq<Job>, ownerRef: bool, key: Key, x: string)
    requires Reconcile(c, jobs, "merge", ownerRef).1.None?
    ensures LastWins(Reconcile(c, jobs, "merge", ownerRef).0, c, jobs, key, (s: KSecret) => s.annotations, x)
  {
    if jobs != [] {
      var init, last := jobs[..|jobs| - 1], jobs[|jobs| - 1];
      MergeAnnotations(c, init, ownerRef, key, x);
      OneMerge(Reconcile(c, init, "merge", ownerRef).0, last, ownerRef, key);
    }
  }

  /** It leaves every data key, label and annotation with the last value written, or with what was there. */
  lemma MergeValues(c: Secrets, jobs: seq<Job>, ownerRef: bool, key: Key, x: string)
    requires Reconcile(c, jobs, "merge", ownerRef).1.None?
    ensures var after := Reconcile(c, jobs, "merge", ownerRef).0;
            LastWins(after, c, jobs, key, (s: KSecret) => s.data, x) &&
            LastWins(after, c, jobs, key, (s: KSecret) => s.labels, x) &&
            LastWins(after, c, jobs, key, (s: KSecret) => s.annotations, x)
  {
    MergeData(c, jobs, ownerRef, key, x);
    MergeLabels(c, jobs, ownerRef, key, x);
    MergeAnnotations(c, jobs, ownerRef, key, x);
  }

  // ---------- where a run stops ----------

  /** The error a job meets, given whether its target exists. */
  predicate Meets(job: Job, exist: bool, size: nat, mode: string, err: ReconcileError) {
    match err
    case NoName => job.Unnamed?
    case TooBig => job.Put? && size > 1_048_576
    case ApiFailed =>
      job.Put? && size <= 1_048_576 &&
      (job.api.GetFails? ||
       (job.api.WriteFails? && (!exist || mode == "merge" || mode == "overwrite" || mode == "")))
    case AlreadyExists => job.Put? && size <= 1_048_576 && !job.api.GetFails? && exist && mode == "fail"
    case UnknownMode =>
      job.Put? && size <= 1_048_576 && !job.api.GetFails? && exist &&
      mode !in {"fail", "skip-if-exists", "merge", "overwrite", ""}
  }

  ghost predicate StopsWith(c: Secrets, job: Job, mode: string, err: ReconcileError) {
    Meets(job, job.Put? && job.key in c, if job.Put? then SizeOf(job.secret.data) else 0, mode, err)
  }

  /** A step reports an error exactly if the job meets it, and then changes nothing; in every mode, known or not, a
      target that does not exist is created. */
  lemma StepStopsIff(c: Secrets, job: Job, mode: string, ownerRef: bool, err: ReconcileError)
    ensures Step(c, job, mode, ownerRef).1 == Some(err) <==> StopsWith(c, job, mode, err)
    ensures Step(c, job, mode, ownerRef).1.Some? || !job.Put? ==> Step(c, job, mode, ownerRef).0 == c
    ensures Step(c, job, mode, ownerRef).1.None? && job.Put? && job.key !in c ==>
              Step(c, job, mode, ownerRef).0 == c[job.key := job.secret]
  {
  }

  /** A run reports an error exactly if some job meets it on the cluster the jobs before it leave, these having met
      none; and then the cluster is the one they leave. */
  lemma RunStopsIff(c: Secrets, jobs: seq<Job>, mode: string, ownerRef: bool, err: ReconcileError)
    ensures Reconcile(c, jobs, mode, ownerRef).1 == Some(err) <==>
            exists n: nat :: n < |jobs| && StopsAt(c, jobs, n, mode, ownerRef, err)
    ensures forall n: nat :: n < |jobs| && StopsAt(c, jobs, n, mode, ownerRef, err) ==>
              Reconcile(c, jobs, mode, ownerRef).0 == Reconcile(c, jobs[..n], mode, ownerRef).0
  {
    if Reconcile(c, jobs, mode, ownerRef).1 == Some(err) {
      var n := FirstError(c, jobs, mode, ownerRef);
      StepStopsIff(Reconcile(c, jobs[..n], mode, ownerRef).0, jobs[n], mode, ownerRef, err);
      assert StopsAt(c, jobs, n, mode, ownerRef, err);
    }
    forall n: nat | n < |jobs| && StopsAt(c, jobs, n, mode, ownerRef, err)
      ensures Reconcile(c, jobs, mode, ownerRef) == (Reconcile(c, jobs[..n], mode, ownerRef).0, Some(err))
    {
      StepStopsIff(Reconcile(c, jobs[..n], mode, ownerRef).0, jobs[n], mode, ownerRef, err);
      assert jobs[..n + 1][..n] == jobs[..n];
      ErrorSticks(c, jobs, n + 1, mode, ownerRef);
    }
  }

  ghost predicate StopsAt(c: Secrets, jobs: seq<Job>, n: nat, mode: string, ownerRef: bool, err: ReconcileError)
    requires n < |jobs|
  {
    var (before, none) := Reconcile(c, jobs[..n], mode, ownerRef);
    none.None? && StopsWith(before, jobs[n], mode, err)
  }

  // ---------- what a secret asks for ----------

  function FirstGiven(a: string, b: string): string {
    if a != "" then a else b
  }

  /** The Secret a record becomes: the name of the secret or the pod's default, the namespace configured or the pod's,
      the fixed labels, the annotations with the sources, the pod as owner if asked for, and the type of the secret, the
      default, or Opaque. */
  predicate Describes(s: KSecret, pod: Pod, ref: SecretRef, cfg: InjectionConfig) {
    s.labels == map["app.kubernetes.io/managed-by" := "keeper-injector", "keeper.security/injected" := "true"] &&
    s.annotations == map["keeper.security/source-pod" := pod.name, "keeper.security/source-record" := ref.name] &&
    s.owners == (if cfg.k8sSecretOwnerRef then [Owner(pod.name, pod.uid)] else []) &&
    s.typ == FirstGiven(ref.k8sSecretType, FirstGiven(cfg.k8sSecretType, "Opaque"))
  }

  lemma JobIs(pod: Pod, cfg: InjectionConfig, ref: SecretRef, e: Entry, api: Api, job: Job)
    ensures var name := FirstGiven(ref.k8sSecretName, cfg.k8sSecretName);
            JobOf(pod, cfg, ref, e, api, job) <==>
            match job
            case Absent => e == Missing
            case Unnamed => e.Have? && name == ""
            case Put(key, s, a) =>
              e.Have? && name != "" && key == Key(FirstGiven(cfg.k8sSecretNamespace, pod.namespace), name) &&
                a == api &&
              Copied(s.data, map[], ref, e.fields) && Describes(s, pod, ref, cfg)
  {
    if job.Put? && e.Have? {
      OverlayIffCopied(job.secret.data, map[], ref, e.fields);
    }
  }

  // ---------- what is fetched for a secret ----------

  /** The record's UID, or its title. */
  predicate Bears(r: Record, name: string, uid: bool) {
    if uid then r.uid == name else r.title == name
  }

  /** Notations and files come from calls of their own. */
  predicate OwnCall(k: Keeper, ref: SecretRef, e: Entry) {
    if ref.notation != "" then
      if ref.notation in k.notations then e == Have(map["value" := Str(k.notations[ref.notation])]) else e == CallFails
    else
      ref.isFile &&
      if (ref.name, ref.fileName) in k.files then e == Have(map[ref.fileName := Raw(k.files[(ref.name, ref.fileName)])])
      else e == CallFails
  }

  lemma OwnCallIs(k: Keeper, rs: seq<Record>, ref: SecretRef)
    requires ref.notation != "" || ref.isFile
    ensures OwnCall(k, ref, BatchEntry(k, rs, ref)) && OwnCall(k, ref, SingleEntry(k, ref))
  {
  }

  /** The record is the last that bears the name. */
  predicate LastBearer(rs: seq<Record>, i: nat, name: string, uid: bool) {
    i < |rs| && Bears(rs[i], name, uid) && forall j :: i < j < |rs| ==> !Bears(rs[j], name, uid)
  }

  predicate NoneBears(rs: seq<Record>, name: string, uid: bool) {
    forall i :: 0 <= i < |rs| ==> !Bears(rs[i], name, uid)
  }

  lemma {:induction false} LastMatchIs(rs: seq<Record>, name: string, uid: bool) returns (i: nat)
    ensures var ms := MatchesOf(rs, name, uid);
            if ms == [] then NoneBears(rs, name, uid) else LastBearer(rs, i, name, uid) && ms[|ms| - 1] == rs[i]
  {
    i := 0;
    if rs != [] {
      var n := |rs| - 1;
      i := LastMatchIs(rs[..n], name, uid);
      MatchesGrow(rs, n, name, uid);
      assert rs[..n + 1] == rs;
      if Bears(rs[n], name, uid) {
        i := n;
      } else {
        StillLast(rs, i, name, uid);
      }
    }
  }

  lemma StillLast(rs: seq<Record>, i: nat, name: string, uid: bool)
    requires rs != [] && !Bears(rs[|rs| - 1], name, uid)
    ensures LastBearer(rs[..|rs| - 1], i, name, uid) ==> LastBearer(rs, i, name, uid)
    ensures NoneBears(rs[..|rs| - 1], name, uid) ==> NoneBears(rs, name, uid)
  {
    assert rs == rs[..|rs| - 1] + [rs[|rs| - 1]];
  }

  /** For any other secret the batch holds the fields of the last record of that UID, if the name is of 22 characters
      without a space, or else of that title; nothing if there is none. */
  lemma BatchEntryIs(k: Keeper, rs: seq<Record>, ref: SecretRef)
    requires ref.notation == "" && !ref.isFile
    ensures var e, uid := BatchEntry(k, rs, ref), |ref.name| == 22 && ' ' !in ref.name;
            if NoneBears(rs, ref.name, uid) then e == Missing
            else exists i: nat :: LastBearer(rs, i, ref.name, uid) && e == Have(rs[i].fields)
  {
    var i := LastMatchIs(rs, ref.name, |ref.name| == 22 && ' ' !in ref.name);
  }

  /** Rotation fetches the fields of the record a lookup by name finds, nothing if there is no such record, and fails
      where the lookup does. */
  lemma SingleEntryIs(k: Keeper, ref: SecretRef)
    requires ref.notation == "" && !ref.isFile
    ensures var e, r := SingleEntry(k, ref), ByName(k.vault, k.strict, ref.name);
            (forall record :: r == Picked(record) ==> e == Have(record.fields)) &&
            (r == NotPicked(NoRecord) ==> e == Missing) &&
            (r.NotPicked? && r != NotPicked(NoRecord) ==> e == CallFails)
  {
  }

  /** The batch goes through exactly if the records can be listed, no call fails, and, if errors are to be reported,
      every record is there. */
  lemma BatchGoesThrough(k: Keeper, cfg: InjectionConfig)
    ensures BatchSucceeds(k, cfg) <==>
            k.vault.records.Some? &&
            forall i :: 0 <= i < |cfg.secrets| ==>
              var e := BatchEntry(k, k.vault.records.value, cfg.secrets[i]);
              e != CallFails && (cfg.failOnError ==> e != Missing)
  {
    if BatchSucceeds(k, cfg) {
      forall i | 0 <= i < |cfg.secrets|
        ensures var e := BatchEntry(k, k.vault.records.value, cfg.secrets[i]);
                e != CallFails && (cfg.failOnError ==> e != Missing)
      {
        assert cfg.secrets[i] in cfg.secrets;
      }
    }
  }

  // ---------- rotation ----------

  /** One refresh: a secret is selected by its flag and a name; then its fields are written over the data of the Secret
      of that name in the namespace configured, the pod's, or "default", and nothing else of it changes; where something
      fails, nothing changes at all. */
  lemma RefreshIs(
    c: Secrets, configured: string, podNamespace: string, ref: SecretRef, e: Entry, api: Api, r: Refresh)
    requires RefreshOf(ref, RotationNamespace(configured, podNamespace), e, api, r)
    ensures var key := Key(FirstGiven(configured, FirstGiven(podNamespace, "default")), ref.k8sSecretName);
            var after := RefreshStep(c, r);
            if ref.injectAsK8sSecret && ref.k8sSecretName != "" && e.Have? && api == Works && key in c then
              after.Keys == c.Keys && (forall other :: other in c && other != key ==> after[other] == c[other]) &&
              after[key] == c[key].(data := after[key].data) &&
              Copied(after[key].data, c[key].data, ref, e.fields)
            else after == c
  {
    if r.Update? {
      var key := r.key;
      if key in c {
        OverProjection(c[key].data, r.data, ref, e.fields);
        OverlayIffCopied(c[key].data + r.data, c[key].data, ref, e.fields);
      }
    }
  }

  lemma OverProjection(base: Data, p: Data, ref: SecretRef, fields: Fields)
    requires IsProjection(p, ref, fields)
    ensures IsOverlay(base + p, base, ref, fields)
  {
    forall key ensures OverlaysAt(base + p, base, ref, fields, fields.Keys, key) {
      assert OverlaysAt(p, map[], ref, fields, fields.Keys, key);
    }
  }

  // ---------- which secrets the webhook takes ----------

  ghost predicate FlaggedAt(ps: seq<nat>, secrets: seq<SecretRef>) {
    Increasing(ps, |secrets|) && forall k: nat :: k < |secrets| ==> (k in ps <==> secrets[k].injectAsK8sSecret)
  }

  /** Without the pod's flag the secrets flagged themselves are taken, in order. */
  lemma {:induction false} FlaggedIs(secrets: seq<SecretRef>) returns (ps: seq<nat>)
    ensures FlaggedAt(ps, secrets) && |ps| == |Flagged(secrets)|
    ensures forall i :: 0 <= i < |ps| ==> Flagged(secrets)[i] == secrets[ps[i]]
  {
    if secrets == [] {
      ps := [];
    } else {
      var n := |secrets| - 1;
      var before := FlaggedIs(secrets[..n]);
      ps := if secrets[n].injectAsK8sSecret then before + [n] else before;
      FlaggedGrows(before, secrets);
    }
  }

  lemma FlaggedGrows(ps: seq<nat>, secrets: seq<SecretRef>)
    requires secrets != [] && FlaggedAt(ps, secrets[..|secrets| - 1])
    ensures var n := |secrets| - 1;
            FlaggedAt(if secrets[n].injectAsK8sSecret then ps + [n] else ps, secrets)
  {
    var n := |secrets| - 1;
    var next := if secrets[n].injectAsK8sSecret then ps + [n] else ps;
    forall k: nat | k < |secrets| ensures k in next <==> secrets[k].injectAsK8sSecret {
      assert k < n ==> (k in ps <==> secrets[..n][k].injectAsK8sSecret);
      assert forall i :: 0 <= i < |ps| ==> ps[i] < n;
    }
  }
}
