/** The webhook's reconcile loop and the sidecar's rotation loop, on the heap. */
module K8s {
  import opened Text
  import opened Values
  import opened Annotations
  import opened Records
  import opened K8sModel

  datatype Pod = Pod(name: string, namespace: string, uid: string)

  datatype InjectionConfig = InjectionConfig(
    failOnError: bool, injectAsK8sSecret: bool, secrets: seq<SecretRef>,
    k8sSecretName: string, k8sSecretNamespace: string, k8sSecretMode: string, k8sSecretType: string,
      k8sSecretOwnerRef: bool)

  // ---------- building a Secret ----------

  /** The three field loops shared by buildK8sSecret and updateK8sSecrets: copy the routed fields over `base`. */
  method CopyFields(ref: SecretRef, fields: Fields, base: Data) returns (data: Data)
    ensures IsOverlay(data, base, ref, fields) && Copied(data, base, ref, fields)
  {
    if |ref.k8sSecretKeys| > 0 {
      data := CopyMapped(ref, fields, base);
    } else if |ref.fields| > 0 {
      data := CopySelected(ref, fields, base);
    } else {
      data := CopyAll(ref, fields, base);
    }
    OverlayIffCopied(data, base, ref, fields);
  }

  /** Custom key mapping, in map order. */
  method CopyMapped(ref: SecretRef, fields: Fields, base: Data) returns (data: Data)
    requires |ref.k8sSecretKeys| > 0
    ensures IsOverlay(data, base, ref, fields)
  {
    data := base;
    var todo := ref.k8sSecretKeys.Keys;
    ghost var done: set<string> := {};
    while todo != {}
      invariant todo <= ref.k8sSecretKeys.Keys && forall f :: f in ref.k8sSecretKeys ==> f in done || f in todo
      invariant Overlays(data, base, ref, fields, done)
    {
      var field :| field in todo;
      OverlayGrows(data, base, ref, fields, done, field);
      todo, done := todo - {field}, done + {field};
      if field in fields {
        data := data[ref.k8sSecretKeys[field] := ValueToBytes(fields[field])];
      }
    }
    AllRouted(data, base, ref, fields, done);
  }

  /** Selected fields, in list order. */
  method CopySelected(ref: SecretRef, fields: Fields, base: Data) returns (data: Data)
    requires |ref.k8sSecretKeys| == 0 && |ref.fields| > 0
    ensures IsOverlay(data, base, ref, fields)
  {
    data := base;
    ghost var done: set<string> := {};
    for i := 0 to |ref.fields|
      invariant forall j :: 0 <= j < i ==> ref.fields[j] in done
      invariant Overlays(data, base, ref, fields, done)
    {
      var field := ref.fields[i];
      OverlayGrows(data, base, ref, fields, done, field);
      done := done + {field};
      if field in fields {
        data := data[field := ValueToBytes(fields[field])];
      }
    }
    AllRouted(data, base, ref, fields, done);
  }

  /** All fields, in map order. */
  method CopyAll(ref: SecretRef, fields: Fields, base: Data) returns (data: Data)
    requires |ref.k8sSecretKeys| == 0 && |ref.fields| == 0
    ensures IsOverlay(data, base, ref, fields)
  {
    data := base;
    var todo := fields.Keys;
    ghost var done: set<string> := {};
    while todo != {}
      invariant todo <= fields.Keys && forall f :: f in fields ==> f in done || f in todo
      invariant Overlays(data, base, ref, fields, done)
    {
      var field :| field in todo;
      OverlayGrows(data, base, ref, fields, done, field);
      todo, done := todo - {field}, done + {field};
      data := data[field := ValueToBytes(fields[field])];
    }
    AllRouted(data, base, ref, fields, done);
  }

  const LABELS := map["app.kubernetes.io/managed-by" := "keeper-injector", "keeper.security/injected" := "true"]

  function TargetName(ref: SecretRef, cfg: InjectionConfig): string {
    if ref.k8sSecretName != "" then ref.k8sSecretName else cfg.k8sSecretName
  }

  function TargetKey(pod: Pod, ref: SecretRef, cfg: InjectionConfig): Key {
    Key(if cfg.k8sSecretNamespace != "" then cfg.k8sSecretNamespace else pod.namespace, TargetName(ref, cfg))
  }

  /** Everything of the Secret but its data. */
  ghost predicate Built(s: KSecret, pod: Pod, ref: SecretRef, fields: Fields, cfg: InjectionConfig) {
    IsProjection(s.data, ref, fields) && s.labels == LABELS &&
    s.annotations == map["keeper.security/source-pod" := pod.name, "keeper.security/source-record" := ref.name] &&
    s.owners == (if cfg.k8sSecretOwnerRef then [Owner(pod.name, pod.uid)] else []) &&
    s.typ ==
      if ref.k8sSecretType != "" then ref.k8sSecretType
      else if cfg.k8sSecretType != "" then cfg.k8sSecretType else "Opaque"
  }

  method BuildK8sSecret(pod: Pod, ref: SecretRef, fields: Fields, cfg: InjectionConfig)
      returns (key: Key, s: Option<KSecret>)
    ensures s.None? <==> TargetName(ref, cfg) == ""
    ensures s.Some? ==> key == TargetKey(pod, ref, cfg) && Built(s.value, pod, ref, fields, cfg)
    ensures s.Some? ==> Copied(s.value.data, map[], ref, fields)
  {
    var namespace := cfg.k8sSecretNamespace;
    if namespace == "" {
      namespace := pod.namespace;
    }
    var secretName := ref.k8sSecretName;
    if secretName == "" {
      secretName := cfg.k8sSecretName;
    }
    key := Key(namespace, secretName);
    if secretName == "" {
      return key, None;
    }
    var data := CopyFields(ref, fields, map[]);
    var secretType := "Opaque";
    if ref.k8sSecretType != "" {
      secretType := ref.k8sSecretType;
    } else if cfg.k8sSecretType != "" {
      secretType := cfg.k8sSecretType;
    }
    var ownerRefs: seq<Owner> := [];
    if cfg.k8sSecretOwnerRef {
      ownerRefs := [Owner(pod.name, pod.uid)];
    }
    s := Some(KSecret(
      data, LABELS, map["keeper.security/source-pod" := pod.name, "keeper.security/source-record" := ref.name],
      ownerRefs, secretType));
  }

  /** The size of data does not depend on the order of summation. */
  lemma {:induction false} SizeWithout(d: Data, k: string)
    requires k in d
    ensures SizeOf(d) == |k| + |d[k]| + SizeOf(d - {k})
    decreases |d|
  {
    var j :| j in d && SizeOf(d) == |j| + |d[j]| + SizeOf(d - {j});
    if j != k {
      SizeWithout(d - {j}, k);
      SizeWithout(d - {k}, j);
      assert d - {j} - {k} == d - {k} - {j};
    }
  }

  method ValidateSecretSize(d: Data) returns (ok: bool)
    ensures ok <==> SizeOf(d) <= MAX_SECRET_SIZE
  {
    var totalSize, todo := 0, d.Keys;
    ghost var rest := d;
    while todo != {}
      invariant todo <= d.Keys && rest == map k | k in todo :: d[k]
      invariant totalSize + SizeOf(rest) == SizeOf(d)
    {
      var k :| k in todo;
      SizeWithout(rest, k);
      todo, rest := todo - {k}, rest - {k};
      totalSize := totalSize + |k| + |d[k]|;
    }
    ok := totalSize <= MAX_SECRET_SIZE;
  }

  // ---------- the batched fetch ----------

  /** The secrets flagged themselves, in list order. */
  function Flagged(secrets: seq<SecretRef>): (refs: seq<SecretRef>)
    ensures forall r :: r in refs <==> r in secrets && r.injectAsK8sSecret
  {
    if secrets == [] then []
    else
      var last := secrets[|secrets| - 1];
      Flagged(secrets[..|secrets| - 1]) + if last.injectAsK8sSecret then [last] else []
  }

  method FilterK8sSecretConfigs(cfg: InjectionConfig) returns (refs: seq<SecretRef>)
    ensures refs == if cfg.injectAsK8sSecret then cfg.secrets else Flagged(cfg.secrets)
  {
    refs := [];
    for i := 0 to |cfg.secrets|
      invariant refs == if cfg.injectAsK8sSecret then cfg.secrets[..i] else Flagged(cfg.secrets[..i])
    {
      assert cfg.secrets[..i + 1][..i] == cfg.secrets[..i];
      if cfg.secrets[i].injectAsK8sSecret || cfg.injectAsK8sSecret {
        refs := refs + [cfg.secrets[i]];
      }
    }
    assert cfg.secrets[..|cfg.secrets|] == cfg.secrets;
  }

  function MatchesOf(rs: seq<Record>, n: string, byUid: bool): seq<Record> {
    if byUid then UidMatches(rs, n) else TitleMatches(rs, n)
  }

  /** An index filled in list order holds the last record of each UID, or of each title. */
  ghost predicate Indexes(index: map<string, Record>, rs: seq<Record>, byUid: bool) {
    forall n :: IndexedLast(index, n, MatchesOf(rs, n, byUid))
  }

  ghost predicate IndexedLast(index: map<string, Record>, n: string, matches: seq<Record>) {
    if matches == [] then n !in index else n in index && index[n] == matches[|matches| - 1]
  }

  /** The loop that fills the two lookup maps. */
  method BuildIndexes(rs: seq<Record>) returns (recordsByUID: map<string, Record>, recordsByTitle: map<string, Record>)
    ensures Indexes(recordsByUID, rs, true) && Indexes(recordsByTitle, rs, false)
  {
    recordsByUID, recordsByTitle := map[], map[];
    for j := 0 to |rs|
      invariant Indexes(recordsByUID, rs[..j], true) && Indexes(recordsByTitle, rs[..j], false)
    {
      IndexGrows(recordsByUID, rs, j, true);
      IndexGrows(recordsByTitle, rs, j, false);
      recordsByUID := recordsByUID[rs[j].uid := rs[j]];
      recordsByTitle := recordsByTitle[rs[j].title := rs[j]];
    }
    assert rs[..|rs|] == rs;
  }

  function NameOfRecord(r: Record, byUid: bool): string {
    if byUid then r.uid else r.title
  }

  lemma MatchesGrow(rs: seq<Record>, j: nat, n: string, byUid: bool)
    requires j < |rs|
    ensures MatchesOf(rs[..j + 1], n, byUid) ==
            MatchesOf(rs[..j], n, byUid) + if NameOfRecord(rs[j], byUid) == n then [rs[j]] else []
  {
    assert rs[..j + 1][..j] == rs[..j];
  }

  lemma IndexGrows(index: map<string, Record>, rs: seq<Record>, j: nat, byUid: bool)
    requires j < |rs| && Indexes(index, rs[..j], byUid)
    ensures Indexes(index[NameOfRecord(rs[j], byUid) := rs[j]], rs[..j + 1], byUid)
  {
    var grown, next := index[NameOfRecord(rs[j], byUid) := rs[j]], rs[..j + 1];
    forall n ensures IndexedLast(grown, n, MatchesOf(next, n, byUid)) {
      assert IndexedLast(index, n, MatchesOf(rs[..j], n, byUid));
      MatchesGrow(rs, j, n, byUid);
    }
  }

  /** One turn of the batch loop: the entry of one secret. */
  method FetchEntry(k: Keeper, ghost rs: seq<Record>, byUID: map<string, Record>, byTitle: map<string, Record>,
      ref: SecretRef) returns (e: Entry)
    requires Indexes(byUID, rs, true) && Indexes(byTitle, rs, false)
    ensures e == BatchEntry(k, rs, ref)
  {
    if ref.notation != "" {
      if ref.notation !in k.notations {
        return CallFails;
      }
      return Have(map["value" := Str(k.notations[ref.notation])]);
    } else if ref.isFile {
      if (ref.name, ref.fileName) !in k.files {
        return CallFails;
      }
      return Have(map[ref.fileName := Raw(k.files[(ref.name, ref.fileName)])]);
    }
    if WebhookUID(ref.name) {
      assert IndexedLast(byUID, ref.name, MatchesOf(rs, ref.name, true));
      return if ref.name in byUID then Have(byUID[ref.name].fields) else Missing;
    }
    assert IndexedLast(byTitle, ref.name, MatchesOf(rs, ref.name, false));
    return if ref.name in byTitle then Have(byTitle[ref.name].fields) else Missing;
  }

  /** The results so far: at each index what that secret's entry is, if it has one. */
  ghost predicate Holds(found: map<nat, Fields>, k: Keeper, rs: seq<Record>, refs: seq<SecretRef>, n: nat)
    requires n <= |refs|
  {
    forall i: nat {:trigger HoldsAt(found, k, rs, refs, n, i)} :: HoldsAt(found, k, rs, refs, n, i)
  }

  ghost predicate HoldsAt(found: map<nat, Fields>, k: Keeper, rs: seq<Record>, refs: seq<SecretRef>, n: nat, i: nat)
    requires n <= |refs|
  {
    if i < n && BatchEntry(k, rs, refs[i]).Have? then i in found && Have(found[i]) == BatchEntry(k, rs, refs[i])
    else i !in found
  }

  lemma HoldsGrows(found: map<nat, Fields>, k: Keeper, rs: seq<Record>, refs: seq<SecretRef>, n: nat)
    requires n < |refs| && Holds(found, k, rs, refs, n)
    ensures var e := BatchEntry(k, rs, refs[n]);
            Holds(if e.Have? then found[n := e.fields] else found, k, rs, refs, n + 1)
  {
    var e := BatchEntry(k, rs, refs[n]);
    var grown, m := if e.Have? then found[n := e.fields] else found, n + 1;
    forall i: nat ensures HoldsAt(grown, k, rs, refs, m, i) {
      assert HoldsAt(found, k, rs, refs, n, i);
    }
  }

  /** The batch holds at each secret's index what the record list, or its own call, yields for it; it fails as a whole
      when the list cannot be fetched or one secret spoils it. */
  method BatchFetchSecrets(k: Keeper, refs: seq<SecretRef>, failOnError: bool)
      returns (result: Option<map<nat, Fields>>)
    ensures result.None? <==>
            k.vault.records.None? || exists r :: r in refs && SpoilsBatch(k, k.vault.records.value, r, failOnError)
    ensures result.Some? ==> Holds(result.value, k, k.vault.records.value, refs, |refs|)
  {
    if k.vault.records.None? {
      return None;
    }
    var rs := k.vault.records.value;
    var recordsByUID, recordsByTitle := BuildIndexes(rs);
    var found: map<nat, Fields> := map[];
    for i := 0 to |refs|
      invariant forall r :: r in refs[..i] ==> !SpoilsBatch(k, rs, r, failOnError)
      invariant Holds(found, k, rs, refs, i)
    {
      var e := FetchEntry(k, rs, recordsByUID, recordsByTitle, refs[i]);
      if e.CallFails? || (e.Missing? && failOnError) {
        assert refs[i] in refs && SpoilsBatch(k, rs, refs[i], failOnError);
        return None;
      }
      HoldsGrows(found, k, rs, refs, i);
      if e.Have? {
        found := found[i := e.fields];
      }
    }
    assert refs[..|refs|] == refs;
    result := Some(found);
  }

  // ---------- the cluster ----------

  class Cluster {
    var secrets: Secrets

    /** createOrUpdateSecret. */
    method CreateOrUpdateSecret(key: Key, s: KSecret, api: Api, mode: string, ownerRef: bool)
        returns (err: Option<ReconcileError>)
      modifies this
      ensures (secrets, err) == Upsert(old(secrets), key, s, api, mode, ownerRef)
      ensures err.None? ==> forall other :: other != key ==> At(secrets, other) == At(old(secrets), other)
      ensures err.None? && key !in old(secrets) ==> At(secrets, key) == Some(s)
      ensures err.None? && key in old(secrets) && mode == "merge" ==>
                var e := old(secrets)[key];
                At(secrets, key) == Some(KSecret(
                  e.data + s.data, e.labels + s.labels, e.annotations + s.annotations,
                  if ownerRef && s.owners != [] then s.owners else e.owners, e.typ))
      ensures err.None? && key in old(secrets) && (mode == "overwrite" || mode == "") ==>
                var e := old(secrets)[key];
                At(secrets, key) ==
                  Some(KSecret(s.data, s.labels, s.annotations, if ownerRef then s.owners else e.owners, e.typ))
    {
      if api.GetFails? {
        return Some(ApiFailed);
      }
      if key !in secrets {
        if api.WriteFails? {
          return Some(ApiFailed);
        }
        secrets := secrets[key := s];
        return None;
      }
      var existing := secrets[key];
      if mode == "fail" {
        return Some(AlreadyExists);
      } else if mode == "skip-if-exists" {
        return None;
      } else if mode == "merge" {
        existing := existing.(data := existing.data + s.data, labels := existing.labels + s.labels,
          annotations := existing.annotations + s.annotations);
        if ownerRef && |s.owners| > 0 {
          existing := existing.(owners := s.owners);
        }
      } else if mode == "overwrite" || mode == "" {
        existing := existing.(data := s.data, labels := s.labels, annotations := s.annotations);
        if ownerRef {
          existing := existing.(owners := s.owners);
        }
      } else {
        return Some(UnknownMode);
      }
      if api.WriteFails? {
        return Some(ApiFailed);
      }
      secrets := secrets[key := existing];
      return None;
    }

    /** injectK8sSecrets, given whether the Keeper client can be created. `jobs` is what each secret, up to the first
        error, asked for. */
    method InjectK8sSecrets(pod: Pod, cfg: InjectionConfig, clientOk: bool, k: Keeper, apis: seq<Api>)
      returns (failed: bool, err: Option<ReconcileError>, ghost jobs: seq<Job>)
      requires |apis| == |cfg.secrets|
      modifies this
      ensures (secrets, err) == Reconcile(old(secrets), jobs, cfg.k8sSecretMode, cfg.k8sSecretOwnerRef)
      ensures jobs != [] ==> k.vault.records.Some? && JobsOf(pod, cfg, k, k.vault.records.value, apis, jobs)
      ensures if !cfg.injectAsK8sSecret || cfg.secrets == [] then !failed && jobs == []
              else if !clientOk || !BatchSucceeds(k, cfg) then failed == cfg.failOnError && jobs == []
              else failed == err.Some? && (!failed ==> |jobs| == |cfg.secrets|)
    {
      jobs := [];
      if !cfg.injectAsK8sSecret {
        return false, None, jobs;
      }
      var refs := FilterK8sSecretConfigs(cfg);
      if |refs| == 0 {
        return false, None, jobs;
      }
      if !clientOk {
        return cfg.failOnError, None, jobs;
      }
      var batch := BatchFetchSecrets(k, refs, cfg.failOnError);
      if batch.None? {
        // Without fail-on-error the map stays empty, so that every turn of the loop would be skipped.
        return cfg.failOnError, None, jobs;
      }
      err, jobs := ApplySecrets(pod, cfg, k, batch.value, apis);
      failed := err.Some?;
    }

    /** The create/update loop of injectK8sSecrets. */
    method ApplySecrets(pod: Pod, cfg: InjectionConfig, ghost k: Keeper, secretsData: map<nat, Fields>, apis: seq<Api>)
      returns (err: Option<ReconcileError>, ghost jobs: seq<Job>)
      requires |apis| == |cfg.secrets| && BatchSucceeds(k, cfg)
      requires Holds(secretsData, k, k.vault.records.value, cfg.secrets, |cfg.secrets|)
      modifies this
      ensures (secrets, err) == Reconcile(old(secrets), jobs, cfg.k8sSecretMode, cfg.k8sSecretOwnerRef)
      ensures JobsOf(pod, cfg, k, k.vault.records.value, apis, jobs) && (err.None? ==> |jobs| == |cfg.secrets|)
    {
      jobs := [];
      ghost var rs := k.vault.records.value;
      for i := 0 to |cfg.secrets|
        invariant |jobs| == i && JobsOf(pod, cfg, k, rs, apis, jobs)
        invariant (secrets, None) == Reconcile(old(secrets), jobs, cfg.k8sSecretMode, cfg.k8sSecretOwnerRef)
      {
        var ref := cfg.secrets[i];
        assert ref in cfg.secrets && !SpoilsBatch(k, rs, ref, cfg.failOnError);
        assert HoldsAt(secretsData, k, rs, cfg.secrets, |cfg.secrets|, i);
        ghost var job;
        err, job := ApplySecret(
          pod, cfg, ref, BatchEntry(k, rs, ref), if i in secretsData then Some(secretsData[i]) else None, apis[i]);
        ghost var before := jobs;
        jobs := jobs + [job];
        assert jobs[..i] == before;
        if err.Some? {
          return;
        }
      }
      err := None;
    }

    /** One turn of that loop. */
    method ApplySecret(pod: Pod, cfg: InjectionConfig, ref: SecretRef, ghost e: Entry, data: Option<Fields>, api: Api)
      returns (err: Option<ReconcileError>, ghost job: Job)
      requires match data case Some(fields) => e == Have(fields) case None => e.Missing?
      modifies this
      ensures JobOf(pod, cfg, ref, e, api, job)
      ensures (secrets, err) == Step(old(secrets), job, cfg.k8sSecretMode, cfg.k8sSecretOwnerRef)
    {
      if data.None? {
        return None, Absent;
      }
      var key, built := BuildK8sSecret(pod, ref, data.value, cfg);
      if built.None? {
        return Some(NoName), Unnamed;
      }
      job := Put(key, built.value, api);
      var fits := ValidateSecretSize(built.value.data);
      if !fits {
        return Some(TooBig), job;
      }
      err := CreateOrUpdateSecret(key, built.value, api, cfg.k8sSecretMode, cfg.k8sSecretOwnerRef);
    }

    /** updateK8sSecrets, given whether there is a Kubernetes client, the configured namespace and the POD_NAMESPACE
        variable; `rs` is what each secret asked for. */
    method UpdateK8sSecrets(hasClient: bool, configured: string, podNamespace: string, refs: seq<SecretRef>, k: Keeper,
        apis: seq<Api>)
      returns (ghost rs: seq<Refresh>)
      requires |apis| == |refs|
      modifies this
      ensures secrets == Rotate(old(secrets), rs)
      ensures !hasClient ==> rs == []
      ensures hasClient ==> RefreshesOf(refs, RotationNamespace(configured, podNamespace), k, apis, rs)
    {
      rs := [];
      if !hasClient {
        return;
      }
      var namespace := configured;
      if namespace == "" {
        namespace := podNamespace;
        if namespace == "" {
          namespace := "default";
        }
      }
      for i := 0 to |refs|
        invariant |rs| == i && secrets == Rotate(old(secrets), rs)
        invariant forall j :: 0 <= j < i ==> RefreshOf(refs[j], namespace, SingleEntry(k, refs[j]), apis[j], rs[j])
      {
        ghost var r := UpdateK8sSecret(refs[i], namespace, k, apis[i]);
        ghost var before := rs;
        rs := rs + [r];
        assert rs[..i] == before;
      }
    }

    /** One turn of that loop. */
    method UpdateK8sSecret(ref: SecretRef, namespace: string, k: Keeper, api: Api) returns (ghost r: Refresh)
      modifies this
      ensures RefreshOf(ref, namespace, SingleEntry(k, ref), api, r)
      ensures secrets == RefreshStep(old(secrets), r)
    {
      if !ref.injectAsK8sSecret || ref.k8sSecretName == "" {
        return NotSelected;
      }
      var entry := FetchOne(k, ref);
      if !entry.Have? {
        return FetchFails;
      }
      var key := Key(namespace, ref.k8sSecretName);
      if api.GetFails? || key !in secrets {
        r := Update(key, SomeProjection(ref, entry.fields), api);
        return;
      }
      var data := CopyFields(ref, entry.fields, secrets[key].data);
      ghost var p := OverlayAddsProjection(data, secrets[key].data, ref, entry.fields);
      r := Update(key, p, api);
      if api.Works? {
        secrets := secrets[key := secrets[key].(data := data)];
      }
    }
  }

  /** The fetch branches of updateK8sSecrets. */
  method FetchOne(k: Keeper, ref: SecretRef) returns (e: Entry)
    ensures e == SingleEntry(k, ref)
  {
    if ref.notation != "" {
      if ref.notation !in k.notations {
        return CallFails;
      }
      return Have(map["value" := Str(k.notations[ref.notation])]);
    } else if ref.isFile {
      if (ref.name, ref.fileName) !in k.files {
        return CallFails;
      }
      return Have(map[ref.fileName := Raw(k.files[(ref.name, ref.fileName)])]);
    }
    var r := GetSecret(k.vault, k.strict, ref.name);
    match r
    case Picked(record) => e := Have(record.fields);
    case NotPicked(error) => e := if error == NoRecord then Missing else CallFails;
  }

  /** The job a secret gives rise to, from what the batch holds for it. */
  ghost predicate JobOf(pod: Pod, cfg: InjectionConfig, ref: SecretRef, e: Entry, api: Api, job: Job) {
    match job
    case Absent => e.Missing?
    case Unnamed => e.Have? && TargetName(ref, cfg) == ""
    case Put(key, s, a) =>
      e.Have? && TargetName(ref, cfg) != "" && key == TargetKey(pod, ref, cfg) && a == api &&
      Built(s, pod, ref, e.fields, cfg)
  }

  ghost predicate JobsOf(pod: Pod, cfg: InjectionConfig, k: Keeper, rs: seq<Record>, apis: seq<Api>, jobs: seq<Job>)
    requires |apis| == |cfg.secrets|
  {
    |jobs| <= |cfg.secrets| && forall i :: 0 <= i < |jobs| ==>
      JobOf(pod, cfg, cfg.secrets[i], BatchEntry(k, rs, cfg.secrets[i]), apis[i], jobs[i])
  }

  /** The record list can be fetched, and no secret spoils the batch. */
  ghost predicate BatchSucceeds(k: Keeper, cfg: InjectionConfig) {
    k.vault.records.Some? && forall r :: r in cfg.secrets ==> !SpoilsBatch(k, k.vault.records.value, r, cfg.failOnError)
  }

  /** The namespace rotation works in: the configured one, the pod's, or "default". */
  function RotationNamespace(configured: string, podNamespace: string): string {
    if configured != "" then configured else if podNamespace != "" then podNamespace else "default"
  }

  /** What one rotation pass asks for, secret by secret. */
  ghost predicate RefreshesOf(refs: seq<SecretRef>, namespace: string, k: Keeper, apis: seq<Api>, rs: seq<Refresh>)
    requires |apis| == |refs|
  {
    |rs| == |refs| && forall i :: 0 <= i < |refs| ==>
      RefreshOf(refs[i], namespace, SingleEntry(k, refs[i]), apis[i], rs[i])
  }

  /** The refresh a secret gives rise to, from what was fetched for it. */
  ghost predicate RefreshOf(ref: SecretRef, namespace: string, e: Entry, api: Api, r: Refresh) {
    var selected := ref.injectAsK8sSecret && ref.k8sSecretName != "";
    match r
    case NotSelected => !selected
    case FetchFails => selected && !e.Have?
    case Update(key, data, a) =>
      selected && e.Have? && key == Key(namespace, ref.k8sSecretName) && a == api && IsProjection(data, ref, e.fields)
  }
}
