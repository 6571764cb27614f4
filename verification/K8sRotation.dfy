/** The batched lookup against single lookups, and rotation against injection. */
module K8sRotation {
  import opened Text
  import opened Values
  import opened Annotations
  import opened Records
  import opened K8sModel
  import opened K8s
  import opened K8sTheorems

  // ---------- the batch index against single lookups ----------

  ghost predicate DistinctRecords(rs: seq<Record>) {
    forall i, j :: 0 <= i < j < |rs| ==> rs[i].uid != rs[j].uid && rs[i].title != rs[j].title
  }

  /** If no two records of a list pass a test, at most one is let through. */
  lemma {:induction false} AtMostOneMatch(rs: seq<Record>, p: Record -> bool)
    requires forall i, j :: 0 <= i < j < |rs| ==> !(p(rs[i]) && p(rs[j]))
    ensures |Filter(rs, p)| <= 1
  {
    if rs != [] {
      var init, last := rs[..|rs| - 1], rs[|rs| - 1];
      AtMostOneMatch(init, p);
      if p(last) {
        forall r | r in init ensures !p(r) {
          var i :| 0 <= i < |init| && init[i] == r;
          assert rs[i] == r && rs[|rs| - 1] == last;
        }
        FilterNone(init, p);
      }
    }
  }

  predicate IsPlain(ref: SecretRef) {
    ref.notation == "" && !ref.isFile
  }

  predicate Bears(r: Record, n: string, byUid: bool) {
    NameOfRecord(r, byUid) == n
  }

  /** Where the first record of a UID, or of a title, is. */
  function FirstAt(rs: seq<Record>, n: string, byUid: bool): (r: Option<nat>)
    ensures r.Some? ==> r.value < |rs|
  {
    if rs == [] then None
    else
      var last, before := |rs| - 1, FirstAt(rs[..|rs| - 1], n, byUid);
      if before.None? && Bears(rs[last], n, byUid) then Some(last) else before
  }

  /** Where the last one is. */
  function LastAt(rs: seq<Record>, n: string, byUid: bool): (r: Option<nat>)
    ensures r.Some? ==> r.value < |rs|
  {
    if rs == [] then None
    else if Bears(rs[|rs| - 1], n, byUid) then Some(|rs| - 1)
    else LastAt(rs[..|rs| - 1], n, byUid)
  }

  lemma {:induction false} FirstMatch(rs: seq<Record>, n: string, byUid: bool)
    ensures var ms := MatchesOf(rs, n, byUid);
            match FirstAt(rs, n, byUid) case None => ms == [] case Some(i) => ms != [] && ms[0] == rs[i]
  {
    if rs != [] {
      FirstMatch(rs[..|rs| - 1], n, byUid);
    }
  }

  lemma {:induction false} LastMatch(rs: seq<Record>, n: string, byUid: bool)
    ensures var ms := MatchesOf(rs, n, byUid);
            match LastAt(rs, n, byUid) case None => ms == [] case Some(i) => ms != [] && ms[|ms| - 1] == rs[i]
  {
    if rs != [] {
      LastMatch(rs[..|rs| - 1], n, byUid);
    }
  }

  lemma {:induction false} OneMatchIff(rs: seq<Record>, n: string, byUid: bool)
    ensures FirstAt(rs, n, byUid) == LastAt(rs, n, byUid) <==> |MatchesOf(rs, n, byUid)| <= 1
  {
    if rs != [] {
      OneMatchIff(rs[..|rs| - 1], n, byUid);
      FirstMatch(rs[..|rs| - 1], n, byUid);
    }
  }

  /** The same records with other fields. */
  function WithFields(rs: seq<Record>, fields: seq<Fields>): (r: seq<Record>)
    requires |fields| == |rs|
    ensures |r| == |rs|
  {
    seq(|rs|, i requires 0 <= i < |rs| => rs[i].(fields := fields[i]))
  }

  /** Fields do not matter for what is found where. */
  lemma {:induction false} SamePlaces(rs: seq<Record>, fields: seq<Fields>, n: string, byUid: bool)
    requires |fields| == |rs|
    ensures var qs := WithFields(rs, fields);
            FirstAt(qs, n, byUid) == FirstAt(rs, n, byUid) && LastAt(qs, n, byUid) == LastAt(rs, n, byUid) &&
            |MatchesOf(qs, n, byUid)| == |MatchesOf(rs, n, byUid)|
  {
    if rs != [] {
      var last := |rs| - 1;
      SamePlaces(rs[..last], fields[..last], n, byUid);
      assert WithFields(rs, fields)[..last] == WithFields(rs[..last], fields[..last]);
    }
  }

  /** The single lookup of a name refuses to choose. */
  predicate Refused(k: Keeper, rs: seq<Record>, name: string) {
    k.strict && !ClientUID(name) && |MatchesOf(rs, name, false)| > 1
  }

  /** What the batch takes is what is last under its own UID test, and what a single lookup finds is what is first under
      the client's, unless strict mode refuses. */
  lemma EntriesAre(k: Keeper, ref: SecretRef)
    requires k.vault.records.Some? && IsPlain(ref)
    ensures var rs := k.vault.records.value;
            BatchEntry(k, rs, ref) ==
              (match LastAt(rs, ref.name, WebhookUID(ref.name))
               case None => Missing
               case Some(i) => Have(rs[i].fields)) &&
            SingleEntry(k, ref) ==
              if Refused(k, rs, ref.name) then CallFails
              else
                match FirstAt(rs, ref.name, ClientUID(ref.name))
                case None => Missing
                case Some(i) => Have(rs[i].fields)
  {
    LastMatch(k.vault.records.value, ref.name, WebhookUID(ref.name));
    FirstMatch(k.vault.records.value, ref.name, ClientUID(ref.name));
  }

  /** The batch and a single lookup agree on the secret, whatever fields the records hold. */
  ghost predicate AlwaysAgree(k: Keeper, ref: SecretRef)
    requires k.vault.records.Some?
  {
    var rs := k.vault.records.value;
    forall fields: seq<Fields> :: |fields| == |rs| ==>
      BatchEntry(k, WithFields(rs, fields), ref) ==
        SingleEntry(k.(vault := k.vault.(records := Some(WithFields(rs, fields)))), ref)
  }

  /** For a plain secret that is so exactly when nothing is refused and the last record under the webhook's UID test is
      the first under the client's; where the tests agree, exactly when there is at most one record of the name. */
  lemma BatchAgreesIff(k: Keeper, ref: SecretRef)
    requires k.vault.records.Some? && IsPlain(ref)
    ensures var rs := k.vault.records.value;
            AlwaysAgree(k, ref) <==>
            !Refused(k, rs, ref.name) &&
              LastAt(rs, ref.name, WebhookUID(ref.name)) == FirstAt(rs, ref.name, ClientUID(ref.name))
    ensures WebhookUID(ref.name) == ClientUID(ref.name) ==>
              (AlwaysAgree(k, ref) <==> |MatchesOf(k.vault.records.value, ref.name, ClientUID(ref.name))| <= 1)
  {
    var rs := k.vault.records.value;
    OneMatchIff(rs, ref.name, ClientUID(ref.name));
    if !Refused(k, rs, ref.name) &&
       LastAt(rs, ref.name, WebhookUID(ref.name)) == FirstAt(rs, ref.name, ClientUID(ref.name)) {
      AgreeOnSameRecord(k, ref);
    } else {
      DifferOtherwise(k, ref);
    }
  }

  lemma AgreeOnSameRecord(k: Keeper, ref: SecretRef)
    requires k.vault.records.Some? && IsPlain(ref) && !Refused(k, k.vault.records.value, ref.name)
    requires var rs := k.vault.records.value;
             LastAt(rs, ref.name, WebhookUID(ref.name)) == FirstAt(rs, ref.name, ClientUID(ref.name))
    ensures AlwaysAgree(k, ref)
  {
    var rs := k.vault.records.value;
    forall fields: seq<Fields> | |fields| == |rs|
      ensures BatchEntry(k, WithFields(rs, fields), ref) ==
              SingleEntry(k.(vault := k.vault.(records := Some(WithFields(rs, fields)))), ref)
    {
      EntriesWithFields(k, ref, fields);
    }
  }

  /** Fields that tell one record from all others. */
  function Marking(n: nat, marked: Option<nat>): (fields: seq<Fields>)
    ensures |fields| == n && forall i: nat :: i < n ==> ("f" in fields[i] <==> marked == Some(i))
  {
    seq(n, i => if marked == Some(i) then map["f" := Str("a")] else map[])
  }

  /** What is entered for the record at a place, if there is one. */
  function EntryAt(fields: seq<Fields>, place: Option<nat>): Entry
    requires place.Some? ==> place.value < |fields|
  {
    match place case None => Missing case Some(i) => Have(fields[i])
  }

  lemma MarkedApart(n: nat, a: Option<nat>, b: Option<nat>)
    requires (a.Some? ==> a.value < n) && (b.Some? ==> b.value < n) && a != b
    ensures EntryAt(Marking(n, a), a) != EntryAt(Marking(n, a), b)
  {
  }

  lemma DifferOtherwise(k: Keeper, ref: SecretRef)
    requires k.vault.records.Some? && IsPlain(ref)
    requires var rs := k.vault.records.value;
             Refused(k, rs, ref.name) ||
             LastAt(rs, ref.name, WebhookUID(ref.name)) != FirstAt(rs, ref.name, ClientUID(ref.name))
    ensures !AlwaysAgree(k, ref)
  {
    var rs := k.vault.records.value;
    var batched, found := LastAt(rs, ref.name, WebhookUID(ref.name)), FirstAt(rs, ref.name, ClientUID(ref.name));
    var fields := Marking(|rs|, batched);
    EntriesWithFields(k, ref, fields);
    if !Refused(k, rs, ref.name) {
      MarkedApart(|rs|, batched, found);
    }
  }

  lemma EntriesWithFields(k: Keeper, ref: SecretRef, fields: seq<Fields>)
    requires k.vault.records.Some? && IsPlain(ref) && |fields| == |k.vault.records.value|
    ensures var rs := k.vault.records.value;
            var qs := WithFields(rs, fields);
            BatchEntry(k, qs, ref) == EntryAt(fields, LastAt(rs, ref.name, WebhookUID(ref.name))) &&
            SingleEntry(k.(vault := k.vault.(records := Some(qs))), ref) ==
            if Refused(k, rs, ref.name) then CallFails else EntryAt(fields, FirstAt(rs, ref.name, ClientUID(ref.name)))
  {
    var rs := k.vault.records.value;
    SamePlaces(rs, fields, ref.name, WebhookUID(ref.name));
    SamePlaces(rs, fields, ref.name, ClientUID(ref.name));
    SamePlaces(rs, fields, ref.name, false);
    EntriesAre(k.(vault := k.vault.(records := Some(WithFields(rs, fields)))), ref);
  }

  /** With distinct titles and UIDs, and names on which the two UID tests agree, the batch holds for every
      secret exactly what a single lookup finds, strict mode or not. */
  lemma BatchAgrees(k: Keeper, ref: SecretRef)
    requires k.vault.records.Some? && DistinctRecords(k.vault.records.value)
    requires IsPlain(ref) ==> WebhookUID(ref.name) == ClientUID(ref.name)
    ensures BatchEntry(k, k.vault.records.value, ref) == SingleEntry(k, ref)
  {
    if IsPlain(ref) {
      var rs := k.vault.records.value;
      AtMostOneMatch(rs, (r: Record) => r.uid == ref.name);
      AtMostOneMatch(rs, (r: Record) => r.title == ref.name);
    }
  }

  /** The webhook takes more names for UIDs than the client: those of 22 characters, none a space,
      of which some is no letter, digit, dash or underscore. Titles of that form are found by the client only. */
  lemma UidTestsDifferIff(s: string)
    ensures WebhookUID(s) != ClientUID(s) <==> |s| == 22 && ' ' !in s && exists c :: c in s && !IsUidChar(c)
  {
    assert !IsUidChar(' ');
  }

  // ---------- one record, one projection ----------

  lemma ProjectionsEqual(p: Data, q: Data, ref: SecretRef, fields: Fields)
    requires Unambiguous(ref, fields) && IsProjection(p, ref, fields) && IsProjection(q, ref, fields)
    ensures p == q
  {
    forall key ensures At(p, key) == At(q, key) {
      assert OverlaysAt(p, map[], ref, fields, fields.Keys, key) && OverlaysAt(q, map[], ref, fields, fields.Keys, key);
    }
    SameMap(p, q);
  }

  /** The data of a record is determined, whatever the map order, exactly when fields written under one key are
      equal. */
  lemma DeterminedIffUnambiguous(ref: SecretRef, fields: Fields)
    ensures (forall p, q :: IsProjection(p, ref, fields) && IsProjection(q, ref, fields) ==> p == q) <==>
            Unambiguous(ref, fields)
  {
    if Unambiguous(ref, fields) {
      forall p, q | IsProjection(p, ref, fields) && IsProjection(q, ref, fields) ensures p == q {
        ProjectionsEqual(p, q, ref, fields);
      }
    } else {
      var f, g :| f in fields && g in fields && Route(ref, f).Some? && Route(ref, f) == Route(ref, g) &&
                  ValueToBytes(fields[f]) != ValueToBytes(fields[g]);
      var p := SomeProjection(ref, fields);
      OverlayGrows(p, map[], ref, fields, fields.Keys, f);
      OverlayGrows(p, map[], ref, fields, fields.Keys, g);
      assert fields.Keys + {f} == fields.Keys && fields.Keys + {g} == fields.Keys;
      var pf, pg := WithField(p, ref, fields, f), WithField(p, ref, fields, g);
      assert IsProjection(pf, ref, fields) && IsProjection(pg, ref, fields);
      var key := Route(ref, f).value;
      assert pf[key] != pg[key];
    }
  }

  // ---------- rotation: overridden in list order ----------

  /** The last refresh of a target that goes through and carries a data key. */
  function LastRefresh(rs: seq<Refresh>, key: Key, k: string): Option<Bytes> {
    if rs == [] then None
    else
      var last := rs[|rs| - 1];
      if last.Update? && last.api.Works? && last.key == key && k in last.data then Some(last.data[k])
      else LastRefresh(rs[..|rs| - 1], key, k)
  }

  /** After rotation a Secret holds under every data key the last refreshed bytes, or what it held before;
      everything else about it, and the set of Secrets, is unchanged. */
  lemma {:induction false} RotationOverrides(c: Secrets, rs: seq<Refresh>, key: Key, k: string)
    ensures var after := Rotate(c, rs);
            (key in after <==> key in c) &&
            (key in c ==>
               DataAt(At(after, key), k) ==
               (if LastRefresh(rs, key, k).Some? then LastRefresh(rs, key, k) else DataAt(At(c, key), k)) &&
               after[key] == c[key].(data := after[key].data))
  {
    if rs != [] {
      RotationOverrides(c, rs[..|rs| - 1], key, k);
    }
  }

  // ---------- injecting, then rotating with the same records ----------

  /** The refresh writes what the job wrote, to the same Secret. */
  predicate SameWrite(job: Job, r: Refresh) {
    if job.Put? then r == Update(job.key, job.secret.data, Works) else !r.Update?
  }

  /** A secret with a target of its own, injected and rotated from equal fields that determine its data, is written
      alike. */
  lemma SameRecordsSameWrites(pod: Pod, cfg: InjectionConfig, ref: SecretRef, e: Entry, api: Api, job: Job,
      namespace: string, r: Refresh)
    requires JobOf(pod, cfg, ref, e, api, job) && RefreshOf(ref, namespace, e, Works, r)
    requires ref.injectAsK8sSecret && ref.k8sSecretName != "" && namespace == TargetKey(pod, ref, cfg).namespace
    requires e.Have? ==> Unambiguous(ref, e.fields)
    ensures SameWrite(job, r)
  {
    if job.Put? {
      ProjectionsEqual(job.secret.data, r.data, ref, e.fields);
    }
  }

  lemma {:induction false} SameWriters(jobs: seq<Job>, rs: seq<Refresh>, key: Key, k: string)
    requires |jobs| == |rs| && forall i :: 0 <= i < |jobs| ==> SameWrite(jobs[i], rs[i])
    ensures LastRefresh(rs, key, k) == LastWriter(jobs, key, k)
  {
    if jobs != [] {
      SameWriters(jobs[..|jobs| - 1], rs[..|rs| - 1], key, k);
      assert SameWrite(jobs[|jobs| - 1], rs[|rs| - 1]);
    }
  }

  /** The Secrets rotation leaves as they are: those whose data already holds every last refreshed value. */
  lemma RotationSettles(c: Secrets, rs: seq<Refresh>)
    requires forall key, k :: key in c && LastRefresh(rs, key, k).Some? ==>
             DataAt(At(c, key), k) == LastRefresh(rs, key, k)
    ensures Rotate(c, rs) == c
  {
    var after := Rotate(c, rs);
    forall key ensures At(after, key) == At(c, key) {
      RotationOverrides(c, rs, key, "");
      if key in c {
        forall k ensures At(after[key].data, k) == At(c[key].data, k) {
          RotationOverrides(c, rs, key, k);
          assert DataAt(At(after, key), k) == DataAt(At(c, key), k);
        }
        SameMap(after[key].data, c[key].data);
      }
    }
    SameMap(after, c);
  }

  /** After a merge injection, rotating with the same records changes nothing. */
  lemma RotationAfterMerge(c: Secrets, jobs: seq<Job>, ownerRef: bool, rs: seq<Refresh>)
    requires Reconcile(c, jobs, "merge", ownerRef).1.None?
    requires |jobs| == |rs| && forall i :: 0 <= i < |jobs| ==> SameWrite(jobs[i], rs[i])
    ensures var after := Reconcile(c, jobs, "merge", ownerRef).0;
            Rotate(after, rs) == after
  {
    var after := Reconcile(c, jobs, "merge", ownerRef).0;
    forall key, k | key in after && LastRefresh(rs, key, k).Some?
      ensures DataAt(At(after, key), k) == LastRefresh(rs, key, k)
    {
      SameWriters(jobs, rs, key, k);
      MergeLastWriter(c, jobs, ownerRef, key, k);
    }
    RotationSettles(after, rs);
  }

  /** The secret is selected for rotation under a name of its own, its name is looked up alike, and its data is
      determined. */
  ghost predicate RotatesLikeInjected(k: Keeper, ref: SecretRef) {
    ref.injectAsK8sSecret && ref.k8sSecretName != "" &&
    (IsPlain(ref) ==> WebhookUID(ref.name) == ClientUID(ref.name)) &&
    (SingleEntry(k, ref).Have? ==> Unambiguous(ref, SingleEntry(k, ref).fields))
  }

  /** A pod's secrets injected from a Keeper state, all of them, and rotated from the same one in the same namespace by
      calls that work; the batch and the single lookups agree, and no two fields with different bytes go under one
      key. */
  ghost predicate FromOneState(
    pod: Pod, cfg: InjectionConfig, k: Keeper, apis: seq<Api>, jobs: seq<Job>, namespace: string, works: seq<Api>,
      rs: seq<Refresh>)
  {
    k.vault.records.Some? && DistinctRecords(k.vault.records.value) &&
    |apis| == |cfg.secrets| == |jobs| == |rs| == |works| &&
    JobsOf(pod, cfg, k, k.vault.records.value, apis, jobs) &&
    RefreshesOf(cfg.secrets, namespace, k, works, rs) && (forall i :: 0 <= i < |works| ==> works[i] == Works) &&
    namespace == (if cfg.k8sSecretNamespace != "" then cfg.k8sSecretNamespace else pod.namespace) &&
    forall ref :: ref in cfg.secrets ==> RotatesLikeInjected(k, ref)
  }

  /** The whole way: a pod's secrets injected by merging, each into a Secret it names itself, and then rotated from the
      same Keeper state: rotation finds nothing to change, provided the batch and the single lookups agree and no two
      fields with different bytes go under one key. */
  lemma InjectThenRotate(
    c: Secrets, pod: Pod, cfg: InjectionConfig, k: Keeper, apis: seq<Api>, jobs: seq<Job>, namespace: string,
      works: seq<Api>, rs: seq<Refresh>)
    requires FromOneState(pod, cfg, k, apis, jobs, namespace, works, rs)
    requires Reconcile(c, jobs, "merge", cfg.k8sSecretOwnerRef).1.None?
    ensures var after := Reconcile(c, jobs, "merge", cfg.k8sSecretOwnerRef).0;
            Rotate(after, rs) == after
  {
    SameStateSameWrites(pod, cfg, k, apis, jobs, namespace, works, rs);
    RotationAfterMerge(c, jobs, cfg.k8sSecretOwnerRef, rs);
  }

  /** A pod injected from a Keeper state and rotated from the same one is written alike, secret by secret. */
  lemma SameStateSameWrites(
    pod: Pod, cfg: InjectionConfig, k: Keeper, apis: seq<Api>, jobs: seq<Job>, namespace: string, works: seq<Api>,
      rs: seq<Refresh>)
    requires FromOneState(pod, cfg, k, apis, jobs, namespace, works, rs)
    ensures |jobs| == |rs| && forall i :: 0 <= i < |jobs| ==> SameWrite(jobs[i], rs[i])
  {
    forall i | 0 <= i < |jobs| ensures SameWrite(jobs[i], rs[i]) {
      var ref := cfg.secrets[i];
      assert ref in cfg.secrets && works[i] == Works;
      BatchAgrees(k, ref);
      SameRecordsSameWrites(pod, cfg, ref, SingleEntry(k, ref), apis[i], jobs[i], namespace, rs[i]);
    }
  }

  /** The last secret of every target carries every data key that any secret writes to it. */
  ghost predicate LastCarriesAll(jobs: seq<Job>) {
    forall key, k :: LastWriter(jobs, key, k).Some? ==> DataAt(LastFor(jobs, key), k).Some?
  }

  lemma {:induction false} LastWriterOfLast(jobs: seq<Job>, key: Key, k: string)
    ensures DataAt(LastFor(jobs, key), k).Some? ==> LastWriter(jobs, key, k) == DataAt(LastFor(jobs, key), k)
  {
    if jobs != [] {
      LastWriterOfLast(jobs[..|jobs| - 1], key, k);
    }
  }

  lemma OverwrittenData(c: Secrets, jobs: seq<Job>, mode: string, ownerRef: bool, key: Key, k: string)
    requires mode == "overwrite" || mode == ""
    requires Reconcile(c, jobs, mode, ownerRef).1.None? && LastFor(jobs, key).Some?
    ensures DataAt(At(Reconcile(c, jobs, mode, ownerRef).0, key), k) == DataAt(LastFor(jobs, key), k)
    ensures key in Reconcile(c, jobs, mode, ownerRef).0
  {
    OverwriteLastWins(c, jobs, mode, ownerRef, key);
  }

  lemma {:induction false} WriterIsTargeting(jobs: seq<Job>, key: Key, k: string)
    requires LastWriter(jobs, key, k).Some?
    ensures LastFor(jobs, key).Some?
  {
    if !Targets(jobs[|jobs| - 1], key) {
      WriterIsTargeting(jobs[..|jobs| - 1], key, k);
    }
  }

  /** After an overwrite injection, rotating with the same records changes nothing exactly when no secret writes
      a key that the last one of its target does not carry: otherwise rotation brings replaced keys back. */
  lemma RotationAfterOverwriteIff(c: Secrets, jobs: seq<Job>, mode: string, ownerRef: bool, rs: seq<Refresh>)
    requires mode == "overwrite" || mode == ""
    requires Reconcile(c, jobs, mode, ownerRef).1.None?
    requires |jobs| == |rs| && forall i :: 0 <= i < |jobs| ==> SameWrite(jobs[i], rs[i])
    ensures var after := Reconcile(c, jobs, mode, ownerRef).0;
            Rotate(after, rs) == after <==> LastCarriesAll(jobs)
  {
    var after := Reconcile(c, jobs, mode, ownerRef).0;
    if LastCarriesAll(jobs) {
      forall key, k | key in after && LastRefresh(rs, key, k).Some?
        ensures DataAt(At(after, key), k) == LastRefresh(rs, key, k)
      {
        SameWriters(jobs, rs, key, k);
        LastWriterOfLast(jobs, key, k);
        OverwrittenData(c, jobs, mode, ownerRef, key, k);
      }
      RotationSettles(after, rs);
    } else {
      var key, k :| LastWriter(jobs, key, k).Some? && DataAt(LastFor(jobs, key), k).None?;
      WriterIsTargeting(jobs, key, k);
      OverwrittenData(c, jobs, mode, ownerRef, key, k);
      SameWriters(jobs, rs, key, k);
      RotationOverrides(after, rs, key, k);
    }
  }

  /** The whole way under overwrite: rotation finds nothing to change exactly when the last secret of every target
      carries every data key that any secret of it has. */
  lemma OverwriteThenRotateIff(
    c: Secrets, pod: Pod, cfg: InjectionConfig, k: Keeper, apis: seq<Api>, jobs: seq<Job>, namespace: string,
      works: seq<Api>, rs: seq<Refresh>)
    requires FromOneState(pod, cfg, k, apis, jobs, namespace, works, rs)
    requires cfg.k8sSecretMode == "overwrite" || cfg.k8sSecretMode == ""
    requires Reconcile(c, jobs, cfg.k8sSecretMode, cfg.k8sSecretOwnerRef).1.None?
    ensures var after := Reconcile(c, jobs, cfg.k8sSecretMode, cfg.k8sSecretOwnerRef).0;
            Rotate(after, rs) == after <==> LastCarriesAll(jobs)
  {
    SameStateSameWrites(pod, cfg, k, apis, jobs, namespace, works, rs);
    RotationAfterOverwriteIff(c, jobs, cfg.k8sSecretMode, cfg.k8sSecretOwnerRef, rs);
  }

  // ---------- rotation as it is wired ----------

  /** The secret as the sidecar's configuration carries it: nothing about Kubernetes Secrets is passed on. */
  function Wired(ref: SecretRef): SecretRef {
    NewRef(ref.name, ref.format).(path := ref.path, fields := ref.fields, notation := ref.notation,
      fileName := ref.fileName, isFile := ref.isFile)
  }

  lemma {:induction false} NothingSelected(c: Secrets, rs: seq<Refresh>)
    requires forall i :: 0 <= i < |rs| ==> rs[i] == NotSelected
    ensures Rotate(c, rs) == c
  {
    if rs != [] {
      NothingSelected(c, rs[..|rs| - 1]);
    }
  }

  /** With the configuration the webhook hands to the sidecar, rotation selects no secret and updates nothing. */
  lemma WiredRotationIsIdle(c: Secrets, refs: seq<SecretRef>, namespace: string, k: Keeper, apis: seq<Api>,
      rs: seq<Refresh>)
    requires |apis| == |refs| && RefreshesOf(seq(|refs|, i requires 0 <= i < |refs| => Wired(refs[i])), namespace, k,
             apis, rs)
    ensures Rotate(c, rs) == c
  {
    forall i | 0 <= i < |rs| ensures rs[i] == NotSelected {
      assert RefreshOf(Wired(refs[i]), namespace, SingleEntry(k, Wired(refs[i])), apis[i], rs[i]);
    }
    NothingSelected(c, rs);
  }
}
