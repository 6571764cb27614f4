/** Running the reconcile loop again in the updating modes where secrets share a target, or where data is refused for
    its size in some orders only. */
module K8sSharedTargets {
  import opened Text
  import opened Values
  import opened Annotations
  import opened K8sModel
  import opened K8s
  import opened K8sTheorems
  import opened K8sRotation
  import opened K8sIdempotence

  // ---------- how far a run gets ----------

  /** Some run gets through the first `n` secrets and no further. */
  ghost predicate CanStop(st: Setting, n: nat)
    requires st.k.vault.records.Some?
  {
    n <= |st.cfg.secrets| && (forall i: nat :: i < n ==> CanPass(st, i)) &&
      (n < |st.cfg.secrets| ==> !AlwaysPasses(st, n))
  }

  /** The jobs of a run that gets through the first `n` secrets and no further. */
  ghost predicate RunTo(st: Setting, js: seq<Job>, n: nat)
    requires st.k.vault.records.Some?
  {
    IsRun(st, js) && n <= |js| && (forall i: nat :: i < n ==> Sane(js[i])) && (n < |js| ==> !Sane(js[n]))
  }

  lemma {:induction false} SaneUpTo(jobs: seq<Job>, m: nat) returns (n: nat)
    requires m <= |jobs|
    ensures n <= m && (forall i: nat :: i < n ==> Sane(jobs[i])) && (n < m ==> !Sane(jobs[n]))
  {
    if m == 0 {
      n := 0;
    } else {
      n := SaneUpTo(jobs, m - 1);
      if n == m - 1 && Sane(jobs[m - 1]) {
        n := m;
      }
    }
  }

  lemma SanePasses(st: Setting, i: nat, job: Job)
    requires i < |st.cfg.secrets| && st.k.vault.records.Some? && CanBe(st, i, job) && Sane(job)
    ensures CanPass(st, i)
  {
    if job.Put? {
      PutsAre(st, i, job);
      assert Fits(st, i, job.secret.data);
    }
  }

  /** Every run gets to a point where some run stops. */
  lemma EveryRunStops(st: Setting, js: seq<Job>) returns (n: nat)
    requires st.k.vault.records.Some? && IsRun(st, js)
    ensures RunTo(st, js, n) && CanStop(st, n)
  {
    n := SaneUpTo(js, |js|);
    forall i: nat | i < n ensures CanPass(st, i) {
      SanePasses(st, i, js[i]);
    }
    if n < |js| && AlwaysPasses(st, n) {
      AlwaysIsSane(st, n, js[n]);
      assert false;
    }
  }

  /** What a run does is done by the part it gets through. */
  lemma RunIsItsStart(st: Setting, c: Secrets, js: seq<Job>, n: nat)
    requires st.k.vault.records.Some? && RunTo(st, js, n) && Updates(st.cfg.k8sSecretMode)
    ensures Reconcile(c, js[..n], st.cfg.k8sSecretMode, st.cfg.k8sSecretOwnerRef) == (After(st, c, js), None)
  {
    var mode, ownerRef := st.cfg.k8sSecretMode, st.cfg.k8sSecretOwnerRef;
    SaneIsClean(c, js[..n], mode, ownerRef);
    if n < |js| {
      JobKind(st, n, js[n]);
      assert js[..n + 1][..n] == js[..n];
      ErrorSticks(c, js, n + 1, mode, ownerRef);
    } else {
      assert js[..n] == js;
    }
  }

  /** A job at which the loop stops. */
  ghost function StoppingJob(st: Setting, n: nat): (job: Job)
    requires Starts(st) && n < |st.cfg.secrets| && !AlwaysPasses(st, n)
    ensures CanBe(st, n, job) && !Sane(job)
  {
    assert RefAt(st, n) in st.cfg.secrets;
    if !IsPut(st, n) then Unnamed
    else
      var p :| Projects(st, n, p) && SizeOf(p) > MAX_SECRET_SIZE;
      PutsAre(st, n, PutWith(st, n, p));
      PutWith(st, n, p)
  }

  ghost function JobFor(st: Setting, n: nat, i: nat): (job: Job)
    requires Starts(st) && CanStop(st, n) && i < |st.cfg.secrets|
    ensures CanBe(st, i, job) && (i < n ==> Sane(job)) && (i == n ==> !Sane(job))
  {
    if i == n then StoppingJob(st, n) else SomeJob(st, i)
  }

  ghost function SomeRunTo(st: Setting, n: nat): (js: seq<Job>)
    requires Starts(st) && CanStop(st, n)
    ensures RunTo(st, js, n)
  {
    seq(|st.cfg.secrets|, i requires 0 <= i < |st.cfg.secrets| => JobFor(st, n, i))
  }

  /** One in which secret `i` has the given data. */
  ghost function RunToWith(st: Setting, n: nat, i: nat, p: Data): (js: seq<Job>)
    requires Starts(st) && CanStop(st, n) && i < n && Fits(st, i, p)
    ensures RunTo(st, js, n) && js[i] == PutWith(st, i, p)
  {
    PutsAre(st, i, PutWith(st, i, p));
    SomeRunTo(st, n)[i := PutWith(st, i, p)]
  }

  // ---------- the last secret of a target ----------

  /** Among the first `n` secrets no later one has the target of secret `i`. */
  ghost predicate IsLast(st: Setting, i: nat, n: nat)
    requires i < n <= |st.cfg.secrets| && st.k.vault.records.Some?
  {
    IsPut(st, i) && forall j: nat :: i < j < n && IsPut(st, j) ==> KeyAt(st, j) != KeyAt(st, i)
  }

  lemma {:induction false} LastForIs(jobs: seq<Job>, key: Key) returns (i: nat)
    requires LastFor(jobs, key).Some?
    ensures i < |jobs| && Targets(jobs[i], key) && LastFor(jobs, key) == Some(jobs[i].secret)
    ensures forall j :: i < j < |jobs| ==> !Targets(jobs[j], key)
  {
    var last := |jobs| - 1;
    if Targets(jobs[last], key) {
      i := last;
    } else {
      i := LastForIs(jobs[..last], key);
    }
  }

  lemma {:induction false} LastForAt(jobs: seq<Job>, key: Key, i: nat)
    requires i < |jobs| && Targets(jobs[i], key) && forall j :: i < j < |jobs| ==> !Targets(jobs[j], key)
    ensures LastFor(jobs, key) == Some(jobs[i].secret)
  {
    if i < |jobs| - 1 {
      LastForAt(jobs[..|jobs| - 1], key, i);
    }
  }

  /** The last job of a target comes from the last secret of that target. */
  lemma LastIsLast(st: Setting, js: seq<Job>, n: nat, key: Key, i: nat)
    requires st.k.vault.records.Some? && IsRun(st, js) && i < n <= |js| && Targets(js[i], key)
    ensures (forall j :: i < j < n ==> !Targets(js[j], key)) <==> IsLast(st, i, n)
  {
    JobKind(st, i, js[i]);
    forall j: nat | i < j < n ensures Targets(js[j], key) <==> IsPut(st, j) && KeyAt(st, j) == KeyAt(st, i) {
      JobKind(st, j, js[j]);
    }
  }

  lemma LastJobOf(st: Setting, js: seq<Job>, n: nat, i: nat)
    requires st.k.vault.records.Some? && IsRun(st, js) && i < n <= |js| && IsLast(st, i, n)
    ensures js[i].Put? && LastFor(js[..n], KeyAt(st, i)) == Some(js[i].secret)
  {
    JobKind(st, i, js[i]);
    LastIsLast(st, js, n, KeyAt(st, i), i);
    LastForAt(js[..n], KeyAt(st, i), i);
  }

  lemma LastSecretOf(st: Setting, js: seq<Job>, n: nat, key: Key) returns (i: nat)
    requires st.k.vault.records.Some? && IsRun(st, js) && n <= |js| && LastFor(js[..n], key).Some?
    ensures i < n && IsLast(st, i, n) && KeyAt(st, i) == key && js[i].Put? &&
            LastFor(js[..n], key) == Some(js[i].secret)
  {
    i := LastForIs(js[..n], key);
    assert forall j :: i < j < n ==> js[j] == js[..n][j];
    LastIsLast(st, js, n, key, i);
    JobKind(st, i, js[i]);
  }

  // ---------- overwrite ----------

  /** Both secrets become the same Secret in every order, but for its type. */
  ghost predicate SameSecret(st: Setting, j: nat, i: nat)
    requires j < |st.cfg.secrets| && i < |st.cfg.secrets| && st.k.vault.records.Some?
  {
    RefAt(st, j).name == RefAt(st, i).name && forall p, q :: Fits(st, j, p) && Fits(st, i, q) ==> p == q
  }

  /** Whatever target a run to `n2` writes, a run to `n` leaves it what the other would make of it. */
  ghost predicate OverwritesAgree(st: Setting, n: nat, n2: nat)
    requires n <= |st.cfg.secrets| && n2 <= |st.cfg.secrets| && st.k.vault.records.Some?
  {
    forall i: nat :: i < n2 && IsLast(st, i, n2) ==> SameLast(st, n, i)
  }

  ghost predicate SameLast(st: Setting, n: nat, i: nat)
    requires n <= |st.cfg.secrets| && i < |st.cfg.secrets| && st.k.vault.records.Some?
  {
    exists j: nat :: j < n && IsLast(st, j, n) && KeyAt(st, j) == KeyAt(st, i) && SameSecret(st, j, i)
  }

  predicate Overwrites(mode: string) {
    mode == "overwrite" || mode == ""
  }

  /** Under overwrite a second run changes nothing exactly when, wherever two runs can stop, the last secret of every
      target is in both runs one that becomes the same Secret. Targets may be shared. */
  lemma OverwriteIff(st: Setting)
    requires Starts(st) && Overwrites(st.cfg.k8sSecretMode)
    ensures Idempotent(st) <==> forall n: nat, n2: nat :: CanStop(st, n) && CanStop(st, n2) ==>
            OverwritesAgree(st, n, n2)
  {
    if n: nat, n2: nat :| CanStop(st, n) && CanStop(st, n2) && !OverwritesAgree(st, n, n2) {
      var i: nat :| i < n2 && IsLast(st, i, n2) && !SameLast(st, n, i);
      OverwriteBreaks(st, n, n2, i);
    } else {
      forall c, js, js2 | IsRun(st, js) && IsRun(st, js2) ensures After(st, After(st, c, js), js2) == After(st, c, js) {
        forall key ensures At(After(st, After(st, c, js), js2), key) == At(After(st, c, js), key) {
          OverwriteTwice(st, c, js, js2, key);
        }
        SameMap(After(st, After(st, c, js), js2), After(st, c, js));
      }
    }
  }

  lemma OverwriteOnce(st: Setting, c: Secrets, js: seq<Job>, n: nat, key: Key)
    requires st.k.vault.records.Some? && RunTo(st, js, n) && Overwrites(st.cfg.k8sSecretMode)
    ensures At(After(st, c, js), key) == OverwriteResult(At(c, key), js[..n], key, st.cfg.k8sSecretOwnerRef)
  {
    RunIsItsStart(st, c, js, n);
    OverwriteLastWins(c, js[..n], st.cfg.k8sSecretMode, st.cfg.k8sSecretOwnerRef, key);
  }

  lemma OverwriteTwice(st: Setting, c: Secrets, js: seq<Job>, js2: seq<Job>, key: Key)
    requires st.k.vault.records.Some? && IsRun(st, js) && IsRun(st, js2) && Overwrites(st.cfg.k8sSecretMode)
    requires forall n: nat, n2: nat :: CanStop(st, n) && CanStop(st, n2) ==> OverwritesAgree(st, n, n2)
    ensures At(After(st, After(st, c, js), js2), key) == At(After(st, c, js), key)
  {
    var first := After(st, c, js);
    var n := EveryRunStops(st, js);
    var n2 := EveryRunStops(st, js2);
    OverwriteOnce(st, c, js, n, key);
    OverwriteOnce(st, first, js2, n2, key);
    if LastFor(js2[..n2], key).Some? {
      SameLastJob(st, js, js2, n, n2, key);
    }
  }

  lemma SameLastJob(st: Setting, js: seq<Job>, js2: seq<Job>, n: nat, n2: nat, key: Key)
    requires st.k.vault.records.Some? && RunTo(st, js, n) && RunTo(st, js2, n2) && OverwritesAgree(st, n, n2)
    requires LastFor(js2[..n2], key).Some?
    ensures LastFor(js[..n], key).Some?
    ensures LastFor(js2[..n2], key).value.(typ := "") == LastFor(js[..n], key).value.(typ := "")
  {
    var i := LastSecretOf(st, js2, n2, key);
    assert SameLast(st, n, i);
    var j: nat :| j < n && IsLast(st, j, n) && KeyAt(st, j) == KeyAt(st, i) && SameSecret(st, j, i);
    LastJobOf(st, js, n, j);
    SameSecretJobs(st, j, i, js[j], js2[i]);
  }

  lemma SameSecretJobs(st: Setting, j: nat, i: nat, job: Job, job2: Job)
    requires j < |st.cfg.secrets| && i < |st.cfg.secrets| && st.k.vault.records.Some? && SameSecret(st, j, i)
    requires CanBe(st, j, job) && CanBe(st, i, job2) && Sane(job) && Sane(job2) && job.Put? && job2.Put?
    ensures job.secret.(typ := "") == job2.secret.(typ := "")
  {
    PutsAre(st, j, job);
    PutsAre(st, i, job2);
    assert Fits(st, j, job.secret.data) && Fits(st, i, job2.secret.data);
  }

  /** The first run stops at `n`, the second at `n2`. */
  lemma OverwriteBreaks(st: Setting, n: nat, n2: nat, i: nat)
    requires Starts(st) && Overwrites(st.cfg.k8sSecretMode) && CanStop(st, n) && CanStop(st, n2)
    requires i < n2 && IsLast(st, i, n2) && !SameLast(st, n, i)
    ensures !Idempotent(st)
  {
    var key, js := KeyAt(st, i), SomeRunTo(st, n);
    assert CanPass(st, i);
    var q :| Fits(st, i, q);
    if LastFor(js[..n], key).None? {
      OverwriteOnce(st, map[], js, n, key);
      Rewritten(st, map[], js, n2, i, q);
    } else {
      var j := LastSecretOf(st, js, n, key);
      assert CanPass(st, j);
      var p :| Fits(st, j, p);
      if RefAt(st, j).name == RefAt(st, i).name {
        p, q :| Fits(st, j, p) && Fits(st, i, q) && p != q;
      }
      OtherLastBreaks(st, n, n2, j, i, p, q);
    }
  }

  lemma OtherLastBreaks(st: Setting, n: nat, n2: nat, j: nat, i: nat, p: Data, q: Data)
    requires Starts(st) && Overwrites(st.cfg.k8sSecretMode) && CanStop(st, n) && CanStop(st, n2)
    requires j < n && IsLast(st, j, n) && Fits(st, j, p) && i < n2 && IsLast(st, i, n2) && Fits(st, i, q) &&
             KeyAt(st, j) == KeyAt(st, i)
    requires p != q || RefAt(st, j).name != RefAt(st, i).name
    ensures !Idempotent(st)
  {
    var js := RunToWith(st, n, j, p);
    Rewritten(st, map[], js, n2, i, q);
    OverwriteOnce(st, map[], js, n, KeyAt(st, j));
    LastJobOf(st, js, n, j);
    assert SecretWith(st, i, q).annotations["keeper.security/source-record"] == RefAt(st, i).name;
    assert SecretWith(st, j, p).annotations["keeper.security/source-record"] == RefAt(st, j).name;
  }

  /** What the second run makes of the target. */
  lemma Rewritten(st: Setting, c: Secrets, js: seq<Job>, n2: nat, i: nat, q: Data)
    requires Starts(st) && Overwrites(st.cfg.k8sSecretMode) && IsRun(st, js) && CanStop(st, n2)
    requires i < n2 && IsLast(st, i, n2) && Fits(st, i, q)
    ensures var second, s := After(st, After(st, c, js), RunToWith(st, n2, i, q)), SecretWith(st, i, q);
            KeyAt(st, i) in second && second[KeyAt(st, i)].data == s.data &&
              second[KeyAt(st, i)].annotations == s.annotations
  {
    var js2 := RunToWith(st, n2, i, q);
    OverwriteOnce(st, After(st, c, js), js2, n2, KeyAt(st, i));
    LastJobOf(st, js2, n2, i);
  }

  // ---------- merge ----------

  /** A field of the secret goes under the data key. */
  ghost predicate Writes(st: Setting, i: nat, x: string)
    requires i < |st.cfg.secrets| && st.k.vault.records.Some?
  {
    IsPut(st, i) && var fields := EntryOf(st, i).fields; Routed(RefAt(st, i), fields, fields.Keys, x)
  }

  /** Among the first `n` secrets no later one writes the data key of the same target. */
  ghost predicate LastToWrite(st: Setting, i: nat, x: string, n: nat)
    requires i < n <= |st.cfg.secrets| && st.k.vault.records.Some?
  {
    Writes(st, i, x) && forall j: nat :: i < j < n && Writes(st, j, x) ==> KeyAt(st, j) != KeyAt(st, i)
  }

  predicate WritesTo(job: Job, key: Key, x: string) {
    Targets(job, key) && x in job.secret.data
  }

  lemma {:induction false} LastWriterIs(jobs: seq<Job>, key: Key, x: string) returns (i: nat)
    requires LastWriter(jobs, key, x).Some?
    ensures i < |jobs| && WritesTo(jobs[i], key, x) && LastWriter(jobs, key, x) == Some(jobs[i].secret.data[x])
    ensures forall j :: i < j < |jobs| ==> !WritesTo(jobs[j], key, x)
  {
    var last := |jobs| - 1;
    if WritesTo(jobs[last], key, x) {
      i := last;
    } else {
      i := LastWriterIs(jobs[..last], key, x);
    }
  }

  lemma {:induction false} LastWriterAt(jobs: seq<Job>, key: Key, x: string, i: nat)
    requires i < |jobs| && WritesTo(jobs[i], key, x) && forall j :: i < j < |jobs| ==> !WritesTo(jobs[j], key, x)
    ensures LastWriter(jobs, key, x) == Some(jobs[i].secret.data[x])
  {
    if i < |jobs| - 1 {
      LastWriterAt(jobs[..|jobs| - 1], key, x, i);
    }
  }

  lemma WritesIs(st: Setting, i: nat, job: Job, key: Key, x: string)
    requires i < |st.cfg.secrets| && st.k.vault.records.Some? && CanBe(st, i, job)
    ensures WritesTo(job, key, x) <==> Writes(st, i, x) && KeyAt(st, i) == key
  {
    JobKind(st, i, job);
    if job.Put? {
      var fields := EntryOf(st, i).fields;
      assert OverlaysAt(job.secret.data, map[], RefAt(st, i), fields, fields.Keys, x);
    }
  }

  lemma LastWriteIsLast(st: Setting, js: seq<Job>, n: nat, key: Key, x: string, i: nat)
    requires st.k.vault.records.Some? && IsRun(st, js) && i < n <= |js| && WritesTo(js[i], key, x)
    ensures (forall j :: i < j < n ==> !WritesTo(js[j], key, x)) <==> LastToWrite(st, i, x, n)
  {
    WritesIs(st, i, js[i], key, x);
    forall j: nat | i < j < n ensures WritesTo(js[j], key, x) <==> Writes(st, j, x) && KeyAt(st, j) == key {
      WritesIs(st, j, js[j], key, x);
    }
  }

  /** Whatever the order, the last secret to write a data key decides its bytes. */
  lemma LastWriterOf(st: Setting, js: seq<Job>, n: nat, i: nat, x: string)
    requires st.k.vault.records.Some? && IsRun(st, js) && i < n <= |js| && LastToWrite(st, i, x, n)
    ensures WritesTo(js[i], KeyAt(st, i), x) && LastWriter(js[..n], KeyAt(st, i), x) == Some(js[i].secret.data[x])
  {
    WritesIs(st, i, js[i], KeyAt(st, i), x);
    LastWriteIsLast(st, js, n, KeyAt(st, i), x, i);
    LastWriterAt(js[..n], KeyAt(st, i), x, i);
  }

  lemma LastToWriteOf(st: Setting, js: seq<Job>, n: nat, key: Key, x: string) returns (i: nat)
    requires st.k.vault.records.Some? && IsRun(st, js) && n <= |js| && LastWriter(js[..n], key, x).Some?
    ensures i < n && LastToWrite(st, i, x, n) && KeyAt(st, i) == key
    ensures WritesTo(js[i], key, x) && LastWriter(js[..n], key, x) == Some(js[i].secret.data[x])
  {
    i := LastWriterIs(js[..n], key, x);
    assert forall j :: i < j < n ==> js[j] == js[..n][j];
    LastWriteIsLast(st, js, n, key, x, i);
    WritesIs(st, i, js[i], key, x);
  }

  /** Both secrets give the data key the same bytes in every order. */
  ghost predicate SameBytes(st: Setting, j: nat, i: nat, x: string)
    requires j < |st.cfg.secrets| && i < |st.cfg.secrets| && st.k.vault.records.Some?
  {
    forall p, q :: Fits(st, j, p) && Fits(st, i, q) ==> At(p, x) == At(q, x)
  }

  /** Before `n` the data key gets its bytes from a secret that gives it the same ones as secret `i`. */
  ghost predicate SameWriter(st: Setting, n: nat, i: nat, x: string)
    requires n <= |st.cfg.secrets| && i < |st.cfg.secrets| && st.k.vault.records.Some?
  {
    exists j: nat :: j < n && LastToWrite(st, j, x, n) && KeyAt(st, j) == KeyAt(st, i) && SameBytes(st, j, i, x)
  }

  /** Before `n` the last secret of the target is made from a record of the same name as secret `i`. */
  ghost predicate SameSource(st: Setting, n: nat, i: nat)
    requires n <= |st.cfg.secrets| && i < |st.cfg.secrets| && st.k.vault.records.Some?
  {
    exists j: nat :: j < n && IsLast(st, j, n) && KeyAt(st, j) == KeyAt(st, i) && RefAt(st, j).name == RefAt(st, i).name
  }

  ghost predicate MergesAgree(st: Setting, n: nat, n2: nat)
    requires n <= |st.cfg.secrets| && n2 <= |st.cfg.secrets| && st.k.vault.records.Some?
  {
    (forall i: nat :: i < n2 && IsLast(st, i, n2) ==> SameSource(st, n, i)) &&
    forall i: nat, x :: i < n2 && LastToWrite(st, i, x, n2) ==> SameWriter(st, n, i, x)
  }

  /** Under merge a second run changes nothing exactly when, wherever two runs can stop, the last secret of every target
      comes from one record name and every data key written gets the same bytes. Targets may be shared. */
  lemma MergeIff(st: Setting)
    requires Starts(st) && st.cfg.k8sSecretMode == "merge"
    ensures Idempotent(st) <==> forall n: nat, n2: nat :: CanStop(st, n) && CanStop(st, n2) ==> MergesAgree(st, n, n2)
  {
    if n: nat, n2: nat :| CanStop(st, n) && CanStop(st, n2) && !MergesAgree(st, n, n2) {
      if i: nat :| i < n2 && IsLast(st, i, n2) && !SameSource(st, n, i) {
        SourceBreaks(st, n, n2, i);
      } else {
        var i: nat, x :| i < n2 && LastToWrite(st, i, x, n2) && !SameWriter(st, n, i, x);
        WriterBreaks(st, n, n2, i, x);
      }
    } else {
      forall c, js, js2 | IsRun(st, js) && IsRun(st, js2) ensures After(st, After(st, c, js), js2) == After(st, c, js) {
        forall key ensures At(After(st, After(st, c, js), js2), key) == At(After(st, c, js), key) {
          MergeTwice(st, c, js, js2, key);
        }
        SameMap(After(st, After(st, c, js), js2), After(st, c, js));
      }
    }
  }

  predicate SameButData(s: KSecret, t: KSecret) {
    s.labels == t.labels && s.annotations == t.annotations && s.owners == t.owners && s.typ == t.typ
  }

  /** What all Secrets made for one pod have in common. */
  predicate OfPod(st: Setting, job: Job) {
    job.Put? ==>
      job.secret.labels == LABELS &&
      job.secret.annotations.Keys == {"keeper.security/source-pod", "keeper.security/source-record"} &&
      job.secret.owners == if st.cfg.k8sSecretOwnerRef then [Owner(st.pod.name, st.pod.uid)] else []
  }

  lemma RunIsOfPod(st: Setting, js: seq<Job>, n: nat)
    requires st.k.vault.records.Some? && IsRun(st, js) && n <= |js|
    ensures forall j :: j in js[..n] ==> OfPod(st, j)
  {
    forall j | j in js[..n] ensures OfPod(st, j) {
      var i: nat :| i < n && js[i] == j;
      JobKind(st, i, js[i]);
    }
  }

  /** But for the data, merging all jobs of a target is merging the last one. */
  lemma {:induction false} MergeAllMeta(st: Setting, s: KSecret, jobs: seq<Job>, key: Key)
    requires forall j :: j in jobs ==> OfPod(st, j)
    ensures var all, last := MergeAll(s, jobs, key, st.cfg.k8sSecretOwnerRef), LastFor(jobs, key);
            if last.None? then all == s else SameButData(all, Merged(s, last.value, st.cfg.k8sSecretOwnerRef))
  {
    if jobs != [] {
      var init, last := jobs[..|jobs| - 1], jobs[|jobs| - 1];
      MergeAllMeta(st, s, init, key);
      assert OfPod(st, last);
      if Targets(last, key) && LastFor(init, key).Some? {
        var i := LastForIs(init, key);
        assert OfPod(st, jobs[i]);
        LastMergeCounts(st, s, jobs[i].secret, last.secret, MergeAll(s, init, key, st.cfg.k8sSecretOwnerRef));
      }
    }
  }

  lemma LastMergeCounts(st: Setting, s: KSecret, t: KSecret, u: KSecret, before: KSecret)
    requires SameButData(before, Merged(s, t, st.cfg.k8sSecretOwnerRef))
    requires t.labels == u.labels && t.annotations.Keys == u.annotations.Keys && t.owners == u.owners
    ensures SameButData(Merged(before, u, st.cfg.k8sSecretOwnerRef), Merged(s, u, st.cfg.k8sSecretOwnerRef))
  {
    assert s.labels + t.labels + u.labels == s.labels + u.labels;
    assert s.annotations + t.annotations + u.annotations == s.annotations + u.annotations;
  }

  lemma MergedAgain(s: KSecret, t: KSecret, last: KSecret, ownerRef: bool)
    requires SameButData(t, Merged(s, last, ownerRef))
    ensures SameButData(t, Merged(t, last, ownerRef))
  {
    assert s.labels + last.labels + last.labels == s.labels + last.labels;
    assert s.annotations + last.annotations + last.annotations == s.annotations + last.annotations;
  }

  /** But for the data, merging the last one again would change nothing. */
  lemma MergeOnce(st: Setting, c: Secrets, js: seq<Job>, n: nat, key: Key)
    requires st.k.vault.records.Some? && RunTo(st, js, n) && st.cfg.k8sSecretMode == "merge"
    ensures var after, last, ownerRef := After(st, c, js), LastFor(js[..n], key), st.cfg.k8sSecretOwnerRef;
            if last.None? then At(after, key) == At(c, key)
            else key in after && SameButData(after[key], Merged(after[key], last.value, ownerRef)) &&
                 (key in c ==> SameButData(after[key], Merged(c[key], last.value, ownerRef)))
  {
    var ownerRef, jobs := st.cfg.k8sSecretOwnerRef, js[..n];
    RunIsItsStart(st, c, js, n);
    MergeIsMergeAll(c, jobs, ownerRef, key);
    RunIsOfPod(st, js, n);
    if MergeBase(c, jobs, key).Some? {
      var base := MergeBase(c, jobs, key).value;
      MergeAllMeta(st, base, jobs, key);
      if LastFor(jobs, key).Some? {
        MergedAgain(base, MergeAll(base, jobs, key, ownerRef), LastFor(jobs, key).value, ownerRef);
      }
    }
  }

  lemma DataOnce(st: Setting, c: Secrets, js: seq<Job>, n: nat, key: Key, x: string)
    requires st.k.vault.records.Some? && RunTo(st, js, n) && st.cfg.k8sSecretMode == "merge"
    ensures DataAt(At(After(st, c, js), key), x) ==
            if LastWriter(js[..n], key, x).Some? then LastWriter(js[..n], key, x) else DataAt(At(c, key), x)
  {
    RunIsItsStart(st, c, js, n);
    MergeLastWriter(c, js[..n], st.cfg.k8sSecretOwnerRef, key, x);
  }

  lemma MergeTwice(st: Setting, c: Secrets, js: seq<Job>, js2: seq<Job>, key: Key)
    requires st.k.vault.records.Some? && IsRun(st, js) && IsRun(st, js2) && st.cfg.k8sSecretMode == "merge"
    requires forall n: nat, n2: nat :: CanStop(st, n) && CanStop(st, n2) ==> MergesAgree(st, n, n2)
    ensures At(After(st, After(st, c, js), js2), key) == At(After(st, c, js), key)
  {
    var first := After(st, c, js);
    var second := After(st, first, js2);
    var n := EveryRunStops(st, js);
    var n2 := EveryRunStops(st, js2);
    MetaTwice(st, c, js, js2, n, n2, key);
    forall x ensures DataAt(At(second, key), x) == DataAt(At(first, key), x) {
      DataTwice(st, c, js, js2, n, n2, key, x);
    }
    if key in first {
      assert At(first, key) == Some(first[key]) && At(second, key) == Some(second[key]);
      SameDataAt(second[key], first[key]);
    }
  }

  lemma MetaTwice(st: Setting, c: Secrets, js: seq<Job>, js2: seq<Job>, n: nat, n2: nat, key: Key)
    requires st.k.vault.records.Some? && RunTo(st, js, n) && RunTo(st, js2, n2) && st.cfg.k8sSecretMode == "merge" &&
             MergesAgree(st, n, n2)
    ensures var first := After(st, c, js);
            var second := After(st, first, js2);
            (key in first <==> key in second) && (key in first ==> SameButData(first[key], second[key]))
  {
    var first := After(st, c, js);
    MergeOnce(st, c, js, n, key);
    MergeOnce(st, first, js2, n2, key);
    if LastFor(js2[..n2], key).Some? {
      SameLastMeta(st, js, js2, n, n2, key);
    }
  }

  lemma SameLastMeta(st: Setting, js: seq<Job>, js2: seq<Job>, n: nat, n2: nat, key: Key)
    requires st.k.vault.records.Some? && IsRun(st, js) && IsRun(st, js2) && n <= |js| && n2 <= |js2| &&
             MergesAgree(st, n, n2)
    requires LastFor(js2[..n2], key).Some?
    ensures LastFor(js[..n], key).Some?
    ensures var s, t := LastFor(js[..n], key).value, LastFor(js2[..n2], key).value;
            s.labels == t.labels && s.annotations == t.annotations && s.owners == t.owners
  {
    var i := LastSecretOf(st, js2, n2, key);
    assert SameSource(st, n, i);
    var j: nat :| j < n && IsLast(st, j, n) && KeyAt(st, j) == KeyAt(st, i) && RefAt(st, j).name == RefAt(st, i).name;
    LastJobOf(st, js, n, j);
    PutsAre(st, j, js[j]);
    PutsAre(st, i, js2[i]);
  }

  lemma DataTwice(st: Setting, c: Secrets, js: seq<Job>, js2: seq<Job>, n: nat, n2: nat, key: Key, x: string)
    requires st.k.vault.records.Some? && RunTo(st, js, n) && RunTo(st, js2, n2) && st.cfg.k8sSecretMode == "merge" &&
             MergesAgree(st, n, n2)
    ensures DataAt(At(After(st, After(st, c, js), js2), key), x) == DataAt(At(After(st, c, js), key), x)
  {
    DataOnce(st, c, js, n, key, x);
    DataOnce(st, After(st, c, js), js2, n2, key, x);
    if LastWriter(js2[..n2], key, x).Some? {
      var i := LastToWriteOf(st, js2, n2, key, x);
      assert SameWriter(st, n, i, x);
      var j: nat :| j < n && LastToWrite(st, j, x, n) && KeyAt(st, j) == KeyAt(st, i) && SameBytes(st, j, i, x);
      LastWriterOf(st, js, n, j, x);
      SameBytesJobs(st, j, i, js[j], js2[i], x);
    }
  }

  lemma SameBytesJobs(st: Setting, j: nat, i: nat, job: Job, job2: Job, x: string)
    requires j < |st.cfg.secrets| && i < |st.cfg.secrets| && st.k.vault.records.Some? && SameBytes(st, j, i, x)
    requires CanBe(st, j, job) && CanBe(st, i, job2) && Sane(job) && Sane(job2) && job.Put? && job2.Put?
    ensures At(job.secret.data, x) == At(job2.secret.data, x)
  {
    PutsAre(st, j, job);
    PutsAre(st, i, job2);
    assert Fits(st, j, job.secret.data) && Fits(st, i, job2.secret.data);
  }

  lemma SameDataAt(s: KSecret, t: KSecret)
    requires SameButData(s, t) && forall x :: DataAt(Some(s), x) == DataAt(Some(t), x)
    ensures s == t
  {
    forall x ensures At(s.data, x) == At(t.data, x) {
      assert DataAt(Some(s), x) == DataAt(Some(t), x);
    }
    SameMap(s.data, t.data);
  }

  const SOURCE := "keeper.security/source-record"

  /** The record name a Secret of the cluster carries, if it is there. */
  function SourceAt(c: Secrets, key: Key): Option<string> {
    if key in c then At(c[key].annotations, SOURCE) else None
  }

  lemma SourceOnce(st: Setting, c: Secrets, js: seq<Job>, n: nat, i: nat)
    requires st.k.vault.records.Some? && RunTo(st, js, n) && st.cfg.k8sSecretMode == "merge" && i < n &&
             IsLast(st, i, n)
    ensures SourceAt(After(st, c, js), KeyAt(st, i)) == Some(RefAt(st, i).name)
  {
    MergeOnce(st, c, js, n, KeyAt(st, i));
    LastJobOf(st, js, n, i);
    PutsAre(st, i, js[i]);
  }

  lemma SourceBreaks(st: Setting, n: nat, n2: nat, i: nat)
    requires Starts(st) && st.cfg.k8sSecretMode == "merge" && CanStop(st, n) && CanStop(st, n2)
    requires i < n2 && IsLast(st, i, n2) && !SameSource(st, n, i)
    ensures !Idempotent(st)
  {
    var key, js, js2 := KeyAt(st, i), SomeRunTo(st, n), SomeRunTo(st, n2);
    var first := After(st, map[], js);
    SourceOnce(st, first, js2, n2, i);
    if LastFor(js[..n], key).None? {
      MergeOnce(st, map[], js, n, key);
    } else {
      var j := LastSecretOf(st, js, n, key);
      SourceOnce(st, map[], js, n, j);
    }
    assert SourceAt(first, key) != SourceAt(After(st, first, js2), key);
  }

  lemma WriterLeaves(st: Setting, c: Secrets, n: nat, i: nat, p: Data, x: string)
    requires Starts(st) && st.cfg.k8sSecretMode == "merge" && CanStop(st, n) && i < n && LastToWrite(st, i, x, n) &&
             Fits(st, i, p)
    ensures DataAt(At(After(st, c, RunToWith(st, n, i, p)), KeyAt(st, i)), x) == At(p, x) && x in p
  {
    var js := RunToWith(st, n, i, p);
    LastWriterOf(st, js, n, i, x);
    DataOnce(st, c, js, n, KeyAt(st, i), x);
  }

  lemma WriterBreaks(st: Setting, n: nat, n2: nat, i: nat, x: string)
    requires Starts(st) && st.cfg.k8sSecretMode == "merge" && CanStop(st, n) && CanStop(st, n2)
    requires i < n2 && LastToWrite(st, i, x, n2) && !SameWriter(st, n, i, x)
    ensures !Idempotent(st)
  {
    var key, js := KeyAt(st, i), SomeRunTo(st, n);
    if LastWriter(js[..n], key, x).None? {
      assert CanPass(st, i);
      var q :| Fits(st, i, q);
      DataOnce(st, map[], js, n, key, x);
      WriterLeaves(st, After(st, map[], js), n2, i, q, x);
    } else {
      var j := LastToWriteOf(st, js, n, key, x);
      var p, q :| Fits(st, j, p) && Fits(st, i, q) && At(p, x) != At(q, x);
      js := RunToWith(st, n, j, p);
      WriterLeaves(st, map[], n, j, p, x);
      WriterLeaves(st, After(st, map[], js), n2, i, q, x);
    }
  }

  // ---------- where no size is in the balance ----------

  /** No secret that the loop can get past is refused for its size in some order. */
  ghost predicate SizesSettled(st: Setting)
    requires st.k.vault.records.Some?
  {
    forall i: nat :: i < |st.cfg.secrets| && Within(st, i) ==> AlwaysPasses(st, i)
  }

  lemma SettledStops(st: Setting, stop: nat, n: nat)
    requires Starts(st) && SizesSettled(st) && CanStop(st, stop) && CanStop(st, n)
    ensures n == stop
  {
    if n < stop {
      assert Within(st, n);
    } else if stop < n {
      assert Within(st, stop);
    }
  }

  lemma SettledFits(st: Setting, stop: nat, i: nat, p: Data)
    requires st.k.vault.records.Some? && SizesSettled(st) && CanStop(st, stop) && i < stop && Projects(st, i, p)
    ensures Fits(st, i, p)
  {
    assert Within(st, i);
  }

  lemma SameLastIsFixed(st: Setting, stop: nat, i: nat)
    requires Starts(st) && SizesSettled(st) && CanStop(st, stop) && i < stop && IsLast(st, i, stop)
    ensures SameLast(st, stop, i) <==> Fixed(st, i)
  {
    var ref, fields := RefAt(st, i), EntryOf(st, i).fields;
    DeterminedIffUnambiguous(ref, fields);
    forall p | IsProjection(p, ref, fields) ensures Fits(st, i, p) {
      SettledFits(st, stop, i, p);
    }
    assert SameSecret(st, i, i) <==> Fixed(st, i);
    if j: nat :| j < stop && IsLast(st, j, stop) && KeyAt(st, j) == KeyAt(st, i) && SameSecret(st, j, i) {
      assert j == i;
    }
  }

  /** Then, under overwrite, a second run changes nothing exactly when the last secret of every target has no fields
      with different bytes under one key. */
  lemma OverwriteSettledIff(st: Setting, stop: nat)
    requires Starts(st) && SizesSettled(st) && CanStop(st, stop) && Overwrites(st.cfg.k8sSecretMode)
    ensures Idempotent(st) <==> forall i: nat :: i < stop && IsLast(st, i, stop) ==> Fixed(st, i)
  {
    OverwriteIff(st);
    forall n: nat | CanStop(st, n) ensures n == stop {
      SettledStops(st, stop, n);
    }
    assert Idempotent(st) <==> OverwritesAgree(st, stop, stop);
    forall i: nat | i < stop && IsLast(st, i, stop) ensures SameLast(st, stop, i) <==> Fixed(st, i) {
      SameLastIsFixed(st, stop, i);
    }
  }

  /** The fields that go under the data key have equal bytes. */
  ghost predicate FixedAt(st: Setting, i: nat, x: string)
    requires i < |st.cfg.secrets| && st.k.vault.records.Some? && EntryOf(st, i).Have?
  {
    var ref, fields := RefAt(st, i), EntryOf(st, i).fields;
    forall f, g :: f in fields && g in fields && Route(ref, f) == Some(x) && Route(ref, g) == Some(x) ==>
      ValueToBytes(fields[f]) == ValueToBytes(fields[g])
  }

  lemma TwoProjections(ref: SecretRef, fields: Fields, f: string, g: string) returns (p: Data, q: Data)
    requires f in fields && g in fields && Route(ref, f).Some? && Route(ref, g).Some?
    ensures IsProjection(p, ref, fields) && IsProjection(q, ref, fields)
    ensures At(p, Route(ref, f).value) == Some(ValueToBytes(fields[f])) &&
            At(q, Route(ref, g).value) == Some(ValueToBytes(fields[g]))
  {
    var some := SomeProjection(ref, fields);
    OverlayGrows(some, map[], ref, fields, fields.Keys, f);
    OverlayGrows(some, map[], ref, fields, fields.Keys, g);
    assert fields.Keys + {f} == fields.Keys && fields.Keys + {g} == fields.Keys;
    p, q := WithField(some, ref, fields, f), WithField(some, ref, fields, g);
  }

  lemma FixedIsSame(st: Setting, i: nat, x: string)
    requires i < |st.cfg.secrets| && st.k.vault.records.Some? && IsPut(st, i) && FixedAt(st, i, x)
    ensures SameBytes(st, i, i, x)
  {
    var ref, fields := RefAt(st, i), EntryOf(st, i).fields;
    forall p, q | Fits(st, i, p) && Fits(st, i, q) ensures At(p, x) == At(q, x) {
      assert OverlaysAt(p, map[], ref, fields, fields.Keys, x) && OverlaysAt(q, map[], ref, fields, fields.Keys, x);
    }
  }

  lemma SameIsFixed(st: Setting, stop: nat, i: nat, x: string)
    requires Starts(st) && SizesSettled(st) && CanStop(st, stop) && i < stop && IsPut(st, i) && SameBytes(st, i, i, x)
    ensures FixedAt(st, i, x)
  {
    var ref, fields := RefAt(st, i), EntryOf(st, i).fields;
    forall f, g | f in fields && g in fields && Route(ref, f) == Some(x) && Route(ref, g) == Some(x)
      ensures ValueToBytes(fields[f]) == ValueToBytes(fields[g])
    {
      var p, q := TwoProjections(ref, fields, f, g);
      SettledFits(st, stop, i, p);
      SettledFits(st, stop, i, q);
      assert At(p, x) == At(q, x);
    }
  }

  lemma SameWriterIsFixed(st: Setting, stop: nat, i: nat, x: string)
    requires Starts(st) && SizesSettled(st) && CanStop(st, stop) && i < stop && LastToWrite(st, i, x, stop)
    ensures SameWriter(st, stop, i, x) <==> FixedAt(st, i, x)
  {
    if FixedAt(st, i, x) {
      FixedIsSame(st, i, x);
    } else if SameWriter(st, stop, i, x) {
      var j: nat :| j < stop && LastToWrite(st, j, x, stop) && KeyAt(st, j) == KeyAt(st, i) && SameBytes(st, j, i, x);
      assert j == i;
      SameIsFixed(st, stop, i, x);
      assert false;
    }
  }

  /** And under merge exactly when for every data key of a target the last secret to write it has no fields with
      different bytes for it. */
  lemma MergeSettledIff(st: Setting, stop: nat)
    requires Starts(st) && SizesSettled(st) && CanStop(st, stop) && st.cfg.k8sSecretMode == "merge"
    ensures Idempotent(st) <==> forall i: nat, x :: i < stop && LastToWrite(st, i, x, stop) ==> FixedAt(st, i, x)
  {
    MergeIff(st);
    forall n: nat | CanStop(st, n) ensures n == stop {
      SettledStops(st, stop, n);
    }
    assert Idempotent(st) <==> MergesAgree(st, stop, stop);
    forall i: nat | i < stop && IsLast(st, i, stop) ensures SameSource(st, stop, i) {
    }
    forall i: nat, x | i < stop && LastToWrite(st, i, x, stop)
      ensures SameWriter(st, stop, i, x) <==> FixedAt(st, i, x)
    {
      SameWriterIsFixed(st, stop, i, x);
    }
  }
}
