/** Kubernetes Secrets made from Keeper records: what one secret becomes and what one step does to the cluster. */
module K8sModel {
  import opened Text
  import opened Values
  import opened Annotations
  import opened Records

  const MAX_SECRET_SIZE := 1024 * 1024

  type Fields = map<string, FieldValue>
  type Data = map<string, Bytes>

  // ---------- from fields to Secret data ----------

  /** The Secret key a field is written under, if it is written at all: a mapping comes before a selection. */
  function Route(ref: SecretRef, field: string): Option<string> {
    if |ref.k8sSecretKeys| > 0 then
      if field in ref.k8sSecretKeys then Some(ref.k8sSecretKeys[field]) else None
    else if |ref.fields| > 0 then
      if field in ref.fields then Some(field) else None
    else Some(field)
  }

  /** Some field of `done` is written under the key. */
  ghost predicate Routed(ref: SecretRef, fields: Fields, done: set<string>, key: string) {
    exists f :: f in done && f in fields && Route(ref, f) == Some(key)
  }

  /** Under the key: the bytes of one of the fields of `done` written there, or what `base` has if there is none.
      Where several fields are written under one key, map order decides which wins. */
  ghost predicate OverlaysAt(d: Data, base: Data, ref: SecretRef, fields: Fields, done: set<string>, key: string) {
    if Routed(ref, fields, done, key)
    then key in d &&
         exists f :: f in done && f in fields && Route(ref, f) == Some(key) && d[key] == ValueToBytes(fields[f])
    else (key in d <==> key in base) && (key in d ==> d[key] == base[key])
  }

  ghost predicate Overlays(d: Data, base: Data, ref: SecretRef, fields: Fields, done: set<string>) {
    forall key {:trigger OverlaysAt(d, base, ref, fields, done, key)} :: OverlaysAt(d, base, ref, fields, done, key)
  }

  /** The routed fields of a record, written over `base`. */
  ghost predicate IsOverlay(d: Data, base: Data, ref: SecretRef, fields: Fields) {
    Overlays(d, base, ref, fields, fields.Keys)
  }

  /** The data a record's fields become. */
  ghost predicate IsProjection(p: Data, ref: SecretRef, fields: Fields) {
    IsOverlay(p, map[], ref, fields)
  }

  /** The bytes a field is written as: its text, its bytes, or its JSON. */
  predicate HasBytes(v: FieldValue, b: Bytes) {
    match v
    case Str(text) => b == text
    case Raw(bytes) => b == bytes
    case Other(json) => b == json
  }

  /** What `base` holds under the key stays. */
  predicate Stays(d: Data, base: Data, key: string) {
    (key in d <==> key in base) && (key in d ==> d[key] == base[key])
  }

  /** With a mapping: under every key to which a field that is present is mapped, the bytes of such a field. */
  ghost predicate MappedOver(d: Data, base: Data, keys: map<string, string>, fields: Fields) {
    forall key ::
      if exists f :: f in keys && f in fields && keys[f] == key
      then key in d && exists f :: f in keys && f in fields && keys[f] == key && HasBytes(fields[f], d[key])
      else Stays(d, base, key)
  }

  /** With a selection: every selected field that is present, under its own name. */
  ghost predicate SelectedOver(d: Data, base: Data, selected: seq<string>, fields: Fields) {
    forall key :: if key in selected && key in fields then key in d && HasBytes(fields[key], d[key])
      else Stays(d, base, key)
  }

  /** With neither: every field, under its own name. */
  ghost predicate AllOver(d: Data, base: Data, fields: Fields) {
    forall key :: if key in fields then key in d && HasBytes(fields[key], d[key]) else Stays(d, base, key)
  }

  /** What a secret's fields make of the data they are written over. A mapping comes before a selection. */
  ghost predicate Copied(d: Data, base: Data, ref: SecretRef, fields: Fields) {
    if ref.k8sSecretKeys != map[] then MappedOver(d, base, ref.k8sSecretKeys, fields)
    else if ref.fields != [] then SelectedOver(d, base, ref.fields, fields)
    else AllOver(d, base, fields)
  }

  lemma MappedAt(d: Data, base: Data, ref: SecretRef, fields: Fields, key: string)
    requires ref.k8sSecretKeys != map[]
    ensures var keys := ref.k8sSecretKeys;
            OverlaysAt(d, base, ref, fields, fields.Keys, key) <==>
            if exists f :: f in keys && f in fields && keys[f] == key
            then key in d && exists f :: f in keys && f in fields && keys[f] == key && HasBytes(fields[f], d[key])
            else Stays(d, base, key)
  {
    var keys := ref.k8sSecretKeys;
    assert Routed(ref, fields, fields.Keys, key) <==> exists f :: f in keys && f in fields && keys[f] == key;
  }

  lemma SelectedAt(d: Data, base: Data, ref: SecretRef, fields: Fields, key: string)
    requires ref.k8sSecretKeys == map[]
    ensures OverlaysAt(d, base, ref, fields, fields.Keys, key) <==>
            if (ref.fields == [] || key in ref.fields) && key in fields then key in d && HasBytes(fields[key], d[key])
            else Stays(d, base, key)
  {
    var here := (ref.fields == [] || key in ref.fields) && key in fields;
    forall f ensures Route(ref, f) == Some(key) <==> f == key && (ref.fields == [] || key in ref.fields) {
    }
    assert here ==> Route(ref, key) == Some(key);
    assert Routed(ref, fields, fields.Keys, key) <==> here;
  }

  /** What the routes of a secret make of its fields is what its mapping, or its selection, or neither, says. */
  lemma OverlayIffCopied(d: Data, base: Data, ref: SecretRef, fields: Fields)
    ensures IsOverlay(d, base, ref, fields) <==> Copied(d, base, ref, fields)
  {
    if ref.k8sSecretKeys != map[] {
      MappedIff(d, base, ref, fields);
    } else {
      forall key ensures OverlaysAt(d, base, ref, fields, fields.Keys, key) <==>
        if (ref.fields == [] || key in ref.fields) && key in fields then key in d && HasBytes(fields[key], d[key])
        else Stays(d, base, key)
      {
        SelectedAt(d, base, ref, fields, key);
      }
    }
  }

  lemma MappedIff(d: Data, base: Data, ref: SecretRef, fields: Fields)
    requires ref.k8sSecretKeys != map[]
    ensures IsOverlay(d, base, ref, fields) <==> MappedOver(d, base, ref.k8sSecretKeys, fields)
  {
    if IsOverlay(d, base, ref, fields) {
      forall key
        ensures var keys := ref.k8sSecretKeys;
                if exists f :: f in keys && f in fields && keys[f] == key
                then key in d && exists f :: f in keys && f in fields && keys[f] == key && HasBytes(fields[f], d[key])
                else Stays(d, base, key)
      {
        MappedAt(d, base, ref, fields, key);
        assert OverlaysAt(d, base, ref, fields, fields.Keys, key);
      }
    }
    if MappedOver(d, base, ref.k8sSecretKeys, fields) {
      forall key ensures OverlaysAt(d, base, ref, fields, fields.Keys, key) {
        MappedAt(d, base, ref, fields, key);
      }
    }
  }

  /** Fields written under one key have equal bytes. */
  ghost predicate Unambiguous(ref: SecretRef, fields: Fields) {
    forall f, g :: f in fields && g in fields && Route(ref, f).Some? && Route(ref, f) == Route(ref, g) ==>
      ValueToBytes(fields[f]) == ValueToBytes(fields[g])
  }

  /** One more field, present and routed, overwrites what was under its key. */
  ghost function WithField(d: Data, ref: SecretRef, fields: Fields, field: string): Data {
    var key := Route(ref, field);
    if field in fields && key.Some? then d[key.value := ValueToBytes(fields[field])] else d
  }

  lemma OverlayGrows(d: Data, base: Data, ref: SecretRef, fields: Fields, done: set<string>, field: string)
    requires Overlays(d, base, ref, fields, done)
    ensures Overlays(WithField(d, ref, fields, field), base, ref, fields, done + {field})
  {
    forall key ensures OverlaysAt(WithField(d, ref, fields, field), base, ref, fields, done + {field}, key) {
      assert OverlaysAt(d, base, ref, fields, done, key);
    }
  }

  lemma AllRouted(d: Data, base: Data, ref: SecretRef, fields: Fields, done: set<string>)
    requires Overlays(d, base, ref, fields, done)
    requires forall f :: f in fields && Route(ref, f).Some? ==> f in done
    ensures IsOverlay(d, base, ref, fields)
  {
    forall key ensures OverlaysAt(d, base, ref, fields, fields.Keys, key) {
      assert OverlaysAt(d, base, ref, fields, done, key);
    }
  }

  /** The part of the data that fields are written to. */
  ghost function RoutedPart(d: Data, ref: SecretRef, fields: Fields): Data {
    map k | k in d && Routed(ref, fields, fields.Keys, k) :: d[k]
  }

  lemma RoutedPartProjects(d: Data, base: Data, ref: SecretRef, fields: Fields)
    requires IsOverlay(d, base, ref, fields)
    ensures IsProjection(RoutedPart(d, ref, fields), ref, fields)
  {
    forall key ensures OverlaysAt(RoutedPart(d, ref, fields), map[], ref, fields, fields.Keys, key) {
      assert OverlaysAt(d, base, ref, fields, fields.Keys, key);
    }
  }

  /** Writing fields over old data is adding a projection to it. */
  lemma OverlayAddsProjection(d: Data, base: Data, ref: SecretRef, fields: Fields) returns (p: Data)
    requires IsOverlay(d, base, ref, fields)
    ensures IsProjection(p, ref, fields) && d == base + p
  {
    p := RoutedPart(d, ref, fields);
    RoutedPartProjects(d, base, ref, fields);
    forall key ensures (key in d <==> key in base + p) && (key in d ==> d[key] == (base + p)[key]) {
      assert OverlaysAt(d, base, ref, fields, fields.Keys, key);
      assert key in p <==> key in d && Routed(ref, fields, fields.Keys, key);
    }
  }

  /** The fields of `done` always can be written, in some order. */
  lemma {:induction false} ProjectionOf(ref: SecretRef, fields: Fields, done: set<string>) returns (p: Data)
    ensures Overlays(p, map[], ref, fields, done)
  {
    if done == {} {
      p := map[];
    } else {
      var f :| f in done;
      p := ProjectionOf(ref, fields, done - {f});
      OverlayGrows(p, map[], ref, fields, done - {f}, f);
      assert done - {f} + {f} == done;
      p := WithField(p, ref, fields, f);
    }
  }

  ghost function SomeProjection(ref: SecretRef, fields: Fields): (p: Data)
    ensures IsProjection(p, ref, fields)
  {
    assert exists p :: IsProjection(p, ref, fields) by {
      var p := ProjectionOf(ref, fields, fields.Keys);
      assert IsProjection(p, ref, fields);
    }
    var p :| IsProjection(p, ref, fields);
    p
  }

  // ---------- the cluster ----------

  datatype Key = Key(namespace: string, name: string)

  datatype Owner = Owner(name: string, uid: string)

  datatype KSecret = KSecret(data: Data, labels: map<string, string>, annotations: map<string, string>,
    owners: seq<Owner>, typ: string)

  type Secrets = map<Key, KSecret>

  /** The bytes of all keys and values together. */
  ghost function SizeOf(d: Data): nat {
    if d == map[] then 0
    else
      var k :| k in d;
      |k| + |d[k]| + SizeOf(d - {k})
  }

  /** Whether the API server answers the calls of a step. */
  datatype Api = Works | GetFails | WriteFails

  /** What one secret of the pod asks for: nothing, because its record is missing; a Secret without a name; or a
      Secret. */
  datatype Job = Absent | Unnamed | Put(key: Key, secret: KSecret, api: Api)

  datatype ReconcileError = NoName | TooBig | AlreadyExists | UnknownMode | ApiFailed

  function Merged(e: KSecret, s: KSecret, ownerRef: bool): KSecret {
    KSecret(e.data + s.data, e.labels + s.labels, e.annotations + s.annotations,
            if ownerRef && |s.owners| > 0 then s.owners else e.owners, e.typ)
  }

  function Overwritten(e: KSecret, s: KSecret, ownerRef: bool): KSecret {
    KSecret(s.data, s.labels, s.annotations, if ownerRef then s.owners else e.owners, e.typ)
  }

  /** createOrUpdateSecret: the cluster afterwards, and the error if there is one. */
  function Upsert(c: Secrets, key: Key, s: KSecret, api: Api, mode: string,
      ownerRef: bool): (Secrets, Option<ReconcileError>) {
    if api.GetFails? then (c, Some(ApiFailed))
    else if key !in c then if api.WriteFails? then (c, Some(ApiFailed)) else (c[key := s], None)
    else if mode == "fail" then (c, Some(AlreadyExists))
    else if mode == "skip-if-exists" then (c, None)
    else if mode != "merge" && mode != "overwrite" && mode != "" then (c, Some(UnknownMode))
    else if api.WriteFails? then (c, Some(ApiFailed))
    else (c[key := if mode == "merge" then Merged(c[key], s, ownerRef) else Overwritten(c[key], s, ownerRef)], None)
  }

  /** One turn of the reconcile loop. */
  ghost function Step(c: Secrets, job: Job, mode: string, ownerRef: bool): (Secrets, Option<ReconcileError>) {
    match job
    case Absent => (c, None)
    case Unnamed => (c, Some(NoName))
    case Put(key, s, api) =>
      if SizeOf(s.data) > MAX_SECRET_SIZE then (c, Some(TooBig)) else Upsert(c, key, s, api, mode, ownerRef)
  }

  /** The reconcile loop: it stops at the first error and keeps what it has done. */
  ghost function Reconcile(c: Secrets, jobs: seq<Job>, mode: string,
      ownerRef: bool): (Secrets, Option<ReconcileError>) {
    if jobs == [] then (c, None)
    else
      var (before, err) := Reconcile(c, jobs[..|jobs| - 1], mode, ownerRef);
      if err.Some? then (before, err) else Step(before, jobs[|jobs| - 1], mode, ownerRef)
  }

  // ---------- which record a secret is made from ----------

  /** Everything Keeper answers: its vault, notation queries and file downloads; a missing key is a failing call. */
  datatype Keeper = Keeper(
    vault: Vault, strict: bool, notations: map<string, Bytes>, files: map<(string, string), Bytes>)

  /** The fields fetched for a secret; no record of that name; or a failing call. */
  datatype Entry = Have(fields: Fields) | Missing | CallFails

  /** The webhook's test for a UID: 22 characters without a space. */
  predicate WebhookUID(s: string) {
    |s| == 22 && ' ' !in s
  }

  /** The last match, which is what an index filled in list order holds. */
  function LastOf(matches: seq<Record>): Entry {
    if matches == [] then Missing else Have(matches[|matches| - 1].fields)
  }

  /** What the batch holds for one secret, given the list of all records. */
  function BatchEntry(k: Keeper, rs: seq<Record>, ref: SecretRef): Entry {
    if ref.notation != "" then
      if ref.notation in k.notations then Have(map["value" := Str(k.notations[ref.notation])]) else CallFails
    else if ref.isFile then
      if (ref.name, ref.fileName) in k.files then Have(map[ref.fileName := Raw(k.files[(ref.name, ref.fileName)])])
      else CallFails
    else if WebhookUID(ref.name) then LastOf(UidMatches(rs, ref.name))
    else LastOf(TitleMatches(rs, ref.name))
  }

  /** The same from single lookups, as the sidecar fetches it. */
  function SingleEntry(k: Keeper, ref: SecretRef): Entry {
    if ref.notation != "" then
      if ref.notation in k.notations then Have(map["value" := Str(k.notations[ref.notation])]) else CallFails
    else if ref.isFile then
      if (ref.name, ref.fileName) in k.files then Have(map[ref.fileName := Raw(k.files[(ref.name, ref.fileName)])])
      else CallFails
    else
      match ByName(k.vault, k.strict, ref.name)
      case Picked(r) => Have(r.fields)
      case NotPicked(e) => if e == NoRecord then Missing else CallFails
  }

  /** The secret makes the whole batch fail. */
  predicate SpoilsBatch(k: Keeper, rs: seq<Record>, ref: SecretRef, failOnError: bool) {
    var e := BatchEntry(k, rs, ref);
    e.CallFails? || (e.Missing? && failOnError)
  }

  // ---------- rotation ----------

  /** What the sidecar does about one secret: it is not selected, its fetch fails, or its Secret is refreshed with the
      data. */
  datatype Refresh = NotSelected | FetchFails | Update(key: Key, data: Data, api: Api)

  function RefreshStep(c: Secrets, r: Refresh): Secrets {
    match r
    case NotSelected => c
    case FetchFails => c
    case Update(key, data, api) =>
      if !api.Works? || key !in c then c
      else c[key := c[key].(data := c[key].data + data)]
  }

  /** One rotation pass; errors are logged and skipped. */
  function Rotate(c: Secrets, rs: seq<Refresh>): Secrets {
    if rs == [] then c else RefreshStep(Rotate(c, rs[..|rs| - 1]), rs[|rs| - 1])
  }

  /** A number of rotation passes. */
  function RotateAll(c: Secrets, rss: seq<seq<Refresh>>): Secrets {
    if rss == [] then c else Rotate(RotateAll(c, rss[..|rss| - 1]), rss[|rss| - 1])
  }
}
