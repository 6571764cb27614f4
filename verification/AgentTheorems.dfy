/** What the agent promises over whole runs. */
module AgentTheorems {
  import opened Text
  import opened Values
  import opened Cache
  import opened AgentModel

  /** No secret is written over another one or over another one's temp file. */
  ghost predicate PathsClear(cfgs: seq<SecretConfig>) {
    forall i, j :: 0 <= i < |cfgs| && 0 <= j < |cfgs| && i != j ==>
      cfgs[i].path != cfgs[j].path && cfgs[i].path != TmpPath(cfgs[j].path)
  }

  ghost predicate DistinctNames(cfgs: seq<SecretConfig>) {
    forall i, j :: 0 <= i < j < |cfgs| ==> cfgs[i].name != cfgs[j].name
  }

  ghost predicate ItemsAvoid(items: seq<FolderItem>, path: string) {
    forall k :: 0 <= k < |items| ==> items[k].path != path && TmpPath(items[k].path) != path
  }

  /** No folder file, finished or temporary, lands on the path. */
  ghost predicate FoldersAvoid(cfg: AgentConfig, pass: PassInput, path: string)
    requires Fits(cfg, pass)
  {
    forall k :: 0 <= k < |cfg.folders| ==> ItemsAvoid(ItemsAt(cfg, pass, k), path)
  }

  // ---------- what one write can change ----------

  /** A write is seen nowhere but at its path and its temp path. */
  lemma WriteElsewhere(files: Files, path: string, data: Bytes, o: WriteOutcome, p: string)
    requires p != path && p != TmpPath(path)
    ensures At(AfterWrite(files, path, data, o), p) == At(files, p)
    ensures forall k :: 0 <= k < |WriteStates(files, path, data, o)| ==>
            At(WriteStates(files, path, data, o)[k], p) == At(files, p)
  {
  }

  /** At its path a write shows the old content or the complete new one, and the new one at the end exactly if it
      succeeds. */
  lemma WriteHere(files: Files, path: string, data: Bytes, o: WriteOutcome)
    ensures At(AfterWrite(files, path, data, o), path) == if o.Written? then Some(data) else At(files, path)
    ensures forall k :: 0 <= k < |WriteStates(files, path, data, o)| ==>
              At(WriteStates(files, path, data, o)[k], path) == At(files, path) ||
                At(WriteStates(files, path, data, o)[k], path) == Some(data)
  {
    assert |TmpPath(path)| != |path|;
  }

  // ---------- each secret evolves as if it were alone ----------

  /** What concerns one secret: its file and its cache entry. */
  datatype Solo = Solo(file: Option<Bytes>, cached: Option<CachedSecret>)

  function View(w: World, c: SecretConfig): Solo {
    Solo(At(w.files, c.path), At(w.cache, c.name))
  }

  function SoloStep(s: Solo, inp: FetchInput): Solo {
    match inp.fetched
    case Some(data) => Solo(if inp.write.Written? then Some(data) else s.file, Some(CachedSecret(data, inp.now)))
    case None =>
      if s.cached.Some? && inp.now - s.cached.value.fetchedAt <= DAY && inp.write.Written?
      then s.(file := Some(s.cached.value.data)) else s
  }

  function SoloRun(s: Solo, inps: seq<FetchInput>): Solo {
    if inps == [] then s else SoloStep(SoloRun(s, inps[..|inps| - 1]), inps[|inps| - 1])
  }

  lemma OwnTurn(w: World, c: SecretConfig, inp: FetchInput, foe: bool)
    ensures View(TurnWorld(w, c, inp, foe), c) == SoloStep(View(w, c), inp)
  {
    match BytesFor(w, c, inp)
    case Some(data) => WriteHere(w.files, c.path, data, inp.write);
    case None =>
  }

  /** A turn changes no file but the secret's own and its temp file. */
  lemma TurnElsewhere(w: World, c: SecretConfig, inp: FetchInput, foe: bool, p: string)
    requires p != c.path && p != TmpPath(c.path)
    ensures At(TurnWorld(w, c, inp, foe).files, p) == At(w.files, p)
  {
    match BytesFor(w, c, inp)
    case Some(data) => WriteElsewhere(w.files, c.path, data, inp.write, p);
    case None =>
  }

  ghost predicate Apart(c: SecretConfig, d: SecretConfig) {
    d.path != c.path && d.path != TmpPath(c.path) && d.name != c.name
  }

  lemma OtherTurn(w: World, c: SecretConfig, inp: FetchInput, foe: bool, d: SecretConfig)
    requires Apart(c, d)
    ensures View(TurnWorld(w, c, inp, foe), d) == View(w, d)
  {
    TurnElsewhere(w, c, inp, foe, d.path);
  }

  lemma {:induction false} ItemsLeave(w: World, items: seq<FolderItem>, path: string)
    requires ItemsAvoid(items, path)
    ensures At(AfterItems(w, items).files, path) == At(w.files, path)
    ensures AfterItems(w, items).cache == w.cache && AfterItems(w, items).log == w.log
  {
    if items != [] {
      var init, last := items[..|items| - 1], items[|items| - 1];
      ItemsLeave(w, init, path);
      WriteElsewhere(AfterItems(w, init).files, last.path, last.data, last.write, path);
    }
  }

  /** The two worlds show the same at the path, and have the same cache and log. */
  ghost predicate SameFor(a: World, b: World, path: string) {
    At(a.files, path) == At(b.files, path) && a.cache == b.cache && a.log == b.log
  }

  lemma {:induction false} SameAlong(worlds: seq<World>, path: string, k: nat)
    requires k < |worlds| && forall j: nat :: j + 1 < |worlds| ==> SameFor(worlds[j + 1], worlds[j], path)
    ensures SameFor(worlds[k], worlds[0], path)
  {
    if k > 0 {
      SameAlong(worlds, path, k - 1);
      assert SameFor(worlds[k - 1 + 1], worlds[k - 1], path);
    }
  }

  lemma FolderLeaves(w: World, cfg: AgentConfig, pass: PassInput, k: nat, path: string)
    requires Fits(cfg, pass) && k < |cfg.folders| && ItemsAvoid(ItemsAt(cfg, pass, k), path)
    ensures SameFor(AfterFolders(w, cfg, pass, k + 1), AfterFolders(w, cfg, pass, k), path)
  {
    ItemsLeave(AfterFolders(w, cfg, pass, k), ItemsAt(cfg, pass, k), path);
  }

  lemma FoldersLeave(w: World, cfg: AgentConfig, pass: PassInput, path: string)
    requires Fits(cfg, pass) && FoldersAvoid(cfg, pass, path)
    ensures SameFor(AfterFolders(w, cfg, pass, |cfg.folders|), w, path)
  {
    var worlds := FolderWorlds(w, cfg, pass);
    forall j: nat | j < |cfg.folders| ensures SameFor(worlds[j + 1], worlds[j], path) {
      FolderLeaves(w, cfg, pass, j, path);
    }
    SameAlong(worlds, path, |cfg.folders|);
  }

  /** Secret `j` is the secret `i` or has nothing in common with it. */
  ghost predicate SameOrApart(cfgs: seq<SecretConfig>, i: nat, j: nat)
    requires i < |cfgs| && j < |cfgs|
  {
    i == j || Apart(cfgs[j], cfgs[i])
  }

  /** What one step does to what concerns a secret happens over all steps up to `k`. */
  lemma {:induction false} SoloAlong(worlds: seq<World>, c: SecretConfig, inp: FetchInput, i: nat, k: nat)
    requires k < |worlds|
    requires forall j: nat :: j + 1 < |worlds| ==>
               View(worlds[j + 1], c) == if j == i then SoloStep(View(worlds[j], c), inp) else View(worlds[j], c)
    ensures View(worlds[k], c) == if i < k then SoloStep(View(worlds[0], c), inp) else View(worlds[0], c)
  {
    if k > 0 {
      SoloAlong(worlds, c, inp, i, k - 1);
      assert worlds[k - 1 + 1] == worlds[k];
    }
  }

  lemma SecretsAreSolo(w: World, cfg: AgentConfig, pass: PassInput, k: nat, i: nat)
    requires Fits(cfg, pass) && i < |cfg.secrets| && k <= |cfg.secrets|
    requires forall j: nat :: j < |cfg.secrets| ==> SameOrApart(cfg.secrets, i, j)
    ensures View(AfterSecrets(w, cfg, pass, k), cfg.secrets[i]) ==
            if i < k then SoloStep(View(w, cfg.secrets[i]), pass.secrets[i]) else View(w, cfg.secrets[i])
  {
    var worlds, c := TurnWorlds(w, cfg, pass), cfg.secrets[i];
    forall j: nat | j < |cfg.secrets|
      ensures View(worlds[j + 1], c) ==
              if j == i then SoloStep(View(worlds[j], c), pass.secrets[i]) else View(worlds[j], c)
    {
      NextIsSolo(w, cfg, pass, j, i);
    }
    SoloAlong(worlds, c, pass.secrets[i], i, k);
  }

  lemma NextIsSolo(w: World, cfg: AgentConfig, pass: PassInput, k: nat, i: nat)
    requires Fits(cfg, pass) && i < |cfg.secrets| && k < |cfg.secrets| && SameOrApart(cfg.secrets, i, k)
    ensures var before := View(AfterSecrets(w, cfg, pass, k), cfg.secrets[i]);
            View(AfterSecrets(w, cfg, pass, k + 1), cfg.secrets[i]) ==
              if i == k then SoloStep(before, pass.secrets[i]) else before
  {
    var before, c, inp := AfterSecrets(w, cfg, pass, k), cfg.secrets[k], pass.secrets[k];
    if i == k {
      OwnTurn(before, c, inp, cfg.failOnError);
    } else {
      OtherTurn(before, c, inp, cfg.failOnError, cfg.secrets[i]);
    }
  }

  /** With distinct names and clear paths, a pass does to each secret what it would do to that secret alone. */
  lemma PassIsSolo(w: World, cfg: AgentConfig, pass: PassInput, i: nat)
    requires Fits(cfg, pass) && i < |cfg.secrets|
    requires PathsClear(cfg.secrets) && DistinctNames(cfg.secrets) && FoldersAvoid(cfg, pass, cfg.secrets[i].path)
    ensures View(Pass(w, cfg, pass), cfg.secrets[i]) == SoloStep(View(w, cfg.secrets[i]), pass.secrets[i])
  {
    assert forall j: nat :: j < |cfg.secrets| ==> SameOrApart(cfg.secrets, i, j);
    SecretsAreSolo(w, cfg, pass, |cfg.secrets|, i);
    FoldersLeave(AfterSecrets(w, cfg, pass, |cfg.secrets|), cfg, pass, cfg.secrets[i].path);
  }

  function InputsOf(cfg: AgentConfig, passes: seq<PassInput>, i: nat): (inps: seq<FetchInput>)
    requires i < |cfg.secrets| && forall p :: p in passes ==> Fits(cfg, p)
    ensures |inps| == |passes|
  {
    if passes == [] then []
    else
      assert Fits(cfg, passes[|passes| - 1]);
      InputsOf(cfg, passes[..|passes| - 1], i) + [passes[|passes| - 1].secrets[i]]
  }

  lemma {:induction false} RunIsSolo(w: World, cfg: AgentConfig, passes: seq<PassInput>, i: nat)
    requires (forall p :: p in passes ==> Fits(cfg, p)) && i < |cfg.secrets|
    requires PathsClear(cfg.secrets) && DistinctNames(cfg.secrets)
    requires forall p :: p in passes ==> FoldersAvoid(cfg, p, cfg.secrets[i].path)
    ensures View(Passes(w, cfg, passes), cfg.secrets[i]) == SoloRun(View(w, cfg.secrets[i]), InputsOf(cfg, passes, i))
  {
    if passes != [] {
      var init, last := passes[..|passes| - 1], passes[|passes| - 1];
      RunIsSolo(w, cfg, init, i);
      PassIsSolo(Passes(w, cfg, init), cfg, last, i);
      assert InputsOf(cfg, passes, i)[..|passes| - 1] == InputsOf(cfg, init, i);
    }
  }

  // ---------- the last good value ----------

  /** The bytes of the most recent successful fetch, or the initial content if there was none. */
  function LastGood(initial: Option<Bytes>, inps: seq<FetchInput>): Option<Bytes> {
    if inps == [] then initial
    else
      match inps[|inps| - 1].fetched
      case Some(data) => Some(data)
      case None => LastGood(initial, inps[..|inps| - 1])
  }

  /** The most recent successful fetch with its time. */
  function LatestIn(inps: seq<FetchInput>): Option<CachedSecret> {
    if inps == [] then None
    else
      var last := inps[|inps| - 1];
      if last.fetched.Some? then Some(CachedSecret(last.fetched.value, last.now)) else LatestIn(inps[..|inps| - 1])
  }

  /** How many passes there are up to the last one that wrote the file: one in which the write succeeded and there
      was something to write, fetched or, not older than a day, fetched before. */
  function LastWrite(inps: seq<FetchInput>): (m: nat)
    ensures m <= |inps|
  {
    if inps == [] then 0
    else
      var init, last := inps[..|inps| - 1], inps[|inps| - 1];
      var earlier := LatestIn(init);
      if last.write.Written? &&
         (last.fetched.Some? || (earlier.Some? && last.now - earlier.value.fetchedAt <= DAY)) then |inps|
      else LastWrite(init)
  }

  /** What a file holds after the passes: the last good value as of the last write. */
  function LastWrittenGood(initial: Option<Bytes>, inps: seq<FetchInput>): Option<Bytes> {
    LastGood(initial, inps[..LastWrite(inps)])
  }

  lemma {:induction false} LatestIsGood(initial: Option<Bytes>, inps: seq<FetchInput>)
    ensures LastGood(initial, inps) == match LatestIn(inps) case None => initial case Some(c) => Some(c.data)
  {
    if inps != [] {
      LatestIsGood(initial, inps[..|inps| - 1]);
    }
  }

  lemma {:induction false} SoloLastGood(s: Solo, inps: seq<FetchInput>)
    requires s.cached.None?
    ensures SoloRun(s, inps) == Solo(LastWrittenGood(s.file, inps), LatestIn(inps))
  {
    if inps != [] {
      var init := inps[..|inps| - 1];
      SoloLastGood(s, init);
      LatestIsGood(s.file, init);
      assert inps[..|inps|] == inps;
      assert inps[..LastWrite(init)] == init[..LastWrite(init)];
    }
  }

  ghost predicate WritesSucceed(inps: seq<FetchInput>) {
    forall k :: 0 <= k < |inps| ==> inps[k].write.Written?
  }

  /** While all writes succeed, that is the last good value. */
  lemma {:induction false} AllWritten(initial: Option<Bytes>, inps: seq<FetchInput>)
    requires WritesSucceed(inps)
    ensures LastWrittenGood(initial, inps) == LastGood(initial, inps)
  {
    if inps != [] {
      var init := inps[..|inps| - 1];
      assert WritesSucceed(init);
      AllWritten(initial, init);
      assert inps[..|inps|] == inps;
      assert inps[..LastWrite(init)] == init[..LastWrite(init)];
    }
  }

  /** A run of a freshly started agent. */
  ghost predicate RunsFor(w: World, cfg: AgentConfig, passes: seq<PassInput>, i: nat) {
    w.cache == map[] && i < |cfg.secrets| && forall p :: p in passes ==> Fits(cfg, p)
  }

  /** In every run the file of each secret holds the last good value as of its last write: failed refreshes never change
      it. While the writes succeed that is the last good value. */
  lemma LastGoodValue(w: World, cfg: AgentConfig, passes: seq<PassInput>, i: nat)
    requires PathsClear(cfg.secrets) && DistinctNames(cfg.secrets) && RunsFor(w, cfg, passes, i)
    requires forall p :: p in passes ==> FoldersAvoid(cfg, p, cfg.secrets[i].path)
    ensures var inps, initial := InputsOf(cfg, passes, i), At(w.files, cfg.secrets[i].path);
            var file := At(Passes(w, cfg, passes).files, cfg.secrets[i].path);
            file == LastWrittenGood(initial, inps) && (WritesSucceed(inps) ==> file == LastGood(initial, inps))
  {
    RunIsSolo(w, cfg, passes, i);
    SoloLastGood(View(w, cfg.secrets[i]), InputsOf(cfg, passes, i));
    if WritesSucceed(InputsOf(cfg, passes, i)) {
      AllWritten(At(w.files, cfg.secrets[i].path), InputsOf(cfg, passes, i));
    }
  }

  // ---------- crashes ----------

  /** The path holds its old content or one of the complete new ones. */
  ghost predicate OldOrNew(files: Files, path: string, prior: Option<Bytes>, whole: iset<Bytes>) {
    At(files, path) == prior || (path in files && files[path] in whole)
  }

  /** From `from` to `to` every file system seen holds the old or a complete new content at the path. */
  ghost predicate NeverTorn(from: World, to: World, path: string, prior: Option<Bytes>, whole: iset<Bytes>) {
    from.history <= to.history &&
    forall k :: |from.history| <= k < |to.history| ==> OldOrNew(to.history[k], path, prior, whole)
  }

  lemma NeverTornChains(a: World, b: World, c: World, path: string, prior: Option<Bytes>, whole: iset<Bytes>)
    requires NeverTorn(a, b, path, prior, whole) && NeverTorn(b, c, path, prior, whole)
    ensures NeverTorn(a, c, path, prior, whole)
  {
    forall k | |a.history| <= k < |c.history| ensures OldOrNew(c.history[k], path, prior, whole) {
      assert k < |b.history| ==> c.history[k] == b.history[k];
    }
  }

  lemma WriteNeverTears(files: Files, p: string, data: Bytes, o: WriteOutcome, path: string, prior: Option<Bytes>,
      whole: iset<Bytes>)
    requires OldOrNew(files, path, prior, whole) && path != TmpPath(p) && (path == p ==> data in whole)
    ensures OldOrNew(AfterWrite(files, p, data, o), path, prior, whole)
    ensures forall k :: 0 <= k < |WriteStates(files, p, data, o)| ==>
            OldOrNew(WriteStates(files, p, data, o)[k], path, prior, whole)
  {
    if path == p {
      WriteHere(files, p, data, o);
    } else {
      WriteElsewhere(files, p, data, o, path);
    }
  }

  lemma TurnNeverTears(w: World, c: SecretConfig, inp: FetchInput, foe: bool, path: string, prior: Option<Bytes>,
      whole: iset<Bytes>)
    requires OldOrNew(w.files, path, prior, whole)
    requires path == c.path && BytesFor(w, c, inp).Some? ==> BytesFor(w, c, inp).value in whole
    requires path != TmpPath(c.path)
    ensures var after := TurnWorld(w, c, inp, foe);
            NeverTorn(w, after, path, prior, whole) && OldOrNew(after.files, path, prior, whole)
  {
    match BytesFor(w, c, inp)
    case Some(data) => WriteNeverTears(w.files, c.path, data, inp.write, path, prior, whole);
    case None =>
  }

  /** What secret `j` writes in the pass, if its fetch or the cache brings anything. */
  function Offered(w: World, cfg: AgentConfig, pass: PassInput, j: nat): Option<Bytes>
    requires Fits(cfg, pass) && j < |cfg.secrets|
  {
    BytesFor(AfterSecrets(w, cfg, pass, j), cfg.secrets[j], pass.secrets[j])
  }

  /** Some secret of that path writes the bytes in the pass. */
  ghost predicate SecretWrites(w: World, cfg: AgentConfig, pass: PassInput, path: string, data: Bytes)
    requires Fits(cfg, pass)
  {
    exists j: nat :: j < |cfg.secrets| && cfg.secrets[j].path == path && Offered(w, cfg, pass, j) == Some(data)
  }

  /** Some folder holds a file of that path with the bytes. */
  ghost predicate FolderWrites(cfg: AgentConfig, pass: PassInput, path: string, data: Bytes)
    requires Fits(cfg, pass)
  {
    exists f: nat, item :: f < |cfg.folders| && item in ItemsAt(cfg, pass, f) && item.path == path && item.data == data
  }

  /** The complete contents the pass means to give a path. */
  ghost function WholeContents(w: World, cfg: AgentConfig, pass: PassInput, path: string): iset<Bytes>
    requires Fits(cfg, pass)
  {
    iset data | SecretWrites(w, cfg, pass, path, data) || FolderWrites(cfg, pass, path, data)
  }

  /** Nothing the pass may write goes through a temp file at the path. */
  ghost predicate NoSecretTemp(cfgs: seq<SecretConfig>, path: string) {
    forall j :: 0 <= j < |cfgs| ==> TmpPath(cfgs[j].path) != path
  }

  ghost predicate NoFolderTemp(cfg: AgentConfig, pass: PassInput, path: string)
    requires Fits(cfg, pass)
  {
    forall f, item :: 0 <= f < |cfg.folders| && item in ItemsAt(cfg, pass, f) ==> TmpPath(item.path) != path
  }

  /** The step tears nothing at the path, if the path holds something whole before. */
  ghost predicate KeepsWhole(a: World, b: World, path: string, prior: Option<Bytes>, whole: iset<Bytes>) {
    OldOrNew(a.files, path, prior, whole) ==>
      NeverTorn(a, b, path, prior, whole) && OldOrNew(b.files, path, prior, whole)
  }

  lemma {:induction false} KeepsWholeAlong(worlds: seq<World>, path: string, prior: Option<Bytes>, whole: iset<Bytes>,
      k: nat)
    requires k < |worlds| && forall j: nat :: j + 1 < |worlds| ==>
             KeepsWhole(worlds[j], worlds[j + 1], path, prior, whole)
    ensures KeepsWhole(worlds[0], worlds[k], path, prior, whole)
  {
    if k > 0 && OldOrNew(worlds[0].files, path, prior, whole) {
      KeepsWholeAlong(worlds, path, prior, whole, k - 1);
      assert KeepsWhole(worlds[k - 1], worlds[k - 1 + 1], path, prior, whole);
      NeverTornChains(worlds[0], worlds[k - 1], worlds[k], path, prior, whole);
    }
  }

  lemma NextKeepsWhole(w: World, cfg: AgentConfig, pass: PassInput, k: nat, path: string, prior: Option<Bytes>)
    requires Fits(cfg, pass) && k < |cfg.secrets| && NoSecretTemp(cfg.secrets, path)
    ensures KeepsWhole(AfterSecrets(w, cfg, pass, k), AfterSecrets(w, cfg, pass, k + 1), path, prior,
            WholeContents(w, cfg, pass, path))
  {
    var before, c, inp, whole := AfterSecrets(w, cfg, pass, k), cfg.secrets[k], pass.secrets[k],
      WholeContents(w, cfg, pass, path);
    if OldOrNew(before.files, path, prior, whole) {
      if path == c.path && BytesFor(before, c, inp).Some? {
        assert Offered(w, cfg, pass, k) == Some(BytesFor(before, c, inp).value);
      }
      TurnNeverTears(before, c, inp, cfg.failOnError, path, prior, whole);
    }
  }

  lemma SecretsNeverTear(w: World, cfg: AgentConfig, pass: PassInput, path: string)
    requires Fits(cfg, pass) && NoSecretTemp(cfg.secrets, path)
    ensures var after, whole := AfterSecrets(w, cfg, pass, |cfg.secrets|), WholeContents(w, cfg, pass, path);
            NeverTorn(w, after, path, At(w.files, path), whole) && OldOrNew(after.files, path, At(w.files, path), whole)
  {
    var worlds, prior, whole := TurnWorlds(w, cfg, pass), At(w.files, path), WholeContents(w, cfg, pass, path);
    forall j: nat | j < |cfg.secrets| ensures KeepsWhole(worlds[j], worlds[j + 1], path, prior, whole) {
      NextKeepsWhole(w, cfg, pass, j, path, prior);
    }
    KeepsWholeAlong(worlds, path, prior, whole, |cfg.secrets|);
  }

  lemma {:induction false} ItemsNeverTear(w: World, items: seq<FolderItem>, path: string, prior: Option<Bytes>,
      whole: iset<Bytes>)
    requires OldOrNew(w.files, path, prior, whole)
    requires forall k :: 0 <= k < |items| ==>
             TmpPath(items[k].path) != path && (items[k].path == path ==> items[k].data in whole)
    ensures NeverTorn(w, AfterItems(w, items), path, prior, whole) &&
            OldOrNew(AfterItems(w, items).files, path, prior, whole)
  {
    if items != [] {
      var init, last := items[..|items| - 1], items[|items| - 1];
      ItemsNeverTear(w, init, path, prior, whole);
      WriteNeverTears(AfterItems(w, init).files, last.path, last.data, last.write, path, prior, whole);
    }
  }

  lemma FolderKeepsWhole(w: World, cfg: AgentConfig, pass: PassInput, k: nat, path: string, prior: Option<Bytes>,
      whole: iset<Bytes>)
    requires Fits(cfg, pass) && k < |cfg.folders| && NoFolderTemp(cfg, pass, path)
    requires forall data :: FolderWrites(cfg, pass, path, data) ==> data in whole
    ensures KeepsWhole(AfterFolders(w, cfg, pass, k), AfterFolders(w, cfg, pass, k + 1), path, prior, whole)
  {
    var before, items := AfterFolders(w, cfg, pass, k), ItemsAt(cfg, pass, k);
    if OldOrNew(before.files, path, prior, whole) {
      forall m | 0 <= m < |items|
        ensures TmpPath(items[m].path) != path && (items[m].path == path ==> items[m].data in whole)
      {
        assert items[m] in ItemsAt(cfg, pass, k);
        assert items[m].path == path ==> FolderWrites(cfg, pass, path, items[m].data);
      }
      ItemsNeverTear(before, items, path, prior, whole);
    }
  }

  lemma FoldersNeverTear(w: World, cfg: AgentConfig, pass: PassInput, path: string, prior: Option<Bytes>,
      whole: iset<Bytes>)
    requires Fits(cfg, pass) && NoFolderTemp(cfg, pass, path) && OldOrNew(w.files, path, prior, whole)
    requires forall data :: FolderWrites(cfg, pass, path, data) ==> data in whole
    ensures KeepsWhole(w, AfterFolders(w, cfg, pass, |cfg.folders|), path, prior, whole)
  {
    var worlds := FolderWorlds(w, cfg, pass);
    forall j: nat | j < |cfg.folders| ensures KeepsWhole(worlds[j], worlds[j + 1], path, prior, whole) {
      FolderKeepsWhole(w, cfg, pass, j, path, prior, whole);
    }
    KeepsWholeAlong(worlds, path, prior, whole, |cfg.folders|);
  }

  /** At every point of a pass, whatever fails in it and wherever it is cut off, a path that is no temp path holds
      its old content or, complete, one that the pass means to give it. Names and even paths may coincide. */
  lemma CrashSafe(w: World, cfg: AgentConfig, pass: PassInput, path: string)
    requires Fits(cfg, pass) && NoSecretTemp(cfg.secrets, path) && NoFolderTemp(cfg, pass, path)
    ensures var after, whole := Pass(w, cfg, pass), WholeContents(w, cfg, pass, path);
            NeverTorn(w, after, path, At(w.files, path), whole) && OldOrNew(after.files, path, At(w.files, path), whole)
  {
    var mid, whole := AfterSecrets(w, cfg, pass, |cfg.secrets|), WholeContents(w, cfg, pass, path);
    SecretsNeverTear(w, cfg, pass, path);
    FoldersNeverTear(mid, cfg, pass, path, At(w.files, path), whole);
    NeverTornChains(w, mid, Pass(w, cfg, pass), path, At(w.files, path), whole);
  }

  /** With clear paths the only complete content meant for a secret's path is what that secret's own turn writes. */
  lemma OnlyItsOwn(w: World, cfg: AgentConfig, pass: PassInput, i: nat, data: Bytes)
    requires Fits(cfg, pass) && i < |cfg.secrets| && PathsClear(cfg.secrets) &&
             FoldersAvoid(cfg, pass, cfg.secrets[i].path)
    ensures data in WholeContents(w, cfg, pass, cfg.secrets[i].path) <==> Offered(w, cfg, pass, i) == Some(data)
  {
    var path := cfg.secrets[i].path;
    assert !FolderWrites(cfg, pass, path, data);
  }

  // ---------- the age of cached values ----------

  /** The most recent successful fetch under a name. */
  function LatestFetch(log: seq<Event>, name: string): Option<CachedSecret> {
    if log == [] then None
    else
      var last := log[|log| - 1];
      if last.Fetched? && last.name == name then Some(CachedSecret(last.data, last.at))
      else LatestFetch(log[..|log| - 1], name)
  }

  /** The cache holds the most recent fetch of every name, and every use of it so far was of the most recent
      fetch at that point, a day old at most. */
  ghost predicate Sound(w: World) {
    (forall name :: At(w.cache, name) == LatestFetch(w.log, name)) &&
    forall i :: 0 <= i < |w.log| && w.log[i].FellBack? ==> RecentFallback(w.log, i)
  }

  ghost predicate RecentFallback(log: seq<Event>, i: nat)
    requires i < |log|
  {
    var c := LatestFetch(log[..i], log[i].name);
    c.Some? && c.value.data == log[i].data && log[i].at - c.value.fetchedAt <= DAY
  }

  /** Writing files concerns neither the cache nor the log. */
  lemma TurnOnlyNotes(w: World, c: SecretConfig, inp: FetchInput, foe: bool)
    ensures var after := TurnWorld(w, c, inp, foe);
            match BytesFor(w, c, inp)
            case None => after.cache == w.cache && after.log == w.log
            case Some(data) => after.cache == Note(w, c, inp, data).cache && after.log == Note(w, c, inp, data).log
  {
  }

  lemma FallbacksStay(w: World, after: World, e: Event)
    requires Sound(w) && after.log == w.log + [e]
    requires e.FellBack? ==>
               var c := LatestFetch(w.log, e.name);
               c.Some? && c.value.data == e.data && e.at - c.value.fetchedAt <= DAY
    ensures forall i :: 0 <= i < |after.log| && after.log[i].FellBack? ==> RecentFallback(after.log, i)
  {
    forall i | 0 <= i < |after.log| && after.log[i].FellBack? ensures RecentFallback(after.log, i) {
      assert after.log[..i] == w.log[..i];
      assert i == |w.log| ==> w.log[..i] == w.log;
      assert i < |w.log| ==> RecentFallback(w.log, i);
    }
  }

  lemma TurnKeepsSound(w: World, c: SecretConfig, inp: FetchInput, foe: bool)
    requires Sound(w)
    ensures Sound(TurnWorld(w, c, inp, foe))
  {
    var after := TurnWorld(w, c, inp, foe);
    TurnOnlyNotes(w, c, inp, foe);
    match BytesFor(w, c, inp)
    case None =>
    case Some(data) =>
      assert after.log[..|w.log|] == w.log;
      assert At(w.cache, c.name) == LatestFetch(w.log, c.name);
      FallbacksStay(w, after, after.log[|w.log|]);
  }

  lemma {:induction false} SecretsKeepSound(w: World, cfg: AgentConfig, pass: PassInput, k: nat)
    requires Fits(cfg, pass) && k <= |cfg.secrets| && Sound(w)
    ensures Sound(AfterSecrets(w, cfg, pass, k))
  {
    if k > 0 {
      SecretsKeepSound(w, cfg, pass, k - 1);
      TurnKeepsSound(AfterSecrets(w, cfg, pass, k - 1), cfg.secrets[k - 1], pass.secrets[k - 1], cfg.failOnError);
    }
  }

  lemma {:induction false} ItemsKeepLog(w: World, items: seq<FolderItem>)
    ensures AfterItems(w, items).cache == w.cache && AfterItems(w, items).log == w.log
  {
    if items != [] {
      ItemsKeepLog(w, items[..|items| - 1]);
    }
  }

  lemma {:induction false} FoldersKeepLog(w: World, cfg: AgentConfig, pass: PassInput, k: nat)
    requires Fits(cfg, pass) && k <= |cfg.folders|
    ensures AfterFolders(w, cfg, pass, k).cache == w.cache && AfterFolders(w, cfg, pass, k).log == w.log
  {
    if k > 0 {
      FoldersKeepLog(w, cfg, pass, k - 1);
      ItemsKeepLog(AfterFolders(w, cfg, pass, k - 1), ItemsAt(cfg, pass, k - 1));
    }
  }

  /** Every run keeps the cache and the log sound, shared names or not. */
  lemma {:induction false} RunKeepsSound(w: World, cfg: AgentConfig, passes: seq<PassInput>)
    requires Sound(w) && forall p :: p in passes ==> Fits(cfg, p)
    ensures Sound(Passes(w, cfg, passes))
  {
    if passes != [] {
      var init, last := passes[..|passes| - 1], passes[|passes| - 1];
      RunKeepsSound(w, cfg, init);
      var mid := Passes(w, cfg, init);
      SecretsKeepSound(mid, cfg, last, |cfg.secrets|);
      FoldersKeepLog(AfterSecrets(mid, cfg, last, |cfg.secrets|), cfg, last, |cfg.folders|);
    }
  }

  lemma {:induction false} LatestFetchIsLogged(log: seq<Event>, name: string) returns (j: nat)
    requires LatestFetch(log, name).Some?
    ensures j < |log| && log[j] ==
            Fetched(name, LatestFetch(log, name).value.data, LatestFetch(log, name).value.fetchedAt)
    ensures forall m :: j < m < |log| ==> !(log[m].Fetched? && log[m].name == name)
  {
    var last := log[|log| - 1];
    if last.Fetched? && last.name == name {
      j := |log| - 1;
    } else {
      j := LatestFetchIsLogged(log[..|log| - 1], name);
    }
  }

  /** In every run of a freshly started agent, bytes taken from the cache were fetched under the same name at most
      24 hours before, not after under a clock that never goes back, and are the latest fetched under that name:
      using the cache never renews an entry. */
  lemma FallbackIsRecent(files: Files, cfg: AgentConfig, passes: seq<PassInput>, i: nat) returns (j: nat)
    requires forall p :: p in passes ==> Fits(cfg, p)
    requires i < |Passes(World(files, map[], map[], [], []), cfg, passes).log|
    requires Passes(World(files, map[], map[], [], []), cfg, passes).log[i].FellBack?
    ensures var log := Passes(World(files, map[], map[], [], []), cfg, passes).log;
            j < i && log[j] == Fetched(log[i].name, log[i].data, log[j].at) &&
            log[i].at - log[j].at <= 24 * 3600 * 1_000_000_000 &&
            (forall m :: j < m < i ==> !(log[m].Fetched? && log[m].name == log[i].name)) &&
            ((forall a, b :: 0 <= a < b < |log| ==> log[a].at <= log[b].at) ==> log[j].at <= log[i].at)
  {
    var w := World(files, map[], map[], [], []);
    RunKeepsSound(w, cfg, passes);
    var log := Passes(w, cfg, passes).log;
    assert RecentFallback(log, i);
    j := LatestFetchIsLogged(log[..i], log[i].name);
  }
}
