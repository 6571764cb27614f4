/** Exactly when the agent keeps its promises: conditions on the configuration alone. */
module AgentConditions {
  import opened Text
  import opened Values
  import opened Cache
  import opened FolderModel
  import opened FolderTheorems
  import opened Records
  import opened FolderFetch
  import opened AgentModel
  import opened AgentTheorems

  // ---------- which files a folder can write ----------

  /** The folder is given by a UID, or by a path with a component in it. */
  predicate Usable(folder: FolderConfig) {
    folder.folderUID != "" || Components(folder.folderPath) != []
  }

  /** The path is directly in the output directory, made of file name characters, and ends in ".json". */
  ghost predicate IsFolderFile(folder: FolderConfig, path: string) {
    exists name :: AllFileNameChars(name) && path == FilePath(folder.outputPath, name)
  }

  /** The same with ".json.tmp". */
  ghost predicate IsFolderTemp(folder: FolderConfig, path: string) {
    exists name :: AllFileNameChars(name) && path == TmpPath(FilePath(folder.outputPath, name))
  }

  /** Folder files go nowhere else, whatever the titles. */
  lemma FolderFilesStayInside(folder: FolderConfig, inp: FolderInput)
    ensures forall item :: item in FolderItems(folder, inp) ==>
            IsFolderFile(folder, item.path) && IsFolderTemp(folder, TmpPath(item.path))
  {
    forall item | item in FolderItems(folder, inp)
      ensures IsFolderFile(folder, item.path) && IsFolderTemp(folder, TmpPath(item.path))
    {
      var rs := FolderRecords(inp.vault, folder.folderUID, folder.folderPath).value;
      var r :| r in rs && item.path == FilePath(folder.outputPath, r.title);
      var name := SafeName(r.title);
      SafeNameIsSafe(r.title);
      SafeNameIsSafe(name);
      assert item.path == FilePath(folder.outputPath, name);
    }
  }

  /** A folder given by neither fails in every pass. */
  lemma UnusableFails(folder: FolderConfig, inp: FolderInput)
    requires !Usable(folder)
    ensures FolderFails(folder, inp) && FolderItems(folder, inp) == []
  {
  }

  /** Any other can be found in some vault, whatever records that holds. */
  lemma UsableIsFound(folder: FolderConfig) returns (fs: seq<Folder>, u: string)
    requires Usable(folder)
    ensures u != "" && forall rs :: FolderMeant(Vault(Some(fs), rs), folder.folderUID, folder.folderPath) == Some(u)
  {
    if folder.folderUID != "" {
      fs, u := [], folder.folderUID;
    } else {
      fs, u := PathCanResolve(folder.folderPath);
      assert folder.folderPath != "";
    }
  }

  /** The vault holds one record in the folder, of that title. */
  ghost predicate HoldsOne(v: Vault, folder: FolderConfig, title: string) {
    var rs := FolderRecords(v, folder.folderUID, folder.folderPath);
    rs.Some? && |rs.value| == 1 && rs.value[0].title == title
  }

  lemma UsableCanHoldOne(folder: FolderConfig, title: string) returns (v: Vault)
    requires Usable(folder)
    ensures HoldsOne(v, folder, title)
  {
    var fs, u := UsableIsFound(folder);
    var r := Record("r", title, u, "", map[]);
    v := Vault(Some(fs), Some([r]));
    assert [r][..0] == [];
    assert FolderRecords(v, folder.folderUID, folder.folderPath) == Some(Filter([r], (x: Record) => InFolder(x, u)));
  }

  // ---------- the history only grows ----------

  /** Everything seen by the one world has been seen by the other. */
  ghost predicate Extends(a: World, b: World) {
    a.history <= b.history
  }

  lemma {:induction false} ExtendsAlong(worlds: seq<World>, j: nat, k: nat)
    requires j <= k < |worlds| && forall m: nat :: m + 1 < |worlds| ==> Extends(worlds[m], worlds[m + 1])
    ensures Extends(worlds[j], worlds[k])
  {
    if j < k {
      ExtendsAlong(worlds, j, k - 1);
      assert Extends(worlds[k - 1], worlds[k - 1 + 1]);
    }
  }

  lemma NextExtends(w: World, cfg: AgentConfig, pass: PassInput, k: nat)
    requires Fits(cfg, pass) && k < |cfg.secrets|
    ensures Extends(AfterSecrets(w, cfg, pass, k), AfterSecrets(w, cfg, pass, k + 1))
  {
  }

  lemma SecretsExtend(w: World, cfg: AgentConfig, pass: PassInput, j: nat, k: nat)
    requires Fits(cfg, pass) && j <= k <= |cfg.secrets|
    ensures Extends(AfterSecrets(w, cfg, pass, j), AfterSecrets(w, cfg, pass, k))
  {
    var worlds := TurnWorlds(w, cfg, pass);
    forall m: nat | m < |cfg.secrets| ensures Extends(worlds[m], worlds[m + 1]) {
      NextExtends(w, cfg, pass, m);
    }
    ExtendsAlong(worlds, j, k);
  }

  lemma {:induction false} ItemsExtend(w: World, items: seq<FolderItem>)
    ensures Extends(w, AfterItems(w, items))
  {
    if items != [] {
      ItemsExtend(w, items[..|items| - 1]);
    }
  }

  lemma FolderExtends(w: World, folder: FolderConfig, inp: FolderInput)
    ensures Extends(w, FolderWorld(w, folder, inp))
  {
    ItemsExtend(w, FolderItems(folder, inp));
  }

  lemma FoldersExtend(w: World, cfg: AgentConfig, pass: PassInput)
    requires Fits(cfg, pass)
    ensures Extends(w, AfterFolders(w, cfg, pass, |cfg.folders|))
  {
    var worlds := FolderWorlds(w, cfg, pass);
    forall m: nat | m < |cfg.folders| ensures Extends(worlds[m], worlds[m + 1]) {
      FolderExtends(worlds[m], cfg.folders[m], pass.folders[m]);
    }
    ExtendsAlong(worlds, 0, |cfg.folders|);
  }

  // ---------- passes in which little happens ----------

  const NOTHING := FolderInput(Vault(None, None), [], 0)

  lemma NothingFails(folder: FolderConfig)
    ensures FolderFails(folder, NOTHING) && FolderItems(folder, NOTHING) == []
  {
  }

  /** The pass in which only secret `i` is fetched, and everything else fails. */
  function OnlyFetch(cfg: AgentConfig, i: nat, data: Bytes, o: WriteOutcome): (pass: PassInput)
    ensures Fits(cfg, pass)
  {
    PassInput(
      seq(|cfg.secrets|, k => FetchInput(if k == i then Some(data) else None, 0, 0, o)),
      seq(|cfg.folders|, _ => NOTHING))
  }

  /** The pass in which only folder `f` is fetched. */
  function OnlyFolder(cfg: AgentConfig, f: nat, v: Vault, data: Bytes, o: WriteOutcome): (pass: PassInput)
    ensures Fits(cfg, pass)
  {
    PassInput(
      seq(|cfg.secrets|, _ => FetchInput(None, 0, 0, Written([]))),
      seq(|cfg.folders|, k => if k == f then FolderInput(v, [ItemInput(Some(data), o)], 0) else NOTHING))
  }

  lemma {:induction false} FailedFolders(w: World, cfg: AgentConfig, pass: PassInput, k: nat)
    requires Fits(cfg, pass) && k <= |cfg.folders| && forall f :: 0 <= f < k ==> pass.folders[f] == NOTHING
    ensures AfterFolders(w, cfg, pass, k) == w
  {
    if k > 0 {
      FailedFolders(w, cfg, pass, k - 1);
      NothingFails(cfg.folders[k - 1]);
    }
  }

  /** Nothing that concerns files or the cache is different. */
  ghost predicate Same(a: World, b: World) {
    a.files == b.files && a.history == b.history && a.cache == b.cache
  }

  lemma {:induction false} SameWhileQuiet(worlds: seq<World>, k: nat)
    requires k < |worlds| && worlds[0].cache == map[]
    requires forall j: nat :: j < k && worlds[j].cache == map[] ==> Same(worlds[j + 1], worlds[j])
    ensures Same(worlds[k], worlds[0])
  {
    if k > 0 {
      SameWhileQuiet(worlds, k - 1);
      assert Same(worlds[k - 1 + 1], worlds[k - 1]);
    }
  }

  lemma QuietTurn(w: World, c: SecretConfig, inp: FetchInput, foe: bool)
    requires inp.fetched.None? && w.cache == map[]
    ensures Same(TurnWorld(w, c, inp, foe), w)
  {
  }

  /** While nothing is fetched and nothing cached, secrets change no file. */
  lemma QuietSecrets(w: World, cfg: AgentConfig, pass: PassInput, k: nat)
    requires Fits(cfg, pass) && k <= |cfg.secrets| && w.cache == map[]
    requires forall i :: 0 <= i < k ==> pass.secrets[i].fetched.None?
    ensures Same(AfterSecrets(w, cfg, pass, k), w)
  {
    var worlds := TurnWorlds(w, cfg, pass);
    forall j: nat | j < k && worlds[j].cache == map[] ensures Same(worlds[j + 1], worlds[j]) {
      QuietTurn(worlds[j], cfg.secrets[j], pass.secrets[j], cfg.failOnError);
    }
    SameWhileQuiet(worlds, k);
  }

  predicate OnlyData(cache: map<string, CachedSecret>, data: Bytes) {
    forall name :: name in cache ==> cache[name].data == data
  }

  lemma TurnCachesOnly(w: World, c: SecretConfig, inp: FetchInput, foe: bool, data: Bytes)
    requires OnlyData(w.cache, data) && (inp.fetched.Some? ==> inp.fetched.value == data)
    ensures OnlyData(TurnWorld(w, c, inp, foe).cache, data)
  {
  }

  lemma {:induction false} OnlyDataAlong(worlds: seq<World>, data: Bytes, k: nat)
    requires k < |worlds| && OnlyData(worlds[0].cache, data)
    requires forall j: nat :: j + 1 < |worlds| && OnlyData(worlds[j].cache, data) ==>
             OnlyData(worlds[j + 1].cache, data)
    ensures OnlyData(worlds[k].cache, data)
  {
    if k > 0 {
      OnlyDataAlong(worlds, data, k - 1);
      assert OnlyData(worlds[k - 1 + 1].cache, data);
    }
  }

  /** Where only one secret is fetched, nothing but its bytes is ever cached. */
  lemma OnlyCached(w: World, cfg: AgentConfig, i: nat, data: Bytes, o: WriteOutcome, k: nat)
    requires k <= |cfg.secrets| && w.cache == map[]
    ensures OnlyData(AfterSecrets(w, cfg, OnlyFetch(cfg, i, data, o), k).cache, data)
  {
    var pass := OnlyFetch(cfg, i, data, o);
    var worlds := TurnWorlds(w, cfg, pass);
    forall j: nat | j < |cfg.secrets| && OnlyData(worlds[j].cache, data) ensures OnlyData(worlds[j + 1].cache, data) {
      TurnCachesOnly(worlds[j], cfg.secrets[j], pass.secrets[j], cfg.failOnError, data);
    }
    OnlyDataAlong(worlds, data, k);
  }

  lemma {:induction false} OtherFoldersFail(w: World, cfg: AgentConfig, pass: PassInput, f: nat, k: nat)
    requires Fits(cfg, pass) && f < k <= |cfg.folders| && forall m :: 0 <= m < k && m != f ==>
             pass.folders[m] == NOTHING
    ensures AfterFolders(w, cfg, pass, k) == FolderWorld(w, cfg.folders[f], pass.folders[f])
    decreases k
  {
    if k - 1 == f {
      FailedFolders(w, cfg, pass, f);
    } else {
      OtherFoldersFail(w, cfg, pass, f, k - 1);
      NothingFails(cfg.folders[k - 1]);
    }
  }

  lemma OneItem(w: World, folder: FolderConfig, v: Vault, data: Bytes, o: WriteOutcome, title: string)
    requires HoldsOne(v, folder, title)
    ensures var inp, path := FolderInput(v, [ItemInput(Some(data), o)], 0), FilePath(folder.outputPath, title);
            FolderItems(folder, inp) == [FolderItem(path, data, o)] &&
            FolderWorld(w, folder, inp).files == AfterWrite(w.files, path, data, o) &&
            FolderWorld(w, folder, inp).history == w.history + WriteStates(w.files, path, data, o)
  {
    var rs := FolderRecords(v, folder.folderUID, folder.folderPath).value;
    OneItemOf(folder.outputPath, rs, data, o);
    AfterOneItem(w, FolderItem(FilePath(folder.outputPath, title), data, o));
  }

  lemma OneItemOf(dir: string, rs: seq<Record>, data: Bytes, o: WriteOutcome)
    requires |rs| == 1
    ensures ItemsOf(dir, rs, [ItemInput(Some(data), o)]) == [FolderItem(FilePath(dir, rs[0].title), data, o)]
  {
    assert rs[..0] == [] && ItemsOf(dir, [], [ItemInput(Some(data), o)]) == [];
  }

  lemma AfterOneItem(w: World, item: FolderItem)
    ensures AfterItems(w, [item]) == Write(w, item.path, item.data, item.write)
  {
    assert [item][..0] == [];
  }

  lemma OnlyFolderPass(w: World, cfg: AgentConfig, f: nat, v: Vault, data: Bytes, o: WriteOutcome, title: string)
    requires f < |cfg.folders| && HoldsOne(v, cfg.folders[f], title) && w.cache == map[]
    ensures var after, path := Pass(w, cfg, OnlyFolder(cfg, f, v, data, o)), FilePath(cfg.folders[f].outputPath, title);
            after.files == AfterWrite(w.files, path, data, o) &&
              after.history == w.history + WriteStates(w.files, path, data, o)
  {
    var pass := OnlyFolder(cfg, f, v, data, o);
    var mid := AfterSecrets(w, cfg, pass, |cfg.secrets|);
    QuietSecrets(w, cfg, pass, |cfg.secrets|);
    OtherFoldersFail(mid, cfg, pass, f, |cfg.folders|);
    OneItem(mid, cfg.folders[f], v, data, o, title);
  }

  // ---------- what a first pass serves ----------

  /** The last of the first `k` secrets of that name that is fetched in the pass. */
  function FetchedBefore(cfg: AgentConfig, pass: PassInput, name: string, k: nat): (r: Option<CachedSecret>)
    requires Fits(cfg, pass) && k <= |cfg.secrets|
    ensures r.Some? ==>
              exists j :: 0 <= j < k && cfg.secrets[j].name == name && pass.secrets[j].fetched == Some(r.value.data)
  {
    if k == 0 then None
    else if cfg.secrets[k - 1].name == name && pass.secrets[k - 1].fetched.Some?
    then Some(CachedSecret(pass.secrets[k - 1].fetched.value, pass.secrets[k - 1].now))
    else FetchedBefore(cfg, pass, name, k - 1)
  }

  /** What a freshly started agent writes for secret `i` in its first pass: what it fetches for it, or, not older than a
      day, what it has fetched for an earlier secret of the same name. */
  function Served(cfg: AgentConfig, pass: PassInput, i: nat): (r: Option<Bytes>)
    requires Fits(cfg, pass) && i < |cfg.secrets|
    ensures r.Some? ==>
              exists j :: 0 <= j <= i && cfg.secrets[j].name == cfg.secrets[i].name && pass.secrets[j].fetched == r
  {
    var earlier := FetchedBefore(cfg, pass, cfg.secrets[i].name, i);
    if pass.secrets[i].fetched.Some? then pass.secrets[i].fetched
    else if earlier.Some? && pass.secrets[i].now - earlier.value.fetchedAt <= DAY then Some(earlier.value.data)
    else None
  }

  lemma {:induction false} CacheIsFetched(w: World, cfg: AgentConfig, pass: PassInput, k: nat)
    requires Fits(cfg, pass) && k <= |cfg.secrets| && w.cache == map[]
    ensures forall name :: At(AfterSecrets(w, cfg, pass, k).cache, name) == FetchedBefore(cfg, pass, name, k)
  {
    if k > 0 {
      CacheIsFetched(w, cfg, pass, k - 1);
    }
  }

  lemma OfferedIsServed(w: World, cfg: AgentConfig, pass: PassInput, i: nat)
    requires Fits(cfg, pass) && i < |cfg.secrets| && w.cache == map[]
    ensures Offered(w, cfg, pass, i) == Served(cfg, pass, i)
  {
    CacheIsFetched(w, cfg, pass, i);
  }

  /** The secret is served and its write succeeds. */
  predicate Delivered(cfg: AgentConfig, pass: PassInput, i: nat)
    requires Fits(cfg, pass) && i < |cfg.secrets|
  {
    Served(cfg, pass, i).Some? && pass.secrets[i].write.Written?
  }

  lemma {:induction false} EarlierIsServed(cfg: AgentConfig, pass: PassInput, name: string, i: nat, k: nat)
    requires Fits(cfg, pass) && i < k <= |cfg.secrets| && cfg.secrets[i].name == name && pass.secrets[i].fetched.Some?
    requires forall m :: 0 <= m < |cfg.secrets| ==> pass.secrets[m].now == 0
    ensures FetchedBefore(cfg, pass, name, k).Some? && FetchedBefore(cfg, pass, name, k).value.fetchedAt == 0
    decreases k
  {
    if k - 1 > i {
      EarlierIsServed(cfg, pass, name, i, k - 1);
    }
  }

  /** Writing secret `j` may only touch the path of secret `i` if they are the same. */
  ghost predicate OwnPath(cfgs: seq<SecretConfig>, i: nat, j: nat)
    requires i < |cfgs| && j < |cfgs|
  {
    cfgs[i].path != TmpPath(cfgs[j].path) && (cfgs[i].path == cfgs[j].path ==> i == j)
  }

  lemma FileAfterTurn(w: World, c: SecretConfig, inp: FetchInput, foe: bool, path: string)
    requires path != TmpPath(c.path)
    ensures At(TurnWorld(w, c, inp, foe).files, path) ==
            if path == c.path && BytesFor(w, c, inp).Some? && inp.write.Written? then BytesFor(w, c, inp)
            else At(w.files, path)
  {
    match BytesFor(w, c, inp)
    case Some(data) =>
      if path == c.path {
        WriteHere(w.files, c.path, data, inp.write);
      } else {
        WriteElsewhere(w.files, c.path, data, inp.write, path);
      }
    case None =>
  }

  /** The file at the path is overwritten, if there is something to write, or stays. */
  ghost predicate Puts(a: World, b: World, path: string, own: Option<Bytes>) {
    At(b.files, path) == if own.Some? then own else At(a.files, path)
  }

  lemma {:induction false} PutsAlong(worlds: seq<World>, path: string, i: nat, own: Option<Bytes>, k: nat)
    requires k < |worlds| && forall j: nat :: j + 1 < |worlds| ==>
             Puts(worlds[j], worlds[j + 1], path, if j == i then own else None)
    ensures Puts(worlds[0], worlds[k], path, if i < k then own else None)
  {
    if k > 0 {
      PutsAlong(worlds, path, i, own, k - 1);
      assert Puts(worlds[k - 1], worlds[k - 1 + 1], path, if k - 1 == i then own else None);
    }
  }

  /** With clear paths a secret's file holds at the end what was delivered, shared names or not. */
  lemma FileAfterTurns(w: World, cfg: AgentConfig, pass: PassInput, i: nat)
    requires Fits(cfg, pass) && i < |cfg.secrets| && w.cache == map[]
    requires forall j: nat :: j < |cfg.secrets| ==> OwnPath(cfg.secrets, i, j)
    ensures At(AfterSecrets(w, cfg, pass, |cfg.secrets|).files, cfg.secrets[i].path) ==
            if Delivered(cfg, pass, i) then Served(cfg, pass, i) else At(w.files, cfg.secrets[i].path)
  {
    var worlds, path := TurnWorlds(w, cfg, pass), cfg.secrets[i].path;
    var own := if Delivered(cfg, pass, i) then Served(cfg, pass, i) else None;
    forall j: nat | j < |cfg.secrets| ensures Puts(worlds[j], worlds[j + 1], path, if j == i then own else None) {
      assert OwnPath(cfg.secrets, i, j);
      OfferedIsServed(w, cfg, pass, j);
      FileAfterTurn(worlds[j], cfg.secrets[j], pass.secrets[j], cfg.failOnError, path);
    }
    PutsAlong(worlds, path, i, own, |cfg.secrets|);
  }

  lemma DeliveredStays(w: World, cfg: AgentConfig, pass: PassInput, i: nat)
    requires Fits(cfg, pass) && i < |cfg.secrets| && w.cache == map[] && Delivered(cfg, pass, i)
    requires PathsClear(cfg.secrets) && FoldersAvoid(cfg, pass, cfg.secrets[i].path)
    ensures At(Pass(w, cfg, pass).files, cfg.secrets[i].path) == Served(cfg, pass, i)
  {
    assert |TmpPath(cfg.secrets[i].path)| != |cfg.secrets[i].path|;
    assert forall j: nat :: j < |cfg.secrets| ==> OwnPath(cfg.secrets, i, j);
    FileAfterTurns(w, cfg, pass, i);
    FoldersLeave(AfterSecrets(w, cfg, pass, |cfg.secrets|), cfg, pass, cfg.secrets[i].path);
  }

  // ---------- the last good value ----------

  /** In every run of a freshly started agent every file holds the last good value as of its last write. */
  ghost predicate KeepsLastGood(cfg: AgentConfig) {
    forall w, passes, i: nat :: RunsFor(w, cfg, passes, i) ==>
      At(Passes(w, cfg, passes).files, cfg.secrets[i].path) ==
        LastWrittenGood(At(w.files, cfg.secrets[i].path), InputsOf(cfg, passes, i))
  }

  /** No secret is where a file, finished or temporary, of a folder that can be found may be. */
  ghost predicate FoldersClear(cfg: AgentConfig) {
    forall f, i :: 0 <= f < |cfg.folders| && 0 <= i < |cfg.secrets| && Usable(cfg.folders[f]) ==>
      !IsFolderFile(cfg.folders[f], cfg.secrets[i].path) && !IsFolderTemp(cfg.folders[f], cfg.secrets[i].path)
  }

  lemma ClearMeansAvoid(cfg: AgentConfig, pass: PassInput, i: nat)
    requires Fits(cfg, pass) && i < |cfg.secrets| && FoldersClear(cfg)
    ensures FoldersAvoid(cfg, pass, cfg.secrets[i].path)
  {
    forall f | 0 <= f < |cfg.folders| ensures ItemsAvoid(ItemsAt(cfg, pass, f), cfg.secrets[i].path) {
      if Usable(cfg.folders[f]) {
        FolderFilesStayInside(cfg.folders[f], pass.folders[f]);
      } else {
        UnusableFails(cfg.folders[f], pass.folders[f]);
      }
    }
  }

  /** The promise holds exactly for configurations with distinct names (the cache is keyed by name alone), paths that
      are distinct and no temp path of each other, and no secret among the files of a folder. */
  lemma LastGoodIff(cfg: AgentConfig)
    ensures KeepsLastGood(cfg) <==> DistinctNames(cfg.secrets) && PathsClear(cfg.secrets) && FoldersClear(cfg)
  {
    if !PathsClear(cfg.secrets) {
      var i, j :| 0 <= i < |cfg.secrets| && 0 <= j < |cfg.secrets| && i != j &&
        (cfg.secrets[i].path == cfg.secrets[j].path || cfg.secrets[i].path == TmpPath(cfg.secrets[j].path));
      ClashBreaks(cfg, i, j);
    } else if !FoldersClear(cfg) {
      var f, i :| 0 <= f < |cfg.folders| && 0 <= i < |cfg.secrets| && Usable(cfg.folders[f]) &&
        (IsFolderFile(cfg.folders[f], cfg.secrets[i].path) || IsFolderTemp(cfg.folders[f], cfg.secrets[i].path));
      FolderBreaks(cfg, f, i);
    } else if !DistinctNames(cfg.secrets) {
      var i, j :| 0 <= i < j < |cfg.secrets| && cfg.secrets[i].name == cfg.secrets[j].name;
      SharedNameBreaks(cfg, i, j);
    } else {
      forall w, passes, i: nat | RunsFor(w, cfg, passes, i)
        ensures At(Passes(w, cfg, passes).files, cfg.secrets[i].path) ==
                LastWrittenGood(At(w.files, cfg.secrets[i].path), InputsOf(cfg, passes, i))
      {
        forall p | p in passes ensures FoldersAvoid(cfg, p, cfg.secrets[i].path) {
          ClearMeansAvoid(cfg, p, i);
        }
        LastGoodValue(w, cfg, passes, i);
      }
    }
  }

  /** One pass that changes the file of a secret it does not fetch breaks the promise. */
  lemma ChangedUnfetched(w: World, cfg: AgentConfig, pass: PassInput, i: nat)
    requires w.cache == map[] && Fits(cfg, pass) && i < |cfg.secrets|
    requires pass.secrets[i].fetched.None?
    requires At(Pass(w, cfg, pass).files, cfg.secrets[i].path) != At(w.files, cfg.secrets[i].path)
    ensures !KeepsLastGood(cfg)
  {
    OnePass(w, cfg, pass);
    OneUnfetched(cfg, pass, i, At(w.files, cfg.secrets[i].path));
    if KeepsLastGood(cfg) {
      assert RunsFor(w, cfg, [pass], i);
      assert false;
    }
  }

  lemma OnePass(w: World, cfg: AgentConfig, pass: PassInput)
    requires Fits(cfg, pass)
    ensures Passes(w, cfg, [pass]) == Pass(w, cfg, pass)
  {
    assert [pass][..0] == [];
  }

  lemma OneUnfetched(cfg: AgentConfig, pass: PassInput, i: nat, initial: Option<Bytes>)
    requires Fits(cfg, pass) && i < |cfg.secrets| && pass.secrets[i].fetched.None?
    ensures LastWrittenGood(initial, InputsOf(cfg, [pass], i)) == initial
  {
    assert [pass][..0] == [];
    assert InputsOf(cfg, [pass], i) == [pass.secrets[i]];
    assert [pass.secrets[i]][..0] == [];
  }

  const NOWHERE := World(map[], map[], map[], [], [])

  /** A world in which the path holds something nobody writes. */
  function Before(path: string): World {
    NOWHERE.(files := map[path := "y"])
  }

  /** A write that succeeds leaves its data, no temp file, and the rest. */
  lemma PlainWrite(files: Files, path: string, data: Bytes, p: string)
    ensures At(AfterWrite(files, path, data, Written([])), p) ==
            if p == path then Some(data) else if p == TmpPath(path) then None else At(files, p)
  {
    assert |TmpPath(path)| != |path|;
  }

  lemma TurnWritesX(w: World, c: SecretConfig, inp: FetchInput, foe: bool, path: string)
    requires OnlyData(w.cache, "x") && inp.write == Written([]) && (inp.fetched.Some? ==> inp.fetched.value == "x")
    ensures At(TurnWorld(w, c, inp, foe).files, path) == Some("y") ==>
            At(w.files, path) == Some("y") && !(inp.fetched.Some? && (path == c.path || path == TmpPath(c.path)))
  {
    match BytesFor(w, c, inp)
    case Some(data) => PlainWrite(w.files, c.path, "x", path);
    case None =>
  }

  /** "y" does not come back. */
  ghost predicate NoReturn(a: World, b: World, path: string) {
    At(b.files, path) == Some("y") ==> At(a.files, path) == Some("y")
  }

  lemma {:induction false} NoReturnAlong(worlds: seq<World>, path: string, j: nat, k: nat)
    requires j <= k < |worlds| && forall m: nat :: m + 1 < |worlds| ==> NoReturn(worlds[m], worlds[m + 1], path)
    ensures NoReturn(worlds[j], worlds[k], path)
  {
    if j < k {
      NoReturnAlong(worlds, path, j, k - 1);
      assert NoReturn(worlds[k - 1], worlds[k - 1 + 1], path);
    }
  }

  /** Once secret `j` is fetched, everything written is "x"; what its write removes or replaces is gone for good. */
  lemma ClashSpreads(cfg: AgentConfig, i: nat, j: nat)
    requires i < |cfg.secrets| && j < |cfg.secrets|
    requires cfg.secrets[i].path == cfg.secrets[j].path || cfg.secrets[i].path == TmpPath(cfg.secrets[j].path)
    ensures var after := AfterSecrets(Before(cfg.secrets[i].path), cfg, OnlyFetch(cfg, j, "x", Written([])),
            |cfg.secrets|);
            At(after.files, cfg.secrets[i].path) != Some("y")
  {
    var w, pass, path := Before(cfg.secrets[i].path), OnlyFetch(cfg, j, "x", Written([])), cfg.secrets[i].path;
    var worlds := TurnWorlds(w, cfg, pass);
    forall m: nat | m < |cfg.secrets| ensures NoReturn(worlds[m], worlds[m + 1], path) {
      OnlyCached(w, cfg, j, "x", Written([]), m);
      TurnWritesX(worlds[m], cfg.secrets[m], pass.secrets[m], cfg.failOnError, path);
    }
    OnlyCached(w, cfg, j, "x", Written([]), j);
    TurnWritesX(worlds[j], cfg.secrets[j], pass.secrets[j], cfg.failOnError, path);
    NoReturnAlong(worlds, path, j + 1, |cfg.secrets|);
  }

  lemma ClashBreaks(cfg: AgentConfig, i: nat, j: nat)
    requires i < |cfg.secrets| && j < |cfg.secrets| && i != j
    requires cfg.secrets[i].path == cfg.secrets[j].path || cfg.secrets[i].path == TmpPath(cfg.secrets[j].path)
    ensures !KeepsLastGood(cfg)
  {
    var w, pass := Before(cfg.secrets[i].path), OnlyFetch(cfg, j, "x", Written([]));
    ClashSpreads(cfg, i, j);
    FailedFolders(AfterSecrets(w, cfg, pass, |cfg.secrets|), cfg, pass, |cfg.folders|);
    ChangedUnfetched(w, cfg, pass, i);
  }

  /** One record of the right title puts a folder's file, or its temp file, where a secret is. */
  lemma FolderBreaks(cfg: AgentConfig, f: nat, i: nat)
    requires f < |cfg.folders| && i < |cfg.secrets| && Usable(cfg.folders[f])
    requires IsFolderFile(cfg.folders[f], cfg.secrets[i].path) || IsFolderTemp(cfg.folders[f], cfg.secrets[i].path)
    ensures !KeepsLastGood(cfg)
  {
    var w, path, dir := Before(cfg.secrets[i].path), cfg.secrets[i].path, cfg.folders[f].outputPath;
    var name :| AllFileNameChars(name) && (path == FilePath(dir, name) || path == TmpPath(FilePath(dir, name)));
    var v := UsableCanHoldOne(cfg.folders[f], name);
    OnlyFolderPass(w, cfg, f, v, "x", Written([]), name);
    PlainWrite(w.files, FilePath(dir, name), "x", path);
    ChangedUnfetched(w, cfg, OnlyFolder(cfg, f, v, "x", Written([])), i);
  }

  /** Two secrets share a name: one fetch of the first and one failed fetch of the second suffice
      to put the first one's bytes into the second one's file. */
  lemma SharedNameBreaks(cfg: AgentConfig, i: nat, j: nat)
    requires PathsClear(cfg.secrets) && i < j < |cfg.secrets| && cfg.secrets[i].name == cfg.secrets[j].name
    ensures !KeepsLastGood(cfg)
  {
    var pass := OnlyFetch(cfg, i, "x", Written([]));
    EarlierIsServed(cfg, pass, cfg.secrets[j].name, i, j);
    forall f | 0 <= f < |cfg.folders| ensures ItemsAvoid(ItemsAt(cfg, pass, f), cfg.secrets[j].path) {
      NothingFails(cfg.folders[f]);
    }
    DeliveredStays(NOWHERE, cfg, pass, j);
    ChangedUnfetched(NOWHERE, cfg, pass, j);
  }

  // ---------- partial content ----------

  /** In no pass is partial content ever seen at a secret's path. */
  ghost predicate NeverTears(cfg: AgentConfig) {
    forall w, pass, i: nat :: Fits(cfg, pass) && i < |cfg.secrets| ==>
      NeverTorn(w, Pass(w, cfg, pass), cfg.secrets[i].path, At(w.files, cfg.secrets[i].path),
        WholeContents(w, cfg, pass, cfg.secrets[i].path))
  }

  /** No secret is where another secret's temp file is, or where one of a folder that can be found may be. */
  ghost predicate TempsClear(cfg: AgentConfig) {
    forall i :: 0 <= i < |cfg.secrets| ==>
      NoSecretTemp(cfg.secrets, cfg.secrets[i].path) &&
      forall f :: 0 <= f < |cfg.folders| && Usable(cfg.folders[f]) ==>
        !IsFolderTemp(cfg.folders[f], cfg.secrets[i].path)
  }

  lemma ClearMeansNoTemp(cfg: AgentConfig, pass: PassInput, i: nat)
    requires Fits(cfg, pass) && i < |cfg.secrets| && TempsClear(cfg)
    ensures NoFolderTemp(cfg, pass, cfg.secrets[i].path)
  {
    forall f, item | 0 <= f < |cfg.folders| && item in ItemsAt(cfg, pass, f)
      ensures TmpPath(item.path) != cfg.secrets[i].path
    {
      FolderFilesStayInside(cfg.folders[f], pass.folders[f]);
      if !Usable(cfg.folders[f]) {
        UnusableFails(cfg.folders[f], pass.folders[f]);
      }
    }
  }

  /** That is so exactly if no destination is the temp path of anything. */
  lemma NeverTearsIff(cfg: AgentConfig)
    ensures NeverTears(cfg) <==> TempsClear(cfg)
  {
    if TempsClear(cfg) {
      forall w, pass, i: nat | Fits(cfg, pass) && i < |cfg.secrets|
        ensures NeverTorn(w, Pass(w, cfg, pass), cfg.secrets[i].path, At(w.files, cfg.secrets[i].path),
                WholeContents(w, cfg, pass, cfg.secrets[i].path))
      {
        ClearMeansNoTemp(cfg, pass, i);
        CrashSafe(w, cfg, pass, cfg.secrets[i].path);
      }
    } else {
      var i :| 0 <= i < |cfg.secrets| &&
        (!NoSecretTemp(cfg.secrets, cfg.secrets[i].path) ||
         exists f :: 0 <= f < |cfg.folders| && Usable(cfg.folders[f]) &&
           IsFolderTemp(cfg.folders[f], cfg.secrets[i].path));
      if !NoSecretTemp(cfg.secrets, cfg.secrets[i].path) {
        var j :| 0 <= j < |cfg.secrets| && TmpPath(cfg.secrets[j].path) == cfg.secrets[i].path;
        TempDestinationTears(cfg, i, j);
      } else {
        var f :| 0 <= f < |cfg.folders| && Usable(cfg.folders[f]) && IsFolderTemp(cfg.folders[f], cfg.secrets[i].path);
        FolderTempTears(cfg, i, f);
      }
    }
  }

  /** The pass in which the write of secret `j`, and of no other, is seen half done. */
  function HalfDone(cfg: AgentConfig, j: nat): (pass: PassInput)
    ensures Fits(cfg, pass)
  {
    OnlyFetch(cfg, j, "xy", Written([1]))
  }

  lemma HalfIsSeen(cfg: AgentConfig, j: nat)
    requires j < |cfg.secrets|
    ensures var after := AfterSecrets(NOWHERE, cfg, HalfDone(cfg, j), j + 1);
            |after.history| > 0 && At(after.history[0], TmpPath(cfg.secrets[j].path)) == Some("x")
  {
    QuietSecrets(NOWHERE, cfg, HalfDone(cfg, j), j);
    assert Cut("xy", 1) == "x";
  }

  lemma NoFolderWrites(cfg: AgentConfig, pass: PassInput, path: string, data: Bytes)
    requires Fits(cfg, pass) && forall f :: 0 <= f < |cfg.folders| ==> pass.folders[f] == NOTHING
    ensures !FolderWrites(cfg, pass, path, data)
  {
    forall f: nat | f < |cfg.folders| ensures ItemsAt(cfg, pass, f) == [] {
      NothingFails(cfg.folders[f]);
    }
  }

  lemma OffersOnly(w: World, c: SecretConfig, inp: FetchInput, data: Bytes)
    requires OnlyData(w.cache, data) && (inp.fetched.Some? ==> inp.fetched.value == data)
    ensures BytesFor(w, c, inp).Some? ==> BytesFor(w, c, inp).value == data
  {
  }

  lemma HalfIsNotMeant(cfg: AgentConfig, j: nat, path: string)
    requires j < |cfg.secrets|
    ensures "x" !in WholeContents(NOWHERE, cfg, HalfDone(cfg, j), path)
  {
    forall m: nat | m < |cfg.secrets| ensures Offered(NOWHERE, cfg, HalfDone(cfg, j), m) != Some("x") {
      OnlyCached(NOWHERE, cfg, j, "xy", Written([1]), m);
      OffersOnly(AfterSecrets(NOWHERE, cfg, HalfDone(cfg, j), m), cfg.secrets[m], HalfDone(cfg, j).secrets[m], "xy");
      assert |"x"| != |"xy"|;
    }
    NoFolderWrites(cfg, HalfDone(cfg, j), path, "x");
  }

  lemma HalfDonePass(cfg: AgentConfig, j: nat)
    requires j < |cfg.secrets|
    ensures var after := Pass(NOWHERE, cfg, HalfDone(cfg, j));
            |after.history| > 0 && At(after.history[0], TmpPath(cfg.secrets[j].path)) == Some("x")
  {
    HalfIsSeen(cfg, j);
    SecretsExtend(NOWHERE, cfg, HalfDone(cfg, j), j + 1, |cfg.secrets|);
    FailedFolders(AfterSecrets(NOWHERE, cfg, HalfDone(cfg, j), |cfg.secrets|), cfg, HalfDone(cfg, j), |cfg.folders|);
  }

  /** A pass that shows at a secret's path what nothing means to put there. */
  lemma SeenNotMeant(cfg: AgentConfig, pass: PassInput, i: nat, data: Bytes)
    requires Fits(cfg, pass) && i < |cfg.secrets| && data !in WholeContents(NOWHERE, cfg, pass, cfg.secrets[i].path)
    requires |Pass(NOWHERE, cfg, pass).history| > 0 &&
             At(Pass(NOWHERE, cfg, pass).history[0], cfg.secrets[i].path) == Some(data)
    ensures !NeverTears(cfg)
  {
    var after, path, whole := Pass(NOWHERE, cfg, pass), cfg.secrets[i].path,
      WholeContents(NOWHERE, cfg, pass, cfg.secrets[i].path);
    assert !OldOrNew(after.history[0], path, None, whole);
    assert !NeverTorn(NOWHERE, after, path, At(NOWHERE.files, path), whole);
  }

  /** The temp path of a write does show partial content, which is why no destination may be one. */
  lemma TempDestinationTears(cfg: AgentConfig, i: nat, j: nat)
    requires i < |cfg.secrets| && j < |cfg.secrets| && TmpPath(cfg.secrets[j].path) == cfg.secrets[i].path
    ensures !NeverTears(cfg)
  {
    HalfDonePass(cfg, j);
    HalfIsNotMeant(cfg, j, cfg.secrets[i].path);
    SeenNotMeant(cfg, HalfDone(cfg, j), i, "x");
  }

  lemma FolderTempTears(cfg: AgentConfig, i: nat, f: nat)
    requires i < |cfg.secrets| && f < |cfg.folders| && Usable(cfg.folders[f]) &&
             IsFolderTemp(cfg.folders[f], cfg.secrets[i].path)
    ensures !NeverTears(cfg)
  {
    var path, dir := cfg.secrets[i].path, cfg.folders[f].outputPath;
    var name :| AllFileNameChars(name) && path == TmpPath(FilePath(dir, name));
    var v := UsableCanHoldOne(cfg.folders[f], name);
    var pass := OnlyFolder(cfg, f, v, "xy", Written([1]));
    OnlyFolderPass(NOWHERE, cfg, f, v, "xy", Written([1]), name);
    assert Cut("xy", 1) == "x";
    FolderHalfIsNotMeant(cfg, f, v, name, path);
    SeenNotMeant(cfg, pass, i, "x");
  }

  lemma FolderHalfIsNotMeant(cfg: AgentConfig, f: nat, v: Vault, title: string, path: string)
    requires f < |cfg.folders| && HoldsOne(v, cfg.folders[f], title)
    ensures "x" !in WholeContents(NOWHERE, cfg, OnlyFolder(cfg, f, v, "xy", Written([1])), path)
  {
    var pass := OnlyFolder(cfg, f, v, "xy", Written([1]));
    forall m: nat | m < |cfg.secrets| ensures Offered(NOWHERE, cfg, pass, m) == None {
      QuietSecrets(NOWHERE, cfg, pass, m);
    }
    forall k: nat, item | k < |cfg.folders| && item in ItemsAt(cfg, pass, k) ensures item.data != "x" {
      NothingFails(cfg.folders[k]);
      assert k == f;
      OneItem(NOWHERE, cfg.folders[f], v, "xy", Written([1]), title);
      assert |item.data| == 2;
    }
  }

  // ---------- failing loudly ----------

  lemma ErrorIff(w: World, cfg: AgentConfig, pass: PassInput, i: nat)
    requires Fits(cfg, pass) && i < |cfg.secrets| && w.cache == map[]
    ensures FetchFails(AfterSecrets(w, cfg, pass, i), cfg.secrets[i], pass.secrets[i], true) <==>
            !Delivered(cfg, pass, i)
  {
    OfferedIsServed(w, cfg, pass, i);
  }

  /** How many of the first `k` secrets are not delivered. */
  function Misses(cfg: AgentConfig, pass: PassInput, k: nat): nat
    requires Fits(cfg, pass) && k <= |cfg.secrets|
  {
    if k == 0 then 0 else Misses(cfg, pass, k - 1) + if Delivered(cfg, pass, k - 1) then 0 else 1
  }

  lemma {:induction false} ErrorsAreMisses(w: World, cfg: AgentConfig, pass: PassInput, k: nat)
    requires Fits(cfg, pass) && k <= |cfg.secrets| && cfg.failOnError && w.cache == map[]
    ensures SecretErrors(w, cfg, pass, k) == Misses(cfg, pass, k)
  {
    if k > 0 {
      ErrorsAreMisses(w, cfg, pass, k - 1);
      ErrorIff(w, cfg, pass, k - 1);
    }
  }

  lemma {:induction false} NoMissesIff(cfg: AgentConfig, pass: PassInput, k: nat)
    requires Fits(cfg, pass) && k <= |cfg.secrets|
    ensures Misses(cfg, pass, k) == 0 <==> forall i: nat :: i < k ==> Delivered(cfg, pass, i)
  {
    if k > 0 {
      NoMissesIff(cfg, pass, k - 1);
    }
  }

  lemma {:induction false} NoFolderErrorsIff(cfg: AgentConfig, pass: PassInput, k: nat)
    requires Fits(cfg, pass) && k <= |cfg.folders|
    ensures FolderErrors(cfg, pass, k) == 0 <==>
            forall f :: 0 <= f < k ==> !FolderFails(cfg.folders[f], pass.folders[f])
  {
    if k > 0 {
      NoFolderErrorsIff(cfg, pass, k - 1);
    }
  }

  /** With fail-on-error, the first pass of a fresh agent reports no error exactly when every secret was served and
      written and no folder failed. Names and paths may coincide. */
  lemma InitSucceedsIff(w: World, cfg: AgentConfig, pass: PassInput)
    requires Fits(cfg, pass) && cfg.failOnError && w.cache == map[]
    ensures !PassFails(w, cfg, pass) <==>
            (forall i: nat :: i < |cfg.secrets| ==> Delivered(cfg, pass, i)) &&
            (forall f :: 0 <= f < |cfg.folders| ==> !FolderFails(cfg.folders[f], pass.folders[f]))
  {
    ErrorsAreMisses(w, cfg, pass, |cfg.secrets|);
    NoMissesIff(cfg, pass, |cfg.secrets|);
    NoFolderErrorsIff(cfg, pass, |cfg.folders|);
  }

  /** A delivered secret's bytes, fetched in this pass under its name, were in its file at some point of the pass. */
  lemma DeliveredIsWritten(w: World, cfg: AgentConfig, pass: PassInput, i: nat)
    requires Fits(cfg, pass) && i < |cfg.secrets| && w.cache == map[] && Delivered(cfg, pass, i)
    ensures exists m :: |w.history| <= m < |Pass(w, cfg, pass).history| &&
              At(Pass(w, cfg, pass).history[m], cfg.secrets[i].path) == Served(cfg, pass, i)
  {
    OfferedIsServed(w, cfg, pass, i);
    OfferedIsSeen(w, cfg, pass, i);
    SecretsThenFolders(w, cfg, pass, i + 1);
    SeenStays(w.history, AfterSecrets(w, cfg, pass, i + 1).history, Pass(w, cfg, pass).history, cfg.secrets[i].path);
  }

  lemma OfferedIsSeen(w: World, cfg: AgentConfig, pass: PassInput, i: nat)
    requires Fits(cfg, pass) && i < |cfg.secrets| && Offered(w, cfg, pass, i).Some? && pass.secrets[i].write.Written?
    ensures var next := AfterSecrets(w, cfg, pass, i + 1);
            |w.history| < |next.history| &&
              At(next.history[|next.history| - 1], cfg.secrets[i].path) == Offered(w, cfg, pass, i)
  {
    SecretsExtend(w, cfg, pass, 0, i);
    TurnEndsWritten(AfterSecrets(w, cfg, pass, i), cfg.secrets[i], pass.secrets[i], cfg.failOnError);
  }

  lemma SecretsThenFolders(w: World, cfg: AgentConfig, pass: PassInput, k: nat)
    requires Fits(cfg, pass) && k <= |cfg.secrets|
    ensures Extends(AfterSecrets(w, cfg, pass, k), Pass(w, cfg, pass))
  {
    SecretsExtend(w, cfg, pass, k, |cfg.secrets|);
    FoldersExtend(AfterSecrets(w, cfg, pass, |cfg.secrets|), cfg, pass);
  }

  lemma SeenStays(first: seq<Files>, next: seq<Files>, end: seq<Files>, path: string)
    requires |first| < |next| && next <= end
    ensures exists m :: |first| <= m < |end| && At(end[m], path) == At(next[|next| - 1], path)
  {
    assert end[|next| - 1] == next[|next| - 1];
  }

  lemma TurnEndsWritten(w: World, c: SecretConfig, inp: FetchInput, foe: bool)
    requires BytesFor(w, c, inp).Some? && inp.write.Written?
    ensures var after := TurnWorld(w, c, inp, foe);
            |after.history| > |w.history| && At(after.history[|after.history| - 1], c.path) == BytesFor(w, c, inp)
  {
    WriteHere(w.files, c.path, BytesFor(w, c, inp).value, inp.write);
  }

  /** A first pass that reports no error has fetched every secret. */
  ghost predicate SuccessMeansFetched(cfg: AgentConfig) {
    forall w: World, pass :: Fits(cfg, pass) && w.cache == map[] && !PassFails(w, cfg, pass) ==>
      forall i :: 0 <= i < |cfg.secrets| ==> pass.secrets[i].fetched.Some?
  }

  /** That is promised exactly if there is nothing to fetch, or errors are reported and either the names are distinct
      or some folder can never be found, so that no pass succeeds. A secret that shares its name with an earlier one
      may be served that one's bytes, and nothing is reported. */
  lemma SuccessMeansFetchedIff(cfg: AgentConfig)
    ensures SuccessMeansFetched(cfg) <==>
            cfg.secrets == [] || (cfg.failOnError &&
              (DistinctNames(cfg.secrets) || exists f :: 0 <= f < |cfg.folders| && !Usable(cfg.folders[f])))
  {
    if !cfg.failOnError {
      var pass := PassInput(seq(|cfg.secrets|, _ => FetchInput(None, 0, 0, Written([]))),
        seq(|cfg.folders|, _ => NOTHING));
      assert Fits(cfg, pass) && !PassFails(NOWHERE, cfg, pass);
      assert cfg.secrets != [] ==> pass.secrets[0].fetched.None?;
    } else if exists f :: 0 <= f < |cfg.folders| && !Usable(cfg.folders[f]) {
      NoPassSucceeds(cfg);
    } else if DistinctNames(cfg.secrets) {
      DistinctAreFetched(cfg);
    } else {
      var i, j :| 0 <= i < j < |cfg.secrets| && cfg.secrets[i].name == cfg.secrets[j].name;
      NamesakeIsServed(cfg, i, j);
    }
  }

  lemma NoPassSucceeds(cfg: AgentConfig)
    requires cfg.failOnError && exists f :: 0 <= f < |cfg.folders| && !Usable(cfg.folders[f])
    ensures SuccessMeansFetched(cfg)
  {
    var f :| 0 <= f < |cfg.folders| && !Usable(cfg.folders[f]);
    forall w: World, pass | Fits(cfg, pass) && w.cache == map[] ensures PassFails(w, cfg, pass) {
      InitSucceedsIff(w, cfg, pass);
      UnusableFails(cfg.folders[f], pass.folders[f]);
    }
  }

  lemma DistinctAreFetched(cfg: AgentConfig)
    requires cfg.failOnError && DistinctNames(cfg.secrets)
    ensures SuccessMeansFetched(cfg)
  {
    forall w: World, pass, i: nat | Fits(cfg, pass) && w.cache == map[] && !PassFails(w, cfg, pass) && i < |cfg.secrets|
      ensures pass.secrets[i].fetched.Some?
    {
      InitSucceedsIff(w, cfg, pass);
      assert Delivered(cfg, pass, i);
    }
  }

  /** A vault in which the folder is found and empty. */
  ghost function EmptyFolder(folder: FolderConfig): (inp: FolderInput)
    requires Usable(folder)
    ensures !FolderFails(folder, inp)
  {
    assert exists inp :: !FolderFails(folder, inp) by {
      var fs, u := UsableIsFound(folder);
      assert !FolderFails(folder, FolderInput(Vault(Some(fs), Some([])), [], 0));
    }
    var inp :| !FolderFails(folder, inp);
    inp
  }

  lemma NamesakeIsServed(cfg: AgentConfig, i: nat, j: nat)
    requires cfg.failOnError && i < j < |cfg.secrets| && cfg.secrets[i].name == cfg.secrets[j].name
    requires forall f :: 0 <= f < |cfg.folders| ==> Usable(cfg.folders[f])
    ensures !SuccessMeansFetched(cfg)
  {
    var pass := PassInput(
      seq(|cfg.secrets|, k => FetchInput(if k == j then None else Some("x"), 0, 0, Written([]))),
      seq(|cfg.folders|, k requires 0 <= k < |cfg.folders| => EmptyFolder(cfg.folders[k])));
    EarlierIsServed(cfg, pass, cfg.secrets[j].name, i, j);
    forall m: nat | m < |cfg.secrets| ensures Delivered(cfg, pass, m) {
    }
    InitSucceedsIff(NOWHERE, cfg, pass);
    assert pass.secrets[j].fetched.None?;
  }
}
