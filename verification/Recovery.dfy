/** Temp files left behind. They are created read-only, and the agent does not run as root: one that is
    still there cannot be opened for writing again. */
module Recovery {
  import opened Text
  import opened Values
  import opened FolderFetch
  import opened AgentModel
  import opened AgentTheorems
  import opened AgentConditions

  /** What a write can come to under that rule: with the temp file there, the open fails and nothing is changed. */
  predicate Possible(files: Files, path: string, o: WriteOutcome) {
    TmpPath(path) !in files || o.MkdirFails? || o == TempFails([])
  }

  /** The write breaks off once the temp file is created, or cannot rename it and does not remove it. */
  predicate LeavesTemp(o: WriteOutcome) {
    match o
    case MkdirFails => false
    case TempFails(cuts) => cuts != []
    case RenameFails(_, removed) => !removed
    case Written(_) => false
  }

  lemma TempThereIff(files: Files, path: string, data: Bytes, o: WriteOutcome)
    requires Possible(files, path, o)
    ensures TmpPath(path) in AfterWrite(files, path, data, o) <==> TmpPath(path) in files || LeavesTemp(o)
  {
    assert |TmpPath(path)| != |path|;
  }

  /** The folder files, written one after the other. */
  ghost predicate PossibleItems(w: World, items: seq<FolderItem>) {
    items == [] ||
    (PossibleItems(w, items[..|items| - 1]) &&
     Possible(AfterItems(w, items[..|items| - 1]).files, items[|items| - 1].path, items[|items| - 1].write))
  }

  /** Every write of the pass comes to something possible. */
  ghost predicate PossiblePass(w: World, cfg: AgentConfig, pass: PassInput) {
    Fits(cfg, pass) &&
    (forall i: nat :: i < |cfg.secrets| ==> PossibleTurn(w, cfg, pass, i)) &&
    forall f: nat :: f < |cfg.folders| ==> PossibleFolder(w, cfg, pass, f)
  }

  ghost predicate PossibleTurn(w: World, cfg: AgentConfig, pass: PassInput, i: nat)
    requires Fits(cfg, pass) && i < |cfg.secrets|
  {
    Possible(AfterSecrets(w, cfg, pass, i).files, cfg.secrets[i].path, pass.secrets[i].write)
  }

  ghost predicate PossibleFolder(w: World, cfg: AgentConfig, pass: PassInput, f: nat)
    requires Fits(cfg, pass) && f < |cfg.folders|
  {
    PossibleItems(AfterFolders(AfterSecrets(w, cfg, pass, |cfg.secrets|), cfg, pass, f), ItemsAt(cfg, pass, f))
  }

  /** In each pass every write comes to something possible. */
  ghost predicate PossibleRun(w: World, cfg: AgentConfig, passes: seq<PassInput>)
    ensures PossibleRun(w, cfg, passes) ==> forall p :: p in passes ==> Fits(cfg, p)
  {
    passes == [] ||
    (PossibleRun(w, cfg, passes[..|passes| - 1]) &&
      PossiblePass(Passes(w, cfg, passes[..|passes| - 1]), cfg, passes[|passes| - 1]))
  }

  // ---------- the other secrets and the folders ----------

  lemma TempsDiffer(a: string, b: string)
    requires TmpPath(a) == TmpPath(b)
    ensures a == b
  {
    assert a == TmpPath(a)[..|TmpPath(a)| - 4] && b == TmpPath(b)[..|TmpPath(b)| - 4];
  }

  /** The two file systems show the same at the path and at its temp path. */
  ghost predicate SameBoth(a: Files, b: Files, path: string) {
    At(a, path) == At(b, path) && At(a, TmpPath(path)) == At(b, TmpPath(path))
  }

  /** Neither the file nor the temp file of secret `i` is touched when another one has its turn. */
  lemma OthersLeave(w: World, cfg: AgentConfig, pass: PassInput, i: nat, j: nat)
    requires Fits(cfg, pass) && PathsClear(cfg.secrets) && i < |cfg.secrets| && j < |cfg.secrets| && i != j
    ensures SameBoth(AfterSecrets(w, cfg, pass, j + 1).files, AfterSecrets(w, cfg, pass, j).files, cfg.secrets[i].path)
  {
    var before, inp, c, path := AfterSecrets(w, cfg, pass, j), pass.secrets[j], cfg.secrets[j], cfg.secrets[i].path;
    assert path != c.path && path != TmpPath(c.path) && TmpPath(path) != c.path;
    if TmpPath(path) == TmpPath(c.path) {
      TempsDiffer(path, c.path);
    }
    TurnElsewhere(before, c, inp, cfg.failOnError, path);
    TurnElsewhere(before, c, inp, cfg.failOnError, TmpPath(path));
  }

  lemma {:induction false} SameBothAlong(worlds: seq<World>, path: string, j: nat, k: nat)
    requires j <= k < |worlds| && forall m: nat :: j <= m < k ==> SameBoth(worlds[m + 1].files, worlds[m].files, path)
    ensures SameBoth(worlds[k].files, worlds[j].files, path)
  {
    if j < k {
      SameBothAlong(worlds, path, j, k - 1);
      assert SameBoth(worlds[k - 1 + 1].files, worlds[k - 1].files, path);
    }
  }

  lemma TurnsLeave(w: World, cfg: AgentConfig, pass: PassInput, i: nat, j: nat, k: nat)
    requires Fits(cfg, pass) && PathsClear(cfg.secrets) && i < |cfg.secrets| && j <= k <= |cfg.secrets| && !(j <= i < k)
    ensures SameBoth(AfterSecrets(w, cfg, pass, k).files, AfterSecrets(w, cfg, pass, j).files, cfg.secrets[i].path)
  {
    var worlds := TurnWorlds(w, cfg, pass);
    forall m: nat | j <= m < k ensures SameBoth(worlds[m + 1].files, worlds[m].files, cfg.secrets[i].path) {
      OthersLeave(w, cfg, pass, i, m);
    }
    SameBothAlong(worlds, cfg.secrets[i].path, j, k);
  }

  /** Folder files do not lie where the temp files of secrets are, either: their names end differently. */
  lemma FoldersLeaveBoth(w: World, cfg: AgentConfig, pass: PassInput, i: nat)
    requires Fits(cfg, pass) && i < |cfg.secrets| && FoldersClear(cfg)
    ensures SameBoth(AfterFolders(w, cfg, pass, |cfg.folders|).files, w.files, cfg.secrets[i].path)
  {
    var path := cfg.secrets[i].path;
    ClearMeansAvoid(cfg, pass, i);
    forall f | 0 <= f < |cfg.folders| ensures ItemsAvoid(ItemsAt(cfg, pass, f), TmpPath(path)) {
      assert ItemsAvoid(ItemsAt(cfg, pass, f), path);
      FolderFilesStayInside(cfg.folders[f], pass.folders[f]);
      forall item | item in ItemsAt(cfg, pass, f)
        ensures item.path != TmpPath(path) && TmpPath(item.path) != TmpPath(path)
      {
        FileIsNoTemp(cfg.folders[f], item.path, path);
        if TmpPath(item.path) == TmpPath(path) {
          TempsDiffer(item.path, path);
        }
      }
    }
    FoldersLeave(w, cfg, pass, path);
    FoldersLeave(w, cfg, pass, TmpPath(path));
  }

  lemma FileIsNoTemp(folder: FolderConfig, p: string, path: string)
    requires IsFolderFile(folder, p)
    ensures p != TmpPath(path)
  {
    var name :| AllFileNameChars(name) && p == FilePath(folder.outputPath, name);
    assert p[|p| - 1] == 'n' && TmpPath(path)[|TmpPath(path)| - 1] == 'p';
  }

  // ---------- once it is left behind ----------

  /** With its temp file there, the turn of a secret changes no file, whatever was fetched. */
  lemma StuckTurn(w: World, c: SecretConfig, inp: FetchInput, foe: bool)
    requires TmpPath(c.path) in w.files && Possible(w.files, c.path, inp.write)
    ensures TurnWorld(w, c, inp, foe).files == w.files
  {
  }

  lemma SameBothChain(a: Files, b: Files, c: Files, path: string)
    requires SameBoth(c, b, path) && SameBoth(b, a, path)
    ensures SameBoth(c, a, path)
  {
  }

  /** After its own turn neither its file nor its temp file changes any more in the pass. */
  lemma RestLeaves(w: World, cfg: AgentConfig, pass: PassInput, i: nat)
    requires Fits(cfg, pass) && i < |cfg.secrets| && PathsClear(cfg.secrets) && FoldersClear(cfg)
    ensures SameBoth(Pass(w, cfg, pass).files, AfterSecrets(w, cfg, pass, i + 1).files, cfg.secrets[i].path)
  {
    var own, mid := AfterSecrets(w, cfg, pass, i + 1), AfterSecrets(w, cfg, pass, |cfg.secrets|);
    TurnsLeave(w, cfg, pass, i, i + 1, |cfg.secrets|);
    FoldersLeaveBoth(mid, cfg, pass, i);
    SameBothChain(own.files, mid.files, Pass(w, cfg, pass).files, cfg.secrets[i].path);
  }

  lemma StuckPass(w: World, cfg: AgentConfig, pass: PassInput, i: nat)
    requires PathsClear(cfg.secrets) && FoldersClear(cfg) && i < |cfg.secrets|
    requires Fits(cfg, pass) && PossibleTurn(w, cfg, pass, i) && TmpPath(cfg.secrets[i].path) in w.files
    ensures SameBoth(Pass(w, cfg, pass).files, w.files, cfg.secrets[i].path)
  {
    TurnsLeave(w, cfg, pass, i, 0, i);
    TempStays(w.files, AfterSecrets(w, cfg, pass, i).files, cfg.secrets[i].path);
    StuckTurn(AfterSecrets(w, cfg, pass, i), cfg.secrets[i], pass.secrets[i], cfg.failOnError);
    RestLeaves(w, cfg, pass, i);
    SameBothChain(w.files, AfterSecrets(w, cfg, pass, i).files, Pass(w, cfg, pass).files, cfg.secrets[i].path);
  }

  lemma TempStays(a: Files, b: Files, path: string)
    requires SameBoth(b, a, path)
    ensures TmpPath(path) in a <==> TmpPath(path) in b
  {
  }

  /** Over every possible run the file then keeps its content, whatever is fetched. */
  lemma {:induction false} StaleTempFreezes(w: World, cfg: AgentConfig, passes: seq<PassInput>, i: nat)
    requires PathsClear(cfg.secrets) && FoldersClear(cfg) && i < |cfg.secrets|
    requires PossibleRun(w, cfg, passes) && TmpPath(cfg.secrets[i].path) in w.files
    ensures SameBoth(Passes(w, cfg, passes).files, w.files, cfg.secrets[i].path)
  {
    if passes != [] {
      var init, last := passes[..|passes| - 1], passes[|passes| - 1];
      var before := Passes(w, cfg, init);
      StaleTempFreezes(w, cfg, init, i);
      TempStays(w.files, before.files, cfg.secrets[i].path);
      assert PossibleTurn(before, cfg, last, i);
      StuckPass(before, cfg, last, i);
    }
  }

  /** Some possible run changes the file of secret `i`. */
  ghost predicate CanRefresh(w: World, cfg: AgentConfig, i: nat)
    requires i < |cfg.secrets|
  {
    exists passes :: PossibleRun(w, cfg, passes) &&
      At(Passes(w, cfg, passes).files, cfg.secrets[i].path) != At(w.files, cfg.secrets[i].path)
  }

  /** A secret can ever be refreshed again exactly if its temp file is not there: one write that leaves it behind
      freezes the secret for good. */
  lemma CanRefreshIff(w: World, cfg: AgentConfig, i: nat)
    requires PathsClear(cfg.secrets) && FoldersClear(cfg) && i < |cfg.secrets|
    ensures CanRefresh(w, cfg, i) <==> TmpPath(cfg.secrets[i].path) !in w.files
  {
    if TmpPath(cfg.secrets[i].path) in w.files {
      forall passes | PossibleRun(w, cfg, passes)
        ensures At(Passes(w, cfg, passes).files, cfg.secrets[i].path) == At(w.files, cfg.secrets[i].path)
      {
        StaleTempFreezes(w, cfg, passes, i);
      }
    } else {
      var data := if At(w.files, cfg.secrets[i].path) == Some("x") then "y" else "x";
      var pass := Refreshing(cfg, i, data);
      RefreshingIsPossible(w, cfg, i, data);
      RefreshingRefreshes(w, cfg, i, data);
      OnePossiblePass(w, cfg, pass);
      OnePass(w, cfg, pass);
    }
  }

  lemma OnePossiblePass(w: World, cfg: AgentConfig, pass: PassInput)
    requires PossiblePass(w, cfg, pass)
    ensures PossibleRun(w, cfg, [pass])
  {
    assert [pass][..0] == [];
  }

  /** The pass in which secret `i` is fetched and written, and nothing else can be. */
  function Refreshing(cfg: AgentConfig, i: nat, data: Bytes): (pass: PassInput)
    ensures Fits(cfg, pass)
  {
    PassInput(
      seq(|cfg.secrets|, k => if k == i then FetchInput(Some(data), 0, 0, Written([]))
        else FetchInput(None, 0, 0, MkdirFails)),
      seq(|cfg.folders|, _ => NOTHING))
  }

  lemma RefreshingIsPossible(w: World, cfg: AgentConfig, i: nat, data: Bytes)
    requires PathsClear(cfg.secrets) && i < |cfg.secrets| && TmpPath(cfg.secrets[i].path) !in w.files
    ensures PossiblePass(w, cfg, Refreshing(cfg, i, data))
  {
    var pass := Refreshing(cfg, i, data);
    TurnsLeave(w, cfg, pass, i, 0, i);
    TempStays(w.files, AfterSecrets(w, cfg, pass, i).files, cfg.secrets[i].path);
    forall f: nat | f < |cfg.folders| ensures PossibleFolder(w, cfg, pass, f) {
      NothingFails(cfg.folders[f]);
    }
  }

  lemma RefreshingRefreshes(w: World, cfg: AgentConfig, i: nat, data: Bytes)
    requires PathsClear(cfg.secrets) && FoldersClear(cfg) && i < |cfg.secrets|
    ensures At(Pass(w, cfg, Refreshing(cfg, i, data)).files, cfg.secrets[i].path) == Some(data)
  {
    var pass := Refreshing(cfg, i, data);
    FetchedTurn(AfterSecrets(w, cfg, pass, i), cfg.secrets[i], pass.secrets[i], cfg.failOnError);
    RestLeaves(w, cfg, pass, i);
  }

  lemma FetchedTurn(w: World, c: SecretConfig, inp: FetchInput, foe: bool)
    requires inp.fetched.Some? && inp.write.Written?
    ensures At(TurnWorld(w, c, inp, foe).files, c.path) == inp.fetched
  {
    WriteHere(w.files, c.path, inp.fetched.value, inp.write);
  }

  /** After a possible write the secret can be refreshed again exactly if its temp file was not there
      before and the write does not leave it behind. */
  lemma RecoversIff(w: World, cfg: AgentConfig, i: nat, data: Bytes, o: WriteOutcome)
    requires PathsClear(cfg.secrets) && FoldersClear(cfg) && i < |cfg.secrets| &&
             Possible(w.files, cfg.secrets[i].path, o)
    ensures CanRefresh(Write(w, cfg.secrets[i].path, data, o), cfg, i) <==>
            TmpPath(cfg.secrets[i].path) !in w.files && !LeavesTemp(o)
  {
    CanRefreshIff(Write(w, cfg.secrets[i].path, data, o), cfg, i);
    TempThereIff(w.files, cfg.secrets[i].path, data, o);
  }
}
