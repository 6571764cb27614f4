/** The sidecar agent on the heap, step by step. */
module Agent {
  import opened Text
  import opened Values
  import opened Retry
  import opened Cache
  import opened Records
  import opened FolderFetch
  import opened AgentModel
  import Annotations
  import K8sModel
  import K8s

  /** What the environment does during one fetch: the attempts of the retried call, the cancellations,
      and the rest as in FetchInput. */
  datatype FetchEvents = FetchEvents(attempts: seq<Attempt>, cancels: seq<bool>, now: int, done: int,
    write: WriteOutcome)

  datatype PassEvents = PassEvents(secrets: seq<FetchEvents>, folders: seq<FolderInput>)

  /** What the agent's step sees of the environment: three attempts with backoff make one outcome. */
  function Seen(e: FetchEvents): FetchInput {
    FetchInput(
      match RetryOutcome(DEFAULT_CONFIG.maxAttempts, e.attempts, e.cancels)
      case Succeeded(data) => Some(data)
      case Cancelled => None
      case Exhausted => None,
      e.now, e.done, e.write)
  }

  function SeenPass(e: PassEvents): PassInput {
    PassInput(seq(|e.secrets|, i requires 0 <= i < |e.secrets| => Seen(e.secrets[i])), e.folders)
  }

  /** One tick of sidecar mode: a pass, and what the rotation of Kubernetes Secrets meets. */
  datatype TickEvents = TickEvents(pass: PassEvents, keeper: K8sModel.Keeper, apis: seq<K8sModel.Api>)

  /** What rotation needs: whether there is a Kubernetes client, its namespace, and the secrets. */
  datatype RotationConfig = RotationConfig(hasClient: bool, namespace: string, podNamespace: string,
    refs: seq<Annotations.SecretRef>)

  function SeenTicks(ticks: seq<TickEvents>): seq<PassInput> {
    seq(|ticks|, i requires 0 <= i < |ticks| => SeenPass(ticks[i].pass))
  }

  /** The refreshes are those a tick asks for. */
  ghost predicate RefreshesAt(rot: RotationConfig, tick: TickEvents, rs: seq<K8sModel.Refresh>)
    requires |tick.apis| == |rot.refs|
  {
    if rot.hasClient then
      K8s.RefreshesOf(rot.refs, K8s.RotationNamespace(rot.namespace, rot.podNamespace), tick.keeper, tick.apis, rs)
    else rs == []
  }

  /** The refreshes are those the first `n` ticks ask for. */
  ghost predicate RefreshesOn(rot: RotationConfig, ticks: seq<TickEvents>, rss: seq<seq<K8sModel.Refresh>>, n: nat)
    requires n <= |ticks| && forall t :: t in ticks ==> |t.apis| == |rot.refs|
  {
    |rss| == n && forall i :: 0 <= i < n ==> RefreshesAt(rot, ticks[i], rss[i])
  }

  /** Every input can arise. */
  lemma EveryInputArises(inp: FetchInput)
    ensures exists e :: Seen(e) == inp
  {
    var attempts := if inp.fetched.Some? then [Got(inp.fetched.value)] else [];
    assert Seen(FetchEvents(attempts, [], inp.now, inp.done, inp.write)) == inp;
  }

  /** The file system. Every state it passes through is recorded. */
  class Disk {
    var files: Files
    ghost var history: seq<Files>

    constructor (files: Files)
      ensures this.files == files && history == []
    {
      this.files, history := files, [];
    }

    /** os.WriteFile: the file grows, and may be seen, in parts; it ends up whole only if the call succeeds. */
    method WriteFile(path: string, data: Bytes, cuts: seq<nat>, ok: bool)
      modifies this
      ensures files == if ok then old(files)[path := data]
                       else if cuts == [] then old(files)
                       else old(files)[path := Cut(data, cuts[|cuts| - 1])]
      ensures history == old(history) + Partials(old(files), path, data, cuts) +
              if ok then [old(files)[path := data]] else []
    {
      ghost var before := files;
      for i := 0 to |cuts|
        invariant files == if i == 0 then before else before[path := Cut(data, cuts[i - 1])]
        invariant history == old(history) + Partials(before, path, data, cuts)[..i]
      {
        files := files[path := Cut(data, cuts[i])];
        assert files == before[path := Cut(data, cuts[i])];
        history := history + [files];
      }
      if ok {
        files := files[path := data];
        assert files == before[path := data];
        history := history + [files];
      }
    }

    /** os.Rename: one atomic step. */
    method Rename(from: string, to: string)
      requires from in files
      modifies this
      ensures files == (old(files) - {from})[to := old(files)[from]]
      ensures history == old(history) + [files]
    {
      files := (files - {from})[to := files[from]];
      history := history + [files];
    }

    method Remove(path: string)
      modifies this
      ensures files == old(files) - {path}
      ensures history == old(history) + [files]
    {
      files := files - {path};
      history := history + [files];
    }
  }

  class Agent {
    const cfg: AgentConfig
    const disk: Disk
    const secretCache: SecretCache
    var lastFetch: map<string, int>
    var ready: bool
    ghost var log: seq<Event>

    constructor (cfg: AgentConfig, disk: Disk)
      ensures this.cfg == cfg && this.disk == disk && !ready && fresh(secretCache)
      ensures Valid() && State() == World(disk.files, map[], map[], [], disk.history)
    {
      this.cfg, this.disk, lastFetch, ready, log := cfg, disk, map[], false, [];
      secretCache := new SecretCache(DAY);
    }

    ghost predicate Valid() {
      secretCache.maxAge == DAY
    }

    ghost function State(): World
      reads this, disk, secretCache
    {
      World(disk.files, secretCache.secrets, lastFetch, log, disk.history)
    }

    /** writeSecretFile: a temp file first, then an atomic rename. */
    method WriteSecretFile(path: string, data: Bytes, o: WriteOutcome) returns (err: bool)
      modifies disk
      ensures State() == Write(old(State()), path, data, o)
      ensures err <==> !o.Written?
    {
      if o.MkdirFails? {
        return true;
      }
      var tmpPath := path + ".tmp";
      disk.WriteFile(tmpPath, data, o.cuts, !o.TempFails?);
      if o.TempFails? {
        return true;
      }
      err := RenameTemp(path, tmpPath, o);
      assert disk.history == old(disk.history) + WriteStates(old(disk.files), path, data, o);
    }

    /** Its second half. */
    method RenameTemp(path: string, tmpPath: string, o: WriteOutcome) returns (err: bool)
      requires (o.RenameFails? || o.Written?) && tmpPath in disk.files
      modifies disk
      ensures err <==> !o.Written?
      ensures disk.files == if o.Written? then (old(disk.files) - {tmpPath})[path := old(disk.files)[tmpPath]]
                            else if o.removed then old(disk.files) - {tmpPath} else old(disk.files)
      ensures disk.history == old(disk.history) + if o.Written? || o.removed then [disk.files] else []
    {
      if o.RenameFails? {
        if o.removed {
          disk.Remove(tmpPath);
        }
        return true;
      }
      disk.Rename(tmpPath, path);
      return false;
    }

    /** fetchSecret: retry, then the cache, then degradation. */
    method FetchSecret(c: SecretConfig, e: FetchEvents) returns (err: bool)
      requires Valid()
      modifies this`log, disk, secretCache
      ensures State() == FetchWorld(old(State()), c, Seen(e))
      ensures err == FetchFails(old(State()), c, Seen(e), cfg.failOnError)
    {
      var r, calls, slept := WithRetry(DEFAULT_CONFIG, e.attempts, e.cancels);
      if !r.Succeeded? {
        var cached := secretCache.Get(c.name, e.now);
        if cached.Some? {
          log := log + [FellBack(c.name, cached.value.data, e.now)];
          err := WriteSecretFile(c.path, cached.value.data, e.write);
          return;
        }
        return cfg.failOnError;
      }
      secretCache.Set(c.name, r.data, e.now);
      log := log + [Fetched(c.name, r.data, e.now)];
      err := WriteSecretFile(c.path, r.data, e.write);
    }

    /** fetchSecretsFromFolder: the records of the folder, each in a file named after its title; one that cannot be
        encoded or written is only warned about. */
    method FetchSecretsFromFolder(folder: FolderConfig, inp: FolderInput) returns (count: nat, err: bool)
      modifies disk
      ensures err <==> FolderFails(folder, inp)
      ensures State() == AfterItems(old(State()), FolderItems(folder, inp))
      ensures count == CountWritten(FolderItems(folder, inp))
    {
      var fetched := FetchFolderRecords(inp.vault, folder.folderUID, folder.folderPath);
      if fetched.None? {
        return 0, true;
      }
      count := WriteRecords(folder.outputPath, fetched.value, inp.items);
      err := false;
    }

    /** The state is the one after the first `i` records of a folder, `count` of them written. */
    ghost predicate WroteUpTo(start: World, dir: string, secrets: seq<Record>, inps: seq<ItemInput>, i: nat, count: nat)
      requires i <= |secrets|
      reads this, disk, secretCache
    {
      State() == AfterItems(start, ItemsOf(dir, secrets[..i], inps)) &&
        count == CountWritten(ItemsOf(dir, secrets[..i], inps))
    }

    /** Its write loop. */
    method WriteRecords(dir: string, secrets: seq<Record>, inps: seq<ItemInput>) returns (count: nat)
      modifies disk
      ensures State() == AfterItems(old(State()), ItemsOf(dir, secrets, inps))
      ensures count == CountWritten(ItemsOf(dir, secrets, inps))
    {
      count := 0;
      ghost var start := State();
      var i := 0;
      while i < |secrets|
        invariant i <= |secrets|
        invariant WroteUpTo(start, dir, secrets, inps, i, count)
      {
        OneMoreRecord(start, dir, secrets, inps, i);
        var written := WriteRecord(dir, secrets[i], inps, i);
        if written {
          count := count + 1;
        }
        i := i + 1;
      }
      assert secrets[..|secrets|] == secrets;
    }

    /** The body of that loop. */
    method WriteRecord(dir: string, secret: Record, inps: seq<ItemInput>, i: nat) returns (written: bool)
      modifies disk
      ensures State() == AfterItems(old(State()), ItemFor(dir, secret, inps, i))
      ensures CountWritten(ItemFor(dir, secret, inps, i)) == if written then 1 else 0
    {
      var filename := SanitizeFilename(secret.title);
      var path := dir + "/" + (filename + ".json");
      if i >= |inps| || inps[i].encoded.None? {
        return false;
      }
      OneMoreItem(State(), [], FolderItem(path, inps[i].encoded.value, inps[i].write));
      var err := WriteSecretFile(path, inps[i].encoded.value, inps[i].write);
      written := !err;
    }

    /** fetchAllSecrets: one pass. */
    method FetchAllSecrets(e: PassEvents) returns (err: bool)
      requires Valid() && Fits(cfg, SeenPass(e))
      modifies this`log, this`lastFetch, disk, secretCache
      ensures State() == Pass(old(State()), cfg, SeenPass(e))
      ensures err == PassFails(old(State()), cfg, SeenPass(e))
    {
      var errors := FetchSecrets(e);
      var folderErrors := FetchFolders(e);
      err := errors + folderErrors > 0 && cfg.failOnError;
    }

    /** The secrets loop of fetchAllSecrets. */
    method FetchSecrets(e: PassEvents) returns (errors: nat)
      requires Valid() && Fits(cfg, SeenPass(e))
      modifies this`log, this`lastFetch, disk, secretCache
      ensures State() == AfterSecrets(old(State()), cfg, SeenPass(e), |cfg.secrets|)
      ensures errors == SecretErrors(old(State()), cfg, SeenPass(e), |cfg.secrets|)
    {
      errors := 0;
      ghost var pass, start := SeenPass(e), State();
      var i := 0;
      while i < |cfg.secrets|
        invariant i <= |cfg.secrets|
        invariant State() == AfterSecrets(start, cfg, pass, i)
        invariant errors == SecretErrors(start, cfg, pass, i)
      {
        var failed := TakeTurn(i, e, pass, start);
        if failed {
          errors := errors + 1;
        }
        i := i + 1;
      }
    }

    /** The body of that loop. */
    method TakeTurn(i: nat, e: PassEvents, ghost pass: PassInput, ghost start: World) returns (err: bool)
      requires Valid() && pass == SeenPass(e) && Fits(cfg, pass) && i < |cfg.secrets|
      requires State() == AfterSecrets(start, cfg, pass, i)
      modifies this`log, this`lastFetch, disk, secretCache
      ensures State() == AfterSecrets(start, cfg, pass, i + 1)
      ensures SecretErrors(start, cfg, pass, i + 1) == SecretErrors(start, cfg, pass, i) + if err then 1 else 0
    {
      assert pass.secrets[i] == Seen(e.secrets[i]);
      err := FetchSecret(cfg.secrets[i], e.secrets[i]);
      if !err {
        lastFetch := lastFetch[cfg.secrets[i].name := e.secrets[i].done];
      }
    }

    /** The state is the one after the first `i` folders of the pass. */
    ghost predicate Reached(start: World, pass: PassInput, i: nat)
      requires Fits(cfg, pass) && i <= |cfg.folders|
      reads this, disk, secretCache
    {
      State() == AfterFolders(start, cfg, pass, i)
    }

    /** The folders loop of fetchAllSecrets. */
    method FetchFolders(e: PassEvents) returns (errors: nat)
      requires Fits(cfg, SeenPass(e))
      modifies this`lastFetch, disk
      ensures State() == AfterFolders(old(State()), cfg, SeenPass(e), |cfg.folders|)
      ensures errors == FolderErrors(cfg, SeenPass(e), |cfg.folders|)
    {
      errors := 0;
      ghost var pass, start := SeenPass(e), State();
      var i := 0;
      while i < |cfg.folders|
        invariant i <= |cfg.folders|
        invariant Reached(start, pass, i)
        invariant errors == FolderErrors(cfg, pass, i)
      {
        var failed := TakeFolderTurn(i, e, pass, start);
        if failed {
          errors := errors + 1;
        }
        i := i + 1;
      }
    }

    /** The body of that loop. */
    method TakeFolderTurn(i: nat, e: PassEvents, ghost pass: PassInput, ghost start: World) returns (err: bool)
      requires pass == SeenPass(e) && Fits(cfg, pass) && i < |cfg.folders|
      requires Reached(start, pass, i)
      modifies this`lastFetch, disk
      ensures Reached(start, pass, i + 1)
      ensures FolderErrors(cfg, pass, i + 1) == FolderErrors(cfg, pass, i) + if err then 1 else 0
    {
      var count: nat;
      count, err := FetchSecretsFromFolder(cfg.folders[i], e.folders[i]);
      if !err {
        lastFetch := lastFetch["folder:" + cfg.folders[i].folderUID := e.folders[i].done];
      }
    }

    /** Run: the client, the initial pass, and in sidecar mode the refresh loop. */
    method Run(clientOk: bool, first: PassEvents, ticks: seq<TickEvents>, rot: RotationConfig, cluster: K8s.Cluster)
      returns (err: bool, ghost rss: seq<seq<K8sModel.Refresh>>)
      requires Valid() && !ready
      requires Fits(cfg, SeenPass(first)) && forall p :: p in SeenTicks(ticks) ==> Fits(cfg, p)
      requires forall t :: t in ticks ==> |t.apis| == |rot.refs|
      modifies this`log, this`lastFetch, this`ready, disk, secretCache, cluster
      ensures err <==> !clientOk || PassFails(old(State()), cfg, SeenPass(first))
      ensures ready <==> !err
      ensures State() == if !clientOk then old(State())
                         else if err || cfg.initMode then Pass(old(State()), cfg, SeenPass(first))
                         else Passes(old(State()), cfg, [SeenPass(first)] + SeenTicks(ticks))
      ensures cluster.secrets == K8sModel.RotateAll(old(cluster.secrets), rss)
      ensures if err || cfg.initMode then rss == [] else RefreshesOn(rot, ticks, rss, |ticks|)
    {
      rss := [];
      if !clientOk {
        return true, rss;
      }
      var failed := FetchAllSecrets(first);
      if failed {
        if cfg.failOnError {
          return true, rss;
        }
      }
      ready := true;
      if cfg.initMode {
        return false, rss;
      }
      rss := RunSidecarMode(ticks, rot, cluster);
      FirstThenRest(old(State()), cfg, SeenPass(first), SeenTicks(ticks));
      return false, rss;
    }

    /** runSidecarMode: a pass and a rotation a tick, until the agent is stopped. */
    method RunSidecarMode(ticks: seq<TickEvents>, rot: RotationConfig, cluster: K8s.Cluster)
        returns (ghost rss: seq<seq<K8sModel.Refresh>>)
      requires Valid() && forall p :: p in SeenTicks(ticks) ==> Fits(cfg, p)
      requires forall t :: t in ticks ==> |t.apis| == |rot.refs|
      modifies this`log, this`lastFetch, disk, secretCache, cluster
      ensures State() == Passes(old(State()), cfg, SeenTicks(ticks))
      ensures cluster.secrets == K8sModel.RotateAll(old(cluster.secrets), rss)
      ensures RefreshesOn(rot, ticks, rss, |ticks|)
    {
      ghost var start, before := State(), cluster.secrets;
      rss := [];
      var i := 0;
      while i < |ticks|
        invariant i <= |ticks|
        invariant State() == Passes(start, cfg, SeenTicks(ticks)[..i])
        invariant cluster.secrets == K8sModel.RotateAll(before, rss) && RefreshesOn(rot, ticks, rss, i)
      {
        rss := TakeTick(i, ticks, rot, cluster, start, before, rss);
        i := i + 1;
      }
      assert SeenTicks(ticks)[..|ticks|] == SeenTicks(ticks);
    }

    /** The body of that loop. */
    method TakeTick(i: nat, ticks: seq<TickEvents>, rot: RotationConfig, cluster: K8s.Cluster,
                    ghost start: World, ghost before: K8sModel.Secrets, ghost done: seq<seq<K8sModel.Refresh>>)
      returns (ghost rss: seq<seq<K8sModel.Refresh>>)
      requires Valid() && i < |ticks| && forall p :: p in SeenTicks(ticks) ==> Fits(cfg, p)
      requires forall t :: t in ticks ==> |t.apis| == |rot.refs|
      requires State() == Passes(start, cfg, SeenTicks(ticks)[..i])
      requires cluster.secrets == K8sModel.RotateAll(before, done) && RefreshesOn(rot, ticks, done, i)
      modifies this`log, this`lastFetch, disk, secretCache, cluster
      ensures State() == Passes(start, cfg, SeenTicks(ticks)[..i + 1])
      ensures cluster.secrets == K8sModel.RotateAll(before, rss) && RefreshesOn(rot, ticks, rss, i + 1)
    {
      ghost var passes := SeenTicks(ticks);
      assert passes[i] == SeenPass(ticks[i].pass) && passes[i] in passes && ticks[i] in ticks;
      assert passes[..i + 1][..i] == passes[..i];
      ghost var rs := Tick(ticks[i], rot, cluster);
      rss := done + [rs];
      assert rss[..i] == done;
    }

    /** One tick: an error of the pass is only logged. */
    method Tick(tick: TickEvents, rot: RotationConfig, cluster: K8s.Cluster) returns (ghost rs: seq<K8sModel.Refresh>)
      requires Valid() && Fits(cfg, SeenPass(tick.pass)) && |tick.apis| == |rot.refs|
      modifies this`log, this`lastFetch, disk, secretCache, cluster
      ensures State() == Pass(old(State()), cfg, SeenPass(tick.pass))
      ensures cluster.secrets == K8sModel.Rotate(old(cluster.secrets), rs) && RefreshesAt(rot, tick, rs)
    {
      var _ := FetchAllSecrets(tick.pass);
      rs := cluster.UpdateK8sSecrets(rot.hasClient, rot.namespace, rot.podNamespace, rot.refs, tick.keeper, tick.apis);
    }
  }

  /** How many of the folder files are written. */
  function CountWritten(items: seq<FolderItem>): nat {
    if items == [] then 0
    else CountWritten(items[..|items| - 1]) + if items[|items| - 1].write.Written? then 1 else 0
  }

  lemma OneMoreItem(w: World, items: seq<FolderItem>, item: FolderItem)
    ensures AfterItems(w, items + [item]) == Write(AfterItems(w, items), item.path, item.data, item.write)
    ensures CountWritten(items + [item]) == CountWritten(items) + if item.write.Written? then 1 else 0
  {
    assert (items + [item])[..|items|] == items;
  }

  lemma OneMoreRecord(w: World, dir: string, rs: seq<Record>, inps: seq<ItemInput>, i: nat)
    requires i < |rs|
    ensures AfterItems(w, ItemsOf(dir, rs[..i + 1], inps)) ==
            AfterItems(AfterItems(w, ItemsOf(dir, rs[..i], inps)), ItemFor(dir, rs[i], inps, i))
    ensures CountWritten(ItemsOf(dir, rs[..i + 1], inps)) ==
            CountWritten(ItemsOf(dir, rs[..i], inps)) + CountWritten(ItemFor(dir, rs[i], inps, i))
  {
    assert rs[..i + 1][..i] == rs[..i];
    MoreItems(w, ItemsOf(dir, rs[..i], inps), ItemFor(dir, rs[i], inps, i));
  }

  lemma {:induction false} MoreItems(w: World, items: seq<FolderItem>, more: seq<FolderItem>)
    ensures AfterItems(w, items + more) == AfterItems(AfterItems(w, items), more)
    ensures CountWritten(items + more) == CountWritten(items) + CountWritten(more)
  {
    if more == [] {
      assert items + more == items;
    } else {
      var init, last := more[..|more| - 1], more[|more| - 1];
      assert items + more == (items + init) + [last] && more == init + [last];
      OneMoreItem(w, items + init, last);
      OneMoreItem(AfterItems(w, items), init, last);
      MoreItems(w, items, init);
    }
  }

  lemma {:induction false} FirstThenRest(w: World, cfg: AgentConfig, first: PassInput, rest: seq<PassInput>)
    requires Fits(cfg, first) && forall p :: p in rest ==> Fits(cfg, p)
    ensures Passes(w, cfg, [first] + rest) == Passes(Pass(w, cfg, first), cfg, rest)
  {
    var all := [first] + rest;
    if rest == [] {
      assert all == [first] && all[..0] == [];
    } else {
      var init := rest[..|rest| - 1];
      assert all[..|all| - 1] == [first] + init;
      FirstThenRest(w, cfg, first, init);
    }
  }
}
