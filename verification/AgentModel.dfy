/** The sidecar agent as steps on a world: its files, its cache, and what it has logged. */
module AgentModel {
  import opened Text
  import opened Values
  import opened Cache
  import opened Records
  import opened FolderFetch

  type Files = map<string, Bytes>

  // ---------- writing a file ----------

  /** How far a write gets. `cuts` are the lengths of the partial temp file that can be observed on the way. */
  datatype WriteOutcome =
    | MkdirFails
    | TempFails(cuts: seq<nat>)
    | RenameFails(cuts: seq<nat>, removed: bool)
    | Written(cuts: seq<nat>)

  function TmpPath(path: string): string {
    path + ".tmp"
  }

  function Cut(data: Bytes, n: nat): Bytes {
    if n <= |data| then data[..n] else data
  }

  /** The file systems seen while the temp file grows. */
  function Partials(files: Files, tmp: string, data: Bytes, cuts: seq<nat>): seq<Files> {
    seq(|cuts|, i requires 0 <= i < |cuts| => files[tmp := Cut(data, cuts[i])])
  }

  /** Every file system seen during a write, in order, the one before it left out. */
  function WriteStates(files: Files, path: string, data: Bytes, o: WriteOutcome): seq<Files> {
    var tmp := TmpPath(path);
    var full := files[tmp := data];
    match o
    case MkdirFails => []
    case TempFails(cuts) => Partials(files, tmp, data, cuts)
    case RenameFails(cuts, removed) =>
      Partials(files, tmp, data, cuts) + [full] + if removed then [full - {tmp}] else []
    case Written(cuts) => Partials(files, tmp, data, cuts) + [full] + [(full - {tmp})[path := data]]
  }

  function AfterWrite(files: Files, path: string, data: Bytes, o: WriteOutcome): Files {
    var states := WriteStates(files, path, data, o);
    if states == [] then files else states[|states| - 1]
  }

  // ---------- one secret ----------

  datatype SecretConfig = SecretConfig(name: string, path: string)

  /** What one fetch meets: the bytes the retried call brings, if any, the clock at the cache access
      and at the end, and the fate of the write. */
  datatype FetchInput = FetchInput(fetched: Option<Bytes>, now: int, done: int, write: WriteOutcome)

  datatype Event = Fetched(name: string, data: Bytes, at: int) | FellBack(name: string, data: Bytes, at: int)

  /** `history` holds every file system ever seen, `log` every successful fetch and every use of the cache. */
  datatype World = World(
    files: Files, cache: map<string, CachedSecret>, lastFetch: map<string, int>, log: seq<Event>, history: seq<Files>)

  function Write(w: World, path: string, data: Bytes, o: WriteOutcome): World {
    w.(files := AfterWrite(w.files, path, data, o), history := w.history + WriteStates(w.files, path, data, o))
  }

  /** The bytes the step writes: fetched, or cached and fresh enough. */
  function BytesFor(w: World, cfg: SecretConfig, inp: FetchInput): Option<Bytes> {
    match inp.fetched
    case Some(data) => Some(data)
    case None =>
      match Fresh(w.cache, DAY, cfg.name, inp.now)
      case Some(c) => Some(c.data)
      case None => None
  }

  /** The cache and the log after the step: a fetch is stored, a use of the cache renews nothing. */
  function Note(w: World, cfg: SecretConfig, inp: FetchInput, data: Bytes): World {
    if inp.fetched.Some?
    then w.(cache := w.cache[cfg.name := CachedSecret(data, inp.now)],
            log := w.log + [Fetched(cfg.name, data, inp.now)])
    else w.(log := w.log + [FellBack(cfg.name, data, inp.now)])
  }

  /** One fetch with its fallback. */
  function FetchWorld(w: World, cfg: SecretConfig, inp: FetchInput): World {
    match BytesFor(w, cfg, inp)
    case Some(data) => Write(Note(w, cfg, inp, data), cfg.path, data, inp.write)
    case None => w
  }

  /** Whether the fetch reports an error: a failed write, or, if errors are to be reported, no bytes at all. */
  predicate FetchFails(w: World, cfg: SecretConfig, inp: FetchInput, failOnError: bool) {
    if BytesFor(w, cfg, inp).Some? then !inp.write.Written? else failOnError
  }

  /** One secret's turn in a pass. */
  function TurnWorld(w: World, c: SecretConfig, inp: FetchInput, failOnError: bool): World {
    var after := FetchWorld(w, c, inp);
    if FetchFails(w, c, inp, failOnError) then after else after.(lastFetch := after.lastFetch[c.name := inp.done])
  }

  // ---------- one pass ----------

  datatype FolderConfig = FolderConfig(folderUID: string, folderPath: string, outputPath: string)

  /** What becomes of one record of a folder: its encoding, unless that fails, and the fate of the write. */
  datatype ItemInput = ItemInput(encoded: Option<Bytes>, write: WriteOutcome)

  /** What one folder fetch meets: the vault's answers, what becomes of the records in turn (those beyond
      the list cannot be encoded), and the clock at the end. */
  datatype FolderInput = FolderInput(vault: Vault, items: seq<ItemInput>, done: int)

  /** A folder file to write. */
  datatype FolderItem = FolderItem(path: string, data: Bytes, write: WriteOutcome)

  datatype AgentConfig = AgentConfig(initMode: bool, secrets: seq<SecretConfig>, folders: seq<FolderConfig>,
    failOnError: bool)

  datatype PassInput = PassInput(secrets: seq<FetchInput>, folders: seq<FolderInput>)

  predicate Fits(cfg: AgentConfig, pass: PassInput) {
    |pass.secrets| == |cfg.secrets| && |pass.folders| == |cfg.folders|
  }

  /** The world after the first `k` secrets of a pass. */
  function AfterSecrets(w: World, cfg: AgentConfig, pass: PassInput, k: nat): World
    requires Fits(cfg, pass) && k <= |cfg.secrets|
  {
    if k == 0 then w
    else TurnWorld(AfterSecrets(w, cfg, pass, k - 1), cfg.secrets[k - 1], pass.secrets[k - 1], cfg.failOnError)
  }

  /** How many of the first `k` secrets report an error. */
  function SecretErrors(w: World, cfg: AgentConfig, pass: PassInput, k: nat): nat
    requires Fits(cfg, pass) && k <= |cfg.secrets|
  {
    if k == 0 then 0
    else
      var failed := FetchFails(AfterSecrets(w, cfg, pass, k - 1), cfg.secrets[k - 1], pass.secrets[k - 1],
        cfg.failOnError);
      SecretErrors(w, cfg, pass, k - 1) + if failed then 1 else 0
  }

  /** Folder files are written one by one; a failed write only skips the file. */
  function AfterItems(w: World, items: seq<FolderItem>): World {
    if items == [] then w
    else
      var last := items[|items| - 1];
      Write(AfterItems(w, items[..|items| - 1]), last.path, last.data, last.write)
  }

  /** The `n`-th record of a folder, if it can be encoded, is written under the path that its title gives. */
  function ItemFor(dir: string, r: Record, inps: seq<ItemInput>, n: nat): (items: seq<FolderItem>)
    ensures forall item :: item in items ==> item.path == FilePath(dir, r.title)
  {
    if n < |inps| && inps[n].encoded.Some?
    then [FolderItem(FilePath(dir, r.title), inps[n].encoded.value, inps[n].write)]
    else []
  }

  function ItemsOf(dir: string, rs: seq<Record>, inps: seq<ItemInput>): (items: seq<FolderItem>)
    ensures forall item :: item in items ==> exists r :: r in rs && item.path == FilePath(dir, r.title)
  {
    if rs == [] then []
    else
      var n := |rs| - 1;
      ItemsOf(dir, rs[..n], inps) + ItemFor(dir, rs[n], inps, n)
  }

  predicate FolderFails(folder: FolderConfig, inp: FolderInput) {
    FolderRecords(inp.vault, folder.folderUID, folder.folderPath).None?
  }

  /** The files a folder fetch writes; none if it fails. */
  function FolderItems(folder: FolderConfig, inp: FolderInput): seq<FolderItem> {
    match FolderRecords(inp.vault, folder.folderUID, folder.folderPath)
    case None => []
    case Some(rs) => ItemsOf(folder.outputPath, rs, inp.items)
  }

  function FolderWorld(w: World, folder: FolderConfig, inp: FolderInput): World {
    if FolderFails(folder, inp) then w
    else
      var after := AfterItems(w, FolderItems(folder, inp));
      after.(lastFetch := after.lastFetch["folder:" + folder.folderUID := inp.done])
  }

  function AfterFolders(w: World, cfg: AgentConfig, pass: PassInput, k: nat): World
    requires Fits(cfg, pass) && k <= |cfg.folders|
  {
    if k == 0 then w else FolderWorld(AfterFolders(w, cfg, pass, k - 1), cfg.folders[k - 1], pass.folders[k - 1])
  }

  /** How many of the first `k` folders fail. */
  function FolderErrors(cfg: AgentConfig, pass: PassInput, k: nat): nat
    requires Fits(cfg, pass) && k <= |cfg.folders|
  {
    if k == 0 then 0
    else FolderErrors(cfg, pass, k - 1) + if FolderFails(cfg.folders[k - 1], pass.folders[k - 1]) then 1 else 0
  }

  /** The files the `k`-th folder writes in the pass. */
  function ItemsAt(cfg: AgentConfig, pass: PassInput, k: nat): seq<FolderItem>
    requires Fits(cfg, pass) && k < |cfg.folders|
  {
    FolderItems(cfg.folders[k], pass.folders[k])
  }

  /** The worlds between the turns of a pass, the first and the last included. */
  ghost function TurnWorlds(w: World, cfg: AgentConfig, pass: PassInput): (worlds: seq<World>)
    requires Fits(cfg, pass)
    ensures |worlds| == |cfg.secrets| + 1 && worlds[0] == w
    ensures forall k: nat :: k <= |cfg.secrets| ==> worlds[k] == AfterSecrets(w, cfg, pass, k)
  {
    seq(|cfg.secrets| + 1, k requires 0 <= k <= |cfg.secrets| => AfterSecrets(w, cfg, pass, k))
  }

  /** The worlds between the folders of a pass, the first and the last included. */
  ghost function FolderWorlds(w: World, cfg: AgentConfig, pass: PassInput): (worlds: seq<World>)
    requires Fits(cfg, pass)
    ensures |worlds| == |cfg.folders| + 1 && worlds[0] == w
    ensures forall k: nat :: k <= |cfg.folders| ==> worlds[k] == AfterFolders(w, cfg, pass, k)
  {
    seq(|cfg.folders| + 1, k requires 0 <= k <= |cfg.folders| => AfterFolders(w, cfg, pass, k))
  }

  /** The world after a whole pass over secrets and folders. */
  function Pass(w: World, cfg: AgentConfig, pass: PassInput): World
    requires Fits(cfg, pass)
  {
    AfterFolders(AfterSecrets(w, cfg, pass, |cfg.secrets|), cfg, pass, |cfg.folders|)
  }

  /** Whether the pass reports an error. */
  predicate PassFails(w: World, cfg: AgentConfig, pass: PassInput)
    requires Fits(cfg, pass)
  {
    SecretErrors(w, cfg, pass, |cfg.secrets|) + FolderErrors(cfg, pass, |cfg.folders|) > 0 && cfg.failOnError
  }

  /** The world after a number of passes: the initial one and the ticks. */
  function Passes(w: World, cfg: AgentConfig, passes: seq<PassInput>): World
    requires forall p :: p in passes ==> Fits(cfg, p)
  {
    if passes == [] then w
    else Pass(Passes(w, cfg, passes[..|passes| - 1]), cfg, passes[|passes| - 1])
  }
}
