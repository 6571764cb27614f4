/** What the agent does with one secret and with one folder, in terms of the inputs alone. */
module AgentCases {
  import opened Text
  import opened Values
  import opened Retry
  import opened FolderModel
  import opened Records
  import opened RecordCases
  import opened FolderFetch
  import opened AgentModel
  import opened Agent

  // ---------- three attempts ----------

  /** The attempt is the first to bring anything. */
  predicate FirstGot(e: FetchEvents, k: nat, data: Bytes) {
    k < |e.attempts| && e.attempts[k] == Got(data) && forall j: nat :: j < k ==> e.attempts[j] == Attempt.Failed
  }

  /** No delay up to the attempt is cancelled. */
  predicate NotCancelled(e: FetchEvents, k: nat) {
    forall j: nat :: j < k && j < |e.cancels| ==> !e.cancels[j]
  }

  lemma SeenIff(e: FetchEvents, data: Bytes)
    ensures Seen(e).fetched == Some(data) <==> exists k: nat :: k < 3 && FirstGot(e, k, data) && NotCancelled(e, k)
  {
    DefaultDelays();
    SucceedsIff(3, e.attempts, e.cancels, data);
    if k: nat :| k < 3 && FirstGot(e, k, data) && NotCancelled(e, k) {
      assert forall j: nat :: j < k ==> e.attempts[j] == Attempt.Failed && !(j < |e.cancels| && e.cancels[j]);
    }
    if k: nat :| k < 3 && k < |e.attempts| && e.attempts[k] == Got(data) &&
                 forall j: nat :: j < k ==> e.attempts[j] == Attempt.Failed && !(j < |e.cancels| && e.cancels[j]) {
      assert FirstGot(e, k, data) && NotCancelled(e, k);
    }
  }

  /** A fetch that is not cancelled brings what the first of three attempts to succeed brings, and nothing exactly if
      all three fail. */
  lemma ThreeAttempts(e: FetchEvents)
    requires forall k: nat :: NotCancelled(e, k)
    ensures forall data :: Seen(e).fetched == Some(data) <==> exists k: nat :: k < 3 && FirstGot(e, k, data)
    ensures Seen(e).fetched == None <==> forall k: nat :: k < 3 && k < |e.attempts| ==> e.attempts[k] == Attempt.Failed
    ensures Seen(e).now == e.now && Seen(e).done == e.done && Seen(e).write == e.write
  {
    forall data ensures Seen(e).fetched == Some(data) <==> exists k: nat :: k < 3 && FirstGot(e, k, data) {
      SeenIff(e, data);
    }
    if k: nat :| k < 3 && k < |e.attempts| && e.attempts[k] != Attempt.Failed {
      var first := FirstSuccess(e, k);
      assert first < 3 && Seen(e).fetched == Some(e.attempts[first].data);
    }
    if Seen(e).fetched.Some? {
      var k: nat :| k < 3 && FirstGot(e, k, Seen(e).fetched.value);
      assert e.attempts[k] != Attempt.Failed;
    }
  }

  lemma FirstSuccess(e: FetchEvents, k: nat) returns (first: nat)
    requires k < |e.attempts| && e.attempts[k].Got?
    ensures first <= k && e.attempts[first].Got? && FirstGot(e, first, e.attempts[first].data)
  {
    if j: nat :| j < k && e.attempts[j].Got? {
      first := FirstSuccess(e, j);
    } else {
      first := k;
    }
  }

  // ---------- file names ----------

  /** A title is taken character by character: letters, digits, dashes, underscores and dots stay, a space becomes a
      dash, and everything else is dropped. */
  lemma SafeCharIs(c: char)
    ensures SafeName([c]) ==
            if 'a' <= c <= 'z' || 'A' <= c <= 'Z' || '0' <= c <= '9' || c == '-' || c == '_' || c == '.' then [c]
            else if c == ' ' then "-" else ""
  {
    assert [c][..0] == "" && SafeName("") == "";
  }

  lemma {:induction false} SafeNameConcat(a: string, b: string)
    ensures SafeName(a + b) == SafeName(a) + SafeName(b)
  {
    if b == "" {
      assert a + b == a;
    } else {
      var init := b[..|b| - 1];
      assert (a + b)[..|a + b| - 1] == a + init;
      SafeNameConcat(a, init);
    }
  }

  // ---------- one folder ----------

  /** The folder meant is the one whose UID is given, or else the one the path resolves to; without either, or where the
      path does not resolve to a folder with a UID, the fetch fails, and so it does where a call fails. */
  lemma FolderMeantIs(v: Vault, folderUID: string, folderPath: string, u: string)
    ensures FolderMeant(v, folderUID, folderPath) == Some(u) <==>
            u != "" && if folderUID != "" then u == folderUID
                       else folderPath != "" && v.folders.Some? && Resolve(v.folders.value, folderPath) == Found(u)
  {
    if v.folders.Some? && folderPath != "" {
      var r := Resolve(v.folders.value, folderPath);
      assert r.Found? ==> r == Found(r.uid);
    }
  }

  /** The records fetched are those in the folder, in list order. */
  lemma FolderRecordsAre(v: Vault, folderUID: string, folderPath: string) returns (ps: seq<nat>)
    requires FolderRecords(v, folderUID, folderPath).Some?
    ensures FolderMeant(v, folderUID, folderPath).Some? && v.records.Some?
    ensures var u, all, rs := FolderMeant(v, folderUID, folderPath).value, v.records.value,
              FolderRecords(v, folderUID, folderPath).value;
            Increasing(ps, |all|) && |ps| == |rs| && (forall i :: 0 <= i < |rs| ==> rs[i] == all[ps[i]]) &&
            forall k: nat :: k < |all| ==> (k in ps <==> all[k].folderUid == u || all[k].innerFolderUid == u)
  {
    var u := FolderMeant(v, folderUID, folderPath).value;
    ps := Positions(v.records.value, (r: Record) => InFolder(r, u));
  }

  /** The fetch fails exactly if no folder is meant or the records cannot be had. */
  lemma FolderFailsIff(folder: FolderConfig, inp: FolderInput)
    ensures FolderFails(folder, inp) <==>
            inp.vault.records.None? || forall u ::
              FolderMeant(inp.vault, folder.folderUID, folder.folderPath) != Some(u)
  {
    var meant := FolderMeant(inp.vault, folder.folderUID, folder.folderPath);
    assert meant.Some? ==> meant == Some(meant.value);
  }

  /** The name of the file a record's title gives. */
  function FileOf(folder: FolderConfig, r: Record): string {
    folder.outputPath + "/" + (SafeName(r.title) + ".json")
  }

  /** The file of a record that is encoded and written holds the encoding, unless a later record has the same file
      name. */
  lemma FolderFileIs(w: World, folder: FolderConfig, inp: FolderInput, n: nat)
    requires FolderRecords(inp.vault, folder.folderUID, folder.folderPath).Some?
    requires var rs := FolderRecords(inp.vault, folder.folderUID, folder.folderPath).value;
             n < |rs| && n < |inp.items| && inp.items[n].encoded.Some? && inp.items[n].write.Written? &&
             forall m :: n < m < |rs| ==> FileOf(folder, rs[m]) != FileOf(folder, rs[n])
    ensures var rs := FolderRecords(inp.vault, folder.folderUID, folder.folderPath).value;
            At(FolderWorld(w, folder, inp).files, FileOf(folder, rs[n])) == inp.items[n].encoded
  {
    var rs := FolderRecords(inp.vault, folder.folderUID, folder.folderPath).value;
    NextRecord(w, folder, rs, inp.items, n, rs[n]);
    KeptAfter(w, folder, rs, inp.items, n, rs[n]);
    assert rs[..|rs|] == rs;
  }

  /** What a path holds after the first `k` records of a folder. */
  function FolderFileAt(w: World, folder: FolderConfig, rs: seq<Record>, inps: seq<ItemInput>, k: nat, p: string)
    : Option<Bytes>
    requires k <= |rs|
  {
    At(AfterItems(w, ItemsOf(folder.outputPath, rs[..k], inps)).files, p)
  }

  lemma NextRecord(w: World, folder: FolderConfig, rs: seq<Record>, inps: seq<ItemInput>, k: nat, r: Record)
    requires k < |rs|
    ensures FileOf(folder, rs[k]) != FileOf(folder, r) ==>
              FolderFileAt(w, folder, rs, inps, k + 1, FileOf(folder, r)) ==
              FolderFileAt(w, folder, rs, inps, k, FileOf(folder, r))
    ensures r == rs[k] && k < |inps| && inps[k].encoded.Some? && inps[k].write.Written? ==>
              FolderFileAt(w, folder, rs, inps, k + 1, FileOf(folder, r)) == inps[k].encoded
  {
    OneMoreRecord(w, folder.outputPath, rs, inps, k);
    var before := AfterItems(w, ItemsOf(folder.outputPath, rs[..k], inps));
    if FileOf(folder, rs[k]) != FileOf(folder, r) {
      OtherItem(before, folder, rs[k], inps, k, r);
    } else if r == rs[k] && k < |inps| && inps[k].encoded.Some? && inps[k].write.Written? {
      ItsItem(before, folder, rs[k], inps, k);
    }
  }

  lemma {:induction false} KeptAlong(values: seq<Option<Bytes>>, n: nat, k: nat)
    requires n <= k < |values| && forall m: nat :: n <= m < k ==> values[m + 1] == values[m]
    ensures values[k] == values[n]
  {
    if n < k {
      KeptAlong(values, n, k - 1);
    }
  }

  lemma KeptAfter(w: World, folder: FolderConfig, rs: seq<Record>, inps: seq<ItemInput>, n: nat, r: Record)
    requires n < |rs| && forall m :: n < m < |rs| ==> FileOf(folder, rs[m]) != FileOf(folder, r)
    ensures FolderFileAt(w, folder, rs, inps, |rs|, FileOf(folder, r)) ==
            FolderFileAt(w, folder, rs, inps, n + 1, FileOf(folder, r))
  {
    var values := seq(|rs| + 1, k requires 0 <= k <= |rs| => FolderFileAt(w, folder, rs, inps, k, FileOf(folder, r)));
    forall m: nat | n + 1 <= m < |rs| ensures values[m + 1] == values[m] {
      NextRecord(w, folder, rs, inps, m, r);
    }
    KeptAlong(values, n + 1, |rs|);
  }

  lemma ItsItem(w: World, folder: FolderConfig, r: Record, inps: seq<ItemInput>, n: nat)
    requires n < |inps| && inps[n].encoded.Some? && inps[n].write.Written?
    ensures At(AfterItems(w, ItemFor(folder.outputPath, r, inps, n)).files, FileOf(folder, r)) == inps[n].encoded
  {
    OneItemWorld(w, ItemFor(folder.outputPath, r, inps, n));
    WrittenThere(w, FileOf(folder, r), inps[n].encoded.value, inps[n].write);
  }

  lemma OtherItem(w: World, folder: FolderConfig, r: Record, inps: seq<ItemInput>, n: nat, other: Record)
    requires FileOf(folder, r) != FileOf(folder, other)
    ensures At(AfterItems(w, ItemFor(folder.outputPath, r, inps, n)).files, FileOf(folder, other)) ==
            At(w.files, FileOf(folder, other))
  {
    var items := ItemFor(folder.outputPath, r, inps, n);
    OneItemWorld(w, items);
    if items != [] {
      NotItsTemp(folder, r, other);
      WrittenElsewhere(w.files, items[0].path, items[0].data, items[0].write, FileOf(folder, other));
    }
  }

  lemma OneItemWorld(w: World, items: seq<FolderItem>)
    requires |items| <= 1
    ensures AfterItems(w, items) == if items == [] then w else Write(w, items[0].path, items[0].data, items[0].write)
  {
    if items != [] {
      assert items[..0] == [];
    }
  }

  lemma WrittenThere(w: World, path: string, data: Bytes, o: WriteOutcome)
    requires o.Written?
    ensures At(Write(w, path, data, o).files, path) == Some(data)
  {
  }

  lemma WrittenElsewhere(files: Files, path: string, data: Bytes, o: WriteOutcome, p: string)
    requires p != path && p != path + ".tmp"
    ensures At(AfterWrite(files, path, data, o), p) == At(files, p)
  {
  }

  /** No file of a folder is the temp file of another. */
  lemma NotItsTemp(folder: FolderConfig, a: Record, b: Record)
    ensures FileOf(folder, b) != FileOf(folder, a) + ".tmp"
  {
    var s, t := FileOf(folder, b), FileOf(folder, a) + ".tmp";
    assert s[|s| - 1] == 'n' && t[|t| - 1] == 'p';
  }

  // ---------- when a secret was last served ----------

  /** The turn reports no error: it had bytes and wrote them, or errors are not to be reported. */
  predicate Unreported(w: World, cfg: AgentConfig, pass: PassInput, i: nat)
    requires Fits(cfg, pass) && i < |cfg.secrets|
  {
    var before, inp, name := AfterSecrets(w, cfg, pass, i), pass.secrets[i], cfg.secrets[i].name;
    if inp.fetched.Some? ||
       (name in before.cache && inp.now - before.cache[name].fetchedAt <= 24 * 3600 * 1_000_000_000)
    then inp.write.Written?
    else !cfg.failOnError
  }

  /** For every secret of the name whose turn reported no error the time of it. */
  function ServedTimes(w: World, cfg: AgentConfig, pass: PassInput, name: string): (times: seq<Option<int>>)
    requires Fits(cfg, pass)
    ensures |times| == |cfg.secrets|
  {
    seq(|cfg.secrets|, i requires 0 <= i < |cfg.secrets| =>
      if cfg.secrets[i].name == name && Unreported(w, cfg, pass, i) then Some(pass.secrets[i].done) else None)
  }

  /** The last of the times there are, or else the one before. */
  function LastTime(times: seq<Option<int>>, before: Option<int>): Option<int> {
    if times == [] then before
    else
      var last := times[|times| - 1];
      if last.Some? then last else LastTime(times[..|times| - 1], before)
  }

  /** After the secrets of a pass the time kept for a name is that of its last turn without an error, or what it was. */
  lemma LastFetchIs(w: World, cfg: AgentConfig, pass: PassInput, name: string)
    requires Fits(cfg, pass)
    ensures At(AfterSecrets(w, cfg, pass, |cfg.secrets|).lastFetch, name) ==
            LastTime(ServedTimes(w, cfg, pass, name), At(w.lastFetch, name))
  {
    var worlds, served := TurnWorlds(w, cfg, pass), ServedTimes(w, cfg, pass, name);
    var kept := seq(|worlds|, i requires 0 <= i < |worlds| => At(worlds[i].lastFetch, name));
    forall i: nat | i < |served| ensures kept[i + 1] == if served[i].Some? then served[i] else kept[i] {
      TurnTime(w, cfg, pass, i, name);
      assert worlds[i] == AfterSecrets(w, cfg, pass, i) && worlds[i + 1] == AfterSecrets(w, cfg, pass, i + 1);
    }
    TimesAlong(kept, served, |served|);
    assert served[..|served|] == served;
  }

  lemma {:induction false} TimesAlong(kept: seq<Option<int>>, served: seq<Option<int>>, k: nat)
    requires k <= |served| < |kept|
    requires forall i: nat :: i < |served| ==> kept[i + 1] == if served[i].Some? then served[i] else kept[i]
    ensures kept[k] == LastTime(served[..k], kept[0])
  {
    if k > 0 {
      TimesAlong(kept, served, k - 1);
      assert served[..k][..k - 1] == served[..k - 1];
    }
  }

  lemma TurnTime(w: World, cfg: AgentConfig, pass: PassInput, i: nat, name: string)
    requires Fits(cfg, pass) && i < |cfg.secrets|
    ensures At(AfterSecrets(w, cfg, pass, i + 1).lastFetch, name) ==
            if cfg.secrets[i].name == name && Unreported(w, cfg, pass, i) then Some(pass.secrets[i].done)
            else At(AfterSecrets(w, cfg, pass, i).lastFetch, name)
  {
    TimeOfTurn(AfterSecrets(w, cfg, pass, i), cfg.secrets[i], pass.secrets[i], cfg.failOnError, name);
  }

  lemma TimeOfTurn(before: World, c: SecretConfig, inp: FetchInput, failOnError: bool, name: string)
    ensures At(TurnWorld(before, c, inp, failOnError).lastFetch, name) ==
            if c.name == name &&
               (if inp.fetched.Some? ||
                   (c.name in before.cache && inp.now - before.cache[c.name].fetchedAt <= 24 * 3600 * 1_000_000_000)
                then inp.write.Written? else !failOnError)
            then Some(inp.done) else At(before.lastFetch, name)
  {
  }

  /** A folder that is fetched leaves the time under "folder:" and its configured UID, which may be empty; one that
      fails changes nothing. */
  lemma FolderTimeIs(w: World, folder: FolderConfig, inp: FolderInput, name: string)
    ensures FolderFails(folder, inp) ==> FolderWorld(w, folder, inp) == w
    ensures !FolderFails(folder, inp) ==>
              At(FolderWorld(w, folder, inp).lastFetch, name) ==
              if name == "folder:" + folder.folderUID then Some(inp.done) else At(w.lastFetch, name)
  {
    if !FolderFails(folder, inp) {
      ItemsKeepTimes(w, FolderItems(folder, inp));
    }
  }

  lemma {:induction false} ItemsKeepTimes(w: World, items: seq<FolderItem>)
    ensures AfterItems(w, items).lastFetch == w.lastFetch
  {
    if items != [] {
      ItemsKeepTimes(w, items[..|items| - 1]);
    }
  }
}
