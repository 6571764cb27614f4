/** Which record of the vault a name, a UID, a folder path or a notation selects. */
module Records {
  import opened Text
  import opened FolderModel
  import opened FolderTree
  import opened FolderTheorems
  import opened Notation
  import opened Annotations
  import opened Values

  datatype Record = Record(
    uid: string, title: string, folderUid: string, innerFolderUid: string, fields: map<string, FieldValue>)

  /** What the vault answers: its folders and its records, or None where the call fails. */
  datatype Vault = Vault(folders: Option<seq<Folder>>, records: Option<seq<Record>>)

  datatype PickError = FetchFailed | NoRecord | Ambiguous(count: nat) | BadFolder(error: ResolveError)

  datatype Pick = Picked(record: Record) | NotPicked(error: PickError)

  function Filter(rs: seq<Record>, p: Record -> bool): (matches: seq<Record>)
    ensures forall r :: r in matches <==> r in rs && p(r)
  {
    if rs == [] then []
    else
      var init, last := rs[..|rs| - 1], rs[|rs| - 1];
      Filter(init, p) + if p(last) then [last] else []
  }

  /** The first of the matches; strict mode refuses to choose. */
  function Choose(strict: bool, matches: seq<Record>): Pick {
    if matches == [] then NotPicked(NoRecord)
    else if |matches| > 1 && strict then NotPicked(Ambiguous(|matches|))
    else Picked(matches[0])
  }

  predicate InFolder(r: Record, folder: string) {
    r.folderUid == folder || r.innerFolderUid == folder
  }

  predicate Answers(r: Record, name: string) {
    r.title == name || r.uid == name
  }

  function FolderMatches(rs: seq<Record>, folder: string, name: string): seq<Record> {
    Filter(rs, (r: Record) => InFolder(r, folder) && Answers(r, name))
  }

  function TitleMatches(rs: seq<Record>, title: string): seq<Record> {
    Filter(rs, (r: Record) => r.title == title)
  }

  function UidMatches(rs: seq<Record>, uid: string): seq<Record> {
    Filter(rs, (r: Record) => r.uid == uid)
  }

  /** The record a folder path and a name select. */
  function ByPath(v: Vault, strict: bool, folderPath: string, name: string): Pick {
    if v.folders.None? then NotPicked(FetchFailed)
    else
      match Resolve(v.folders.value, folderPath)
      case Failed(e) => NotPicked(BadFolder(e))
      case Found(folder) =>
        if v.records.None? then NotPicked(FetchFailed)
        else Choose(strict, FolderMatches(v.records.value, folder, name))
  }

  method GetSecretByPath(v: Vault, strict: bool, folderPath: string, name: string) returns (r: Pick)
    ensures r == ByPath(v, strict, folderPath, name)
  {
    if v.folders.None? {
      return NotPicked(FetchFailed);
    }
    var tree := BuildFolderTree(v.folders.value);
    var resolved := tree.ResolvePath(folderPath, v.folders.value);
    if resolved.Failed? {
      return NotPicked(BadFolder(resolved.error));
    }
    if v.records.None? {
      return NotPicked(FetchFailed);
    }
    var matches := AllInFolder(v.records.value, resolved.uid, name);
    if |matches| == 0 {
      return NotPicked(NoRecord);
    }
    if |matches| > 1 && strict {
      return NotPicked(Ambiguous(|matches|));
    }
    return Picked(matches[0]);
  }

  /** Its loop. */
  method AllInFolder(rs: seq<Record>, folder: string, name: string) returns (matches: seq<Record>)
    ensures matches == FolderMatches(rs, folder, name)
  {
    matches := [];
    for i := 0 to |rs|
      invariant matches == FolderMatches(rs[..i], folder, name)
    {
      assert rs[..i + 1][..i] == rs[..i];
      if InFolder(rs[i], folder) {
        if Answers(rs[i], name) {
          matches := matches + [rs[i]];
        }
      }
    }
    assert rs[..|rs|] == rs;
  }

  /** The record search of GetNotation, which stops at the first match. */
  method FindForNotation(v: Vault, np: NotationParts) returns (r: Pick)
    ensures r == ByPath(v, false, np.folderPath, np.recordName)
  {
    if v.folders.None? {
      return NotPicked(FetchFailed);
    }
    var tree := BuildFolderTree(v.folders.value);
    var resolved := tree.ResolvePath(np.folderPath, v.folders.value);
    if resolved.Failed? {
      return NotPicked(BadFolder(resolved.error));
    }
    if v.records.None? {
      return NotPicked(FetchFailed);
    }
    r := FirstInFolder(v.records.value, resolved.uid, np.recordName);
  }

  /** Its loop. */
  method FirstInFolder(rs: seq<Record>, folder: string, name: string) returns (r: Pick)
    ensures r == Choose(false, FolderMatches(rs, folder, name))
  {
    for i := 0 to |rs|
      invariant FolderMatches(rs[..i], folder, name) == []
    {
      assert rs[..i + 1][..i] == rs[..i];
      if InFolder(rs[i], folder) && Answers(rs[i], name) {
        FilterGrows(rs, i + 1, (r: Record) => InFolder(r, folder) && Answers(r, name));
        return Picked(rs[i]);
      }
    }
    assert rs[..|rs|] == rs;
    return NotPicked(NoRecord);
  }

  /** What a prefix of the list lets through comes first in what the whole list lets through. */
  lemma {:induction false} FilterGrows(rs: seq<Record>, k: nat, p: Record -> bool)
    requires k <= |rs|
    ensures Filter(rs[..k], p) <= Filter(rs, p)
    decreases |rs|
  {
    if k == |rs| {
      assert rs[..k] == rs;
    } else {
      var init := rs[..|rs| - 1];
      assert init[..k] == rs[..k];
      FilterGrows(init, k, p);
    }
  }

  /** Strict mode changes an answer only where several records match: it is an error for
      a lookup by path, while a notation takes the first of them. */
  lemma StrictOnlyWhenAmbiguous(v: Vault, folderPath: string, name: string)
    ensures ByPath(v, true, folderPath, name) != ByPath(v, false, folderPath, name) <==>
            v.folders.Some? && v.records.Some? && Resolve(v.folders.value, folderPath).Found? &&
            |FolderMatches(v.records.value, Resolve(v.folders.value, folderPath).uid, name)| > 1
  {
  }

  lemma {:induction false} FilterNone(rs: seq<Record>, p: Record -> bool)
    requires forall r :: r in rs ==> !p(r)
    ensures Filter(rs, p) == []
  {
    if rs != [] {
      FilterNone(rs[..|rs| - 1], p);
    }
  }

  /** The first match heads the matches. */
  lemma FirstMatchHeads(rs: seq<Record>, k: nat, p: Record -> bool)
    requires k < |rs| && p(rs[k]) && forall i :: 0 <= i < k ==> !p(rs[i])
    ensures Filter(rs, p) != [] && Filter(rs, p)[0] == rs[k]
  {
    FilterNone(rs[..k], p);
    assert rs[..k + 1][..k] == rs[..k];
    assert Filter(rs[..k + 1], p) == [rs[k]];
    FilterGrows(rs, k + 1, p);
  }

  // ---------- from the annotation to the record ----------

  /** The notation of a record in a folder is found again: printed into an annotation with any absolute
      output path free of ":/", it leads through both parsers and the folder tree back to that record,
      the first in its folder with that title or UID. */
  lemma AnnotationFindsRecord(key: string, path: string, v: Vault, u: string, n: nat, np: NotationParts, k: nat)
    requires HasPrefix(path, "/") && !Contains(path, ":/")
    requires v.folders.Some? && v.records.Some?
    requires AgreeOnParents(v.folders.value) && ChainLength(v.folders.value, u, n) && Visible(v.folders.value, u, n)
    requires AllComponents(PathNames(v.folders.value, u, n))
    requires forall f :: f in PathNames(v.folders.value, u, n) ==> !IsKeyword(f)
    requires np.hasKeeperURI && np.folderPath == JoinSlash(PathNames(v.folders.value, u, n))
    requires IsComponent(np.recordName) && !IsKeyword(np.recordName)
    requires np.selector == "" || IsKeyword(np.selector)
    requires np.parameter == "" || (IsComponent(np.parameter) && np.selector != "")
    requires k < |v.records.value| && InFolder(v.records.value[k], u) && Answers(v.records.value[k], np.recordName)
    requires forall i :: 0 <= i < k ==> !(InFolder(v.records.value[i], u) && Answers(v.records.value[i], np.recordName))
    ensures var ref := ParseSecretAnnotation(key, PrintNotation(np) + ":" + path);
            ref.path == path && ParseNotation(ref.notation) == Some(np)
    ensures ByPath(v, false, np.folderPath, np.recordName) == Picked(v.records.value[k])
  {
    var fs, rs := v.folders.value, v.records.value;
    var names := PathNames(fs, u, n);
    ComponentsOfJoin(names);
    AnnotationRoundTrip(key, np, path);
    GetPathThenResolve(fs, u, n);
    NamesToIs(fs, u, n);
    assert Resolve(fs, np.folderPath) == Found(u);
    FirstMatchHeads(rs, k, (r: Record) => InFolder(r, u) && Answers(r, np.recordName));
  }

  // ---------- by title or by UID ----------

  predicate IsUidChar(c: char) {
    'A' <= c <= 'Z' || 'a' <= c <= 'z' || '0' <= c <= '9' || c == '-' || c == '_'
  }

  /** The client's test: 22 letters, digits, dashes or underscores. */
  predicate ClientUID(s: string) {
    |s| == 22 && forall c :: c in s ==> IsUidChar(c)
  }

  method LooksLikeUID(s: string) returns (r: bool)
    ensures r <==> ClientUID(s)
  {
    if |s| != 22 {
      return false;
    }
    for i := 0 to |s|
      invariant forall c :: c in s[..i] ==> IsUidChar(c)
    {
      if (s[i] < 'A' || s[i] > 'Z') && (s[i] < 'a' || s[i] > 'z') && (s[i] < '0' || s[i] > '9') && s[i] != '-' &&
         s[i] != '_' {
        assert s[i] in s;
        return false;
      }
    }
    assert s[..|s|] == s;
    return true;
  }

  /** The record GetSecret finds for a title or UID. */
  function ByName(v: Vault, strict: bool, name: string): Pick {
    if v.records.None? then NotPicked(FetchFailed)
    else if ClientUID(name) then Choose(false, UidMatches(v.records.value, name))
    else Choose(strict, TitleMatches(v.records.value, name))
  }

  method GetSecretByTitle(v: Vault, strict: bool, title: string) returns (r: Pick)
    ensures r == if v.records.None? then NotPicked(FetchFailed)
            else Choose(strict, TitleMatches(v.records.value, title))
  {
    if v.records.None? {
      return NotPicked(FetchFailed);
    }
    var rs := v.records.value;
    var matches: seq<Record> := [];
    for i := 0 to |rs|
      invariant matches == TitleMatches(rs[..i], title)
    {
      assert rs[..i + 1][..i] == rs[..i];
      if rs[i].title == title {
        matches := matches + [rs[i]];
      }
    }
    assert rs[..|rs|] == rs;
    if |matches| == 0 {
      return NotPicked(NoRecord);
    }
    if |matches| > 1 && strict {
      return NotPicked(Ambiguous(|matches|));
    }
    return Picked(matches[0]);
  }

  method GetSecret(v: Vault, strict: bool, nameOrUID: string) returns (r: Pick)
    ensures r == ByName(v, strict, nameOrUID)
  {
    var uid := LooksLikeUID(nameOrUID);
    if uid {
      if v.records.None? {
        return NotPicked(FetchFailed);
      }
      var records := UidMatches(v.records.value, nameOrUID);
      return if |records| == 0 then NotPicked(NoRecord) else Picked(records[0]);
    }
    r := GetSecretByTitle(v, strict, nameOrUID);
  }
}
