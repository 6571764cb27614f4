/** Fetching a whole folder: which records it yields and what their files are called. */
module FolderFetch {
  import opened Text
  import opened FolderModel
  import opened FolderTree
  import opened Records

  // ---------- file names ----------

  predicate IsFileNameChar(c: char) {
    'a' <= c <= 'z' || 'A' <= c <= 'Z' || '0' <= c <= '9' || c == '-' || c == '_' || c == '.'
  }

  predicate AllFileNameChars(name: string) {
    forall c :: c in name ==> IsFileNameChar(c)
  }

  /** The title with spaces as dashes and other unsafe characters dropped. */
  function SafeName(title: string): string {
    if title == "" then ""
    else
      var n := |title| - 1;
      SafeName(title[..n]) + if IsFileNameChar(title[n]) then [title[n]] else if title[n] == ' ' then "-" else ""
  }

  /** Only file name characters are left, and a title of such characters stays as it is. */
  lemma {:induction false} SafeNameIsSafe(title: string)
    ensures AllFileNameChars(SafeName(title))
    ensures AllFileNameChars(title) <==> SafeName(title) == title
  {
    if title != "" {
      var n := |title| - 1;
      SafeNameIsSafe(title[..n]);
      assert title == title[..n] + [title[n]];
      SafeNameShrinks(title[..n]);
    }
  }

  lemma {:induction false} SafeNameShrinks(title: string)
    ensures |SafeName(title)| <= |title|
  {
    if title != "" {
      SafeNameShrinks(title[..|title| - 1]);
    }
  }

  lemma SafeNameGrows(name: string, i: nat)
    requires i < |name|
    ensures SafeName(name[..i + 1]) == SafeName(name[..i]) +
            if IsFileNameChar(name[i]) then [name[i]] else if name[i] == ' ' then "-" else ""
  {
    assert name[..i + 1][..i] == name[..i];
  }

  method SanitizeFilename(name: string) returns (safe: string)
    ensures safe == SafeName(name)
  {
    safe := "";
    var i := 0;
    while i < |name|
      invariant i <= |name| && safe == SafeName(name[..i])
    {
      var c := name[i];
      SafeNameGrows(name, i);
      if 'a' <= c <= 'z' || 'A' <= c <= 'Z' || '0' <= c <= '9' || c == '-' || c == '_' || c == '.' {
        safe := safe + [c];
      } else if c == ' ' {
        safe := safe + "-";
      }
      i := i + 1;
    }
    assert name[..|name|] == name;
  }

  /** The path of a folder record's file; the directory is taken as clean. */
  function FilePath(dir: string, title: string): string {
    dir + "/" + (SafeName(title) + ".json")
  }

  // ---------- which records ----------

  /** The UID of the folder meant: the one given, or the one its path resolves to. */
  function FolderMeant(v: Vault, folderUID: string, folderPath: string): Option<string> {
    if folderUID == "" && folderPath != "" then
      if v.folders.None? then None
      else
        match Resolve(v.folders.value, folderPath)
        case Failed(_) => None
        case Found(u) => if u == "" then None else Some(u)
    else if folderUID == "" then None
    else Some(folderUID)
  }

  /** The records directly in the folder, or None where the fetch fails. */
  function FolderRecords(v: Vault, folderUID: string, folderPath: string): Option<seq<Record>> {
    match FolderMeant(v, folderUID, folderPath)
    case None => None
    case Some(u) => if v.records.None? then None else Some(Filter(v.records.value, (r: Record) => InFolder(r, u)))
  }

  method FetchFolderRecords(v: Vault, folderUID: string, folderPath: string) returns (r: Option<seq<Record>>)
    ensures r == FolderRecords(v, folderUID, folderPath)
  {
    var uid := folderUID;
    if uid == "" && folderPath != "" {
      if v.folders.None? {
        return None;
      }
      var tree := BuildFolderTree(v.folders.value);
      var resolved := tree.ResolvePath(folderPath, v.folders.value);
      if resolved.Failed? {
        return None;
      }
      uid := resolved.uid;
    }
    if uid == "" || v.records.None? {
      return None;
    }
    var rs := v.records.value;
    var secrets: seq<Record> := [];
    for i := 0 to |rs|
      invariant secrets == Filter(rs[..i], (x: Record) => InFolder(x, uid))
    {
      assert rs[..i + 1][..i] == rs[..i];
      if rs[i].folderUid == uid || rs[i].innerFolderUid == uid {
        secrets := secrets + [rs[i]];
      }
    }
    assert rs[..|rs|] == rs;
    r := Some(secrets);
  }
}
