/** Folder-path notation: "keeper://folder/.../record/selector/parameter". */
module Notation {
  import opened Text

  const KEEPER_PREFIX := "keeper://"
  const KEYWORDS := ["field", "custom_field", "file", "type", "title", "notes"]

  predicate IsKeyword(p: string) {
    p in KEYWORDS
  }

  datatype NotationParts = NotationParts(
    folderPath: string, recordName: string, selector: string, parameter: string, hasKeeperURI: bool)

  /** The position of the first selector keyword, or the number of parts. */
  function KeywordAt(parts: seq<string>): (k: nat)
    ensures k <= |parts|
    ensures k < |parts| ==> IsKeyword(parts[k])
    ensures forall i :: 0 <= i < k ==> !IsKeyword(parts[i])
  {
    if parts == [] || IsKeyword(parts[0]) then 0 else 1 + KeywordAt(parts[1..])
  }

  function ParseParts(parts: seq<string>, uri: bool): Option<NotationParts> {
    var n, k := |parts|, KeywordAt(parts);
    if n < 2 || (k < n && k < 2) then None
    else Some(NotationParts(
      JoinSlash(parts[..k - 1]), parts[k - 1],
      if k < n then parts[k] else "",
      if k + 1 < n then parts[k + 1] else "",
      uri))
  }

  function Body(notation: string): string {
    if HasPrefix(notation, KEEPER_PREFIX) then notation[|KEEPER_PREFIX|..] else notation
  }

  /** The folder, record, selector and parameter of a notation; None when it names no folder. */
  function ParseNotation(notation: string): Option<NotationParts> {
    ParseParts(Components(Body(notation)), HasPrefix(notation, KEEPER_PREFIX))
  }

  method ParseNotationPath(notation: string) returns (r: Option<NotationParts>)
    ensures r == ParseNotation(notation)
  {
    var rest, hasPrefix := notation, false;
    if HasPrefix(notation, KEEPER_PREFIX) {
      rest, hasPrefix := notation[|KEEPER_PREFIX|..], true;
    }
    var parts := FilterParts(SplitSlash(TrimSlash(rest)));
    ComponentsTrim(rest);
    r := AssignParts(parts, hasPrefix);
  }

  /** The second half of parseNotationPath, from the filtered parts on. */
  method AssignParts(parts: seq<string>, hasPrefix: bool) returns (r: Option<NotationParts>)
    ensures r == ParseParts(parts, hasPrefix)
  {
    if |parts| < 2 {
      return None;
    }
    var selectorIndex := FindSelector(parts);
    if selectorIndex == -1 {
      return Some(NotationParts(JoinSlash(parts[..|parts| - 1]), parts[|parts| - 1], "", "", hasPrefix));
    }
    if selectorIndex < 2 {
      return None;
    }
    var parameter := "";
    if |parts| > selectorIndex + 1 {
      parameter := parts[selectorIndex + 1];
    }
    return Some(NotationParts(JoinSlash(parts[..selectorIndex - 1]), parts[selectorIndex - 1], parts[selectorIndex],
      parameter, hasPrefix));
  }

  /** The keyword search of parseNotationPath: two nested loops that stop at the first hit. */
  method FindSelector(parts: seq<string>) returns (selectorIndex: int)
    ensures selectorIndex == if KeywordAt(parts) < |parts| then KeywordAt(parts) else -1
  {
    selectorIndex := -1;
    for i := 0 to |parts|
      invariant selectorIndex == -1 && forall j :: 0 <= j < i ==> !IsKeyword(parts[j])
    {
      for k := 0 to |KEYWORDS|
        invariant selectorIndex == -1 && parts[i] !in KEYWORDS[..k]
      {
        if parts[i] == KEYWORDS[k] {
          selectorIndex := i;
          break;
        }
      }
      if selectorIndex != -1 {
        break;
      }
      assert KEYWORDS[..|KEYWORDS|] == KEYWORDS;
    }
  }

  lemma UriBody(body: string)
    ensures HasPrefix(KEEPER_PREFIX + body, KEEPER_PREFIX) && Body(KEEPER_PREFIX + body) == body
  {
  }

  lemma UriSplit(s: string)
    requires HasPrefix(s, KEEPER_PREFIX)
    ensures s == KEEPER_PREFIX + Body(s)
  {
    assert s == s[..9] + s[9..];
  }

  // ---------- printing and parsing undo each other ----------

  function PrintBody(np: NotationParts): string {
    var record := np.folderPath + "/" + np.recordName;
    if np.selector == "" then record
    else if np.parameter == "" then record + "/" + np.selector
    else record + "/" + np.selector + "/" + np.parameter
  }

  function PrintNotation(np: NotationParts): string {
    if np.hasKeeperURI then KEEPER_PREFIX + PrintBody(np) else PrintBody(np)
  }

  /** Folders and record are path components that no selector is called; a parameter needs a selector. */
  predicate WellFormed(np: NotationParts) {
    var folders := Components(np.folderPath);
    folders != [] && np.folderPath == JoinSlash(folders) && (forall f :: f in folders ==> !IsKeyword(f)) &&
    IsComponent(np.recordName) && !IsKeyword(np.recordName) &&
    (np.selector == "" || IsKeyword(np.selector)) &&
    (np.parameter == "" || IsComponent(np.parameter)) &&
    (np.selector == "" ==> np.parameter == "")
  }

  function PartsOf(np: NotationParts): seq<string> {
    var record := Components(np.folderPath) + [np.recordName];
    if np.selector == "" then record
    else if np.parameter == "" then record + [np.selector]
    else record + [np.selector] + [np.parameter]
  }

  lemma PrintIsJoin(np: NotationParts)
    requires Components(np.folderPath) != [] && np.folderPath == JoinSlash(Components(np.folderPath))
    ensures PrintBody(np) == JoinSlash(PartsOf(np))
  {
    var record := Components(np.folderPath) + [np.recordName];
    JoinConcat(Components(np.folderPath), [np.recordName]);
    if np.selector != "" {
      JoinConcat(record, [np.selector]);
      if np.parameter != "" {
        JoinConcat(record + [np.selector], [np.parameter]);
      }
    }
  }

  lemma KeywordsAreComponents(p: string)
    requires IsKeyword(p)
    ensures IsComponent(p)
  {
  }

  lemma PartsAreComponents(np: NotationParts)
    requires WellFormed(np)
    ensures AllComponents(PartsOf(np))
  {
    if np.selector != "" {
      KeywordsAreComponents(np.selector);
    }
  }

  /** A joined list of components never reads as a keeper:// URI. */
  lemma JoinHasNoPrefix(parts: seq<string>)
    requires AllComponents(parts)
    ensures !HasPrefix(JoinSlash(parts), KEEPER_PREFIX)
  {
    JoinNoDoubleSlash(parts);
    if HasPrefix(JoinSlash(parts), KEEPER_PREFIX) {
      DoubleSlashInPrefix(JoinSlash(parts));
    }
  }

  lemma DoubleSlashInPrefix(s: string)
    requires HasPrefix(s, KEEPER_PREFIX)
    ensures s[7] == '/' && s[8] == '/'
  {
    assert s[7] == s[..9][7] && s[8] == s[..9][8];
  }

  lemma {:induction false} KeywordAtIs(parts: seq<string>, k: nat)
    requires k <= |parts| && (forall i :: 0 <= i < k ==> !IsKeyword(parts[i])) && (k < |parts| ==> IsKeyword(parts[k]))
    ensures KeywordAt(parts) == k
  {
  }

  /** The first keyword among the parts is the selector, so that they are read as they were written. */
  lemma PartsRead(np: NotationParts)
    requires WellFormed(np)
    ensures ParseParts(PartsOf(np), np.hasKeeperURI) == Some(np)
  {
    var parts, folders := PartsOf(np), Components(np.folderPath);
    assert parts[..|folders|] == folders;
    KeywordAtIs(parts, |folders| + 1);
  }

  lemma PrintThenParse(np: NotationParts)
    requires WellFormed(np)
    ensures ParseNotation(PrintNotation(np)) == Some(np)
  {
    PartsAreComponents(np);
    PartsRead(np);
    PrintIsJoin(np);
    JoinHasNoPrefix(PartsOf(np));
    ComponentsOfJoin(PartsOf(np));
    UriBody(PrintBody(np));
  }

  lemma NoKeywordBefore(parts: seq<string>)
    ensures forall f :: f in parts[..KeywordAt(parts)] ==> !IsKeyword(f)
  {
    var k := KeywordAt(parts);
    forall f | f in parts[..k] ensures !IsKeyword(f) {
      var i :| 0 <= i < k && parts[i] == f;
    }
  }

  lemma ComponentsOfPart(parts: seq<string>, k: nat)
    requires AllComponents(parts) && k <= |parts|
    ensures AllComponents(parts[..k]) && Components(JoinSlash(parts[..k])) == parts[..k]
  {
    assert forall p :: p in parts[..k] ==> p in parts;
    ComponentsOfJoin(parts[..k]);
  }

  lemma ParsedPartsAreWellFormed(parts: seq<string>, uri: bool)
    requires AllComponents(parts) && ParseParts(parts, uri).Some?
    ensures WellFormed(ParseParts(parts, uri).value)
  {
    var k := KeywordAt(parts);
    NoKeywordBefore(parts);
    CutAtRecord(parts, k);
    ComponentsOfPart(parts, k - 1);
    assert parts[k - 1] in parts;
    assert k + 1 < |parts| ==> parts[k + 1] in parts;
  }

  /** Whatever the parser accepts is well formed: the folder path is not empty, and neither
      a folder nor the record is called like a selector. */
  lemma ParsedIsWellFormed(s: string)
    requires ParseNotation(s).Some?
    ensures WellFormed(ParseNotation(s).value)
  {
    ParsedPartsAreWellFormed(Components(Body(s)), HasPrefix(s, KEEPER_PREFIX));
  }

  /** The parts that survive printing and parsing are exactly the well-formed ones. */
  lemma RoundTripIffWellFormed(np: NotationParts)
    ensures ParseNotation(PrintNotation(np)) == Some(np) <==> WellFormed(np)
  {
    if WellFormed(np) {
      PrintThenParse(np);
    }
    if ParseNotation(PrintNotation(np)) == Some(np) {
      ParsedIsWellFormed(PrintNotation(np));
    }
  }

  /** Printing what was parsed and parsing again gives the same parts. */
  lemma CanonicalFormIsStable(s: string)
    requires ParseNotation(s).Some?
    ensures ParseNotation(PrintNotation(ParseNotation(s).value)) == ParseNotation(s)
  {
    ParsedIsWellFormed(s);
    PrintThenParse(ParseNotation(s).value);
  }

  // ---------- extra slashes ----------

  lemma PrefixOfConcat(a: string, b: string)
    ensures HasPrefix(a + "/" + b, KEEPER_PREFIX) <==>
            HasPrefix(a, KEEPER_PREFIX) || a == "keeper:/" || (a == "keeper:" && HasPrefix(b, "/"))
  {
    var s, p := a + "/" + b, KEEPER_PREFIX;
    if |a| >= 9 {
      assert s[..9] == a[..9];
    } else if |a| == 8 {
      assert s[..9] == a + "/";
      assert p == "keeper:/" + "/";
      assert s[..9] == p ==> a == s[..9][..8] == p[..8];
    } else if |a| == 7 {
      if HasPrefix(s, p) {
        assert a == s[..9][..7] == p[..7];
        assert b[0] == s[8] == s[..9][8];
      }
      if a == "keeper:" && HasPrefix(b, "/") {
        assert s == "keeper:/" + b && b[0] == b[..1][0] == '/';
        assert s[..9] == "keeper:/" + [b[0]];
      }
    } else {
      assert s[|a|] == '/';
    }
  }

  /** Doubling a slash changes nothing, but for one family: the doubled slash turns a first component
      "keeper:" into the URI prefix. Then the notation keeps its meaning (none) exactly when what follows
      has no component or begins with a selector keyword. */
  lemma DoubledSlash(a: string, b: string)
    ensures ParseNotation(a + "/" + ("/" + b)) == ParseNotation(a + "/" + b) <==>
            a != "keeper:" || HasPrefix(b, "/") || Components(b) == [] || IsKeyword(Components(b)[0])
  {
    OuterSlash(b);
    if a == "keeper:" {
      DoubledAfterScheme(b);
    } else {
      DoubledElsewhere(a, b);
    }
  }

  lemma DoubledElsewhere(a: string, b: string)
    requires a != "keeper:"
    ensures ParseNotation(a + "/" + ("/" + b)) == ParseNotation(a + "/" + b)
  {
    OuterSlash(b);
    if HasPrefix(a, KEEPER_PREFIX) {
      DoubledInUri(a, b);
    } else if a == "keeper:/" {
      assert a + "/" + b == KEEPER_PREFIX + b && a + "/" + ("/" + b) == KEEPER_PREFIX + ("/" + b);
      UriBody(b);
      UriBody("/" + b);
    } else {
      PrefixOfConcat(a, b);
      PrefixOfConcat(a, "/" + b);
      ComponentsConcat(a, b);
      ComponentsConcat(a, "/" + b);
    }
  }

  lemma DoubledInUri(a: string, b: string)
    requires HasPrefix(a, KEEPER_PREFIX)
    ensures ParseNotation(a + "/" + ("/" + b)) == ParseNotation(a + "/" + b)
  {
    var body := Body(a);
    UriSplit(a);
    assert a + "/" + b == KEEPER_PREFIX + (body + "/" + b);
    assert a + "/" + ("/" + b) == KEEPER_PREFIX + (body + "/" + ("/" + b));
    UriBody(body + "/" + b);
    UriBody(body + "/" + ("/" + b));
    ComponentsConcat(body, b);
    ComponentsConcat(body, "/" + b);
    OuterSlash(b);
  }

  lemma OneMorePart(p: string, c: seq<string>)
    requires !IsKeyword(p)
    ensures ParseParts(c, true) == ParseParts([p] + c, false) <==> c == [] || IsKeyword(c[0])
  {
    var parts := [p] + c;
    assert parts[1..] == c;
    assert KeywordAt(parts) == 1 + KeywordAt(c);
  }

  lemma DoubledAfterScheme(b: string)
    ensures ParseNotation("keeper:" + "/" + ("/" + b)) == ParseNotation("keeper:" + "/" + b) <==>
            HasPrefix(b, "/") || Components(b) == [] || IsKeyword(Components(b)[0])
  {
    assert "keeper:" + "/" + ("/" + b) == KEEPER_PREFIX + b;
    UriBody(b);
    if HasPrefix(b, "/") {
      assert b == "/" + b[1..] && "keeper:" + "/" + b == KEEPER_PREFIX + b[1..];
      UriBody(b[1..]);
      OuterSlash(b[1..]);
    } else {
      SchemeAsFolder(b);
      OneMorePart("keeper:", Components(b));
    }
  }

  lemma SchemeAsFolder(b: string)
    requires !HasPrefix(b, "/")
    ensures ParseNotation("keeper:" + "/" + b) == ParseParts(["keeper:"] + Components(b), false)
  {
    PrefixOfConcat("keeper:", b);
    ComponentsConcat("keeper:", b);
    ComponentsOfOne("keeper:");
  }

  /** A slash at the end changes nothing. */
  lemma TrailingSlash(s: string)
    ensures ParseNotation(s + "/") == ParseNotation(s)
  {
    OuterSlash(s);
    if HasPrefix(s, KEEPER_PREFIX) {
      UriSplit(s);
      assert s + "/" == KEEPER_PREFIX + (Body(s) + "/");
      UriBody(Body(s));
      UriBody(Body(s) + "/");
      OuterSlash(Body(s));
    } else if s == "keeper:/" {
      assert s == "keeper:" + "/" && s + "/" == KEEPER_PREFIX + "";
      UriBody("");
      OuterSlash("keeper:");
      ComponentsOfOne("keeper:");
    } else {
      assert s + "/" == s + "/" + "";
      PrefixOfConcat(s, "");
    }
  }

  // ---------- in plain words ----------

  /** The words that end the record part. */
  predicate IsSelectorWord(p: string) {
    p == "field" || p == "custom_field" || p == "file" || p == "type" || p == "title" || p == "notes"
  }

  /** The parts are folders, a record, and, if there are more, a selector word, perhaps a parameter, and anything. */
  predicate ReadsAs(parts: seq<string>, folders: seq<string>, rest: seq<string>, np: NotationParts) {
    parts == folders + [np.recordName] + rest && folders != [] && np.folderPath == JoinSlash(folders) &&
    (forall f :: f in folders ==> !IsSelectorWord(f)) && !IsSelectorWord(np.recordName) &&
    (if rest == [] then np.selector == "" && np.parameter == ""
     else
       IsSelectorWord(rest[0]) && np.selector == rest[0] && np.parameter == if |rest| > 1 then rest[1] else "")
  }

  lemma SelectorWords(p: string)
    ensures IsKeyword(p) <==> IsSelectorWord(p)
  {
    assert KEYWORDS[0] == "field" && KEYWORDS[1] == "custom_field" && KEYWORDS[2] == "file";
    assert KEYWORDS[3] == "type" && KEYWORDS[4] == "title" && KEYWORDS[5] == "notes";
  }

  lemma NoneBefore(parts: seq<string>)
    ensures forall f :: f in parts[..KeywordAt(parts)] ==> !IsSelectorWord(f)
    ensures KeywordAt(parts) < |parts| ==> IsSelectorWord(parts[KeywordAt(parts)])
  {
    var k := KeywordAt(parts);
    forall f | f in parts[..k] ensures !IsSelectorWord(f) {
      var i :| 0 <= i < k && parts[i] == f;
      SelectorWords(f);
    }
    if k < |parts| {
      SelectorWords(parts[k]);
    }
  }

  lemma CutAtRecord(parts: seq<string>, k: nat)
    requires 0 < k <= |parts|
    ensures parts == parts[..k - 1] + [parts[k - 1]] + parts[k..]
    ensures forall f :: f in parts[..k - 1] ==> f in parts[..k]
    ensures parts[k - 1] in parts[..k]
  {
    assert parts[..k][..k - 1] == parts[..k - 1] && parts[..k][k - 1] == parts[k - 1];
  }

  lemma ParsedReads(parts: seq<string>, uri: bool)
    requires ParseParts(parts, uri).Some?
    ensures exists folders, rest :: ReadsAs(parts, folders, rest, ParseParts(parts, uri).value)
  {
    var k := KeywordAt(parts);
    NoneBefore(parts);
    CutAtRecord(parts, k);
    assert ReadsAs(parts, parts[..k - 1], parts[k..], ParseParts(parts, uri).value);
  }

  lemma ReadingKeyword(parts: seq<string>, folders: seq<string>, rest: seq<string>, np: NotationParts)
    requires ReadsAs(parts, folders, rest, np)
    ensures KeywordAt(parts) == |folders| + 1
  {
    var k := |folders| + 1;
    forall i | 0 <= i < k ensures !IsKeyword(parts[i]) {
      SelectorWords(parts[i]);
      assert i < |folders| ==> parts[i] == folders[i] && folders[i] in folders;
    }
    if rest != [] {
      assert parts[k] == rest[0];
      SelectorWords(parts[k]);
    }
    KeywordAtIs(parts, k);
  }

  lemma ReadsParsed(parts: seq<string>, folders: seq<string>, rest: seq<string>, np: NotationParts)
    requires ReadsAs(parts, folders, rest, np)
    ensures ParseParts(parts, np.hasKeeperURI) == Some(np)
  {
    var k := |folders| + 1;
    ReadingKeyword(parts, folders, rest, np);
    assert parts[..k - 1] == folders && parts[k - 1] == np.recordName;
    assert rest != [] ==> parts[k] == rest[0];
    assert |rest| > 1 ==> parts[k + 1] == rest[1];
  }

  /** What a notation is parsed as: after the scheme, if there is one, its components are at least one folder, then the
      record, none of them a selector word; then, if there are more, a selector word, perhaps a parameter, and whatever
      follows. A notation of any other shape is not accepted. */
  lemma ParsedIff(s: string, np: NotationParts)
    ensures var parts := Components(if "keeper://" <= s then s[9..] else s);
            ParseNotation(s) == Some(np) <==>
            np.hasKeeperURI == ("keeper://" <= s) && exists folders, rest :: ReadsAs(parts, folders, rest, np)
  {
    var parts := Components(Body(s));
    if ParseNotation(s) == Some(np) {
      ParsedReads(parts, np.hasKeeperURI);
    }
    if folders, rest :| ReadsAs(parts, folders, rest, np) {
      ReadsParsed(parts, folders, rest, np);
    }
  }
}
