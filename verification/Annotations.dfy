/** Pod annotation values: what record, field and output path they name. */
module Annotations {
  import opened Text
  import opened Notation

  const DEFAULT_SECRETS_PATH := "/keeper/secrets"

  datatype SecretRef = SecretRef(
    name: string, path: string, fields: seq<string>, format: string,
    notation: string, fileName: string, isFile: bool,
    injectAsK8sSecret: bool, k8sSecretName: string, k8sSecretKeys: map<string, string>, k8sSecretType: string)

  function NewRef(name: string, format: string): SecretRef {
    SecretRef(name, "", [], format, "", "", false, false, "", map[], "")
  }

  function LowerChar(c: char): char {
    if 'A' <= c <= 'Z' then (c as int + 32) as char else c
  }

  predicate IsAscii(s: string) {
    forall c :: c in s ==> c < 128 as char
  }

  /** A file name without spaces, slashes and ASCII capitals; as long as the name if that is ASCII. Letters beyond
      ASCII, whose lower case may have another length, are left as they are here. */
  function SanitizeName(name: string): (r: string)
    ensures IsAscii(name) ==> |r| == |name|
    ensures forall c :: c in r ==> c != ' ' && c != '/' && !('A' <= c <= 'Z')
  {
    seq(|name|, i requires 0 <= i < |name| => if name[i] == ' ' || name[i] == '/' then '-' else LowerChar(name[i]))
  }

  /** Where an annotation value is cut into notation and output path: the last ":/", unless it comes first. */
  function SplitOutput(body: string): (string, string) {
    var i := LastIndex(body, ":/");
    if i > 0 then (body[..i], body[i + 1..]) else (body, "")
  }

  /** The text before the first slash, unless that comes first. */
  function BeforeSlash(rest: string): string {
    var i := Index(rest, "/");
    if i > 0 then rest[..i] else rest
  }

  function ExtractRecord(notation: string): string {
    BeforeSlash(Body(notation))
  }

  function FileNameIn(notation: string): string {
    var i := Index(notation, "/file/");
    if i < 0 then ""
    else
      assert HasPrefix(notation[i..], "/file/");
      var file := notation[i + 6..];
      var bracket := Index(file, "[");
      if bracket > 0 then file[..bracket] else file
  }

  function ParseKeeperNotation(name: string, value: string): SecretRef {
    var uri := HasPrefix(value, KEEPER_PREFIX);
    var (body, outputPath) := SplitOutput(Body(value));
    var notation := if uri then KEEPER_PREFIX + body else body;
    var record := ExtractRecord(notation);
    NewRef(if record != "" then record else name, "raw").(
      notation := notation,
      isFile := Contains(notation, "/file/"),
      fileName := FileNameIn(notation),
      path := if outputPath != "" then outputPath else DEFAULT_SECRETS_PATH + "/" + SanitizeName(name))
  }

  predicate IsKeeperNotation(value: string) {
    HasPrefix(value, KEEPER_PREFIX) || (HasPrefix(value, "/") && Contains(value, "/field/"))
  }

  predicate HasFieldForm(value: string) {
    Contains(value, "[") && Contains(value, "]:")
  }

  /** The record and the field of "record[field]". */
  function WithBracketedField(ref: SecretRef, recordAndField: string): SecretRef {
    var bracket := Index(recordAndField, "[");
    if bracket > 0 then
      ref.(name := recordAndField[..bracket], fields := [recordAndField[bracket + 1..]], format := "raw")
    else ref
  }

  /** "record[field]:path", cut at the first "]:". */
  function ParseFieldForm(ref: SecretRef, value: string): SecretRef
    requires HasFieldForm(value)
  {
    var end := Index(value, "]:");
    WithBracketedField(ref.(path := value[end + 2..]), value[..end])
  }

  /** "record:path", cut at the last colon, or a path alone. */
  function ParseRecordForm(ref: SecretRef, value: string): SecretRef {
    if HasPrefix(value, "/") then ref.(path := value)
    else
      var colon := LastIndex(value, ":");
      if colon > 0 && HasPrefix(value[colon..], ":/") then ref.(name := value[..colon], path := value[colon + 1..])
      else ref.(path := value)
  }

  /** The forms other than Keeper notation, before the default path is filled in. */
  function ParsePlain(name: string, value: string): SecretRef {
    if HasFieldForm(value) then ParseFieldForm(NewRef(name, "json"), value)
    else ParseRecordForm(NewRef(name, "json"), value)
  }

  function WithDefaultPath(name: string, ref: SecretRef): SecretRef {
    if ref.path == "" then ref.(path := DEFAULT_SECRETS_PATH + "/" + SanitizeName(name) + ".json") else ref
  }

  function ParseSecretAnnotation(name: string, value: string): SecretRef {
    if IsKeeperNotation(value) then ParseKeeperNotation(name, value)
    else WithDefaultPath(name, ParsePlain(name, value))
  }

  // ---------- cutting at a separator ----------

  lemma PrefixAt(s: string, sub: string, i: nat)
    requires i <= |s|
    ensures HasPrefix(s[i..], sub) <==> i + |sub| <= |s| && s[i..i + |sub|] == sub
  {
    assert i + |sub| <= |s| ==> s[i..][..|sub|] == s[i..i + |sub|];
  }

  lemma CharAt(s: string, c: char, i: nat)
    requires i <= |s|
    ensures HasPrefix(s[i..], [c]) <==> i < |s| && s[i] == c
  {
    assert i < |s| ==> s[i..][..1] == [s[i]];
  }

  /** The last ":/" of a notation followed by ":" and an absolute path is the one between the two,
      exactly when the path holds no other. */
  lemma CutAtPath(body: string, path: string)
    requires body != "" && HasPrefix(path, "/")
    ensures SplitOutput(body + ":" + path) == (body, path) <==> !Contains(path, ":/")
  {
    var s, n := body + ":" + path, |body|;
    var last := LastIndex(s, ":/");
    assert path[0] == path[..1][0] == '/';
    assert s[n..n + 2] == ":/";
    PrefixAt(s, ":/", n);
    if Contains(path, ":/") {
      var i := Index(path, ":/");
      assert s[n + 1..] == path && s[n + 1 + i..] == path[i..];
      assert last > n;
    } else {
      forall i | n < i <= |s| ensures !HasPrefix(s[i..], ":/") {
        assert s[i..] == path[i - n - 1..];
      }
      assert last == n;
      assert s[..n] == body && s[n + 1..] == path;
    }
  }

  // ---------- Keeper notation ----------

  lemma FirstSlash(record: string, rest: string)
    requires IsComponent(record)
    ensures BeforeSlash(record + "/" + rest) == record
  {
    var s, n := record + "/" + rest, |record|;
    CharAt(s, '/', n);
    forall i | 0 <= i < n ensures !HasPrefix(s[i..], "/") {
      CharAt(s, '/', i);
      assert s[i] == record[i];
    }
    assert Index(s, "/") == n;
  }

  lemma PrintBodyStarts(np: NotationParts)
    requires WellFormed(np)
    ensures BeforeSlash(PrintBody(np)) == Components(np.folderPath)[0] != ""
  {
    var parts := PartsOf(np);
    PrintIsJoin(np);
    PartsAreComponents(np);
    assert IsComponent(parts[0]);
    FirstSlash(parts[0], JoinSlash(parts[1..]));
  }

  /** The output path and the notation of an annotation in URI form are those the cut yields. */
  lemma UriAnnotation(name: string, body: string, path: string)
    requires body != "" && HasPrefix(path, "/")
    ensures var ref := ParseSecretAnnotation(name, KEEPER_PREFIX + (body + ":" + path));
            ref.format == "raw" && (ref.notation == KEEPER_PREFIX + body && ref.path == path <==> !Contains(path, ":/"))
  {
    UriBody(body + ":" + path);
    CutAtPath(body, path);
    var (b, p) := SplitOutput(body + ":" + path);
    UriBody(b);
    UriBody(body);
    assert path[0] == path[..1][0];
  }

  /** "keeper://…:path" with an absolute path gives back the notation and the path exactly when the path
      holds no ":/"; components may hold colons. The notation then parses to the printed parts. */
  lemma AnnotationRoundTrip(name: string, np: NotationParts, path: string)
    requires WellFormed(np) && np.hasKeeperURI && HasPrefix(path, "/")
    ensures var ref := ParseSecretAnnotation(name, PrintNotation(np) + ":" + path);
            (ref.notation == PrintNotation(np) && ref.path == path <==> !Contains(path, ":/")) &&
            (!Contains(path, ":/") ==> ParseNotation(ref.notation) == Some(np) && ref.format == "raw")
  {
    Reassociate(KEEPER_PREFIX, PrintBody(np), path);
    UriAnnotation(name, PrintBody(np), path);
    PrintThenParse(np);
  }

  lemma Reassociate(scheme: string, body: string, path: string)
    ensures scheme + body + ":" + path == scheme + (body + ":" + path)
  {
  }

  /** Every folder notation under one top folder gets that folder's name as its Name,
      whatever folder, record or field below it is meant. */
  lemma NameIsTopFolder(name: string, np: NotationParts, path: string)
    requires WellFormed(np) && np.hasKeeperURI && HasPrefix(path, "/") && !Contains(path, ":/")
    ensures ParseSecretAnnotation(name, PrintNotation(np) + ":" + path).name == Components(np.folderPath)[0]
  {
    AnnotationRoundTrip(name, np, path);
    AnnotationHasScheme(np, path);
    NameIsExtracted(name, PrintNotation(np) + ":" + path);
    UriBody(PrintBody(np));
    PrintBodyStarts(np);
  }

  lemma AnnotationHasScheme(np: NotationParts, path: string)
    requires np.hasKeeperURI
    ensures HasPrefix(PrintNotation(np) + ":" + path, KEEPER_PREFIX)
  {
  }

  lemma NameIsExtracted(name: string, value: string)
    requires HasPrefix(value, KEEPER_PREFIX)
    ensures var ref := ParseSecretAnnotation(name, value);
            ref.name == if ExtractRecord(ref.notation) != "" then ExtractRecord(ref.notation) else name
  {
  }

  predicate EndsInColon(p: string) {
    p != "" && p[|p| - 1] == ':'
  }

  /** Some component before the last one ends in a colon. */
  ghost predicate ColonBefore(parts: seq<string>) {
    exists j :: 0 <= j < |parts| - 1 && EndsInColon(parts[j])
  }

  /** Some component between the first and the last ends in a colon. */
  ghost predicate ColonWithin(parts: seq<string>) {
    exists j :: 0 < j < |parts| - 1 && EndsInColon(parts[j])
  }

  lemma ColonInRest(parts: seq<string>)
    requires |parts| > 1
    ensures ColonWithin(parts) <==> ColonBefore(parts[1..])
  {
    var rest := parts[1..];
    if ColonBefore(rest) {
      var j :| 0 <= j < |rest| - 1 && EndsInColon(rest[j]);
      assert EndsInColon(parts[j + 1]);
    }
    if ColonWithin(parts) {
      var j :| 0 < j < |parts| - 1 && EndsInColon(parts[j]);
      assert EndsInColon(rest[j - 1]);
    }
  }

  /** The ":/" in a join stand after the parts that end in a colon. */
  lemma {:induction false} ColonSlashInJoin(parts: seq<string>)
    requires AllComponents(parts)
    ensures Contains(JoinSlash(parts), ":/") <==> ColonBefore(parts)
  {
    if |parts| > 1 {
      var p, rest := parts[0], parts[1..];
      assert IsComponent(p) && AllComponents(rest);
      ColonSlashInJoin(rest);
      ColonSlashInTwo(p, JoinSlash(rest));
      ColonInRest(parts);
      assert ColonBefore(parts) <==> EndsInColon(p) || ColonWithin(parts);
    } else if |parts| == 1 {
      assert IsComponent(parts[0]);
      NoSlashNoCut(parts[0]);
    }
  }

  lemma ColonSlashAt(s: string, i: nat)
    requires i <= |s|
    ensures HasPrefix(s[i..], ":/") <==> i + 1 < |s| && s[i] == ':' && s[i + 1] == '/'
  {
    PrefixAt(s, ":/", i);
    if i + 1 < |s| {
      assert s[i..i + 2] == [s[i], s[i + 1]] && ":/" == [':', '/'];
      assert [s[i], s[i + 1]] == [':', '/'] <==> s[i] == ':' && s[i + 1] == '/' by {
        assert [s[i], s[i + 1]][0] == s[i] && [s[i], s[i + 1]][1] == s[i + 1];
      }
    }
  }

  lemma NoSlashNoCut(p: string)
    requires '/' !in p
    ensures !Contains(p, ":/")
  {
    forall i | 0 <= i <= |p| ensures !HasPrefix(p[i..], ":/") {
      ColonSlashAt(p, i);
    }
  }

  lemma ColonSlashInTwo(p: string, s: string)
    requires IsComponent(p)
    ensures Contains(p + "/" + s, ":/") <==> EndsInColon(p) || Contains(s, ":/")
  {
    var whole, n := p + "/" + s, |p|;
    if EndsInColon(p) {
      assert whole[n - 1..n + 1] == ":/";
      PrefixAt(whole, ":/", n - 1);
    } else if Contains(s, ":/") {
      assert whole[n + 1 + Index(s, ":/")..] == s[Index(s, ":/")..];
    } else {
      forall i | 0 <= i <= |whole| ensures !HasPrefix(whole[i..], ":/") {
        ColonSlashAt(whole, i);
        assert i > n ==> whole[i..] == s[i - n - 1..];
      }
    }
  }

  /** The last ":/" comes first exactly when there is none after the first character. */
  lemma LastComesFirst(s: string)
    requires s != ""
    ensures LastIndex(s, ":/") <= 0 <==> !Contains(s[1..], ":/")
  {
    var last := LastIndex(s, ":/");
    if last > 0 {
      assert s[last..] == s[1..][last - 1..];
    }
    forall i | 0 <= i < |s| ensures s[i + 1..] == s[1..][i..] {
    }
  }

  /** Without an output path the notation is kept whole exactly when no component before the last ends in a colon,
      the top folder apart if it is called ":". Otherwise it is cut at the last such component. */
  lemma NotationWithoutPath(name: string, np: NotationParts)
    requires WellFormed(np) && np.hasKeeperURI
    ensures var parts := PartsOf(np);
            ParseSecretAnnotation(name, PrintNotation(np)).notation == PrintNotation(np) <==>
            !ColonWithin(parts) && (EndsInColon(parts[0]) ==> parts[0] == ":")
  {
    var parts := PartsOf(np);
    UriBody(PrintBody(np));
    PrintIsJoin(np);
    PartsAreComponents(np);
    LastComesFirst(PrintBody(np));
    NoLateColon(parts);
  }

  lemma NoLateColon(parts: seq<string>)
    requires AllComponents(parts) && |parts| > 1
    ensures JoinSlash(parts) != ""
    ensures Contains(JoinSlash(parts)[1..], ":/") <==> ColonWithin(parts) || (EndsInColon(parts[0]) && parts[0] != ":")
  {
    assert IsComponent(parts[0]) && AllComponents(parts[1..]);
    ColonSlashInJoin(parts[1..]);
    ColonInRest(parts);
    CutPastFirst(parts[0], JoinSlash(parts[1..]));
  }

  lemma CutPastFirst(p: string, s: string)
    requires IsComponent(p)
    ensures Contains((p + "/" + s)[1..], ":/") <==> Contains(s, ":/") || (EndsInColon(p) && p != ":")
  {
    if |p| == 1 {
      assert (p + "/" + s)[1..] == "/" + s;
      SlashBefore(s);
      assert p == [p[0]];
    } else {
      assert (p + "/" + s)[1..] == p[1..] + "/" + s;
      ColonSlashInTwo(p[1..], s);
    }
  }

  lemma SlashBefore(s: string)
    ensures Contains("/" + s, ":/") <==> Contains(s, ":/")
  {
    var t := "/" + s;
    if Contains(s, ":/") {
      assert t[Index(s, ":/") + 1..] == s[Index(s, ":/")..];
    }
    if Contains(t, ":/") {
      var i := Index(t, ":/");
      PrefixAt(t, ":/", i);
      assert t[i] == t[i..i + 2][0] == ':';
      assert s[i - 1..] == t[i..];
    }
  }

  // ---------- file notation ----------

  const FILE_SELECTOR := "/file/"

  /** An occurrence of "/file/" means a component "file". */
  lemma FileComponent(s: string, i: nat)
    requires i <= |s| && HasPrefix(s[i..], FILE_SELECTOR)
    ensures i + 6 <= |s| && Components(s) == Components(s[..i]) + (["file"] + Components(s[i + 6..]))
  {
    PrefixAt(s, FILE_SELECTOR, i);
    var rest := "file" + "/" + s[i + 6..];
    assert s == s[..i] + "/" + rest by {
      assert s[i..i + 6] == "/" + "file" + "/";
      assert s == s[..i] + s[i..i + 6] + s[i + 6..];
    }
    ComponentsConcat(s[..i], rest);
    ComponentsConcat("file", s[i + 6..]);
    ComponentsOfOne("file");
  }

  lemma SchemeComponent(s: string)
    ensures Components(KEEPER_PREFIX + s) == ["keeper:"] + Components(s)
  {
    assert KEEPER_PREFIX + s == "keeper:" + "/" + ("/" + s);
    ComponentsConcat("keeper:", "/" + s);
    OuterSlash(s);
    ComponentsOfOne("keeper:");
  }

  /** A text that does not end in a slash has a component after any slash in it. */
  lemma SomethingAfter(s: string, i: nat)
    requires i < |s| && s[|s| - 1] != '/'
    ensures Components(s[i..]) != []
  {
    SplitLast(s[i..]);
  }

  lemma {:induction false} SplitLast(s: string)
    requires s != "" && s[|s| - 1] != '/'
    ensures Components(s) != []
  {
    if |s| == 1 {
      assert IsComponent(s);
      ComponentsOfOne(s);
    } else {
      SplitLast(s[1..]);
      if s[0] == '/' {
        assert s == "/" + s[1..];
        OuterSlash(s[1..]);
      } else {
        var rest := SplitSlash(s[1..]);
        assert SplitSlash(s) == [[s[0]] + rest[0]] + rest[1..];
      }
    }
  }

  lemma PrintEndsPlain(np: NotationParts)
    requires WellFormed(np)
    ensures PrintNotation(np) != "" && PrintNotation(np)[|PrintNotation(np)| - 1] != '/'
  {
    PartsAreComponents(np);
    var last := if np.selector == "" then np.recordName else if np.parameter == "" then np.selector else np.parameter;
    KeywordsOrNot(np, last);
    var s := PrintBody(np);
    assert s[|s| - |last|..] == last;
    assert s[|s| - 1] == last[|last| - 1];
  }

  lemma KeywordsOrNot(np: NotationParts, last: string)
    requires WellFormed(np) && (last == np.recordName || (last == np.selector != "") || (last == np.parameter != ""))
    ensures IsComponent(last)
  {
    if last == np.selector && last != "" {
      KeywordsAreComponents(last);
    }
  }

  /** A notation is taken for a file download exactly when its selector is "file" and it names the file. */
  lemma FileNotationIff(np: NotationParts)
    requires WellFormed(np) && np.hasKeeperURI
    ensures Contains(PrintNotation(np), FILE_SELECTOR) <==> np.selector == "file" && np.parameter != ""
  {
    var n, parts := PrintNotation(np), PartsOf(np);
    PrintIsJoin(np);
    PartsAreComponents(np);
    ComponentsOfJoin(parts);
    SchemeComponent(PrintBody(np));
    if Contains(n, FILE_SELECTOR) {
      var j := Index(n, FILE_SELECTOR);
      FileComponent(n, j);
      PrintEndsPlain(np);
      AfterFile(n, j);
      FileIsSelector(np, Components(n[..j]), Components(n[j + 6..]));
    }
    if np.selector == "file" && np.parameter != "" {
      FileOccurs(np);
    }
  }

  lemma Regroup(scheme: string, record: string, parameter: string)
    ensures var n, head := scheme + (record + "/" + "file" + "/" + parameter), scheme + record;
            n == head + FILE_SELECTOR + parameter && n[|head|..] == FILE_SELECTOR + parameter &&
              HasPrefix(n[|head|..], FILE_SELECTOR)
  {
    var n, head := scheme + (record + "/" + "file" + "/" + parameter), scheme + record;
    assert n == head + FILE_SELECTOR + parameter;
    assert n[|head|..] == FILE_SELECTOR + parameter;
  }

  lemma FileOccurs(np: NotationParts)
    requires np.hasKeeperURI && np.selector == "file" && np.parameter != ""
    ensures var n, head := PrintNotation(np), KEEPER_PREFIX + (np.folderPath + "/" + np.recordName);
            n == head + FILE_SELECTOR + np.parameter && n[|head|..] == FILE_SELECTOR + np.parameter &&
              HasPrefix(n[|head|..], FILE_SELECTOR)
  {
    Regroup(KEEPER_PREFIX, np.folderPath + "/" + np.recordName, np.parameter);
  }

  lemma FileIsSelector(np: NotationParts, before: seq<string>, after: seq<string>)
    requires WellFormed(np) && after != [] && ["keeper:"] + PartsOf(np) == before + (["file"] + after)
    ensures np.selector == "file" && np.parameter != "" &&
            before == ["keeper:"] + Components(np.folderPath) + [np.recordName] && after == [np.parameter]
  {
    var all, m := ["keeper:"] + PartsOf(np), |before|;
    var folders := Components(np.folderPath);
    assert all[m] == "file" && m < |all| - 1;
    assert m > 0;
    assert forall i :: 0 < i <= |folders| ==> all[i] == folders[i - 1] && folders[i - 1] in folders;
    assert all[|folders| + 1] == np.recordName;
    assert IsKeyword("file");
    assert m == |folders| + 2;
    assert all[m] == np.selector && |all| == m + 2 && all[m + 1] == np.parameter;
    assert before == all[..m] && ["file"] + after == all[m..];
    assert all[..m] == ["keeper:"] + folders + [np.recordName];
    assert after == all[m..][1..];
  }

  /** The file name is the parameter, up to a bracketed index that does not come first. */
  lemma FileNameIsParameter(name: string, np: NotationParts, path: string)
    requires WellFormed(np) && np.hasKeeperURI && HasPrefix(path, "/") && !Contains(path, ":/")
    ensures var ref := ParseSecretAnnotation(name, PrintNotation(np) + ":" + path);
            ref.isFile == (np.selector == "file" && np.parameter != "") &&
            ref.fileName == if !ref.isFile then ""
              else if Index(np.parameter, "[") > 0 then np.parameter[..Index(np.parameter, "[")] else np.parameter
  {
    AnnotationRoundTrip(name, np, path);
    AnnotationHasScheme(np, path);
    FileIsExtracted(name, PrintNotation(np) + ":" + path);
    FileNotationIff(np);
    if np.selector == "file" && np.parameter != "" {
      FirstFileIsSelector(np);
    }
  }

  lemma FileIsExtracted(name: string, value: string)
    requires HasPrefix(value, KEEPER_PREFIX)
    ensures var ref := ParseSecretAnnotation(name, value);
            ref.isFile == Contains(ref.notation, FILE_SELECTOR) && ref.fileName == FileNameIn(ref.notation)
  {
  }

  lemma FirstFileIsSelector(np: NotationParts)
    requires WellFormed(np) && np.hasKeeperURI && np.selector == "file" && np.parameter != ""
    ensures var n := PrintNotation(np);
            var j := Index(n, FILE_SELECTOR);
            j >= 0 && n[j + 6..] == np.parameter
  {
    var n, parts, record := PrintNotation(np), PartsOf(np), np.folderPath + "/" + np.recordName;
    var head := KEEPER_PREFIX + record;
    FileOccurs(np);
    var j := Index(n, FILE_SELECTOR);
    PrintIsJoin(np);
    PartsAreComponents(np);
    ComponentsOfJoin(parts);
    SchemeComponent(PrintBody(np));
    FileComponent(n, j);
    PrintEndsPlain(np);
    AfterFile(n, j);
    FileIsSelector(np, Components(n[..j]), Components(n[j + 6..]));
    SchemeComponent(record);
    ComponentsConcat(np.folderPath, np.recordName);
    ComponentsOfOne(np.recordName);
    if j < |head| {
      LongerHead(head, np.parameter, j);
    }
  }

  /** Up to a "/file/" before its end, a text has fewer components. */
  lemma LongerHead(head: string, parameter: string, j: nat)
    requires j < |head| && HasPrefix((head + FILE_SELECTOR + parameter)[j..], FILE_SELECTOR)
    ensures |Components(head)| > |Components((head + FILE_SELECTOR + parameter)[..j])|
  {
    var n, h := head + FILE_SELECTOR + parameter, |head|;
    PrefixAt(n, FILE_SELECTOR, j);
    assert n[..j] == head[..j] && n[h] == '/';
    assert h < j + 6 ==> FILE_SELECTOR[h - j] == n[j..j + 6][h - j] == n[h] == '/';
    if h == j + 5 {
      assert head == head[..j] + "/" + "file" by {
        assert head[j..h] == n[j..j + 6][..5] == FILE_SELECTOR[..5] == "/file";
        assert head == head[..j] + head[j..h];
      }
      ComponentsConcat(head[..j], "file");
      ComponentsOfOne("file");
    } else {
      assert head[j..j + 6] == n[j..j + 6];
      PrefixAt(head, FILE_SELECTOR, j);
      FileComponent(head, j);
    }
  }

  lemma AfterFile(n: string, j: nat)
    requires n != "" && n[|n| - 1] != '/' && j <= |n| && HasPrefix(n[j..], FILE_SELECTOR)
    ensures j + 6 <= |n| && Components(n[j + 6..]) != []
  {
    PrefixAt(n, FILE_SELECTOR, j);
    assert n[j + 5] == n[j..j + 6][5] == '/';
    SomethingAfter(n, j + 6);
  }

  // ---------- record[field]:path and record:path ----------

  lemma CutAtBracket(head: string, path: string)
    ensures var value := head + "]:" + path;
            var end := Index(value, "]:");
            0 <= end <= |head| && (end == |head| <==> !Contains(head, "]:"))
  {
    var value, n := head + "]:" + path, |head|;
    assert value[n..n + 2] == "]:";
    PrefixAt(value, "]:", n);
    if Contains(head, "]:") {
      var i := Index(head, "]:");
      PrefixAt(head, "]:", i);
      assert value[i..i + 2] == head[i..i + 2];
      PrefixAt(value, "]:", i);
    } else {
      forall i | 0 <= i < n ensures !HasPrefix(value[i..], "]:") {
        PrefixAt(value, "]:", i);
        PrefixAt(head, "]:", i);
        assert i + 2 <= n ==> head[i..i + 2] == value[i..i + 2];
        assert i + 1 == n ==> value[i..i + 2][1] == value[n] == ']';
      }
    }
  }

  lemma CutPieces(head: string, path: string, end: nat)
    requires end <= |head|
    ensures var value := head + "]:" + path;
            (end == |head| ==> value[..end] == head) && (value[end + 2..] == path <==> end == |head|)
  {
    var value := head + "]:" + path;
    assert |value[end + 2..]| == |head| - end + |path|;
  }

  lemma BracketedFieldIff(ref: SecretRef, record: string, field: string)
    requires ref.fields == []
    ensures var r := WithBracketedField(ref, record + "[" + field);
            r.path == ref.path &&
            (r.name == record && r.fields == [field] && r.format == "raw" <==> record != "" && '[' !in record)
  {
    RecordBeforeBracket(record, field);
  }

  /** "record[field]:path" is read back exactly when the record is not empty and holds no "[",
      and no "]:" comes before the separating one. */
  lemma FieldForm(name: string, record: string, field: string, path: string)
    requires path != "" && !IsKeeperNotation(record + "[" + field + "]:" + path)
    ensures var ref := ParseSecretAnnotation(name, record + "[" + field + "]:" + path);
            ref.name == record && ref.fields == [field] && ref.path == path && ref.format == "raw" <==>
            record != "" && '[' !in record && !Contains(record + "[" + field, "]:")
  {
    var head := record + "[" + field;
    var value := head + "]:" + path;
    var end := Index(value, "]:");
    CharAt(value, '[', |record|);
    CutAtBracket(head, path);
    CutPieces(head, path, end);
    BracketedFieldIff(NewRef(name, "json").(path := path), record, field);
    assert ParsePlain(name, value) == ParseFieldForm(NewRef(name, "json"), value);
  }

  lemma RecordBeforeBracket(record: string, field: string)
    ensures var head := record + "[" + field;
            var bracket := Index(head, "[");
            0 <= bracket <= |record| && (bracket == |record| <==> '[' !in record) &&
            (bracket == |record| ==> head[..bracket] == record && head[bracket + 1..] == field)
  {
    var head := record + "[" + field;
    assert head[|record|..|record| + 1] == "[";
    PrefixAt(head, "[", |record|);
    var bracket := Index(head, "[");
    PrefixAt(head, "[", bracket);
    assert head[bracket] == head[bracket..bracket + 1][0] == '[';
    if '[' in record {
      var j :| 0 <= j < |record| && record[j] == '[';
      assert head[j..j + 1] == "[";
      PrefixAt(head, "[", j);
    }
  }

  lemma CutAtColon(record: string, path: string)
    ensures var value := record + ":" + path;
            var colon := LastIndex(value, ":");
            |record| <= colon < |value| && (colon == |record| <==> ':' !in path)
  {
    var value, n := record + ":" + path, |record|;
    forall j | n <= j <= |value|
      ensures HasPrefix(value[j..], ":") <==> j == n || (j < |value| && path[j - n - 1] == ':')
    {
      CharAt(value, ':', j);
    }
    assert HasPrefix(value[n..], ":");
    if ':' in path {
      var j :| 0 <= j < |path| && path[j] == ':';
      assert HasPrefix(value[n + 1 + j..], ":");
    }
  }

  /** "record:path" with an absolute path is read back exactly when the record is not empty and does not begin with a
      slash, and the path holds no colon. */
  lemma RecordForm(name: string, record: string, path: string)
    requires HasPrefix(path, "/")
    requires !HasFieldForm(record + ":" + path) && !IsKeeperNotation(record + ":" + path)
    ensures var ref := ParseSecretAnnotation(name, record + ":" + path);
            ref.format == "json" && ref.fields == [] &&
              (ref.name == record && ref.path == path <==> record != "" && record[0] != '/' && ':' !in path)
  {
    var value, n := record + ":" + path, |record|;
    CutAtColon(record, path);
    assert value[..n] == record && value[n + 1..] == path;
    SlashFollows(record, path);
    if record != "" {
      CharAt(value, '/', 0);
      assert value[0..] == value;
    }
  }

  /** The separating colon stands before a slash. */
  lemma SlashFollows(record: string, path: string)
    requires HasPrefix(path, "/")
    ensures HasPrefix((record + ":" + path)[|record|..], ":/")
  {
    assert (record + ":" + path)[|record|..] == ":/" + path[1..] by {
      assert path == path[..1] + path[1..];
    }
    assert (":/" + path[1..])[..2] == ":/";
  }
}
