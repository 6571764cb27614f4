/** What every annotation value comes to, case by case, in terms of the value alone. The cases are: Keeper notation,
    "record[field]:path", and all others. */
module AnnotationCases {
  import opened Text
  import opened Notation
  import opened Annotations

  /** The value is taken for Keeper notation. */
  predicate KeeperForm(value: string) {
    "keeper://" <= value || ("/" <= value && Contains(value, "/field/"))
  }

  /** The value is taken for "record[field]:path". */
  predicate BracketForm(value: string) {
    !KeeperForm(value) && Contains(value, "[") && Contains(value, "]:")
  }

  predicate PlainForm(value: string) {
    !KeeperForm(value) && !(Contains(value, "[") && Contains(value, "]:"))
  }

  /** No Kubernetes Secret is asked for. */
  predicate FileOnly(ref: SecretRef) {
    !ref.injectAsK8sSecret && ref.k8sSecretName == "" && ref.k8sSecretKeys == map[] && ref.k8sSecretType == ""
  }

  /** A record written as JSON, all of its fields. */
  function WholeRecord(name: string, path: string): SecretRef {
    SecretRef(name, path, [], "json", "", "", false, false, "", map[], "")
  }

  /** In a default file name spaces and slashes become dashes and ASCII capitals small letters. */
  lemma SanitizedIs(name: string, i: nat)
    requires i < |name|
    ensures |SanitizeName(name)| == |name|
    ensures var c, r := name[i], SanitizeName(name)[i];
            (c == ' ' || c == '/' ==> r == '-') &&
            ('A' <= c <= 'Z' ==> r as int == c as int - 'A' as int + 'a' as int) &&
            (c != ' ' && c != '/' && !('A' <= c <= 'Z') ==> r == c)
  {
  }

  function PathOr(key: string, path: string): string {
    if path == "" then "/keeper/secrets/" + SanitizeName(key) + ".json" else path
  }

  // ---------- a path, a record and a path, or nothing ----------

  /** A path alone names no record: the key does. */
  lemma PathAlone(key: string, value: string)
    requires "/" <= value && PlainForm(value)
    ensures ParseSecretAnnotation(key, value) == WholeRecord(key, value)
  {
  }

  /** The value is a record and an absolute path, with the last colon between them. */
  predicate RecordAndPath(value: string, record: string, path: string) {
    value == record + ":" + path && record != "" && "/" <= path && ':' !in path && !("/" <= value)
  }

  lemma LastColon(value: string, record: string, path: string)
    requires RecordAndPath(value, record, path)
    ensures LastIndex(value, ":") == |record| && HasPrefix(value[|record|..], ":/")
    ensures value[..|record|] == record && value[|record| + 1..] == path
  {
    CutAtColon(record, path);
    SlashFollows(record, path);
  }

  lemma ColonSplits(value: string, i: nat)
    requires !("/" <= value) && 0 < i < |value| - 1 && value[i] == ':' && value[i + 1] == '/' && ':' !in value[i + 1..]
    ensures RecordAndPath(value, value[..i], value[i + 1..])
  {
    assert value[..i] + ":" + value[i + 1..] == value;
    assert value[i + 1..][..1] == "/";
  }

  lemma NoLaterColon(value: string, i: nat)
    requires i < |value| && LastIndex(value, ":") == i
    ensures ':' !in value[i + 1..]
  {
    forall j | i < j < |value| ensures value[j] != ':' {
      CharAt(value, ':', j);
    }
  }

  lemma RecordFormOf(ref: SecretRef, value: string, record: string, path: string)
    requires RecordAndPath(value, record, path)
    ensures ParseRecordForm(ref, value) == ref.(name := record, path := path)
  {
    LastColon(value, record, path);
  }

  lemma RecordFormElse(ref: SecretRef, value: string)
    requires forall record, path :: !RecordAndPath(value, record, path)
    ensures ParseRecordForm(ref, value) == ref.(path := value)
  {
    var i := LastIndex(value, ":");
    if !("/" <= value) && i > 0 && HasPrefix(value[i..], ":/") {
      ColonSlashAt(value, i);
      NoLaterColon(value, i);
      ColonSplits(value, i);
    }
  }

  lemma DefaultPathIs(key: string, ref: SecretRef)
    ensures WithDefaultPath(key, ref) == ref.(path := PathOr(key, ref.path))
  {
  }

  lemma PlainRead(key: string, value: string)
    requires PlainForm(value)
    ensures var ref := ParseRecordForm(WholeRecord(key, ""), value);
            ParseSecretAnnotation(key, value) == ref.(path := PathOr(key, ref.path))
  {
    assert NewRef(key, "json") == WholeRecord(key, "");
    assert ParsePlain(key, value) == ParseRecordForm(WholeRecord(key, ""), value);
    DefaultPathIs(key, ParseRecordForm(WholeRecord(key, ""), value));
  }

  /** "record:path" is read as the two, if the path is absolute and the value does not begin with a slash. */
  lemma RecordThenPath(key: string, value: string, record: string, path: string)
    requires PlainForm(value) && RecordAndPath(value, record, path)
    ensures ParseSecretAnnotation(key, value) == WholeRecord(record, path)
  {
    PlainRead(key, value);
    RecordFormOf(WholeRecord(key, ""), value, record, path);
  }

  /** Any other value is a path as it stands, and an empty one stands for the default path. */
  lemma OtherIsPath(key: string, value: string)
    requires PlainForm(value) && forall record, path :: !RecordAndPath(value, record, path)
    ensures ParseSecretAnnotation(key, value) ==
            WholeRecord(key, if value == "" then "/keeper/secrets/" + SanitizeName(key) + ".json" else value)
  {
    PlainRead(key, value);
    RecordFormElse(WholeRecord(key, ""), value);
  }

  // ---------- record[field]:path ----------

  /** The value is cut at its first "]:". */
  predicate FirstBracketColon(value: string, head: string, path: string) {
    value == head + "]:" + path && !Contains(head, "]:")
  }

  predicate RecordAndField(head: string, record: string, field: string) {
    head == record + "[" + field && record != "" && '[' !in record
  }

  lemma FirstCutIs(value: string, head: string, path: string)
    requires FirstBracketColon(value, head, path)
    ensures Index(value, "]:") == |head| && value[..|head|] == head && value[|head| + 2..] == path
  {
    CutAtBracket(head, path);
    CutPieces(head, path, |head|);
  }

  lemma FieldFormRead(key: string, value: string)
    requires BracketForm(value)
    ensures ParseSecretAnnotation(key, value) == WithDefaultPath(key, ParseFieldForm(WholeRecord(key, ""), value))
  {
    assert NewRef(key, "json") == WholeRecord(key, "");
    assert !IsKeeperNotation(value) && HasFieldForm(value);
  }

  lemma BracketRead(key: string, value: string, head: string, path: string)
    requires BracketForm(value) && FirstBracketColon(value, head, path)
    ensures var ref := WithBracketedField(WholeRecord(key, path), head);
            ParseSecretAnnotation(key, value) == ref.(path := PathOr(key, ref.path))
  {
    FieldFormRead(key, value);
    FirstCutIs(value, head, path);
    DefaultPathIs(key, WithBracketedField(WholeRecord(key, path), head));
  }

  lemma RecordAndFieldRead(ref: SecretRef, head: string, record: string, field: string)
    requires RecordAndField(head, record, field)
    ensures WithBracketedField(ref, head) == ref.(name := record, fields := [field], format := "raw")
  {
    RecordBeforeBracket(record, field);
  }

  lemma NoRecordBefore(head: string)
    requires forall record, field :: !RecordAndField(head, record, field)
    ensures Index(head, "[") <= 0
  {
    var i := Index(head, "[");
    if i > 0 {
      assert head == head[..i] + "[" + head[i + 1..] by {
        assert head[i..][..1] == "[";
      }
      forall j | 0 <= j < i ensures head[j] != '[' {
        CharAt(head, '[', j);
      }
      assert RecordAndField(head, head[..i], head[i + 1..]);
    }
  }

  /** Before the first "]:" stands a record and, after its first "[", a field, written raw. */
  lemma FieldOfRecord(key: string, value: string, head: string, path: string, record: string, field: string)
    requires BracketForm(value) && FirstBracketColon(value, head, path) && RecordAndField(head, record, field)
    ensures ParseSecretAnnotation(key, value) ==
            WholeRecord(record, PathOr(key, path)).(fields := [field], format := "raw")
  {
    BracketRead(key, value, head, path);
    RecordAndFieldRead(WholeRecord(key, path), head, record, field);
  }

  /** Without a record there the path alone counts. */
  lemma BracketsWithoutRecord(key: string, value: string, head: string, path: string)
    requires BracketForm(value) && FirstBracketColon(value, head, path)
    requires forall record, field :: !RecordAndField(head, record, field)
    ensures ParseSecretAnnotation(key, value) == WholeRecord(key, PathOr(key, path))
  {
    BracketRead(key, value, head, path);
    NoRecordBefore(head);
  }

  lemma CutAround(value: string, i: nat)
    requires i + 2 <= |value| && value[i..i + 2] == "]:"
    ensures value == value[..i] + "]:" + value[i + 2..]
  {
  }

  /** Every value of this form has such a cut. */
  lemma BracketFormIsCut(value: string) returns (head: string, path: string)
    requires BracketForm(value)
    ensures FirstBracketColon(value, head, path)
  {
    var i := Index(value, "]:");
    PrefixAt(value, "]:", i);
    CutAround(value, i);
    head, path := value[..i], value[i + 2..];
    CutAtBracket(head, path);
  }

  // ---------- Keeper notation ----------

  /** The text is cut into a notation and an absolute path, at the last ":/". */
  predicate NotationAndPath(text: string, body: string, path: string) {
    text == body + ":" + path && body != "" && "/" <= path && !Contains(path, ":/")
  }

  lemma LastCut(text: string, body: string, path: string)
    requires NotationAndPath(text, body, path)
    ensures SplitOutput(text) == (body, path)
  {
    CutAtPath(body, path);
  }

  lemma NoCut(text: string)
    requires forall body, path :: !NotationAndPath(text, body, path)
    ensures SplitOutput(text) == (text, "")
  {
    var i := LastIndex(text, ":/");
    if i > 0 {
      ColonSlashAt(text, i);
      var body, path := text[..i], text[i + 1..];
      assert text == body + ":" + path;
      assert path[..1] == "/";
      forall j | 0 <= j <= |path| ensures !HasPrefix(path[j..], ":/") {
        assert path[j..] == text[i + 1 + j..];
      }
      assert NotationAndPath(text, body, path);
    }
  }

  /** Where the notation begins: after the scheme, if there is one. */
  function StartOf(value: string): (n: nat)
    ensures n <= |value|
  {
    if "keeper://" <= value then 9 else 0
  }

  /** The notation begins with the scheme, or with a slash. */
  lemma SchemeIs(value: string)
    requires KeeperForm(value)
    ensures IsKeeperNotation(value) && Body(value) == value[StartOf(value)..]
    ensures value[..StartOf(value)] == if HasPrefix(value, KEEPER_PREFIX) then KEEPER_PREFIX else ""
  {
    assert value[0..] == value;
  }

  lemma KeeperUnfolds(key: string, value: string, body: string, path: string)
    requires IsKeeperNotation(value) && SplitOutput(Body(value)) == (body, path)
    ensures var ref := ParseSecretAnnotation(key, value);
            ref.format == "raw" && ref.fields == [] && FileOnly(ref) &&
            ref.notation == (if HasPrefix(value, KEEPER_PREFIX) then KEEPER_PREFIX + body else body) &&
            ref.path == if path != "" then path else "/keeper/secrets" + "/" + SanitizeName(key)
  {
  }

  lemma KeeperRead(key: string, value: string, body: string, path: string)
    requires KeeperForm(value) && SplitOutput(value[StartOf(value)..]) == (body, path)
    ensures var ref := ParseSecretAnnotation(key, value);
            ref.format == "raw" && ref.fields == [] && FileOnly(ref) &&
              ref.notation == value[..StartOf(value)] + body &&
            ref.path == if path != "" then path else "/keeper/secrets/" + SanitizeName(key)
  {
    SchemeIs(value);
    KeeperUnfolds(key, value, body, path);
    assert "" + body == body && "/keeper/secrets" + "/" == "/keeper/secrets/";
  }

  /** The notation and the path an annotation is cut into. */
  lemma KeeperCutIs(key: string, value: string, body: string, path: string)
    requires KeeperForm(value) && NotationAndPath(value[StartOf(value)..], body, path)
    ensures var ref := ParseSecretAnnotation(key, value);
            ref.notation == value[..StartOf(value)] + body && ref.path == path &&
            ref.format == "raw" && ref.fields == [] && FileOnly(ref)
  {
    LastCut(value[StartOf(value)..], body, path);
    KeeperRead(key, value, body, path);
  }

  /** Without such a cut the whole value is the notation, and the path is the default one, without a file extension. */
  lemma KeeperWholeIs(key: string, value: string)
    requires KeeperForm(value) && forall body, path :: !NotationAndPath(value[StartOf(value)..], body, path)
    ensures var ref := ParseSecretAnnotation(key, value);
            ref.notation == value && ref.path == "/keeper/secrets/" + SanitizeName(key) &&
            ref.format == "raw" && ref.fields == [] && FileOnly(ref)
  {
    var text := value[StartOf(value)..];
    NoCut(text);
    KeeperRead(key, value, text, "");
    assert value == value[..StartOf(value)] + text;
  }

  /** The first component of a text that does not begin with a slash and holds one. */
  predicate IsTop(text: string, top: string) {
    top != "" && '/' !in top && top + "/" <= text
  }

  lemma TopIs(text: string)
    ensures forall top :: IsTop(text, top) ==> BeforeSlash(text) == top
    ensures (forall top :: !IsTop(text, top)) ==> BeforeSlash(text) == text
  {
    forall top | IsTop(text, top) ensures BeforeSlash(text) == top {
      assert text == top + "/" + text[|top| + 1..];
      FirstSlash(top, text[|top| + 1..]);
    }
    var i := Index(text, "/");
    if i > 0 {
      CharAt(text, '/', i);
      forall j | 0 <= j < i ensures text[j] != '/' {
        CharAt(text, '/', j);
      }
      assert text[..i] + "/" == text[..i + 1];
      assert IsTop(text, text[..i]);
    }
  }

  /** What begins with a slash keeps it when it is cut, and has no scheme. */
  lemma StartsWithSlash(value: string)
    requires "/" <= value
    ensures var body := SplitOutput(value).0;
            body != "" && body[0] == '/' && !HasPrefix(body, KEEPER_PREFIX)
  {
    var body := SplitOutput(value).0;
    assert value[0] == value[..1][0] == '/' && body[0] == value[0];
    assert |body| >= 9 ==> body[..9][0] == body[0];
  }

  lemma NameRead(key: string, value: string)
    requires KeeperForm(value)
    ensures var ref := ParseSecretAnnotation(key, value);
            var record := BeforeSlash(Body(ref.notation));
            ref.name == if record != "" then record else key
  {
  }

  lemma NotationBody(key: string, value: string)
    requires KeeperForm(value)
    ensures var notation := ParseSecretAnnotation(key, value).notation;
            StartOf(value) <= |notation| && notation[StartOf(value)..] == Body(notation)
  {
    var (body, path) := SplitOutput(value[StartOf(value)..]);
    KeeperRead(key, value, body, path);
    if "keeper://" <= value {
      UriBody(SplitOutput(value[9..]).0);
    } else {
      StartsWithSlash(value);
      assert value[0..] == value;
    }
  }

  /** The Name: the text before the first slash, else the whole notation, else the key. */
  lemma KeeperNameIs(key: string, value: string)
    requires KeeperForm(value)
    ensures var ref := ParseSecretAnnotation(key, value);
            StartOf(value) <= |ref.notation| &&
            var text := ref.notation[StartOf(value)..];
            (forall top :: IsTop(text, top) ==> ref.name == top) &&
            ((forall top :: !IsTop(text, top)) ==> ref.name == if text == "" then key else text)
  {
    NameRead(key, value);
    NotationBody(key, value);
    TopIs(ParseSecretAnnotation(key, value).notation[StartOf(value)..]);
  }

  /** The first "/file/" stands between the two. */
  predicate FirstFile(notation: string, before: string, file: string) {
    notation == before + "/file/" + file && forall i :: 0 <= i < |before| ==> !("/file/" <= notation[i..])
  }

  lemma FirstFileIs(notation: string, before: string, file: string)
    requires FirstFile(notation, before, file)
    ensures Index(notation, "/file/") == |before| && notation[|before| + 6..] == file
  {
    assert notation[|before|..] == "/file/" + file;
    forall i | 0 <= i < |before| ensures !HasPrefix(notation[i..], "/file/") {
      assert !("/file/" <= notation[i..]);
    }
  }

  lemma FirstBracket(file: string)
    ensures forall a, b :: file == a + "[" + b && a != "" && '[' !in a ==> Index(file, "[") == |a|
    ensures '[' !in file || "[" <= file ==> Index(file, "[") <= 0
  {
    forall a, b | file == a + "[" + b && a != "" && '[' !in a ensures Index(file, "[") == |a| {
      RecordBeforeBracket(a, b);
    }
    var i := Index(file, "[");
    if i >= 0 {
      CharAt(file, '[', i);
    }
  }

  lemma FileRead(key: string, value: string)
    requires KeeperForm(value)
    ensures var ref := ParseSecretAnnotation(key, value);
            ref.isFile == Contains(ref.notation, "/file/") && ref.fileName == FileNameIn(ref.notation)
  {
  }

  /** What is kept of the text after the first "/file/". */
  ghost predicate KeptOf(file: string, name: string) {
    (forall a, b :: file == a + "[" + b && a != "" && '[' !in a ==> name == a) &&
    ('[' !in file || "[" <= file ==> name == file)
  }

  lemma FileNameIs(notation: string, before: string, file: string)
    requires FirstFile(notation, before, file)
    ensures KeptOf(file, FileNameIn(notation))
  {
    FirstFileIs(notation, before, file);
    KeptIs(file);
  }

  lemma KeptIs(file: string)
    ensures KeptOf(file, if Index(file, "[") > 0 then file[..Index(file, "[")] else file)
  {
    FirstBracket(file);
    assert forall a, b :: file == a + "[" + b ==> file[..|a|] == a;
  }

  /** The file: what follows the first "/file/", up to a bracket that does not come first. */
  lemma KeeperFileIs(key: string, value: string)
    requires KeeperForm(value)
    ensures var ref := ParseSecretAnnotation(key, value);
            (ref.isFile <==> Contains(ref.notation, "/file/")) && (!ref.isFile ==> ref.fileName == "") &&
            forall before, file :: FirstFile(ref.notation, before, file) ==> KeptOf(file, ref.fileName)
  {
    var ref := ParseSecretAnnotation(key, value);
    FileRead(key, value);
    forall before, file | FirstFile(ref.notation, before, file) ensures KeptOf(file, ref.fileName) {
      FileNameIs(ref.notation, before, file);
    }
  }
}
