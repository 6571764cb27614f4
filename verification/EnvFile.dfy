/** The "env" file format, and how a POSIX shell reads it back. Values are sequences of code points. */
module EnvFile {
  import opened Text
  import opened Values

  // ---------- writing ----------

  function EnvKeyChar(c: char): char {
    if 'a' <= c <= 'z' then (c as int - 32) as char
    else if 'A' <= c <= 'Z' || '0' <= c <= '9' then c
    else '_'
  }

  function EnvKey(key: string): (r: string)
    ensures |r| == |key|
  {
    seq(|key|, i requires 0 <= i < |key| => EnvKeyChar(key[i]))
  }

  method ToEnvKey(key: string) returns (result: string)
    ensures result == EnvKey(key)
  {
    result := "";
    for i := 0 to |key|
      invariant |result| == i && forall j :: 0 <= j < i ==> result[j] == EnvKeyChar(key[j])
    {
      var c := key[i];
      if 'a' <= c <= 'z' {
        result := result + [(c as int - 32) as char];
      } else if 'A' <= c <= 'Z' || '0' <= c <= '9' {
        result := result + [c];
      } else {
        result := result + ['_'];
      }
    }
  }

  /** The characters that make escapeEnvValue quote. */
  predicate Triggers(c: char) {
    c == ' ' || c == '\n' || c == '\t' || c == '"' || c == '\'' || c == '='
  }

  predicate NeedsQuotes(value: string) {
    exists i :: 0 <= i < |value| && Triggers(value[i])
  }

  /** The text between the outer quotes: each single quote leaves the quotes, is escaped, and enters them again. */
  function Inner(value: string): string {
    if value == "" then ""
    else (if value[0] == '\'' then "'\\''" else [value[0]]) + Inner(value[1..])
  }

  function Escape(value: string): string {
    if NeedsQuotes(value) then "'" + Inner(value) + "'" else value
  }

  lemma {:induction false} InnerConcat(a: string, b: string)
    ensures Inner(a + b) == Inner(a) + Inner(b)
  {
    if a == "" {
      assert a + b == b;
    } else {
      assert (a + b)[1..] == a[1..] + b;
      InnerConcat(a[1..], b);
    }
  }

  method EscapeEnvValue(value: string) returns (r: string)
    ensures r == Escape(value)
  {
    var needsQuotes := false;
    for i := 0 to |value|
      invariant !needsQuotes && forall j :: 0 <= j < i ==> !Triggers(value[j])
    {
      var c := value[i];
      if c == ' ' || c == '\n' || c == '\t' || c == '"' || c == '\'' || c == '=' {
        needsQuotes := true;
        break;
      }
    }
    if needsQuotes {
      var escaped := "";
      for i := 0 to |value|
        invariant escaped == Inner(value[..i])
      {
        InnerConcat(value[..i], [value[i]]);
        assert value[..i + 1] == value[..i] + [value[i]];
        if value[i] == '\'' {
          escaped := escaped + "'\\''";
        } else {
          escaped := escaped + [value[i]];
        }
      }
      assert value[..|value|] == value;
      return "'" + escaped + "'";
    }
    return value;
  }

  function Line(key: string, v: FieldValue): string {
    EnvKey(key) + "=" + Escape(ValueToBytes(v)) + "\n"
  }

  /** The file for the fields in the given order. */
  function Lines(order: seq<string>, data: map<string, FieldValue>): string
    requires forall k :: k in order ==> k in data
  {
    if order == [] then ""
    else Line(order[0], data[order[0]]) + Lines(order[1..], data)
  }

  /** Each field once, in some order: what iterating over the map may yield. */
  ghost predicate IsOrder(order: seq<string>, data: map<string, FieldValue>) {
    (forall k :: k in order <==> k in data) && forall i, j :: 0 <= i < j < |order| ==> order[i] != order[j]
  }

  lemma {:induction false} LinesConcat(order: seq<string>, k: string, data: map<string, FieldValue>)
    requires (forall j :: j in order ==> j in data) && k in data
    ensures Lines(order + [k], data) == Lines(order, data) + Line(k, data[k])
  {
    if order == [] {
      assert order + [k] == [k] && [k][1..] == [];
    } else {
      assert (order + [k])[1..] == order[1..] + [k];
      LinesConcat(order[1..], k, data);
    }
  }

  method FormatAsEnv(data: map<string, FieldValue>) returns (result: string)
    ensures exists order :: IsOrder(order, data) && result == Lines(order, data)
  {
    result := "";
    var todo := data.Keys;
    ghost var order: seq<string> := [];
    while todo != {}
      invariant todo <= data.Keys
      invariant forall k :: k in order <==> k in data.Keys - todo
      invariant forall i, j :: 0 <= i < j < |order| ==> order[i] != order[j]
      invariant result == Lines(order, data)
    {
      var k :| k in todo;
      assert k !in order;
      todo := todo - {k};
      var value := EscapeEnvValue(ValueToBytes(data[k]));
      var key := ToEnvKey(k);
      LinesConcat(order, k, data);
      result := result + (key + "=" + value + "\n");
      order := order + [k];
    }
    assert IsOrder(order, data);
  }

  // ---------- reading, by the POSIX.1-2017 Shell Command Language ----------

  /** Characters that are not literal in an unquoted word (section 2.2), quoting characters apart. */
  predicate IsActive(c: char) {
    c == '|' || c == '&' || c == ';' || c == '<' || c == '>' || c == '(' || c == ')' ||
    c == '$' || c == '`' || c == '"' || c == ' ' || c == '\t'
  }

  predicate IsNameChar(c: char) {
    'A' <= c <= 'Z' || 'a' <= c <= 'z' || '0' <= c <= '9' || c == '_'
  }

  /** A name (section 3.235 of the Base Definitions): not empty and not beginning with a digit. */
  predicate IsName(s: string) {
    s != "" && !('0' <= s[0] <= '9') && forall i :: 0 <= i < |s| ==> IsNameChar(s[i])
  }

  /** The text up to the closing single quote, and what follows it (section 2.2.2). */
  function ReadSingle(s: string): (r: Option<(string, string)>)
    ensures r.Some? ==> |r.value.0| + |r.value.1| + 1 == |s|
  {
    if s == "" then None
    else if s[0] == '\'' then Some(("", s[1..]))
    else
      match ReadSingle(s[1..])
      case None => None
      case Some((text, rest)) => Some(([s[0]] + text, rest))
  }

  function Prepend(text: string, r: Option<(string, string)>): Option<(string, string)> {
    if r.None? then None else Some((text + r.value.0, r.value.1))
  }

  /** The rest of an assignment word after quote removal (sections 2.2.1, 2.2.2 and 2.6.7), and the input after
      its newline; None where its value would depend on an expansion or the word would end at an operator or blank.
      A tilde counts at the start of the value and after an unquoted colon (section 2.6.1). */
  function ReadWord(s: string, tilde: bool): (r: Option<(string, string)>)
    ensures r.Some? ==> |r.value.0| + |r.value.1| <= |s|
    decreases |s|
  {
    if s == "" then Some(("", ""))
    else if s[0] == '\n' then Some(("", s[1..]))
    else if s[0] == '\'' then
      var quoted := ReadSingle(s[1..]);
      if quoted.None? then None else Prepend(quoted.value.0, ReadWord(quoted.value.1, false))
    else if s[0] == '\\' then
      if |s| == 1 then None
      else if s[1] == '\n' then ReadWord(s[2..], false)
      else Prepend([s[1]], ReadWord(s[2..], false))
    else if IsActive(s[0]) || (tilde && s[0] == '~') then None
    else Prepend([s[0]], ReadWord(s[1..], s[0] == ':'))
  }

  datatype Assignment = Assignment(name: string, value: string)

  function NameLength(s: string): (n: nat)
    ensures n <= |s|
  {
    if s != "" && IsNameChar(s[0]) then 1 + NameLength(s[1..]) else 0
  }

  /** The assignments of a file that holds nothing else. */
  function ReadFile(s: string): Option<seq<Assignment>>
    decreases |s|
  {
    if s == "" then Some([])
    else
      var n := NameLength(s);
      if !IsName(s[..n]) || n == |s| || s[n] != '=' then None
      else
        match ReadWord(s[n + 1..], true)
        case None => None
        case Some((value, rest)) =>
          match ReadFile(rest)
          case None => None
          case Some(assignments) => Some([Assignment(s[..n], value)] + assignments)
  }

  // ---------- what is written is read back ----------

  /** A tilde at position `i` would be a tilde prefix. */
  predicate TildeAt(value: string, i: nat, tilde: bool)
    requires i < |value|
  {
    if i == 0 then tilde else value[i - 1] == ':'
  }

  /** No character of an unquoted value means anything to the shell. */
  predicate Plain(value: string, tilde: bool) {
    forall i :: 0 <= i < |value| ==>
      !IsActive(value[i]) && value[i] != '\\' && !(value[i] == '~' && TildeAt(value, i, tilde))
  }

  predicate Readable(value: string) {
    NeedsQuotes(value) || Plain(value, true)
  }

  lemma WordLiteral(c: char, rest: string, tilde: bool)
    requires c != '\n' && c != '\'' && c != '\\' && !IsActive(c) && !(tilde && c == '~')
    ensures ReadWord([c] + rest, tilde) == Prepend([c], ReadWord(rest, c == ':'))
  {
    assert ([c] + rest)[1..] == rest;
  }

  lemma WordEscape(c: char, rest: string, tilde: bool)
    requires c != '\n'
    ensures ReadWord("\\" + [c] + rest, tilde) == Prepend([c], ReadWord(rest, false))
  {
    assert ("\\" + [c] + rest)[2..] == rest;
  }

  lemma WordEnds(tail: string, tilde: bool)
    ensures ReadWord("\n" + tail, tilde) == Some(("", tail))
  {
    assert ("\n" + tail)[1..] == tail;
  }

  /** The reading of a word from inside single quotes. */
  function InQuotes(s: string): Option<(string, string)> {
    var quoted := ReadSingle(s);
    if quoted.None? then None else Prepend(quoted.value.0, ReadWord(quoted.value.1, false))
  }

  lemma WordOpensQuote(rest: string, tilde: bool)
    ensures ReadWord("'" + rest, tilde) == InQuotes(rest)
  {
    assert ("'" + rest)[1..] == rest;
  }

  lemma QuoteCloses(rest: string)
    ensures InQuotes("'" + rest) == ReadWord(rest, false)
  {
    assert ("'" + rest)[1..] == rest;
    var r := ReadWord(rest, false);
    assert r.Some? ==> "" + r.value.0 == r.value.0;
  }

  lemma QuoteKeeps(c: char, rest: string)
    requires c != '\''
    ensures InQuotes([c] + rest) == Prepend([c], InQuotes(rest))
  {
    assert ([c] + rest)[1..] == rest;
    var r := ReadSingle(rest);
    if r.Some? && ReadWord(r.value.1, false).Some? {
      var word := ReadWord(r.value.1, false).value.0;
      assert ([c] + r.value.0) + word == [c] + (r.value.0 + word);
    }
  }

  lemma QuoteReopens(rest: string)
    ensures InQuotes("'\\''" + rest) == Prepend("'", InQuotes(rest))
  {
    assert "'\\''" + rest == "'" + ("\\" + ['\''] + ("'" + rest));
    QuoteCloses("\\" + ['\''] + ("'" + rest));
    WordEscape('\'', "'" + rest, false);
    WordOpensQuote(rest, false);
  }

  lemma {:induction false} ReadQuoted(v: string, tail: string)
    ensures InQuotes(Inner(v) + ("'\n" + tail)) == Some((v, tail))
  {
    var s := Inner(v) + ("'\n" + tail);
    if v == "" {
      assert s == "'" + ("\n" + tail);
      QuoteCloses("\n" + tail);
      WordEnds(tail, false);
    } else {
      var next := Inner(v[1..]) + ("'\n" + tail);
      ReadQuoted(v[1..], tail);
      assert [v[0]] + v[1..] == v;
      if v[0] == '\'' {
        assert s == "'\\''" + next;
        QuoteReopens(next);
      } else {
        assert s == [v[0]] + next;
        QuoteKeeps(v[0], next);
      }
    }
  }

  lemma {:induction false} ReadPlain(v: string, tail: string, tilde: bool)
    requires Plain(v, tilde) && forall i :: 0 <= i < |v| ==> !Triggers(v[i])
    ensures ReadWord(v + ("\n" + tail), tilde) == Some((v, tail))
    decreases |v|
  {
    if v == "" {
      assert v + ("\n" + tail) == "\n" + tail;
      WordEnds(tail, tilde);
    } else {
      var w := v[1..];
      assert v == [v[0]] + w && v + ("\n" + tail) == [v[0]] + (w + ("\n" + tail));
      assert !Triggers(v[0]);
      assert forall i :: 0 <= i < |w| ==> w[i] == v[i + 1];
      WordLiteral(v[0], w + ("\n" + tail), tilde);
      ReadPlain(w, tail, v[0] == ':');
    }
  }

  /** Reading up to the end of an unquoted line never yields more characters than the line holds. */
  lemma {:induction false} ReadAtMost(v: string, tail: string, tilde: bool)
    requires forall i :: 0 <= i < |v| ==> v[i] != '\'' && v[i] != '\n'
    ensures var r := ReadWord(v + "\n" + tail, tilde);
            r.Some? ==> |r.value.0| + |r.value.1| <= |v| + |tail| - if '\\' in v then 1 else 0
    decreases |v|
  {
    var s := v + "\n" + tail;
    if v == "" {
      assert s[1..] == tail;
    } else if v[0] != '\\' {
      assert s[1..] == v[1..] + "\n" + tail;
      ReadAtMost(v[1..], tail, v[0] == ':');
    } else if |v| == 1 {
      assert s[2..] == tail;
    } else {
      assert s[2..] == v[2..] + "\n" + tail;
      ReadAtMost(v[2..], tail, false);
    }
  }

  lemma {:induction false} ActiveStops(v: string, tail: string, tilde: bool, k: nat)
    requires forall i :: 0 <= i < |v| ==> v[i] != '\'' && v[i] != '\n' && v[i] != '\\'
    requires k < |v| && (IsActive(v[k]) || (v[k] == '~' && TildeAt(v, k, tilde)))
    ensures ReadWord(v + "\n" + tail, tilde).None?
    decreases |v|
  {
    var s := v + "\n" + tail;
    assert s[0] == v[0];
    if k > 0 && !IsActive(v[0]) && !(tilde && v[0] == '~') {
      assert s[1..] == v[1..] + "\n" + tail;
      ActiveStops(v[1..], tail, v[0] == ':', k - 1);
    }
  }

  lemma UnreadableIsChanged(v: string, tail: string)
    requires !NeedsQuotes(v) && !Plain(v, true)
    ensures ReadWord(v + "\n" + tail, true) != Some((v, tail))
  {
    assert forall i :: 0 <= i < |v| ==> !Triggers(v[i]);
    if '\\' in v {
      ReadAtMost(v, tail, true);
    } else {
      var k :| 0 <= k < |v| && (IsActive(v[k]) || (v[k] == '~' && TildeAt(v, k, true)));
      ActiveStops(v, tail, true, k);
    }
  }

  /** A value is read back as itself, and the lines after it are left alone, exactly when it is quoted
      or holds nothing special to the shell. */
  lemma ValueReadBackIff(v: string, tail: string)
    ensures ReadWord(Escape(v) + "\n" + tail, true) == Some((v, tail)) <==> Readable(v)
  {
    var s := Escape(v) + "\n" + tail;
    if NeedsQuotes(v) {
      ReadQuotedWord(v, tail, true);
    } else if Plain(v, true) {
      assert s == v + ("\n" + tail);
      ReadPlain(v, tail, true);
    } else {
      UnreadableIsChanged(v, tail);
    }
  }

  lemma Requote(inner: string, tail: string)
    ensures "'" + inner + "'" + "\n" + tail == "'" + (inner + ("'\n" + tail))
  {
  }

  lemma ReadQuotedWord(v: string, tail: string, tilde: bool)
    ensures ReadWord("'" + Inner(v) + "'" + "\n" + tail, tilde) == Some((v, tail))
  {
    Requote(Inner(v), tail);
    WordOpensQuote(Inner(v) + ("'\n" + tail), tilde);
    ReadQuoted(v, tail);
  }

  lemma {:induction false} NameLengthOfKey(key: string, rest: string)
    requires forall i :: 0 <= i < |key| ==> IsNameChar(key[i])
    ensures NameLength(key + "=" + rest) == |key|
  {
    var s := key + "=" + rest;
    if key != "" {
      assert s[0] == key[0] && s[1..] == key[1..] + "=" + rest;
      NameLengthOfKey(key[1..], rest);
    }
  }

  /** The assignments a file is meant to make. */
  function Meant(order: seq<string>, data: map<string, FieldValue>): seq<Assignment>
    requires forall k :: k in order ==> k in data
  {
    seq(|order|, i requires 0 <= i < |order| => Assignment(EnvKey(order[i]), ValueToBytes(data[order[i]])))
  }

  /** The key is a valid shell name once converted, and the value is read back as itself. */
  predicate FieldReadable(key: string, v: FieldValue) {
    IsName(EnvKey(key)) && Readable(ValueToBytes(v))
  }

  /** What may follow a line of the file: nothing, or a line, which begins with a letter, a digit, an underscore or
      "=". */
  predicate LineOrEnd(tail: string) {
    tail == "" || IsNameChar(tail[0]) || tail[0] == '='
  }

  /** Neither of the characters that end an unquoted line or open a quotation. */
  predicate Unquoted(v: string) {
    forall i :: 0 <= i < |v| ==> v[i] != '\'' && v[i] != '\n'
  }

  /** A backslash is read from two of them only. */
  lemma ReadsBackslash(v: string, tail: string, tilde: bool)
    requires Unquoted(v) && LineOrEnd(tail)
    ensures var r := ReadWord(v + "\n" + tail, tilde);
            r.Some? && r.value.0 != "" && r.value.0[0] == '\\' ==>
            |v| > 1 && v[0] == '\\' && v[1] == '\\' && r == Prepend("\\", ReadWord(v[2..] + "\n" + tail, false))
  {
    var s := v + "\n" + tail;
    if v == "" {
      assert s[0] == '\n';
    } else if v[0] == '\\' {
      if |v| == 1 {
        assert s[0] == '\\' && s[1] == '\n' && s[2..] == tail;
        TailReads(tail);
      } else {
        assert s[1] == v[1] != '\n' && s[2..] == v[2..] + "\n" + tail;
      }
    } else {
      assert s[0] == v[0];
    }
  }

  lemma TailReads(tail: string)
    requires LineOrEnd(tail)
    ensures var r := ReadWord(tail, false);
            r.Some? ==> r.value.0 == "" || r.value.0[0] != '\\'
  {
  }

  function Backslashes(n: nat): string {
    seq(n, _ => '\\')
  }

  /** The rest of a line is never read as itself with more backslashes in front. */
  lemma {:induction false} BackslashesAreLost(v: string, tail: string, n: nat)
    requires Unquoted(v) && LineOrEnd(tail) && n > 0
    ensures var r := ReadWord(v + "\n" + tail, false);
            r.Some? ==> r.value.0 != Backslashes(n) + v
    decreases |v|
  {
    var r := ReadWord(v + "\n" + tail, false);
    if r.Some? && r.value.0 == Backslashes(n) + v {
      ReadsBackslash(v, tail, false);
      var rest := ReadWord(v[2..] + "\n" + tail, false).value.0;
      assert v == Backslashes(2) + v[2..];
      assert Backslashes(n) + v == "\\" + (Backslashes(n + 1) + v[2..]);
      assert rest == r.value.0[1..] == Backslashes(n + 1) + v[2..];
      BackslashesAreLost(v[2..], tail, n + 1);
    }
  }

  /** A first character that is neither quote, newline nor backslash stands for itself if anything is read at all. */
  lemma LiteralFirst(c: char, rest: string, tilde: bool)
    requires c != '\n' && c != '\'' && c != '\\' && ReadWord([c] + rest, tilde).Some?
    ensures ReadWord([c] + rest, tilde) == Prepend([c], ReadWord(rest, c == ':'))
  {
    assert ([c] + rest)[1..] == rest;
  }

  /** An unquoted value with a backslash is never read as itself. */
  lemma {:induction false} BackslashIsLost(v: string, tail: string, tilde: bool)
    requires Unquoted(v) && '\\' in v && LineOrEnd(tail)
    ensures var r := ReadWord(v + "\n" + tail, tilde);
            r.Some? ==> r.value.0 != v
    decreases |v|
  {
    if v[0] == '\\' {
      LeadingBackslashIsLost(v, tail, tilde);
    } else {
      var c, w, rest := v[0], v[1..], v[1..] + "\n" + tail;
      assert v == [c] + w && v + "\n" + tail == [c] + rest;
      BackslashIsLost(w, tail, c == ':');
      if ReadWord([c] + rest, tilde).Some? {
        LiteralFirst(c, rest, tilde);
        SameTails(c, ReadWord(rest, c == ':').value.0, w);
      }
    }
  }

  lemma SameTails(c: char, a: string, b: string)
    ensures [c] + a == [c] + b ==> a == b
  {
    assert ([c] + a)[1..] == a && ([c] + b)[1..] == b;
  }

  lemma LeadingBackslashIsLost(v: string, tail: string, tilde: bool)
    requires Unquoted(v) && v != "" && v[0] == '\\' && LineOrEnd(tail)
    ensures var r := ReadWord(v + "\n" + tail, tilde);
            r.Some? ==> r.value.0 != v
  {
    var r := ReadWord(v + "\n" + tail, tilde);
    if r.Some? && r.value.0 == v {
      ReadsBackslash(v, tail, tilde);
      var word := ReadWord(v[2..] + "\n" + tail, false).value.0;
      assert v == "\\" + (Backslashes(1) + v[2..]) && v == "\\" + word;
      SameTails('\\', word, Backslashes(1) + v[2..]);
      BackslashesAreLost(v[2..], tail, 1);
    }
  }

  /** A value that is not readable is never read as itself, whatever becomes of the line after it. */
  lemma UnreadableIsLost(v: string, tail: string)
    requires !Readable(v) && LineOrEnd(tail)
    ensures var r := ReadWord(Escape(v) + "\n" + tail, true);
            r.Some? ==> r.value.0 != v
  {
    assert forall i :: 0 <= i < |v| ==> !Triggers(v[i]);
    if '\\' in v {
      BackslashIsLost(v, tail, true);
    } else {
      var k :| 0 <= k < |v| && (IsActive(v[k]) || (v[k] == '~' && TildeAt(v, k, true)));
      ActiveStops(v, tail, true, k);
    }
  }

  lemma LinesAreLines(order: seq<string>, data: map<string, FieldValue>)
    requires forall k :: k in order ==> k in data
    ensures LineOrEnd(Lines(order, data))
  {
    if order != [] {
      var line := Line(order[0], data[order[0]]);
      assert Lines(order, data)[0] == line[0];
      assert line[0] == if order[0] == "" then '=' else EnvKeyChar(order[0][0]);
    }
  }

  /** A file is read back as exactly the assignments it is meant to make, exactly when all its fields are readable. */
  lemma {:induction false} FileReadBackIff(order: seq<string>, data: map<string, FieldValue>)
    requires forall k :: k in order ==> k in data
    ensures ReadFile(Lines(order, data)) == Some(Meant(order, data)) <==>
            forall k :: k in order ==> FieldReadable(k, data[k])
  {
    if order == [] {
      assert Meant(order, data) == [];
    } else {
      var k, rest := order[0], order[1..];
      FileReadBackIff(rest, data);
      MeantStep(order, data);
      assert forall j :: j in order <==> j == k || j in rest;
      LinesAreLines(rest, data);
      LineReadBackIff(k, data[k], Lines(rest, data), Meant(rest, data));
    }
  }

  lemma MeantStep(order: seq<string>, data: map<string, FieldValue>)
    requires order != [] && forall k :: k in order ==> k in data
    ensures Meant(order, data) ==
            [Assignment(EnvKey(order[0]), ValueToBytes(data[order[0]]))] + Meant(order[1..], data)
    ensures Lines(order, data) == Line(order[0], data[order[0]]) + Lines(order[1..], data)
  {
  }

  /** What a file is read as that begins with the line of a field. */
  lemma LineThenRest(k: string, v: FieldValue, tail: string)
    ensures ReadFile(Line(k, v) + tail) ==
            if !IsName(EnvKey(k)) then None
            else
              match ReadWord(Escape(ValueToBytes(v)) + "\n" + tail, true)
              case None => None
              case Some((value, rest)) => if ReadFile(rest).None? then None
                else Some([Assignment(EnvKey(k), value)] + ReadFile(rest).value)
  {
    var name, word := EnvKey(k), Escape(ValueToBytes(v)) + "\n" + tail;
    var s := Line(k, v) + tail;
    assert s == name + "=" + word;
    NameLengthOfKey(name, word);
    assert s[..|name|] == name && s[|name|] == '=' && s[|name| + 1..] == word;
  }

  lemma LineReadBackIff(k: string, v: FieldValue, tail: string, meant: seq<Assignment>)
    requires LineOrEnd(tail)
    ensures ReadFile(Line(k, v) + tail) == Some([Assignment(EnvKey(k), ValueToBytes(v))] + meant) <==>
            FieldReadable(k, v) && ReadFile(tail) == Some(meant)
  {
    var value := ValueToBytes(v);
    LineThenRest(k, v, tail);
    ValueReadBackIff(value, tail);
    if !Readable(value) {
      UnreadableIsLost(value, tail);
    }
    var word := ReadWord(Escape(value) + "\n" + tail, true);
    if word.Some? && ReadFile(word.value.1).Some? {
      SameCons(Assignment(EnvKey(k), word.value.0), ReadFile(word.value.1).value, Assignment(EnvKey(k), value), meant);
    }
  }

  lemma SameCons(a: Assignment, x: seq<Assignment>, b: Assignment, y: seq<Assignment>)
    ensures [a] + x == [b] + y <==> a == b && x == y
  {
    assert ([a] + x)[0] == a && ([b] + y)[0] == b && ([a] + x)[1..] == x && ([b] + y)[1..] == y;
  }

  /** The variables after the assignments: a later one overrides. */
  function AsMap(assignments: seq<Assignment>): (m: map<string, string>)
    ensures forall n :: n in m <==> exists i :: 0 <= i < |assignments| && assignments[i].name == n
    ensures forall n :: n in m ==> exists i :: 0 <= i < |assignments| && assignments[i] == Assignment(n, m[n])
  {
    if assignments == [] then map[]
    else
      var last := assignments[|assignments| - 1];
      AsMap(assignments[..|assignments| - 1])[last.name := last.value]
  }

  lemma MeantAt(order: seq<string>, data: map<string, FieldValue>, k: string)
    requires IsOrder(order, data) && k in data
    ensures exists i :: 0 <= i < |order| && Meant(order, data)[i] == Assignment(EnvKey(k), ValueToBytes(data[k]))
  {
    var i :| 0 <= i < |order| && order[i] == k;
    assert Meant(order, data)[i] == Assignment(EnvKey(k), ValueToBytes(data[k]));
  }

  /** The variable of a field holds the value of some field whose key converts alike. */
  lemma VariableSource(order: seq<string>, data: map<string, FieldValue>, n: string) returns (k: string)
    requires IsOrder(order, data) && n in AsMap(Meant(order, data))
    ensures k in data && EnvKey(k) == n && AsMap(Meant(order, data))[n] == ValueToBytes(data[k])
  {
    var meant := Meant(order, data);
    var h :| 0 <= h < |meant| && meant[h] == Assignment(n, AsMap(meant)[n]);
    k := order[h];
    assert k in order;
  }

  // ---------- the whole file ----------

  lemma {:induction false} NameIsLiteral(name: string, rest: string)
    requires forall i :: 0 <= i < |name| ==> IsNameChar(name[i])
    ensures ReadWord(name + "=" + rest, false) == Prepend(name + "=", ReadWord(rest, false))
  {
    var s, r := name + "=" + rest, ReadWord(rest, false);
    if name == "" {
      assert s == ['='] + rest;
      WordLiteral('=', rest, false);
    } else {
      var more := name[1..] + "=" + rest;
      assert s == [name[0]] + more && name + "=" == [name[0]] + (name[1..] + "=");
      WordLiteral(name[0], more, false);
      NameIsLiteral(name[1..], rest);
      assert r.Some? ==> [name[0]] + ((name[1..] + "=") + r.value.0) == (name + "=") + r.value.0;
    }
  }

  /** The input left over is the lines from some point of the order on. */
  ghost predicate LeavesLines(r: Option<(string, string)>, order: seq<string>, data: map<string, FieldValue>)
    requires forall k :: k in order ==> k in data
  {
    r.Some? ==> exists m: nat :: m <= |order| && r.value.1 == Lines(order[m..], data)
  }

  lemma LeavesLater(r: Option<(string, string)>, order: seq<string>, data: map<string, FieldValue>)
    requires order != [] && (forall k :: k in order ==> k in data) && LeavesLines(r, order[1..], data)
    ensures LeavesLines(r, order, data)
  {
    if r.Some? {
      var m: nat :| m <= |order[1..]| && r.value.1 == Lines(order[1..][m..], data);
      assert order[1..][m..] == order[m + 1..];
    }
  }

  lemma LeavesAll(text: string, order: seq<string>, data: map<string, FieldValue>)
    requires forall k :: k in order ==> k in data
    ensures LeavesLines(Some((text, Lines(order, data))), order, data)
  {
    assert order[0..] == order;
  }

  /** However an unquoted line is read, even across line ends, reading stops at the start of a line. */
  lemma {:induction false} StopsAtLine(v: string, order: seq<string>, data: map<string, FieldValue>, tilde: bool)
    requires Unquoted(v) && forall k :: k in order ==> k in data
    ensures LeavesLines(ReadWord(v + "\n" + Lines(order, data), tilde), order, data)
    decreases |order|, |v|
  {
    var tail := Lines(order, data);
    var s := v + "\n" + tail;
    if v == "" {
      assert s[1..] == tail;
      LeavesAll("", order, data);
    } else if v[0] != '\\' {
      assert s[0] == v[0] && s[1..] == v[1..] + "\n" + tail;
      StopsAtLine(v[1..], order, data, v[0] == ':');
    } else if |v| > 1 {
      assert s[1] == v[1] && s[2..] == v[2..] + "\n" + tail;
      StopsAtLine(v[2..], order, data, false);
    } else {
      assert s[0] == '\\' && s[1] == '\n' && s[2..] == tail;
      ContinuedStopsAtLine(order, data);
    }
  }

  lemma {:induction false} ContinuedStopsAtLine(order: seq<string>, data: map<string, FieldValue>)
    requires forall k :: k in order ==> k in data
    ensures LeavesLines(ReadWord(Lines(order, data), false), order, data)
    decreases |order|, 0
  {
    if order == [] {
      LeavesAll("", order, data);
    } else {
      var value, rest := ValueToBytes(data[order[0]]), order[1..];
      ValueStopsAtLine(value, rest, data, false);
      var word := ReadWord(Escape(value) + "\n" + Lines(rest, data), false);
      LeavesLater(word, order, data);
      ContinuedLine(order[0], data[order[0]], Lines(rest, data));
      assert LeavesLines(Prepend(EnvKey(order[0]) + "=", word), order, data);
    }
  }

  lemma ContinuedLine(k: string, v: FieldValue, tail: string)
    ensures ReadWord(Line(k, v) + tail, false) ==
            Prepend(EnvKey(k) + "=", ReadWord(Escape(ValueToBytes(v)) + "\n" + tail, false))
  {
    var word := Escape(ValueToBytes(v)) + "\n" + tail;
    assert Line(k, v) + tail == EnvKey(k) + "=" + word;
    NameIsLiteral(EnvKey(k), word);
  }

  lemma {:induction false} ValueStopsAtLine(v: string, order: seq<string>, data: map<string, FieldValue>, tilde: bool)
    requires forall k :: k in order ==> k in data
    ensures LeavesLines(ReadWord(Escape(v) + "\n" + Lines(order, data), tilde), order, data)
    decreases |order|, |v| + 1
  {
    if NeedsQuotes(v) {
      ReadQuotedWord(v, Lines(order, data), tilde);
      LeavesAll(v, order, data);
    } else {
      assert forall i :: 0 <= i < |v| ==> !Triggers(v[i]);
      StopsAtLine(v, order, data, tilde);
    }
  }

  /** The assignment is that of some line: its name is the line's, and its value is the field's only if the field is
      readable. */
  ghost predicate ComesFrom(a: Assignment, order: seq<string>, data: map<string, FieldValue>)
    requires forall k :: k in order ==> k in data
  {
    exists k :: k in order && a.name == EnvKey(k) && (a.value == ValueToBytes(data[k]) ==> FieldReadable(k, data[k]))
  }

  /** Whatever is read, every assignment comes from a line. */
  lemma {:induction false} AllComeFromLines(order: seq<string>, data: map<string, FieldValue>)
    requires (forall k :: k in order ==> k in data) && ReadFile(Lines(order, data)).Some?
    ensures forall a :: a in ReadFile(Lines(order, data)).value ==> ComesFrom(a, order, data)
    decreases |order|
  {
    if order != [] {
      var k, rest := order[0], order[1..];
      var value, tail := ValueToBytes(data[k]), Lines(rest, data);
      LineThenRest(k, data[k], tail);
      ValueStopsAtLine(value, rest, data, true);
      var word := ReadWord(Escape(value) + "\n" + tail, true).value;
      var m: nat :| m <= |rest| && word.1 == Lines(rest[m..], data);
      AllComeFromLines(rest[m..], data);
      LinesAreLines(rest, data);
      if !Readable(value) {
        UnreadableIsLost(value, tail);
      }
      assert ComesFrom(Assignment(EnvKey(k), word.0), order, data);
      forall a | a in ReadFile(word.1).value ensures ComesFrom(a, order, data) {
        assert ComesFrom(a, rest[m..], data);
      }
    }
  }

  /** The shell ends up with every field's value in the variable its key converts to. */
  ghost predicate ShellHasAll(order: seq<string>, data: map<string, FieldValue>)
    requires IsOrder(order, data)
  {
    var read := ReadFile(Lines(order, data));
    read.Some? && forall k :: k in data ==>
      EnvKey(k) in AsMap(read.value) && AsMap(read.value)[EnvKey(k)] == ValueToBytes(data[k])
  }

  ghost predicate AllReadable(data: map<string, FieldValue>) {
    forall k :: k in data ==> FieldReadable(k, data[k])
  }

  /** Fields whose keys convert alike have equal values. */
  ghost predicate AlikeAreEqual(data: map<string, FieldValue>) {
    forall j, k :: j in data && k in data && EnvKey(j) == EnvKey(k) ==> ValueToBytes(data[j]) == ValueToBytes(data[k])
  }

  /** Whatever order the map iteration takes, that is so exactly when every key converts to a shell name, every value is
      quoted or plain, and fields whose keys convert alike have equal values. There is no other variable then. */
  lemma EnvFileReadBackIff(order: seq<string>, data: map<string, FieldValue>)
    requires IsOrder(order, data)
    ensures ShellHasAll(order, data) <==> AllReadable(data) && AlikeAreEqual(data)
    ensures ShellHasAll(order, data) ==>
            AsMap(ReadFile(Lines(order, data)).value).Keys == set k | k in data :: EnvKey(k)
  {
    if ShellHasAll(order, data) {
      AlikeNeeded(order, data);
      forall k | k in data ensures FieldReadable(k, data[k]) {
        NeededReadable(order, data, k);
      }
    }
    if AllReadable(data) {
      FileReadBackIff(order, data);
      MeantNames(order, data);
      if AlikeAreEqual(data) {
        AlikeSuffice(order, data);
      }
    }
  }

  lemma AlikeNeeded(order: seq<string>, data: map<string, FieldValue>)
    requires IsOrder(order, data) && ShellHasAll(order, data)
    ensures AlikeAreEqual(data)
  {
    var m := AsMap(ReadFile(Lines(order, data)).value);
    forall j, k | j in data && k in data && EnvKey(j) == EnvKey(k)
      ensures ValueToBytes(data[j]) == ValueToBytes(data[k])
    {
      assert m[EnvKey(j)] == ValueToBytes(data[j]);
    }
  }

  lemma AlikeSuffice(order: seq<string>, data: map<string, FieldValue>)
    requires IsOrder(order, data) && AlikeAreEqual(data) && ReadFile(Lines(order, data)) == Some(Meant(order, data))
    ensures ShellHasAll(order, data)
  {
    MeantNames(order, data);
    var m := AsMap(Meant(order, data));
    forall k | k in data ensures EnvKey(k) in m && m[EnvKey(k)] == ValueToBytes(data[k]) {
      assert EnvKey(k) in m.Keys;
      var j := VariableSource(order, data, EnvKey(k));
    }
  }

  lemma NeededReadable(order: seq<string>, data: map<string, FieldValue>, k: string)
    requires IsOrder(order, data) && ShellHasAll(order, data) && k in data
    ensures FieldReadable(k, data[k])
  {
    AllComeFromLines(order, data);
    var m := AsMap(ReadFile(Lines(order, data)).value);
    var a := AssignmentOf(ReadFile(Lines(order, data)).value, EnvKey(k));
    assert ComesFrom(a, order, data);
    var j :| j in order && a.name == EnvKey(j) && (a.value == ValueToBytes(data[j]) ==> FieldReadable(j, data[j]));
    assert m[EnvKey(j)] == ValueToBytes(data[j]);
    AlikeReadable(j, data[j], k, data[k]);
  }

  lemma AssignmentOf(read: seq<Assignment>, n: string) returns (a: Assignment)
    requires n in AsMap(read)
    ensures a in read && a == Assignment(n, AsMap(read)[n])
  {
    var i :| 0 <= i < |read| && read[i] == Assignment(n, AsMap(read)[n]);
    a := read[i];
  }

  lemma AlikeReadable(j: string, v: FieldValue, k: string, w: FieldValue)
    requires EnvKey(j) == EnvKey(k) && ValueToBytes(v) == ValueToBytes(w) && FieldReadable(j, v)
    ensures FieldReadable(k, w)
  {
  }

  lemma MeantNames(order: seq<string>, data: map<string, FieldValue>)
    requires IsOrder(order, data)
    ensures AsMap(Meant(order, data)).Keys == set k | k in data :: EnvKey(k)
  {
    var m := AsMap(Meant(order, data));
    forall k | k in data ensures EnvKey(k) in m {
      MeantAt(order, data, k);
    }
    forall n | n in m ensures exists k :: k in data && EnvKey(k) == n {
      var k := VariableSource(order, data, n);
    }
  }

  // ---------- in plain words ----------

  /** The value holds a blank, a newline, a tab, a quote of either kind or an equals sign. */
  predicate HoldsQuoted(v: string) {
    ' ' in v || '\n' in v || '\t' in v || '"' in v || '\'' in v || '=' in v
  }

  /** The value holds a character that an unquoted word cannot hold as it is. */
  predicate HoldsSpecial(v: string) {
    '|' in v || '&' in v || ';' in v || '<' in v || '>' in v || '(' in v || ')' in v || '$' in v || '`' in v ||
      '\\' in v
  }

  /** A tilde at the start of the value or after a colon. */
  predicate HoldsTilde(v: string) {
    exists i :: 0 <= i < |v| && v[i] == '~' && (i == 0 || v[i - 1] == ':')
  }

  lemma QuotedIs(v: string)
    ensures NeedsQuotes(v) <==> HoldsQuoted(v)
  {
    if HoldsQuoted(v) {
      var c :| c in v && (c == ' ' || c == '\n' || c == '\t' || c == '"' || c == '\'' || c == '=');
      var i :| 0 <= i < |v| && v[i] == c;
      assert Triggers(v[i]);
    }
    if NeedsQuotes(v) {
      var i :| 0 <= i < |v| && Triggers(v[i]);
      assert v[i] in v;
    }
  }

  lemma PlainIs(v: string)
    requires !HoldsQuoted(v)
    ensures Plain(v, true) <==> !HoldsSpecial(v) && !HoldsTilde(v)
  {
    if HoldsSpecial(v) {
      var c :| c in v && (IsActive(c) || c == '\\');
      var i :| 0 <= i < |v| && v[i] == c;
    } else if !Plain(v, true) {
      var i :| 0 <= i < |v| && (IsActive(v[i]) || v[i] == '\\' || (v[i] == '~' && TildeAt(v, i, true)));
      assert v[i] in v;
    }
    if HoldsTilde(v) {
      var i :| 0 <= i < |v| && v[i] == '~' && (i == 0 || v[i - 1] == ':');
      assert TildeAt(v, i, true);
    }
  }

  /** A written value is read back as itself, and the lines after it are left alone, exactly if it holds one of the six
      characters that have it quoted, or none that is special to a shell. */
  lemma WrittenReadBackIff(v: string, tail: string)
    ensures ReadWord(Escape(v) + "\n" + tail, true) == Some((v, tail)) <==>
            HoldsQuoted(v) || (!HoldsSpecial(v) && !HoldsTilde(v))
  {
    ValueReadBackIff(v, tail);
    QuotedIs(v);
    if !HoldsQuoted(v) {
      PlainIs(v);
    }
  }

  /** A value is written as it is exactly if it holds none of the six. */
  lemma WrittenAsIs(v: string)
    ensures Escape(v) == v <==> !HoldsQuoted(v)
  {
    QuotedIs(v);
    if HoldsQuoted(v) {
      InnerGrows(v);
      assert |Escape(v)| > |v|;
    }
  }

  /** Otherwise it is written in single quotes, and as it is between them if it holds none itself. */
  lemma WrittenInQuotes(v: string)
    requires HoldsQuoted(v) && '\'' !in v
    ensures Escape(v) == "'" + v + "'"
  {
    QuotedIs(v);
    InnerKeeps(v);
  }

  /** A single quote in it leaves the quotes, is escaped, and enters them again. */
  lemma WrittenQuote(a: string, b: string)
    requires '\'' !in a && '\'' !in b
    ensures Escape(a + "'" + b) == "'" + (a + "'\\''" + b) + "'"
  {
    OneQuote(a, b);
    assert Triggers((a + "'" + b)[|a|]);
  }

  lemma {:induction false} InnerGrows(v: string)
    ensures |Inner(v)| >= |v|
  {
    if v != "" {
      InnerGrows(v[1..]);
    }
  }

  lemma {:induction false} InnerKeeps(v: string)
    requires '\'' !in v
    ensures Inner(v) == v
  {
    if v != "" {
      InnerKeeps(v[1..]);
      assert [v[0]] + v[1..] == v;
    }
  }

  lemma OneQuote(a: string, b: string)
    requires '\'' !in a && '\'' !in b
    ensures Inner(a + "'" + b) == a + "'\\''" + b
  {
    assert "'"[1..] == "";
    InnerConcat(a + "'", b);
    InnerConcat(a, "'");
    InnerKeeps(a);
    InnerKeeps(b);
  }

  /** A key is converted byte by byte: small letters to capitals, capitals and digits as they are, others to "_". */
  lemma EnvKeyIs(key: string, i: nat)
    requires i < |key|
    ensures |EnvKey(key)| == |key|
    ensures var c, r := key[i], EnvKey(key)[i];
            ('a' <= c <= 'z' ==> r as int == c as int - 'a' as int + 'A' as int) &&
            ('A' <= c <= 'Z' || '0' <= c <= '9' ==> r == c) &&
            (!('a' <= c <= 'z' || 'A' <= c <= 'Z' || '0' <= c <= '9') ==> r == '_')
  {
  }

  /** The text a field is written as: its text, its bytes, or its JSON. */
  predicate HasText(v: FieldValue, text: string) {
    match v
    case Str(t) => text == t
    case Raw(b) => text == b
    case Other(j) => text == j
  }

  /** The field survives: its key does not begin with a digit, and its text is quoted or not special. */
  ghost predicate Survives(key: string, v: FieldValue) {
    key != "" && !('0' <= key[0] <= '9') &&
    forall text :: HasText(v, text) ==> HoldsQuoted(text) || (!HoldsSpecial(text) && !HoldsTilde(text))
  }

  lemma SurvivesIff(key: string, v: FieldValue)
    ensures FieldReadable(key, v) <==> Survives(key, v)
  {
    var text := ValueToBytes(v);
    assert HasText(v, text) && forall t :: HasText(v, t) ==> t == text;
    QuotedIs(text);
    if !HoldsQuoted(text) {
      PlainIs(text);
    }
    forall i | 0 <= i < |key| ensures IsNameChar(EnvKey(key)[i]) {
      EnvKeyIs(key, i);
    }
    if key != "" {
      EnvKeyIs(key, 0);
    }
  }

  /** The shell ends up with every field's text in the variable its key converts to. */
  ghost predicate ShellHasTexts(order: seq<string>, data: map<string, FieldValue>)
    requires IsOrder(order, data)
  {
    var read := ReadFile(Lines(order, data));
    read.Some? && forall k, text :: k in data && HasText(data[k], text) ==>
      At(AsMap(read.value), EnvKey(k)) == Some(text)
  }

  /** Fields whose keys convert alike have equal texts. */
  ghost predicate AlikeTexts(data: map<string, FieldValue>) {
    forall j, k, a, b ::
      j in data && k in data && EnvKey(j) == EnvKey(k) && HasText(data[j], a) && HasText(data[k], b) ==> a == b
  }

  lemma TextIs(v: FieldValue, text: string)
    ensures HasText(v, text) <==> text == ValueToBytes(v)
  {
  }

  lemma TextsAreValues(order: seq<string>, data: map<string, FieldValue>)
    requires IsOrder(order, data)
    ensures ShellHasTexts(order, data) <==> ShellHasAll(order, data)
  {
    var read := ReadFile(Lines(order, data));
    if ShellHasTexts(order, data) {
      forall k | k in data
        ensures EnvKey(k) in AsMap(read.value) && AsMap(read.value)[EnvKey(k)] == ValueToBytes(data[k])
      {
        assert HasText(data[k], ValueToBytes(data[k]));
        assert At(AsMap(read.value), EnvKey(k)) == Some(ValueToBytes(data[k]));
      }
    }
    if ShellHasAll(order, data) {
      forall k, text | k in data && HasText(data[k], text) ensures At(AsMap(read.value), EnvKey(k)) == Some(text) {
        TextIs(data[k], text);
      }
    }
  }

  lemma AlikeTextsIff(data: map<string, FieldValue>)
    ensures AlikeTexts(data) <==> AlikeAreEqual(data)
  {
    if AlikeTexts(data) {
      forall j, k | j in data && k in data && EnvKey(j) == EnvKey(k)
        ensures ValueToBytes(data[j]) == ValueToBytes(data[k])
      {
        assert HasText(data[j], ValueToBytes(data[j])) && HasText(data[k], ValueToBytes(data[k]));
      }
    }
    if AlikeAreEqual(data) {
      forall j, k, a, b |
        j in data && k in data && EnvKey(j) == EnvKey(k) && HasText(data[j], a) && HasText(data[k], b) ensures a == b
      {
        TextIs(data[j], a);
        TextIs(data[k], b);
      }
    }
  }

  /** Whatever order the map iteration takes, that is so exactly if every field survives and fields whose keys convert
      alike have equal texts. */
  lemma FileSurvivesIff(order: seq<string>, data: map<string, FieldValue>)
    requires IsOrder(order, data)
    ensures ShellHasTexts(order, data) <==> (forall k :: k in data ==> Survives(k, data[k])) && AlikeTexts(data)
  {
    EnvFileReadBackIff(order, data);
    TextsAreValues(order, data);
    AlikeTextsIff(data);
    forall k | k in data ensures FieldReadable(k, data[k]) <==> Survives(k, data[k]) {
      SurvivesIff(k, data[k]);
    }
  }
}
