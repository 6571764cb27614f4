/** The few operations of Go's `strings` package that the parsers rely on,
    for a Go string seen as a sequence of bytes. */
module Text {

  datatype Option<+T> = None | Some(value: T)

  /** What a map holds under a key, if anything. */
  function At<K, V>(m: map<K, V>, k: K): Option<V> {
    if k in m then Some(m[k]) else None
  }

  lemma SameMap<K, V>(a: map<K, V>, b: map<K, V>)
    requires forall k :: At(a, k) == At(b, k)
    ensures a == b
  {
    assert forall k :: k in a <==> At(a, k).Some?;
    assert forall k :: k in b <==> At(b, k).Some?;
    assert forall k :: k in a ==> a[k] == At(a, k).value;
    assert forall k :: k in b ==> b[k] == At(b, k).value;
  }

  /** strings.Split(s, "/"). */
  function SplitSlash(s: string): (parts: seq<string>)
    ensures |parts| > 0
    ensures forall p :: p in parts ==> '/' !in p
  {
    if s == [] then [""]
    else
      var rest := SplitSlash(s[1..]);
      if s[0] == '/' then [""] + rest else [[s[0]] + rest[0]] + rest[1..]
  }

  /** strings.Join(parts, "/"). */
  function JoinSlash(parts: seq<string>): string {
    if parts == [] then ""
    else if |parts| == 1 then parts[0]
    else parts[0] + "/" + JoinSlash(parts[1..])
  }

  function TrimLeft(s: string): string {
    if s != [] && s[0] == '/' then TrimLeft(s[1..]) else s
  }

  function TrimRight(s: string): string {
    if s != [] && s[|s| - 1] == '/' then TrimRight(s[..|s| - 1]) else s
  }

  /** strings.Trim(s, "/"). */
  function TrimSlash(s: string): string {
    TrimRight(TrimLeft(s))
  }

  /** The parts that are not empty, in order. */
  function NonEmpty(parts: seq<string>): (r: seq<string>)
    ensures forall p :: p in r <==> p in parts && p != ""
  {
    if parts == [] then []
    else if parts[0] == "" then NonEmpty(parts[1..])
    else [parts[0]] + NonEmpty(parts[1..])
  }

  /** The non-empty slash-separated components of a path. */
  function Components(s: string): seq<string> {
    NonEmpty(SplitSlash(s))
  }

  /** A path component: not empty and without a slash. */
  predicate IsComponent(p: string) {
    p != "" && '/' !in p
  }

  predicate AllComponents(parts: seq<string>) {
    forall p :: p in parts ==> IsComponent(p)
  }

  lemma {:induction false} SplitConcat(a: string, b: string)
    ensures SplitSlash(a + "/" + b) == SplitSlash(a) + SplitSlash(b)
  {
    var s := a + "/" + b;
    if a == [] {
      assert s[1..] == b;
    } else {
      assert s[0] == a[0] && s[1..] == a[1..] + "/" + b;
      SplitConcat(a[1..], b);
    }
  }

  lemma {:induction false} NonEmptyConcat(a: seq<string>, b: seq<string>)
    ensures NonEmpty(a + b) == NonEmpty(a) + NonEmpty(b)
  {
    if a == [] {
      assert a + b == b;
    } else {
      assert (a + b)[1..] == a[1..] + b;
      NonEmptyConcat(a[1..], b);
    }
  }

  /** A slash separates: the components on both sides are independent. */
  lemma ComponentsConcat(a: string, b: string)
    ensures Components(a + "/" + b) == Components(a) + Components(b)
  {
    SplitConcat(a, b);
    NonEmptyConcat(SplitSlash(a), SplitSlash(b));
  }

  /** A slash at the front or at the end adds no component. */
  lemma OuterSlash(s: string)
    ensures Components("/" + s) == Components(s) && Components(s + "/") == Components(s)
  {
    assert "" + "/" + s == "/" + s && s + "/" + "" == s + "/";
    assert Components("") == [];
    ComponentsConcat("", s);
    ComponentsConcat(s, "");
    assert Components(s) + [] == Components(s);
  }

  lemma {:induction false} ComponentsTrimLeft(s: string)
    ensures Components(TrimLeft(s)) == Components(s)
  {
    if s != [] && s[0] == '/' {
      assert s == "/" + s[1..];
      OuterSlash(s[1..]);
      ComponentsTrimLeft(s[1..]);
    }
  }

  lemma {:induction false} ComponentsTrimRight(s: string)
    ensures Components(TrimRight(s)) == Components(s)
  {
    if s != [] && s[|s| - 1] == '/' {
      assert s == s[..|s| - 1] + "/";
      OuterSlash(s[..|s| - 1]);
      ComponentsTrimRight(s[..|s| - 1]);
    }
  }

  /** Trimming slashes before splitting changes no component. */
  lemma ComponentsTrim(s: string)
    ensures Components(TrimSlash(s)) == Components(s)
  {
    ComponentsTrimRight(TrimLeft(s));
    ComponentsTrimLeft(s);
  }

  lemma {:induction false} SplitPlain(s: string)
    requires '/' !in s
    ensures SplitSlash(s) == [s]
  {
    if s != [] {
      SplitPlain(s[1..]);
      assert [s[0]] + s[1..] == s;
    }
  }

  lemma {:induction false} JoinOfSplit(s: string)
    ensures JoinSlash(SplitSlash(s)) == s
  {
    if s != [] {
      var rest, all := SplitSlash(s[1..]), SplitSlash(s);
      JoinOfSplit(s[1..]);
      if s[0] == '/' {
        assert all[1..] == rest;
      } else {
        assert all[1..] == rest[1..] && all[0] == [s[0]] + rest[0];
        assert |rest| == 1 ==> JoinSlash(all) == [s[0]] + JoinSlash(rest);
        assert |rest| > 1 ==> JoinSlash(all) == [s[0]] + (rest[0] + "/" + JoinSlash(rest[1..]));
      }
    }
  }

  lemma {:induction false} SplitOfJoin(parts: seq<string>)
    requires parts != [] && forall p :: p in parts ==> '/' !in p
    ensures SplitSlash(JoinSlash(parts)) == parts
  {
    SplitPlain(parts[0]);
    if |parts| == 1 {
      assert parts == [parts[0]];
    } else {
      SplitConcat(parts[0], JoinSlash(parts[1..]));
      SplitOfJoin(parts[1..]);
      assert [parts[0]] + parts[1..] == parts;
    }
  }

  /** Splitting gives the only list of slash-free parts that joins to the text. */
  lemma SplitIff(s: string, parts: seq<string>)
    ensures SplitSlash(s) == parts <==>
            parts != [] && (forall p :: p in parts ==> '/' !in p) && JoinSlash(parts) == s
  {
    JoinOfSplit(s);
    if parts != [] && (forall p :: p in parts ==> '/' !in p) && JoinSlash(parts) == s {
      SplitOfJoin(parts);
    }
  }

  lemma ComponentsOfOne(p: string)
    requires IsComponent(p)
    ensures Components(p) == [p]
  {
    SplitPlain(p);
    assert NonEmpty([p]) == [p] + NonEmpty([p][1..]);
  }

  /** Splitting undoes joining, for parts that are components. */
  lemma {:induction false} ComponentsOfJoin(parts: seq<string>)
    requires AllComponents(parts)
    ensures Components(JoinSlash(parts)) == parts
  {
    assert parts != [] ==> IsComponent(parts[0]);
    if |parts| == 1 {
      ComponentsOfOne(parts[0]);
      assert parts == [parts[0]];
    } else if |parts| > 1 {
      ComponentsConcat(parts[0], JoinSlash(parts[1..]));
      ComponentsOfOne(parts[0]);
      assert AllComponents(parts[1..]);
      ComponentsOfJoin(parts[1..]);
      assert [parts[0]] + parts[1..] == parts;
    }
  }

  /** Joining the joins of two lists joins the concatenation. */
  lemma {:induction false} JoinConcat(a: seq<string>, b: seq<string>)
    requires a != [] && b != []
    ensures JoinSlash(a + b) == JoinSlash(a) + "/" + JoinSlash(b)
  {
    assert (a + b)[0] == a[0] && (a + b)[1..] == a[1..] + b;
    if |a| == 1 {
      assert (a + b)[1..] == b;
    } else {
      JoinConcat(a[1..], b);
      assert JoinSlash(a + b) == a[0] + "/" + (JoinSlash(a[1..]) + "/" + JoinSlash(b));
    }
  }

  /** A joined list of components never holds two slashes in a row, and does not begin with one. */
  lemma {:induction false} JoinNoDoubleSlash(parts: seq<string>)
    requires AllComponents(parts)
    ensures forall i :: 0 <= i < |JoinSlash(parts)| - 1 && JoinSlash(parts)[i] == '/' ==> JoinSlash(parts)[i + 1] != '/'
    ensures parts != [] ==> JoinSlash(parts) != "" && JoinSlash(parts)[0] != '/'
  {
    if |parts| == 1 {
      assert IsComponent(parts[0]);
    } else if |parts| > 1 {
      assert AllComponents(parts[1..]);
      JoinNoDoubleSlash(parts[1..]);
      var s, p, rest := JoinSlash(parts), parts[0], JoinSlash(parts[1..]);
      assert s == p + "/" + rest;
      assert IsComponent(parts[0]);
      forall i | 0 <= i < |s| - 1 && s[i] == '/' ensures s[i + 1] != '/' {
        assert i >= |p|;
        assert i > |p| ==> s[i] == rest[i - |p| - 1] && s[i + 1] == rest[i - |p|];
      }
    }
  }

  predicate HasPrefix(s: string, prefix: string) {
    |prefix| <= |s| && s[..|prefix|] == prefix
  }

  /** strings.Index: the first position of `sub`, or -1. */
  function Index(s: string, sub: string): (r: int)
    ensures -1 <= r <= |s|
    ensures r >= 0 ==> HasPrefix(s[r..], sub)
    ensures forall i :: 0 <= i <= |s| && (r < 0 || i < r) ==> !HasPrefix(s[i..], sub)
  {
    if HasPrefix(s, sub) then assert s[0..] == s; 0
    else if s == [] then -1
    else
      var r := Index(s[1..], sub);
      assert forall i :: 1 <= i <= |s| ==> s[i..] == s[1..][i - 1..];
      assert s[0..] == s;
      if r < 0 then -1 else r + 1
  }

  /** strings.LastIndex: the last position of `sub`, or -1. */
  function LastIndex(s: string, sub: string): (r: int)
    ensures -1 <= r <= |s|
    ensures r >= 0 ==> HasPrefix(s[r..], sub)
    ensures forall i :: 0 <= i <= |s| && r < i ==> !HasPrefix(s[i..], sub)
  {
    if s == [] then if sub == "" then 0 else -1
    else
      var r := LastIndex(s[1..], sub);
      assert forall i :: 1 <= i <= |s| ==> s[i..] == s[1..][i - 1..];
      assert s[0..] == s;
      if r >= 0 then r + 1 else if HasPrefix(s, sub) then 0 else -1
  }

  /** strings.Contains. */
  predicate Contains(s: string, sub: string) {
    Index(s, sub) >= 0
  }

  /** A text contains another exactly if it can be cut around it. */
  lemma ContainsIff(s: string, sub: string)
    ensures Contains(s, sub) <==> exists a, b :: s == a + sub + b
  {
    if Contains(s, sub) {
      var i := Index(s, sub);
      assert s == s[..i] + sub + s[i + |sub|..] by {
        assert s[i..][..|sub|] == sub && s[i..][|sub|..] == s[i + |sub|..];
      }
    }
    if a, b :| s == a + sub + b {
      assert s[|a|..][..|sub|] == sub;
      assert HasPrefix(s[|a|..], sub);
    }
  }

  /** The loop that drops empty parts, which both the folder resolver and the
      notation parser run over the result of a split. */
  method FilterParts(rawParts: seq<string>) returns (parts: seq<string>)
    ensures parts == NonEmpty(rawParts)
  {
    parts := [];
    for i := 0 to |rawParts|
      invariant parts == NonEmpty(rawParts[..i])
    {
      NonEmptyConcat(rawParts[..i], [rawParts[i]]);
      assert rawParts[..i + 1] == rawParts[..i] + [rawParts[i]];
      if rawParts[i] != "" {
        parts := parts + [rawParts[i]];
      }
    }
    assert rawParts[..|rawParts|] == rawParts;
  }
}
