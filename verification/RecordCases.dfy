/** Which record every lookup finds, in terms of the positions in the record list. */
module RecordCases {
  import opened Text
  import opened FolderModel
  import opened Records

  /** Positions in a list, in order. */
  predicate Increasing(ps: seq<nat>, n: nat) {
    (forall i :: 0 <= i < |ps| ==> ps[i] < n) && forall i, j :: 0 <= i < j < |ps| ==> ps[i] < ps[j]
  }

  /** The positions are those of the elements that pass the test. */
  ghost predicate Passing(ps: seq<nat>, rs: seq<Record>, p: Record -> bool) {
    Increasing(ps, |rs|) && forall k: nat :: k < |rs| ==> (k in ps <==> p(rs[k]))
  }

  /** The records are those at the positions. */
  predicate StoodAt(found: seq<Record>, rs: seq<Record>, ps: seq<nat>) {
    |found| == |ps| && forall i :: 0 <= i < |ps| ==> ps[i] < |rs| && found[i] == rs[ps[i]]
  }

  lemma StoodGrows(found: seq<Record>, rs: seq<Record>, ps: seq<nat>, more: bool)
    requires rs != [] && StoodAt(found, rs[..|rs| - 1], ps)
    ensures StoodAt(if more then found + [rs[|rs| - 1]] else found, rs, if more then ps + [|rs| - 1] else ps)
  {
    var n := |rs| - 1;
    forall i | 0 <= i < |ps| ensures ps[i] < |rs| && found[i] == rs[ps[i]] {
      assert ps[i] < n && rs[..n][ps[i]] == rs[ps[i]];
    }
    if more {
      var all, qs := found + [rs[n]], ps + [n];
      forall i | 0 <= i < |qs| ensures qs[i] < |rs| && all[i] == rs[qs[i]] {
        assert i < |ps| ==> qs[i] == ps[i] && all[i] == found[i];
      }
    }
  }

  lemma FilterStep(rs: seq<Record>, p: Record -> bool)
    requires rs != []
    ensures var n := |rs| - 1;
            Filter(rs, p) == if p(rs[n]) then Filter(rs[..n], p) + [rs[n]] else Filter(rs[..n], p)
  {
  }

  /** What a filter lets through, and where it stood. */
  lemma {:induction false} Positions(rs: seq<Record>, p: Record -> bool) returns (ps: seq<nat>)
    ensures Passing(ps, rs, p) && StoodAt(Filter(rs, p), rs, ps)
  {
    if rs == [] {
      ps := [];
    } else {
      var n := |rs| - 1;
      var before := Positions(rs[..n], p);
      ps := if p(rs[n]) then before + [n] else before;
      PassingGrows(before, rs, p);
      FilterStep(rs, p);
      StoodGrows(Filter(rs[..n], p), rs, before, p(rs[n]));
    }
  }

  lemma PassingGrows(ps: seq<nat>, rs: seq<Record>, p: Record -> bool)
    requires rs != [] && Passing(ps, rs[..|rs| - 1], p)
    ensures Passing(if p(rs[|rs| - 1]) then ps + [|rs| - 1] else ps, rs, p)
  {
    var n := |rs| - 1;
    var next := if p(rs[n]) then ps + [n] else ps;
    forall k: nat | k < |rs| ensures k in next <==> p(rs[k]) {
      assert k < n ==> (k in ps <==> p(rs[..n][k]));
      assert forall i :: 0 <= i < |ps| ==> ps[i] < n;
    }
  }

  /** Where records pass a test. */
  function Hits(rs: seq<Record>, p: Record -> bool): set<nat> {
    set i: nat | i < |rs| && p(rs[i])
  }

  lemma HitsStep(rs: seq<Record>, p: Record -> bool)
    requires rs != []
    ensures var n := |rs| - 1;
            Hits(rs, p) == (if p(rs[n]) then Hits(rs[..n], p) + {n} else Hits(rs[..n], p)) && n !in Hits(rs[..n], p)
  {
    var n := |rs| - 1;
    forall i: nat | i < n ensures rs[..n][i] == rs[i] {
    }
  }

  lemma {:induction false} HitsCount(rs: seq<Record>, p: Record -> bool)
    ensures |Filter(rs, p)| == |Hits(rs, p)|
  {
    if rs != [] {
      HitsCount(rs[..|rs| - 1], p);
      HitsStep(rs, p);
      FilterStep(rs, p);
    }
  }

  lemma FirstHit(rs: seq<Record>, p: Record -> bool)
    ensures Hits(rs, p) == {} <==> Filter(rs, p) == []
    ensures Filter(rs, p) != [] ==>
              exists i :: i in Hits(rs, p) && Filter(rs, p)[0] == rs[i] && forall j :: j in Hits(rs, p) ==> i <= j
  {
    var ps := Positions(rs, p);
    HitsCount(rs, p);
    if ps != [] {
      assert ps[0] in ps;
      forall j | j in Hits(rs, p) ensures ps[0] <= j {
        var m :| 0 <= m < |ps| && ps[m] == j;
      }
    }
  }

  /** The answer given the positions of the records that match: none, a refusal in strict mode if there are several, or
      the record at the first of them. */
  ghost predicate AnswerFor(r: Pick, strict: bool, rs: seq<Record>, hits: set<nat>)
    requires forall i :: i in hits ==> i < |rs|
  {
    if hits == {} then r == NotPicked(NoRecord)
    else if strict && |hits| > 1 then r == NotPicked(Ambiguous(|hits|))
    else exists i :: i in hits && r == Picked(rs[i]) && forall j :: j in hits ==> i <= j
  }

  lemma ChosenAnswers(strict: bool, rs: seq<Record>, p: Record -> bool)
    ensures AnswerFor(Choose(strict, Filter(rs, p)), strict, rs, Hits(rs, p))
  {
    HitsCount(rs, p);
    FirstHit(rs, p);
  }

  /** By path: the calls that fail, the folder that is not found, or the answer among the records that are in the
      folder, as their own or their inner one, and have the title or the UID. */
  lemma ByPathIs(v: Vault, strict: bool, folderPath: string, name: string)
    ensures var r := ByPath(v, strict, folderPath, name);
            if v.folders.None? then r == NotPicked(FetchFailed)
            else
              match Resolve(v.folders.value, folderPath)
              case Failed(e) => r == NotPicked(BadFolder(e))
              case Found(u) =>
                if v.records.None? then r == NotPicked(FetchFailed)
                else
                  var rs := v.records.value;
                  AnswerFor(r, strict, rs, set i: nat | i < |rs| &&
                    (rs[i].folderUid == u || rs[i].innerFolderUid == u) && (rs[i].title == name || rs[i].uid == name))
  {
    if v.folders.Some? && v.records.Some? && Resolve(v.folders.value, folderPath).Found? {
      var rs, u := v.records.value, Resolve(v.folders.value, folderPath).uid;
      ChosenAnswers(strict, rs, (r: Record) => InFolder(r, u) && Answers(r, name));
      assert Hits(rs, (r: Record) => InFolder(r, u) && Answers(r, name)) == set i: nat | i < |rs| &&
        (rs[i].folderUid == u || rs[i].innerFolderUid == u) && (rs[i].title == name || rs[i].uid == name);
    }
  }

  /** 22 letters, digits, dashes or underscores. */
  predicate ReadsAsUid(s: string) {
    |s| == 22 &&
    forall i :: 0 <= i < |s| ==>
      'A' <= s[i] <= 'Z' || 'a' <= s[i] <= 'z' || '0' <= s[i] <= '9' || s[i] == '-' || s[i] == '_'
  }

  lemma ReadsAsUidIff(s: string)
    ensures ClientUID(s) <==> ReadsAsUid(s)
  {
    if ClientUID(s) {
      forall i | 0 <= i < |s| ensures IsUidChar(s[i]) {
        assert s[i] in s;
      }
    }
  }

  lemma UidAnswer(rs: seq<Record>, name: string)
    ensures AnswerFor(Choose(false, UidMatches(rs, name)), false, rs, set i: nat | i < |rs| && rs[i].uid == name)
  {
    ChosenAnswers(false, rs, (r: Record) => r.uid == name);
    assert Hits(rs, (r: Record) => r.uid == name) == set i: nat | i < |rs| && rs[i].uid == name;
  }

  lemma TitleAnswer(strict: bool, rs: seq<Record>, name: string)
    ensures AnswerFor(Choose(strict, TitleMatches(rs, name)), strict, rs, set i: nat | i < |rs| && rs[i].title == name)
  {
    ChosenAnswers(strict, rs, (r: Record) => r.title == name);
    assert Hits(rs, (r: Record) => r.title == name) == set i: nat | i < |rs| && rs[i].title == name;
  }

  /** By name: a name that reads as a UID is answered from the UIDs, in strict mode too; any other from the titles. */
  lemma ByNameIs(v: Vault, strict: bool, name: string)
    ensures var r := ByName(v, strict, name);
            if v.records.None? then r == NotPicked(FetchFailed)
            else
              var rs := v.records.value;
              if ReadsAsUid(name) then AnswerFor(r, false, rs, set i: nat | i < |rs| && rs[i].uid == name)
              else AnswerFor(r, strict, rs, set i: nat | i < |rs| && rs[i].title == name)
  {
    ReadsAsUidIff(name);
    if v.records.Some? {
      UidAnswer(v.records.value, name);
      TitleAnswer(strict, v.records.value, name);
    }
  }
}
