/** From annotations to the agent: what the record names taken from notations mean for the cache. */
module EndToEnd {
  import opened Text
  import opened Notation
  import opened Annotations
  import opened AgentModel
  import opened AgentTheorems
  import opened AgentConditions

  /** An annotation under its key. */
  datatype Annotated = Annotated(key: string, value: string)

  /** The agent's entry for an annotation. */
  function ConfigOf(a: Annotated): SecretConfig {
    var ref := ParseSecretAnnotation(a.key, a.value);
    SecretConfig(ref.name, ref.path)
  }

  function ConfigsOf(annotations: seq<Annotated>): seq<SecretConfig> {
    seq(|annotations|, i requires 0 <= i < |annotations| => ConfigOf(annotations[i]))
  }

  /** The notation in the annotation, without the scheme and the output path. */
  function NotationOf(a: Annotated): string {
    SplitOutput(Body(a.value)).0
  }

  /** What the cache goes by: the text of the notation before its first slash; the key if there is no notation. */
  function SlotOf(a: Annotated): string {
    if NotationOf(a) == "" then a.key else BeforeSlash(NotationOf(a))
  }

  /** The output path in the annotation, or the default one. */
  function OutputOf(a: Annotated): string {
    var path := SplitOutput(Body(a.value)).1;
    if path != "" then path else DEFAULT_SECRETS_PATH + "/" + SanitizeName(a.key)
  }

  /** The notation as it is kept, with the scheme if there is one. */
  function KeptNotation(value: string): string {
    var notation := SplitOutput(Body(value)).0;
    if HasPrefix(value, KEEPER_PREFIX) then KEEPER_PREFIX + notation else notation
  }

  lemma NotationRead(key: string, value: string)
    requires IsKeeperNotation(value)
    ensures var ref, record := ParseKeeperNotation(key, value), ExtractRecord(KeptNotation(value));
            ParseSecretAnnotation(key, value) == ref &&
            ref.name == (if record != "" then record else key) && ref.path == OutputOf(Annotated(key, value))
  {
  }

  /** The scheme does not count for the record name. */
  lemma KeptRecord(value: string)
    requires IsKeeperNotation(value)
    ensures var notation := SplitOutput(Body(value)).0;
            ExtractRecord(KeptNotation(value)) == BeforeSlash(notation) &&
              (BeforeSlash(notation) == "" <==> notation == "")
  {
    var notation := SplitOutput(Body(value)).0;
    if HasPrefix(value, KEEPER_PREFIX) {
      UriBody(notation);
    } else {
      NoScheme(value);
      SplitIsPrefix(value);
      PrefixHasNoScheme(notation, value);
    }
  }

  lemma NoScheme(s: string)
    requires HasPrefix(s, "/")
    ensures s[0] == '/' && !HasPrefix(s, KEEPER_PREFIX)
  {
    assert s[0] == s[..1][0];
    PrefixHasNoScheme(s, s);
  }

  /** The notation before an output path begins where the text begins. */
  lemma SplitIsPrefix(text: string)
    requires text != ""
    ensures SplitOutput(text).0 != "" && SplitOutput(text).0 <= text
  {
  }

  lemma PrefixHasNoScheme(start: string, s: string)
    requires start != "" && start <= s && s[0] == '/'
    ensures !HasPrefix(start, KEEPER_PREFIX)
  {
    assert start[0] == s[0];
    assert |start| >= 9 ==> start[..9][0] == start[0];
  }

  ghost predicate DistinctSlots(annotations: seq<Annotated>) {
    forall i, j :: 0 <= i < j < |annotations| ==> SlotOf(annotations[i]) != SlotOf(annotations[j])
  }

  /** Notations with the same text before the first slash, such as two fields of one record or anything below one
      top folder, share a cache slot: an agent configured with notations, whatever they say and with an output path
      or without, keeps the last good value of each exactly when these texts are pairwise distinct and the paths
      are clear of each other and of the files of configured folders. */
  lemma LastGoodIffDistinctSlots(
    annotations: seq<Annotated>, initMode: bool, folders: seq<FolderConfig>, failOnError: bool)
    requires forall a :: a in annotations ==> IsKeeperNotation(a.value)
    ensures var cfg := AgentConfig(initMode, ConfigsOf(annotations), folders, failOnError);
            (forall i :: 0 <= i < |annotations| ==> cfg.secrets[i].path == OutputOf(annotations[i])) &&
            (KeepsLastGood(cfg) <==> DistinctSlots(annotations) && PathsClear(cfg.secrets) && FoldersClear(cfg))
  {
    var cfg := AgentConfig(initMode, ConfigsOf(annotations), folders, failOnError);
    forall i | 0 <= i < |annotations|
      ensures cfg.secrets[i] == SecretConfig(SlotOf(annotations[i]), OutputOf(annotations[i]))
    {
      NotationRead(annotations[i].key, annotations[i].value);
      KeptRecord(annotations[i].value);
    }
    LastGoodIff(cfg);
    assert DistinctNames(cfg.secrets) <==> DistinctSlots(annotations);
  }

  function TopFolder(np: NotationParts): string
    requires WellFormed(np)
  {
    Components(np.folderPath)[0]
  }

  ghost predicate DistinctTops(nps: seq<NotationParts>)
    requires forall np :: np in nps ==> WellFormed(np)
  {
    forall i, j :: 0 <= i < j < |nps| ==> TopFolder(nps[i]) != TopFolder(nps[j])
  }

  /** The notations in the annotations are those of the given folders, records and selectors. */
  ghost predicate Prints(annotations: seq<Annotated>, nps: seq<NotationParts>) {
    |nps| == |annotations| && (forall np :: np in nps ==> WellFormed(np)) &&
    forall i :: 0 <= i < |nps| ==> NotationOf(annotations[i]) == PrintBody(nps[i])
  }

  lemma SlotsAreTops(annotations: seq<Annotated>, nps: seq<NotationParts>)
    requires Prints(annotations, nps)
    ensures DistinctSlots(annotations) <==> DistinctTops(nps)
  {
    forall i | 0 <= i < |nps| ensures SlotOf(annotations[i]) == TopFolder(nps[i]) {
      PrintBodyStarts(nps[i]);
    }
  }

  /** For folder notations the texts are the top folders. */
  lemma LastGoodIffDistinctTops(
    annotations: seq<Annotated>, nps: seq<NotationParts>, initMode: bool, folders: seq<FolderConfig>, failOnError: bool)
    requires Prints(annotations, nps) && forall a :: a in annotations ==> IsKeeperNotation(a.value)
    ensures var cfg := AgentConfig(initMode, ConfigsOf(annotations), folders, failOnError);
            KeepsLastGood(cfg) <==> DistinctTops(nps) && PathsClear(cfg.secrets) && FoldersClear(cfg)
  {
    LastGoodIffDistinctSlots(annotations, initMode, folders, failOnError);
    SlotsAreTops(annotations, nps);
  }
}
