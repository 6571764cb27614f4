# Keeper secrets injector: a verified model

The injector turns pod annotations into secrets on disk and in the cluster. An annotation value names a record by a
notation; the notation is parsed into folder, record, selector and parameter; the folder path is resolved in a tree
built from a flat list; the record found there is written to a file by the sidecar agent, or to a Kubernetes Secret by
the webhook. The project models these steps and proves what they promise together.

| file | models |
|---|---|
| `Text.dfy` | Go's `strings.Split`, `Join`, `Trim`, `Index` and `LastIndex` on byte strings |
| `FolderModel.dfy`, `FolderTree.dfy`, `FolderTheorems.dfy` | the folder list as a tree on values, the pointer tree with its methods, and the theorems relating the walk down to the walk up |
| `Notation.dfy`, `Annotations.dfy` | the notation parser with a printer, and the annotation parser around it |
| `FolderCases.dfy`, `RecordCases.dfy`, `AnnotationCases.dfy`, `AgentCases.dfy`, `K8sCases.dfy` | what each operation comes to on every input, in terms of the input alone |
| `Records.dfy` | which record a title, a UID, a folder path or a notation selects; the way from the annotation to the record |
| `Values.dfy`, `EnvFile.dfy` | field values; the env file writer and a POSIX shell reader for it |
| `Retry.dfy`, `Cache.dfy` | backoff in 64-bit durations; the cache of last known good values |
| `FolderFetch.dfy` | which records a folder yields and what their files are called |
| `AgentModel.dfy`, `Agent.dfy`, `AgentTheorems.dfy` | the agent as steps on a world of files, cache and log; the agent on the heap; the theorems about whole runs |
| `AgentConditions.dfy`, `Recovery.dfy`, `EndToEnd.dfy` | for which configurations exactly the agent keeps its promises; temp files left behind; what record names taken from notations mean for the cache |
| `K8sModel.dfy`, `K8s.dfy`, `K8sTheorems.dfy`, `K8sRotation.dfy` | Secrets made from records, the reconcile and rotation loops, and the theorems about both |
| `K8sIdempotence.dfy`, `K8sSharedTargets.dfy`, `K8sInterrupted.dfy` | running the reconcile loop a second time, from the same records or broken off: when exactly it changes nothing |

Code that changes state is a class or a method with loops, proved equal to a function on values; the theorems are
lemmas about those functions. The environment is arbitrary: what Keeper answers, the clock, cancellations, how far a
file write gets, and whether the API server answers are parameters. Iteration over a Go map takes an arbitrary order.

## What the code does not promise

Where a promise fails in general, a lemma says exactly when it holds.

- The cache is keyed by Name, and the Name of a notation is the text before its first slash: the record, or the top folder
  if there is one. Two fields of one record, and any two notations below one top folder, share a cache slot, so that a
  failed refresh of one can write the other's bytes into its file (`LastGoodIff`, `LastGoodIffDistinctSlots`,
  `LastGoodIffDistinctTops`).
- For the same reason an initial pass with fail-on-error can succeed although a secret was never fetched: it is served
  what was fetched for its namesake, and nothing is reported (`SuccessMeansFetchedIff`).
- A destination named like another one's temp file can be read half written (`NeverTearsIff`).
- Temp files are created read-only and the agent is not root, so that one left behind can never be opened again: the
  secret is not refreshed any more (`CanRefreshIff`, `RecoversIff`).
- A UID listed with different parents can make a folder resolvable whose Parent chain never ends (`DuplicateUidLoops`);
  that takes such a UID (`ResolveThenGetPath`), and `WalksEndIff` says exactly which lists have no such folder. Of two siblings with
  one name only the first is ever descended into (`NoBacktracking`).
- Doubling a slash after a first component `keeper:` makes it the URI prefix (`DoubledSlash`).
- Values without a space, quote, `=` or line break are written unquoted, even if they hold `$`, a backslash or another
  character special to the shell (`ValueReadBackIff`); and a key that begins with a digit or is empty, such as `2fa`,
  makes a line no shell reads as an assignment (`FileReadBackIff`, `EnvFileReadBackIff`).
- A delay product beyond 64 bits wraps (`DelayFormulaIff`, `BackoffWraps`).
- Merging checks the size of the incoming part only: the injector itself lets a merged Secret grow beyond 1 MiB
  (`MergeExceedsLimit`, `MergeWithinLimitIff`); the API server may refuse it.
- Injecting a pod a second time from the same records can change the cluster. Each run ranges over the fields anew, so
  that two fields with different bytes under one key can end either way (`ExampleChanges`); and two secrets of one target
  can be reached in one run and not in the other where a size is within the limit in some orders only. For each mode a
  lemma says exactly when a second run changes nothing (`UpdatingIff`, `OverwriteIff`, `MergeIff`, `SkipIff`, `StrictIff`).
- A second run that breaks off can roll a Secret back to what an earlier secret of the same target brought (`RolledBack`);
  `InterruptedIff` says exactly when it is harmless.
- The webhook's index holds the last record of a title while a single lookup takes the first, and the two UID tests
  differ (`BatchAgreesIff`, `UidTestsDifferIff`).
- After an overwrite injection rotation can bring back keys that a later secret of the same target had replaced
  (`RotationAfterOverwriteIff`, `OverwriteThenRotateIff`).
- `docs/injection-modes.md` promises that the sidecar updates Kubernetes Secrets. The configuration it receives carries
  none of the fields that select a secret for this, so that the loop, which is modelled with those fields, selects
  nothing as wired (`WiredRotationIsIdle`).

## Model

| member | source | states |
|---|---|---|
| FolderTree.BuildFolderTree | pkg/ksm/folder_tree.go:26-59 | the two passes build exactly the pointer tree that the folder list describes: one node a UID, root and child lists in input order, Parent set by the last entry with a known parent |
| FolderTree.CreateNodes | pkg/ksm/folder_tree.go:32-40 | after the first pass the index has one unlinked node for every UID, named by its last entry |
| FolderTree.LinkEntry | pkg/ksm/folder_tree.go:43-56 | one more entry extends the root list or one child list and sets one Parent, and changes no other node |
| FolderTree.FolderTree.ResolvePath | pkg/ksm/folder_tree.go:63-116 | the walk down returns the UID the list's lookup finds, or the error for an empty path, a path without components, or the first component missed, with the attempted path |
| FolderTree.FolderTree.GetPath | pkg/ksm/folder_tree.go:120-135 | for a folder with a finite chain the walk up returns the joined names from the top; for an unknown UID the empty string |
| FolderTree.FolderTree.GetNode | pkg/ksm/folder_tree.go:138-140 | a node is found exactly for the listed UIDs, and is that folder's |
| FolderTree.FolderTree.ListPaths | pkg/ksm/folder_tree.go:143-152 | the list holds each path as often as there are folders of that path, empty paths left out, whatever the map order |
| FolderTheorems.PlacedIff | pkg/ksm/folder_tree.go:43-56 | Parent and the lists agree for all folders exactly if entries of one UID name the same known parent |
| FolderTheorems.PlacedByParent | pkg/ksm/folder_tree.go:43-56 | the same for one folder: it is at the top level or in a child list exactly as its Parent says |
| FolderTheorems.ListedOnce | pkg/ksm/folder_tree.go:43-56 | with distinct UIDs every folder is in exactly one list, once, and that is the list its Parent names |
| FolderTheorems.TotalEntries | pkg/ksm/folder_tree.go:43-56 | whatever the UIDs, root and all child lists together have as many entries as the input |
| FolderTheorems.ReachableIffFinite | pkg/ksm/folder_tree.go:84-113 | where entries of one UID agree, a folder can be reached from the top exactly if its Parent chain ends: nothing on or below a cycle is reachable |
| FolderTheorems.GetPathEndsIffReachable | pkg/ksm/folder_tree.go:127-132 | the unguarded loop of GetPath ends for exactly the reachable folders |
| FolderTheorems.ResolveThenGetPath | pkg/ksm/folder_tree.go:63-135 | for any list in which entries of one UID agree, cyclic or not, GetPath of a resolved folder ends and gives the path's non-empty components joined |
| FolderTheorems.GetPathThenResolve | pkg/ksm/folder_tree.go:63-135 | resolving a folder's own path gives that folder back exactly if every name on its chain is non-empty and slash-free and is the first of its name among its siblings |
| FolderTheorems.ResolveIffNamed | pkg/ksm/folder_tree.go:84-113 | with distinct sibling names a path resolves to a folder exactly if that folder's chain spells it, so it fails only when no folder has the path |
| FolderTheorems.OrderDoesNotMatter | pkg/ksm/folder_tree.go:26-116 | where entries of one UID agree on name and parent and siblings have distinct names, the order of the input changes no result, errors included |
| FolderTheorems.WalksEndIff | pkg/ksm/folder_tree.go:43-56 | for any list the Parent walk of every folder reachable from the top ends exactly if no folder whose walk is endless has an entry at the top level or below a folder whose walk ends |
| FolderTheorems.DuplicateUidLoops | pkg/ksm/folder_tree.go:43-56 | with entries of one UID that disagree a folder can resolve whose Parent walk never ends |
| FolderTheorems.PathCanResolve | pkg/ksm/folder_tree.go:63-116 | every path with a component in it resolves in some folder list |
| FolderTheorems.NoBacktracking | pkg/ksm/folder_tree.go:92-97 | with two siblings of one name a folder below the second is not found under its own path |
| FolderCases.ResolvesIff | pkg/ksm/folder_tree.go:63-116 | a path resolves to a folder exactly if its components lead down entries of the input list: at each level the first entry whose UID's last entry bears the name and that stands at the top, for want of a listed parent, or below the folder before |
| FolderCases.FailsIff | pkg/ksm/folder_tree.go:63-113 | which of the three errors it is, and with which text: an empty path, no component, or the components up to the one below which nothing matches |
| FolderCases.EndsIffWay | pkg/ksm/folder_tree.go:43-56 | the walk up ends exactly if a way leads from the top by the parents that last entries name |
| FolderCases.PathIs | pkg/ksm/folder_tree.go:120-135 | the path is made of the names on that way |
| Text.FilterParts | pkg/ksm/client.go:698-704 | the loop keeps the non-empty parts in order |
| Text.ComponentsTrim | pkg/ksm/client.go:694-704 | trimming slashes before the split changes no component |
| Text.SplitIff | pkg/ksm/folder_tree.go:69-76 | splitting gives the only list of slash-free parts that joins to the text |
| Notation.ParseNotationPath | pkg/ksm/client.go:686-772 | the loops compute the folder, record, selector and parameter of the notation, or nothing when it names no folder |
| Notation.FindSelector | pkg/ksm/client.go:712-724 | the nested loops find the first part that is a selector keyword, or none |
| Notation.PrintThenParse | pkg/ksm/client.go:686-772 | printing well-formed parts and parsing them gives them back |
| Notation.ParsedIsWellFormed | pkg/ksm/client.go:726-771 | whatever is parsed has a non-empty folder path and no folder or record called like a selector |
| Notation.RoundTripIffWellFormed | pkg/ksm/client.go:686-772 | the parts that survive printing and parsing are exactly the well-formed ones |
| Notation.CanonicalFormIsStable | pkg/ksm/client.go:686-772 | printing what was parsed and parsing it again gives the same parts |
| Notation.ParsedIff | pkg/ksm/client.go:686-772 | a notation is accepted as given parts exactly if its components are folders, a record, and, if more follow, one of the six selector words, perhaps a parameter, and anything; no folder or record is such a word |
| Notation.DoubledSlash | pkg/ksm/client.go:687-704 | doubling any slash keeps the result, but exactly where it turns a first component into the URI prefix in front of a usable component |
| Notation.TrailingSlash | pkg/ksm/client.go:694-704 | a slash at the end keeps the result |
| Annotations.SanitizeName | pkg/config/annotations.go:680-686 | a default file name has no space, slash or ASCII capital, and an ASCII name keeps its length |
| Annotations.CutAtPath | pkg/config/annotations.go:440-444 | the cut at the last ":/" falls between notation and path exactly if the path holds no ":/" |
| Annotations.AnnotationRoundTrip | pkg/config/annotations.go:370-484 | a printed notation with an output path is read back into both exactly if the path holds no ":/", and the notation then parses to its parts, colons in components included |
| Annotations.NameIsTopFolder | pkg/config/annotations.go:456-497 | the Name of a folder notation is its top folder, whatever it means below |
| Annotations.NotationWithoutPath | pkg/config/annotations.go:436-444 | without an output path the notation is kept whole exactly if no component before the last ends in a colon, a top folder ":" apart |
| Annotations.FileNotationIff | pkg/config/annotations.go:462-466 | a notation counts as a file download exactly if its selector is "file" and a file is named |
| Annotations.FileNameIsParameter | pkg/config/annotations.go:462-473 | the file name is the parameter up to a bracketed index |
| Annotations.FieldForm | pkg/config/annotations.go:381-396 | "record[field]:path" is read back as a raw single field exactly if the record is non-empty without "[" and no earlier "]:" occurs |
| Annotations.RecordForm | pkg/config/annotations.go:400-408 | "record:path" with an absolute path is read back exactly if the record is non-empty and begins with no slash, and the path holds no colon |
| AnnotationCases.PathAlone | pkg/config/annotations.go:397-399 | a value that begins with a slash, is no notation and no bracket form is a path, and the key names the record |
| AnnotationCases.RecordThenPath | pkg/config/annotations.go:400-405 | any other value that is a record and an absolute path about its last colon is read as the two |
| AnnotationCases.OtherIsPath | pkg/config/annotations.go:400-416 | and any value left is a path as it stands, an empty one the default path of the key |
| AnnotationCases.FieldOfRecord | pkg/config/annotations.go:381-396 | with a bracket and "]:", cut at the first "]:", the record before the first bracket and the field after it are taken, raw |
| AnnotationCases.BracketsWithoutRecord | pkg/config/annotations.go:381-396 | without a record there the key names it and all fields are taken |
| AnnotationCases.KeeperCutIs | pkg/config/annotations.go:423-483 | for every Keeper notation that can be cut into a notation and an absolute path about its last ":/", these are kept |
| AnnotationCases.KeeperWholeIs | pkg/config/annotations.go:423-483 | any other is kept whole, with the default path of the key |
| AnnotationCases.KeeperNameIs | pkg/config/annotations.go:456-460 | its Name: the text before the first slash, else all of it, else the key |
| AnnotationCases.KeeperFileIs | pkg/config/annotations.go:462-473 | whether it is a file, and the file's name |
| AnnotationCases.SanitizedIs | pkg/config/annotations.go:680-686 | a default file name, character by character |
| Records.GetSecretByPath | pkg/ksm/client.go:618-673 | the record is the first in the resolved folder with that title or UID; strict mode refuses several; each failing call and a bad folder path have their own error |
| Records.FindForNotation | pkg/ksm/client.go:393-431 | a folder notation selects the same record as the lookup by path in lax mode |
| Records.StrictOnlyWhenAmbiguous | pkg/ksm/client.go:657-672 | strict mode changes the answer exactly where several records match |
| Records.AnnotationFindsRecord | pkg/ksm/client.go:393-431 | the printed annotation of a visible folder's record leads through both parsers and the tree back to that record and to the output path |
| Records.LooksLikeUID | pkg/ksm/client.go:344-355 | true exactly for 22 letters, digits, dashes or underscores |
| Records.GetSecretByTitle | pkg/ksm/client.go:117-151 | the first record of the title, none, or in strict mode an error for several |
| Records.GetSecret | pkg/ksm/client.go:173-179 | a name that looks like a UID is looked up as one, any other as a title |
| Records.FilterGrows | pkg/ksm/client.go:645-655 | later records never displace earlier matches |
| RecordCases.ByPathIs | pkg/ksm/client.go:618-683 | for every vault: the failing calls, the folder error, or the answer among the positions of records in the folder, as own or inner one, with the title or UID: none, a refusal with their number, or the first |
| RecordCases.ByNameIs | pkg/ksm/client.go:117-179 | by name: from the UIDs if it is 22 letters, digits, dashes or underscores, strict mode or not; otherwise from the titles |
| EnvFile.ToEnvKey | pkg/sidecar/agent.go:526-540 | every character becomes its upper-case letter, its digit or an underscore |
| EnvFile.EscapeEnvValue | pkg/sidecar/agent.go:543-565 | a value with a triggering character is quoted with every single quote left, escaped and re-entered; any other is unchanged |
| EnvFile.FormatAsEnv | pkg/sidecar/agent.go:505-523 | the file is one line a field, in some order of the fields |
| EnvFile.ValueReadBackIff | pkg/sidecar/agent.go:543-565 | a shell reads a written value back as itself, leaving the following lines alone, exactly if it was quoted or holds nothing special to the shell |
| EnvFile.FileReadBackIff | pkg/sidecar/agent.go:505-540 | a file is read back as exactly the assignments of its fields, in order, exactly if every key converts to a shell name and every value is quoted or plain |
| EnvFile.AllComeFromLines | pkg/sidecar/agent.go:505-540 | whatever a file is read as, every assignment is that of one of its lines, and has the field's value only if that field is readable |
| EnvFile.EnvFileReadBackIff | pkg/sidecar/agent.go:505-540 | in any map order the shell ends with every value in its variable exactly if all fields are readable and keys that convert alike have equal values |
| EnvFile.WrittenReadBackIff | pkg/sidecar/agent.go:545-565 | a written value is read back as itself exactly if it holds a blank, newline, tab, quote or equals sign, or none of the characters special to a shell and no tilde at its start or after a colon |
| EnvFile.WrittenAsIs | pkg/sidecar/agent.go:545-565 | it is written as it is exactly if it holds none of those six |
| EnvFile.WrittenInQuotes | pkg/sidecar/agent.go:557-562 | otherwise in single quotes |
| EnvFile.WrittenQuote | pkg/sidecar/agent.go:558-560 | a single quote in it leaves the quotes, is escaped, and enters them again |
| EnvFile.EnvKeyIs | pkg/sidecar/agent.go:526-541 | a converted key, byte by byte |
| EnvFile.FileSurvivesIff | pkg/sidecar/agent.go:505-524 | a shell ends up with every field's text exactly if keys are not empty and begin with no digit, values are quoted or not special, and keys that convert alike have equal texts |
| Retry.WithRetry | pkg/sidecar/retry/retry.go:37-65 | the call is made until it succeeds, is cancelled in a delay or has been made as often as allowed, with the backoff delays between |
| Retry.LastAttempt | pkg/sidecar/retry/retry.go:40-62 | the last attempt is the first that succeeds, is the last allowed or is followed by a cancellation |
| Retry.CallsUntilSuccess | pkg/sidecar/retry/retry.go:40-64 | without cancellation the number of calls is that of the first success, or the maximum on failure |
| Retry.DelayFormulaIff | pkg/sidecar/retry/retry.go:48-52 | the delay is the capped doubling exactly if the product fits 64 bits or its wrapped value reaches the cap |
| Retry.DelaysGrow | pkg/sidecar/retry/retry.go:48-52 | within 64 bits delays never decrease and equal the capped doubling |
| Retry.TotalDelayBound | pkg/sidecar/retry/retry.go:47-57 | all delays together stay below both the uncapped doubling sum and as many caps |
| Retry.DefaultTotalDelay | pkg/sidecar/retry/retry.go:19-25 | with the default configuration the waiting is 600 ms at most |
| Retry.SucceedsIff | pkg/sidecar/retry/retry.go:40-64 | bytes come out exactly if they are those of the first attempt to bring any, among the first n, with no delay before it cancelled |
| Retry.CancelledIff | pkg/sidecar/retry/retry.go:54-60 | it ends by cancellation exactly if a delay before the last attempt is cancelled and no attempt up to it brought bytes |
| Retry.DefaultDelays | pkg/sidecar/retry/retry.go:19-25 | by default three attempts, with 200 ms and 400 ms between them |
| Retry.BackoffWraps | pkg/sidecar/retry/retry.go:48-52 | a base delay of 2^62 ns wraps to a negative delay |
| Cache.SecretCache.Get | pkg/sidecar/cache/cache.go:41-56 | an entry is returned exactly if present and not older than the maximum age |
| Cache.SecretCache.Set | pkg/sidecar/cache/cache.go:60-68 | the entry is replaced with the data and the time of the call, every other entry kept |
| Cache.SecretCache.Age | pkg/sidecar/cache/cache.go:72-80 | the time since the fetch, or zero for an unknown name |
| Cache.SecretCache.Clear | pkg/sidecar/cache/cache.go:91-97 | no entry is left |
| Agent.Agent.WriteSecretFile | pkg/sidecar/agent.go:441-461 | the file systems passed through are those of a growing temp file and one atomic rename, cut off where the outcome says |
| Agent.Agent.FetchSecret | pkg/sidecar/agent.go:266-354 | bytes fetched within three attempts are cached and written, else a fresh cache entry is written and not renewed, else an error is reported if configured |
| Agent.Agent.FetchSecretsFromFolder | pkg/sidecar/agent.go:357-423 | the records of the folder given by UID or path are written under the paths their titles give, those that cannot be encoded left out; it fails exactly if the folder or its records cannot be had |
| Agent.Agent.FetchAllSecrets | pkg/sidecar/agent.go:208-262 | a pass takes every secret and then every folder, and reports an error only if something failed and fail-on-error is set |
| Agent.Agent.Run | pkg/sidecar/agent.go:122-163 | the agent is ready exactly if the client exists and the initial pass reports no error, and goes on to the ticks unless in init mode |
| Agent.Agent.RunSidecarMode | pkg/sidecar/agent.go:166-205 | each tick makes one more pass over the state the last one left, its error only logged, and one rotation of the cluster |
| Agent.EveryInputArises | pkg/sidecar/agent.go:275-323 | every outcome of a fetch the theorems range over comes from some attempts |
| AgentCases.ThreeAttempts | pkg/sidecar/agent.go:275-323 | without cancellation a fetch brings what the first of three attempts to succeed brings, and nothing exactly if all three fail |
| AgentCases.LastFetchIs | pkg/sidecar/agent.go:216-229 | the time kept for a name is that of its last turn without an error, degraded ones included unless errors are to be reported |
| AgentCases.FolderTimeIs | pkg/sidecar/agent.go:231-246 | the time kept for a folder is that of its last fetch, under its configured UID |
| AgentCases.FolderMeantIs | pkg/sidecar/agent.go:363-386 | which folder is meant by a UID or a path |
| AgentCases.FolderRecordsAre | pkg/ksm/client.go:573-600 | its records are those in it as own or inner folder, in list order |
| AgentCases.FolderFileIs | pkg/sidecar/agent.go:393-416 | the file of a record that is encoded and written holds the encoding, unless a later record has the same file name |
| AgentCases.SafeCharIs | pkg/sidecar/agent.go:426-438 | what becomes of each character of a title |
| AgentTheorems.PassIsSolo | pkg/sidecar/agent.go:208-262 | with distinct names and clear paths a pass does to each secret what it would do to it alone |
| AgentTheorems.SoloLastGood | pkg/sidecar/agent.go:325-353 | whatever writes fail, a file holds the last good value as of the last pass that wrote it, and the cache the latest fetch |
| AgentTheorems.LastGoodValue | pkg/sidecar/agent.go:191-354 | over every run, write failures included, each file holds the last good value as of its last write; while writes succeed that is its secret's most recent fetch or its initial content, and failed refreshes never change it |
| AgentConditions.FolderFilesStayInside | pkg/sidecar/agent.go:395-416 | whatever the titles, a folder's files and temp files are file names ending in ".json" and ".json.tmp" directly in its output directory |
| AgentConditions.LastGoodIff | pkg/sidecar/agent.go:208-354 | for every configuration that promise holds in all runs, whatever writes fail, exactly if names are distinct, paths are distinct and no temp path of each other, and no secret is among the files of a folder that can be found |
| AgentConditions.SharedNameBreaks | pkg/sidecar/agent.go:325-350 | two secrets of one name break it |
| AgentConditions.ClashBreaks | pkg/sidecar/agent.go:441-461 | two secrets of one path, or one at the temp path of the other, break it |
| AgentConditions.FolderBreaks | pkg/sidecar/agent.go:395-410 | a record of the right title in a folder breaks it for a secret among the folder's files |
| AgentTheorems.CrashSafe | pkg/sidecar/agent.go:441-461 | at every point of a pass, whatever fails, a path that is no temp path holds its old content or, complete, one the pass means to give it |
| AgentTheorems.OnlyItsOwn | pkg/sidecar/agent.go:216-229 | with clear paths the only content meant for a destination is the one its own secret's turn writes |
| AgentConditions.NeverTearsIff | pkg/sidecar/agent.go:441-461 | for every configuration no destination is ever seen with partial content exactly if none is the temp path of another, or possibly of a folder's file |
| AgentConditions.TempDestinationTears | pkg/sidecar/agent.go:448-452 | a destination that is another one's temp path does show partial content |
| Recovery.TempThereIff | pkg/sidecar/agent.go:449-457 | after a write the temp file is there exactly if it was, or the write left it behind |
| Recovery.StaleTempFreezes | pkg/sidecar/agent.go:448-452 | over every run possible under the read-only rule a secret whose temp file is there keeps its content, whatever is fetched |
| Recovery.CanRefreshIff | pkg/sidecar/agent.go:441-461 | some run in which every write is possible changes a secret's file exactly if its temp file is not there |
| Recovery.RecoversIff | pkg/sidecar/agent.go:441-461 | after a write it can be exactly if the temp file was not there and the write does not leave it |
| AgentTheorems.RunKeepsSound | pkg/sidecar/agent.go:325-350 | in every run the cache holds the latest fetch of every name and is only used for that, a day old at most |
| AgentTheorems.FallbackIsRecent | pkg/sidecar/agent.go:325-335 | bytes written from the cache are the latest fetched under the same name, at most 24 hours before |
| AgentConditions.InitSucceedsIff | pkg/sidecar/agent.go:147-159 | with fail-on-error the initial pass succeeds exactly if every secret is served, by its own fetch or an earlier one of its name a day old at most, and written, and no folder fails |
| AgentConditions.DeliveredIsWritten | pkg/sidecar/agent.go:325-353 | the bytes a secret is served, fetched in that pass under its name, were in its file during the pass |
| AgentConditions.DeliveredStays | pkg/sidecar/agent.go:325-353 | with clear paths they are in it at the end, shared names or not |
| AgentConditions.SuccessMeansFetchedIff | pkg/sidecar/agent.go:257-353 | an initial pass without an error has fetched every secret, in all cases, exactly if there is none, or errors are reported and names are distinct or no pass can succeed |
| FolderFetch.SanitizeFilename | pkg/sidecar/agent.go:426-438 | safe characters are kept, spaces become dashes, others are dropped |
| FolderFetch.SafeNameIsSafe | pkg/sidecar/agent.go:426-438 | the result is of safe characters only, and a title stays as it is exactly if it is |
| FolderFetch.FetchFolderRecords | pkg/sidecar/agent.go:363-391 | the records in the folder given by UID or resolved by path, or failure |
| Annotations.FirstSlash | pkg/config/annotations.go:487-497 | the text before the first slash of "record/…" is the record, whatever field follows |
| EndToEnd.LastGoodIffDistinctSlots | pkg/config/annotations.go:456-460 | an agent configured with any Keeper notation annotations, with an output path or without, and with folders or without, keeps the last good value of each exactly if the texts before the first slash are pairwise distinct and the paths clear |
| EndToEnd.LastGoodIffDistinctTops | pkg/config/annotations.go:456-460 | for notations printed from folder, record and selector these texts are the top folders |
| K8s.CopyFields | pkg/webhook/k8s_secret.go:208-227 | every routed field present is written under its key over the old data, in any map order |
| K8sModel.OverlayIffCopied | pkg/webhook/k8s_secret.go:208-227 | with a mapping: under each key the bytes of a field mapped to it; with a selection: the selected fields that are present; with neither: every field; the rest stays |
| K8sCases.JobIs | pkg/webhook/k8s_secret.go:191-272 | what a secret asks for: nothing, a Secret without a name, or the one in the namespace, with the data, labels, annotations, owners and type given literally |
| K8s.BuildK8sSecret | pkg/webhook/k8s_secret.go:191-272 | the Secret has the projected data, labels, annotations, owners and type, under the name given or the default; without either there is an error |
| K8s.ValidateSecretSize | pkg/webhook/k8s_secret.go:340-349 | true exactly if keys and values total at most 1 MiB, whatever the order of summation |
| K8s.BatchFetchSecrets | pkg/webhook/k8s_secret.go:109-188 | each secret's index holds the last record of its UID or title, its notation value or its file; the batch fails as a whole exactly if the list or one secret fails |
| K8sCases.BatchEntryIs | pkg/webhook/k8s_secret.go:121-175 | the batch holds the fields of the last record of that UID, if the name is 22 characters without a space, else of that title; nothing if there is none |
| K8sCases.OwnCallIs | pkg/webhook/k8s_secret.go:109-188 | a notation's value goes under "value" and a file's content under its name, a notation first |
| K8sCases.SingleEntryIs | pkg/sidecar/agent.go:588-628 | rotation takes the record a lookup by name finds, and fails where that fails |
| K8sCases.BatchGoesThrough | pkg/webhook/k8s_secret.go:109-188 | the batch goes through exactly if the list can be had, no call fails and, with fail-on-error, no record is missing |
| K8s.FilterK8sSecretConfigs | pkg/webhook/k8s_secret.go:96-105 | with the pod's flag all secrets, otherwise those flagged themselves, in order |
| K8sCases.FlaggedIs | pkg/webhook/k8s_secret.go:96-105 | the secrets flagged themselves, by position |
| K8s.Cluster.CreateOrUpdateSecret | pkg/webhook/k8s_secret.go:275-337 | the cluster and the error after one secret, for every mode and every failing API call |
| K8sCases.StepStopsIff | pkg/webhook/k8s_secret.go:67-90 | a step reports each error exactly if the secret meets it, and then changes nothing; a target that does not exist is created in every mode |
| K8sCases.RunStopsIff | pkg/webhook/k8s_secret.go:67-90 | the loop reports an error exactly if some secret meets it on what those before it leave, and leaves that |
| K8s.Cluster.InjectK8sSecrets | pkg/webhook/k8s_secret.go:26-93 | the cluster afterwards is the reconciliation of what the secrets ask for up to the first error; without client or batch nothing changes and fail-on-error decides |
| K8s.Cluster.UpdateK8sSecrets | pkg/sidecar/agent.go:568-681 | without a client nothing; otherwise the cluster is the rotation of each selected secret's fresh projection in the configured, the pod's or the default namespace, failures skipped |
| K8sCases.RefreshIs | pkg/sidecar/agent.go:568-678 | one refresh: the flag and a name select; the fields are written over the data of the Secret of that name in the namespace configured, the pod's or "default"; nothing else changes, and nothing at all where something fails |
| K8sTheorems.OverwriteLastWins | pkg/webhook/k8s_secret.go:323-332 | under overwrite the last secret of a target decides its data, labels and annotations, while its type stays |
| K8sTheorems.MergeLastWriter | pkg/webhook/k8s_secret.go:296-321 | under merge each key has its last writer and untouched keys survive |
| K8sCases.MergeOwners | pkg/webhook/k8s_secret.go:313-319 | after a merge that goes through the owners are those of the last secret that has any, with owner references on, and otherwise those of the Secret that was there or was created; the type stays |
| K8sCases.MergeValues | pkg/webhook/k8s_secret.go:296-311 | every data key, label and annotation has the last value written, or what was there |
| K8sTheorems.SkipFirstWins | pkg/webhook/k8s_secret.go:292-294 | under skip-if-exists existing Secrets stay and the first secret of a missing target creates it |
| K8sTheorems.FailModeIff | pkg/webhook/k8s_secret.go:289-290 | under fail the loop succeeds exactly if all targets are absent before and distinct and no Secret lacks a name, is too big or meets a failing call, and then each target holds its own secret and nothing else changes |
| K8sTheorems.OthersUntouched | pkg/webhook/k8s_secret.go:67-90 | in every mode, even on error, no other Secret changes and none is deleted |
| K8sTheorems.ReconcileTwice | pkg/webhook/k8s_secret.go:67-90 | with the very same data a second time the loop leaves the cluster unchanged in every mode, with shared targets and after an error too |
| K8sIdempotence.FixedIsIdempotent | pkg/webhook/k8s_secret.go:67-90 | from the same pod and records, with data made anew in any field order, a second run changes nothing in any mode if no secret that can be reached has fields with different bytes under one key |
| K8sIdempotence.UpdatingIff | pkg/webhook/k8s_secret.go:208-227 | with distinct targets that is the exact condition under merge and overwrite |
| K8sIdempotence.SkipIff | pkg/webhook/k8s_secret.go:292-294 | under skip-if-exists a second run changes nothing exactly if no secret it can reach, at or after one refused for its size in some orders only, has a target not named before that one |
| K8sIdempotence.StrictIff | pkg/webhook/k8s_secret.go:289-290 | under fail, or an unknown mode, exactly if the first secret with a record is within the size limit in every order or in none, or lacks a name |
| K8sIdempotence.ExampleChanges | pkg/webhook/k8s_secret.go:208-213 | one record with two fields mapped to one key: the first run can leave one value and the second the other |
| K8sIdempotence.JobsAreARun | pkg/webhook/k8s_secret.go:67-90 | what the loop asks for up to its first error is all that a complete run does, so that runs cover broken-off ones |
| K8sSharedTargets.OverwriteIff | pkg/webhook/k8s_secret.go:323-332 | under overwrite, targets shared or not, exactly if, wherever two runs can stop, the last secret of every target that the second reaches becomes the same Secret as the last one the first reached |
| K8sSharedTargets.MergeIff | pkg/webhook/k8s_secret.go:296-321 | under merge exactly if both runs agree on the record name of the last secret of each target and on the bytes that the last writer gives each data key |
| K8sSharedTargets.OverwriteSettledIff | pkg/webhook/k8s_secret.go:323-332 | where no size is within the limit in some orders only, exactly if the last secret of every target has no fields with different bytes under one key |
| K8sSharedTargets.MergeSettledIff | pkg/webhook/k8s_secret.go:296-321 | the same under merge for the last secret to write each data key, and for that key only |
| K8sInterrupted.InterruptedIff | pkg/webhook/k8s_secret.go:67-90 | after a run that went through, a second one whose calls fail anywhere leaves the cluster unchanged exactly if, in the updating modes, every secret asks for what the last of its target, or under merge all of them together, brought |
| K8sInterrupted.DistinctIsHarmless | pkg/webhook/k8s_secret.go:67-90 | with distinct targets that is always so |
| K8sInterrupted.RolledBack | pkg/webhook/k8s_secret.go:323-332 | two secrets overwrite one target, and a second run whose second write fails leaves the first one's data |
| K8sTheorems.SizeOfUnion | pkg/webhook/k8s_secret.go:296-303 | merged data has the size of both parts less that of the entries replaced |
| K8sTheorems.SizeGrowth | pkg/webhook/k8s_secret.go:78-85 | a Secret grows by at most 1 MiB with each job for it |
| K8sTheorems.SizeLimited | pkg/webhook/k8s_secret.go:78-85 | outside merge a Secret keeps its data or ends within 1 MiB |
| K8sTheorems.MergeExceedsLimit | pkg/webhook/k8s_secret.go:296-303 | two Secrets at the limit merge into one of twice the limit, which the injector's own check lets through |
| K8sTheorems.MergeWithinLimitIff | pkg/webhook/k8s_secret.go:78-85 | a merge ends within 1 MiB exactly if existing plus incoming size less that of the replaced entries does |
| K8sTheorems.MergeRunWithinLimitIff | pkg/webhook/k8s_secret.go:67-90 | the same for a whole run and any target, where what comes in is the last value written under each key |
| K8sModel.OverlayAddsProjection | pkg/sidecar/agent.go:646-665 | refreshing a Secret adds the same projection to its data that building one makes |
| K8sRotation.BatchAgrees | pkg/webhook/k8s_secret.go:160-175 | with distinct titles and UIDs, and names on which the UID tests agree, the batch holds exactly what a single lookup finds |
| K8sRotation.EntriesAre | pkg/webhook/k8s_secret.go:121-175 | the batch takes the last record that its own UID test leads to, a single lookup the first that the client's does, unless strict mode refuses |
| K8sRotation.BatchAgreesIff | pkg/webhook/k8s_secret.go:121-175 | whatever fields the records hold, both agree exactly if nothing is refused and the two places are one; where the UID tests agree, exactly if at most one record has the name |
| K8sRotation.UidTestsDifferIff | pkg/webhook/k8s_secret.go:352-354 | the two UID tests differ exactly on 22 characters without space that are not all letters, digits, dashes or underscores |
| K8sRotation.DeterminedIffUnambiguous | pkg/webhook/k8s_secret.go:208-227 | the data is the same for every map order exactly if fields written under one key have equal bytes |
| K8sRotation.RotationOverrides | pkg/sidecar/agent.go:583-678 | after rotation every data key holds its last refreshed bytes or what it held, and nothing else changes |
| K8sRotation.InjectThenRotate | pkg/sidecar/agent.go:583-678 | after a merge injection, rotating from the same Keeper state changes nothing |
| K8sRotation.RotationAfterOverwriteIff | pkg/webhook/k8s_secret.go:323-332 | after an overwrite injection it changes nothing exactly if the last secret of every target carries every key written to it |
| K8sRotation.OverwriteThenRotateIff | pkg/webhook/k8s_secret.go:323-332 | the same from a Keeper state: a pod injected by overwriting and rotated from the same state |
| K8sRotation.WiredRotationIsIdle | cmd/sidecar/main.go:154-165 | with the configuration handed to the sidecar, rotation selects no secret |

## Left out

- FolderTree.FolderTree.GetPath: requires a finite Parent chain, because the source loops forever on any other; `GetPathEndsIffReachable` says which folders those are.
- FolderTree.FolderTree.ListPaths: requires every chain to be finite, for the same reason.
- Agent.Agent.FetchSecret: does not model which Keeper call an attempt makes or how its answer is formatted; an attempt brings arbitrary bytes or fails.
- EnvFile.FormatAsEnv: values are sequences of code points, so that the replacement of invalid UTF-8 is not captured; keys are bytes.
- Annotations.SanitizeName: lower-cases ASCII letters only.
- AgentConditions.LastGoodIff: takes secret paths as clean, so that two names of one file, such as `/s/x` and `/s//x`, count as different.
- AgentConditions.FolderFilesStayInside: takes the output directory as already clean, so that `filepath.Join` only appends to it.
- Cache.SecretCache.Get: durations are unbounded, so that the saturation of `time.Since` is not captured.
- K8sTheorems.MergeExceedsLimit: does not model the API server's own limit on Secrets, which can refuse the update; the model takes any answer of its calls.
- Mutexes of the cache, the client and the agent: each locked section is one step.
- Level 1, 2 and 5 annotations, `parseFileAnnotation` and the flags read by `ParseAnnotations`: one lookup or one split a field.
- The selectors of `GetNotation` and `recordToSecretData`: a record is given by its converted fields.
- Go templates, YAML, JSON, properties and INI output: library code, or formats without escaping.
- The Keeper SDK, HTTP, TLS, the Kubernetes client and the cloud providers: foreign calls, modelled as arbitrary answers.
- Pod patches, metrics, the health server, signals and logging: no state that the promises depend on.
