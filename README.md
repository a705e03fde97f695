# Azure AD B2C policy tooling: renumbering, upload order and environment rendering

This project models the in-memory core of a toolkit for Azure AD B2C custom policies. Each policy is an XML file. Its root element carries a `PolicyId` and a `TenantId`, and a `<PolicyId>` element names the base policy it inherits from. It contains `UserJourney` elements made of `OrchestrationStep`s, each with an `Order` attribute. The project proves properties of that model in Dafny.

The model is split into seven modules. Modules three to five are helpers:

1. **RenumberSteps** (`renumber_steps.dfy`, from `src/renumber-steps.ts`) is imperative.
   - `RenumberPolicies` indexes the parsed policies by id in a JavaScript `Map`, links each policy to its base, and processes every policy after its base.
   - `Policy` is a class whose fields change in place: `basePolicy`, `processed`, `journeys`, `renumbered`, and the `file` text.
   - `hasPolicyId` is a `while` loop that walks the base chain, with a bound of 15 and a seen-set.
   - `process` rewrites each step's `Order` to its 1-based position and counts the rewrites. It skips journeys whose `Id` the base chain already defines. It re-serialises the file when something was rewritten.
2. **PolicyUpload** (`policy_upload.dfy`, from `src/policy-upload.ts`) is imperative.
   - `loadPolicies` builds a map of records (id, base id, tenant), one per document, and fails as a whole when a file cannot be read.
   - `queuePolicyForUpload` appends every policy to the upload queue after its base, using a `queued` flag on each shared record.
   - `PolicyUpload` does the empty-map check and the queueing loop.
3. **OrderedMaps**: the part of JavaScript's `Map` that the core uses. It keeps insertion order, and a later `set` of the same key wins without moving the key.
4. **PolicyXml**: the parsed document, reduced to the attributes and elements the core reads.
5. **PolicyFiles**: `PolicyFile`, whose `FileName` is the `basename` of its path.
6. **PolicyBuild** (`policy_build.dfy`, from `src/policy-build.ts`) is mixed.
   - The `Filename` and `PolicyFilename` values are pure functions.
   - The substitution chain reassigns the policy text step by step. Its last step is a `for` loop over the `PolicySettings` keys.
   - Each `{Settings:X}` token is replaced at every occurrence, ignoring case. An environment without `PolicySettings` writes nothing.
7. **Wrappers**: `Option` and `Result`.

A few things are passed in rather than modelled:
- XML parsing and serialisation are parameters (`parse`, `serialize`) over an abstract `PolicyDocument`.
- File reading is a parameter (`read`).
- Where the source recurses along base links, termination is shown by a ghost `rank` on policy ids. A base always ranks below the policies built on it.

### Behaviour on unusual input (the model follows the code)

- **Cyclic base links.** Only `hasPolicyId` guards against a cycle. Its walk stops at an id it has already seen (`src/renumber-steps.ts:88-97`). The comment there says a cycle "shouldn't technically be possible" but is guarded against anyway. `process` (`src/renumber-steps.ts:112-118`) and `queuePolicyForUpload` (`src/policy-upload.ts:83-91`) have no such guard. Each sets its flag only after the recursive call, so a cycle of base links recurses without end. The model adds no guard. Instead, both `RenumberSteps.RenumberPolicies` and `PolicyUpload.PolicyUpload` require acyclic base links (`AcyclicBases`, `AcyclicSources`). `SelfBaseStops` and `TwoCycleStops` show the walk's own guard at work.
- **Documents without an id.** `RenumberPolicies` drops a document whose root `PolicyId` is missing or empty without any message (`src/renumber-steps.ts:20-22`). Only a document that fails to parse gets a warning (lines 15-17). `loadPolicies` reports such a document at info level only.
- **What the walk reads.** `hasPolicyId` tests `currentBase.journeys` (`src/renumber-steps.ts:80`). That set holds only the ids that `process` has recorded so far; the walk never looks at an ancestor's document. Because `process` handles the base chain first, every ancestor the walk visits is processed already. The model reads the same set.
- **Rewrites are counted per attribute.** The counter grows once for each `Order` attribute that is rewritten (`src/renumber-steps.ts:143-145`). Orders `1, 5, 3` become `1, 2, 3` with a count of one, since the third step already reads `3` (`ExampleOneFiveThree`). Counting the steps out of sequence would give two. The comparison is on strings, so a zero-padded `01` is rewritten (`ZeroPaddedIsRewritten`).
- **Journeys without an `Id`, steps without an `Order`.** The model reads a missing attribute as `None`. This assumes that xmldom's `getAttribute` returns `null` for an absent attribute, as the tests at `src/renumber-steps.ts:126` and `:139` expect. On that reading, a journey without an `Id` is never renumbered, since the whole body sits inside `if (journeyId != null)`, and a step without an `Order` keeps having none. Some xmldom releases return `''` for an absent attribute. Under those releases both tests always pass: such journeys would be renumbered, and such steps given an `Order`. xmldom is not part of this model.

## Model

| member | source | states |
|---|---|---|
| OrderedMaps.Empty | src/renumber-steps.ts:9 | `new Map()`: a valid map with no keys |
| OrderedMaps.OrderedMap.Set | src/renumber-steps.ts:23 | `map.set`: the value is replaced under its key; a new key is appended to the key order and an existing key keeps its position; validity is kept |
| OrderedMaps.OrderedMap.SetValues | src/policy-upload.ts:121-129 | setting a key adds only the new value to the map's values |
| OrderedMaps.OrderedMap.Values | src/renumber-steps.ts:27 | `values()` lists the value of every key, in key order |
| OrderedMaps.OrderedMap.ValuesCover | src/renumber-steps.ts:38 | every value of the map is visited by `values()` |
| OrderedMaps.IndexOfSnoc | src/renumber-steps.ts:10-24 | one more loop turn either sets the next position's id to that position or leaves the map as it was |
| OrderedMaps.IndexOf | src/renumber-steps.ts:10-24 | the reference definition of the map-building loops: one `set` per position that carries an id, in order, each id mapped to its position (characterised by `IndexOfKeys` and `IndexOfLast`) |
| OrderedMaps.IndexOfValid | src/renumber-steps.ts:10-24 | the map built by the loop lists each key once, and exactly its keys |
| OrderedMaps.IndexOfKeys | src/renumber-steps.ts:10-24 | an id is a key exactly when some position carries it |
| OrderedMaps.IndexOfLast | src/renumber-steps.ts:23 | a key maps to a position carrying it, and no later position carries it: the last file wins |
| PolicyFiles.PolicyFile.constructor | src/policy-build.ts:167-171 | a new file's name is the base name of its path and its text is the text read |
| PolicyFiles.TrimTrailingSlashes | src/policy-build.ts:169 | the result is a prefix of the path, the part removed is all `/`, and the result does not end in `/` |
| PolicyFiles.AfterLastSlash | src/policy-build.ts:169 | the result is a suffix without `/`, preceded by a `/` unless it is the whole string |
| PolicyFiles.BaseName | src/policy-build.ts:169 | `FileName` is a whole `/`-separated segment of the path, followed only by `/`, and empty only for a path of slashes |
| RenumberSteps.DecimalString | src/renumber-steps.ts:143 | the reference definition of `Number.prototype.toString()` on a natural number: its decimal digits without leading zeros (read back by `DecimalRoundTrip`) |
| RenumberSteps.StepLabel | src/renumber-steps.ts:143-144 | the label of the step at 0-based position `i` is the decimal text of `i + 1` |
| RenumberSteps.DecimalRoundTrip | src/renumber-steps.ts:143-144 | the label `(stepIndex + 1).toString()` reads back as the number, so distinct positions get distinct labels |
| RenumberSteps.NoLeadingZero | src/renumber-steps.ts:143 | a label never starts with `0` |
| RenumberSteps.ZeroPaddedIsRewritten | src/renumber-steps.ts:143 | the comparison is on strings, so a zero-padded `Order` such as `01` is always rewritten |
| RenumberSteps.RenumberedSteps | src/renumber-steps.ts:137-147 | the reference definition of the step loop: every step with an `Order` gets its position's label, and a step without one is left as it is |
| RenumberSteps.Misplaced | src/renumber-steps.ts:143-145 | the reference definition of the count: the steps with an `Order` that differs from their label |
| RenumberSteps.RenumberedStepsPrefix | src/renumber-steps.ts:137-147 | renumbering one more step appends that step's new `Order` |
| RenumberSteps.PartlyRenumberedStep | src/renumber-steps.ts:137-147 | one turn of the step loop renumbers step `k` and counts it exactly when it is out of place |
| RenumberSteps.MisplacedCountsChanges | src/renumber-steps.ts:137-147 | `renumbered` grows by exactly the number of `Order` attributes whose value changes |
| RenumberSteps.ChangedIff | src/renumber-steps.ts:138-146 | a step changes exactly when it has an `Order` that differs from its label; a step without one is untouched |
| RenumberSteps.MisplacedZero | src/renumber-steps.ts:137-147 | no rewrite is counted exactly when the journey's steps are left as they are |
| RenumberSteps.ContiguousUnchanged | src/renumber-steps.ts:137-147 | steps already numbered `1..N` produce no change and no count |
| RenumberSteps.RenumberIdempotent | src/renumber-steps.ts:137-147 | renumbered steps renumber to themselves, with no rewrite |
| RenumberSteps.ExampleOneFiveThree | src/renumber-steps.ts:137-147 | orders 1, 5, 3 become 1, 2, 3 with exactly one rewrite |
| RenumberSteps.RenumberedJourneys | src/renumber-steps.ts:124-148 | the reference definition of the journey loop: a journey without an `Id`, or with an `Id` in the inherited set, is kept, and any other has its steps renumbered |
| RenumberSteps.Rewrites | src/renumber-steps.ts:124-148 | the reference count: the out-of-place steps of the journeys that are not skipped |
| RenumberSteps.JourneyIds | src/renumber-steps.ts:125-127 | the `Id`s of the journeys that have one |
| RenumberSteps.PartlyRenumberedJourneysStep | src/renumber-steps.ts:124-148 | one turn of the journey loop: a skipped journey is unchanged, any other has its steps renumbered; ids and counts grow accordingly |
| RenumberSteps.JourneyIdsMembers | src/renumber-steps.ts:125-127 | every journey with an `Id` adds it to `journeys`, whether renumbered or skipped |
| RenumberSteps.RenumberedJourneysPrefix | src/renumber-steps.ts:124-148 | renumbering one more journey appends that journey's result |
| RenumberSteps.RewritesZero | src/renumber-steps.ts:124-148 | no rewrite is counted exactly when the document's journeys are left as they are |
| RenumberSteps.RenumberJourneysIdempotent | src/renumber-steps.ts:124-148 | processing a renumbered document again against the same base rewrites nothing |
| RenumberSteps.InheritedJourneyUntouched | src/renumber-steps.ts:128-134 | a journey whose `Id` the base chain defines has none of its steps modified |
| RenumberSteps.RenumberingOfProcess | src/renumber-steps.ts:119-149 | what `process` does to the document is a renumbering: only steps of journeys with an `Id` change, and only to their labels |
| RenumberSteps.RenumberingTransitive | src/renumber-steps.ts:108-154 | two renumberings in a row are one renumbering |
| RenumberSteps.Policy.constructor | src/renumber-steps.ts:53-60 | a new policy holds its file and parsed document, its id is the root `PolicyId`, it is unprocessed, has no base, no journeys and no rewrites |
| RenumberSteps.Policy.SetBase | src/renumber-steps.ts:34 | the base link is set and nothing else changes |
| RenumberSteps.Policy.HasPolicyId | src/renumber-steps.ts:62-106 | the bounded walk answers true exactly for the ids in `Known`: the policy's own journeys and those of the bases it visits before a missing base, a seen id or the 15-step bound |
| RenumberSteps.Policy.RenumberJourneySteps | src/renumber-steps.ts:135-147 | the journey's steps become their renumbering, the rest of the document is unchanged, and `renumbered` grows by the out-of-place count |
| RenumberSteps.Policy.ProcessJourneys | src/renumber-steps.ts:124-149 | the document's journeys are renumbered except those the base chain defines; every journey id is recorded; the counter grows by the rewrites |
| RenumberSteps.Policy.Process | src/renumber-steps.ts:108-154 | afterwards the policy is processed and its base link unchanged. A processed policy changes nothing. Otherwise the base chain is processed first, the base's ids are merged only if the base was unprocessed, the journeys are renumbered and recorded, and the file is re-serialised only when something was rewritten. No policy off the chain changes |
| RenumberSteps.Policy.ProcessPending | src/renumber-steps.ts:112-153 | `process` on an unprocessed policy: its base chain, then itself, with the same outcome as `Process` |
| RenumberSteps.Policy.ProcessBase | src/renumber-steps.ts:112-113 | the base is processed at that point exactly when it was unprocessed, and this is reported for the merge. Afterwards the base is processed and this policy is as it was |
| RenumberSteps.Policy.FinishProcess | src/renumber-steps.ts:114-153 | with the base processed: merge the base's ids when told to, mark this policy processed, renumber and record its journeys, and re-serialise the file only on a rewrite. Only this policy and its file change |
| RenumberSteps.Policy.CompleteIn | src/renumber-steps.ts:114-153 | as `Complete`, with the base chain read in the whole set of policies |
| RenumberSteps.Policy.Complete | src/renumber-steps.ts:114-153 | lines 114-153: merge, mark processed, handle the journeys (an empty list returns at once), and re-serialise when `renumbered > 0` |
| RenumberSteps.AllSteppedCompose | src/renumber-steps.ts:112-118 | processing the base chain and then the policy steps like one processing of both: each policy that either call processes has the outcome of `process` measured against the final base chains |
| RenumberSteps.SteppedCompose | src/renumber-steps.ts:112-118 | the same for one policy: a policy processed by the first call keeps its outcome, because its base chain is processed and does not change again |
| RenumberSteps.AllSteppedOne | src/renumber-steps.ts:114-153 | when only one policy changes, and it steps as a processed policy, the whole snapshot steps |
| RenumberSteps.AllSteppedProcessed | src/renumber-steps.ts:109-111 | `process` on already processed policies changes nothing |
| RenumberSteps.ChainProcessedKept | src/renumber-steps.ts:112-118 | marking a policy processed after its base keeps "a processed policy's base is processed" |
| RenumberSteps.LineageProcessed | src/renumber-steps.ts:109-118 | every policy on the base chain of a processed policy is processed |
| RenumberSteps.LineageRanks | src/renumber-steps.ts:112-113 | the base chain stays among the policies and ranks no higher than its start, so the recursion ends |
| RenumberSteps.ChainJourneys | src/renumber-steps.ts:71-98 | the reference definition of the walk: the journeys of each visited base, stopping at a missing base, at a base whose id was already visited, or after 15 bases |
| RenumberSteps.Known | src/renumber-steps.ts:62-106 | the ids `hasPolicyId` answers true for: the policy's own journeys and those the walk from its base finds |
| RenumberSteps.Inherited | src/renumber-steps.ts:128 | the journey ids `process` skips: nothing without a base, else those the base's `hasPolicyId` knows |
| RenumberSteps.ChainJourneysIn | src/renumber-steps.ts:71-98 | the same walk, read off a snapshot of the policies rather than the heap |
| RenumberSteps.InheritedIn | src/renumber-steps.ts:128 | the skipped ids, read off a snapshot |
| RenumberSteps.ChainJourneysState | src/renumber-steps.ts:71-98 | the walk read off the current snapshot equals the walk over the heap |
| RenumberSteps.InheritedState | src/renumber-steps.ts:128 | the skipped ids read off the current snapshot equal those read off the heap |
| RenumberSteps.ChainJourneysStable | src/renumber-steps.ts:109-118 | a walk that starts at a processed policy gives the same answer in any later snapshot that keeps the processed policies as they were, since everything it visits is processed |
| RenumberSteps.InheritedStable | src/renumber-steps.ts:109-118 | the skipped ids and the base's journey ids of a processed base do not change once they are fixed, so what `process` used can be read off the final state |
| RenumberSteps.ChainUniverse | src/renumber-steps.ts:74-98 | the walk's answer depends only on the policies reachable from its start |
| RenumberSteps.KnownUniverse | src/renumber-steps.ts:62-106 | the same for `hasPolicyId` |
| RenumberSteps.ChainSound | src/renumber-steps.ts:74-98 | the walk reports only journeys of the first 15 policies up the chain |
| RenumberSteps.ChainCompleteFrom | src/renumber-steps.ts:74-98 | on acyclic links, a journey of one of the first 15 ancestors is found |
| RenumberSteps.ChainJourneysExact | src/renumber-steps.ts:69-98 | on acyclic links, the walk finds an id exactly when one of the first 15 ancestors has recorded it |
| RenumberSteps.SelfBaseStops | src/renumber-steps.ts:88-97 | a policy that is its own base is visited once, and the walk stops |
| RenumberSteps.TwoCycleStops | src/renumber-steps.ts:88-97 | two policies based on each other are each visited once, and the walk stops |
| RenumberSteps.Texts | src/renumber-steps.ts:55 | the texts the policies are parsed from, one per file |
| RenumberSteps.Docs | src/renumber-steps.ts:12-19 | each file's text parsed, or None where parsing throws |
| RenumberSteps.KeptId | src/renumber-steps.ts:12-22 | a file is indexed exactly when it parses and its root `PolicyId` is truthy, and under that id |
| RenumberSteps.KeptIds | src/renumber-steps.ts:10-22 | the id each file is indexed under, position by position |
| RenumberSteps.PolicyIndexStep | src/renumber-steps.ts:10-24 | one more file: it is `set` under its id, or skipped when it fails to parse or has no truthy id |
| RenumberSteps.PolicyIndexSpec | src/renumber-steps.ts:10-24 | the map holds exactly the truthy ids of the files that parse, each with the last such file; the other files are left out and the rest continue |
| RenumberSteps.LinkedBase | src/renumber-steps.ts:28-35 | a base is linked exactly when the first `PolicyId` element's text is a key of the map, and it is that key's policy |
| RenumberSteps.BuildPolicyMap | src/renumber-steps.ts:9-24 | the map's keys, in order, are those of the index; each holds a new, unprocessed, unlinked policy for the last file with that id |
| RenumberSteps.BuiltSet | src/renumber-steps.ts:23 | a parsed file with an id enters its new policy under the id, replacing any earlier one |
| RenumberSteps.LinkBases | src/renumber-steps.ts:27-36 | each policy's base is set to its linked base when there is one; an unresolved base leaves the link as it was; nothing else changes |
| RenumberSteps.LinkedUniverse | src/renumber-steps.ts:27-40 | after linking, the policies' base links stay among them, are acyclic, no two share a file, and none is processed |
| RenumberSteps.LinkedFilesDistinct | src/renumber-steps.ts:10-24 | two indexed policies come from two different files |
| RenumberSteps.IndexKeeps | src/renumber-steps.ts:10-24 | the file an indexed id maps to carries that id |
| RenumberSteps.LinkedRanked | src/renumber-steps.ts:27-36 | the linked bases follow the rank down |
| RenumberSteps.LinkedUnprocessed | src/renumber-steps.ts:57 | before processing, no policy is processed |
| RenumberSteps.IndexPolicies | src/renumber-steps.ts:9-36 | lines 9-36: the indexed, linked policies, all new |
| RenumberSteps.ProcessAll | src/renumber-steps.ts:38-40 | every indexed policy ends up processed with its base links unchanged. Each one that was unprocessed has had the journeys its base chain does not define renumbered and the rest kept, its count raised by the rewrites, its file serialised when it has journeys and a rewrite, and its journey ids recorded along with at most its base's ids |
| RenumberSteps.ProcessNext | src/renumber-steps.ts:38-40 | one turn: the policy and its base chain join the processed policies |
| RenumberSteps.RenumberPolicies | src/renumber-steps.ts:5-41 | with acyclic base links: the map's keys are the truthy ids of the files that parse, in first-occurrence order. Each policy is processed and linked to its base. Its document is the parsed one with every journey whose `Id` the base chain does not know relabelled `1..n`, and every other journey as parsed. Its count is the number of `Order` values rewritten. Its file holds the serialised document when it has journeys and a rewrite, and the text as read otherwise. Every journey id is recorded. A file that no policy holds is unchanged |
| RenumberSteps.ProcessIndexed | src/renumber-steps.ts:38-40 | processing the linked policies leaves each one `Renumbered`: renumbered against its final base chain, counted, and re-serialised exactly on a rewrite |
| RenumberSteps.RenumberedRootExample | src/renumber-steps.ts:137-153 | a root policy whose journey `J` has orders 5, 7 ends with orders 1, 2, a count of two, and its file re-serialised |
| RenumberSteps.LinkedSnapshot | src/renumber-steps.ts:27-36 | the linked policies read as their files' documents and texts |
| RenumberSteps.RenumberedAll | src/renumber-steps.ts:38-40 | when every linked, unprocessed policy has stepped as reached, each is `Renumbered`. The snapshot outcome is read back on the heap through `InheritedState` |
| PolicyUpload.UploadPolicy.constructor | src/policy-upload.ts:121-129 | a new record holds its info and text and is not queued |
| PolicyUpload.ExtractInfo | src/policy-upload.ts:102-119 | a record exists exactly when both root `PolicyId` and `TenantId` are truthy; the base id is the first `PolicyId` element's text, or `''` without one |
| PolicyUpload.Sources | src/policy-upload.ts:99-100 | each file read and parsed, or None where either throws |
| PolicyUpload.SourceIds | src/policy-upload.ts:102-121 | the id each file is entered under, position by position |
| PolicyUpload.LoadPolicies | src/policy-upload.ts:94-138 | the load fails, with `LoadFailed`, exactly when some file cannot be read or parsed. Otherwise the map holds, in first-occurrence key order, the record and text of the last file carrying each id, every entry new and unqueued |
| PolicyUpload.ReadableGrow | src/policy-upload.ts:96-100 | the files read so far could all be read and parsed |
| PolicyUpload.LoadedSkip | src/policy-upload.ts:106-111 | a file without both ids leaves the map as it was |
| PolicyUpload.LoadedSet | src/policy-upload.ts:121-129 | a file with a record is entered under its id, replacing any earlier entry |
| PolicyUpload.HoldsId | src/policy-upload.ts:121-125 | an entry is stored under its own policy id |
| PolicyUpload.LoadedSetIndex | src/policy-upload.ts:121-129 | `set` keeps every other entry and adds this one at this file |
| PolicyUpload.Base | src/policy-upload.ts:83-85 | the base is found exactly when the base id is non-empty and a key of the map |
| PolicyUpload.Chain | src/policy-upload.ts:73-92 | one call appends nothing for a queued policy; otherwise it appends its unqueued base's chain and then the policy. Every entry appended is in the map, not yet queued, and ranked no higher |
| PolicyUpload.ChainShape | src/policy-upload.ts:73-92 | appending a chain keeps the queue free of repeats, within the map and base-first, and the policy ends up queued |
| PolicyUpload.AppendShape | src/policy-upload.ts:90-91 | appending a new policy whose base is queued keeps the queue base-first |
| PolicyUpload.QueuePolicyForUpload | src/policy-upload.ts:73-92 | the queue grows by exactly `Chain`, and the flags mark exactly the queued entries. A queued policy leaves the queue and every flag as they were |
| PolicyUpload.ValuesInMap | src/policy-upload.ts:48 | the loop runs over entries of the map |
| PolicyUpload.UploadOrderShape | src/policy-upload.ts:46-50 | the loop's queue is base-first and without repeats, and holds every entry it ran over |
| PolicyUpload.InMapPrefix | src/policy-upload.ts:48-50 | the entries visited so far are in the map |
| PolicyUpload.UploadOrder | src/policy-upload.ts:46-50 | the reference definition of the enqueue loop: the queue after each entry is the previous queue followed by that entry's `Chain` |
| PolicyUpload.UploadOrderStep | src/policy-upload.ts:48-50 | one more loop turn appends the next entry's chain |
| PolicyUpload.UploadQueueSound | src/policy-upload.ts:46-50 | on acyclic links the queue is a permutation of the map's values, and every policy comes after its base when the base is in the map |
| PolicyUpload.QueueAll | src/policy-upload.ts:46-50 | the loop's queue is the upload order, and every entry ends up queued |
| PolicyUpload.LoadedKeyed | src/policy-upload.ts:121-125 | the loaded map is keyed by policy id, and acyclic when the records are |
| PolicyUpload.PlanFromQueue | src/policy-upload.ts:46-50 | a sound queue over the loaded map lists each loaded id once, with its record and text, bases first |
| PolicyUpload.DistinctLength | src/policy-upload.ts:46-50 | a queue listing each entry once is as long as the map |
| PolicyUpload.DistinctCard | src/policy-upload.ts:46-50 | a sequence without repeats has as many elements as positions |
| PolicyUpload.PolicyUpload | src/policy-upload.ts:24-50 | fails with `LoadFailed` exactly when a file cannot be loaded. It fails with `NoPoliciesFound`, before any queueing, exactly when everything loads but no file has a record. Otherwise it returns the upload plan of the loaded records |
| PolicyBuild.LowerAscii | src/policy-build.ts:99 | the `i` flag's case folding, for ASCII: upper-case letters map to lower case, everything else to itself |
| PolicyBuild.ReplaceAll | src/policy-build.ts:98-130 | the reference definition of `replace` with a global regular expression built from a token: each occurrence, leftmost first, becomes the replacement and the scan resumes after it (characterised by `ReplaceAllNoMatch` and `ReplaceAllFirst`) |
| PolicyBuild.MatchesAtTail | src/policy-build.ts:98-101 | an occurrence in the tail is an occurrence one place later |
| PolicyBuild.ReplaceAllNoMatch | src/policy-build.ts:98-101 | text in which the token does not occur passes through unchanged |
| PolicyBuild.ReplaceAllKeepsPrefix | src/policy-build.ts:98-101 | text before the first occurrence is copied as it is |
| PolicyBuild.MatchesAtDrop | src/policy-build.ts:98-101 | an occurrence at `i` is an occurrence at the front of the rest |
| PolicyBuild.ReplaceAllFirst | src/policy-build.ts:98-101 | the leftmost occurrence is replaced and the scan resumes after it: left to right, without overlap |
| PolicyBuild.LowerAsciiString | src/policy-build.ts:99 | each character lower-cased |
| PolicyBuild.ReplaceAllAnyCase | src/policy-build.ts:98-101 | with the `i` flag, a token matches whatever the case of its letters |
| PolicyBuild.TrailingRun | src/policy-build.ts:106 | the longest suffix without `.` or `/` |
| PolicyBuild.StripExtension | src/policy-build.ts:104-107 | the `Filename` value: a trailing `.` plus one or more characters other than `.` and `/` is removed; any other name is unchanged |
| PolicyBuild.PolicyFilenameValue | src/policy-build.ts:110-116 | the `PolicyFilename` value: the stripped name with every `B2C_1A_`, matched with case, deleted (see `PolicyFilenameOfPrefixed`, `PolicyFilenameUnprefixed`) |
| PolicyBuild.PolicyFilenameOfPrefixed | src/policy-build.ts:110-116 | a stem starting with `B2C_1A_` once has the rest as its `PolicyFilename` value |
| PolicyBuild.PolicyFilenameUnprefixed | src/policy-build.ts:110-116 | a stem without `B2C_1A_` (matched with case) is its own value |
| PolicyBuild.Token | src/policy-build.ts:127 | `{Settings:key}`: never empty, opens with `{` and closes with `}` |
| PolicyBuild.FixedSubstitutions | src/policy-build.ts:95-122 | the four fixed substitutions in order: Tenant, Filename, PolicyFilename, then Environment, each working on the previous result and ignoring case |
| PolicyBuild.ApplySettings | src/policy-build.ts:125-130 | one substitution per policy setting, in key order, each working on the previous result |
| PolicyBuild.Rendered | src/policy-build.ts:95-130 | the text written for a file in an environment that has settings: the fixed substitutions, then the settings |
| PolicyBuild.Keys | src/policy-build.ts:125 | `Object.keys(entry.PolicySettings)`, in order |
| PolicyBuild.ApplySettingsPassThrough | src/policy-build.ts:125-130 | when no setting's token occurs, the settings loop leaves the text unchanged |
| PolicyBuild.RenderedPassThrough | src/policy-build.ts:95-130 | text containing none of the chain's tokens passes through the whole chain unchanged |
| PolicyBuild.RenderPolicy | src/policy-build.ts:95-130 | the text becomes the chain in its fixed order: Tenant, Filename, PolicyFilename, Environment, then each setting in key order, each step working on the previous step's output |
| PolicyBuild.FlattenMembers | src/policy-build.ts:75-91 | an output is written exactly when some environment writes it |
| PolicyBuild.PerEnvironment | src/policy-build.ts:75 | what each environment writes, in environment order |
| PolicyBuild.OutputsSnoc | src/policy-build.ts:75-158 | one more environment appends what it writes |
| PolicyBuild.Outputs | src/policy-build.ts:75-158 | what every environment writes, environment by environment, in file order within each |
| PolicyBuild.EnvironmentOutputs | src/policy-build.ts:78-155 | an environment without settings writes nothing; any other writes one output per file |
| PolicyBuild.EnvironmentOutputsMembers | src/policy-build.ts:82-155 | an environment with settings writes the rendered text of each file under its own name |
| PolicyBuild.OutputsMembers | src/policy-build.ts:75-158 | an output is written exactly when an environment with settings renders some file; an environment without settings contributes nothing |
| PolicyBuild.Sources | src/policy-build.ts:91-95 | the name and text of every file, in order |
| PolicyBuild.RenderEnvironment | src/policy-build.ts:78-155 | one environment's outputs: nothing without settings, else every file rendered in file order |
| PolicyBuild.RenderEnvironments | src/policy-build.ts:75-158 | all the outputs, environment by environment |

## Left out

- Logging (`ILogger`): the messages at every branch are not modelled. The branches themselves are.
- The `try`/`catch` in `hasPolicyId` (`src/renumber-steps.ts:99-103`): nothing in the walk as modelled can throw.
- XML parsing and serialisation (xmldom `parseFromString`, `documentElement.toString()`): these are the `parse` and `serialize` parameters, over a document reduced to its root `PolicyId` and `TenantId`, the text of the first `PolicyId` element, and the journeys with their steps' `Order`. `getElementsByTagName` matching nested descendants is not modelled.
- File discovery (`glob`, `fast-glob`, `upath.normalize`), reading (`fs.readFileSync`), the `appsettings.json` read and `JSON.parse`, the output-folder deletion and recreation, the paths joined for writing, and the asynchronous `fs.writeFile`. The build returns its outputs instead of writing them.
- `PolicyFile.SubFolder` and `GetSubFolder` (`src/policy-build.ts:170-183`): they rest on `upath.relative`, which is not part of this model.
- The rest of `PolicyBuild` (`src/policy-build.ts:7-73`): the orchestration, including the optional renumbering call. `RenderEnvironments` starts from the files as that step leaves them.
- The network upload loop of `PolicyUpload` (`src/policy-upload.ts:52-70`), the Graph client and `src/msal-auth.ts`. The model ends with the upload queue.
- RenumberSteps.RenumberPolicies: requires acyclic base links, because on a cycle `process` does not terminate in the source. The same holds for `PolicyUpload.PolicyUpload` and `queuePolicyForUpload`.
- PolicyUpload.LoadPolicies: the thrown `Error` is the `LoadFailed` result. Before the first failing file the source has only logged, so nothing else is lost.
- PolicyUpload.QueuePolicyForUpload: the queue array shared by the recursive calls is an input and a returned sequence, not an object each call appends to.
- RenumberSteps.ProcessAll, RenumberSteps.RenumberPolicies: the contracts state that each policy records every journey id of its document and at most its base's ids besides. They do not say exactly which base ids are merged. The source merges them only when the same call processed the base (`src/renumber-steps.ts:112-117`), so the answer depends on the order in which the policies are visited. `Policy.Process` states the exact set for one call.
- RenumberSteps.RenumberPolicies, PolicyUpload.PolicyUpload, PolicyBuild.RenderEnvironments: the source returns nothing. The map, queue and outputs are returned so that the contracts can name them.
- PolicyBuild.ReplaceAll: a literal, left-to-right, non-overlapping replace-all. The following JavaScript regular-expression and `replace` behaviour is not reproduced:
  - `$&`, `$1` and `$$` patterns in replacement values;
  - regular-expression metacharacters in `PolicySettings` keys;
  - Unicode case folding beyond ASCII, under the `i` flag.
- PolicyBuild.Environment: the tenant, name and setting values are strings. The source converts whatever JSON value it finds with `String(...)`, which turns `undefined` into `"undefined"`. The settings are given in `Object.keys` order, which lists integer-like keys first.
- RenumberSteps.Policy.HasPolicyId: leaves the value of `currentDepth` after the loop unmodelled: the source never reads it.
