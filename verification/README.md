# svidlet, modelled in Dafny

svidlet puts SPIFFE identities, policy bundles and JWT-SVIDs into pod volumes on a Kubernetes node; its
broker signs certificates and serves tokens. This project models the parts of it whose correctness is
a matter of protocol rather than of plumbing, and proves what they promise. `dafny verify dfyconfig.toml`
checks everything.

| component | modules |
|---|---|
| the volume directory: three writers that share it, and readers | `VolumeNames`, `Volume`, `VolumeRuns`, `VolumeReader`, `VolumePublish`, `VolumeCases` |
| SPIFFE ID templates: parser, renderer, lazy matcher, start-up probe | `Template`, `TemplateMatch`, `TemplateCompile`, `TemplateLaws`, `TemplateCases` |
| the tar reader and the writer beside it | `Tar`, `TarText`, `TarBounds`, `TarWrite`, `TarItems` |
| the OCI rollout poller and its bundle cache on disk | `Rollout`, `BundleStore`, `Poller`, `BundleSource`, `PollerFacts`, `PollerRefinement`, `PollerRuns`, `PollerVersions`, `PollerEnds`, `PollerLaws`, `PollerCases` |
| the broker: rate limits, signing, catalog, token cache | `Window`, `Distinct`, `Sign`, `Catalog`, `CatalogLaws`, `Tokens`, `TokenRuns`, `TokenMints`, `TokenServing`, `TokenKeys`, `TokenSubjects`, `TokenSweeps` |
| policy subscriptions and renewal | `Subscriptions`, `SubscriptionLocks`, `SubscriptionBooks`, `PolicyVolumes`, `Renewal`, `RenewalRuns`, `RenewalHistory`, `RenewalOutages` |
| strings and numerals | `Text` |

**Volume.** The directory is a state and each filesystem call of a writer one step. Steps of the three
chains interleave freely and a writer may stop between any two. One writer at a time per chain is
assumed; the token chain has a lock for this, the identity chain has not. Readers are methods whose
calls fall at arbitrary moments of a run.

**Poller.** A poll is a function to the sequence of calls it makes on the disk, the state afterwards
and how it ended; the class `BundleSource.Source` is proved to make exactly those calls. A stop is a
prefix of the calls followed by a start from the saved state. The registry's answers, the clock and
faults are inputs. Hashing and the check of a bundle's own manifest are arbitrary functions.

**Tokens.** Requests, JWKS refreshes, catalog reloads and sweeps come in any order, one at a time.
Decoding a token, Vault's answers and the fetched key sets are arbitrary.

## Where the code does less than promised

- A superseded version directory that is only partly removed stays under its final name, where the next
  poll takes it for unpacked and applies it with files missing. It takes a stop during the removal or
  a removal that fails, whose error is ignored; nothing else does it, a stop in the middle of unpacking
  included (`PollerVersions.AuthenticIffNotHalfRemoved`, with `PollerCases.StopLeavesTornVersion`,
  `PollerCases.TornVersionIsApplied` and `PollerCases.FailedRemovalTears` from a first start). Nothing
  repairs it (`PollerEnds.NeverRepaired`), and with no file left it blocks every poll that seeks it
  (`PollerEnds.EmptyIsRefused`).
- A manifest is protected against replay only once its sequence is saved. A stop before that leaves
  the high-water mark exactly where it was (`PollerRuns.EventFacts`, `PollerCases.StopForgetsSequence`),
  though nothing was done about the manifest either.
- A poll refused because the bundle cannot be read back has moved `current` already
  (`PollerEnds.RefusedChangesLittle` says exactly when, `PollerCases.RefusedMovesCurrent` that it happens).
- `read_identity` gives up only after eight version numbers, but not only after eight swaps: a version
  that was created and never swapped in counts for one (`VolumeReader.ReadIdentity`,
  `VolumeReader.SwapsAndSkips`), and four swaps can be enough (`VolumeCases.FourSwapsSuffice`).
- Two placeholders separated by something other than `/` are accepted and do not always read back
  (`TemplateCompile.ParseUndoesRenderIff` says exactly when, `TemplateCases.DottedCollides` that two
  identities can share an ID).
- With pod or node fields in the template, and only then, tokens shared through the cache can carry the
  ID of another pod of the same account (`TokenSubjects.SubjectLawIff`).
- A mark can outlive the subscription of its identity, because the two locks are taken one after the
  other (`SubscriptionLocks.StrayMark`); `SubscriptionLocks.MarksAreWantedIff` says exactly when.
- Documents that change under an unchanged revision do not reach a volume that shows that revision
  (`PolicyVolumes.SameRevisionIsStale`, `PolicyVolumes.RunPass`).
- A half-day outage is said to be covered by a lifetime of 24 hours. No certificate survives one that
  begins when it falls due, whatever deadline the default fractions gave it
  (`RenewalOutages.HalfDayIsTooLong`); `RenewalOutages.LengthIff` says exactly which are survived.

Where comments and code differ the model follows the code: names may have 253 characters and dots, not
63 characters without (`Catalog.IsName`); a token stops being served at half its life, not after
(`Tokens.PastHalfLife`).

## Model

| member | source | states |
|---|---|---|
| `VolumeNames.VersionOfIsExact` | crates/svidlet/src/volume.rs:473-477 | A chain reads a version number out of exactly its own version directories and out of no other entry any of the three writers can make |
| `VolumeNames.RenderIsInjective` | crates/svidlet/src/volume.rs:36-46 | Different names are different directory entries, so the chains cannot meet in one |
| `VolumeNames.NextVersion` | crates/svidlet/src/volume.rs:461-471 | One more than the highest version of the chain in the listing, or 1: above every one of them, and no gap is left |
| `VolumeNames.RemoveStaleVersions` | crates/svidlet/src/volume.rs:487-497 | Of the listed entries exactly the versions whose number is neither `keep` nor `keep - 1` are removed |
| `Volume.PlanBuildsPayload` | crates/svidlet/src/volume.rs:81-193 | Carried out on a fresh directory, the calls of each publication leave exactly the generation asked for, a later document of a name winning |
| `Volume.OverlayIsLast` | crates/svidlet/src/volume.rs:130-193 | Of several documents or tokens under one name the last one given is the one published, and no other name appears |
| `Volume.AliasIsOneStep` | crates/svidlet/src/volume.rs:163-173 | An alias is accepted if and only if the path below the token directory splits into that directory and the alias itself, which is neither empty nor hidden |
| `Volume.StepKeepsInv` | crates/svidlet/src/volume.rs:81-193 | Every filesystem call of a publication, and giving it up anywhere, keeps the chain invariant: the link names a whole generation, the one before it is whole, older ones are at worst fragments of what was asked, links are complete before the first swap |
| `VolumeRuns.StepIsLocal` | crates/svidlet/src/volume.rs:81-193 | A call of one chain's writer touches no name another chain owns |
| `VolumeRuns.RunIsGood` | crates/svidlet/src/volume.rs:81-193 | Every state reachable by interleaving the three writers call by call, with stops and retries, satisfies the invariant of all three chains |
| `VolumeRuns.AllOrNothing` | crates/svidlet/src/volume.rs:81-193 | In every reachable state each chain's visible names all read the one generation that was asked of the version swapped in last, or none can be opened |
| `VolumeRuns.ChainsAreIndependent` | crates/svidlet/src/volume.rs:81-193 | A call of one chain never changes what another chain's names read |
| `VolumeRuns.RunGrows` | crates/svidlet/src/volume.rs:461-471 | Over a run the versions asked for and the swaps made only grow |
| `VolumeRuns.NeverReused` | crates/svidlet/src/volume.rs:461-497 | Once a version directory is collected no later state holds one of that name |
| `VolumeReader.LaterState` | crates/svidlet/src/volume.rs:225-257 | At any later moment a resolved generation is whole, or a fragment and the link has moved on by at least two versions |
| `VolumeReader.SwapsAndSkips` | crates/svidlet/src/volume.rs:461-497 | Between any two moments the version the link names rises by exactly the swaps made and the versions passed over |
| `VolumeReader.MissingMeansSwaps` | crates/svidlet/src/volume.rs:225-257 | If anything of a resolved generation is missing later, the link was swapped since and names a version at least two further on; a single swap means that the version in between was never swapped in |
| `VolumeReader.FileIsFaithful` | crates/svidlet/src/volume.rs:251-257 | A file of a resolved generation reads as published, or is gone and the link has moved on |
| `VolumeReader.ReadAttempt` | crates/svidlet/src/volume.rs:231-246 | One attempt gives one whole published identity current when the link was read, or the link was swapped meanwhile and moved on by at least two versions, or nothing is published |
| `VolumeReader.ReadIdentity` | crates/svidlet/src/volume.rs:225-249 | Whatever the writers do meanwhile, a success is exactly one published key, certificate and CA that was current during the call; failure means nothing was published or the link moved on by at least eight versions during it, by at least four swaps and at least eight less the versions passed over |
| `VolumeReader.ListingIsFaithful` | crates/svidlet/src/volume.rs:201-203 | Listing a resolved token directory yields no foreign name, and misses one only if the link was swapped |
| `VolumeReader.DocIsFaithful` | crates/svidlet/src/volume.rs:203-206 | A token of a resolved generation reads as published, or is gone and the link was swapped |
| `VolumeReader.ReadListed` | crates/svidlet/src/volume.rs:203-207 | The loop over the listing returns only tokens of the resolved generation, and all of them unless a swap happened |
| `VolumeReader.ReadTokens` | crates/svidlet/src/volume.rs:196-210 | Every token returned belongs to the one generation current when the call began, and none is missing unless the link was swapped meanwhile and moved on by at least two versions |
| `VolumeCases.Overtaken` | crates/svidlet/src/volume.rs:225-249 | Whatever identity is current, the run can go on so that one publication is abandoned, the next swapped in and the key of the resolved generation gone: an attempt that fails after exactly one swap |
| `VolumeCases.FourSwapsSuffice` | crates/svidlet/src/volume.rs:225-249 | So there is a run, and moments of it for the calls of `read_identity`, with which all four attempts fail and the link was swapped exactly four times between the first call and the last |
| `VolumePublish.ListingGivesNext` | crates/svidlet/src/volume.rs:461-471 | What the loop reads off a listing of the directory is the version the state machine takes next |
| `VolumePublish.RemoveVersion` | crates/svidlet/src/volume.rs:487-497 | Removing one version directory file by file keeps the invariant at every call and takes away that directory only |
| `VolumePublish.Collect` | crates/svidlet/src/volume.rs:487-497 | By the names in a listing, of the version directories of the chain exactly those numbered `keep` and `keep - 1` are left, and everything else stays as it was |
| `VolumePublish.Fill` | crates/svidlet/src/volume.rs:81-99 | Creating the directory and writing every file, each call a step that keeps the invariant, ends with the new version directory holding exactly the generation and nothing else changed |
| `VolumePublish.Link` | crates/svidlet/src/volume.rs:406-412 | The visible links are all there afterwards, those that were left alone, each call a step that keeps the invariant |
| `VolumePublish.Swap` | crates/svidlet/src/volume.rs:399-404 | Removing a leftover temporary link, making one and renaming it points the data link at the version, leaves no temporary link and changes nothing else |
| `VolumePublish.Publish` | crates/svidlet/src/volume.rs:81-193 | A whole publication: a token set is refused, with nothing changed, if and only if some alias is not one; otherwise the visible names read exactly what was asked for, and the version directories are the new one and the one numbered just before it if there was one, this as it was; other chains' names are left alone either way |
| `Template.SplitTemplate` | crates/svidlet-issue/src/template.rs:379-434 | The character loop computes the split of the template, with its four errors |
| `Template.SplitUndoesWrite` | crates/svidlet-issue/src/template.rs:379-434 | Splitting undoes writing: every sequence of parts with no empty and no adjacent literals is the split of the template that writes it, braces doubled |
| `TemplateLaws.SplitIsExact` | crates/svidlet-issue/src/template.rs:379-434 | `split` returns given parts if and only if the template is a way to write them: literals with braces doubled, non-empty and never adjacent, and field names in braces with white space around them or not |
| `TemplateLaws.CompileErrors` | crates/svidlet-issue/src/template.rs:200-252 | Which error a template is refused with: that of the split, else a repeated field, else the scheme missing, else no placeholder, else an ID too malformed to probe, in this order |
| `TemplateLaws.RenderIsExact` | crates/svidlet-issue/src/template.rs:284-297 | Rendering fails for a field if and only if it is that of the first placeholder whose value is not a segment, and succeeds if and only if there is none and the ID is well formed |
| `TemplateLaws.SegmentIsExact` | crates/svidlet-issue/src/template.rs:438-452 | A value is a segment if and only if it is not empty and has only ASCII letters, digits, hyphens, dots and underscores |
| `TemplateLaws.NoSegmentIsSmuggled` | crates/svidlet-issue/src/template.rs:438-452 | A rendered ID has exactly the slashes of the template, whatever is substituted |
| `TemplateLaws.IdIsExact` | crates/svidlet-issue/src/template.rs:141-166 | An ID is accepted if and only if it is at most 2048 bytes, has a trust domain after the scheme, no two slashes after one another, and no slash at the end but the first |
| `TemplateMatch.MatchIsSound` | crates/svidlet-issue/src/template.rs:227-245 | What the matcher returns is a reading of the text: non-empty captures without `/` that substitute back to it |
| `TemplateMatch.MatchIsLeast` | crates/svidlet-issue/src/template.rs:227-245 | The lazy matcher finds a match whenever there is one, and the one whose capture lengths come first lexicographically |
| `TemplateMatch.MatchesBackIffLeast` | crates/svidlet-issue/src/template.rs:227-245 | For any template, values come back out of the text they were substituted into if and only if no other reading has lexicographically smaller lengths |
| `TemplateMatch.MatchIsUnique` | crates/svidlet-issue/src/template.rs:227-245 | If the text between consecutive placeholders always contains a `/`, an ID can be taken apart in at most one way |
| `TemplateMatch.MatchUndoesSubstitute` | crates/svidlet-issue/src/template.rs:227-245 | On such templates the matcher undoes substitution |
| `TemplateMatch.MatchesBackIffClear` | crates/svidlet-issue/src/template.rs:227-245 | For every template and all values: they come back out of the text they were put into if and only if none of them, followed by the text up to the next placeholder, already contains that text after its first character |
| `TemplateMatch.AdjacentDoesNotMatchBack` | crates/svidlet-issue/src/template.rs:227-264 | With two placeholders side by side the matcher never returns captures longer than one character that it was rendered from |
| `TemplateCompile.RenderId` | crates/svidlet-issue/src/template.rs:284-297 | The loop renders the substituted text, or the error of the first value that is not a segment, or of an ID that is not well formed |
| `TemplateCompile.ParseUndoesRender` | crates/svidlet-issue/src/template.rs:284-307 | Round trip: reading a rendered ID returns exactly the substituted fields and leaves the others empty |
| `TemplateCompile.ParseUndoesRenderIff` | crates/svidlet-issue/src/template.rs:284-307 | For every template: reading a rendered ID returns exactly the substituted fields if and only if no value contains the text after it early |
| `TemplateCompile.RenderIsInjective` | crates/svidlet-issue/src/template.rs:284-307 | Different values of a substituted field never render the same ID |
| `TemplateCompile.RenderUndoesParse` | crates/svidlet-issue/src/template.rs:300-307 | For any template, the attributes read out of an ID substitute back to that ID, and fields the template lacks stay empty |
| `TemplateCompile.CompileTemplate` | crates/svidlet-issue/src/template.rs:200-264 | The loop over the parts and the checks after it compute the compilation, with the probe rendered and read back |
| `TemplateCompile.CompileRefusesAdjacent` | crates/svidlet-issue/src/template.rs:253-264 | The start-up probe makes compilation refuse every template with two adjacent placeholders |
| `TemplateCompile.CompileAcceptsSeparated` | crates/svidlet-issue/src/template.rs:200-264 | A template whose placeholders are separated by `/` is accepted if and only if its fields are distinct and not none, it starts with the scheme and its probe renders |
| `TemplateCompile.CompileIsExact` | crates/svidlet-issue/src/template.rs:200-264 | A template is accepted if and only if it splits, its fields are distinct and not none, it starts with the scheme, its probe renders, and no probe value contains the text after it early |
| `TemplateCases.DottedCompiles` | crates/svidlet-issue/src/template.rs:200-264 | A template that separates cluster and namespace by a dot is accepted |
| `TemplateCases.DottedReadsBackIff` | crates/svidlet-issue/src/template.rs:284-307 | Its IDs read back if and only if the cluster has no dot after its first character |
| `TemplateCases.DottedCollides` | crates/svidlet-issue/src/template.rs:284-307 | Cluster `eu.1` with namespace `a` does not read back, and has the ID of cluster `eu` with namespace `1.a` |
| `Tar.CheckPathIsExact` | crates/svidlet/src/policy/oci/tarball.rs:104-134 | A path is accepted if and only if, leading `./` aside, it is relative and made of ordinary segments |
| `Tar.WalkStaysBelow` | crates/svidlet/src/policy/oci/tarball.rs:121-132 | Following ordinary segments from a directory stays below it |
| `TarText.PathIsExact` | crates/svidlet/src/policy/oci/tarball.rs:104-134 | The path check accepts exactly an ordinary path behind any number of `./`, and returns it without them |
| `TarText.DecodeIsExact` | crates/svidlet/src/policy/oci/tarball.rs:136-142 | Bytes are taken for a text if and only if they are its UTF-8 encoding |
| `TarText.FieldIsExact` | crates/svidlet/src/policy/oci/tarball.rs:136-142 | A field reads as the text whose encoding fills it up to its end or the first NUL, trimmed |
| `TarText.OctalIsExact` | crates/svidlet/src/policy/oci/tarball.rs:144-152 | A number field reads as a number if and only if that text is blank, for zero, or an octal numeral within 64 bits |
| `Tar.PaddedIsDivCeil` | crates/svidlet/src/policy/oci/tarball.rs:94 | The padded size is the size rounded up to whole blocks |
| `Tar.ReadOne` | crates/svidlet/src/policy/oci/tarball.rs:32-95 | One turn of the loop fails, skips a directory or takes a file, always advancing |
| `Tar.ReadFiles` | crates/svidlet/src/policy/oci/tarball.rs:28-95 | The loop terminates on every byte string, never reads out of bounds and returns the files of the archive or the first error |
| `Tar.Extract` | crates/svidlet/src/policy/oci/tarball.rs:27-101 | The same for the whole of `extract`, an archive without files refused |
| `Tar.ExtractIsSafe` | crates/svidlet/src/policy/oci/tarball.rs:27-134 | On success the contents are disjoint slices of the archive in order, together within the limit, and every path is ordinary and stays below the staging directory |
| `TarItems.HeaderIsRead` | crates/svidlet/src/policy/oci/tarball.rs:39-77 | For every header with a given name, prefix, size, mode and type flag: the entry is a directory to skip, a file under the prefix and the name, or refused for its name, type, special mode or path |
| `TarItems.ArchiveIsRead` | crates/svidlet/src/policy/oci/tarball.rs:27-101 | On an archive of any items, files, directories, links and others in any order, extraction returns exactly the files in order with their contents, or the refusal of the first item that is refused, too large or badly named; without files it is refused |
| `TarItems.CutShortIsMalformed` | crates/svidlet/src/policy/oci/tarball.rs:85-89 | An archive that ends within the content of a file is malformed, whatever precedes it |
| `TarItems.NotOctalIsMalformed` | crates/svidlet/src/policy/oci/tarball.rs:144-152 | A number field that holds something else than octal digits makes the header malformed |
| `TarWrite.OctalReadsBack` | crates/svidlet/src/policy/oci/tarball.rs:144-152 | A number that leaves room for the closing NUL of its field is the number the reader finds there |
| `TarWrite.WriteOctal` | crates/svidlet/src/policy/oci/tarball.rs:205-209 | The field is overwritten in place with the octal text and a closing NUL, the rest of the block left alone |
| `TarWrite.WriteHead` | crates/svidlet/src/policy/oci/tarball.rs:185-192 | The fields before the checksum, written in place one after another, a name over 100 bytes cut |
| `TarWrite.WriteTail` | crates/svidlet/src/policy/oci/tarball.rs:193-195 | Type flag, magic and version in place |
| `TarWrite.WriteHeader` | crates/svidlet/src/policy/oci/tarball.rs:184-203 | Filling the block in place gives the header layout, the checksum being the sum with its own field read as spaces |
| `TarWrite.SumAdds` | crates/svidlet/src/policy/oci/tarball.rs:196-203 | In the sum every byte counts once, wherever it stands |
| `TarWrite.HeaderReadsBack` | crates/svidlet/src/policy/oci/tarball.rs:184-203 | The reader gets the name and size of a regular file back from the header written for it |
| `TarWrite.Build` | crates/svidlet/src/policy/oci/tarball.rs:160-171 | The loop writes header, content and padding of each file and two closing blocks |
| `TarWrite.NameSurvivesIff` | crates/svidlet/src/policy/oci/tarball.rs:184-188 | A name comes back as it was given if and only if it has at most a hundred bytes |
| `TarWrite.ExtractUndoesBuild` | crates/svidlet/src/policy/oci/tarball.rs:27-171 | Round trip: extracting a built archive returns the same contents in order, each under the first hundred bytes of its name, for every non-empty list whose names survive the path check |
| `TarBounds.SizeIsSmall` | crates/svidlet/src/policy/oci/tarball.rs:144-152 | A header can claim less than 2^36 bytes |
| `TarBounds.ExtractFits` | crates/svidlet/src/policy/oci/tarball.rs:27-101 | No sum in the loop reaches 2^64 on an archive of fewer than 2^63 bytes, whatever its headers claim |
| `Window.Limiter.Check` | crates/svidlet-broker/src/limit.rs:34-46 | Pops what has left the window and answers whether fewer than the limit remain; the whole new state |
| `Window.RecordKeepsOk` | crates/svidlet-broker/src/limit.rs:49-55 | Recording keeps every queue the events of its key that can still matter, in order |
| `Window.Limiter.Allow` | crates/svidlet-broker/src/limit.rs:25-31 | Checks and records exactly when it fits |
| `Window.PopIsExact` | crates/svidlet-broker/src/limit.rs:42-45 | What is left of a queue is exactly the recorded events still in the window |
| `Window.CheckIsExact` | crates/svidlet-broker/src/limit.rs:34-46 | The check succeeds if and only if fewer than `limit` events ever recorded for the key lie in the last `window` seconds |
| `Window.ExactAfterAnyRun` | crates/svidlet-broker/src/limit.rs:25-62 | After every sequence of requests and sweeps with times in order, a request is allowed if and only if fewer than `limit` of the requests allowed before for its key lie in the last `window` seconds |
| `Window.NeverOverfull` | crates/svidlet-broker/src/limit.rs:25-62 | No interval of `window` seconds ever holds more than `limit` allowed requests of a key |
| `Window.SameLogSameAnswers` | crates/svidlet-broker/src/limit.rs:25-62 | Two limiters with the same recorded events answer alike for ever, whatever either has dropped |
| `Window.SweepIsInvisible` | crates/svidlet-broker/src/limit.rs:59-62 | A sweep never changes a later answer nor which events are accepted |
| `Window.KeepsLittle` | crates/svidlet-broker/src/limit.rs:25-62 | Over every run a key never holds more than `limit` events, and without a limit none is held |
| `Window.SweepForgetsIdle` | crates/svidlet-broker/src/limit.rs:57-62 | After every run in order, a sweep leaves exactly the keys that were allowed a request in the last `window` seconds |
| `Distinct.Limiter.Allow` | crates/svidlet-broker/src/limit.rs:86-106 | The answer and the whole new state, a new window opened when the old one is over |
| `Distinct.RefusalChangesNothing` | crates/svidlet-broker/src/limit.rs:101-103 | A refusal leaves no trace |
| `Distinct.AtMostLimitPerWindow` | crates/svidlet-broker/src/limit.rs:86-106 | The requests admitted determine the windows: the first opens one, and so does each one a window length or more after the last opening. None of them sees more than `limit` identities of a node admitted, over every run in order |
| `Distinct.AtMostTwiceTheLimit` | crates/svidlet-broker/src/limit.rs:86-106 | No interval of one window length sees more than twice the limit of identities of a node admitted |
| `Distinct.AdmitsIff` | crates/svidlet-broker/src/limit.rs:86-106 | After every run in order, an identity is admitted if and only if the window its node opened last is over, or it was admitted in that window, or fewer than `limit` were |
| `Distinct.ReadmittedInWindow` | crates/svidlet-broker/src/limit.rs:86-106 | After every run in order, an identity admitted in a window of its node is admitted again at any later time of that window, whatever was asked, refused or swept in between |
| `Distinct.ReadmittedFromAnyState` | crates/svidlet-broker/src/limit.rs:98-100 | The same from any state of the limiter, reached by a run or not |
| `Distinct.SweepIsInvisible` | crates/svidlet-broker/src/limit.rs:108-111 | A sweep never changes a later answer |
| `Distinct.SweepForgetsIdle` | crates/svidlet-broker/src/limit.rs:108-111 | After every run in order, a sweep leaves exactly the nodes whose newest window is still under way |
| `Distinct.OffKeepsNothing` | crates/svidlet-broker/src/limit.rs:86-90 | Without a limit nothing is ever held |
| `Sign.Signer.Admit` | crates/svidlet-broker/src/sign.rs:294-306 | The order of the limits: the rate checked, the identity admitted, and only then the rate recorded; the whole new state of both limiters, whose effect on later requests is `Sign.ReachesVaultIff` |
| `Sign.RefusalIsInvisible` | crates/svidlet-broker/src/sign.rs:240-306 | A request refused before Vault is called changes no later decision of either limiter |
| `Sign.VaultCallsAreBounded` | crates/svidlet-broker/src/sign.rs:290-306 | Over every run in order from a start, the requests of one node that reached Vault in any sixty seconds are at most `limit` |
| `Sign.ReachesVaultIff` | crates/svidlet-broker/src/sign.rs:290-306 | After every run in order, a request reaches Vault if and only if it is attested, fewer than `limit` requests of its node reached Vault in the last minute, and its identity reached Vault in the last hour-long window of the node, that window is over, or fewer than the cap did in it |
| `Sign.AdmittedReachVault` | crates/svidlet-broker/src/sign.rs:294-306 | Driven by `sign`, the requests the identity limiter admits are exactly those that reach Vault |
| `Sign.IdentitiesAreBounded` | crates/svidlet-broker/src/sign.rs:290-306 | The distinct identities of one node that reach Vault in any interval of the cap's window are at most twice the cap |
| `Rollout.GlobIsExact` | crates/svidlet/src/policy/oci/rollout.rs:207-223 | `glob_match` holds if and only if some choice of texts for the stars turns the pattern into the text, for any number of stars |
| `Rollout.TargetIndex` | crates/svidlet/src/policy/oci/rollout.rs:124-128 | The first ring that matches, none before it matching; what matches is `Rollout.TargetIsFirstChosen` |
| `Rollout.ByCluster` | crates/svidlet/src/policy/oci/rollout.rs:79-81 | A selector of cluster globs alone takes exactly the nodes whose cluster one of the globs stands for |
| `Rollout.ByName` | crates/svidlet/src/policy/oci/rollout.rs:76-78 | One of node names alone takes exactly the nodes it lists |
| `Rollout.ByPercent` | crates/svidlet/src/policy/oci/rollout.rs:82-85 | One of a percentage alone takes exactly the buckets below it |
| `Rollout.Everyone` | crates/svidlet/src/policy/oci/rollout.rs:67-74 | One with no clause takes every node |
| `Rollout.ClausesUnite` | crates/svidlet/src/policy/oci/rollout.rs:71-87 | One with several takes exactly what its clauses take between them, and an empty clause adds nothing |
| `Rollout.TargetIsFirstChosen` | crates/svidlet/src/policy/oci/rollout.rs:124-128 | A node's ring is the first of which some clause takes it, by the meaning of globs, and there is none if and only if no clause of any ring does |
| `Rollout.RaisingPercent` | crates/svidlet/src/policy/oci/rollout.rs:71-87 | Raising one ring's percentage moves each node nowhere, or from a later ring or none into exactly that ring |
| `Rollout.FreshUntilDeadline` | crates/svidlet/src/policy/oci/rollout.rs:158-187 | A fresh manifest stays fresh exactly until its deadline, and for ever without one |
| `Rollout.FreshBySequence` | crates/svidlet/src/policy/oci/rollout.rs:158-187 | Before its deadline a manifest is fresh if and only if it carries a sequence that is not lower than the last, or none was ever seen |
| `Rollout.DigestIsExact` | crates/svidlet/src/policy/oci/rollout.rs:131-150 | A bundle name is a digest if and only if it is `sha256:` and 64 hexadecimal digits |
| `Rollout.DirNamesAreDistinct` | crates/svidlet/src/policy/oci/store.rs:79-81 | Different digests have different directories, none of which looks like a staging directory |
| `BundleStore.UnpackingAdds` | crates/svidlet/src/policy/oci/store.rs:101-140 | Unpacking to the end adds exactly the extracted files, the last entry of a path winning, on top of what of an old staging directory could not be cleared, and changes nothing else but staging |
| `BundleStore.OneVersion` | crates/svidlet/src/policy/oci/store.rs:173-195 | Through any calls that do not promote it, a version is there unless a removal took its directory, and has all its files if and only if no removal deleted one |
| `BundleStore.PruningKeeps` | crates/svidlet/src/policy/oci/store.rs:173-195 | Pruning leaves kept and unlisted versions as they were; any other is gone, or, if its removal fails, has lost exactly what was deleted before that |
| `BundleSource.Source.constructor` | crates/svidlet/src/policy/oci/store.rs:197-202 | A start takes the saved state for its own |
| `BundleSource.Source.RememberEtag` | crates/svidlet/src/policy/oci/mod.rs:416-423 | The ETag changes in memory and on disk, or nothing does |
| `BundleSource.Source.Count` | crates/svidlet/src/policy/oci/mod.rs:307-310 | The two saves of a verified manifest and the high-water mark they leave |
| `BundleSource.Source.WriteVersion` | crates/svidlet/src/policy/oci/store.rs:101-140 | The calls made, up to the first that fails by a conflict of paths or a fault |
| `BundleSource.Source.Prune` | crates/svidlet/src/policy/oci/store.rs:173-195 | The calls made for a listing, failing removals passed over |
| `BundleSource.Source.InstallBundle` | crates/svidlet/src/policy/oci/mod.rs:362-369 | Fetch, digest, extraction, validation and unpacking, each with its error; which bundles are refused and which applied is `PollerLaws.BadBundleIsRefused` and `PollerLaws.GoodBundleIsApplied` |
| `BundleSource.Source.EnsureUnpacked` | crates/svidlet/src/policy/oci/mod.rs:360-372 | Nothing is fetched for a bundle that is there |
| `BundleSource.Source.StayOn` | crates/svidlet/src/policy/oci/mod.rs:335-346 | The bundle stays: the ETag is remembered and at most the ring's name changes |
| `BundleSource.Source.Finish` | crates/svidlet/src/policy/oci/mod.rs:376-387 | Recorded, pruned, and only then the ETag |
| `BundleSource.Source.SwitchTo` | crates/svidlet/src/policy/oci/mod.rs:374-387 | Link, read back, record, prune, and the ETag last |
| `BundleSource.Source.ReplaceBundle` | crates/svidlet/src/policy/oci/mod.rs:361-397 | Unpacking unless the bundle is there, then the switch |
| `BundleSource.Source.ActOn` | crates/svidlet/src/policy/oci/mod.rs:307-397 | Everything after a manifest is verified: new state, calls made and how it ended |
| `BundleSource.Source.PollOnce` | crates/svidlet/src/policy/oci/mod.rs:265-397 | A whole poll, every `full_fetch_every`-th one without an ETag: new state, calls made and how it ended |
| `PollerFacts.PollSaves` | crates/svidlet/src/policy/oci/mod.rs:416-462 | After a whole poll the state on disk is the state in memory |
| `PollerLaws.CountedIff` | crates/svidlet/src/policy/oci/mod.rs:265-310 | A whole poll counts exactly the manifests that are served anew, signed and readable, not past their deadline and not below the sequence recorded |
| `PollerLaws.UncountedEnds` | crates/svidlet/src/policy/oci/mod.rs:265-302 | A poll that counts none leaves state, versions, staging and `current` as they were, and ends without change if the registry confirmed the ETag, else with the error of the first thing that was wrong |
| `PollerLaws.NoChangeIff` | crates/svidlet/src/policy/oci/mod.rs:312-346 | A poll that counts a manifest leaves the bundle alone if and only if it is frozen, has no ring for this node, or that ring's bundle is recorded and unpacked |
| `PollerLaws.StateIsExact` | crates/svidlet/src/policy/oci/mod.rs:303-397 | The state after any whole poll, field by field: ring and digest are the target's once its bundle is in place, the ETag the manifest's once nothing is left to do about it, the sequence the highest counted |
| `PollerLaws.BadBundleIsRefused` | crates/svidlet/src/policy/oci/mod.rs:362-369 | A bundle that cannot be had, does not hash to its name, cannot be extracted or is not valid is refused with that error, and versions, staging and `current` stay as they were |
| `PollerLaws.GoodBundleIsApplied` | crates/svidlet/src/policy/oci/mod.rs:360-387 | A good bundle that is not there is unpacked, linked and recorded if no call fails, if and only if none of its files lies below another |
| `PollerLaws.FaultIsRefused` | crates/svidlet/src/policy/oci/store.rs:101-140 | A fault at any call of an unpacking refuses the poll and leaves the recorded bundle |
| `PollerLaws.StagingAfterFailure` | crates/svidlet/src/policy/oci/store.rs:101-140 | An unpacking that fails leaves in staging exactly what it had written; one that fails at the rename or before it has begun leaves no staging directory if that can be cleared |
| `PollerLaws.SwitchEnds` | crates/svidlet/src/policy/oci/mod.rs:374-397 | A bundle that is there is applied, unless the link cannot be made or the version not read, which are I/O errors, or it has no files, which is rejected |
| `PollerRefinement.ActingSettles` | crates/svidlet/src/policy/oci/mod.rs:312-387 | Acting on a manifest either leaves the state as it was or records its ETag with nothing left to do about it |
| `PollerRefinement.SettledPollIsQuiet` | crates/svidlet/src/policy/oci/mod.rs:303-346 | Polling again without an ETag for such a manifest changes nothing but the ETag |
| `PollerRefinement.StepKeepsCoupled` | crates/svidlet/src/policy/oci/mod.rs:265-423 | One poll of each poller, the same version directories deleted before it, keeps them equal up to the ETag |
| `PollerRefinement.EtagsChangeNothing` | crates/svidlet/src/policy/oci/mod.rs:265-423 | The ETag poller refines the poller that never sends one: after every history of manifests, failures and deletions both have the same ring, digest, sequence, versions and `current` |
| `PollerRefinement.EtagsChangeNothingFromStart` | crates/svidlet/src/policy/oci/mod.rs:265-423 | In particular from a first start |
| `PollerRuns.PollCut` | crates/svidlet/src/policy/oci/mod.rs:265-397 | What a poll stopped after any number of calls has saved and linked |
| `PollerRuns.EventFacts` | crates/svidlet/src/policy/oci/mod.rs:289-310 | One event, a stop after any number of calls included: memory and disk agree again, the recorded sequence is that of the manifest counted if it is higher and exactly as it was otherwise, and without a counted unfrozen manifest ring, digest and `current` stay |
| `PollerRuns.NoReplay` | crates/svidlet/src/policy/oci/rollout.rs:158-187 | Over every run of polls, stops and restarts: after a counted manifest of positive sequence every later counted one carries a sequence that is not lower |
| `PollerRuns.FreezeHolds` | crates/svidlet/src/policy/oci/mod.rs:312-321 | After a frozen manifest of sequence s > 0, ring, digest and `current` change only in an event that counts an unfrozen manifest of sequence at least s |
| `PollerVersions.InstallingCut` | crates/svidlet/src/policy/oci/store.rs:96-140 | A stop after any call of the unpacking leaves every version authentic: nothing under the final name before the rename, the whole extraction after it |
| `PollerVersions.AuthenticIffNotHalfRemoved` | crates/svidlet/src/policy/oci/store.rs:101-195 | Through polls, restarts, deletions and stops, in the middle of unpacking included, every version stays the extraction of a valid bundle with the digest it is named by, none of whose files lies below another, if and only if no removal deleted files and did not take the directory away |
| `PollerVersions.EventKeepsRecorded` | crates/svidlet/src/policy/oci/mod.rs:361-384 | Without outside deletion the recorded digest is always unpacked, stops included |
| `PollerEnds.RunKeepsVersions` | crates/svidlet/src/policy/oci/store.rs:101-195 | Both hold at every point of a run |
| `PollerEnds.AppliedVersions` | crates/svidlet/src/policy/oci/mod.rs:374-384 | Exactly which versions an applied bundle leaves, and which of them whole, removals failing or not |
| `PollerEnds.AppliedLeavesTwo` | crates/svidlet/src/policy/oci/mod.rs:374-384 | With a complete listing and no removal failing an applied bundle leaves exactly itself and the version recorded before, whatever `keep_versions` is, the latter with its files |
| `PollerEnds.HalfRemovedWhole` | crates/svidlet/src/policy/oci/store.rs:184-193 | A whole poll leaves a version half removed if and only if it applied a bundle and the removal of a listed version that is neither that nor the one before failed with files deleted |
| `PollerEnds.UnpackedNeedsNoBlob` | crates/svidlet/src/policy/oci/mod.rs:360-372 | A poll that sends the node to a bundle it has goes the same whatever the registry would answer for the blob |
| `PollerEnds.RollbackNeedsNoBlob` | crates/svidlet/src/policy/oci/mod.rs:360-372 | Rolling back to the previous digest on the next poll needs no blob |
| `PollerEnds.CurrentIsExact` | crates/svidlet/src/policy/oci/mod.rs:265-397 | Where `current` points after any poll: at the bundle sought, if it was unpacked and linked, else where it did; and such a poll is refused if and only if that bundle cannot be read back |
| `PollerEnds.RefusedChangesLittle` | crates/svidlet/src/policy/oci/mod.rs:265-397 | A refused poll changes neither ring, digest nor ETag, removes and alters no version, and moves `current` if and only if it linked a bundle that could not be read back |
| `PollerEnds.StopTears` | crates/svidlet/src/policy/oci/store.rs:184-193 | From any state: a poll that switches and is stopped right after the first removal deleted files leaves that version torn under its own name, and the new bundle recorded |
| `PollerEnds.FoundIsApplied` | crates/svidlet/src/policy/oci/mod.rs:360-397 | A version under its own name, torn or not, is applied as it is by a poll that seeks it, whatever the registry would answer for the blob |
| `PollerEnds.EmptyIsRefused` | crates/svidlet/src/policy/oci/mod.rs:360-397 | One of which only the directory is left makes every poll that seeks it be refused, whatever the registry would answer for the blob, and stays empty |
| `PollerEnds.NeverRepaired` | crates/svidlet/src/policy/oci/store.rs:96-140 | Over every run, as long as a version is there it never gains a file, whatever happens |
| `PollerCases.RefusedMovesCurrent` | crates/svidlet/src/policy/oci/mod.rs:374-397 | A first poll that is refused and has moved `current` |
| `PollerCases.StopLeavesTornVersion` | crates/svidlet/src/policy/oci/store.rs:184-193 | Three bundles rolled out from a first start, the third poll stopped while it removes the first bundle: a file of it is missing under its own name |
| `PollerCases.TornVersionIsApplied` | crates/svidlet/src/policy/oci/mod.rs:360-397 | The next start, sent back to that bundle, fetches nothing and applies it with the file missing |
| `PollerCases.FailedRemovalTears` | crates/svidlet/src/policy/oci/store.rs:190-193 | The same without a stop: the removal fails after one file and the poll succeeds |
| `PollerCases.StopForgetsSequence` | crates/svidlet/src/policy/oci/mod.rs:307-310 | A poll stopped after its first call has verified sequence 5 and forgotten it: sequence 3 is counted afterwards |
| `Catalog.NameHasNoUnderscore` | crates/svidlet-issue/src/catalog.rs:325-332 | A catalogued name never contains the separator of role names |
| `Catalog.CheckAudiences` | crates/svidlet-issue/src/catalog.rs:172-198 | The loop accepts exactly well-formed audiences with distinct aliases and distinct values |
| `Catalog.Validate` | crates/svidlet-issue/src/catalog.rs:124-201 | Accepts exactly the valid catalogs and names the first entry at which validity is lost |
| `CatalogLaws.DurationIsExact` | crates/svidlet-issue/src/catalog.rs:335-350 | A text is a duration of so many seconds if and only if it is a number and a unit that make them, blanks around aside, neither beyond 64 bits |
| `CatalogLaws.TtlIsExact` | crates/svidlet-issue/src/catalog.rs:165-171 | A token lifetime is accepted if and only if it is written as a duration of six to twelve hours |
| `CatalogLaws.NameIsExact` | crates/svidlet-issue/src/catalog.rs:325-332 | A name is 1 to 253 lower-case letters and digits, with hyphens and dots only between others |
| `CatalogLaws.AudienceIsExact` | crates/svidlet-issue/src/catalog.rs:175-191 | An audience is accepted if and only if it is one non-empty item of a comma-separated list and its alias is 1 to 63 lower-case letters, digits and hyphens |
| `CatalogLaws.EntriesAreExact` | crates/svidlet-issue/src/catalog.rs:152-198 | The entries of a catalog are valid if and only if each has a cluster that is `*` or a name, names for namespace and account, a lifetime of six to twelve hours if any, and well-formed audiences with distinct aliases and distinct values, and no two are for the same cluster, namespace and account |
| `CatalogLaws.HeaderIsExact` | crates/svidlet-issue/src/catalog.rs:124-150 | The rest is valid if and only if the schema is 1, the trust domain one segment, the path absolute with the three placeholders somewhere in it, and every registry ends in a slash |
| `CatalogLaws.TokensDoNotCollide` | crates/svidlet-issue/src/catalog.rs:172-198 | The tokens of an entry published under its aliases are each accepted as a file of their own and hold their own token |
| `CatalogLaws.AliasIsUnique` | crates/svidlet-issue/src/catalog.rs:96-98 | An approved audience has one alias, whatever the order of the list |
| `CatalogLaws.RegistryIsWhole` | crates/svidlet-issue/src/catalog.rs:143-149 | An image reference that starts with an approved registry has its host and path as whole segments, not as the beginning of longer ones |
| `Catalog.FirstMatch` | crates/svidlet-issue/src/catalog.rs:211-215 | The first entry for this very cluster, namespace and account, or none |
| `Catalog.LookupIsExact` | crates/svidlet-issue/src/catalog.rs:205-217 | In a valid catalog the lookup is the entry for the cluster if there is one, else the one for `*`, else nothing, whatever the order of entries |
| `Catalog.SameRole` | crates/svidlet-issue/src/catalog.rs:105-107 | In one cluster nobody else has the role name of an identity without underscores |
| `Catalog.ForCluster` | crates/svidlet-issue/src/catalog.rs:220-236 | Exactly the entries the lookup itself finds, each identity once, sorted by namespace and account |
| `CatalogLaws.OrderIsExact` | crates/svidlet-issue/src/catalog.rs:232-235 | That order is by the first character in which two namespaces differ, and within a namespace two accounts, a text before its continuations |
| `Catalog.RenderPolicy` | crates/svidlet-issue/src/catalog.rs:256-298 | The stanzas are those of the entries in force that approve anything, in order |
| `Catalog.PolicyGrantsExactly` | crates/svidlet-issue/src/catalog.rs:256-298 | The policy grants a role and audience if and only if the broker's lookup approves that audience for that identity, for all strings |
| `Catalog.RolesAreDistinct` | crates/svidlet-issue/src/catalog.rs:268-296 | No two stanzas have the same role |
| `Tokens.CallerIsExact` | crates/svidlet-broker/src/tokens.rs:139-219 | A caller is accepted if and only if the certificate is a current leaf with exactly one URI, which is an ID of this cluster naming that namespace and account |
| `Tokens.AliasOf` | crates/svidlet-issue/src/catalog.rs:96-98 | An alias is found exactly for an approved audience, and it is the one listed with it |
| `Tokens.Service.constructor` | crates/svidlet-broker/src/tokens.rs:119-135 | Nothing cached, no keys loaded, no mints |
| `TokenKeys.ForcedApart` | crates/svidlet-broker/src/tokens.rs:96-105 | From a start, over every run, whatever the clock does: the times at which a refresh of the key set was forced, told from the tokens minted under unknown keys, are at least ten seconds apart |
| `TokenKeys.KeysAreHistory` | crates/svidlet-broker/src/tokens.rs:74-105 | Over every run: the keys in force are those fetched last, by the periodic refresh or a forced one, that were any; and a refresh is forced exactly for a token Vault minted under a key not among them, ten seconds after the one before at the earliest |
| `TokenKeys.SweepIsExact` | crates/svidlet-broker/src/tokens.rs:361-366 | A sweep leaves exactly the tokens with half their life before them, but for a second of rounding, whose key is not known to be retired |
| `Tokens.Service.Check` | crates/svidlet-broker/src/tokens.rs:303-341 | The checks on a minted token and what is cached of it |
| `Tokens.Service.Serve` | crates/svidlet-broker/src/tokens.rs:258-342 | One audience: cache, rate, mint and checks, with every refusal and the whole new state; what that means for the replies is `TokenMints.TooManyIff` and the laws of `TokenServing` |
| `Tokens.Service.ServeAll` | crates/svidlet-broker/src/tokens.rs:239-250 | All audiences: those Vault denies left out, any other refusal ending it; told from the replies of its turns by `TokenRuns.AllIsInTurn` |
| `TokenRuns.CachedIsOurs` | crates/svidlet-broker/src/tokens.rs:275-292 | A token cached under a caller's role and audience was obtained for that namespace and account: keys do not collide |
| `TokenRuns.OneIsSound` | crates/svidlet-broker/src/tokens.rs:253-342 | One request keeps the cache sound, and what it grants is good |
| `TokenRuns.AllIsInTurn` | crates/svidlet-broker/src/tokens.rs:239-250 | Asking for all audiences succeeds if and only if serving each in its turn grants or is denied by Vault, and then answers with the grant of every turn that granted, in the order of the catalog; otherwise with the first other refusal, in the state after that turn |
| `TokenRuns.EveryGrantIsGood` | crates/svidlet-broker/src/tokens.rs:221-366 | Over every run of requests, refreshes, reloads and sweeps: a grant is for an audience the catalog in force approves, under its alias, carries it, names the caller's namespace and account, expires no later than the certificate, has a published key, and if cached is not past half its life |
| `TokenRuns.EveryGrantOfAllIsGood` | crates/svidlet-broker/src/tokens.rs:239-250 | So is each grant of a request for all audiences, in the state it was given in |
| `TokenMints.MintsAreBounded` | crates/svidlet-broker/src/tokens.rs:294-301 | Over every run in order, the times at which Vault was asked to mint for one role, turns of requests for all audiences included, are at most the configured number in any sixty seconds |
| `TokenMints.TooManyIff` | crates/svidlet-broker/src/tokens.rs:294-301 | Over every run in order and for every audience served in it: one that the cache does not answer is refused as too many if and only if Vault was asked for its role that many times in the last sixty seconds |
| `TokenServing.NotApprovedIff` | crates/svidlet-broker/src/tokens.rs:221-273 | A request is refused as not approved if and only if the catalog has no entry for the caller or the entry in force does not list the audience |
| `TokenServing.MintedIff` | crates/svidlet-broker/src/tokens.rs:303-342 | When Vault was asked: the token is granted, as it was minted, if and only if it decodes, has the caller's ID for its subject and the audience among its own, ends no later than the certificate and has a key that is published or found by a refresh that may be forced now; otherwise the answer is what Vault's error maps to, an internal error for a token that is not the one asked for, or unavailable |
| `TokenServing.GrantedAgain` | crates/svidlet-broker/src/tokens.rs:275-292 | Over every run: a token that was granted is granted again, from the cache and without asking Vault, to every caller of the account whose certificate outlives it, until half its life is over, as long as its key stays published, its audience approved and no other was minted in its place |
| `TokenServing.HalfLifeIs` | crates/svidlet-issue/src/jwt.rs:77-81 | Half of the life of a token is over once no more of it is left than has gone by since it was issued, but for a second of rounding |
| `TokenServing.OtherClusterIff` | crates/svidlet-broker/src/tokens.rs:181-219 | A caller is refused as of another cluster if and only if the certificate is a current leaf with one well-formed ID of this trust domain that names another cluster |
| `TokenServing.UnauthenticatedIff` | crates/svidlet-broker/src/tokens.rs:139-176 | A caller is refused as unauthenticated if and only if the certificate itself will not do |
| `TokenSubjects.IdentityFieldsDetermine` | crates/svidlet-broker/src/tokens.rs:181-219 | If the template substitutes only trust domain, cluster, namespace and account, the ID of a caller is settled by namespace and account |
| `TokenSubjects.SubjectLawHolds` | crates/svidlet-broker/src/tokens.rs:221-366 | Then over every run the subject of every token granted, cached or not, is the caller's own SPIFFE ID |
| `TokenSubjects.SharedToken` | crates/svidlet-broker/src/tokens.rs:280-292 | If two IDs of the cluster name the same namespace and account there is a run that grants one of them a token with the other as subject |
| `TokenSubjects.SubjectLawIffDetermined` | crates/svidlet-broker/src/tokens.rs:280-316 | For any template and pattern that law holds if and only if no two accepted IDs name the same namespace and account |
| `TokenSubjects.SubjectLawIff` | crates/svidlet-broker/src/tokens.rs:280-316 | Where any caller is accepted and no pattern is set, it holds if and only if the template has no pod and no node field |
| `TokenSubjects.CompiledIsSchemed` | crates/svidlet-issue/src/template.rs:200-264 | Every template that compiles is one the law is stated for |
| `TokenSweeps.SweepIsInvisible` | crates/svidlet-broker/src/tokens.rs:361-366 | A sweep never changes a later answer, unless a key for whose sake it dropped a token is published again |
| `TokenSweeps.OldTokensAreNotMissed` | crates/svidlet-broker/src/tokens.rs:361-366 | A sweep that drops only tokens past half their life changes no later answer at all |
| `TokenSweeps.SweepIsSeen` | crates/svidlet-broker/src/tokens.rs:361-366 | A run in which a retired key returns and the sweep shows: without it the token is granted, with it the request is refused |
| `TokenSweeps.KeysAreNeverLost` | crates/svidlet-broker/src/tokens.rs:74-83 | Once a key set was loaded there is always one, never empty, however many refreshes fail or answer nothing |
| `Subscriptions.Manager.Subscribe` | crates/svidlet/src/policy/mod.rs:189-203 | The identity is wanted afterwards, if switched on, and nothing else changes |
| `Subscriptions.Manager.Unsubscribe` | crates/svidlet/src/policy/mod.rs:206-221 | The identity, its bundle and its mark go, if switched on, and nothing else |
| `Subscriptions.Manager.Receive` | crates/svidlet/src/policy/grpc.rs:222-253 | An update is refused or kept exactly as it should, and reported as a change if and only if the books changed |
| `Subscriptions.Manager.ApplyFleet` | crates/svidlet/src/policy/mod.rs:269-300 | The fleet bundle changes and every wanted identity without its own is marked |
| `SubscriptionLocks.SectionsAreTheOperation` | crates/svidlet/src/policy/mod.rs:206-378 | Uninterrupted, the two locked sections of an operation are the operation |
| `SubscriptionLocks.BundlesAreWanted` | crates/svidlet/src/policy/mod.rs:189-378 | Bundles exist only for wanted identities, however the locked sections of the operations interleave |
| `SubscriptionLocks.OnlySubscriptionsCount` | crates/svidlet/src/policy/mod.rs:189-221 | What is wanted is what the subscriptions in turn made of it, whatever else goes on |
| `SubscriptionLocks.MarksAreWantedIff` | crates/svidlet/src/policy/mod.rs:206-378 | With every operation finished, marks are for wanted identities only if and only if no step marked an identity given up by then that no later step subscribed, unmarked or took |
| `SubscriptionLocks.PoliteMarksAreWanted` | crates/svidlet/src/policy/mod.rs:206-378 | So it is on every schedule in which no unsubscription begins while a mark of its identity is still to be made |
| `SubscriptionLocks.StrayMark` | crates/svidlet/src/policy/mod.rs:206-378 | An order of the sections of one update and one unsubscription that leaves a mark for an identity nobody wants |
| `SubscriptionLocks.ChangesAreMarked` | crates/svidlet/src/policy/mod.rs:269-396 | Over every run with takings, an identity followed all along whose bundle to publish changed since the marks were last taken is marked or about to be |
| `SubscriptionBooks.BooksAreHistory` | crates/svidlet/src/policy/mod.rs:189-378 | After any interleaving: an identity is wanted if and only if its last request was to subscribe it; its own bundle is the last one brought while it was followed and since, an empty one only if marked empty; and the fleet's is the last one sent |
| `SubscriptionBooks.MarkedIff` | crates/svidlet/src/policy/mod.rs:206-378 | An operation leaves an identity marked if and only if it was and was not unsubscribed, or it is wanted and its own bundle changed, or it is wanted without one and the fleet's changed |
| `Subscriptions.Daemon.Discover` | crates/svidlet/src/policy/daemon.rs:116-157 | A path is found with an identity if and only if the last reading of it that is one of this fleet says so |
| `Subscriptions.Daemon.Scan` | crates/svidlet/src/policy/daemon.rs:163-187 | Afterwards the wanted set is exactly the identities of the volumes found, shared identities included, and bundles of identities that stay are kept |
| `Subscriptions.Connection.FollowNew` | crates/svidlet/src/policy/grpc.rs:185-200 | Sends one subscription for each wanted identity not told yet |
| `Subscriptions.Connection.ForgetOld` | crates/svidlet/src/policy/grpc.rs:202-215 | Sends one cancellation for each identity told and no longer wanted |
| `Subscriptions.Connection.Pass` | crates/svidlet/src/policy/grpc.rs:179-215 | After a pass, replaying every message sent on the connection yields exactly the wanted set it read; no message repeats what the backend knew, and each subscription carries the revision held |
| `PolicyVolumes.ApplyAll` | crates/svidlet/src/policy/daemon.rs:191-224 | Exactly the volumes with a bundle to publish, another published revision and no failing write show the new bundle, the others what they did; the count is theirs |
| `PolicyVolumes.RunPass` | crates/svidlet/src/policy/daemon.rs:226-240 | A whole pass, scan and writing: afterwards every volume found shows the bundle of its identity, unless there is none, it cannot be written or it showed another one under the same revision; the wanted set is the identities found, and no other volume is touched |
| `PolicyVolumes.SameRevisionIsStale` | crates/svidlet/src/policy/daemon.rs:197-199 | Documents changed under an unchanged revision are not written |
| `PolicyVolumes.WrittenIsSkippedIff` | crates/svidlet/src/volume.rs:212-219 | A volume just written is skipped on the next pass if and only if its revision is not empty and has no outer whitespace |
| `Renewal.RangeIsWhole` | crates/svidlet/src/rand.rs:51-57 | Every value of the range can be drawn |
| `Renewal.BackoffBounds` | crates/svidlet/src/store.rs:172-179 | For each number of failures exactly which waits can be drawn: 45 to 75 seconds after one, doubling, and 450 to 750 from the fifth on |
| `Renewal.JitterBounds` | crates/svidlet/src/store.rs:61-66 | The renewal instant lies between the two fractions of the lifetime, one second if the window is empty or inverted, up to rounding down to a second |
| `Renewal.FailureKeepsWindow` | crates/svidlet/src/store.rs:154-163 | A failure leaves the validity window alone and puts the retry 45 to 750 seconds off |
| `RenewalHistory.EntryIsItsAttempts` | crates/svidlet/src/renew.rs:26-132 | Over any passes an entry whose volume stays is what the attempts at it, one after another, made of it |
| `RenewalHistory.EntryIsHistory` | crates/svidlet/src/store.rs:132-163 | After any attempts the window is that of the last renewal, the failures are exactly those since, so that a renewal resets them, and the deadline is the one drawn at the renewal or the last failure put off by a wait of that many failures |
| `Renewal.Store.DueEntries` | crates/svidlet/src/store.rs:109-118 | Exactly the due entries, each once, oldest deadline first |
| `Renewal.Store.RenewDue` | crates/svidlet/src/renew.rs:26-132 | A pass attempts every due entry once, each by its own reading of the clock, changes nothing else, and returns how many were due |
| `RenewalRuns.EnoughAttempts` | crates/svidlet/src/renew.rs:17-132 | Over passes that all fail, with at most I seconds from one to the attempt of the next, a certificate stays in the store as it was and is tried at least 1 + floor((notAfter - start - I) / (750 + I)) times before it expires, start being its due date or the moment after the pass before, whichever is later |
| `RenewalRuns.EnoughAttemptsByFraction` | crates/svidlet/src/store.rs:61-66 | The same for a deadline drawn from the settings, in terms of the larger fraction of the lifetime |
| `RenewalOutages.AlwaysRenewedIff` | crates/svidlet/src/store.rs:147-163 | For every outage, however short or long and whenever it begins: whatever the moments of the passes and the waits drawn, a certificate is renewed in time if and only if no attempts in the outage, each put off by a wait that can be drawn, lead to one that can come too late |
| `RenewalOutages.SurvivesIff` | crates/svidlet/src/store.rs:147-163 | In closed form for outages long enough for the waits to settle: if and only if the outage begins an interval after the certificate falls due, or ends 749 seconds and an interval before it expires |
| `RenewalOutages.LengthIff` | crates/svidlet/src/store.rs:147-163 | If nothing is known of its beginning, such an outage is survived if and only if it is shorter than the time from due date to expiry by 748 seconds and two intervals |
| `RenewalOutages.SurvivesOutage` | crates/svidlet/src/store.rs:147-163 | That is enough for outages of any length |
| `RenewalOutages.DoesNotSurvive` | crates/svidlet/src/store.rs:147-163 | No certificate is renewed in an outage from its due date to its expiry |
| `RenewalOutages.HalfDayIsTooLong` | crates/svidlet/src/store.rs:150-153 | With the default fractions no certificate of one day survives a half-day outage that begins when it falls due, whatever was drawn |
| `RenewalOutages.DefaultsSurvive` | crates/svidlet/src/store.rs:61-66 | With the default fractions every one-day certificate survives an outage of seven hours less 28 seconds and two intervals |

## Left out

- TLS, HTTP, gRPC transport, Kubernetes and Vault clients: their answers are arbitrary inputs.
- Cryptography and the decoding of X.509, JWT, JSON and TOML: arbitrary functions or inputs.
- Configuration, logging and metrics.
- Mounts, bind mounts, file modes, group ownership and `fsync`.
- Two writers of the identity chain at once, and calls of other threads between a limiter's check and its record.
- Wake-up of the subscription loop: only what each pass establishes is stated. A stream that closes during a pass ends the connection, and the next one starts from nothing.
- Other entries in a volume directory than the writers make, and version numbers beyond 64 bits.
- VolumePublish.Publish: the directory is passed and returned as a value, and every call of the publication succeeds; failing calls and stops are in the state machine of `Volume`. A bundle's documents are a flat map of paths.
- Volume.StepKeepsInv: a file is written by one call after being created empty; several partial writes of it are not told apart.
- Failing saves of the poller's state file.
- PollerVersions.AuthenticIffNotHalfRemoved: a file in a staging directory is written by one call; a partly written one is not told apart, and is cleared or overwritten before the rename.
- PollerCases.StopLeavesTornVersion: for configurations whose hash tells three small bundles apart, as `PollerCases.SomeTellApart` shows some do.
- PollerRefinement.EtagsChangeNothing: excludes answers without an ETag and stops inside a poll, where the old ETag stays beside the new digest.
- Sequence number 0, which counts as none.
- Rollout.GlobIsExact: characters, not bytes; `node_bucket` is an input below 100.
- TemplateMatch.MatchIsLeast: the regular expression is the backtracking matcher it denotes; size limits of the regex library are not modelled. `Template` models the operator's extra pattern as an arbitrary predicate.
- TarWrite.WriteHeader: numbers too wide for their field, on which the source panics, are excluded.
- Tar.Extract: on unbounded integers; `TarBounds.ExtractFits` shows they are the machine's for archives below 2^63 bytes.
- Sign.Signer.Admit: attestation, admission and the request checks before the limits are one input, refused or attested.
- Catalog.RenderPolicy: the stanzas, not their text; the `sign` path and `render_roles` are left out.
- Catalog.PolicyGrantsExactly: a stanza allows exactly the audiences it lists. Vault also takes `*` in an allowed value for a wildcard, and validation admits `*` in an audience; that matching and the quoting of the text are not modelled.
- Catalog.Validate: which entry fails, not the wording.
- Tokens.Service.Serve: 64-bit overflow in the half-life arithmetic.
- Subscriptions.Daemon.Scan: the two maps are listed in an arbitrary order, and no update arrives between its subscriptions; interleavings are in `SubscriptionLocks`. Waiting for a bundle is left out.
- PolicyVolumes.RunPass: no update arrives during the pass.
- PolicyVolumes.ApplyAll: a volume shows the last bundle published in it, as `VolumeRuns.AllOrNothing` has it, and a failed write leaves it alone. What the manager answers for each volume is an input, since it can change in the middle of a pass.
- TokenSubjects.SubjectLawIff: without an operator's pattern, which could by itself admit one ID only; `TokenSubjects.SubjectLawIffDetermined` has one. Some minted token decodes to each accepted ID.
- Renewal.JitterBounds: over the reals, without floating-point rounding.
- RenewalRuns.EnoughAttempts: an attempt counts by the moment it begins, and the volume stays where it is. Entries published or removed in the middle of a pass are left out.
- RenewalOutages.SurvivesIff: the closed form is for outages longer than the settling time, 900 to 1575 seconds; shorter ones are decided by `RenewalOutages.AlwaysRenewedIff`, which follows the attempts one by one.
- RenewalOutages.LengthIff: likewise.
- The seed and period of the random generator.
