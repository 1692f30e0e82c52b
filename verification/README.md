# A model of hugo-mcp-go, and what holds of it

hugo-mcp-go lets MCP clients read and change a Hugo site. This project models its four most intricate parts in Dafny
and proves what they promise. `dafny verify dfyconfig.toml` checks everything.

**The shim bridge** (`Channels`, `Bridge*`, `RawChild`). Concurrent HTTP handlers share one child process over stdio,
through a map from request ids to reply channels. `Bridge.dfy` is the transition system: a program counter per
handler, one reader and one exit watcher per child, and one step per region under the mutex. The reader's send and
close happen outside the mutex and are steps of their own. A write that fails, a reply, a deadline, a child's exit, a
broken read and `Close` may come at any time. The theorems speak of every reachable state or every run.
`RawChild.dfy` has the objects themselves, their fields updated in place region by region, each method proved equal
to the function the transition system uses. `BridgeIds` says what becomes of a client's id, `BridgeSteps` what single
steps come to. `BridgeRuns` builds runs out of regions; `BridgeRestart`, `BridgeWedge` and `BridgeCollisions` use it
to show what can go wrong, next to the exact conditions.

**The chunked and paged readers** (`Utf8`, `Cursors`, `PageChunks`, `Paging`, `AssetChunks`). What a client gets by
following cursors over a page, a file or a listing.

**The page store** (`Merge`, `Validation`, `Render`, `Reading`, `Paths`, `Places`, `Naming`, `Addressing`,
`OddNames`, `Store*`, `FileSteps`). Create, Update and Delete over the bytes of one content root: validation,
recursive merge, the file format, what the YAML decoder makes of written values, the naming scheme, and below them
the atomic directory steps. Looking a path up, opening it and writing it trim and clean it in three different ways:
`Places` says where each leads, and `Addressing` when they lead to one file. `StoreOutcomes` says when each call
succeeds and why not otherwise, `StoreTheorems` what it does to a page, `StoreRuns` what every run of calls keeps,
`StoreCalls` calls read back, repeated and undone.

**The SRI auditor** (`Versions`, `Sri*`). Scan, evaluation, the two-file fix with its rollback, the second
evaluation, and the verdict. `SriNotes` says what a scan retains and notes, told from roots, files and references
alone, and `SriQuiet` when it has nothing to note. `SriCdn` has the rewriting of the CDN file. `SriNames` says which
package and version a url names, scoped or not, and `SriRename` when the fix renames the right entries; `SriCoverage`
says which references a verdict speaks of.

`Text` and `Wrappers` hold strings and results.

## Where the code falls short of what one might expect

Each of these is a theorem about the code as it is; the lemmas named have the input or the run, and the condition.

- The handshake is not repeated when the child restarts, since `bootstrapped` is never cleared: in every generation
  from the second on, some run writes a request to a child that was never greeted, so the promise is kept in the
  first generation and no other (`BridgeRestart.RestartSkipsHandshake`, `GreetedExactlyFirst`, `NoMoreGreetings`).
  What does hold of every generation is `BridgeTheorems.RequestsFollowHandshake`.
- If the child's exit watcher returns before `ensure` publishes `alive`, and its reader meets the end of the output,
  the dead child counts as alive for ever and is never replaced (`BridgeWedge.WedgedReachable`, `WedgedForever`;
  `WedgedExactlyBy` names the two steps that lead there).
- A reader goes by the id alone, so a child that has been replaced can answer a request written to its successor
  (`BridgeWedge.StaleAnswerReachable`); it can exactly if its reader still reads and somebody waits
  (`StaleClaimIff`).
- A request without an id, `notifications/initialized` apart, is written to the child and gets no answer, a bad
  gateway for its client; exactly the requests without an id fare so (`BridgeWedge.ForwardedReachable`, `BridgeTheorems.AnsweredIffId`).
- A handler waiting in `sendRaw` is left without anyone to answer it exactly when another handler registers or
  withdraws a request under the same id while its entry is still pending; then only its deadline ends the wait
  (`BridgeWaiters.LostExactlyByCollision`, `LostForever`). Equal ids of two clients do it, and so does id 1, which
  every handshake uses: a client's own id 1, or a second handshake (`BridgeCollisions.SameIdLoses`,
  `ClientOneLoses`, `TwoHandshakesLose`).
- `deepMerge` differs from a JSON Merge Patch, and is not idempotent, exactly when an object with a null inside
  lands on a missing or non-object value (`Merge.AgreesWithMergePatch`, `Merge.Idempotent`,
  `StoreCalls.UpdateTwice`).
- A value with three dashes cuts the frontmatter in two when the page is read back, and fields after it are lost,
  the date included (`Render.CutAtDashes`, `StoreTheorems.DashesLoseTheDate`). The theorems over runs of the store
  therefore ask that what is written reads back, which `Render.RenderThenSplit` shows to depend on exactly that.
- Create defaults the language to French and Delete, Update and Get default to none: without a language, Delete with
  the arguments of a Create removes another page, the one without a language, if there is one
  (`StoreCalls.DefaultLanguageDeletesOther`). A mutation normalizes its route twice, and takes "./index" for the
  root page the second time (`StoreCalls.DotSlashIndexDeletesRoot`).
- A route can keep white space at the edges of a name from being trimmed. Create then writes under the trimmed
  directory, prints the untrimmed path, and Get looks there: after Create of "a /" the page is in "a", and Get of
  "a /" finds nothing (`StoreCalls.CreatedElsewhere`; `Addressing.PrintedIsWritten` has the condition). A mutation
  of "a / /." reads the page in "a ", and removes or overwrites the one in "a" (`StoreCalls.OtherPageDeleted`,
  `DateMoves`); it changes what it has read exactly if its name for the page does not end in white space
  (`Addressing.ReadsWhatItTouches`). A delete of "./ ./ ./ a" keeps a copy of a page other than the one it removes
  (`StoreCalls.OtherPageCopied`).
- So Get reads what Create wrote, Update changes it and Delete takes it back exactly under the conditions of
  `StoreCalls.CreateThenGet`, `CreateThenLookup`, `CreateThenUpdate` and `CreateThenDelete`, which a caller can check
  on the route and the language.
- Page chunks of fewer than four bytes can repeat the same empty answer forever, as can any size on text that is
  not UTF-8 (`PageChunks.FollowEnds`, `SmallChunksStick`).
- A route that starts like a root page's file name and ends in a dot loses the dot when read back
  (`Naming.RouteReadBack`).
- The fix is all or nothing unless putting a file back fails (`SriAudit.AllOrNothing`).
- The fix for a package also renames entries of a scoped package whose last segment is that package, if it is at the
  same version: `core` at 2.0.0 takes `@popperjs/core` along (`SriRename.TailRenamed`). Renames keep to their own
  package and leave no old key exactly if no candidate is such a last segment (`SriRename.RightIff`).
- The verdict OK speaks of one url per package: of two files of one package and version the first may be missing from
  the hash file (`SriCoverage.FirstUnseen`). It covers every reference exactly if the scan keeps each url
  (`SriCoverage.OkCoversAllIff`), as it does when each package is referenced by one url (`OneUrlCovered`).
- The result of the fix depends on the iteration order of Go maps exactly if one rename arrives where another starts
  (`SriFix.OrdersAgreeIff`); two candidates of one evaluation can do so (`SriOrders.BothFixable`,
  `RealOrdersDiffer`). When no candidate is the tail of another package they cannot (`SriRename.ClearUntangled`).

## Model

| member | source | states |
|---|---|---|
| RawChildObject.RawChild.EnsureEnter | internal/shim/child.go:75-95 | the entry region of `ensure`: ready, wait, or become the one spawner |
| RawChildObject.RawChild.EnsureLeave | internal/shim/child.go:99-111 | its exit region: only a successful spawn sets `alive` and counts a generation |
| RawChildObject.RawChild.PublishChild | internal/shim/child.go:195-200 | the new child's pipes replace the old ones and nothing else changes |
| RawChildObject.RawChild.RegisterRequest | internal/shim/child.go:223-231 | the registering region of `sendRaw`, refused when the child is not alive, overwriting an equal id |
| RawChildObject.RawChild.WithdrawRequest | internal/shim/child.go:239-256 | the entry under the key is removed, whoever registered it |
| RawChildObject.RawChild.ClaimEntry | internal/shim/child.go:321-328 | the reader takes the entry of the id it read and removes it |
| RawChildObject.RawChild.HandleResponse | internal/shim/child.go:319-336 | one response line, undisturbed: the waiter of its id, if any, has the line, its entry is gone, and no other channel is touched |
| RawChildObject.RawChild.FailPending | internal/shim/child.go:290-298 | whatever the order of the map walk, every pending channel is sent nil and closed, no other is touched, and the map is empty |
| RawChildObject.RawChild.ChildLost | internal/shim/child.go:274-300 | only the child currently published drains the map |
| RawChildObject.RawChild.NextSyntheticId | internal/shim/child.go:430-432 | the id that replaces null is the next number, quoted |
| BridgeTheorems.AdmittedExactly | internal/shim/server.go:198-205 | in every run, a request is let in exactly if fewer than eight handlers are in the guarded region |
| AdmissionQueue.Queue.Serve | internal/shim/server.go:116-121 | a request alone is let in exactly if there is room, and leaves as many tokens as it found |
| BridgeTheorems.ReleaseMakesRoom | internal/shim/server.go:207-212 | in every run, a release leaves one token per handler still there, and the next request is let in |
| BridgeTheorems.InvAlways | internal/shim/child.go:40-58 | the joint invariant of channels, owners, spawning, handshake, ids and counts holds in every state of every run |
| BridgeTheorems.ChannelDiscipline | internal/shim/child.go:212-360 | in every interleaving, duplicate ids included, no reply channel is closed twice, sent to when closed, receives two values, or makes the non-blocking send take its default; a line in it carries the key it was registered under |
| BridgeSteps.OneValueThenNil | internal/shim/child.go:212-335 | a reply channel takes one value, gives it once, then nil once closed; a second value is dropped, a send or a close after a close panics |
| BridgeTheorems.SingleFlight | internal/shim/child.go:75-112 | at most one thread is between entering and leaving `spawnWithBackoff`, `alive` and `starting` never both hold, `generation` counts the successful spawns |
| BridgeSteps.FiveTries | internal/shim/child.go:150-171 | whoever finds no child and nobody starting one tries five times at most; it stops at the first failure after which the context is done |
| BridgeSteps.Woken | internal/shim/child.go:81-93 | who sleeps while another handler starts the child goes on like one that finds it alive, sleeps on while the start lasts, and ends otherwise |
| BridgeSteps.StopStays | internal/shim/child.go:362-369 | stopping is possible at any time, changes nothing else, and is never undone |
| BridgeSteps.EndsExactly | internal/shim/child.go:75-271 | the steps at which a handler ends, each with its condition |
| BridgeTheorems.RequestsFollowHandshake | internal/shim/child.go:114-148 | every client request is written after an initialize, its reply and an initialized notification; in the first generation, after both were written to that same child |
| BridgeTheorems.IdsComeBack | internal/shim/child.go:396-412 | every answer shows the client its own id, null included, and no synthetic id is issued twice (section 5 of JSON-RPC 2.0) |
| BridgeIds.AnswerShowsId | internal/shim/child.go:396-427 | in every run, the answer to a request shows the text of its id, white space at the edges apart, also when it is null |
| BridgeIds.TravelsUnderId | internal/shim/child.go:422-427 | in every run, a request with an id other than null is registered, written, awaited and withdrawn under the text of that id |
| BridgeIds.KeysKeptApart | internal/shim/child.go:396-432 | in every run, requests on their way with plain ids share a key if and only if the ids are the same text; two null ids never do, their keys being minted |
| BridgeSteps.MintedInOrder | internal/shim/child.go:401-432 | in every run the keys minted are "shim-1", "shim-2" and so on, in quotes, one for each null id |
| BridgeTheorems.AnsweredIffId | internal/shim/child.go:259-271 | of the requests that come to an answer or are forwarded without one, exactly those with an id are answered |
| BridgeTheorems.SyntheticInjective | internal/shim/child.go:430-432 | different numbers give different synthetic ids |
| BridgeTheorems.PendingBounded | internal/shim/child.go:223-257 | there are never more pending entries than handlers, since distinct entries belong to distinct handlers |
| BridgeTheorems.Admission | internal/shim/server.go:116-121 | queue length equals handlers in the guarded region and never exceeds eight, a release finds a token, and the missing-stdin branch after registration is unreachable |
| BridgeWaiters.OneSignaller | internal/shim/child.go:321-335 | a registered waiter is claimed by no reader and has been sent nothing, a waiter is claimed by one reader at most, and one whose line is still to be sent has been sent nothing |
| BridgeWaiters.NoLostWaiter | internal/shim/child.go:223-257 | in every run in which in-flight keys stay apart, each handler inside `sendRaw` has someone left to answer it or has its value |
| BridgeWaiters.LostExactlyByCollision | internal/shim/child.go:229-254 | a step loses a waiter if and only if another handler registers or withdraws under its key while it is still pending |
| BridgeWaiters.LostForever | internal/shim/child.go:245-256 | once lost, a waiter never again has anything to receive, in any continuation |
| BridgeCollisions.SameIdLoses | internal/shim/child.go:223-231 | some run loses the waiter of a client because another client uses its id |
| BridgeCollisions.ClientOneLoses | internal/shim/child.go:126-131 | some run loses the waiter of a client with id 1 because another handler starts the handshake |
| BridgeCollisions.TwoHandshakesLose | internal/shim/child.go:114-131 | some run loses the handshake of one first request to that of another |
| BridgeWaiters.ChildLossAnswersAll | internal/shim/child.go:274-300 | handling the exit or read error of the current child empties the map and has sent nil to every registered waiter |
| BridgeRestart.RestartSkipsHandshake | internal/shim/child.go:119-124 | for every generation from the second on, some run writes a client request to a child of that generation that was sent neither initialize nor initialized |
| BridgeRestart.GreetedExactlyFirst | internal/shim/child.go:114-148 | in every run each request of a generation goes to a greeted child, if and only if it is the first generation |
| BridgeRestart.NoMoreGreetings | internal/shim/child.go:119-124 | once the flag is set and no handler is inside the handshake, neither greeting is written in any continuation |
| BridgeWedge.WedgedForever | internal/shim/child.go:75-110 | a child taken for alive, its watcher and reader done, stays the current one, alive and unreplaced, in every continuation |
| BridgeWedge.WedgedExactlyBy | internal/shim/child.go:97-110 | a step leads there if and only if it publishes a child whose watcher and reader are done, or ends the reader of a published child whose watcher is done |
| BridgeWedge.WedgedReachable | internal/shim/child.go:274-310 | some run gets there |
| BridgeWedge.StaleClaimIff | internal/shim/child.go:321-328 | a child that is not the current one can take somebody's answer if and only if its reader still reads and somebody waits |
| BridgeWedge.StaleAnswerReachable | internal/shim/child.go:302-335 | in some run the reader of an exited child holds the answer to a request just written to its successor |
| BridgeWedge.ForwardedReachable | internal/shim/child.go:259-271 | some run forwards a request without an id, whose handler ends without an answer |
| Utf8.ValidIffEncoding | internal/hugo/pages/pages.go:287 | the byte automaton of section 4 of RFC 3629 accepts exactly the encodings of sequences of scalar values |
| Utf8.ValidConcat | internal/hugo/pages/pages.go:287 | after a valid piece, the rest is valid if and only if the whole is |
| Utf8.BoundaryNear | internal/hugo/pages/pages.go:287-289 | in valid text one of any four consecutive positions is a character boundary |
| PageChunks.BackOff | internal/hugo/pages/pages.go:283-289 | the loop stops at the greatest end, not beyond the limit, that makes the chunk valid |
| PageChunks.CutIsGreatest | internal/hugo/pages/pages.go:287-289 | no longer valid piece fits |
| PageChunks.GetChunk | internal/hugo/pages/pages.go:268-303 | negative cursors are refused, large ones moved back, the default size is 64 KiB, and the answer is the longest valid piece with its cursors |
| PageChunks.NextCursor | internal/hugo/pages/pages.go:291-303 | the next cursor reads back as the position right after the chunk, and is missing exactly on the last chunk; the lengths given are those of the chunk and of the text |
| PageChunks.ChunksTile | internal/hugo/pages/pages.go:278-303 | for any bytes, cursor and size, chunks are valid, no longer than asked, and tile a prefix of the rest, all of it if the last chunk is reached |
| PageChunks.FollowEnds | internal/hugo/pages/pages.go:278-303 | following terminates if and only if the rest is valid UTF-8 and each of its characters fits in a chunk |
| PageChunks.LongChunks | internal/hugo/pages/pages.go:283-290 | in valid text every chunk but the last is within three bytes of full |
| PageChunks.WholeText | internal/hugo/pages/pages.go:268-303 | with four bytes or more, following from zero ends if and only if the content is valid, and then gives exactly the content |
| PageChunks.SmallChunksStick | internal/hugo/pages/pages.go:287-303 | with three-byte chunks a four-byte character is never passed |
| Cursors.OffsetRoundTrip | internal/hugo/pages/pages.go:377-390 | the printed offset parses back to itself exactly while it fits the integer type |
| Cursors.AtoiExactly | internal/hugo/pages/pages.go:377-390 | which texts are numbers: digits with a sign or without, within 64 bits |
| Cursors.CursorExactly | internal/hugo/pages/pages.go:377-390 | a cursor is a number that is not negative, trimmed; an empty one is zero; otherwise which error it is |
| Paging.SortStable | internal/hugo/pages/pages.go:173-181 | sorting by insertion, as the stable library sort, computes the listing |
| Paging.ListingSorts | internal/hugo/pages/pages.go:173-181 | the listing is ordered and holds the collected entries, each as often |
| Paging.BeforeTransitive | internal/hugo/pages/pages.go:173-181 | the comparison is a proper sorting order |
| Paging.LessMeaning | internal/hugo/pages/pages.go:173-181 | texts compare as Go strings do: by the first place where they differ, a beginning coming first |
| Paging.ListingNewestFirst | internal/hugo/pages/pages.go:173-181 | of two entries of the listing the later one has no later stamp; with equal stamps no smaller path, with equal paths no smaller language |
| Paging.WindowShowsNewest | internal/hugo/pages/pages.go:183-210 | a window is the part of all collected entries, newest first, that starts at the offset; its total and its next cursor |
| Paging.OneListing | internal/hugo/pages/pages.go:173-181 | with one entry per path there is only one ordered listing of the same entries |
| Paging.ListPages | internal/hugo/pages/pages.go:173-210 | a bad cursor is an error; else the entries from the offset on, newest first, all of them without a positive limit, with the total and the next cursor |
| Paging.ListAssets | internal/hugo/assets/assets.go:79-179 | the same with a limit of 100 by default and 500 at most |
| Paging.WalkSeesRest | internal/hugo/pages/pages.go:183-210 | from any cursor that parses, following shows the rest of the listing in order |
| Paging.WalkConserves | internal/hugo/pages/pages.go:173-209 | following from the start shows every collected entry exactly once |
| Paging.WalkOrderIrrelevant | internal/hugo/assets/assets.go:158-178 | two walks of the same files in different orders give the same listing |
| AssetChunks.Base64RoundTrip | internal/hugo/assets/assets.go:216 | what section 4 of RFC 4648 encodes decodes to the same bytes |
| AssetChunks.TestVectors | internal/hugo/assets/assets.go:216 | the encoding agrees with section 10 of RFC 4648, and the two last characters of the alphabet are plus and slash |
| AssetChunks.GetChunk | internal/hugo/assets/assets.go:202-229 | the chunk from a cursor, clamped to the file, in base64 |
| AssetChunks.NextCursor | internal/hugo/assets/assets.go:217-228 | the next cursor reads back as the position right after the chunk, and is missing exactly on the last one |
| AssetChunks.RequestsIsCeiling | internal/hugo/assets/assets.go:212-228 | the number of requests is the length over the chunk size rounded up, and at least one |
| AssetChunks.WholeFile | internal/hugo/assets/assets.go:202-228 | following from zero decodes and concatenates to exactly the file, in exactly that number of requests |
| Merge.MergeInto | internal/hugo/mutations/frontmatter.go:133-150 | deleting from and assigning to a copy, in any key order, gives the key-by-key merge |
| Merge.LeafOfMerge | internal/hugo/mutations/frontmatter.go:133-150 | the value at every path is read off the two trees: the update speaks first and is silent where it has no key |
| Merge.KeysOfMerge | internal/hugo/mutations/frontmatter.go:135-148 | which top-level keys survive, and with what |
| Merge.AgreesWithMergePatch | internal/hugo/mutations/frontmatter.go:133-150 | the merge is that of section 2 of RFC 7396 if and only if no object with a null lands on a missing or non-object value |
| Merge.Idempotent | internal/hugo/mutations/frontmatter.go:133-150 | merging the same update again changes nothing, under the same condition, both directions |
| Merge.ComposesIff | internal/hugo/mutations/frontmatter.go:133-150 | two null-free updates merged first act like both in turn on every page, if and only if the first has no non-object where the second has an object |
| Validation.ValidTreeMeaning | internal/hugo/mutations/frontmatter.go:99-131 | a value is accepted if and only if every value anywhere in it is shallow enough, of an allowed type, and null only on update |
| Validation.RefusedExactly | internal/hugo/mutations/frontmatter.go:52-97 | frontmatter is accepted, unchanged, if and only if it has 10240 bytes at most, none of the six keys, on update no date, no key of a given dedicated parameter, and every value allowed; otherwise the first rule broken is the refusal, with all its keys |
| Validation.CreateDedicates | internal/hugo/mutations/frontmatter.go:175-188 | on create the draft is dedicated in any case, title and tags if they are not empty |
| Validation.UpdateDedicates | internal/hugo/mutations/frontmatter.go:175-188 | on update all three are, given or not |
| Validation.AcceptedUpdate | internal/hugo/mutations/frontmatter.go:76-89 | an accepted update carries no date and no title, tags or draft, even when those parameters are absent (typed nil pointers are not zero-like) |
| Validation.AcceptedCreate | internal/hugo/mutations/frontmatter.go:66-75 | an accepted create carries no title, no draft, tags only beside an empty list, and no null |
| Validation.CreateMergesAsPatch | internal/hugo/mutations/pages.go:107-114 | on Create the merge is always a Merge Patch |
| Render.RenderPage | internal/hugo/frontmatter/frontmatter.go:64-81 | the bytes of a page file |
| Render.SplitExactly | internal/hugo/frontmatter/frontmatter.go:12-27 | a file is split at its first two rows of dashes if it begins with one and has another; any other file is all content |
| Render.RenderThenSplit | internal/hugo/frontmatter/frontmatter.go:12-26 | the parser is handed a newline and the YAML, for every content, if and only if the YAML has no three dashes; the content comes back trimmed |
| Render.CutAtDashes | internal/hugo/frontmatter/frontmatter.go:20-25 | otherwise the YAML is cut at its first dashes |
| Render.SecondRoundChangesNothing | internal/hugo/frontmatter/frontmatter.go:12-81 | rendering and splitting again changes nothing |
| Paths.PlainPathKept | internal/security/pathguard/pathguard.go:44-63 | the guard neither rejects nor changes a plain relative path, and its chain is its segments |
| Paths.PlainWithinRoot | internal/security/pathguard/pathguard.go:65-75 | a plain path below a clean absolute root stays within it |
| Paths.WithinExactly | internal/security/pathguard/pathguard.go:65-75 | an absolute path is within another one if and only if, cleaned, it begins with all its segments |
| Paths.GoesUp | internal/security/pathguard/pathguard.go:58-75 | a ".." takes back the segment before it; with none it vanishes at the root and stays elsewhere |
| Naming.RouteSurvives | internal/hugo/mutations/pages.go:303-355 | a clean route survives the mutation's normalizing, its slash, and the reader's normalizing |
| Addressing.SecondNaming | internal/hugo/mutations/pages.go:303-355 | for every accepted route that is not the root page's, the second normalization keeps the name if and only if it is trimmed and none of "", "index", "_index" |
| Addressing.RenamedDir | internal/hugo/mutations/pages.go:303-355 | what the second normalization makes of any name: the root page's name, where the name's own directory chain leads, or an error |
| Places.ReadPlaceIs | internal/security/pathguard/pathguard.go:77-101 | a look-up comes to the directory trimmed on its left only, and cleaned, or to nothing |
| Places.WritePlaceIs | internal/security/pathguard/openat.go:115-127 | a write comes to the directory trimmed on both sides, and cleaned, or fails |
| Places.StemsAgree | internal/security/pathguard/pathguard.go:44-63 | the two are one directory if and only if its name does not end in white space |
| Addressing.PrintedIsWritten | internal/hugo/mutations/pages.go:115-122 | the path Create prints is the file it writes, if and only if the name has no white space at its edges |
| Addressing.ReaderFindsCreated | internal/hugo/pages/pages.go:310-335 | the reader comes to the file Create writes for the same arguments, if and only if a language is given, the name is not "_index" and does not end in white space |
| Addressing.MutationFindsCreated | internal/hugo/mutations/pages.go:303-355 | the look-up of a mutation comes to the file Create writes for the same arguments, if and only if a language is given, the second name is not the root page's, and it does not start with white space |
| Addressing.MutationTouchesCreated | internal/hugo/mutations/pages.go:245-252 | what the mutation then writes or removes is that file, if and only if moreover that name does not end in white space |
| Addressing.ReadsWhatItTouches | internal/hugo/mutations/pages.go:128-256 | a mutation writes or removes the file it has read, if and only if the reader's name for the page does not end in white space |
| OddNames.PrintedElsewhere | internal/hugo/mutations/pages.go:115-122 | for any trimmed clean name `a`, a create of "a /" writes under "a", prints "a /", and is not found by the reader |
| OddNames.OtherPageTouched | internal/hugo/mutations/pages.go:142-182 | a mutation of "a / /." reads the page in "a ", and opens and changes the one in "a" |
| OddNames.OtherPageOpened | internal/security/pathguard/openat.go:55-74 | one of "./ ./ ./ a" reads and changes the page in " a", and opens the one in "a" |
| Naming.NamingRoundTrip | internal/hugo/mutations/pages.go:343-355 | the path Create prints is the one the reader selects; language, directory and chain are read back from it; it lies within the root |
| Naming.RouteReadBack | internal/hugo/pages/pages.go:427-440 | the listing shows the route itself, if and only if it does not both start with `_index.` and end in a dot |
| Naming.RootRoundTrip | internal/hugo/pages/pages.go:310-323 | the same for the root page |
| Naming.RootReadBack | internal/hugo/pages/pages.go:427-440 | every file in the root directory itself is read back as the root page |
| Store.PageStore.WriteAtomic | internal/hugo/mutations/pages.go:266-275 | the size limit, then the directory chain, then one replacement of the file it leads to or none |
| Store.WriteAtomicAt | internal/hugo/mutations/pages.go:266-301 | the write over the steps of the directory succeeds exactly if the page is within the limit and the one-step replacement succeeds, broken when a step fails or no name is free; it has then the same effect, and a failure leaves every page as it was |
| Store.PageStore.CreatePage | internal/hugo/mutations/pages.go:72-126 | each error in its order with nothing changed, or the new file where the printed path's directory chain leads |
| Store.PageStore.UpdatePage | internal/hugo/mutations/pages.go:128-189 | each error in its order with nothing changed, failing file operations included, or the merged page in the place the path is written to |
| Store.PageStore.DeletePage | internal/hugo/mutations/pages.go:191-256 | each error with nothing changed, or the file the path is removed at is gone, and the backup has the bytes of the one it is opened at |
| StoreOutcomes.CreateWriteExactly | internal/hugo/mutations/pages.go:72-115 | a create is refused for a blank route, title or content, a bad route or language, frontmatter that is no object or that is refused, in this order; otherwise it comes to writing the page |
| StoreOutcomes.CreateExactly | internal/hugo/mutations/pages.go:72-126 | an accepted create succeeds if and only if the page is not too large, its path can be written to, no step fails and there is no file; the first obstacle is the failure |
| StoreOutcomes.DateMayBeGiven | internal/hugo/mutations/frontmatter.go:76-79 | a create may give a date |
| StoreOutcomes.GetExactly | internal/hugo/pages/pages.go:213-245 | what a reader gets: a bad route or language, no page, a page too large, or the page its path comes to |
| StoreOutcomes.LookupExactly | internal/hugo/mutations/pages.go:134-150 | which failure a look-up gives: blank route, bad route the first or the second time, bad language, no page, a page too large; otherwise the page |
| StoreOutcomes.UpdateExactly | internal/hugo/mutations/pages.go:128-189 | an update of a page found: refused frontmatter, a file that cannot be opened, a page too large, a path that cannot be written to, a failing step, or the page replaced |
| StoreOutcomes.DeleteExactly | internal/hugo/mutations/pages.go:191-256 | a delete of a page found: a file that cannot be opened, a failing step, a path that leads nowhere or to no file, or the file gone |
| Reading.MergedThenRead | internal/hugo/mutations/frontmatter.go:133-150 | it makes no difference whether values are merged before or after they are written and read |
| Reading.NodeAsRead | internal/hugo/pages/pages.go:483-496 | reading keeps every value at its place, and puts the strings of a list of strings one step below it |
| StoreTheorems.ReadBack | internal/hugo/frontmatter/frontmatter.go:12-81 | a page written with faithful YAML reads back with its fields as the decoder makes them, lists of strings being general lists, and its content trimmed |
| StoreTheorems.DepthKeptIff | internal/hugo/mutations/frontmatter.go:99-131 | accepted fields are within the depth when read back, if and only if no list of strings stands at the last level |
| StoreTheorems.DashesLoseTheDate | internal/hugo/frontmatter/frontmatter.go:20-25 | a concrete create request, accepted, whose page has lost title, date and lastmod when read |
| StoreTheorems.CreatedFields | internal/hugo/mutations/pages.go:96-114 | a new page has its title, a date and a lastmod, the dedicated tags and draft, and every field given |
| StoreTheorems.UpdatedFields | internal/hugo/mutations/pages.go:153-171 | date as before; title, tags and draft as given or as before; lastmod given or now; unmentioned keys as before |
| StoreCalls.UpdateThenRead | internal/hugo/mutations/pages.go:128-189 | the page read back after a successful update: title, tags, draft and content as given or as in the page found, tags as a general list, the date as in the page found; other files untouched; and the page found is the one changed if and only if the name is settled |
| StoreCalls.UpdateTwice | internal/hugo/mutations/pages_test.go:284-312 | the same update again goes by the same path, and the page reads the same if and only if the name is not settled or no object with a null landed on a non-object |
| StoreRuns.DateNeverChanges | internal/hugo/mutations/frontmatter.go:76-79 | over every run, a page keeps its date as long as it exists, if the writes to it read back and updates of it go by settled names |
| StoreRuns.CallEffect | internal/hugo/mutations/pages.go:72-256 | a call changes at most one file: it puts down the page it drafted, or removes a file that was there |
| StoreRuns.BornDated | internal/hugo/mutations/pages.go:96-106 | a page that appears in a run has been created, with a date and a title |
| StoreRuns.NothingOddIntroduced | internal/hugo/mutations/frontmatter.go:52-131 | no run introduces a forbidden key, a value deeper than three, or a value of another type into a page: such values stood at the same place when the run began |
| StoreCalls.CreateThenGet | internal/hugo/mutations/pages.go:115-126 | Get with the arguments of a successful Create comes to the page it wrote, with what was written, if and only if a language is given, the name is not "_index" and does not end in white space |
| StoreCalls.CreateThenDelete | internal/hugo/mutations/pages.go:191-256 | Delete with the arguments of a successful Create restores the files exactly, if and only if a language is given and the name of the second normalization is trimmed and not the root page's |
| StoreCalls.CreateThenLookup | internal/hugo/mutations/pages.go:128-150 | the look-up of Update and Delete comes to that page, if and only if a language is given and that name is not the root page's and does not start with white space |
| StoreCalls.CreateThenUpdate | internal/hugo/mutations/pages.go:128-182 | a successful Update with these arguments changes that page, if and only if Delete would take it back |
| StoreCalls.DefaultLanguageDeletesOther | internal/hugo/mutations/pages.go:320-341 | without a language, Delete with the arguments of a Create removes the page without a language if there is one, for every route whose French page Delete would take back |
| StoreCalls.DotSlashIndexDeletesRoot | internal/hugo/mutations/pages.go:350-355 | deleting "./index" removes the root page |
| StoreCalls.CreatedElsewhere | internal/hugo/mutations/pages.go:115-126 | after a successful Create of "a /" the page is in "a", and Get with the same arguments finds nothing |
| StoreCalls.OtherPageDeleted | internal/hugo/mutations/pages.go:191-252 | Delete of "a / /." finds the page in "a " and removes the one in "a" |
| StoreCalls.OtherPageCopied | internal/hugo/mutations/pages.go:216-252 | Delete of "./ ./ ./ a" removes the page in " a", and the file it opens for its backup is the one in "a" |
| StoreCalls.DateMoves | internal/hugo/mutations/pages.go:128-182 | an Update of "a / /." gives the page in "a" the date of the one in "a " |
| FileSteps.Directory.CreateTempFile | internal/security/pathguard/openat.go:76-96 | a new empty file under the first of at most 256 names that is free, or nothing changed |
| FileSteps.Directory.RenameInDir | internal/security/pathguard/openat.go:98-106 | the rename is atomic and, without replacing, fails on an existing target |
| FileSteps.Directory.WriteBytesAt | internal/hugo/mutations/pages.go:277-301 | it succeeds exactly if a name is free, no step fails and the target may be written; whatever fails, the target holds its old bytes or exactly the new ones, and at most one temporary file is left |
| FileSteps.DeletePage | internal/hugo/mutations/pages.go:216-256 | it succeeds exactly if both files are there, a name is free and no step fails; on error the page is intact, on success the work root holds an exact copy of the file opened |
| FileSteps.TempsUnlisted | internal/hugo/pages/pages.go:347-370 | no temporary file is listed as a page |
| FileSteps.AloneWrites | internal/hugo/mutations/pages.go:277-301 | a writer nobody interferes with: the page alone changes if the rename goes through, and otherwise nothing, unless cleaning up fails too |
| FileSteps.PagesNeverTorn | internal/hugo/mutations/pages.go:277-301 | at every point of every interleaving of writes a page holds the whole of the last write renamed onto it, or its old bytes |
| FileSteps.AtMostOneCreate | internal/security/pathguard/openat.go:98-106 | among interleaved creates at most one succeeds per path, none on an existing path, and the file holds its bytes |
| Versions.CompareVersions | internal/sri/service.go:709-732 | the loop over the parts computes the comparison of the two part sequences padded with zeros |
| Versions.CompareMeaning | internal/sri/service.go:709-732 | its three results mean below, same and above, whatever the number of parts |
| Versions.TotalPreorder | internal/sri/service.go:709-732 | antisymmetric in sign and transitive across different part counts |
| Versions.TrailingZeros | internal/sri/service.go:716-730 | trailing zero parts make no difference |
| Versions.AgreesWithSemVer | internal/sri/service.go:709-748 | on plain X.Y.Z it is the precedence of section 11 of Semantic Versioning 2.0.0 |
| Versions.MajorExactly | internal/sri/service.go:694-707 | the major part is what stands before the first dot of the trimmed version, or all of it if nothing does |
| Versions.SameMajorExactly | internal/sri/service.go:694-696 | two dotted versions have one major version if and only if they begin with the same text |
| SriScan.QuietScan | internal/sri/service.go:379-474 | a scan without warnings walked every existing root to its end and fully scanned every text file in it |
| SriNotes.NotedExactly | internal/sri/service.go:379-474 | the warnings of a scan are exactly: each bad root, each walk broken off, the file limit reached, each nameless, unreadable or too large file opened, each reference to a host that is not configured, each reference whose version is not the first one of its package |
| SriNotes.RetainedExactly | internal/sri/service.go:444-465 | a package is retained if and only if it is referenced on a configured host, and then as last referenced at its first version |
| SriNotes.ReadExactly | internal/sri/service.go:411-458 | the references read are those of the text files opened, within the limit, each name once, that are readable and small enough |
| SriNotes.HostMeaning | internal/sri/service.go:444-447 | a host is allowed if and only if it is a configured one, but for letter case and white space at the edges |
| SriQuiet.QuietExactly | internal/sri/service.go:379-474 | a scan has no warnings if and only if each root is skipped, or there and walked to its end within the limit, text files opened are readable and small enough, references name configured hosts, and no package has two versions |
| SriQuiet.MissingSkipped | internal/sri/service.go:398-401 | a root that is missing or has no name makes no difference |
| SriScan.RetainedSound | internal/sri/service.go:444-465 | every retained reference is under its own package, with an allowed host and an https url |
| SriEvaluate.StandingByOrder | internal/sri/service.go:223-253 | an active entry is in exactly one of failed, current, candidate and major outdated, decided by the version order |
| SriEvaluate.StandingExactly | internal/sri/service.go:223-253 | which entries are passed over, which look-ups fail, which entries are a major version behind |
| SriEvaluate.VersionFoldLists | internal/sri/service.go:221-255 | what the version pass adds to the lists: the packages a major version behind and a note for each failed look-up |
| SriEvaluate.VersionStepOnce | internal/sri/service.go:223-253 | an entry adds one note, one package or one candidate, or nothing |
| SriEvaluate.VersionFoldMeaning | internal/sri/service.go:221-255 | what the version pass reports, for any iteration order |
| SriEvaluate.CandidatesExact | internal/sri/service.go:243-251 | the candidates are exactly the fixable entries, for any iteration order |
| SriEvaluate.CandidateGoesUp | internal/sri/service.go:240-251 | a candidate's old version is strictly below its new one, in the same major version |
| SriEvaluate.SriFoldMeaning | internal/sri/service.go:257-281 | the hash pass reports nothing exactly if every https entry is reachable and its digest live |
| SriEvaluate.SriFoldLists | internal/sri/service.go:257-281 | what the hash pass adds: the https urls whose digest is stale, and a note for each that names no host, a blocked one, or cannot be fetched |
| SriEvaluate.SriStepOnce | internal/sri/service.go:258-280 | an entry adds its url or one note, or nothing |
| SriEvaluate.MissingFoldLists | internal/sri/service.go:283-288 | and a note for each retained url without an entry |
| SriEvaluate.MissingFoldMeaning | internal/sri/service.go:283-288 | and a missing entry exactly if a retained url has none |
| SriAudit.RunState.ScanAll | internal/sri/service.go:379-474 | the nested loops over roots, files and references compute the scan of the roots before a cancellation, with a note if there was one |
| SriAudit.RunState.EvaluateVersions | internal/sri/service.go:221-255 | the loop over the map, in any order and meeting each entry once, computes the version pass |
| SriAudit.RunState.EvaluateSri | internal/sri/service.go:257-289 | the two loops over maps, in any order and meeting each entry once, compute the hash pass |
| SriAudit.ApplyAutoFix | internal/sri/service.go:605-681 | what is on disk after each possible failure, that success needs every step, and that the renames are one walk over candidates and urls; the note names the first step that fails |
| SriAudit.AllOrNothing | internal/sri/service.go:652-670 | the result is (old, old, false) or (new, new, true) if and only if no restoring write fails after a failed step |
| SriAudit.LeftBehind | internal/sri/service.go:652-670 | a data file is the new one if and only if the fix succeeded, or had written it, failed later and could not put it back |
| SriCdn.CdnRewritten | internal/sri/service.go:631-632 | a candidate turns every "pkg@old/" of the CDN file into "pkg@new/", then every "# pkg@old" into "# pkg@new", and changes nothing else |
| SriCdn.RewrittenInTurn | internal/sri/service.go:626-632 | the candidates do so one after another |
| SriFix.MovesClosed | internal/sri/service.go:639-649 | the hash map after the renames, key by key |
| SriFix.OrderIrrelevant | internal/sri/service.go:626-651 | when no rename arrives where another starts, every iteration order ends in the same map |
| SriFix.OrdersAgreeIff | internal/sri/service.go:626-651 | all orders of walking candidates and urls end in the same map, if and only if no rename arrives where another starts |
| SriFix.TangledOrderMatters | internal/sri/service.go:626-651 | after any other moves, swapping two of which one arrives where the other starts gives another map |
| SriOrders.BothFixable | internal/sri/service.go:243-251 | x from 1.0.0 to 1.1.0 and y from 1.1.0 to 1.2.0 are candidates of one evaluation |
| SriOrders.RealOrdersDiffer | internal/sri/service.go:626-651 | with one url naming both packages at 1.0.0 and at 1.1.0, the result of that fix depends on the order |
| SriNames.ScanUrlNamed | internal/sri/service.go:376-377 | the url of a scanned reference names its package, scoped or not, and its version |
| SriNames.MatchesExactly | internal/sri/service.go:635 | a candidate matches such a url if and only if it names the old version, of the candidate's package or of a scoped one whose last segment that is |
| SriNames.RenamedText | internal/sri/service.go:640 | the rename changes the version the url names and nothing else |
| SriRename.OwnOnlyIff | internal/sri/service.go:633-638 | entries are renamed by candidates of their own package only, if and only if no candidate is the last segment of another package in use at its old version |
| SriRename.ClearUntangled | internal/sri/service.go:626-651 | then no rename arrives where another starts, and no new key is matched again |
| SriRename.RightIff | internal/sri/service.go:626-651 | renames keep to their own package and no old key is left, if and only if no candidate is the last segment of another package before or after its rename |
| SriRename.TailRenamed | internal/sri/service.go:635-640 | a candidate for core at 2.0.0 renames an entry of @popperjs/core |
| SriRename.FixedHashes | internal/sri/service.go:626-651 | under that condition no key is left at a candidate's old version, each entry a candidate is for has moved to its new url with the digest of what is served there, and the rest is untouched |
| SriAudit.EvaluatedFit | internal/sri/service.go:243-250 | the candidates of one evaluation, their names being proper, have one target per package and always another version |
| SriAudit.Diagnose | internal/sri/service.go:117-137 | a pass reports nothing if and only if the site is healthy; its lists hold exactly the stale urls, the packages a major version behind, and the notes of the scan, the data files, the look-ups, the urls and the missing entries |
| SriAudit.Finalize | internal/sri/service.go:326-351 | the lists are reported as they are, and the verdict is OK if and only if they are empty |
| SriAudit.Check | internal/sri/service.go:86-198 | an error if and only if cancelled before the call, or, the auditor being enabled, during it; OK without an attempted fix if and only if the site is healthy; with one, if and only if the fix succeeded, nothing else was reported before, and the site is healthy afterwards; and with unambiguous names a successful fix leaves a rightly fixed hash file; the report has the lists of the first pass, or after an attempted fix the stale urls and packages of the second, with the notes of both and the failure of the fix |
| SriAudit.OneVersionPerPackage | internal/sri/service.go:444-458 | two references of scanned files to one package have one version and an allowed host |
| SriAudit.OkIsSound | internal/sri/service.go:117-197 | healthy means: existing roots fully scanned, each retained reference stores the live digest, no active package unknown or a major version behind |
| SriCoverage.OkCoversAllIff | internal/sri/service.go:451-465 | of a site that can be healthy: OK, whatever the hash file, covers every reference in a text file, if and only if the scan keeps each referenced url |
| SriCoverage.OneUrlCovered | internal/sri/service.go:451-465 | it keeps each when every package is referenced by one url |
| SriCoverage.FirstUnseen | internal/sri/service.go:451-465 | a healthy site whose first reference, to another file of the same package and version, has no hash |

## Left out

- HTTP plumbing, bearer checks, logging, the tool registry, hooks, the site build and image handling are not modelled.
- Time: backoff delays, timeouts and deadlines are steps that may come at any moment.
- BridgeTheorems.IdsComeBack: is about the canonical text of ids; a number or string the JSON encoder would print differently is not modelled.
- BridgeTheorems.Admission: takes the handler count from `serveHTTP` after its checks on method, content type and token.
- The shim's error texts, the `cancel` function and the `reason` field, and `rewriteUnsupportedMethod`, are not modelled.
- A waiting spawner may be woken at any time by the model, which allows more than the condition variable does.
- The synthetic id counter and Go's integers do not wrap; an offset plus a limit is assumed to fit.
- YAML, JSON and the CDN pattern: marshalling and parsing are arbitrary functions, and a scanned file is its references. A list of strings reads back as a general list.
- StoreRuns.DateNeverChanges: asks that what is written to the page reads back from its YAML, which is false of values with three dashes, and that updates of it go by settled names; StoreTheorems.DashesLoseTheDate and StoreCalls.DateMoves show both to be needed.
- StoreRuns.NothingOddIntroduced: asks the same of the writes to the page, and that no list of strings stands at the last level of what is given, as is always so of decoded JSON, which has general lists only.
- Frontmatter given as a JSON string enters the model already decoded; of several conflicting keys the code names one, by map order, and the model names the set.
- In Store a failing file operation is one of two flags, opening the old page or putting down the new state; the single steps, and a failing cleanup of a temporary file, are in FileSteps and Store.WriteAtomicAt.
- Concurrent Update calls may lose updates; only single file writes are interleaved.
- The listing's filters by section, language, type and size, and its count of skipped files: a listing starts from the entries collected.
- The walk that opens and creates the directories of a chain; only the chain's names are modelled.
- Symbolic links, permissions, and directories where files are expected are not modelled; paths are lexical.
- SHA-256, the registry and the network are arbitrary functions that may fail, fixed during one pass; a failing `os.WriteFile` leaves its file unchanged.
- SriCdn.CdnRewritten: is about the text of the CDN file; what the YAML parser makes of it is an arbitrary function.
- The auditor's messages: the model keeps the url, package, host, file or step a message is about, not its wording or the versions in it.
- SriRename.RightIff: speaks of hash files whose urls name one package and version, scoped or not, or none: an `@` elsewhere in the directories of a url, or an old version spelled like the package's own scope, is left to SriFix.OrdersAgreeIff, which holds of any url.
- SriAudit.OkIsSound: speaks of the reference retained per package; SriCoverage has the condition under which that is every reference.
- Lower case is ASCII in host names, and a string is a sequence of characters whose length in bytes is a function of the codec.
- Strings are compared by code point in listings, which is Go's byte order on valid UTF-8.
