# Emisar bridge and runner: verified models

This project models the parts of the Emisar MCP bridge and runner whose correctness is hard to see
from any single function, and proves what they are for.

- **rotation/** — API-key rotation. Many bridge processes share one credential file
  `{current, pending}`. `Bridges` keeps the methods of `mcp/rotate.go` statement by statement and
  proves each equal to a transition function of `CredentialState`; `RotationProtocol` puts any number
  of processes, requests, one disk and one portal into a state machine; `RotationSafety` proves what
  every run keeps, `RotationProgress` what an undisturbed request achieves, `RotationSteps` what each
  locked section does to the file. A locked section is one step. `persist` completes, fails before its rename, or fails after it; a power loss kills every
  process and leaves any version written since the last directory sync. Requests and replies may be
  lost, late or repeated. The portal registers a successor only from an authenticated request that
  carries its hash, ignores hashes of keys it has seen, acknowledges only what it registered, and
  retires a key only on the first accepted use of its successor; nothing in it prevents two
  successors of one key. A stamp after a rename may be any value, so no safety claim rests on stamps;
  the progress claim assumes that a matching stamp is accurate.
- **scheduler/** — `serve` of `mcp/main.go`: bounded concurrency, id correlation, cancellation races
  and buffered channels, as a state machine over the scheduling goroutine, its workers and its
  cancellation forwards. `ServeStates.ServeState` holds the fields and methods of `serveState`;
  `SchedulerForwards` says which cancellations are forwarded and how every frame is answered,
  `SchedulerProgress` that serve can always end once its input has.
- **json/** — the strict parser of `mcp/protocol.go` as an object with a position, proved to accept
  exactly the documents of a grammar written down as trees (sections 2 to 7 of RFC 8259, UTF-8 of
  RFC 3629, unique keys after escape decoding, depth at most 64); and `writeFrame`, proved to put a
  frame on one line that every reader reads as the same value.
- **diff/** — `runner/textdiff.go`: the table in an array of 32-bit integers, the walk, the trimming,
  the hunks. The script is minimal against all scripts, and the first of the minimal ones; the printed
  text is read by an independent reader of unified diffs and applied.
- **jsonedit/** — `mcp/jsonedit.go`: scanners, find, insert and remove over JSON with comments. Documents
  are trees that keep every byte. The scanners read an object exactly when every scalar in it is
  followed by blanks and a separator or the end; where they read the path, an insert is an edit of the
  tree, and so is a removal unless it opens a comment that takes in a closing brace or ends inside a
  piece; for both it is stated exactly when what they promise holds, and removing a new name restores
  the text.
- **attest/** — `mcp/internal/attest/attest.go`: the scope URI as a bijection with one spelling, and
  the claim bytes as a strict JSON object that holds each fact under its name, an injective encoding
  of exactly the bound facts.
- **pack/** — `replacePackTreeWithRename` of `runner/pack.go` over sequences of runs, each of which may
  fail or stop at every rename, copy and removal.
- **bridge/** — three smaller pieces: the bounded frame reader, the operation id, and the paging of
  runbook outputs against a server that answers anything.
- **common/** — `Option`, `Result`, and texts at positions of byte strings.

Where a loop or a method of the source changes state, the model is a method with a loop or a class
method, proved against a function; the laws are lemmas about that function.

Four laws are false of the code without a condition, and the model states the conditions:

- `skipJSONValue` runs on over a comment behind a scalar, to the next `,`, `}` or `]`, which may stand in
  the comment. A scalar is read to its end if and only if only blanks stand between it and its separator
  (`JsoncReads.ScalarReadIffItEnds`), and every name of an object with distinct keys is found right if and
  only if that holds of all its scalars (`JsoncReads.EveryNameIsFoundIffScalarsEnd`). So a scalar that is
  inserted in front of a comment is not found again (`JsoncTheorems.ScalarInFrontOfCommentIsMisread`);
  `JsoncTheorems.InsertThenFind` gives the exact condition.
- `insertJSONMember` writes the first new name as it is, but the names of the containers it creates below, and
  of the member in them, go through `json.Encoder`, while `findJSONMember` looks for the name as it is. So a
  name the encoder changes is not found again (`JsoncTheorems.EscapedNameIsNotFound`); the exact condition is
  part of `JsoncTheorems.InsertThenFind`.
- `removeJSONMember` takes the line break in front of a member away even if it ends a comment, which then
  takes in what follows up to the next line break, members and closing braces included
  (`JsoncRemovalExamples.NoteAboveMemberTakesTheBrace`), and the comma in front of a last member even if a
  comment follows, which leaves the scalar before it open
  (`JsoncRemovalExamples.CommaInFrontOfCommentIsTaken`). The name is gone, and every other member of the object
  still found, if and only if no member and no brace is taken in and no scalar is left open
  (`JsoncRemovalTheorems.RemoveThenFind`); once a brace is taken in, the root object is never closed and nothing
  is found in the whole document (`JsoncRemovalTheorems.BraceIsLost`).
- Claim bytes bind a text against every other text if and only if it is UTF-8
  (`ClaimBinding.OnlyUtf8IsBound`); of every claim they bind the facts as they are marshalled
  (`ClaimBinding.ClaimBytesBindMarshalledFacts`).

## Model

| member | source | states |
|---|---|---|
| RotationSafety.NoLostCredential | mcp/rotate.go:500-730 | in every reachable state one key the portal accepts is current or pending in the visible file and in every version a power loss could leave |
| RotationSafety.OfferedSecretsStay | mcp/rotate.go:632-691 | the secret of every hash ever offered is pending in every version that could survive, until it was promoted to current |
| RotationSafety.RegistrationsFormOneChain | mcp/rotate.go:632-691 | all registrations, by any process and request, form one chain: no key ever gets two successors |
| RotationSafety.OffersAtMostOneLinkAhead | mcp/main.go:1321-1333 | a request authenticated with link i never offers anything beyond link i+1 |
| RotationSafety.OneSuccessorAtATime | mcp/rotate.go:632-691 | at any time all hashes offered and not yet registered are the same one |
| RotationSafety.ActionKeepsInv | mcp/main.go:1284-1453 | every step of every process, of the portal and of the disk, crashes and power loss included, keeps the invariant the claims rest on |
| RotationSafety.RunKeepsInv | mcp/main.go:1284-1453 | the invariant holds at every point of every run |
| RotationSafety.ProposeOk | mcp/rotate.go:632-691 | a proposal step keeps the cache within the chain, and what it offers is stored durably first |
| RotationSafety.RecoverOk | mcp/rotate.go:545-591 | recovery hands out only a key of the visible file and keeps the cache sound |
| RotationSafety.AdoptOk | mcp/rotate.go:596-630 | adopting a key the portal accepted only moves the disk forward along the chain |
| RotationSafety.AcknowledgeOk | mcp/rotate.go:693-730 | promoting an acknowledged successor only moves the disk forward along the chain |
| RotationSafety.RefreshOk | mcp/rotate.go:500-540 | adopting what a peer wrote keeps the cache no further than the file |
| RotationSafety.PowerLossKeepsInv | mcp/rotate.go:227-285 | whichever surviving version a power loss leaves, the invariant holds again |
| RotationSafety.ExtensionKeepsChain | mcp/rotate.go:494-499 | a registration extends the chain by one link at its end |
| RotationProgress.UndisturbedRequestIsAccepted | mcp/main.go:1284-1453 | from every reachable state an undisturbed request of a writable process is accepted at once or on its one retry, after which the retried key is durable and current |
| RotationProgress.UndisturbedRequestRotates | mcp/main.go:1284-1453 | from every reachable state an undisturbed request of a writable process offers the successor the file holds as pending; once the portal registers and acknowledges it, or the one retry goes out under it, it is the current key of the file and of the only version a power loss can leave |
| RotationProgress.RefusedRequestIsRetried | mcp/main.go:1371-1396 | after a 401, also when a peer's first use retired the current key, the retry key is live and its adoption completes |
| RotationProgress.ReadOnlyRetry | mcp/rotate.go:552-564 | a read-only process's one retry is accepted if and only if the visible current key is live or is the refused key |
| RotationSteps.ProposalOffers | mcp/rotate.go:632-691 | a proposal offers the pending key of the file, or makes the minted key durable beside the current one and offers that; it offers nothing exactly when the section fails or a peer has moved the current key and left no pending one |
| RotationSteps.ProposalRepeats | mcp/rotate.go:637-652 | while the file has not moved the same successor is offered without a lock; a read-only process offers none |
| RotationSteps.AdoptionPromotes | mcp/rotate.go:596-630 | a key becomes current alone, durably, if and only if the file holds it as current alone or as pending and the write completes; any other file stays as it is |
| RotationSteps.AcknowledgementPromotes | mcp/rotate.go:693-730 | so does an acknowledged successor, and any other acknowledgement is ignored |
| RotationSteps.RefreshTakesOver | mcp/rotate.go:500-540 | the keys of the file are taken over if and only if it can be locked, read and, where it is new to the process, written again; else the process keeps its own |
| RotationSteps.RecoveryTakesOver | mcp/rotate.go:545-591 | so is the file by a recovery, which retries with the visible current key, or with its successor when that key is the one refused |
| RotationSteps.SteadyStateNeedsNoLock | mcp/rotate.go:479-505 | after a section that succeeded, and while the file stays, refreshing and proposing need no lock, no read and no write |
| RotationSteps.NewSuccessorIsReoffered | mcp/rotate.go:632-691 | a successor that was made is offered again by the next proposal |
| Bridges.CredentialStore.Store | mcp/rotate.go:227-285 | the three outcomes of a persist, with the versions that may survive each |
| Bridges.CredentialStore.Read | mcp/rotate.go:186-212 | an absent file reads as the fallback key; an invalid record is refused |
| Bridges.Bridge.RefreshCredentialState | mcp/rotate.go:500-540 | computes the refresh transition on cache and disk |
| Bridges.Bridge.CredentialRecoveryKey | mcp/rotate.go:545-591 | computes the recovery transition and the key to retry with |
| Bridges.Bridge.AdoptRecoveryKey | mcp/rotate.go:596-630 | computes the adoption transition |
| Bridges.Bridge.RotationProposal | mcp/rotate.go:632-691 | computes the proposal transition and the successor offered |
| Bridges.Bridge.AcknowledgeRotation | mcp/rotate.go:693-730 | computes the promotion transition |
| Bridges.Bridge.InitializeCredentialState | mcp/rotate.go:459-476 | degrades to read-only only when the write denial came before anything was written |
| ServeStates.ServeState.CompleteRequest | mcp/main.go:765-775 | removes a request and, if it still holds it, its id |
| ServeStates.ServeState.HandleCancellation | mcp/main.go:868-907 | marks the request named, unless it is an initialize, and forwards at most once and within the bound |
| ServeStates.ServeState.HandleFrame | mcp/main.go:796-866 | the new scheduling state and what handling the frame asks for, on every branch |
| SchedulerSafety.ConcurrencyIsBounded | mcp/main.go:674-687 | in every reachable state requests and cancellation forwards are each at most eight, and equal running goroutines plus buffered results |
| SchedulerSafety.SendsNeverBlock | mcp/main.go:832-864 | no worker or cancellation forward ever waits for room in its channel, also after serve has returned early |
| SchedulerSafety.IdsAreUnique | mcp/main.go:811-848 | no two requests in flight share an id, and requestTokens leads from it to the request |
| SchedulerSafety.RequestTokensInvertInflight | mcp/main.go:765-848 | in every reachable state requestTokens is the exact inverse of inflight: it leads from the id of each request in flight to that request, and from nothing else to anything |
| SchedulerSafety.ForwardedIsPossible | mcp/main.go:1463-1571 | whatever the control plane answers, what is passed on as a response carries the id of the request; it is passed on exactly when status, media type, envelope and id are right |
| SchedulerSafety.OneOutcomePerRequest | mcp/main.go:673-727 | over every interleaving a request has exactly one answer, carrying its own id, once it left flight, and none if and only if it was cancelled in flight |
| SchedulerSafety.EveryFrameIsSettled | mcp/main.go:796-866 | every frame read, malformed and refused ones included, has exactly one answer with its own id; only frames nobody waits for, requests in flight and cancelled ones have none |
| SchedulerSafety.NilMeansDrained | mcp/main.go:687-727 | serve returns nil only once its input has ended, with every goroutine finished, every channel empty and every request answered or cancelled |
| SchedulerSafety.ActionKeepsInv | mcp/main.go:673-727 | every frame, completion, delivery and cancellation keeps the scheduling invariant |
| SchedulerSafety.CancellationKeepsInv | mcp/main.go:868-907 | a cancellation turns exactly the named request silent and nothing else |
| SchedulerForwards.CancellationIsForwarded | mcp/main.go:868-907 | in every reachable state a cancellation of a request in flight that is no initialize cancels it, and starts a forward with its token if and only if none was started for it and fewer than eight are on their way |
| SchedulerForwards.NothingElseIsForwarded | mcp/main.go:796-907 | no other frame cancels or forwards anything |
| SchedulerForwards.ForwardedUnlessEightRun | mcp/main.go:868-907 | over every run each request's cancellation is forwarded at most once, and not at all if and only if every cancellation of it met eight forwards |
| SchedulerForwards.FrameIsHandled | mcp/main.go:796-866 | which frames start a request, under which token, and which are answered with which error code |
| SchedulerForwards.ResultIsDelivered | mcp/main.go:702-719 | a received result ends its request and writes the response, the transport error, or nothing when it was cancelled or is a notification |
| SchedulerProgress.ServeCanReturn | mcp/main.go:687-727 | once the last frame is read serve can return nil from every reachable state within 33 steps |
| SchedulerProgress.LastFrameEndsInput | mcp/main.go:696-700 | a frame read with the end of the input ends the reading |
| SchedulerSafety.TakeKeepsInv | mcp/main.go:702-719 | delivering a result settles exactly the frame it answers |
| StrictJsonProofs.AcceptsExactlyStrictJson | mcp/protocol.go:126-381 | the parser accepts exactly the byte strings that are one strict JSON document |
| StrictJsonProofs.AcceptedIsStrictJson | mcp/protocol.go:126-148 | soundness: what is accepted is the text of a well-formed tree |
| StrictJsonProofs.StrictJsonIsAccepted | mcp/protocol.go:126-148 | completeness: the text of every well-formed tree is accepted |
| StrictJsonProofs.ValueSound | mcp/protocol.go:150-176 | a value that was consumed is the text of a well-formed value at its depth |
| StrictJsonProofs.ValueComplete | mcp/protocol.go:150-176 | the text of every well-formed value is consumed to its end |
| StrictJsonProofs.MembersSound | mcp/protocol.go:178-212 | the members of an accepted object are well-formed and their decoded keys new and distinct |
| StrictJsonProofs.UnquoteText | mcp/protocol.go:235-261 | decoding a string literal yields the characters its escapes denote |
| StrictParser.ValidateStrictJson | mcp/protocol.go:126-148 | terminates on every input with the verdict of the recognizer |
| StrictParser.Parser.ParseValue | mcp/protocol.go:150-176 | succeeds exactly when a value ends somewhere, and stops there |
| StrictParser.Parser.ParseObject | mcp/protocol.go:178-212 | succeeds exactly when an object ends somewhere, keys counted after decoding |
| StrictParser.Parser.ParseArray | mcp/protocol.go:214-233 | succeeds exactly when an array ends somewhere |
| StrictParser.Parser.NextMember | mcp/protocol.go:186-211 | one round of the member loop: a new key, a value and either the end of the object or a comma with the next member behind it |
| StrictParser.Parser.ParseString | mcp/protocol.go:235-261 | finds the closing quote and decodes the literal |
| StrictParser.Parser.ParseEscape | mcp/protocol.go:263-301 | accepts an escape exactly when it is one, surrogates paired |
| StrictParser.Parser.ParseNumber | mcp/protocol.go:323-361 | accepts exactly the numbers of RFC 8259 |
| FrameWriter.WriteFrame | mcp/main.go:1204-1237 | the output is one line, its only newline at its end: line breaks at the end of the frame go, those inside become spaces, every other byte stays; an accepted frame keeps exactly its readings |
| FrameWriter.LineDenotesSame | mcp/main.go:1204-1237 | the line parses strictly to the same values as the frame |
| FrameWriter.DenotesOneValue | mcp/protocol.go:126-148 | a strict document has one value |
| LineDiff.DiffLines | runner/textdiff.go:54-76 | between the longest shared head and tail stands the first of all shortest scripts, so within the table bound the script makes the fewest edits of all, len(a)+len(b)-2*LCS; it turns a into b at any size, never inserts right in front of deleting, and has no edits if and only if a equals b |
| LineDiff.DiffMiddle | runner/textdiff.go:78-134 | within the bound the lexicographically first of all shortest scripts, keeping before deleting before inserting; past it every old line deleted and every new one inserted |
| LineDiff.FillTable | runner/textdiff.go:93-108 | the backward-filled 32-bit table equals the recursive LCS everywhere, without overflow |
| LineDiff.Walk | runner/textdiff.go:110-134 | the greedy walk over the table, ties for the deletion, computes the first of all shortest scripts |
| LineDiff.LcsTrims | runner/textdiff.go:55-76 | trimming a common prefix and suffix loses no optimality |
| LineDiff.CountEdits | runner/textdiff.go:137-147 | the counts are those of the script and balance the two sides |
| EditScripts.KeepsAtMostLcs | runner/textdiff.go:78-134 | no script keeps more lines than the longest common subsequence has |
| EditScripts.KeepingLcsIsMinimal | runner/textdiff.go:54-134 | a script that keeps that many lines has the fewest edits of all |
| EditScripts.FirstIsFirst | runner/textdiff.go:110-134 | no shortest script comes before the one made line by line, with kept lines first, then deleted, then inserted ones |
| EditScripts.FirstDeletesFirst | runner/textdiff.go:117-121 | a replaced line reads as deleted and then inserted: no insertion is directly followed by a deletion |
| UnifiedDiff.UnifiedDiff | runner/textdiff.go:151-204 | for every script and context, reading the text back and applying it to the old lines gives the new ones; each hunk shows a group of changes with that many unchanged lines on both sides, or all there are; the text is empty exactly when there is no edit |
| UnifiedDiff.GroupChanges | runner/textdiff.go:168-181 | groups start and end with a change, cover every change, stand more than two contexts apart, and hold no longer unchanged stretch than two contexts |
| UnifiedDiff.NumberLines | runner/textdiff.go:152-166 | the running line numbers of both sides |
| UnifiedDiff.HunkRange | runner/textdiff.go:209-218 | the range as the POSIX format prints it for counts 0, 1 and n |
| UnifiedDiff.HunksApply | runner/textdiff.go:183-203 | ordered, disjoint hunks applied from any cut on turn the rest of the old lines into the rest of the new |
| UnifiedDiff.PatchRoundTrip | runner/textdiff.go:151-204 | the printed hunks read back as themselves and apply |
| Patches.PatchReads | runner/textdiff.go:183-218 | reading what was printed returns the hunks, headers and all |
| UnifiedDiff.DiffFiles | runner/packdiff.go:296-305 | two files: the counts are those of the diff, whose hunks with three lines of context turn the old lines into the new; the text is empty exactly when only a trailing newline differs or nothing does |
| UnifiedDiff.SplitLinesKeepsText | runner/textdiff.go:46-51 | splitting loses nothing but one trailing newline |
| JsoncScan.SkipJSONSpace | mcp/jsonedit.go:31-51 | where whitespace and comments end |
| JsoncScan.JSONStringEnd | mcp/jsonedit.go:54-67 | where a string literal ends |
| JsoncScan.JSONCloseIndex | mcp/jsonedit.go:69-101 | the bracket that brings the depth to zero |
| JsoncScan.SkipJSONValue | mcp/jsonedit.go:103-128 | where a value ends |
| JsoncScan.FindJSONMember | mcp/jsonedit.go:140-184 | the first member with a name, or why the object cannot be read |
| JsoncScan.RefusalIsTrue | mcp/jsonedit.go:140-184 | whatever the document, a refused search comes to a member that is wrong in the way the refusal says |
| JsoncScan.ScalarStops | mcp/jsonedit.go:124-126 | a scalar runs to the next comma or closing bracket |
| JsoncEdit.ResolveJSONContainer | mcp/jsonedit.go:188-208 | the deepest object of a path |
| JsoncEdit.RootIsObject | mcp/jsonedit.go:130-136 | a document is refused for its root exactly when no opening brace comes first |
| JsoncEdit.InsertJSONMember | mcp/jsonedit.go:247-294 | computes the edited text: one splice |
| JsoncEdit.RemoveJSONMember | mcp/jsonedit.go:298-325 | computes the text without the member and its separator |
| JsoncReads.FindsInBody | mcp/jsonedit.go:140-184 | when every scalar up to the member ends, the scan finds the first member of the tree with the name, exactly where it stands |
| JsoncReads.ScalarReadIffItEnds | mcp/jsonedit.go:124-126 | a scalar is read to its end if and only if nothing but blanks stands between it and its separator |
| JsoncReads.EveryNameIsFoundIffScalarsEnd | mcp/jsonedit.go:140-184 | in an object with distinct keys every name is found where it stands, and every other name found missing, if and only if each of its scalars ends |
| JsoncReads.FindMisreads | mcp/jsonedit.go:124-126 | looking for the first scalar that does not end refuses the object, or finds a span that runs into what follows |
| JsoncReads.CloseAfterBody | mcp/jsonedit.go:69-101 | the bracket scan passes over every well-formed body, whatever strings and comments it holds |
| JsoncReads.ClosesAtEnd | mcp/jsonedit.go:69-101 | the bracket found is the object's own |
| JsoncReads.ValueEndAt | mcp/jsonedit.go:103-128 | a value ends where its tree does, a scalar at its separator |
| JsoncPaths.ResolvesInDoc | mcp/jsonedit.go:188-208 | where the path can be read it is resolved as far as its objects exist, and refused exactly when a name on it holds something else |
| JsoncPaths.FindsWhatIsThere | mcp/jsonedit.go:140-208 | resolving a path that can be read and finding a name at its end gives exactly what the tree holds there: the value, the name missing from an object read to its end, the depth at which the objects of the path end, or the refusal of a member that is no object |
| JsoncLaws.RebuildText | mcp/jsonedit.go:247-294 | replacing an object deep in the tree replaces its bytes and no other |
| JsoncLaws.RebuildKeeps | mcp/jsonedit.go:247-325 | an edit inside one object changes nothing that lies elsewhere in the tree |
| JsoncInsertion.InsertEditsTree | mcp/jsonedit.go:247-294 | where the path can be read, insert is the edit of the tree under the names that are written, and is refused exactly when the path leads through a non-object |
| JsoncInsertion.InsertIsOneSplice | mcp/jsonedit.go:247-294 | whatever the document, an insert replaces the value found at the path by the encoded one, or puts a block behind the brace of the deepest object of the path; every byte outside stays |
| JsoncLayout.InsertWrites | mcp/jsonedit.go:214-294 | whatever the document, every byte an insert writes: the value where the old one stood, or a line of its own behind the brace, two spaces deeper than the line of the brace, with single-key objects for missing containers and a comma or the closing line behind it |
| JsoncLayout.BraceIndentIsTheLines | mcp/jsonedit.go:214-220 | the indentation taken over is all spaces and tabs at the start of the line of the brace |
| JsoncLayout.BlankIsWhiteSpace | mcp/jsonedit.go:248-250 | a document is taken for an empty object if and only if it is a sequence of white-space characters |
| JsoncTheorems.InsertThenFind | mcp/jsonedit.go:140-294 | resolving the path in the edited text and finding the name finds exactly the span of the encoded value (and, for a scalar, the blanks behind it), if and only if the first new name is a string body, the encoder leaves the names below it alone, and the value fits: it is no scalar, or what follows the value it replaces, or the body of the empty object it goes into, is blanks up to a separator or the end |
| JsoncTheorems.EscapedNameIsNotFound | mcp/jsonedit.go:222-276 | the concrete insert of a control character as a name in a missing container, which is found under its escape alone |
| JsoncTheorems.InsertKeepsOthers | mcp/jsonedit.go:140-294 | after an insert that fits, every other name anywhere in the document is found as before: with the same value, missing from an object read to its end, or behind the same non-object; where the objects of its path ended they may go on, but do not hold it |
| JsoncTheorems.InsertStaysReadable | mcp/jsonedit.go:124-126 | every path that could be read before an insert can be read after it, if and only if the value fits |
| JsoncTheorems.InsertThenRemove | mcp/jsonedit.go:247-366 | inserting a new name into a non-empty object and removing it restores the document byte for byte |
| JsoncTheorems.CommentBehindScalarIsMisread | mcp/jsonedit.go:124-126 | the concrete document with a comma in a comment behind a scalar on which find is refused |
| JsoncTheorems.ScalarInFrontOfCommentIsMisread | mcp/jsonedit.go:124-126 | the concrete document that can be read along every path and is edited into that one |
| JsoncRemoval.CutLeaves | mcp/jsonedit.go:298-366 | what a removal leaves: the pieces in front of the cut, possibly with the head of a line comment, and the pieces behind it |
| JsoncRemovalTheorems.RemoveEditsTree | mcp/jsonedit.go:298-325 | where the path can be read, removing a member that is there is that cut, and the edit of the tree where the pieces make a body again; removing one that is not there changes nothing, and is refused exactly when the path leads through a non-object |
| JsoncRemovalTheorems.RemoveThenFind | mcp/jsonedit.go:140-366 | after a removal the name is missing from an object read to its end and every other member of it is found with its value, if and only if the cut opens no comment that takes in a member or a closing brace, and leaves no scalar open |
| JsoncRemovalTheorems.BraceIsLost | mcp/jsonedit.go:298-366 | where the cut opens a comment that takes in the closing brace of its object, however deep, every path and every name is refused afterwards: the root object is unterminated |
| JsoncRemovalTheorems.RemoveKeepsOthers | mcp/jsonedit.go:140-366 | after a removal that fits, every other name anywhere in the document is found as before: with the same value, missing from an object read to its end, at the same depth behind the end of the path, or behind the same non-object |
| JsoncRemovedBody.LostMember | mcp/jsonedit.go:355-366 | a comment that takes in members always loses one: a member of the object, with another name, that is not in the new one |
| JsoncUnclosed.CutRootUnclosed | mcp/jsonedit.go:69-101 | after a cut that takes in a closing brace the bracket scan from the root runs to the end of the text without closing it |
| JsoncRemovalExamples.NoteAboveMemberTakesTheBrace | mcp/jsonedit.go:355-366 | the concrete document in which removing the only member under a line comment leaves an object that is refused as unterminated |
| JsoncRemovalExamples.CommaInFrontOfCommentIsTaken | mcp/jsonedit.go:313-324 | the concrete document in which removing the last member takes the comma in front of a comment, so that the object is refused |
| JsoncRemovalExamples.CutInCommentCanBeRight | mcp/jsonedit.go:355-366 | the concrete document in which the line ends inside a piece, the comment takes in a member as well, and every name is still found right because the cut uncovers a copy of it |
| ScopeUri.EncodeScopeURI | mcp/internal/attest/attest.go:294-315 | whatever order the map yields its keys in, the result is the one spelling of the scope, or the refusal of an empty key or an overlong URI |
| ScopeUri.ParseScopeURI | mcp/internal/attest/attest.go:321-385 | computes the meaning of a URI and refuses it when it is not the canonical spelling of that meaning |
| ScopeUri.ScopeUriBijection | mcp/internal/attest/attest.go:289-385 | parsing a URI gives a scope if and only if encoding the scope gives the URI |
| ScopeUri.EncodeThenParse | mcp/internal/attest/attest.go:294-385 | exactly the scopes without an empty key whose spelling fits 512 bytes are written, and they read back |
| ScopeUri.OneSpellingPerScope | mcp/internal/attest/attest.go:317-320 | two different accepted URIs never mean the same scope |
| ScopeUri.ReadsAllParams | mcp/internal/attest/attest.go:335-370 | reading a scope's parameters in any order gives the scope |
| ScopeUri.DecodeEncode | mcp/internal/attest/attest.go:406-441 | decoding undoes percent-encoding for every byte string |
| ScopeUri.EncodeScopeComponent | mcp/internal/attest/attest.go:406-417 | computes the minimal percent-encoding |
| ScopeUri.DecodeScopeComponent | mcp/internal/attest/attest.go:419-441 | computes the decoding or its refusal |
| ScopeSpelling.ScopeIsSpelled | mcp/internal/attest/attest.go:289-315 | the one spelling, byte by byte: the base, a question mark, and the parameters in bytewise order between ampersands; refused for an empty key or above 512 bytes |
| ScopeSpelling.ByteIsSpelled | mcp/internal/attest/attest.go:406-452 | letters, digits and four marks stand for themselves, every other byte for a percent sign and two upper-case digits |
| ScopeSpelling.DecodesExactly | mcp/internal/attest/attest.go:419-441 | a component is decoded if and only if every byte of it stands for itself or is a percent sign with two hex digits, and to those bytes |
| ScopeSpelling.ParameterIsRead | mcp/internal/attest/attest.go:335-370 | what one parameter adds to the scope, or the refusal of a missing, repeated, empty or unknown one |
| ScopeSpelling.UriIsRead | mcp/internal/attest/attest.go:321-335 | which URIs are read at all, and how the others are refused |
| ClaimBytes.ClaimBytesBindFacts | mcp/internal/attest/attest.go:132-187 | for UTF-8 fields and no hash collision among the texts hashed, two accepted claims have the same bytes if and only if every bound fact agrees, runner refs as a set, empty args as {}, narratives by digest |
| ClaimFields.ClaimBytesHoldFacts | mcp/internal/attest/attest.go:137-187 | the bytes of an accepted claim are one strict JSON object without any space whose decoded names are the thirteen, in their order, each with its own fact: constants, texts, and digests of arguments, refs and narratives |
| ClaimFields.HashedRefsAreTheTargets | mcp/internal/attest/attest.go:145-152 | what is hashed for the targets is the strict JSON array of the refs in bytewise order |
| ClaimFields.SignsExactly | mcp/internal/attest/attest.go:137-146 | a claim is signed if and only if its arguments are one JSON object and its refs are usable, and is refused for its arguments first |
| ClaimFields.AsciiSpelling | mcp/internal/attest/attest.go:152-187 | how json.Marshal spells each ASCII character |
| ClaimFields.HexSpelling | mcp/internal/attest/attest.go:113-117 | a digest is written as two lower-case digits for each byte |
| ClaimBytes.SignersBindNarratives | mcp/internal/attest/attest.go:113-130 | two signers that hold the text sign the same bytes only for the same narratives |
| ClaimBytes.VerifierMakesTheSameBytes | mcp/internal/attest/attest.go:118-130 | a verifier that holds only the digests, and the refs in any order, makes the signer's bytes |
| ClaimBytes.CanonicalRunnerRefs | mcp/internal/attest/attest.go:206-227 | computes the sorted refs or the first fault |
| ClaimBytes.RefsAreASet | mcp/internal/attest/attest.go:204-227 | refs are refused exactly when empty, too many, too long, blank or duplicated |
| ClaimBytes.RefusalsAreTrue | mcp/internal/attest/attest.go:206-227 | each refusal names a fault the refs have |
| ClaimBytes.CanonicalIffSameTargets | mcp/internal/attest/attest.go:204-227 | accepted refs have the same canonical form if and only if they name the same targets |
| ClaimBytes.OrderOfRefsIsForgotten | mcp/internal/attest/attest.go:204-227 | permuting the refs never changes the outcome |
| ClaimBytes.QuotedReadsBack | mcp/internal/attest/attest.go:152-187 | a marshalled string is a strict JSON string that decodes to the field |
| ClaimBinding.ClaimBytesBindMarshalledFacts | mcp/internal/attest/attest.go:132-187 | of every two accepted claims without hash collision, UTF-8 or not, the bytes agree if and only if the argument bytes agree and every text, target and digest is marshalled the same |
| ClaimBinding.TextIsBoundIffUtf8 | mcp/internal/attest/attest.go:152-187 | a text is told apart from every other text by its marshalled form if and only if it is UTF-8 |
| ClaimBinding.OnlyUtf8IsBound | mcp/internal/attest/attest.go:152-187 | for each of the seven texts a claim carries as they are: another text always changes the bytes if and only if the text is UTF-8 |
| PackTrees.PackDirectory.ActivateStaged | runner/pack.go:654-673 | computes the run from the first rename on: the old pack aside, the new one in its place, or rolled back |
| PackTrees.PackDirectory.ReplacePackTree | runner/pack.go:614-673 | computes the run: every phase with every outcome of its rename, copy or removal |
| PackSafety.RunKeepsPack | runner/pack.go:614-673 | one run, wherever it fails or stops, leaves the whole old pack or the whole new one active, or the whole old one in the backup |
| PackSafety.InstalledPackSurvives | runner/pack.go:606-673 | over any sequence of runs a once-installed pack is never lost |
| PackSafety.TargetIsNeverPartial | runner/pack.go:606-673 | the active tree is always a whole pack somebody offered, and so is the backup when there is none |
| PackSafety.VerdictIsTrue | runner/pack.go:614-673 | success and every failure reported agree with what is on disk |
| PackSafety.InstallsExactly | runner/pack.go:614-673 | a run installs the pack if and only if nothing is installed or replacing was asked for, and every operation it comes to succeeds |
| PackSafety.FailsExactly | runner/pack.go:614-673 | each failure is reported exactly when its own operation failed after all before it had succeeded |
| PackSafety.FailureLeaves | runner/pack.go:614-673 | what each failed run leaves of the active pack, its backup and the staging directory |
| PackSafety.GapExactly | runner/pack.go:654-666 | the active pack is absent after a run if and only if the run stopped between its two renames or could not roll back |
| PackSafety.RecoveryIsTransparent | runner/pack.go:629-635 | once its first rename succeeds, a run that finds the gap behaves as if there had been none |
| FrameReader.ReadFrameLine | mcp/main.go:1248-1282 | however the reader cuts its chunks, one line is consumed, its delimiter trimmed, oversize reported exactly above 131072 bytes, and never more than 131074 bytes retained |
| FrameReader.ReadFrames | mcp/main.go:777-794 | repeated reads give the frames of the whole input |
| FrameReader.FramesAreLines | mcp/main.go:1248-1282 | the frames are the input split at its newlines; after an oversize line the next still stands where it should |
| OperationId.EncodeCrockford128 | mcp/main.go:1716-1727 | 26 symbols that match the signer's pattern and decode to the 128-bit value |
| OperationId.IdsAreInjective | mcp/main.go:1693-1727 | two ids are equal if and only if the values are |
| OutputPages.CollectOutputs | mcp/cli_follow.go:347-381 | terminates against every server, with the pages collected or why it stopped |
| OutputPages.OutputsAreConserved | mcp/cli_follow.go:347-381 | the loop succeeds with at least one page if and only if the replies cut total_count outputs of this execution into pages; together they hold exactly that many |
| OutputPages.RefusalTellsWhy | mcp/cli_follow.go:347-381 | a loop that fails stopped at the first reply that does not go on with a partition, and says what was wrong with it |
| OutputPages.Falls | mcp/cli_runbooks.go:1054-1067 | every page that passes leaves strictly less to fetch, also when the counts wrap around 64 bits |

## Left out

- HTTP, TLS, flock, ACL and symlink checks, the portal's own code and the operating system: their results are outcomes chosen freely at each step, within the assumptions stated above for the portal.
- `--forget`, a fresh login, and revocations other than by first use of a successor: they are outside the rotation runs.
- SHA-256 in the rotation and the scheduler: rotation hashes, request ids and tokens stand for themselves, so the hash is taken to be injective there; the 64-bit sequence number does not wrap.
- RotationProgress.UndisturbedRequestIsAccepted: assumes that a matching stamp is accurate, because a rename within one timestamp quantum can leave the stamp unchanged.
- Scheduler.Deliver: output bytes are modelled only as the frame they answer and the id they carry; of an answer the model keeps its status, whether its media type is JSON, and what validateRPCResponse reads of its envelope.
- StrictParser.Parser.ParseString: json.Unmarshal of a literal the parser has accepted is modelled by a decoding function; error texts and offsets are not modelled.
- JsoncEdit.InsertJSONMember: the encoder is a parameter, taken to write a well-formed value at every indentation and, inside missing containers, the value at the deeper indentation, and each key as some string; a value that cannot be marshalled is not modelled.
- JsoncRemovalTheorems.RemoveThenFind: of a cut that opens a comment, says nothing where the line it runs on to ends inside a piece (a block comment, or a member that spans lines), of the object or, once a brace is taken in, of one around it: CutInCommentCanBeRight shows such a cut taking in a member and still coming out right. Where a brace is taken in, it also says nothing of documents with a further closing brace behind the root object. RemoveEditsTree still states the text.
- JsoncRemovalTheorems.BraceIsLost: the same two limits, of the line and of a closing brace behind the root object; so for JsoncUnclosed.CutRootUnclosed.
- ClaimBytes.SigningBytes: json.Valid for the argument object is a parameter; json.Marshal of strings is modelled with its HTML escapes and its replacement of bytes that are no UTF-8.
- PackTrees.PackDirectory.ReplacePackTree: one run at a time; copying is one step with every outcome, so refused irregular files and modes appear only as a failed copy.
- FrameReader.Input.ReadSlice: read errors other than the end of the input are not told apart from it.
- OutputPages.CollectOutputs: decoding a continuation is reduced to whether it is present and names this execution; rendering is left out, and so is the collection of per-run results in the same file.
- Certificate chains, signing, YAML and TOML editing, account handling, device authorization, renderers, help texts, the schema describer and risk counts: library work, heuristics or members that would only be easy.
