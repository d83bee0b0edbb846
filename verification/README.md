# Verified models of the hfrd Go SDK modules and chaincodes

This project models the algorithmic core of the repository in Dafny and proves properties of it for all
inputs, all interleavings and all runs. `dafny verify dfyconfig.toml` checks everything.

| modules | what they model |
|---|---|
| `ConfigTree`, `ConfigDiff`, `ConfigReceiver`, `ConfigUpdates`, `ConfigSets` | the channel configuration diff, an independent receiver of its updates, the laws that connect the two, and exactly what the computed sets hold |
| `ChannelOptions`, `ChannelEnvelope` | applying update options to a channel configuration, and the computed update, with which the flags agree |
| `Wire` | a length-delimited encoding, which shows that the laws assumed of encoders can be met |
| `ProtoSchema`, `ProtoTree`, `ProtoMessages`, `ProtoRoundTrip`, `ProtoView`, `ProtoParse`, `ProtoPayload`, `ProtoDynamic` | the recursive printer and parser of protocol messages with encoded fields |
| `Iteration`, `IterationSafety`, `IterationRuns`, `IterationStops` | the throttled iteration engine as an interleaving state machine |
| `RegexLanguage`, `RegexDraws`, `RegexYields`, `RegexSoundness`, `RegexExactness`, `RegexLimits`, `RegexGenerator` | the random string generator over a regular expression tree that it mutates, and the exact set of strings it can return |
| `CompositeKeys`, `MarbleLedger`, `Marbles`, `PrivateMarbles` | the two marbles chaincodes and their secondary index |
| `InvocationChain`, `SequentialParams` | merging invocation chains; uniqueness of sequential parameters |

Loops of the source are loops here, proved against functions of the same meaning; the promises are lemmas about
those functions. Objects that the source updates in place (regex nodes, the message being filled, the ledger
stub, the update options) are classes.

## How to read the main results

- **Configuration updates.** The receiver follows the Hyperledger Fabric 1.4 documentation, "Channel
  Configuration (configtx)", section "Configuration updates", and never mentions the diff. It indexes trees by
  path, checks versions, overlays the update set and rebuilds the tree from the root. `UpdateReachesTarget` says
  that it accepts every computed update and ends with the wanted configuration, for every pair of trees.
  Versions are 64-bit with wrap-around, so no bound on versions is assumed. `WriteSetIsExact` and `ReadSetIsExact`
  determine both sets at every path from the two trees alone; in particular an unchanged policy or value is mentioned
  only when its group changes itself.
- **Iteration engine.** An action is a step of the main routine or of one worker, so an action sequence is one
  scheduling. `StuckOnlyWithoutTokens` is an exact condition: the engine can deadlock if and only if the routine
  limit is 0 (which `SetRoutineLimit` lets through, `modules/gosdk/common/utility.go:201-211`) and there is an
  iteration to launch.
- **Which error.** `ReturnedError` says which of several errors the engine returns: the first that reached the error
  channel, or the second when the first one stopped the loop, because the deferred drain
  (`modules/gosdk/common/utility.go:101-110`) overwrites the result.
- **Update options.** Counts and ports are floating-point numbers in the options and 32-bit integers in the
  protocol messages, so encoding is partial (`Encode`). `FlagsAgreeWithDiff` says exactly when an update is computed.
  The one exception to "a raised flag means an update" is a port text like "-0": its zero has a sign, which raises
  the flag and is lost in the encoding (`SignedZeroRaisesFlag`). The source then overwrites the error of the
  comparison (`modules/gosdk/channel/utilities/channel.go:228-229`) and envelops an empty update.
  `LengthDelimitedIsInjective` gives an encoder that satisfies the law assumed of encoders.
- **String generator.** Random numbers are a tape, so a call is a function of the tape (`Gen`), and the methods
  on the mutable tree compute that function. `ResultsAreOutputs` says that the strings some tape produces are
  exactly the language of `Outputs`, and `PanicsExactly` says exactly when some tape makes the call panic.
  Whether those strings belong to the original expression is a second question, and the answer is not always yes,
  because Go turns a surrogate rune into U+FFFD. A class that does not reach U+10FFFF can yield a character outside
  itself if and only if it contains a surrogate and not U+FFFD (`DrawsStayInClass`). A literal is reproduced if and
  only if it holds no surrogate (`LiteralIsKept`). An expression without such parts is always sound
  (`OutputIsMatch`). The converse holds for every expression in which such a part is neither optional nor one of
  several branches (`SoundExactly`). Otherwise another branch may absorb the lost character (`AbsorbedExample`). An
  expression that only matches strings with surrogates is missed by every run (`DoomedIsMissed`). The generator also
  has a case for the never-matching operator, which Go's parser does not deliver for a pattern.
- **Comment against code.** The comment above `Generate` says that the limit bounds how often a star, a plus or a
  range repeats (`modules/gosdk/utilities/reggen.go:184-188`). The code never goes below the minimum of a range, so
  `x{5}` with limit 3 repeats five times (`FiveTimesDespiteThree`). A range keeps to the limit if and only if its
  minimum does (`RangeKeepsExactly`), and a whole expression if and only if every range in it that a run can come to
  has such a minimum (`LimitIsKeptExactly`).
- **Printer and parser.** The only facts assumed about encoding are in `Lawful`: an encoded field is shorter
  than the encoding of its message, encoding does not distinguish nil from empty, and the message type of an
  element depends only on fields that are handled in an earlier stage. `ProtoPayload` gives a schema with nested,
  statically opaque, variably opaque and slice fields and an encoder for it that satisfy all three. For that schema
  filling the fields in declaration order fails. `ProtoDynamic` gives one with dynamic maps. `PrintsExactly` says when
  printing succeeds, `EverythingIsShown` what the tree holds at every depth, and `ParsesExactly` what any tree, printed
  or not, is parsed to, without mentioning the filling order.
- **Marbles.** Every handler result is stated against the ledger before the transaction, for reads that see
  pending writes and for reads that do not.

## Model

| member | source | states |
|---|---|---|
| ConfigTree.PathsAreFound | modules/gosdk/channel/utilities/configtxlator/update.go:267-329 | the finite set of paths of a tree holds exactly the paths that lookup resolves, so indexing loses and invents nothing |
| ConfigTree.SameContentAt | modules/gosdk/channel/utilities/configtxlator/update.go:273-285 | trees equal ignoring versions hold the same content at every path |
| ConfigTree.SameEverywhereIsSameContent | modules/gosdk/channel/utilities/configtxlator/update.go:273-285 | the converse: same content at every path makes trees equal ignoring versions at every depth |
| ConfigDiff.ComputeElementsMapUpdate | modules/gosdk/channel/utilities/configtxlator/update.go:132-175 | the two loops over policies (and, same code, values at 177-220) yield changed and new elements to write, unchanged ones apart, and whether the membership changed, whatever the map order |
| ConfigDiff.ComputeGroupsMapUpdate | modules/gosdk/channel/utilities/configtxlator/update.go:222-265 | the two loops over subgroups with their recursion yield the subgroup diff |
| ConfigDiff.CompareSubgroups | modules/gosdk/channel/utilities/configtxlator/update.go:230-246 | the loop over original subgroups |
| ConfigDiff.AddNewSubgroups | modules/gosdk/channel/utilities/configtxlator/update.go:248-262 | the loop over updated subgroups: new ones are written at version 0 with their whole content |
| ConfigDiff.AddSame | modules/gosdk/channel/utilities/configtxlator/update.go:302-315 | the loops that put the unchanged members into both sets |
| ConfigDiff.CombineUpdates | modules/gosdk/channel/utilities/configtxlator/update.go:272-328 | which of the three results a group gets: unchanged, changed below, or changed itself with its version bumped |
| ConfigDiff.ComputeGroupUpdate | modules/gosdk/channel/utilities/configtxlator/update.go:267-329 | the recursive group comparison equals the diff function about which the laws are proved |
| ConfigDiff.Compute | modules/gosdk/channel/utilities/configtxlator/update.go:331-348 | the entry point with its three error cases |
| ConfigReceiver.RebuildAgrees | modules/gosdk/channel/utilities/configtxlator/update.go:222-329 | rebuilding from any index that agrees with a tree on the tree's paths gives that tree, stale paths notwithstanding |
| ConfigReceiver.RebuildIndex | modules/gosdk/channel/utilities/configtxlator/update.go:222-329 | indexing and rebuilding are inverse |
| ConfigUpdates.UpdatedIffDifferent | modules/gosdk/channel/utilities/configtxlator/update.go:273-299 | a group is reported as not updated if and only if the trees are equal ignoring versions at every depth |
| ConfigUpdates.DiffAt | modules/gosdk/channel/utilities/configtxlator/update.go:132-329 | at every path, how read set and write set relate to the original and the updated tree |
| ConfigUpdates.ReadSetExists | modules/gosdk/channel/utilities/configtxlator/update.go:132-329 | every read-set element exists in the original at its version and is written too |
| ConfigUpdates.WrittenVersions | modules/gosdk/channel/utilities/configtxlator/update.go:132-329 | every written version is the read one, the original plus one, or 0 for a path absent from the original |
| ConfigUpdates.UpdateSetIsExact | modules/gosdk/channel/utilities/configtxlator/update.go:267-329 | a path is in the update set if and only if it is new or its own content changed; it then holds the updated content with the right version, and no deleted path is written |
| ConfigUpdates.UpdateReachesTarget | modules/gosdk/channel/utilities/configtxlator/update.go:222-329 | the receiver accepts the computed sets and ends with a tree equal to the updated one ignoring versions, at every depth, for deletions and new subtrees alike |
| ConfigUpdates.TargetAt | modules/gosdk/channel/utilities/configtxlator/update.go:132-329 | the version the receiver gives every element: kept when unchanged, plus one when changed, 0 when new |
| ConfigUpdates.ComputeIsSound | modules/gosdk/channel/utilities/configtxlator/update.go:331-348 | "no differences" exactly for equal trees; otherwise the update works and diffing its result against the target finds no difference |
| ConfigUpdates.StepSucceeds | modules/gosdk/channel/utilities/configtxlator/update.go:331-348 | no round of diff and apply is ever refused by the receiver |
| ConfigUpdates.StepReachesTarget | modules/gosdk/channel/utilities/configtxlator/update.go:331-348 | every round ends with the target, ignoring versions |
| ConfigUpdates.StepIsExact | modules/gosdk/channel/utilities/configtxlator/update.go:222-348 | after a round every path holds exactly the element of the target at the version its change calls for, and no other path exists: nothing lost, resurrected or stale |
| ConfigUpdates.VersionsCountChanges | modules/gosdk/channel/utilities/configtxlator/update.go:267-348 | over any run of updates an element present throughout ends with its initial version plus the number of rounds that changed it, modulo 2^64 |
| ConfigSets.WriteSetIsExact | modules/gosdk/channel/utilities/configtxlator/update.go:132-329 | an element is written if and only if it is the root, new or changed, a group with a difference inside, or a member of a group whose own content changed; unchanged elements carry a version only |
| ConfigSets.ReadSetIsExact | modules/gosdk/channel/utilities/configtxlator/update.go:132-329 | a policy or value is read if and only if it is unchanged and its group's own content changed, a group if and only if it is written and not new; the read set only holds versions |
| ConfigSets.AcceptedDespiteOthers | modules/gosdk/channel/utilities/configtxlator/update.go:289-299 | a receiver whose configuration others have changed elsewhere still accepts the update |
| ChannelOptions.Contains | modules/gosdk/channel/utilities/channel.go:290-306 | the first index of an address, or -1 |
| ChannelOptions.AddAddresses | modules/gosdk/channel/utilities/channel.go:290-296 | the loop that appends missing addresses |
| ChannelOptions.RemoveAddress | modules/gosdk/channel/utilities/channel.go:298-306 | the inner loop terminates and drops every occurrence of one address |
| ChannelOptions.RemoveAddresses | modules/gosdk/channel/utilities/channel.go:297-307 | the nested loops drop every occurrence of every listed address |
| ChannelOptions.WithoutKeeps | modules/gosdk/channel/utilities/channel.go:297-307 | removal keeps exactly the unlisted addresses, each as often as before, as a subsequence of the old list |
| ChannelOptions.AddedExtends | modules/gosdk/channel/utilities/channel.go:290-296 | adding keeps the old list as a prefix, takes in every requested address, and adds none twice |
| ChannelOptions.AddedInOrder | modules/gosdk/channel/utilities/channel.go:290-296 | the added addresses follow in the order in which they are first requested |
| ChannelOptions.UpdateBlockCutting | modules/gosdk/channel/utilities/channel.go:266-279 | batch settings take the requested values and raise the orderer flag if and only if one changed |
| ChannelOptions.UpdateAddresses | modules/gosdk/channel/utilities/channel.go:281-319 | the address action is applied and its flag raised if and only if the list changed |
| ChannelOptions.UpdateAnchors | modules/gosdk/channel/utilities/channel.go:321-358 | anchor peers are parsed or rejected, written over the old ones keeping their policy, and flagged if and only if they changed |
| ChannelOptions.UpdateChannelGroup | modules/gosdk/channel/utilities/channel.go:262-363 | the settings afterwards are the requested ones with all others untouched, and flags are raised exactly for changes |
| ChannelOptions.SecondRunIsIdle | modules/gosdk/channel/utilities/channel.go:262-363 | a second run with the same request changes nothing and raises no flag, for every address action |
| ChannelOptions.BatchSettingsRequested | modules/gosdk/channel/utilities/channel.go:266-279 | each batch setting is replaced by a non-empty request and kept otherwise |
| ChannelOptions.AddressesRequested | modules/gosdk/channel/utilities/channel.go:281-319 | what each of the three actions, and any other, makes of the address list |
| ChannelOptions.AnchorsRequested | modules/gosdk/channel/utilities/channel.go:321-358 | the request is accepted if and only if every peer text parses; the anchor peers are then those, in order, under the old policy or "Admins" |
| ChannelOptions.HostAndPortExactly | modules/gosdk/channel/utilities/channel.go:325-328 | a peer text is split exactly at its only colon |
| ChannelEnvelope.EncodeForgetsSigns | modules/gosdk/channel/utilities/channel.go:216-227 | two settings within 32 bits are encoded alike if and only if they differ at most in the signs of zero ports |
| ChannelEnvelope.EncodeKeepsValues | modules/gosdk/channel/utilities/channel.go:216-227 | encoding changes no number, text or list |
| ChannelEnvelope.RenderKeepsChannel | modules/gosdk/channel/utilities/channel.go:266-388 | writing the settings leaves the other values and groups of the channel alone |
| ChannelEnvelope.RenderKeepsOrderer | modules/gosdk/channel/utilities/channel.go:266-279 | and those of the orderer group |
| ChannelEnvelope.RenderKeepsApplication | modules/gosdk/channel/utilities/channel.go:321-358 | and those of the application group and its organisations |
| ChannelEnvelope.LengthDelimitedIsInjective | modules/gosdk/channel/utilities/channel.go:219-226 | there is an encoder of the changed fields for which equal bytes mean equal fields |
| ChannelEnvelope.RenderingsDiffer | modules/gosdk/channel/utilities/channel.go:266-388 | two encoded configurations are equal ignoring versions if and only if their encoded settings are |
| ChannelEnvelope.CreateUpdateEnvelope | modules/gosdk/channel/utilities/channel.go:200-232 | the outcome of a whole call: malformed options, nothing changed, not encodable, or the result of the comparison |
| ChannelEnvelope.FlagsAgreeWithDiff | modules/gosdk/channel/utilities/channel.go:210-229 | an update is computed if and only if a flag is up, the new settings are encodable, and more than the sign of a zero changed; encoding fails if and only if a flag is up and they are not |
| ChannelEnvelope.FlagMeansUpdate | modules/gosdk/channel/utilities/channel.go:210-229 | with fresh options and no signed zero among the requested ports, an update is computed if and only if a flag is raised and the settings are encodable |
| ChannelEnvelope.UpdateReachesRequest | modules/gosdk/channel/utilities/channel.go:200-229 | a receiver that holds the original configuration accepts the computed update and ends with the requested settings, ignoring versions |
| ChannelEnvelope.SignedZeroRaisesFlag | modules/gosdk/channel/utilities/channel.go:331-357 | a concrete request that raises a flag although the comparison finds no difference |
| ProtoMessages.ProtoFields | modules/gosdk/channel/utilities/protolator/json.go:332-385 | fields are collected per factory and listed from the last factory to the first |
| ProtoTree.OrderIsStaged | modules/gosdk/channel/utilities/protolator/json.go:258-271 | the field order visits exactly the special fields, nested before statically opaque before variably opaque before dynamic |
| ProtoTree.StagesInOrder | modules/gosdk/channel/utilities/protolator/json.go:255-271 | stages are nested, static, variable, dynamic; within a stage single fields, maps, slices |
| ProtoMessages.TakeSpecial | modules/gosdk/channel/utilities/protolator/json.go:465-474 | special entries are moved out of the tree, the rest goes to the JSON decoder |
| ProtoMessages.PopulateMessage | modules/gosdk/channel/utilities/protolator/json.go:445-491 | filling a message in place computes the parse function, errors included |
| ProtoMessages.PopulateSpecial | modules/gosdk/channel/utilities/protolator/json.go:480-488 | the loop over special fields, skipping missing and null ones |
| ProtoMessages.PopulateFrom | modules/gosdk/channel/utilities/protolator/json.go:82-94 | the value a field gets from its tree, by shape |
| ProtoMessages.SliceFrom | modules/gosdk/channel/utilities/protolator/json.go:167-188 | the loop over the items of a slice field |
| ProtoMessages.MapFrom | modules/gosdk/channel/utilities/protolator/json.go:114-135 | the loop over the entries of a map field, in any order |
| ProtoMessages.ElementFrom | modules/gosdk/channel/utilities/protolator/statically_opaque.go:25-39 | a fresh message of the chosen type is populated, and encoded when the field is opaque (nested.go:26-34 and dynamic.go:25-36 without encoding) |
| ProtoMessages.CreateTreeFromMessage | modules/gosdk/channel/utilities/protolator/json.go:387-429 | printing a message computes the print function |
| ProtoMessages.PrintSpecial | modules/gosdk/channel/utilities/protolator/json.go:417-426 | the loop that replaces the entries of special fields by their trees |
| ProtoMessages.PopulateTo | modules/gosdk/channel/utilities/protolator/json.go:96-106 | the tree of one field, by shape |
| ProtoMessages.SliceTo | modules/gosdk/channel/utilities/protolator/json.go:190-206 | the loop over the elements of a slice field |
| ProtoMessages.MapTo | modules/gosdk/channel/utilities/protolator/json.go:137-159 | the loop over the entries of a map field |
| ProtoMessages.ElementTo | modules/gosdk/channel/utilities/protolator/statically_opaque.go:41-51 | an opaque element is decoded with the chosen type and then printed |
| ProtoRoundTrip.StagedFilling | modules/gosdk/channel/utilities/protolator/json.go:255-271 | when a field is populated every field of an earlier stage has its final value, so parser and printer choose the same message type |
| ProtoRoundTrip.RoundTrip | modules/gosdk/channel/utilities/protolator/json.go:387-491 | parsing the printed tree gives the message back up to nil versus empty, at every depth and through encoded fields, when encoded fields are canonical |
| ProtoRoundTrip.EveryMessageHasBound | modules/gosdk/channel/utilities/protolator/json.go:387-429 | the measure on which the recursion terminates exists for every message |
| ProtoRoundTrip.BoundDoesNotMatter | modules/gosdk/channel/utilities/protolator/json.go:387-429 | the printed tree does not depend on that measure |
| ProtoView.PrintsExactly | modules/gosdk/channel/utilities/protolator/json.go:387-429 | printing succeeds if and only if all fields are there and of the declared kind, every element has a type, and exactly the opaque ones are encoded and decode, at every depth |
| ProtoView.EverythingIsShown | modules/gosdk/channel/utilities/protolator/json.go:387-429 | wherever a walk through nested and encoded elements ends, the printed tree has all fields of that message at the same place |
| ProtoParse.ParsesExactly | modules/gosdk/channel/utilities/protolator/json.go:445-491 | a tree is parsed to a message if and only if every field has the value its entry says, with types chosen by the final message; entries that are missing or null leave the empty value, unknown ones are rejected |
| ProtoParse.SpecialFieldParsedExactly | modules/gosdk/channel/utilities/protolator/json.go:82-188 | a special field is parsed item by item, each element from the item at its place and encoded if and only if the field is opaque |
| ProtoParse.MissingEntryStaysEmpty | modules/gosdk/channel/utilities/protolator/json.go:480-483 | an entry that was removed leaves the field empty, whatever else the tree holds |
| ProtoDynamic.ChannelRoundTrip | modules/gosdk/channel/utilities/protolator/dynamic.go:25-44 | configurations with any organisations print and come back through dynamic maps whose types depend on context and key |
| ProtoDynamic.UnknownGroupIsRejected | modules/gosdk/channel/utilities/protolator/dynamic.go:38-44 | a group without a decoration in its context cannot be printed |
| ProtoPayload.UnmarshalUndoesMarshal | modules/gosdk/channel/utilities/protolator/api.go:30-41 | decoding gives a well-typed message back, with texts, nested messages, encoded fields and slices |
| ProtoPayload.PayloadSchemaIsLawful | modules/gosdk/channel/utilities/protolator/api.go:30-41 | the documented payload example, with a type text in its encoded header, satisfies the schema laws |
| ProtoPayload.PayloadRoundTrip | modules/gosdk/channel/utilities/protolator/api.go:36-41 | payloads round-trip whichever data type their header announces, for any texts and any number of nested signatures |
| ProtoPayload.DeclarationOrderFails | modules/gosdk/channel/utilities/protolator/api.go:36-41 | in declaration order the data field of that schema has no type yet and parsing fails |
| IterationSafety.NextKeepsInv | modules/gosdk/common/utility.go:90-199 | every step of every routine keeps the invariant on channels, counters, launches and failures |
| IterationRuns.NeverPanics | modules/gosdk/common/utility.go:99-139 | no send on a closed channel, no double close, no negative wait group, and at most the limit of iterations overlap, in every interleaving |
| IterationRuns.NoFailureLost | modules/gosdk/common/utility.go:101-166 | the engine returns an error if and only if some executed iteration failed with an error that is not ignored, although sends to the full channel are dropped |
| IterationRuns.EveryIterationCounted | modules/gosdk/common/utility.go:112-166 | successes plus failures equal the launched iterations, whose indices are consecutive from the start and complete unless an error stopped the loop |
| IterationRuns.SequentialIsOneAtATime | modules/gosdk/common/utility.go:93-95 | with a limit of one, every earlier iteration is gone before the next is launched |
| IterationRuns.AtMostOneMore | modules/gosdk/common/utility.go:144-194 | once an error is enqueued at most one further iteration is launched, in count and in duration mode |
| IterationRuns.WorkersNeverBlock | modules/gosdk/common/utility.go:112-139 | no worker ever waits for its token, not even after the wait group has been released |
| IterationRuns.NotStuck | modules/gosdk/common/utility.go:96-199 | every state that is not final has an enabled step |
| IterationRuns.StuckOnlyWithoutTokens | modules/gosdk/common/utility.go:90-211 | the engine can deadlock if and only if the limit is 0 and there is something to launch |
| IterationRuns.ExecutionsEnd | modules/gosdk/common/utility.go:140-166 | in count mode every execution ends, within a number of steps linear in the count |
| IterationStops.TimerEndsLoop | modules/gosdk/common/utility.go:170-199 | once the timer has fired at the loop head no iteration is launched any more and a bounded number of steps remains |
| IterationStops.ErrorEndsLoop | modules/gosdk/common/utility.go:151-190 | the same once an error has been taken out of the channel by the loop |
| IterationStops.NoErrorMeansTimer | modules/gosdk/common/utility.go:170-199 | in duration mode the engine returns without an error only after the timer fired |
| IterationStops.ReturnedError | modules/gosdk/common/utility.go:101-190 | which error is returned: the first one sent, or the second when the first one stopped the loop |
| RegexDraws.ResultsAreOutputs | modules/gosdk/utilities/reggen.go:30-182 | the strings that some sequence of random numbers produces are exactly the language of an explicit expression: nothing else is generated and nothing of it is unreachable |
| RegexDraws.ResultIsOutput | modules/gosdk/utilities/reggen.go:30-182 | whatever is generated is in the output language |
| RegexDraws.OutputIsReached | modules/gosdk/utilities/reggen.go:30-182 | for every string of the output language there is a tape that produces it and leaves any given rest |
| RegexDraws.PanicsExactly | modules/gosdk/utilities/reggen.go:42-181 | some run panics if and only if the walk can come to a class or alternation with nothing to draw from, or to a star or plus whose limit is too small |
| RegexDraws.ClassCharExact | modules/gosdk/utilities/reggen.go:42-93 | the characters that a draw from a class can yield are exactly those of the output class |
| RegexDraws.PrintableExactly | modules/gosdk/utilities/reggen.go:15-18 | a dot draws from exactly the ASCII characters from space to tilde and the tabulator, with or without line breaks |
| RegexYields.StarYields | modules/gosdk/utilities/reggen.go:112-121 | a star yields exactly no to `limit` results of its part, one after another |
| RegexYields.PlusYields | modules/gosdk/utilities/reggen.go:122-131 | a plus yields exactly one to `limit` results |
| RegexYields.QuestYields | modules/gosdk/utilities/reggen.go:132-144 | a question mark yields nothing or one result |
| RegexYields.RangeYields | modules/gosdk/utilities/reggen.go:145-164 | a range yields exactly from its minimum to the smaller of maximum and limit, and its minimum in any case |
| RegexYields.ConcatYields | modules/gosdk/utilities/reggen.go:165-171 | a concatenation yields exactly results of its parts, in order |
| RegexYields.AlternateYields | modules/gosdk/utilities/reggen.go:172-177 | an alternation yields exactly what its branches yield |
| RegexSoundness.LimitedGen | modules/gosdk/utilities/reggen.go:145-164 | the in-place shrinking of repeat bounds changes nothing about what a walk with the same limit returns for the same random numbers |
| RegexSoundness.LimitedResultsAreOutputs | modules/gosdk/utilities/reggen.go:145-188 | on the first call and on every later one with the same limit the possible results are exactly the output language of the original expression |
| RegexSoundness.DrawsStayInClass | modules/gosdk/utilities/reggen.go:79-93 | every drawn character stays in the class if and only if the class reaches the end, holds U+FFFD, or holds no surrogate |
| RegexSoundness.LiteralIsKept | modules/gosdk/utilities/reggen.go:36-41 | a literal is reproduced if and only if it holds no surrogate |
| RegexSoundness.UncleanExamples | modules/gosdk/utilities/reggen.go:36-93 | two expressions whose generated string is not in their language: a surrogate literal and a class of surrogates |
| RegexSoundness.OutputIsMatch | modules/gosdk/utilities/reggen.go:30-182 | whatever a tree with shrunk bounds can yield is in the language of the original expression, when no character is lost in the conversion to a string |
| RegexExactness.SoundExactly | modules/gosdk/utilities/reggen.go:30-182 | for an expression that never panics and whose lossy parts are not optional, every generated string is in the language if and only if there is no lossy part |
| RegexExactness.MissingRun | modules/gosdk/utilities/reggen.go:30-182 | a shortest run through a lossy part yields a string that no other reading of the expression can match |
| RegexExactness.OutputHasNoSurrogate | modules/gosdk/utilities/reggen.go:36-93 | no generated string holds a surrogate |
| RegexExactness.DoomedIsMissed | modules/gosdk/utilities/reggen.go:30-182 | an expression that only matches strings with surrogates is missed by every run, whatever bounds have shrunk |
| RegexExactness.AbsorbedExample | modules/gosdk/utilities/reggen.go:172-177 | an alternation that loses a character in one branch and is still always sound |
| RegexLimits.FiveTimesDespiteThree | modules/gosdk/utilities/reggen.go:145-164 | five repetitions under a limit of three, against the comment at lines 184-185 |
| RegexLimits.RangeKeepsExactly | modules/gosdk/utilities/reggen.go:145-164 | a range keeps to the limit for every tape if and only if its minimum is within the limit |
| RegexLimits.FinishesExactly | modules/gosdk/utilities/reggen.go:30-182 | exactly when some run does not panic |
| RegexLimits.LimitIsKeptExactly | modules/gosdk/utilities/reggen.go:112-188 | every run keeps every star, plus and range to the limit if and only if each range that can be reached has its minimum within the limit |
| RegexGenerator.SizeOrEnd | modules/gosdk/utilities/reggen.go:44-54 | the loop that counts a class and detects that it reaches the last code point |
| RegexGenerator.MembersAmong | modules/gosdk/utilities/reggen.go:56-67 | the loops that collect the printable members of a class |
| RegexGenerator.RuneOf | modules/gosdk/utilities/reggen.go:79-89 | the loop that turns a number into a member of the class |
| RegexGenerator.DrawFromClass | modules/gosdk/utilities/reggen.go:42-93 | which character a class yields for the next random number, and when it panics |
| RegexGenerator.Node.GenerateLiteral | modules/gosdk/utilities/reggen.go:36-41 | the loop that converts the runes one by one |
| RegexGenerator.Node.Times | modules/gosdk/utilities/reggen.go:112-144 | the loop of star, plus and question mark (and of the bounded repeat, 159-163) is iterated generation although each round may shrink bounds below |
| RegexGenerator.Node.GenerateRepeat | modules/gosdk/utilities/reggen.go:145-164 | the bounded repeat overwrites its maximum with the smaller of maximum and limit, and this does not show |
| RegexGenerator.Node.GenerateEach | modules/gosdk/utilities/reggen.go:165-171 | a concatenation generates its parts in order, each from the numbers the previous one left |
| RegexGenerator.Node.Generate | modules/gosdk/utilities/reggen.go:30-182 | the walk over the mutable tree computes the generator function of the tape and leaves the effective expression unchanged |
| RegexGenerator.Node.OnlyTightened | modules/gosdk/utilities/reggen.go:145-164 | in every reachable tree bounds have at most shrunk since parsing |
| RegexGenerator.Generator.Generate | modules/gosdk/utilities/reggen.go:184-188 | every call, the first and every later one with any limit, yields a string of the original language when no character is lost, and panics only as foreseen |
| CompositeKeys.SplitUndoesCreate | chaincode/marbles/marbles_chaincode.go:442-447 | splitting a composite key gives its parts back |
| CompositeKeys.PrefixIsPartialKey | chaincode/marbles/marbles_chaincode.go:424-429 | the partial key query matches exactly the keys with that leading attribute |
| MarbleLedger.IndexIsExact | chaincode/marbles/marbles_chaincode.go:216-229 | in an agreeing ledger an index entry exists if and only if a marble of that color and name is stored |
| Marbles.InitMarble | chaincode/marbles/marbles_chaincode.go:159-234 | when a marble is created and what is written, with every rejection, composite keys as names included |
| Marbles.Delete | chaincode/marbles/marbles_chaincode.go:263-305 | record and index entry are removed, or the call is rejected |
| Marbles.TransferMarble | chaincode/marbles/marbles_chaincode.go:310-344 | exactly the owner of the named marble changes, also in the middle of a transaction |
| Marbles.TransferMarblesBasedOnColor | chaincode/marbles/marbles_chaincode.go:412-462 | on an agreeing ledger it sets the owner of exactly the marbles of the color, reports their number, and fails only on bad arguments |
| Marbles.Submit | chaincode/marbles/marbles_chaincode.go:127-154 | a transaction has the same result whether reads see pending writes or not, and an error discards all writes |
| Marbles.ExecuteKeepsAgreement | chaincode/marbles/marbles_chaincode.go:159-462 | every transaction with any arguments keeps records and index in agreement |
| Marbles.IndexAlwaysAgrees | chaincode/marbles/marbles_chaincode.go:159-462 | so does every sequence of transactions |
| Marbles.IndexAgreesFromStart | chaincode/marbles/marbles_chaincode.go:159-462 | in particular every sequence of transactions on the empty ledger |
| Marbles.InitIsRead | chaincode/marbles/marbles_chaincode.go:159-234 | a created marble is read back as requested, only it and its index entry are new, and which arguments are refused |
| Marbles.DropIsRead | chaincode/marbles/marbles_chaincode.go:263-305 | a deleted marble and its index entry are gone and nothing else changes |
| Marbles.TransferIsRead | chaincode/marbles/marbles_chaincode.go:310-344 | only the owner of the named marble changes |
| Marbles.TransferByColorIsRead | chaincode/marbles/marbles_chaincode.go:412-462 | only the owners of the marbles of the color change |
| Marbles.OnlyOwnersChange | chaincode/marbles/marbles_chaincode.go:159-462 | as long as a marble is stored no transaction changes anything of it but its owner |
| PrivateMarbles.InitMarble | chaincode/marbles_private/marbles_chaincode_private.go:179-293 | the three writes of a new private marble, with every rejection |
| PrivateMarbles.Delete | chaincode/marbles_private/marbles_chaincode_private.go:346-418 | record, index entry and price details go together |
| PrivateMarbles.TransferMarble | chaincode/marbles_private/marbles_chaincode_private.go:423-484 | the changed record is written back under the name inside it |
| PrivateMarbles.WriteBackHitsTheMarble | chaincode/marbles_private/marbles_chaincode_private.go:469-480 | on a consistent state that write-back changes the owner of the requested marble and nothing else |
| PrivateMarbles.AlwaysConsistent | chaincode/marbles_private/marbles_chaincode_private.go:179-484 | every sequence of transactions keeps index and records in agreement and price details for exactly the stored marbles |
| PrivateMarbles.ConsistentFromStart | chaincode/marbles_private/marbles_chaincode_private.go:179-484 | in particular every sequence of transactions on the empty collections |
| PrivateMarbles.InitIsRead | chaincode/marbles_private/marbles_chaincode_private.go:179-293 | a created marble and its price are read back as requested, and which inputs are refused |
| PrivateMarbles.DropIsRead | chaincode/marbles_private/marbles_chaincode_private.go:346-418 | a deleted marble is gone from both collections and nothing else changes |
| PrivateMarbles.TransferIsRead | chaincode/marbles_private/marbles_chaincode_private.go:423-484 | only the owner of the requested marble changes |
| PrivateMarbles.OnlyOwnersChange | chaincode/marbles_private/marbles_chaincode_private.go:179-484 | as long as a marble is stored its price and everything but its owner stay |
| InvocationChain.MergeCollections | modules/gosdk/chaincode/utils/handlers.go:355-365 | the loop that merges collections and whether one was missing |
| InvocationChain.MergeInvocationChains | modules/gosdk/chaincode/utils/handlers.go:304-319 | the loop over the response calls |
| InvocationChain.MergedIds | modules/gosdk/chaincode/utils/handlers.go:304-319 | the merged chain has exactly one call for each response call that the filter lets through, in order |
| InvocationChain.MergedCallsAreMerges | modules/gosdk/chaincode/utils/handlers.go:304-319 | every call of the merged chain passes the filter and is the merge of a response call |
| InvocationChain.NewCallComesBack | modules/gosdk/chaincode/utils/handlers.go:325-340 | a call whose ID the chain lacks comes back unchanged, as a change |
| InvocationChain.FindExactly | modules/gosdk/chaincode/utils/handlers.go:344-351 | the first call with the ID is found |
| InvocationChain.UnionAddsOnce | modules/gosdk/chaincode/utils/handlers.go:355-365 | a merged call adds no collection twice |
| InvocationChain.ChangedIffUncovered | modules/gosdk/chaincode/utils/handlers.go:304-340 | a change is reported if and only if a filtered-in response call has an ID or a collection that the chain lacks |
| InvocationChain.MergedCallCovers | modules/gosdk/chaincode/utils/handlers.go:325-365 | a merged call keeps the original collections as a prefix and covers the response |
| InvocationChain.MergeIsFixpoint | modules/gosdk/chaincode/utils/handlers.go:304-365 | with distinct response IDs a second merge reports no change and returns the same calls |
| SequentialParams.ValuesDiffer | modules/gosdk/utilities/paramGenerator.go:69-75 | different iteration indices give different values for every pattern |
| SequentialParams.LaunchedValuesDiffer | modules/gosdk/utilities/paramGenerator.go:69-75 | no two iterations launched in one execution of the engine get the same value |
| SequentialParams.IndexReplacesStar | modules/gosdk/utilities/paramGenerator.go:69-75 | the index stands for every star, and what is between the stars stays |
| SequentialParams.IndexFollows | modules/gosdk/utilities/paramGenerator.go:69-75 | without a star the index follows the pattern |
| SequentialParams.IndexReadsBack | modules/gosdk/utilities/paramGenerator.go:69-75 | the text of the index reads back as the index |

## Left out

- Nil groups, policies or values inside a configuration map: a decoded configuration has none; only the root group may be nil.
- Policy evaluation and signatures at the receiver of an update: no code of this repository takes part in them.
- The textual JSON edits `EncodeAndReplaceNull` and `lowercaseStringWithKeys`: they can touch unrelated strings, so no claim about content is made.
- UpdateChannelGroup: the settings of one organisation stand for the nested maps at their fixed paths; a tree without those paths makes the source panic and is not modelled. Its idempotence is about a configuration that is decoded again, since the in-memory tree afterwards holds other Go types.
- CreateUpdateEnvelope: the content of the envelope around the update and its JSON detour are not modelled; what a configuration value holds besides the changed fields is fixed by the codec.
- UpdateChannelGroup: port texts that parse to an infinity or to no number fail only when they are marshalled; `parsePort` treats them as malformed. After an error the partly written tree is discarded by the caller and not described.
- Oneof fields and timestamps in the printer and parser: the code skips or delegates them. Scalars are atoms that the JSON codec preserves.
- RoundTrip: not claimed for a field that holds bytes the encoder would not produce, because the parser then re-encodes them differently.
- RoundTrip: encoding is a function here. Go's encoder writes map entries in no fixed order, so an encoded message with a map of two or more entries can come back as other bytes with the same meaning; the theorem does not cover that.
- Error texts everywhere, and the difference between an error and a panic on a null collection element in the parser.
- The aliasing of the tree that the parser empties: the caller's tree is consumed in the source, a copy is used here.
- Wall-clock time in the iteration engine: waits take no step, and in duration mode the timer may fire at any loop head.
- The global routine limit that a sequential call leaves at 1, and `SetRoutineLimit` itself: the limit is a parameter, any natural number.
- Case folding and greediness flags of regular expressions: a literal is matched exactly, which is a subset of its language; anchors and word boundaries are read as empty.
- RegexSoundness.OutputIsMatch: when a lossy part is optional or one of several branches, the condition `Clean` is sufficient, not necessary; whether another branch absorbs the character is language inclusion, which the model does not decide.
- Strings of the chaincodes are sequences of Unicode characters; byte strings that are not valid UTF-8 are outside the model. Lower casing and number parsing are parameters.
- The read-only queries, history and rich queries of the chaincodes: they write nothing.
- MergeInvocationChains: collections are values here. In Go a merged call may share its backing array with the original one, so when a response repeats an ID and the array has spare capacity, a later merge can overwrite an earlier result.
- Peer selection, endorsement and the network handlers around invocation chains.
- Regular-expression, range, payload and UUID parameters: random values with no promise beyond their generator.
- Browser code, deployment scripts, Jenkins, CouchDB and the web API: no algorithmic core.
