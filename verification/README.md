# A verified model of ut-control

This project models the parts of the ut-control library that are hardest to get right, and proves what they
promise.

* **Profiles and includes** (`src/ut_kvp.c`). A profile is a YAML tree whose scalars, sequence entries and mapping
  pairs may include other files. `process_node_copy` and `process_include` expand it by mutual recursion with a depth
  limit of 5, expanding tagged scalars and sequence entries a second time; `ut_kvp_open` merges several expanded
  profiles into one document.
* **The control plane** (`src/ut_control_plane.c`). A web service thread reassembles HTTP bodies and enqueues them; a
  state machine thread dequeues them and calls registered callbacks; the application starts, stops and registers.
* **Parsers and scanners** (`src/ut_kvp.c`, `src/ut_log.c`). Byte lists, unsigned integer fields, and the removal of
  colour codes from log lines.

`dafny verify dfyconfig.toml` checks everything.

## How the model is built

| file | content |
|---|---|
| `YamlTree.dfy` | trees, and what libfyaml's append, insert and lookup are assumed to do |
| `Includes.dfy` | the expander as a function of file store, tree and depth |
| `IncludeLaws.dfy` | what it does with each kind of node, in terms of the tree and the store alone |
| `ExpandedTrees.dfy`, `IncludeMeaning.dfy`, `IncludeLimit.dfy` | shape of expansions, depth-free meaning, exact depth bound |
| `IncludePrecedence.dfy` | which include or entry decides a key, order of keys |
| `IncludeResources.dfy` | the nested activations of `process_include` and the files they open and close |
| `IncludeExpander.dfy`, `Profiles.dfy` | the imperative expander and profile instance, proved against the functions |
| `CNumbers.dfy`, `DataBytes.dfy`, `IntegerFields.dfy` | strtoul, the byte-list parser with its doubling buffer, the integer getters |
| `ColorStrip.dfy` | the in-place colour stripper |
| `FieldPaths.dfy` | which keys `ut_kvp_fieldPresent` finds |
| `MessageQueue.dfy`, `HttpSession.dfy`, `Callbacks.dfy` | the control plane's data structures |
| `ControlPlane.dfy` | its three threads as a step system |
| `ControlPlaneInvariants.dfy`, `ControlPlaneRuns.dfy` | what every step keeps, and what that says about whole runs |
| `ControlPlaneRequests.dfy`, `ControlPlaneCallbacks.dfy` | from the inputs of a run (requests, parse results, registrations) to messages, the table and callbacks |
| `ControlPlaneProgress.dfy` | who can move: no deadlock while there is something to do |
| `ControlPlaneShutdown.dfy`, `ControlPlaneStop.dfy` | how long the state machine thread runs after an EXIT, and when Stop returns |
| `ControlPlaneRestart.dfy` | when an instance serves after Start |
| `ControlPlaneLeaks.dfy` | which message buffers are ever freed |

The file store is a finite map from paths to parsed contents. Mutexes, condition variables and thread joins are
modelled by their enabling conditions; a spurious wakeup may happen at any time. The result of parsing a received
message (including the include expansion that `ut_kvp_openMemory` performs on a fresh instance) is an arbitrary
parameter of the step that handles it.

## What the code does that its documentation does not say

* **Include limit.** The limit of 5 bounds the call depth, not the number of nested includes. Chains of at most h
  includes met at depth d expand completely, for every store, exactly when h + d < 5 (`LimitIsExact`). The chain of four
  includes that tests/src/assets/include/depth_check.yaml starts is therefore expanded completely from a top-level
  profile (`CopyIsMeaning`); a fifth include would be left behind as an ordinary pair (`LadderCutOff`). Behind a tag the
  second pass may pick that pair up again (`SecondPassRetries`).
* **Include tag.** `strncmp` with the length of the tag accepts every prefix of `!include`, such as the non-specific tag
  `!` (`TagTestAcceptsPrefixes`).
* **Temporary files.** A download that does not parse leaves its temporary file open; all are closed for every
  profile exactly when every download parses (`TemporaryFilesClosed`).
* **0X.** The byte-list parser reads `0X1F`, the integer getters give 0 for it (`UpperCasePrefixGivesZero`).
* **Minus signs.** `strtoul` negates modulo 2^64, and nothing rejects the sign. The byte-list parser accepts a `-` token
  exactly when the negation is a byte (`NegativeTokensWrap`); each getter returns the negation when it is in its range,
  so that `-1` is 2^64 - 1 for the 64-bit getter and `-18446744073709551615` is 1 for all of them
  (`NegativeFieldsWrap`).
* **Stop.** A full queue drops the EXIT message, and then `UT_ControlPlane_Stop` never returns. It can return exactly
  when the queue has room at the length test or an earlier EXIT is on its way (`FullQueueDecides`, `SomeStopHangs`).
* **Start after Stop.** The header says that Start starts listening (include/ut_control_plane.h:121). The exit flag is
  cleared only by `UT_ControlPlane_Init`, so that Start makes an instance serve exactly when no EXIT was ever handled
  (`StartServesIffNeverStopped`); a state after one completed Stop in which Start serves nothing is reachable
  (`SomeRestartServesNothing`).
* **Dropped messages.** Message buffers leak in two ways. A message that a full queue refuses is never freed
  (`RefusedForever`, `SomeRefusedBufferLeaks`). Neither is one that was accepted behind an EXIT: after
  src/ut_control_plane.c:218 nothing is dequeued any more, and `UT_ControlPlane_Exit` (src/ut_control_plane.c:445-463)
  frees only the instance (`SomeAcceptedBufferLeaks`). Once its message has left the web service thread, a buffer is
  still freed in some continuation exactly when the message was accepted before any EXIT (`FreedIffBeforeExit`).

## Model

| member | source | states |
|---|---|---|
| `Includes.TagTestAcceptsPrefixes` | src/ut_kvp.c:927-930 | the tag test holds of the prefixes of `!include` and of no other tag |
| `IncludeLaws.TaggedScalarLaw` | src/ut_kvp.c:928-942 | a scalar tagged with a prefix of `!include` becomes its target, expanded twice, or nothing |
| `IncludeLaws.PlainScalarLaw` | src/ut_kvp.c:944-948 | any other scalar is copied with its tag |
| `IncludeLaws.IncludeEntryLaw` | src/ut_kvp.c:966-979 | wherever it stands, a sequence entry whose `include` key has a scalar of any tag becomes its target, expanded twice |
| `IncludeLaws.OtherEntryLaw` | src/ut_kvp.c:982-992 | any other entry, and one whose include fails, becomes its own copy, or is dropped |
| `IncludeLaws.PairMarkerIs` | src/ut_kvp.c:1020-1023 | a pair is an include if and only if its key has the form a ++ "include" ++ b and its value is a scalar |
| `IncludeLaws.IncludePairLaw` | src/ut_kvp.c:1021-1033 | such a pair merges its target's mapping into what the pairs before it gave; a target that is no mapping adds nothing |
| `IncludeLaws.OwnPairLaw` | src/ut_kvp.c:1036-1046 | any other pair, and one whose include fails, adds its own copy at the end unless the key is already there |
| `IncludeLaws.EmptySequenceLaw` | src/ut_kvp.c:951-995 | an empty sequence stays empty |
| `IncludeLaws.MappingLaw` | src/ut_kvp.c:998-1049 | a mapping is rebuilt from nothing, without its tag |
| `IncludeLaws.LimitLaw` | src/ut_kvp.c:921-925 | nothing is copied at depth 5, and below it every collection is |
| `IncludeExpander.FindPattern` | src/ut_kvp.c:1225-1246 | finds the first occurrence of the pattern, or nothing exactly when there is none or a length is 0 |
| `IncludeExpander.Expander.ProcessNodeCopy` | src/ut_kvp.c:913-1052 | terminates for every store, cyclic ones included, and computes the specified expansion and file events |
| `IncludeExpander.Expander.ProcessItems` | src/ut_kvp.c:950-995 | the sequence loop computes the specified items, in order, dropping failed entries |
| `IncludeExpander.Expander.ProcessEntry` | src/ut_kvp.c:963-992 | an entry `{include: f}` becomes the twice expanded target, or a copy of itself when that fails |
| `IncludeExpander.Expander.ProcessPairs` | src/ut_kvp.c:997-1049 | the mapping loop assembles the contributions of all pairs |
| `IncludeExpander.Expander.ProcessPair` | src/ut_kvp.c:1012-1046 | a successful include is merged, any other pair is copied and appended unless its key exists |
| `IncludeExpander.Expander.ProcessInclude` | src/ut_kvp.c:1102-1222 | the expanded root of a readable target at depth + 1, nothing otherwise, and which files stay open |
| `IncludeMeaning.CopyIsMeaning` | src/ut_kvp.c:913-1052 | for include chains of length h and h + depth < 5 the two-pass expander returns the one-pass, depth-free expansion |
| `IncludeMeaning.IncludeIsTarget` | src/ut_kvp.c:1102-1222 | the same for a single include |
| `IncludeMeaning.RepeatedCopy` | src/ut_kvp.c:935-938 | under that bound the second pass over an expanded target changes nothing |
| `IncludeMeaning.ExpansionIsFinal` | src/ut_kvp.c:974-976 | every marker left in an expansion is unresolvable, no include tag is left, and expanding again at any depth below 5 is the identity |
| `IncludeMeaning.MeaningSettled` | src/ut_kvp.c:913-1052 | the depth-free expansion has distinct keys, no include tags and only unresolvable markers |
| `IncludeMeaning.FailedTarget` | src/ut_kvp.c:933-941 | an include that fails in the depth-free expansion fails at every depth |
| `IncludeMeaning.MeaningIsUnique` | src/ut_kvp.c:913-1052 | the depth-free expansion does not depend on the bound for the chains |
| `IncludeMeaning.RankBoundsChains` | src/ut_kvp.c:1102-1222 | in an acyclic store (one with a rank that falls along includes) the rank bounds every chain |
| `IncludeMeaning.BoundedIffAcyclic` | src/ut_kvp.c:1102-1222 | the chains of all files are bounded, so that the depth-free expansion exists, if and only if the include graph is acyclic |
| `IncludeLimit.LimitIsExact` | src/ut_kvp.c:921-925 | depth is harmless for all stores and trees with chains of at most h includes if and only if h + depth < 5 |
| `IncludeLimit.LadderCutOff` | src/ut_kvp.c:1106-1110 | a chain one include too long keeps its last include as an ordinary pair |
| `IncludeLimit.SecondPassRetries` | src/ut_kvp.c:935-938 | five chained includes behind a tag expand completely at depth 0 |
| `ExpandedTrees.CopyQuiet` | src/ut_kvp.c:944-1049 | a tree with distinct keys and only unresolvable markers is reproduced at every depth below 5, up to tags on collections |
| `ExpandedTrees.CopyWithoutMarkers` | src/ut_kvp.c:944-1049 | a tree without include markers is reproduced, whatever the store |
| `ExpandedTrees.CopyWellFormed` | src/ut_kvp.c:944-1049 | for every store, every mapping at every level of an expansion has distinct keys (YAML 1.2.2, section 3.2.1.1) and no include tag is left |
| `ExpandedTrees.MergeWellFormed` | src/ut_kvp.c:1089-1095 | merging expansions keeps all keys distinct |
| `IncludePrecedence.LastIncludeWins` | src/ut_kvp.c:1020-1033 | a key takes its value from the last include that defines it, wherever its own entry stands |
| `IncludePrecedence.IncludedKeysAreThere` | src/ut_kvp.c:1020-1033 | every key of an included mapping is there with its value, unless a later include defines it |
| `IncludePrecedence.FirstOwnEntryWins` | src/ut_kvp.c:1036-1046 | without such an include the first own entry counts |
| `IncludePrecedence.UndefinedKeyIsAbsent` | src/ut_kvp.c:1010-1047 | a key that nothing defines is absent |
| `IncludePrecedence.KeysKeepFirstAppearance` | src/ut_kvp.c:1010-1047 | the keys are those contributed, each once, in order of first appearance |
| `IncludeExpander.Expander.ProcessTarget` | src/ut_kvp.c:1112-1222 | opens, expands and closes the target; only a malformed download stays open |
| `IncludeResources.OpenFilesBounded` | src/ut_kvp.c:1106-1110 | at every moment of an expansion the active includes, local and downloaded, have strictly increasing depths below 5, and each opens its file once if there is one; the files they hold open are at most five, and at the end no include is active and no local file open |
| `IncludeResources.CopyBalanced` | src/ut_kvp.c:1199-1220 | an expansion inside other active includes ends with exactly those active, holding the same files |
| `IncludeResources.FilesAreHeld` | src/ut_kvp.c:1155-1220 | every file opened and not yet closed is held by an active include or is the lost temporary file of a malformed download |
| `IncludeResources.TemporaryFilesClosed` | src/ut_kvp.c:1155-1194 | no expansion leaves a temporary file open if and only if every download in the store parses |
| `Profiles.Instance.OpenFile` | src/ut_kvp.c:98-182 | which status an open returns in terms of the store, for all cases; a missing file or name changes nothing, a parsing error drops the document, a success merges the expansion |
| `Profiles.OpenProfile` | src/ut_kvp.c:98-182 | a NULL instance is reported before the file name is looked at |
| `Profiles.Instance.CloseDocument` | src/ut_kvp.c:251-265 | a close drops the document |
| `Profiles.DocumentIsMergeOfOpened` | src/ut_kvp.c:98-182 | after any run the document is the left fold of the merge over the expansions of the files opened since the last close or parsing error |
| `Profiles.LastProfileWins` | src/ut_kvp.c:165-177 | the document is well formed, each key has the value of the last live profile that defines it, and a first profile that is no mapping is never changed |
| `YamlTree.InsertLookup` | src/ut_kvp.c:1089-1095 | a merged key takes the value of the inserted mapping, every other key keeps its own |
| `YamlTree.InsertKeys` | src/ut_kvp.c:1089-1095 | merging keeps the keys in place and appends the new ones in order |
| `CNumbers.DigitsAre` | src/ut_kvp.c:367-374 | which characters are decimal and hexadecimal digits, and what they stand for |
| `CNumbers.ValueIsPositional` | src/ut_kvp.c:367-374 | the value of a numeral is the sum of its digits times the powers of the base, the last digit weighing 1 |
| `CNumbers.Spell` | src/ut_kvp.c:367-374 | every number has a spelling in base 10 and 16 whose digits have its value |
| `CNumbers.ReadDecimal` | src/ut_kvp.c:371-374 | strtoul reads a decimal numeral completely and to its value |
| `CNumbers.ReadHex` | src/ut_kvp.c:367-370 | strtoul reads a prefixed hexadecimal numeral completely and to its value |
| `CNumbers.ReadWhole` | src/ut_kvp.c:367-386 | strtoul reads blanks, a sign, a base 16 prefix and a numeral to the end: the value, its negation modulo 2^64, or out of range |
| `CNumbers.OnlyNumeralsAreRead` | src/ut_kvp.c:376-386 | no other text is read to its end |
| `CNumbers.ReadNegative` | src/ut_kvp.c:367-386 | behind a minus sign strtoul reads exactly the numerals to their end, negates them modulo 2^64, and reports those above 2^64 - 1 as out of range |
| `IntegerFields.DecodesBothSpellings` | src/ut_kvp.c:351-395 | every n up to maxRange is read back from its decimal and its 0x spelling |
| `IntegerFields.GettersRoundTrip` | src/ut_kvp.c:397-464 | each getter returns every number of its type from both spellings |
| `IntegerFields.LateMarkIsRejected` | src/ut_kvp.c:376-386 | a text with `0x` anywhere but at the start of the number gives 0 in either base |
| `IntegerFields.BaseChoiceIsHarmless` | src/ut_kvp.c:367-374 | for all texts, looking for `0x` anywhere gives the result of looking for it after blanks and sign |
| `IntegerFields.UpperCasePrefixGivesZero` | src/ut_kvp.c:367-386 | a number spelled with 0X gives 0 |
| `IntegerFields.NegativeFieldsWrap` | src/ut_kvp.c:367-395 | a decimal or 0x numeral behind a minus sign gives its negation modulo 2^64 when that is in range, and 0 otherwise |
| `IntegerFields.GettersAreExact` | src/ut_kvp.c:397-464 | the exact result of all four getters for blanks, sign and numeral, decimal or 0x: a numeral above 2^64 - 1 or out of the type's range gives 0 |
| `IntegerFields.OtherFieldsGiveZero` | src/ut_kvp.c:376-386 | every text of another form gives 0 |
| `DataBytes.NextTokenIsFirst` | src/ut_kvp.c:770-815 | repeated strtok calls deliver the non-empty fields between delimiters, in order |
| `DataBytes.TokensSeparated` | src/ut_kvp.c:770 | a text without comma and blank is one token, and a comma or a blank separates tokens |
| `DataBytes.TokensAreWords` | src/ut_kvp.c:770 | no token is empty or has a comma or a blank |
| `DataBytes.DecimalToken` | src/ut_kvp.c:782-799 | the exact result for a decimal token with any sign: the byte, or an error when it is none |
| `DataBytes.HexToken` | src/ut_kvp.c:782-799 | the same for a 0x or 0X token |
| `DataBytes.OtherTokensFail` | src/ut_kvp.c:789-799 | every token of another form is an error |
| `DataBytes.ByteValuesPointwise` | src/ut_kvp.c:782-799 | the bytes are the values of the tokens one by one, and there are none exactly when some token is bad |
| `DataBytes.NegativeTokensWrap` | src/ut_kvp.c:789-799 | the exact result for every token that starts with a minus sign |
| `DataBytes.GetDataBytes` | src/ut_kvp.c:755-820 | the loop returns exactly the byte values of all tokens and their number, or NULL and 0, in a buffer of the specified capacity |
| `DataBytes.Grow` | src/ut_kvp.c:801-812 | growing doubles the buffer and keeps its content |
| `DataBytes.BufferBounds` | src/ut_kvp.c:696-814 | the capacity is 16 * 2^k, between n and max(16, 2(n - 1)), and fewer than 2n bytes are copied in all |
| `DataBytes.ReadsBackPrintedBytes` | src/ut_kvp.c:770-819 | any byte list in any mix of decimal, 0x and 0X spellings and any separators is read back |
| `ColorStrip.StripColorCode` | src/ut_log.c:162-186 | the in-place loop leaves the stripped text, a NUL, and everything behind it as it was |
| `ColorStrip.StrippedHasNoEscape` | src/ut_log.c:162-186 | the result has no ESC and is no longer than the text |
| `ColorStrip.StripIsIdempotent` | src/ut_log.c:162-186 | stripping twice is stripping once |
| `ColorStrip.EscapeLaw` | src/ut_log.c:165-183 | plain text stays, the text from ESC (27) to the next `m` vanishes, and an escape without `m` swallows the rest |
| `ColorStrip.StripConcat` | src/ut_log.c:167-178 | what an escape sequence left open does to the text that follows |
| `ColorStrip.StripDistributesIffClosed` | src/ut_log.c:167-178 | stripping distributes over every continuation if and only if no escape sequence is left open |
| `ColorStrip.LogColorsAreColorCodes` | include/ut_log.h:35-43 | the nine colours of the header are colour codes (ECMA-48, section 8.3.117) |
| `ColorStrip.ColoredTextIsRestored` | src/ut_log.c:158-186 | a text between colour codes comes out as it was |
| `MessageQueue.Queue.constructor` | src/ut_control_plane.c:71-72 | a new queue is empty |
| `MessageQueue.Queue.Enqueue` | src/ut_control_plane.c:97-109 | appends, or drops silently when 32 messages are queued |
| `MessageQueue.Queue.Dequeue` | src/ut_control_plane.c:111-141 | takes the first message and keeps the others in order; an empty queue makes the caller wait |
| `HttpSession.Session.Body` | src/ut_control_plane.c:321-339 | appends a chunk that fits below 4096 bytes, otherwise refuses it and changes nothing |
| `HttpSession.Session.Completion` | src/ut_control_plane.c:341-364 | hands out a NUL-terminated copy of the stored bytes and resets the buffer |
| `FieldPaths.ConvertDotToSlash` | src/ut_kvp.c:853-879 | writes the converted key and its NUL, and nothing else; a key without dots is cut to 255 characters |
| `FieldPaths.PlainKeyPresent` | src/ut_kvp.c:545-556 | a key without `.` and `/` is present iff it is a key of a mapping root or spells in decimal an index that a sequence root has |
| `FieldPaths.DottedKeyDescends` | src/ut_kvp.c:545-556 | `a.b` and `a/b` are present iff `a` names a child of the root, by key or by index, and `b` is present in it |
| `FieldPaths.SeparatorsCollapse` | src/ut_kvp.c:545-556 | a separator in front of a key adds nothing, and an empty key is the root |
| `FieldPaths.LongKeyIsCut` | src/ut_kvp.c:875-878 | a key without dots is looked up by its first 255 characters |
| `Callbacks.InvokedExactly` | src/ut_control_plane.c:162-170 | the entries called are exactly the examined ones with a present key, in registration order, each once |
| `Callbacks.Table.Register` | src/ut_control_plane.c:501-540 | appends an entry, or reports a NULL argument or a full table and changes nothing |
| `Callbacks.RegisterCallbackOnMessage` | src/ut_control_plane.c:501-540 | a NULL handle is reported first; otherwise OK means that the entry was appended, and any other status that nothing changed |
| `Callbacks.Table.CallOnMatch` | src/ut_control_plane.c:162-170 | the dispatch loop calls those entries |
| `ControlPlaneInvariants.StepInv` | src/ut_control_plane.c:97-254 | every step of every thread keeps all invariants |
| `ControlPlaneInvariants.MutexStep` | src/ut_control_plane.c:97-141 | at most one thread is inside a critical section |
| `ControlPlaneInvariants.WakeupStep` | src/ut_control_plane.c:106-119 | a consumer sleeps on a non-empty queue only while its signal is on the way |
| `ControlPlaneInvariants.OrderStep` | src/ut_control_plane.c:97-141 | accepted = dequeued ++ queue, and dequeued = dispatched ++ what is in hand |
| `ControlPlaneInvariants.BuffersStep` | src/ut_control_plane.c:100-107 | every allocated buffer stays in exactly one place |
| `ControlPlaneInvariants.ConsumedStep` | src/ut_control_plane.c:205-244 | what was dequeued is in hand or freed |
| `ControlPlaneInvariants.BytesStep` | src/ut_control_plane.c:347-360 | a message carries the bytes its buffer was filled with |
| `ControlPlaneInvariants.HttpStep` | src/ut_control_plane.c:321-364 | session buffers hold the chunks accepted since the last completion |
| `ControlPlaneInvariants.CompletionsStep` | src/ut_control_plane.c:341-362 | every buffer was filled by a completion |
| `ControlPlaneInvariants.TableStep` | src/ut_control_plane.c:530-537 | published table entries are never rewritten, also while one is being written |
| `ControlPlaneInvariants.RoundsStep` | src/ut_control_plane.c:162-170 | a dispatch has called the right entries so far, with registrations going on |
| `ControlPlaneInvariants.DispatchesStep` | src/ut_control_plane.c:143-173 | the dispatched messages that parsed are those of the finished rounds and of the dispatch going on, in order |
| `ControlPlaneInvariants.RegisteredStep` | src/ut_control_plane.c:530-537 | the published table is the log of completed registrations |
| `ControlPlaneInvariants.RestStep` | src/ut_control_plane.c:478-499 | while no thread runs and no EXIT was handled, the queue is empty and the mutex free |
| `ControlPlaneInvariants.NumberedStep` | src/ut_control_plane.c:341-362 | buffers of accepted messages, and of completions, are strictly increasing |
| `ControlPlaneRuns.DispatchedInOrder` | src/ut_control_plane.c:205-244 | in every interleaving the dispatched messages are an in-order prefix of those accepted before the first EXIT, and all of them once it was handled |
| `ControlPlaneRuns.NothingDispatchedAfterExit` | src/ut_control_plane.c:205-218 | once an EXIT was handled nothing is dequeued or dispatched again, whatever Start does |
| `ControlPlaneRuns.DispatchOrderIsCompletionOrder` | src/ut_control_plane.c:205-360 | messages are dispatched in the order in which their HTTP requests completed, over all sessions |
| `ControlPlaneRuns.BufferInExactlyOnePlace` | src/ut_control_plane.c:347-360 | in every reachable state an allocated buffer is in exactly one of hand-off, queue, in flight, freed, refused |
| `ControlPlaneRuns.NoUseAfterFree` | src/ut_control_plane.c:236-243 | no buffer is freed twice and no callback runs on a freed buffer |
| `ControlPlaneRuns.MessagesAreReassembled` | src/ut_control_plane.c:321-364 | each completed message is the concatenation of its session's accepted chunks since the previous completion, below 4096 bytes |
| `ControlPlaneRuns.DequeuedMessagesAreReassembled` | src/ut_control_plane.c:347-360 | end to end, a dequeued message has the bytes one completion assembled from its session's chunks, and is dequeued once only |
| `ControlPlaneRuns.DequeuedBuffersAreFreed` | src/ut_control_plane.c:236-243 | every dequeued buffer is freed exactly once, except the one in hand |
| `ControlPlaneRequests.LogIsRequests` | src/ut_control_plane.c:318-364 | the HTTP log of a run holds exactly the requests that arrived |
| `ControlPlaneRequests.BodyBecomesMessage` | src/ut_control_plane.c:321-364 | a body below 4096 bytes that arrives in any chunks, with any other session and thread in between, becomes a message with exactly its bytes |
| `ControlPlaneRequests.BodyCanArrive` | src/ut_control_plane.c:318-364 | a web service that waits for events can receive any such body |
| `ControlPlaneCallbacks.DispatchedAreHandled` | src/ut_control_plane.c:205-227 | the dispatched messages of a run are exactly the data messages handled, with the results of parsing them |
| `ControlPlaneCallbacks.ParsedMessagesGetRounds` | src/ut_control_plane.c:143-173 | the finished rounds are those of the dispatched messages that parsed, in order, less the one going on |
| `ControlPlaneCallbacks.HandledMessageCallsEntries` | src/ut_control_plane.c:205-227 | a handled message that parses has called, once its dispatch is over, every entry registered when it was handled whose key is present, and besides only matching entries registered meanwhile |
| `ControlPlaneCallbacks.DispatchCallsEntries` | src/ut_control_plane.c:162-170 | a dispatch also calls every matching entry that is registered while it goes on |
| `ControlPlaneCallbacks.TableIsRegistrations` | src/ut_control_plane.c:530-537 | in every reachable state the published table is the log of completed registrations, at most 32 |
| `ControlPlaneCallbacks.RegistrationAppendsEntry` | src/ut_control_plane.c:530-537 | in every interleaving a registration appends exactly its entry by the time it returns, and with a full table changes nothing |
| `ControlPlaneCallbacks.RegistrationCompletes` | src/ut_control_plane.c:534-537 | a registration never waits for another thread |
| `ControlPlaneRuns.TableOnlyGrows` | src/ut_control_plane.c:530-537 | over any run the table only grows, to at most 32 entries, and no entry changes |
| `ControlPlaneRuns.CallbacksExactlyOnMatch` | src/ut_control_plane.c:143-173 | each finished dispatch called precisely the examined entries whose key is present, all entries registered before it among them |
| `ControlPlaneRuns.DotAndSlashKeysAgree` | src/ut_kvp.c:512-557 | entries whose keys differ only in `.` and `/` are called for the same messages |
| `ControlPlaneRuns.NoLostWakeup` | src/ut_control_plane.c:115-119 | while no thread holds the mutex, a parked consumer means an empty queue |
| `ControlPlaneShutdown.LoopEndsInTime` | src/ut_control_plane.c:205-244 | with an accepted EXIT at index p the thread leaves its loop within 64(p + 1) + 60 own steps, in every interleaving |
| `ControlPlaneShutdown.ExactlySoManyDequeues` | src/ut_control_plane.c:205-244 | it handles the EXIT after exactly p + 1 more dequeues |
| `ControlPlaneProgress.SomeoneCanMove` | src/ut_control_plane.c:97-141 | no deadlock: a state machine thread in its loop that does not sleep on an empty queue can move, or the holder of the mutex can; a sleeper on a non-empty queue is signalled next |
| `ControlPlaneProgress.SpuriousWakeupIsHarmless` | src/ut_control_plane.c:115-119 | a consumer woken without a signal finds the queue empty and sleeps again |
| `ControlPlaneStop.StopJoinsBothThreads` | src/ut_control_plane.c:246-252 | Stop returns only after the state machine thread has ended, which ends only after an EXIT was handled and the web service thread has ended |
| `ControlPlaneStop.HangsForever` | src/ut_control_plane.c:478-499 | without an accepted EXIT a waiting Stop waits in every continuation |
| `ControlPlaneStop.StopReturnsIffExitAccepted` | src/ut_control_plane.c:478-499 | a waiting Stop can still return if and only if an EXIT was accepted |
| `ControlPlaneStop.FullQueueDecides` | src/ut_control_plane.c:99-108 | Stop can return if and only if the queue has room at the length test or an earlier EXIT is on its way |
| `ControlPlaneStop.SomeStopHangs` | src/ut_control_plane.c:488-497 | a state in which Stop never returns is reachable |
| `ControlPlaneStop.ReturnOnceAccepted` | src/ut_control_plane.c:478-499 | with an accepted EXIT there is a schedule on which Stop returns, with the handle cleared and the exit flag set |
| `ControlPlaneRestart.StartServesIffNeverStopped` | src/ut_control_plane.c:465-476 | on an instance at rest, Start leads to a dispatch in some continuation if and only if the exit flag is clear |
| `ControlPlaneRestart.SomeRestartServesNothing` | src/ut_control_plane.c:205-218 | a state after a completed Stop, in which a further Start dispatches nothing in any continuation, is reachable |
| `ControlPlaneLeaks.RefusedForever` | src/ut_control_plane.c:99-108 | a buffer refused by a full queue stays refused and is not freed, in every continuation |
| `ControlPlaneLeaks.ComingIsFreed` | src/ut_control_plane.c:205-243 | from every state there is a schedule that frees a buffer that is in hand or queued before any EXIT |
| `ControlPlaneLeaks.FreedIffBeforeExit` | src/ut_control_plane.c:205-243 | once its message has left the web service thread, some continuation has a buffer freed if and only if the message was accepted before any EXIT |
| `ControlPlaneLeaks.SomeRefusedBufferLeaks` | src/ut_control_plane.c:347-360 | a state with a refused buffer that no continuation frees is reachable |
| `ControlPlaneLeaks.SomeAcceptedBufferLeaks` | src/ut_control_plane.c:445-463 | so is one with an accepted buffer that no continuation frees, where nothing was ever refused |

## Left out

- YAML and JSON parsing and emitting, anchors, aliases and merge keys: libfyaml is not part of this model; trees are given as parsed, and a failed `fy_document_resolve` counts as a malformed file.
- Pairs without a key or value node and keys that are no scalars: the source skips the former; the modelled trees do not have them.
- Path lookup inside libfyaml: reduced to mapping keys and sequence indices without signs; empty components are assumed to be skipped.
- curl, HTTP status codes and file I/O: a target is absent, malformed, empty or a document, and stays the same during a run; in particular a path that `access` finds is assumed readable.
- `ut_kvp_openMemory` on an instance that already holds data: its merge is overwritten by the following root assignment.
- `ut_kvp_getField` and the float, double, boolean, string and list getters: they depend on `fy_document_scanf`, strtof, strtod, or only look a node up.
- Allocation failures, magic numbers, raw memory layout, and dotted or registered keys of 256 characters or more, which have no room in their buffers: preconditions or left out; a byte list is shorter than 2^31.
- `UT_ControlPlane_Exit` is not a step: it stops the control plane, and then frees the instance and no message buffer.
- `unsigned long` of 32 bits and locales other than C: strtoul is modelled for 64 bits and the C locale.
- In-place update of the trees: the copier and the merge work on tree values, so node sharing and ownership inside libfyaml are not captured.
- The NULs that strtok writes into its private copy of the text: the model keeps the rest of the text instead.
- A second Start while the state machine thread runs, and Start, Stop or Register called from a callback: one consumer and one application thread are assumed, and a callback returns.
- Weak memory: the threads' accesses to the exit flag and the callback table are interleaved sequentially consistently, as the source assumes.
- Closing of HTTP sessions and the URI check: a session here lasts for the whole run.
- The `WEBSOCKET_SERVER` variant, `UT_Control_GetMapValue`, `UT_Control_GetMapString`, log formatting and file names: easy or I/O only.
