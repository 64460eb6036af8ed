# esptool: models and proofs

esptool drives a Windows event client library: it parses rule files, compiles their predicates into
filter handles, installs rules through a driver that may refuse any of them, patches the client in
memory for event types it would not enforce, pumps notifications, and starts a worker copy of
itself over a quoted command line. This project models the stateful parts of that in Dafny and
proves what they promise. `dafny verify dfyconfig.toml` checks everything.

| file | part of the program |
|---|---|
| `Wrappers.dfy`, `Sequences.dfy` | optional values, outcomes, the elements of a sequence |
| `StrHelpers.dfy` | number parsing and trimming |
| `SameImage.dfy`, `Options.dfy`, `OptionSpelling.dfy` | quoting and option parsing |
| `WorkerHop.dfy`, `HopReread.dfy`, `HopExamples.dfy` | the trust plan and the hop to the worker: its parts, when it works, and some command lines |
| `EnforceCompat.dfy`, `EnforceSites.dfy` | the byte-signature search and the transactional patch, and its sites in bytes |
| `RuleDocument.dfy`, `RuleParser.dfy` | the rule parser |
| `RuleMeaning.dfy`, `DocumentMeaning.dfy`, `LeafNumbers.dfy` | the meaning of rules, of whole documents, and of the numbers in a leaf |
| `RulePrinting.dfy`, `FilePrinting.dfy` | the printers of trees and of files that the parser undoes |
| `EspFilterBuild.dfy`, `FilterArity.dfy`, `RuleToFilter.dfy` | filter compilation, when it keeps the meaning, and after the parser |
| `EspRuleAbi.dfy`, `EspFilterAttach.dfy`, `EspRuleInstall.dfy`, `EspRuleSlots.dfy` | the install engine on paper, where a rule's filter goes, and the steps of its loops |
| `EspHandles.dfy`, `HandleLog.dfy`, `EspDriver.dfy`, `EspRefs.dfy`, `EspSession.dfy` | handle ownership: lists and logs, the driver, references on paper, and the session object |
| `EspRequests.dfy` | what a notification's query asks of the library, on paper |
| `EspRegistration.dfy`, `Commands.dfy` | client identities and the commands that decide about them |
| `NotificationPump.dfy` | the pump with its asynchronous deliveries |
| `PipeChannel.dfy` | framing over a byte stream |

## How to read it

A method that loops over mutable state is proved against a function or a predicate of the same
inputs; the theorems are about that function. The driver, the registry and the pipe are classes
whose methods answer arbitrarily, so a proof about a caller holds for every pattern of refusals.
They also keep logs of what they were asked and count what they refused, so that a caller's
contract says which calls it made, and a failure has to be traced to a refusal.
Their preconditions say what they ask of a caller: a handle must be open to be closed, and a
predecessor must be armed when a rule is armed over it, so a method that verifies never does
either wrong. Lemmas named `…Says` and `…ExactlyWhen` state in the program's own numbers and names
what the functions give that the methods are proved against.

The lists of `EspSession` hold handles. `Owned` says that a list and the set of open handles agree,
each handle once, apart from those `floating` in the hands of a caller; `Dense` says that in
addition no slot is empty. A handle's number may come back after it was closed; "closed exactly
once" is therefore said of the driver's logs, one for filters, one for rules and one for
references, in which every closing has an opening of its own (`ReplayedLogs`).

## Results that are not what one would expect

Where a promise fails for some inputs, the model keeps the code as it is, a lemma gives such an
input, and another lemma says when the promise holds.

- `BuildCommandLine` does not carry every image path to argv[0]: not one that holds a quote, nor one
  that gets wrapped in quotes and ends in a backslash (`CommandLineRoundTrip`). The program calls it
  with the path of its own module, which is neither.
- After an end-of-options marker the worker reads the switches that the hop appends as positional
  arguments (`SwitchesAfterMarkerArePositional`; `WorkerHopKeepsMeaning` says when the hop works).
- The value "--worker" of a flag is dropped on the way, and the child may fail to parse
  (`WorkerAsValueIsLost`) or not (`WorkerAsValueMaySurvive`); `WorkerHopKeepsMeaning` says when.
- A switch that the trust plan added is not appended when another token happens to spell it. The
  child's options then differ from the parent's until it has planned for itself
  (`WorkerHopKeepsOptions`, `MaskedSwitchIsPlannedAgain`); the hop is not harmed.
- Only two children of a combinator, and two top-level predicates of a rule, reach the driver
  (`ThirdChildIsLost`, `TopLevelPredicatesAreCut`; `PreservedExactlyWhen` says when that matters).
- Not every rule reaches the driver with the filter that was built for it, a process-create rule
  never (`ProcessCreateCarriesNone`; `CarriedExactlyWhen` says which do).
- A root element without content is refused as not closed (`DocumentParses`).
- A collection leaf whose comparand is zero is read back with comparand 4 (`PrintThenParse`).
- A session that registered one identity and is then refused another asks for the removal of the
  other when it disconnects (`ForeignIdentityIsRemoved`). The commands connect each session once,
  where this cannot happen (`RunsRemoveOnlyTheirOwn`).
- With a maximum of zero the pump stops with its first buffer still armed
  (`StopsUnarmedExactlyWhen`).
- A comment in the search (`esptool/src/esp/EspEnforceCompat.cpp:327`) speaks of global uniqueness,
  but a hint that validates ends the search (`HintHidesAnotherSite`; `FoundIsUniqueExactlyWhen`).

## Model

| member | source | states |
|---|---|---|
| StrHelpers.ParseUnsigned | esptool/src/util/StrHelpers.cpp:127-158 | the digit loop with its division guard succeeds exactly on trimmed decimal or 0x-hex numerals of mathematical value at most 2^64-1, and returns that value |
| StrHelpers.OverflowGuardIsExact | esptool/src/util/StrHelpers.cpp:148-153 | the division-based test rejects a digit exactly when the next value would leave 64 bits |
| StrHelpers.ParseSigned32 | esptool/src/model/RuleParser.cpp:100-120 | accepts exactly the signed numerals in [-2^31, 2^31-1], the two's-complement cast of the negative branch included |
| StrHelpers.TrimRange | esptool/src/util/StrHelpers.cpp:71-81 | the two index loops compute the longest part without space at either end |
| StrHelpers.TrimSplits | esptool/src/util/StrHelpers.cpp:71-81 | trimming takes away space only, and all of it at both ends |
| StrHelpers.SignedDecimalRoundTrip | esptool/src/model/RuleParser.cpp:100-120 | every integer printed in signed decimal is read back as itself |
| StrHelpers.NumeralExactlyWhen | esptool/src/util/StrHelpers.cpp:127-158 | which texts are numerals: decimal digits only, or 0x or 0X and at least one of the 22 hexadecimal digits |
| StrHelpers.HexadecimalRoundTrip | esptool/src/util/StrHelpers.cpp:127-158 | every number printed in hexadecimal, in either case of letters and with either prefix, is read back as itself |
| StrHelpers.HexDigits | esptool/src/util/StrHelpers.cpp:15-26 | the digits of both cases in the order of their values, and no other character |
| StrHelpers.SpaceIsExactly | esptool/src/util/StrHelpers.cpp:28-31 | white space is the six ASCII characters |
| StrHelpers.FoldMovesCapitals | esptool/src/util/StrHelpers.cpp:33-36 | folding moves the 26 capitals onto the small letters and nothing else |
| SameImage.QuoteArgument | esptool/src/process/SameImage.cpp:35-64 | the backslash-counting loop writes the quoted form whose meaning the scanner lemmas fix |
| SameImage.QuotedArgumentScans | esptool/src/process/SameImage.cpp:35-64 | in front of any further arguments, one quoted argument is scanned back by the C runtime as itself and the scan stops right after it |
| SameImage.BuildCommandLine | esptool/src/process/SameImage.cpp:86-94 | the loop builds the quoted image followed by each quoted argument after one blank |
| SameImage.CommandLineRoundTrip | esptool/src/process/SameImage.cpp:35-94 | the child's argv is [image] + arguments if and only if nothing holds a NUL, the image holds no quote, and an image that gets quotes does not end in a backslash |
| SameImage.QuotedOnlyIfNeeded | esptool/src/process/SameImage.cpp:35-44 | an argument is written as it is unless it is empty or holds a blank, tab, line feed, vertical tab or quote |
| Options.ParseOptions | esptool/src/cli/Options.cpp:140-235 | the index loop over argv, value taking and conflict checks included, computes `Parsed` of the tokens after the program name |
| Options.ReadFlag | esptool/src/cli/Options.cpp:165-207 | one flag branch: text, switch, worker and counted flags in the source's order, with the same errors |
| Options.TakeValue | esptool/src/cli/Options.cpp:32-47 | an inline value after the equals sign, or the next token, or a missing-value error |
| OptionSpelling.TextFlagReads | esptool/src/cli/Options.cpp:22-47 | for every text flag and every value, both spellings set that flag to that value and nothing else |
| OptionSpelling.SwitchReads | esptool/src/cli/Options.cpp:77-101 | every boolean flag turns its own switch on and nothing else, with or without a value behind an equals sign; -h and -v are the long flags |
| OptionSpelling.CountFlagReads | esptool/src/cli/Options.cpp:108-207 | every counted flag, in both spellings, sets its number and is remembered as given unless it is the lifetime, or refuses a text that is no 32-bit numeral |
| OptionSpelling.CountOfNumber | esptool/src/cli/Options.cpp:122-132 | decimal and hexadecimal prints of numbers are taken up to 2^32-1 and refused beyond |
| OptionSpelling.FlagNames | esptool/src/cli/Options.cpp:54-113 | the flags of the three kinds, by name |
| OptionSpelling.ValueIsMissing | esptool/src/cli/Options.cpp:32-47 | a valued flag at the end of the line lacks its value |
| OptionSpelling.UnknownFlagIsRefused | esptool/src/cli/Options.cpp:206-207 | any other token that looks like a flag is refused |
| OptionSpelling.WordReads | esptool/src/cli/Options.cpp:146-163 | the first word is the command, later ones and everything after the marker are positional; a lone dash is a word |
| OptionSpelling.ConflictsSay | esptool/src/cli/Options.cpp:209-233 | which pairs of flags and which permissions are refused after the loop |
| OptionSpelling.DefaultsSay | esptool/src/cli/Options.h:14-60 | what an empty line means |
| WorkerHop.ChildPlansTheSame | esptool/src/cli/Options.cpp:395-464 | under the same probe the child plans its parent's provisioning, target, stamp and cleaning, without a hop |
| WorkerHop.EvaluateTrustPlan | esptool/src/cli/Options.cpp:395-464 | the step-by-step assignments give the plan of the precedence rules |
| WorkerHop.PlanSays | esptool/src/cli/Options.cpp:395-464 | the plan switch by switch: when provisioning is off and when by itself, which permission is the target, and exactly when a stamp, a cleaning and a child are needed |
| WorkerHop.NoPermission | esptool/src/cli/Options.cpp:367-377 | without a permission the target is 2 under PPL and 1 otherwise |
| WorkerHop.WorkerNames | esptool/src/cli/Options.cpp:383-393 | the commands that work in a child, and the four switches that it must see |
| WorkerHop.EffectiveSays | esptool/src/cli/Commands.cpp:1602-1612 | the effective switches are those given and those the plan adds |
| WorkerHop.LaunchArguments | esptool/src/process/SameImage.cpp:258-284 | the child's tokens: the worker flag, the parent's tokens without worker flags, and each effective switch that no token spells |
| WorkerHop.MissingSays | esptool/src/process/SameImage.cpp:266-283 | each of the four switches is appended exactly if it is on and not spelled, in this order |
| WorkerHop.WorkerArguments | esptool/src/process/SameImage.cpp:96-107 | the loop drops every worker token and puts one in front |
| HopReread.WorkerHopKeepsMeaning | esptool/src/cli/Commands.cpp:1589-1625 | for every command line that a parent can hop with: the child parses, and under the same probe its own plan leads it to the parent's effective options with the worker flag on, if and only if the tokens left to it read as the same words, with no switch too many, and each switch that lacks is planned again; if no flag takes the value "--worker", if and only if no end-of-options marker was used, or after one nothing had to be appended and no worker token dropped |
| HopReread.ChildRereads | esptool/src/process/SameImage.cpp:258-284 | how the child reads its tokens, errors included: the kept tokens plus the missing switches, which are positionals after a marker, and the first of which is the value of a last flag that lacks one |
| HopReread.RecoversExactlyWhen | esptool/src/cli/Options.cpp:395-464 | a child that reads some options arrives at its parent's effective ones if and only if it has the same words, no switch too many, and plans each lacking switch again |
| WorkerHop.PlanRestores | esptool/src/cli/Options.cpp:395-436 | a child that reads only some of the switches its parent's plan added plans the others again |
| HopReread.WorkerHopKeepsOptions | esptool/src/process/SameImage.cpp:96-284 | the parse alone: the child's tokens parse to the parent's effective options if and only if they read as the same words and switches; if no flag takes the value "--worker", if and only if in addition to the above no switch that the plan added is spelled by a value or word |
| WorkerHop.ChildReads | esptool/src/process/SameImage.cpp:258-284 | how the child reads its tokens: the parent's options plus the missing switches, or plus positionals after a marker |
| WorkerHop.UnreadWorkerIsPositional | esptool/src/process/SameImage.cpp:29-31 | a worker token the parent did not read as a flag stands after an end-of-options marker |
| WorkerHop.WorkerNeverHops | esptool/src/cli/Options.cpp:440-464 | a child that parses never plans another hop, whatever it probes: hop chains have length at most one |
| HopReread.HopThroughCommandLine | esptool/src/process/SameImage.cpp:35-284 | quoting, C-runtime splitting, parsing and the child's plan composed: both if-and-only-ifs of the hop hold of the argv that the child gets from its command line |
| HopExamples.MaskedSwitchIsPlannedAgain | esptool/src/process/SameImage.cpp:266-283 | for every text flag, a command line that needs a child, whose child does not read the effective --no-provision because a value spells it, and still arrives at the effective options |
| HopExamples.SwitchesAfterMarkerArePositional | esptool/src/process/SameImage.cpp:266-283 | command lines with an end-of-options marker that need a child, whose child gets the appended switches as positional arguments and so other options than its parent's |
| HopExamples.WorkerAsValueIsLost | esptool/src/process/SameImage.cpp:96-107 | for every text flag, a command line that needs a child and gives the flag the value "--worker", which is dropped, so that the child fails to parse |
| HopExamples.WorkerAsValueMaySurvive | esptool/src/process/SameImage.cpp:96-107 | for every text flag, command lines that do so and whose child still gets its parent's options |
| WorkerHop.ParseAppend | esptool/src/cli/Options.cpp:140-235 | reading a concatenation is reading the first part and then the second from its result |
| WorkerHop.WorkerRidesAlong | esptool/src/cli/Options.cpp:140-235 | the worker flag changes nothing else about what a token list means |
| EnforceCompat.ValidateCandidateSite | esptool/src/esp/EspEnforceCompat.cpp:219-289 | the check with its two bounded anchor scans holds exactly for valid sites |
| EnforceCompat.FindFromFfiPatchSite | esptool/src/esp/EspEnforceCompat.cpp:293-364 | reports a unique candidate, ambiguity, or not found; not found exactly when no executable section holds a valid site; a found position is valid, without a validating hint it is found exactly if it is the only valid one, and after one it is the only one exactly if no position but a hint is valid |
| EnforceCompat.ScanSections | esptool/src/esp/EspEnforceCompat.cpp:331-349 | the full scan collects every valid site of every section, once |
| EnforceCompat.CheckHints | esptool/src/esp/EspEnforceCompat.cpp:306-329 | the hint loop collects exactly the hints that validate in the first section that holds them |
| EnforceCompat.LocationIsUnique | esptool/src/esp/EspEnforceCompat.cpp:351-363 | at most one answer is right for an image |
| EnforceCompat.FoundIsUniqueExactlyWhen | esptool/src/esp/EspEnforceCompat.cpp:306-349 | without a validating hint a position is found exactly if it is the only valid one in all sections, as the comment asks; after one, the answer says no more than that nothing but hints may be valid |
| EnforceCompat.HintHidesAnotherSite | esptool/src/esp/EspEnforceCompat.cpp:327-328 | an image on which a hint is reported though another position is valid too |
| EnforceCompat.AnchorsAvoidPatch | esptool/src/esp/EspEnforceCompat.h:58-73 | no anchor can overlap the six patched bytes at any offset |
| EnforceCompat.CompareAvoidsPatch | esptool/src/esp/EspEnforceCompat.h:58-66 | a compare or patched compare that overlaps the six patched bytes is at the same position |
| EnforceCompat.PatchKeepsSite | esptool/src/esp/EspEnforceCompat.cpp:219-289 | a valid site stays valid once it is patched |
| EnforceCompat.PatchMakesNoSite | esptool/src/esp/EspEnforceCompat.cpp:219-289 | patching makes no other position valid, overlapping windows included |
| EnforceCompat.PatchIsLocatedAgain | esptool/src/esp/EspEnforceCompat.cpp:293-364 | after the patch the search finds the same single site |
| EnforceCompat.RewriteSite | esptool/src/esp/EspEnforceCompat.cpp:406-455 | the write with its roll-back: all six bytes are rewritten on success and every byte is as before on failure, also when restoring the protection fails |
| EnforceCompat.ApplyFromFfiCompatPatch | esptool/src/esp/EspEnforceCompat.cpp:366-455 | all or nothing: an error leaves every byte unchanged and happens exactly when the patch cannot apply, success rewrites the located site and nothing else |
| EnforceCompat.PatchIsIdempotent | esptool/src/esp/EspEnforceCompat.cpp:366-418 | a second application locates the same site, succeeds whatever the protection calls answer, and changes nothing |
| EnforceSites.ValidExactlyWhen | esptool/src/esp/EspEnforceCompat.cpp:219-289 | a valid site byte by byte: the compare with 2000 or its patch, a short jump 74 or a near jump 0F 84 behind it, the compare with 7999 from 16 to 6 bytes before and the one with 3007 up to 18 bytes behind the jump |
| EnforceSites.MeasuredBlockIsSite | esptool/src/esp/EspEnforceCompat.h:27-53 | on every image that holds the instructions of the measured builds, with any distances in its jumps, the compare is a site |
| EnforceSites.StretchedIsSiteExactlyWhen | esptool/src/esp/EspEnforceCompat.h:75-82 | up to 10 bytes may lie between the first anchor and the compare and up to 18 before the second; 11 or 19 are too many |
| EnforceSites.HintsExactlyWhen | esptool/src/esp/EspEnforceCompat.cpp:306-329 | the two hints, each valid in the first section that holds its six bytes |
| EnforceSites.PatchWrites | esptool/src/esp/EspEnforceCompat.cpp:425-433 | the six bytes that are written, and no other |
| RuleParser.DocumentParser.Parse | esptool/src/model/RuleParser.cpp:197-412 | the event loop over its mutable fields computes `ParseEvents` |
| RuleParser.DocumentParser.StartTag | esptool/src/model/RuleParser.cpp:227-348 | the branches of a start tag update the fields as the abstract step says, with the same error |
| RuleParser.DocumentParser.EndTag | esptool/src/model/RuleParser.cpp:349-383 | the branches of an end tag, likewise |
| RuleParser.ParseLeafAttributes | esptool/src/model/RuleParser.cpp:560-599 | reading a leaf gives its fields or the first bad number; a collection name implies the collection comparand |
| LeafNumbers.LeafIsRefusedExactlyWhen | esptool/src/model/RuleParser.cpp:560-599 | a leaf is refused if and only if one of type, comparand, operand and property is there and no numeral of its range, with the first of them in this order |
| LeafNumbers.LeafFieldsRead | esptool/src/model/RuleParser.cpp:560-599 | otherwise each field has the value its text reads as, or zero; a collection makes of a zero comparand 4 |
| LeafNumbers.FoundIsFirst | esptool/src/model/RuleParser.cpp:65-87 | an attribute is the first of its name in any case of letters |
| LeafNumbers.BadFilterIsRefused | esptool/src/model/RuleParser.cpp:319-327 | a rule body fails with the number of its first refused filter |
| LeafNumbers.BadNumberRejectsDocument | esptool/src/model/RuleParser.cpp:319-327 | a document whose rule holds such a filter is rejected, with the name of the number |
| RuleMeaning.NodeRuns | esptool/src/model/RuleParser.cpp:227-392 | from any state inside a rule, the events of an XML node extend the innermost open combinator by the node's recursive meaning, error for error |
| RuleMeaning.BodyRuns | esptool/src/model/RuleParser.cpp:227-392 | the same for the content of an element: unknown elements are transparent, a filter contributes its leaf and then its content |
| RuleMeaning.RuleRuns | esptool/src/model/RuleParser.cpp:360-371 | a rule element adds the rule it describes, and the stack is empty at its end tag |
| DocumentMeaning.PartsRun | esptool/src/model/RuleParser.cpp:227-392 | from any state outside rules and entries, in a collection or not, the events of a list of elements add exactly the rules, collections and entries of its recursive meaning, error for error; unknown elements are transparent |
| DocumentMeaning.DocumentParses | esptool/src/model/RuleParser.cpp:197-412 | a document parses to its recursive meaning, error for error, the checks of the root included, if its collections hold no rule or collection and its entries only text |
| RuleMeaning.EndTagCloses | esptool/src/model/RuleParser.cpp:349-359 | one end tag: around content that gives the open combinators back, it pops a node of its own kind |
| RuleMeaning.DocumentEndEvents | esptool/src/model/RuleParser.cpp:349-359 | every end event of a combinator in a well-formed document that the parser reaches pops a node of its own kind, although the code does not compare them |
| RuleMeaning.ForestEndEvents | esptool/src/model/RuleParser.cpp:349-359 | the same for any well-formed content read from any state in which the rule's structure is intact |
| RuleMeaning.NodeIsBalanced | esptool/src/model/RuleParser.cpp:349-359 | over well-formed XML with any tags the open combinators come back and the mismatched error is unreachable |
| RuleMeaning.DocumentsAreStructurallySound | esptool/src/model/RuleParser.cpp:394-412 | a well-formed document fails only with an error of its content: the checks after the loop never fire |
| RulePrinting.LeafReadsBack | esptool/src/model/RuleParser.cpp:560-599 | a leaf printed as attributes reads back as itself, up to the implied comparand |
| RulePrinting.PrintedNodeReadsBack | esptool/src/model/RuleParser.cpp:328-347 | a printed tree inside any number of open combinators reads back as itself if it fits under 16, and gives the depth error otherwise |
| RulePrinting.PrintThenParse | esptool/src/model/RuleParser.cpp:328-599 | print then parse is the identity if and only if combinators are nested at most 16 deep and every collection leaf names its comparand |
| RulePrinting.PrintedDocumentParses | esptool/src/model/RuleParser.cpp:335-338 | any deeper tree is rejected as too deep |
| FilePrinting.FileReadsBack | esptool/src/model/RuleParser.cpp:197-412 | a printed file reads back, collections with their entries and rules with their queries in order, each filter with its implied comparands, or is rejected if a filter is nested deeper than 16 |
| FilePrinting.PrintThenParseFile | esptool/src/model/RuleParser.cpp:197-412 | print then parse is the identity on a whole file if and only if every filter is nested at most 16 deep and names the comparand of every collection leaf |
| DocumentMeaning.RefusedOutside | esptool/src/model/RuleParser.cpp:245-334 | what belongs into a rule is refused outside of one, and an entry outside of a collection |
| DocumentMeaning.RefusedInside | esptool/src/model/RuleParser.cpp:245-339 | rules, collections and entries are refused in a rule, and a combinator inside 16 others |
| RuleToFilter.ImplicitAndMeansAll | esptool/src/model/RuleParser.cpp:423-438 | the node made of several top-level predicates holds exactly when all of them hold |
| RuleToFilter.TopLevelPredicatesAreCut | esptool/src/esp/EspFilterBuild.cpp:190-231 | the compiled object of such a rule looks at its first two predicates only, so it may match more but never less |
| RuleToFilter.FileToDriver | esptool/src/model/RuleParser.cpp:197-438 | a printed tree, parsed and compiled, matches under a valuation exactly when the tree holds |
| EspRuleAbi.EnforceCompatSet | esptool/src/esp/EspEnforceCompat.h:164-253 | the enforce set is exactly the disposition-writing types and disjoint from every type with a modify kind of its own |
| EspRuleAbi.EnforceableEvents | esptool/src/esp/EspEnforceCompat.h:129-147 | the event types that can be enforced, with the patch and without |
| EspFilterBuild.CompiledMeansCut | esptool/src/esp/EspFilterBuild.cpp:190-231 | the constructor graph of any buildable tree evaluates as the tree cut to the children that are sent |
| EspFilterBuild.CompilationPreservesMeaning | esptool/src/esp/EspFilterBuild.cpp:190-231 | for exact arities the graph evaluates as the source tree under every valuation |
| EspFilterBuild.CutIsIdentity | esptool/src/esp/EspFilterBuild.cpp:190-231 | nothing is cut if and only if every combinator has the number of children its constructor takes |
| FilterArity.PreservedExactlyWhen | esptool/src/esp/EspFilterBuild.cpp:190-231 | over trees whose leaves are all different calls, object and tree agree under every valuation if and only if every combinator has the number of children its constructor takes |
| FilterArity.Steer | esptool/src/esp/EspFilterBuild.cpp:190-231 | tree and object can both be steered to either truth value by the tree's own leaves |
| EspFilterBuild.ThirdChildIsLost | esptool/src/model/RuleParser.cpp:423-424 | for every binary kind, a third child can change the tree's truth value and never the object's |
| EspFilterBuild.LeafCallSays | esptool/src/esp/EspFilterBuild.cpp:19-100 | which field of a leaf goes to which constructor argument, and which leaves have a constructor |
| EspFilterBuild.TreeCallsSay | esptool/src/esp/EspFilterBuild.cpp:190-231 | which trees are built and from which children, each in its place |
| EspFilterBuild.JoinSays | esptool/src/esp/EspFilterBuild.cpp:66-75 | the binary constructors by their truth tables |
| EspSession.EspSession.CreateFilterTree | esptool/src/esp/EspFilterBuild.cpp:190-231 | for every pattern of refusals, every handle made is returned, in the session's list once, or closed; the returned handle stands for the compiled tree; it succeeds exactly if the tree is buildable and no call was refused |
| EspSession.EspSession.CreateBinaryFilter | esptool/src/esp/EspFilterBuild.cpp:163-176 | both operands move into the session's list whatever the constructor answers |
| EspSession.EspSession.CreateNotFilter | esptool/src/esp/EspFilterBuild.cpp:178-188 | the operand moves into the list whatever the constructor answers |
| EspSession.EspSession.CreateLeafFilter | esptool/src/esp/EspFilterBuild.cpp:79-161 | a leaf is refused before the constructor exactly as its selector and property say; ownership of the result |
| EspSession.EspSession.TryBuildRuleFilter | esptool/src/esp/EspRuleInstall.cpp:224-240 | a rule's filter is kept by the session and stands for its tree; a rule without one builds nothing |
| EspRuleInstall.DocumentRequiresEnforceCompat | esptool/src/esp/EspRuleInstall.cpp:713-726 | true exactly when some rule enforces an event type of the compat set |
| EspRuleInstall.NoRuleOverDeadPredecessor | esptool/src/esp/EspRuleInstall.cpp:593-686 | over every run, a submitted selector-7 rule has an empty array, names a rule the session had before, or names the rule created just before it, which was accepted |
| EspRuleInstall.RefusalRefusesChain | esptool/src/esp/EspRuleInstall.cpp:660-686 | one refusal refuses the whole chain of selector-7 rules built on it |
| EspRuleInstall.DescriptorsAreComplete | esptool/src/esp/EspRuleInstall.cpp:520-618 | every selector-5 rule asked for carries kind 3, size 16 and a disposition instead of a queue; every selector-1 rule a non-null queue |
| EspRuleInstall.DescriptorsSayWhatRulesSay | esptool/src/esp/EspRuleInstall.cpp:495-618 | every field that the driver is asked for, read off the rule: event type, flags, lifetime 3 or 1 or its override, selector, disposition, queue, and for selector 7 the rule before it |
| EspRuleInstall.AskedExactlyWhen | esptool/src/esp/EspRuleInstall.cpp:478-590 | the driver is asked for a rule if and only if it has an event type and its filter, its override does not contradict its name, and a deny is on an enforceable event type |
| EspRuleInstall.SelectorSays | esptool/src/esp/EspRuleInstall.cpp:495-513 | the selector is overridden, or named, or numbered |
| EspRuleInstall.QueueNeededExactlyWhen | esptool/src/esp/EspRuleInstall.cpp:437-448 | a queue is needed exactly if some rule has selector 1 |
| EspRuleInstall.PatchRequiredExactlyWhen | esptool/src/esp/EspRuleInstall.cpp:713-726 | the patch is required exactly if some rule has selector 5 and an event type of the compat set |
| EspRuleInstall.SubmittedExactlyWhen | esptool/src/esp/EspRuleInstall.cpp:660-686 | a created rule is submitted unless it is chained to the one before it and that one was not accepted |
| EspRuleInstall.DenyIsEnforcing | esptool/src/esp/EspRuleInstall.cpp:498-514 | a named deny is asked for with the enforcing selector and an enforceable event, or not at all |
| EspRuleInstall.CompatFlagIsIrrelevant | esptool/src/esp/EspRuleInstall.cpp:713-726 | if no rule requires the patch, the flag and the patch cannot change which runs are possible |
| EspRuleInstall.WithoutFlagNeverComplete | esptool/src/esp/EspRuleInstall.cpp:538-545 | if a rule requires the patch and the flag is off, the install is never complete |
| EspRuleInstall.FailedMeansNothingKept | esptool/src/esp/EspRuleInstall.cpp:703-706 | the status is Failed if and only if no handle is kept |
| EspRuleInstall.CompleteMeansAll | esptool/src/esp/EspRuleInstall.cpp:707-710 | the status is Complete if and only if every rule was created and accepted |
| EspSession.EspSession.BuildDescriptor | esptool/src/esp/EspRuleInstall.cpp:495-618 | the branches of one descriptor give `Describe`, or its refusal; the patch is attempted at most once |
| EspSession.EspSession.BuildRule | esptool/src/esp/EspRuleInstall.cpp:473-640 | one turn of the build loop: the filters, the descriptor that carries them, and the create call, each exactly if the source gets there, and what each call left in the driver's books; a filter that could be had and is missing was refused in this turn |
| EspSession.EspSession.BuildRules | esptool/src/esp/EspRuleInstall.cpp:465-655 | the build loop makes one such turn for each rule of the document, whatever became of the rules before it; entries and anchors are those of the turns |
| EspRuleSlots.AllTurnsRecord | esptool/src/esp/EspRuleInstall.cpp:465-655 | what the turns of any build loop add up to: births in document order, the driver asked for exactly their descriptors, one refused call counted for each that the births tell of, every created rule asked for as born, every kept filter meaning its tree |
| EspRuleInstall.MissingFiltersWereRefused | esptool/src/esp/EspRuleInstall.cpp:473-494 | over every run, at most as many rules go without a filter they could have as there were refused calls in their own turns: one bad rule does not veto its siblings |
| EspRuleInstall.RuleCarriesItsFilter | esptool/src/esp/EspRuleInstall.cpp:620-623 | a created rule carries its filter in every slot its event type has for it, and the object there matches exactly when the compiled tree holds |
| EspSession.EspSession.AttachFilterToDescriptor | esptool/src/esp/EspRuleInstall.cpp:242-402 | the branches of the attachment put the rule's own filter in exactly the slots of its event type, and the extra image-file filter of a process-create rule in its own |
| EspFilterAttach.CarriedExactlyWhen | esptool/src/esp/EspRuleInstall.cpp:242-402 | which rules reach the driver with their filter: the event type takes any filter, or the tree has a leaf of a kind that the event type has a slot for |
| EspFilterAttach.ProcessCreateCarriesNone | esptool/src/esp/EspRuleInstall.cpp:242-402 | a process-create rule never carries its own filter |
| EspFilterAttach.SlotsByEventType | esptool/src/esp/EspRuleInstall.cpp:242-402 | the slots of a rule's filter, event type by event type |
| EspFilterAttach.SlotOfChildren | esptool/src/esp/EspFilterAttach.h:50-62 | the slot in the descriptor itself belongs to the first leaf in document order that has one |
| EspFilterAttach.LeafCounts | esptool/src/esp/EspFilterAttach.h:11-22 | a leaf counts wherever it stands in the tree |
| EspFilterAttach.ImageFilterSays | esptool/src/esp/EspRuleInstall.cpp:282-290 | the extra filter of a process-create rule is its process leaf as a file-object leaf |
| EspSession.EspSession.SubmitRules | esptool/src/esp/EspRuleInstall.cpp:657-686 | the submit loop follows the paper run for every pattern of refusals: the driver is sent exactly the submitted rules in order; a refused rule is closed and leaves an empty slot |
| EspSession.EspSession.SubmitEntry | esptool/src/esp/EspRuleInstall.cpp:670-685 | one entry: submitted only over an armed predecessor, closed once if not accepted |
| EspSession.EspSession.CompactRules | esptool/src/esp/EspRuleInstall.cpp:687-701 | the in-place compaction keeps the old rules and exactly the non-empty new slots, in order |
| EspSession.EspSession.InstallRules | esptool/src/esp/EspRuleInstall.cpp:432-711 | the driver was asked for exactly the creations and submissions of the paper run and refused exactly the filter calls that its births tell of; no handle was created twice; rules is its old contents followed by exactly the accepted handles in document order, all armed; the log of rules grew by one opening for each created handle and one closing for each that was not accepted; the status is that of the run; the notification queries are those of the rules; the guards change nothing |
| EspRuleInstall.KeptOrDropped | esptool/src/esp/EspRuleInstall.cpp:657-701 | every created handle is kept or dropped, once |
| EspRuleSlots.InstallReplays | esptool/src/esp/EspRuleInstall.cpp:432-711 | what an install adds to the log of rules replays: it ends with exactly the old and the accepted rules open, and closes nothing that is not open |
| EspRuleSlots.CompactedSlots | esptool/src/esp/EspRuleInstall.cpp:687-701 | dropping the empty slots of a submission leaves the accepted handles in order |
| EspSession.EspSession.CreateReference | esptool/src/esp/EspRefs.cpp:88-211 | behind the check of its argument one creation of exactly that target; the result is fresh and listed |
| EspSession.EspSession.DuplicateReference | esptool/src/esp/EspRefs.cpp:223-237 | one call; a duplicate is a fresh listed reference of its own |
| EspSession.EspSession.CloseReference | esptool/src/esp/EspRefs.cpp:78-86 | closes once and empties every slot that held the handle |
| EspSession.EspSession.QueryFromNotification | esptool/src/esp/EspRefs.cpp:608-711 | the log of requests grew by exactly what the keys, the setup and the answers of the library say, in order; on every return path the open references are unchanged, and whatever it opened it closed again in reverse |
| EspSession.EspSession.RunQueries | esptool/src/esp/EspRefs.cpp:679-704 | the loop asks for exactly the recipes that concern the event type, in order, through the one reference |
| EspSession.EspSession.RunRecipe | esptool/src/esp/EspRefs.cpp:684-703 | one recipe: its query, the support of its properties, and the context calls |
| EspRequests.KindSays | esptool/src/esp/EspRefs.cpp:315-341 | the properties are asked in one call of the reference, or of the client; never without properties, nor about events or an unknown kind |
| EspRequests.SupportSays | esptool/src/esp/EspRefs.cpp:690-699 | each property is asked for its support, in order |
| EspRequests.ContextSays | esptool/src/esp/EspRefs.cpp:700-703 | the context key is set and the keys are enumerated exactly if the recipe says so, through the reference |
| EspRequests.RecipesSay | esptool/src/esp/EspRefs.cpp:679-683 | a recipe is asked exactly if its event type or the notification's is zero, or they agree |
| EspRequests.ExportsSay | esptool/src/esp/EspRefAbi.h:75-180 | the export of each kind, for its query and for its support |
| EspRequests.NaturalSays | esptool/src/esp/EspRefs.cpp:620-656 | a file's notification tries its path and then the fallback, a process's its number or the fallback's |
| EspRequests.ThroughSays | esptool/src/esp/EspRefs.cpp:662-677 | the object is unwrapped and identified, and a reference by its identifier takes the place of the natural one exactly if it was made and unwrapped |
| EspRequests.RecipeOfRuleIsAsked | esptool/src/esp/EspRefs.cpp:608-711 | whatever a recipe of an installed rule asks for, every notification of the rule's event type asks, once its object could be unwrapped |
| EspSession.EspSession.Disconnect | esptool/src/esp/EspSession.cpp:132-160 | the three logs grow by one closing for each remaining filter, rule and reference, and the lists are emptied, so that disconnecting again closes nothing |
| EspSession.EspSession.ClosedExactlyOnce | esptool/src/esp/EspSession.cpp:132-160 | in every valid state no filter, rule or reference was closed twice, and of a kind whose list is empty none was left open |
| HandleLog.ReplayedLogs | esptool/src/esp/EspSession.h:204-226 | a log that replays closes nothing twice, and one that ends with nothing open has a closing of its own after every opening |
| EspRefs.ReferencesClosedExactlyOnce | esptool/src/esp/EspRefs.cpp:78-237 | over every run of creations, duplications, closings, queries and disconnects, every closing has its own opening before it, and after a disconnect every opening has its own closing |
| EspRefs.RunIsSafe | esptool/src/esp/EspRefs.cpp:78-237 | over every run the listed references are exactly the open ones |
| EspRefs.QueryIsSafe | esptool/src/esp/EspRefs.cpp:608-711 | a query leaves the set of open references unchanged |
| HandleLog.ClosingAll | esptool/src/esp/EspSession.h:204-216 | closing a list slot by slot, empty ones skipped, closes everything open exactly once |
| EspRefs.DisconnectClosesAll | esptool/src/esp/EspSession.h:204-216 | closing the whole list closes every open reference, each once |
| EspRegistration.ClientSession.Register | esptool/src/esp/EspSession.cpp:70-110 | the retry loop tries rung after rung under one identity while they collide, at most 32 |
| EspRegistration.RungsAreDistinct | esptool/src/esp/EspSession.cpp:86-92 | no altitude is tried twice, 32-bit wrap-around included |
| EspRegistration.RegistersAtFirstFreeAltitude | esptool/src/esp/EspSession.cpp:85-110 | a registration that succeeds is at the first altitude that does not collide |
| EspRegistration.AltitudeSays | esptool/src/esp/EspSession.cpp:70-82 | the altitude asked for is any numeral from 1 to 2^32-1, or else 385000 |
| EspRegistration.ClimbSays | esptool/src/esp/EspSession.cpp:85-110 | the attempts one by one: at most 32, each 10 above the one before in 32 bits, and only after a collision |
| EspRegistration.ClientSession.Connect | esptool/src/esp/EspSession.cpp:50-119 | the new registration state and the calls made (attempts, connection, removal) are those of the paper step |
| EspRegistration.ClientSession.ConnectExisting | esptool/src/esp/EspSession.cpp:121-130 | takes over an identity without claiming it |
| EspRegistration.ClientSession.Disconnect | esptool/src/esp/EspSession.cpp:132-170 | asks for the removal of the session's identity exactly if the registered flag and the policy are set |
| EspRegistration.RemovesSays | esptool/src/esp/EspSession.cpp:105-170 | when a removal is asked for, and of which identity |
| EspRegistration.AfterSays | esptool/src/esp/EspSession.cpp:50-170 | what a session knows after each operation |
| EspRegistration.ConnectKeepsOwnershipExactlyWhen | esptool/src/esp/EspSession.cpp:50-119 | a session stays the owner of what it would remove, whatever the library answers, if and only if it had not registered yet or connects under an identity of its own |
| EspRegistration.ConnectStaysSettledExactlyWhen | esptool/src/esp/EspSession.cpp:50-119 | it also forgets nothing it registered if and only if it had not registered yet or keeps its identity |
| EspRegistration.ConnectExistingStaysSettledExactlyWhen | esptool/src/esp/EspSession.cpp:121-130 | taking over an identity forgets a registered one, and only then |
| EspRegistration.ForeignIdentityIsRemoved | esptool/src/esp/EspSession.cpp:132-170 | a concrete run in which a session asks for the removal of an identity it did not register |
| EspRegistration.RunsRemoveOnlyTheirOwn | esptool/src/esp/EspSession.cpp:50-170 | over every run whose steps change the identity only while none is registered, which is the exact condition of each step, and whatever removal policy holds at each step, a session asks only for the removal of its own identities, and a disconnect that removes leaves none of them behind |
| Commands.CleanOrphanClients | esptool/src/cli/Commands.cpp:303-342 | probes every enumerated client and asks for the removal of exactly those it may release; every other client stays registered |
| Commands.CleaningPreserves | esptool/src/cli/Commands.cpp:313-334 | without --fresh a client with persistent rules, or one that could not be probed, stays registered |
| Commands.ReleasedExactlyWhen | esptool/src/cli/Commands.cpp:313-334 | the clients asked to go are all with --fresh, and otherwise exactly those listed without a persistent rule |
| Commands.ProbeClient | esptool/src/cli/Commands.cpp:313-330 | the probe registers and removes nothing, and lets a client go exactly if it was probed and has no persistent rule |
| Commands.PrepareRulesSession | esptool/src/cli/Commands.cpp:352-383 | the attempts, the connection and the loading steps are made in order up to the first that fails, and the outcome is that of this step; the session keeps exactly the registration that connecting made |
| Commands.PrepSays | esptool/src/cli/Commands.cpp:352-383 | which outcome belongs to which answers |
| Commands.StepsSay | esptool/src/cli/Commands.cpp:352-383 | which calls are made with which answers, each exactly if those before it succeeded |
| Commands.StepsAreInOrder | esptool/src/cli/Commands.cpp:352-383 | connection, bypass, queue, removal, install: in this order and each at most once |
| Commands.LoadRules | esptool/src/cli/Commands.cpp:359-382 | the steps after the connection: the bypass and the queue only if wanted, then the removal of old rules, then the install |
| Commands.RunPersistRules | esptool/src/cli/Commands.cpp:603-631 | exits with 0 if and only if every step succeeded and a persistent rule of the client is listed; the identity is then registered; the removals asked for are exactly those of the cleaning and, if the run registers and then fails, that of its own identity; every other call to the library is determined too |
| Commands.PersistedExactlyWhen | esptool/src/cli/Commands.cpp:619-631 | exit 0 if and only if the client was registered and connected, every wanted step succeeded, all rules were installed, and a persistent one is listed |
| Commands.FinishPersisting | esptool/src/cli/Commands.cpp:620-631 | the listing only after a preparation without failure, the policy switched exactly if no persistent rule was listed, and the identity removed exactly then |
| NotificationPump.Pump.PumpNotifications | esptool/src/esp/EspSession.cpp:536-580 | the loop always stops, the states it went through extend a run of the step system, it never receives more than the maximum, and stopped by a positive one it handled exactly that many; it stops at the first call that fails, for its reason, or by the maximum with every call successful |
| NotificationPump.Pump.EmitCompleteAndRearm | esptool/src/esp/EspSession.cpp:514-534 | the log grows by an emission, a completion and an arming, or stops after as many of them as went well; it arms again only below the maximum |
| NotificationPump.Pump.ConsumeNotification | esptool/src/esp/EspSession.cpp:499-512 | a wait that ends in time ends with a delivery and what follows handles that one; otherwise the pump stops; every call it makes is logged with its answer |
| NotificationPump.Pump.ArmNotification | esptool/src/esp/EspSession.cpp:318-341 | the log grows by one arming, or the pump stops |
| NotificationPump.StopsByItsCalls | esptool/src/esp/EspSession.cpp:499-580 | the reason of a stop is that of its last call, and the maximum if and only if every call succeeded |
| NotificationPump.NextKeepsInv | esptool/src/esp/EspSession.cpp:482-534 | every step, the asynchronous delivery included, keeps the log in rounds of arm, deliver, emit and complete |
| NotificationPump.EmittedIsCompletedBeforeNextArm | esptool/src/esp/EspSession.cpp:514-534 | in every reachable state each arm after the first directly follows a whole round, each emission one delivery of one arm, and no more than the maximum is received |
| NotificationPump.StoppedByMaximum | esptool/src/esp/EspSession.cpp:514-580 | a pump stopped by a positive maximum received exactly that many, completed all, and left nothing armed or pending |
| NotificationPump.StopsUnarmedExactlyWhen | esptool/src/esp/EspSession.cpp:566-575 | stopping by the maximum leaves nothing armed if and only if the maximum is at least one |
| PipeChannel.AppendUint32 | esptool/src/ipc/PipeChannel.cpp:25-29 | the shift loop appends the four bytes, lowest first |
| PipeChannel.ReadUint32 | esptool/src/ipc/PipeChannel.cpp:31-43 | the loop reads the number of four bytes and advances past them, or reads nothing |
| PipeChannel.LittleEndianRoundTrip | esptool/src/ipc/PipeChannel.cpp:25-43 | every 32-bit number is read back from its bytes |
| PipeChannel.LittleEndianIsOnto | esptool/src/ipc/PipeChannel.cpp:25-43 | any four bytes are the bytes of the number they read as |
| PipeChannel.LowestFirst | esptool/src/ipc/PipeChannel.cpp:25-43 | the lowest byte comes first |
| PipeChannel.StatusRoundTrip | esptool/src/ipc/PipeChannel.cpp:326-335 | a signed status survives its trip through the unsigned tag, in both directions |
| PipeChannel.EncodeFrame | esptool/src/ipc/PipeChannel.cpp:145-156 | the frame of a message, with the length cut to 32 bits |
| PipeChannel.DecodeFrame | esptool/src/ipc/PipeChannel.cpp:158-168 | splits a body into tag and payload exactly if it has a tag |
| PipeChannel.FrameSays | esptool/src/ipc/PipeChannel.cpp:145-156 | a frame in bytes: the length behind it, the tag, the payload |
| PipeChannel.StreamRoundTrip | esptool/src/ipc/PipeChannel.cpp:145-168 | every sequence of messages with payloads up to 65532 bytes is decoded exactly, with nothing left over |
| PipeChannel.DecodePrefix | esptool/src/ipc/PipeChannel.cpp:109-168 | from any prefix of the stream the receiver has a prefix of the messages and holds back exactly the bytes of the one it is in |
| PipeChannel.FrameRoundTripExactlyWhen | esptool/src/ipc/PipeChannel.cpp:316-325 | a frame comes back as its message if and only if the payload has at most 65532 bytes |
| PipeChannel.FragmentationIsInvisible | esptool/src/ipc/PipeChannel.cpp:109-141 | for every interleaving of writes and reads cut anywhere, the receiver has decoded a prefix of the messages in order, and all of them once every byte arrived |
| PipeChannel.Pipe.ReadExactly | esptool/src/ipc/PipeChannel.cpp:109-124 | over any chunking: exactly n bytes, or fewer and a failure, which needs a transfer that failed or moved nothing |
| PipeChannel.Pipe.WriteExactly | esptool/src/ipc/PipeChannel.cpp:126-141 | over any chunking: all of the buffer, or a strict prefix and a failure, which needs a transfer that failed or moved nothing |
| PipeChannel.Pipe.ReceiveFrame | esptool/src/ipc/PipeChannel.cpp:247-273 | the bytes taken decode to exactly the message returned; on failure no complete message was taken |
| PipeChannel.Pipe.Exchange | esptool/src/ipc/PipeChannel.cpp:303-338 | the request goes out as one frame and the response returned is what the bytes taken decode to |
| PipeChannel.Pipe.ServeOne | esptool/src/ipc/PipeChannel.cpp:245-273 | the request decoded is answered by one frame of the handler's response |
| PipeChannel.ExchangeIsFaithful | esptool/src/ipc/PipeChannel.cpp:145-338 | end to end, from any prefixes that each side took: a request the server saw is the client's, and a response the client has is the handler's, signed status included |

## Left out

- EspSession.EspSession.CreateLeafFilter: the checks of the comparand payload are left open: a leaf that passes the selector and property checks may still be refused.
- EspSession.EspSession.AttachFilterToDescriptor: says which slot holds which filter; the configuration blobs around the slots, their query identifiers and byte offsets are not modelled.
- EspSession.EspSession.InstallRules: the installation of the document's collections is a yes-or-no input.
- EspSession.EspSession.CreateReference: the descriptor blocks that the exports take for paths and file identifiers are not modelled.
- EspSession.EspSession.QueryFromNotification: the decoded keys are an input, with the path already expanded to its device form.
- DocumentMeaning.DocumentParses: a rule or a collection inside an open collection, and elements inside an entry, are accepted by the parser too; only the event machine and the structural lemmas cover them.
- RuleMeaning.NodeRuns: starts outside any open collection; the parser also accepts a rule inside an open collection, which only the event machine and the structural lemmas cover.
- NotificationPump.Pump.PumpNotifications: starts after the queue was connected; both pump loops share it, and the completion port's packet is a delivery.
- Commands.PrepareRulesSession: the bypass patch, the queue, the removal of old rules and the install are logged calls with arbitrary answers; the install itself is `EspSession`'s.
- Attribute reading of client, rule, query and collection elements: a parameter that accepts or rejects.
- XML prolog, comments, CDATA sections and character decoding: the input is the event stream of well-formed XML, in which the parser looks at elements, text and white space only; an event whose name cannot be decoded is not modelled.
- Line numbers in parser errors, log lines, recorded steps and warnings.
- UTF-8 and UTF-16 conversion, and with it unpaired surrogates: texts are sequences of characters.
- Export lookup: every export is resolved, and a call that succeeds returns a non-null handle.
- Registration and the handle lists are one object in the program and two classes here (`ClientSession`, `EspSession`); they share only the client handle.
- Queue handles and collections: opening a queue again overwrites the old handle, and the smoke command for collections clears their list, so neither is in an ownership claim.
- PE headers, file hashes and page protection: the sections are an input and the protection calls are answers.
- The event-type bypass patch: a second signature with the same shape.
- GUID text, string splitting and joining: easy members only.
- Notification formatting, property tables, device paths, services, tokens, privileges and process creation: long tables and system calls.
