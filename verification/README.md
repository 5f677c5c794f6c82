# ThiumCore in Dafny

ThiumCore is a node of a payment network. This project models the parts of it
that carry the hardest promises and proves them:

- **Consensus** (`src/scp`): quorum sets, federated voting and the ballot
  protocol. The main result is agreement: in every run, whatever the faulty
  nodes say and however messages are delayed, two intact nodes never
  externalize different values.
- **Command line** (`lib/util/getopt_long.c`): the cycle-following exchange of
  two blocks of arguments, and the scanner that calls it while it reads options.
- **JSON** (`lib/json/jsoncpp.cpp`): the reader with its error recovery, the
  compact writer and the styled writer, and that reading undoes writing.
- **Bitset** (`lib/util/cbitset.c`, `lib/util/cbitset.h`): a growable word array
  that stands for a set of natural numbers over every run of its operations.
- **Base-n codec** (`lib/util/basen.h`), **SipHash-2-4** (`lib/util/siphash.h`,
  `lib/util/siphash.cpp`) and **CRC-16** (`lib/util/crc16.cpp`): fast forms
  against their definitions.
- **HTTP request parser** (`lib/http/request_parser.cpp`,
  `lib/http/request_parser.hpp`) and **LRU cache** (`lib/util/lrucache.hpp`).

`dafny verify dfyconfig.toml` checks the whole project.

## How it is built

Code that updates state is a class or a method with loops, and each such method
is proved against a function of the old state. What the source promises is then
proved of those functions.

| files | contents |
|---|---|
| `ScpQuorum` | quorum sets: slices, blocking sets, quorums, as defined and as computed |
| `ScpStatement`, `ScpNode`, `ScpBallotProtocol` | ballots and statements, a node's state, the object that updates it |
| `ScpWorld` | the nodes together: views, steps, runs |
| `ScpClaims`, `ScpSupport`, `ScpInvariant`, `ScpPrepare`, `ScpCommit`, `ScpAgreement` | the proof of agreement |
| `ScpSoundness`, `ScpPrepared` | when actions keep the asserted invariants, and what p and p' are |
| `ScpSteps`, `ScpEndless` | what a node holds and says after each step of a run, and what its later statements amount to |
| `ScpScript`, `ScpExample`, `ScpMisstep` | runs told in advance: one in which all externalize, and one after which a node can break the invariants |
| `Cycles`, `PermuteArgs`, `Getopt` | cycles of a block exchange, the exchange in place, the option scanner |
| `JsonValue`, `JsonText`, `JsonReader`, `JsonReaderClass` | values, token text, reading as functions, the reader object |
| `JsonUnicode` | code points, escapes and UTF-8 |
| `JsonLayout`, `JsonIndent` | the exact text of the pretty printer, and how its lines are laid out |
| `JsonWriter`, `JsonStyledWriter`, `JsonRoundTrip`, `JsonTheorems` | the writers, and reading what was written |
| `Words`, `WordSets`, `WordShifts` | 64-bit words as numbers, as sets, shifted |
| `Bitset`, `BitsetCounts`, `BitsetScan`, `BitsetEach`, `BitsetBatch`, `BitsetBatchLoop`, `BitsetCompare`, `BitsetRuns` | the bitset |
| `BitStrings`, `BaseNBits`, `BaseNAlphabets`, `BaseN`, `BaseNDecode` | the base-n codec |
| `LittleEndian`, `SipHash`, `SipHashStream` | SipHash-2-4 |
| `BitVectors`, `SipHashBits`, `SipHashVectors` | bit vectors bit by bit, the words of the hash as bit vectors, its published results |
| `Gf2`, `Crc16` | division of polynomials over two elements, the checksum |
| `HttpRequest`, `HttpGrammar`, `HttpPrint`, `HttpAccept`, `HttpOutcome`, `HttpParser` | the request parser and the language it accepts |
| `LruOrder`, `LruCache`, `LruRuns` | the cache |

## Notes on the model

- **Agreement.** `ScpWorld.System` names the nodes that follow the protocol.
  `Intact` asks two things of them: each of them finds a slice among them, and
  any two sets that are enough for some of them have one of them in common. All
  other nodes may say anything, to anyone, with any quorum set. A node acts on a
  `View`: the latest statement it has of each node, which for an intact node is
  any statement that node ever made. The choice of ballots that the source makes
  by searching candidates is left open: any ballot that passes the conditions
  may be chosen, so every run of the source is a run of the model. A step after
  which the source's own assertions (`checkInvariants`) fail, or after which it
  would read an absent ballot, is not a step of an intact node; the source's
  `dbgAssert` is taken to be active (src/util/GlobalChecks.h:34-42). `SoundIff`
  says exactly which actions these are. They do occur: in `Misstep` an intact
  node ends with a pledge and without a high ballot, although accepting comes
  before confirming as in `advanceSlot`. With assertions compiled out that node
  stops as well, since its own statement is then not sane. A node restates
  its position after each step. A statement to externalize is counted with the
  quorum set that has only its sender, as in the source; that is why the proof
  has to go back from such a statement to the quorum behind it.
- **Quorum sets.** The source counts the threshold down in 32 bits, so that a
  threshold of zero takes two to the 32 members to have a slice; it never has a
  blocking set. The duality of slices and blocking sets is stated for
  sane quorum sets; that blocking sets meet every slice holds for all.
- **JSON.** Strings are C strings: they end at the first NUL. The lowest 64-bit
  integer is negated by the source; in two's complement that gives itself back,
  and the model follows that. Real numbers are read and printed by functions
  that the model takes as parameters.
- **Bitset.** The comments on `bitset_equal`, `bitset_subseteq` and
  `nextSetBits` promise more than the code does. The model follows the code;
  `EqualSafe`, `SubseteqSafe`, `ReportedIff` and `BatchesIff` say exactly when
  the promise is kept, in terms of the arguments, and `EqualExample`,
  `ReportedExample` and `NeverEnds` show where it is not. The words
  are numbers below two to the 64; `Words` proves the bitwise operations bit by
  bit.
- **SipHash.** The hash is written over a record of the five word operations it
  uses; `MACHINE` is the record of the real ones, on numbers. The published
  results are computed on bit vectors, which stand for the same numbers.
- **HTTP.** Characters are bytes; those above 127 are neither `is_char` nor
  `is_ctl`, as with the signed characters of the source.
- **LRU cache.** A list node's id stands for the iterator that the map holds.

## Model

| member | source | states |
|---|---|---|
| ScpAgreement.Agreement | src/scp/BallotProtocol.cpp:1492-1514 | agreement: in every run of an intact set of nodes among arbitrary others, two intact nodes that have externalized have externalized the same value |
| ScpAgreement.RunInv | src/scp/BallotProtocol.cpp:1845-1900 | every world that a run reaches keeps the invariant on all that has been said and on where each intact node is |
| ScpAgreement.Justifies | src/scp/BallotProtocol.cpp:787-1489 | whatever an intact node says after any action rests on what intact nodes said before: accepted aborts on votes of a quorum, commitments on pledges of a quorum |
| ScpAgreement.ActForward | src/scp/BallotProtocol.cpp:391-482 | while a node prepares its ballot never falls, and what it would commit is kept, extended, or given up because it has accepted it as aborted |
| ScpInvariant.LogStep | src/scp/BallotProtocol.cpp:573-625 | a justified statement keeps all invariants of what has been said |
| ScpInvariant.PledgedNotAborted | src/scp/BallotProtocol.cpp:884-898 | what a quorum has pledged to commit is accepted as aborted by no intact node |
| ScpInvariant.OriginsAgree | src/scp/BallotProtocol.cpp:1167-1289 | all commitments of intact nodes go back to quorums that pledged the same value |
| ScpSupport.SeenBacked | src/scp/Slot.cpp:264-296 | a quorum that an intact node sees, counting externalized nodes by themselves, extends to a quorum by real quorum sets whose intact nodes have all said the same |
| ScpSupport.AcceptedCases | src/scp/Slot.cpp:345-373 | federated accept follows an intact node that has accepted, or a quorum whose intact nodes have all voted |
| ScpSupport.RatifiedAnyone | src/scp/Slot.cpp:375-382 | what is ratified has been said by an intact node |
| ScpPrepare.AcceptPreparedJustified | src/scp/BallotProtocol.cpp:787-908 | accepting a ballot as prepared claims nothing that the intact nodes have not backed, and gives up a pledge only with an accepted abort |
| ScpPrepare.ConfirmPreparedJustified | src/scp/BallotProtocol.cpp:911-994 | a node pledges to commit only what has been accepted as prepared and what it has never voted to abort |
| ScpPrepare.BumpJustified | src/scp/BallotProtocol.cpp:350-440 | moving to a new ballot never votes against a pledge that still stands |
| ScpCommit.AcceptCommitJustified | src/scp/BallotProtocol.cpp:1167-1337 | accepting to commit goes back to a quorum of pledges, and the votes against all other values that come with it break no standing pledge |
| ScpCommit.ConfirmCommitJustified | src/scp/BallotProtocol.cpp:1428-1514 | externalizing claims a commitment without end that a quorum stands behind |
| ScpExample.FourIntact | src/scp/LocalNode.cpp:125-155 | three good nodes of four, each asking for three of the four, are intact |
| ScpExample.SomeRunExternalizes | src/scp/BallotProtocol.cpp:1845-1900 | for every value there is a run in which the three good nodes of four all externalize it, with the interval from counter 1 to counter 2 |
| ScpSteps.EveryStepAnswers | src/scp/BallotProtocol.cpp:511-570 | after every step of every run the node holds, and says in its new statement, the ballot, the prepared ballots and the interval that its action asks for; nobody else changes |
| ScpEndless.ConfirmIsEndless | src/scp/BallotProtocol.cpp:996-1028 | apart from the commitment accepted, a statement to confirm says what statements to prepare say with ever higher counters |
| ScpEndless.ExternalizeIsEndless | src/scp/BallotProtocol.cpp:1516-1552 | a statement to externalize says what statements to confirm say with ever higher counters |
| ScpSoundness.SoundIff | src/scp/BallotProtocol.cpp:627-668 | an action that a node is ready for keeps what `checkInvariants` asserts, and leaves no ballot absent that is read, exactly when the node could see so before: a first ballot has a counter, a commitment is accepted with something prepared, and no pledge stands when a higher ballot with another value is confirmed |
| ScpSoundness.RunClean | src/scp/BallotProtocol.cpp:873-908 | in every run a node that prepares pledges nothing that it has accepted as aborted, and one that has gone on has no p' |
| ScpSoundness.AcceptingSafe | src/scp/BallotProtocol.cpp:786-908 | in every run accepting a ballot as prepared keeps the invariants |
| ScpSoundness.ConfirmingSafe | src/scp/BallotProtocol.cpp:910-1076 | in every run confirming a ballot as prepared keeps the invariants for a node that would no longer accept it, since it lies at or below p' or a compatible p |
| ScpMisstep.FollowedIntact | src/scp/LocalNode.cpp:125-155 | three nodes that need two of them, and one that follows the first, are intact |
| ScpMisstep.Misstep | src/scp/BallotProtocol.cpp:1030-1076 | a run of that network in which the follower, right after accepting the highest ballot it may, can confirm a lower one with another value: the high ballot is dropped, the pledge is not, and the invariants fail |
| ScpPrepared.SetPreparedIff | src/scp/BallotProtocol.cpp:1599-1642 | setPrepared keeps p as the highest ballot given and p' as the highest not compatible with p exactly when there is a p' or the ballot is not below a compatible p |
| ScpPrepared.PreparedAreHighest | src/scp/BallotProtocol.cpp:786-836 | whatever ballots a preparing node is offered, in whatever order, p and p' are the two highest of them that are not compatible |
| ScpQuorum.IsQuorumSlice | src/scp/LocalNode.cpp:125-163 | the counting loops with their early return decide whether the nodes contain a slice, for any number of members, with the wrap of the 32-bit count |
| ScpQuorum.IsVBlocking | src/scp/LocalNode.cpp:164-211 | the counting loops decide whether the nodes leave fewer members than the threshold |
| ScpQuorum.IsQuorum | src/scp/LocalNode.cpp:230-269 | dropping nodes without a slice until nothing changes answers yes exactly when some set of the nodes is a quorum with a slice of the local quorum set |
| ScpQuorum.FederatedAccept | src/scp/Slot.cpp:345-373 | yes exactly when the accepting nodes block or the voting and accepting nodes hold a quorum |
| ScpQuorum.FederatedRatify | src/scp/Slot.cpp:375-382 | yes exactly when the voting nodes hold a quorum |
| ScpQuorum.BlockingApart | src/scp/LocalNode.cpp:164-204 | a blocking set meets every slice, for every quorum set |
| ScpQuorum.BlockingDual | src/scp/QuorumSetUtils.cpp:44-83 | for sane quorum sets a set is blocking exactly when the other nodes contain no slice |
| ScpQuorum.InnerSingleton | src/scp/LocalNode.cpp:125-204 | an inner set of one validator counts as that validator, for slices and for blocking sets |
| ScpQuorum.InnerAlone | src/scp/LocalNode.cpp:125-204 | a set that needs one inner set and nothing else has the slices and the blocking sets of that set |
| ScpQuorum.SliceGrows | src/scp/LocalNode.cpp:125-155 | a larger set contains every slice that a smaller one does |
| ScpBallotProtocol.BallotProtocol.constructor | src/scp/BallotProtocol.cpp:26-32 | a new object is a node that has said nothing |
| ScpBallotProtocol.BallotProtocol.BumpToBallot | src/scp/BallotProtocol.cpp:442-482 | the new ballot is current, and the high ballot is dropped when its value is another |
| ScpBallotProtocol.BallotProtocol.UpdateCurrentIfNeeded | src/scp/BallotProtocol.cpp:774-784 | the current ballot becomes the given one exactly when that is higher |
| ScpBallotProtocol.BallotProtocol.UpdateCurrentValue | src/scp/BallotProtocol.cpp:390-440 | updates exactly when the node has not externalized and the ballot is its first, or higher and compatible with what it would commit |
| ScpBallotProtocol.BallotProtocol.BumpState | src/scp/BallotProtocol.cpp:349-386 | moves to the counter with the remembered value if there is one, exactly when that is allowed |
| ScpBallotProtocol.BallotProtocol.SetPreparedBallot | src/scp/BallotProtocol.cpp:1599-1642 | p and p' become as in SetPrepared, of which SetPreparedIff speaks, and the answer says whether anything changed |
| ScpBallotProtocol.BallotProtocol.SetAccepted | src/scp/BallotProtocol.cpp:873-908 | what would be committed is dropped exactly when a prepared ballot aborts the high ballot, and the answer says whether anything changed |
| ScpBallotProtocol.BallotProtocol.SetConfirmed | src/scp/BallotProtocol.cpp:1030-1076 | the interval to commit is set only on a compatible ballot, the current ballot follows, and the answer says whether there is something new to say |
| ScpBallotProtocol.BallotProtocol.SetAcceptedCommit | src/scp/BallotProtocol.cpp:1291-1337 | the node enters or stays in the confirm phase with the accepted interval, and does nothing when it already holds it there |
| ScpBallotProtocol.BallotProtocol.SetConfirmedCommit | src/scp/BallotProtocol.cpp:1491-1514 | the node externalizes with the confirmed interval |
| PermuteArgs.Permute | lib/util/getopt_long.c:127-157 | the two adjacent blocks are exchanged in place, order kept inside each, nothing else touched |
| PermuteArgs.Gcd | lib/util/getopt_long.c:107-120 | the loop computes the greatest common divisor |
| PermuteArgs.FollowCycle | lib/util/getopt_long.c:142-156 | one turn of the outer loop walks one cycle of swaps |
| PermuteArgs.FollowCycles | lib/util/getopt_long.c:142-156 | the outer loop walks all cycles, one after the other |
| PermuteArgs.WalksExchange | lib/util/getopt_long.c:132-156 | walking gcd-many cycles is the exchange of the blocks |
| PermuteArgs.CycleMoves | lib/util/getopt_long.c:142-156 | a cycle moves each of its positions to the next one |
| PermuteArgs.CycleKeeps | lib/util/getopt_long.c:142-156 | a cycle leaves the positions of the other cycles alone |
| Cycles.GcdDivides | lib/util/getopt_long.c:107-120 | the result divides both numbers |
| Cycles.GcdGreatest | lib/util/getopt_long.c:107-120 | every common divisor divides the result |
| Cycles.PosCloses | lib/util/getopt_long.c:138-143 | a cycle comes back to its start after cyclelen steps |
| Cycles.PosDistinct | lib/util/getopt_long.c:138-143 | and not before: its positions are distinct |
| Cycles.PosResidue | lib/util/getopt_long.c:138-143 | a cycle stays within one residue class, so that cycles are disjoint |
| Cycles.PosCovers | lib/util/getopt_long.c:138-143 | each position of the range is on the cycle of its residue class |
| Getopt.Scanner.constructor | lib/util/getopt_long.c:320-322 | before the first call nothing has been consumed or skipped |
| Getopt.Scanner.Run | lib/util/getopt_long.c:323-397 | repeated calls end at the end of the arguments or at the terminator, with argv and optind as in Finished; permuting, the arguments marked as options are the planned ones |
| Getopt.PermutingRun | lib/util/getopt_long.c:323-397 | a whole permuting run over fresh arguments: those that look like options and what they take come first, the others follow, and which those are is said by `Marked` from the arguments alone |
| Getopt.NonOptionMeans | lib/util/getopt_long.c:344-346 | an argument is passed over exactly when it is empty, does not begin with a dash, or is a dash alone that the options do not ask for |
| Getopt.Scanner.SkipNonOptions | lib/util/getopt_long.c:344-375 | every argument passed over is a non-option, the scan then stands at one that is not, or at the end, and the plan of the run is kept |
| Getopt.Scanner.StopHere | lib/util/getopt_long.c:376-396 | it stops at an option only where the argument looks like one and is not the terminator, and at a non-option only where it does not; permuting, the plan of the run is kept |
| Getopt.Scanner.Call | lib/util/getopt_long.c:323-397 | one call keeps argv in the layout: consumed options, skipped non-options, what is still to be scanned |
| Getopt.Scanner.Scan | lib/util/getopt_long.c:323-397 | the scanning part skips non-options, and stops at an option, the terminator or the end; where it stops at an option the argument begins with a dash, is not the terminator, and is a dash alone only if the options ask for it; where it stops at a non-option the argument does not look like an option |
| Getopt.Scanner.MoveBack | lib/util/getopt_long.c:362-371 | the exchange is called with both blocks non-empty and brings the options in front |
| Getopt.Scanner.Skip | lib/util/getopt_long.c:362-374 | a non-option is passed over and remembered |
| Getopt.Scanner.Finish | lib/util/getopt_long.c:326-343 | at the end the skipped arguments follow from optind on |
| Getopt.Scanner.Take | lib/util/getopt_long.c:346-354 | in order mode a non-option is consumed as an argument |
| Getopt.Scanner.MeetOption | lib/util/getopt_long.c:376-396 | an option is told from the terminator, which is consumed |
| Getopt.FinishedPermutes | lib/util/getopt_long.c:323-397 | argv stays a permutation of what it was |
| Getopt.FinishedParts | lib/util/getopt_long.c:323-397 | options and their arguments come first in their order, skipped non-options follow from optind in theirs, the rest is untouched |
| Getopt.SkippedAreNonOptions | lib/util/getopt_long.c:344-346 | only non-options are ever skipped |
| JsonTheorems.WriteAndParse | lib/json/jsoncpp.cpp:3154-3208 | parsing what the compact writer writes succeeds and gives back the value, up to the tag of its integers |
| JsonTheorems.WriteStyledAndParse | lib/json/jsoncpp.cpp:3216-3375 | the same for the styled writer |
| JsonTheorems.WriteBoth | lib/json/jsoncpp.cpp:3216-3375 | both writers emit the same tokens, so that they differ only in white space outside strings |
| JsonTheorems.ParseLayout | lib/json/jsoncpp.cpp:291-403 | any text with the tokens of a value parses to that value |
| JsonTheorems.CompactLayout | lib/json/jsoncpp.cpp:3162-3208 | the compact text has the tokens of the value |
| JsonTheorems.IdentityIff | lib/json/jsoncpp.cpp:728-733 | the value comes back unchanged exactly when each integer has the tag that its size calls for |
| JsonTheorems.TagChanges | lib/json/jsoncpp.cpp:728-733 | a signed integer above the 32-bit signed range comes back unsigned |
| JsonReaderClass.Reader.ParseDoc | lib/json/jsoncpp.cpp:291-330 | parsing ends with the stack holding only the root, the position inside the document, no error on success and exactly one on failure |
| JsonReaderClass.Reader.constructor | lib/json/jsoncpp.cpp:260-268 | a new reader |
| JsonReaderClass.Reader.ReadValueTok | lib/json/jsoncpp.cpp:332-403 | reads one value as ReadValue says, stack balanced |
| JsonReaderClass.Reader.ReadObjectTok | lib/json/jsoncpp.cpp:587-640 | reads an object as ReadMembers says, later members replacing earlier ones of the same name |
| JsonReaderClass.Reader.ReadArrayTok | lib/json/jsoncpp.cpp:642-677 | reads an array as ReadArray says, the peek at the end included |
| JsonReaderClass.Reader.ReadTok | lib/json/jsoncpp.cpp:422-491 | reads one token |
| JsonReaderClass.Reader.SkipCommentToks | lib/json/jsoncpp.cpp:405-413 | reads tokens up to the first that is not a comment |
| JsonReaderClass.Reader.ReadCStyleComment | lib/json/jsoncpp.cpp:548-555 | a comment ends at the first closing mark, or with the document |
| JsonReaderClass.Reader.ReadCppStyleComment | lib/json/jsoncpp.cpp:557-564 | a comment ends with its line |
| JsonReaderClass.Reader.ReadString | lib/json/jsoncpp.cpp:575-585 | a string ends at the first unescaped quote |
| JsonReaderClass.Reader.ReadNumber | lib/json/jsoncpp.cpp:566-573 | a number takes all number characters |
| JsonReaderClass.Reader.DecodeNumberTok | lib/json/jsoncpp.cpp:689-735 | decodes as DecodeNumber says, or adds one error |
| JsonReaderClass.Reader.ScanDigits | lib/json/jsoncpp.cpp:712-726 | the digit loop decides between integer and double without overflow |
| JsonReaderClass.Reader.DecodeStringTok | lib/json/jsoncpp.cpp:793-844 | decodes a string with its escapes, or adds one error |
| JsonReaderClass.Reader.DecodeEscape | lib/json/jsoncpp.cpp:804-838 | one escape gives its bytes |
| JsonReaderClass.Reader.DecodeUnicodeCodePoint | lib/json/jsoncpp.cpp:846-873 | one code point, from one or two escape sequences |
| JsonReaderClass.Reader.DecodeUnicodeEscape | lib/json/jsoncpp.cpp:875-901 | four hexadecimal digits give a number |
| JsonReaderClass.Reader.RecoverFromError | lib/json/jsoncpp.cpp:913-924 | recovery skips to the closing token or the end and leaves the errors as they were |
| JsonReaderClass.Reader.GetNextChar | lib/json/jsoncpp.cpp:935-939 | at the end of the document the character read is NUL and the position stays |
| JsonReader.ReadValue | lib/json/jsoncpp.cpp:332-403 | every result has no error exactly on success and one otherwise, and reading consumes |
| JsonReader.Parse | lib/json/jsoncpp.cpp:291-330 | a whole document: no error on success, exactly one on failure |
| JsonRoundTrip.DecodeNumberExact | lib/json/jsoncpp.cpp:689-735 | the integer path is taken exactly when the decimal value is within the limit for its sign, and is exact; otherwise the double path |
| JsonRoundTrip.AccumulateExact | lib/json/jsoncpp.cpp:712-726 | the digit loop gives up exactly when the decimal value exceeds the limit |
| JsonRoundTrip.IntTextRoundTrip | lib/json/jsoncpp.cpp:3003-3022 | decoding the text of an integer gives the integer |
| JsonRoundTrip.QuoteRoundTrip | lib/json/jsoncpp.cpp:3075-3135 | decoding a quoted string gives the string |
| JsonRoundTrip.ReadBack | lib/json/jsoncpp.cpp:332-403 | reading the tokens of a value gives the value and stops behind them |
| JsonRoundTrip.ReadBackMembers | lib/json/jsoncpp.cpp:587-640 | the members of a sorted object come back in order |
| JsonText.LexTokens | lib/json/jsoncpp.cpp:422-491 | the tokens of a value, joined without space, lex to themselves |
| JsonText.LexConcat | lib/json/jsoncpp.cpp:422-491 | texts that do not run together lex one after the other |
| JsonValue.PutSorted | lib/json/jsoncpp.cpp:2379-2399 | member access keeps the members sorted, changes the one named and no other |
| JsonWriter.UIntToString | lib/json/jsoncpp.cpp:145-151 | the digits of the number stand at the end of the buffer, which they fit |
| JsonWriter.IntToText | lib/json/jsoncpp.cpp:3003-3014 | the decimal text of a signed or unsigned number |
| JsonWriter.QuotedText | lib/json/jsoncpp.cpp:3075-3135 | the quoted text, with and without the shortcut for plain strings |
| JsonWriter.FastWriter.constructor | lib/json/jsoncpp.cpp:3144-3146 | a new writer |
| JsonWriter.FastWriter.Write | lib/json/jsoncpp.cpp:3154-3160 | the compact text and a line feed |
| JsonWriter.FastWriter.WriteValue | lib/json/jsoncpp.cpp:3162-3208 | the compact text of a value is appended |
| JsonStyledWriter.StyledWriter.constructor | lib/json/jsoncpp.cpp:3213-3214 | a new writer |
| JsonStyledWriter.StyledWriter.Write | lib/json/jsoncpp.cpp:3216-3225 | the text is that of the layout and a line feed; it has the tokens of the value; after every line feed but the last stand three blanks for each bracket or brace open there outside of literals, one fewer where the line begins by closing one |
| JsonStyledWriter.StyledWriter.WriteValue | lib/json/jsoncpp.cpp:3227-3277 | appends the text of the value at its depth, or its one piece to the collection; the depth is restored |
| JsonStyledWriter.StyledWriter.WriteArrayValue | lib/json/jsoncpp.cpp:3279-3320 | an array as the layout has it, on one line or many |
| JsonStyledWriter.StyledWriter.WriteLines | lib/json/jsoncpp.cpp:3285-3308 | each element on its own lines one level deeper, from the collected texts or by recursion, with the same result |
| JsonStyledWriter.StyledWriter.WriteLine | lib/json/jsoncpp.cpp:3309-3318 | the elements on one line from the collected texts |
| JsonStyledWriter.StyledWriter.WriteMembers | lib/json/jsoncpp.cpp:3250-3274 | each member on its own lines one level deeper |
| JsonStyledWriter.StyledWriter.IsMultilineArray | lib/json/jsoncpp.cpp:3322-3345 | no exactly when the array fits on one line; whenever the collected texts are used there is exactly one for each element, and it is the right one |
| JsonStyledWriter.StyledWriter.CollectTexts | lib/json/jsoncpp.cpp:3332-3343 | the length added up is that of the line |
| JsonStyledWriter.StyledWriter.PushValue | lib/json/jsoncpp.cpp:3347-3352 | a text goes to the document or to the collection |
| JsonStyledWriter.StyledWriter.WriteIndent | lib/json/jsoncpp.cpp:3354-3363 | nothing after a blank, else a line feed if there is none, and the indentation |
| JsonStyledWriter.StyledWriter.WriteWithIndent | lib/json/jsoncpp.cpp:3365-3368 | the same, then the text |
| JsonStyledWriter.StyledWriter.Indent | lib/json/jsoncpp.cpp:3370 | one level deeper: three blanks more |
| JsonStyledWriter.StyledWriter.Unindent | lib/json/jsoncpp.cpp:3372-3375 | one level less deep |
| JsonLayout.StyledSpelt | lib/json/jsoncpp.cpp:3227-3320 | the text of the layout has the tokens of the value, at every depth |
| JsonIndent.StyledNeat | lib/json/jsoncpp.cpp:3354-3375 | read from left to right at depth d, outside of literals, the text of a value leads back to depth d, and each of its lines is indented by three blanks for what is open |
| JsonIndent.DocumentIndented | lib/json/jsoncpp.cpp:3216-3225 | the same of a whole document, position by position |
| JsonIndent.OneLineIff | lib/json/jsoncpp.cpp:3322-3345 | the text of an array has no line feed exactly when all its elements are scalars or empty, three times their number is below 74, and the line is shorter than 74 |
| JsonIndent.StyledFeeds | lib/json/jsoncpp.cpp:3250-3308 | a container that is not on one line has one line for each element and one to close it, besides the lines of its elements |
| JsonUnicode.Utf8Reads | lib/json/jsoncpp.cpp:100-126 | for every code point up to 10FFFF the bytes are well-formed UTF-8, of the shortest length, and read back to it by the bits of section 3 of RFC 3629 |
| JsonUnicode.CodePointReads | lib/json/jsoncpp.cpp:846-901 | four hexadecimal digits in either case give their number, and two surrogates the code point beyond FFFF that they stand for |
| JsonUnicode.EscapedDecodes | lib/json/jsoncpp.cpp:804-838 | an escaped code point in a literal decodes to its UTF-8, whatever follows |
| JsonUnicode.SimpleEscapeCodes | lib/json/jsoncpp.cpp:804-828 | the two-character escapes stand for the characters with the codes of section 7 of RFC 8259 |
| BitsetRuns.Run | lib/util/cbitset.c:80-180 | over any legal run of operations on any number of bitsets, each stands for the set that the same operations give on sets, and has the size they give |
| BitsetRuns.Step | lib/util/cbitset.c:213-377 | one operation changes its target as on sets and no other bitset |
| Bitset.Bitset.constructor | lib/util/cbitset.c:18-32 | a new bitset is empty |
| Bitset.Bitset.WithCapacity | lib/util/cbitset.c:34-56 | a new bitset with room is empty |
| Bitset.Bitset.Copy | lib/util/cbitset.c:58-78 | a copy has the same words in memory of its own |
| Bitset.Bitset.Clear | lib/util/cbitset.c:80-84 | the set becomes empty, the size stays |
| Bitset.Bitset.ShiftLeft | lib/util/cbitset.c:86-118 | the set becomes the numbers plus s |
| Bitset.Bitset.ShiftRight | lib/util/cbitset.c:120-148 | the set becomes the numbers at least s, less s |
| Bitset.MoveUp | lib/util/cbitset.c:96-99 | from the top down no word is read after it is overwritten |
| Bitset.ShiftUp | lib/util/cbitset.c:104-112 | the same with bits crossing words |
| Bitset.MoveDown | lib/util/cbitset.c:129-132 | from the bottom up no word is read after it is overwritten |
| Bitset.ShiftDown | lib/util/cbitset.c:137-143 | the same with bits crossing words |
| Bitset.Bitset.Resize | lib/util/cbitset.c:158-180 | old words stay, new ones are zero if asked for, the size never exceeds the capacity |
| Bitset.Bitset.Grow | lib/util/cbitset.h:72-95 | only zero words are added, so that stale words never reappear |
| Bitset.Bitset.Set | lib/util/cbitset.h:107-119 | one number is added, the array grown if it must |
| Bitset.Bitset.Unset | lib/util/cbitset.h:124-133 | one number is removed |
| Bitset.Bitset.Get | lib/util/cbitset.h:136-145 | whether the number is in the set |
| Bitset.Bitset.Trim | lib/util/cbitset.c:435-459 | the set stays and the size becomes the least that holds it |
| Bitset.TrimmedFits | lib/util/cbitset.c:435-445 | all members fit the trimmed size and the last word is needed |
| Bitset.Bitset.InplaceUnion | lib/util/cbitset.c:213-231 | the union, for any two sizes and for a set with itself |
| Bitset.Bitset.InplaceIntersection | lib/util/cbitset.c:312-326 | the intersection |
| Bitset.Bitset.InplaceDifference | lib/util/cbitset.c:328-338 | the difference |
| Bitset.Bitset.InplaceSymmetricDifference | lib/util/cbitset.c:358-377 | the symmetric difference |
| BitsetCounts.Count | lib/util/cbitset.c:182-211 | the unrolled loops count the members |
| BitsetCounts.UnionCount | lib/util/cbitset.c:261-310 | the unrolled loops count the union |
| BitsetCounts.IntersectionCount | lib/util/cbitset.h:168-178 | counts the intersection |
| BitsetCounts.DifferenceCount | lib/util/cbitset.c:340-356 | counts the difference |
| BitsetCounts.SymmetricDifferenceCount | lib/util/cbitset.c:379-405 | counts the symmetric difference |
| BitsetCounts.CountAgrees | lib/util/cbitset.c:213-231 | counting a union before it is made agrees with counting it afterwards, and inclusion and exclusion hold |
| WordSets.InclusionExclusion | lib/util/cbitset.c:261-310 | the counts of union and intersection add up to those of the two, for any two sizes |
| WordSets.TotalCountIs | lib/util/cbitset.c:182-211 | the one bits of all words are as many as the members |
| WordShifts.LeftMembers | lib/util/cbitset.c:86-118 | the words of a left shift stand for the numbers moved up |
| WordShifts.RightMembers | lib/util/cbitset.c:120-148 | the words of a right shift stand for the numbers moved down |
| WordShifts.ShiftRoundTrip | lib/util/cbitset.c:86-148 | shifting right by as much as was shifted left is the identity |
| BitsetScan.Minimum | lib/util/cbitset.c:233-245 | the least member, or zero |
| BitsetScan.Maximum | lib/util/cbitset.c:247-259 | the greatest member, or zero |
| BitsetScan.NextSetBit | lib/util/cbitset.h:207-234 | the first member from a position on, or that there is none |
| BitsetScan.VisitByNext | lib/util/cbitset.h:200-206 | the documented loop visits exactly the members, once, in increasing order |
| BitsetScan.ListingIs | lib/util/cbitset.h:200-206 | the listing is increasing, complete and as long as the set is large |
| BitsetEach.ForEach | lib/util/cbitset.h:290-308 | the callback gets the members in increasing order until it says stop; the result says whether it did |
| BitsetEach.VisitByEach | lib/util/cbitset.h:290-308 | what an uninterrupted callback gets is the listing of the set |
| BitsetEach.WordListing | lib/util/cbitset.h:296-305 | clearing the lowest bit until the word is zero meets the members of the word in order |
| Words.ClearLowestSmaller | lib/util/cbitset.h:299-304 | clearing the lowest one bit makes the word smaller, so that the loop ends |
| BitsetBatch.NextSetBits | lib/util/cbitset.h:245-286 | the buffer gets the first members of the report, as many as fit |
| BitsetBatch.ReportedIff | lib/util/cbitset.h:256-266 | the report lists the members from the start on exactly when the start is at a word boundary or its word has no more members |
| BitsetBatch.ReportedExample | lib/util/cbitset.h:256-266 | going on from inside a word can report a number that is not a member |
| BitsetBatchLoop.BatchesIff | lib/util/cbitset.h:236-286 | the documented loop over batches ends and lists the members exactly when no full batch ends between two members in the same word |
| BitsetBatchLoop.NeverEnds | lib/util/cbitset.h:236-286 | on a set of two members, batches of one go on for ever |
| BitsetBatchLoop.VisitByBatch | lib/util/cbitset.h:236-244 | the documented loop collects the batches, whenever it ends |
| BitsetCompare.Equal | lib/util/cbitset.c:407-418 | whether the two agree on the words both have |
| BitsetCompare.EqualIff | lib/util/cbitset.c:407-418 | that answer is equality of the sets exactly when the common words differ or neither has members beyond them |
| BitsetCompare.EqualMeans | lib/util/cbitset.c:407-418 | the sets are equal exactly when the answer is yes and neither has members beyond the common words |
| BitsetCompare.EqualSafe | lib/util/cbitset.c:407-418 | whatever the common words are, the answer is right exactly when the words that only one of the two has are zero |
| BitsetCompare.Subseteq | lib/util/cbitset.c:420-433 | whether the first is included in the second on the words both have |
| BitsetCompare.SubseteqIff | lib/util/cbitset.c:420-433 | that answer is inclusion exactly when it is no or the first has no members beyond the common words |
| BitsetCompare.SubseteqMeans | lib/util/cbitset.c:420-433 | the first is a subset exactly when the answer is yes and it has no members beyond the common words |
| BitsetCompare.SubseteqSafe | lib/util/cbitset.c:420-433 | whatever the common words are, the answer is right exactly when the words that only the first has are zero |
| BitsetCompare.EqualExample | lib/util/cbitset.c:407-433 | the empty bitset passes for equal to another, and for a superset |
| BaseN.Encode | lib/util/basen.h:210-253 | the text is the bits regrouped, spelt and padded; the padding loop ends |
| BaseN.EncodeDigits | lib/util/basen.h:212-246 | the main loop emits the regrouping of the bytes, zero-filled at the end |
| BaseN.PaddingLeast | lib/util/basen.h:248-252 | the padding is the least that brings the text to a multiple of 2, 8 or 4 |
| BaseN.PaddingStep | lib/util/basen.h:248-252 | each turn of the padding loop comes one character closer to position zero |
| BaseNDecode.Decode | lib/util/basen.h:165-208 | the bytes are the bits of the digits joined, everything else passed over |
| BaseNDecode.TakeDigit | lib/util/basen.h:183-205 | one digit goes into the buffer, which is flushed when full |
| BaseNDecode.RoundTrip | lib/util/basen.h:165-253 | any text with the alphabet characters of an encoding, in order, decodes to the bytes encoded |
| BaseNDecode.Inserted | lib/util/basen.h:172-182 | characters outside the alphabet may be inserted anywhere |
| BaseNDecode.DigitsKept | lib/util/basen.h:172-182 | decoding depends on the alphabet characters only |
| BaseNDecode.EncodeAndDecode | lib/util/basen.h:165-253 | decoding an encoding with white space or pad characters put in gives the bytes back |
| BaseNDecode.EncodedLength | lib/util/basen.h:210-253 | as many digits as the bits need and no more, padded to a multiple of the unit |
| BaseNBits.PartialBits | lib/util/basen.h:61-69 | the extracted value has exactly the bits asked for |
| BaseNBits.OverlappingBits | lib/util/basen.h:71-79 | the extracted value has the last bits of one byte and the first of the next |
| BaseNAlphabets.DigitCode | lib/util/basen.h:83-145 | the alphabets by their character codes, as in tables 1, 3 and 5 of RFC 4648 |
| BaseNAlphabets.DecodeCode | lib/util/basen.h:97-163 | a character decodes to a value exactly when it has the code of that value |
| BaseNAlphabets.DecodeDigit | lib/util/basen.h:83-163 | every digit of each alphabet decodes to its index |
| BitStrings.JoinRegrouped | lib/util/basen.h:165-253 | joining regrouped bits gives back the bytes |
| SipHashVectors.EmptyMessage | lib/util/siphash.cpp:4-43 | under the key of the bytes 0 to 15 the empty message hashes to 726fdb47dd0e0e31 |
| SipHashVectors.FifteenBytes | lib/util/siphash.cpp:4-43 | and the bytes 0 to 14 to a129ca6149be45e5, the example of the paper that defines SipHash |
| SipHashVectors.MachineAgrees | lib/util/siphash.h:18-52 | addition, exclusive or and the five rotations of the machine are those of 64-bit vectors |
| SipHashBits.SpinIs | lib/util/siphash.h:18-22 | shifting left, shifting right and joining is as many rotations by one place |
| SipHashBits.WSum | lib/util/siphash.h:38-48 | a vector whose bits are the two others' and their carries has their sum modulo 2^64 |
| SipHashStream.HashMessage | lib/util/siphash.cpp:4-43 | with the real word operations, updating with any pieces and digesting gives SipHash-2-4 of the whole message |
| SipHashStream.HashPieces | lib/util/siphash.h:69-92 | however a message is cut, the digest is that of the whole |
| SipHashStream.SipHash24.constructor | lib/util/siphash.cpp:4-17 | the state of the empty message |
| SipHashStream.SipHash24.Update | lib/util/siphash.h:69-92 | blocks and single bytes together give the state of the byte-at-a-time form |
| SipHashStream.SipHash24.AbsorbBlock | lib/util/siphash.h:75-82 | one block at once is the same as its eight bytes |
| SipHashStream.SipHash24.AbsorbByte | lib/util/siphash.h:83-91 | one byte |
| SipHashStream.SipHash24.Digest | lib/util/siphash.cpp:23-43 | the length goes on top of the last block, and four rounds end it |
| SipHashStream.SipHash24.DigestBlock | lib/util/siphash.h:54-63 | two rounds with the block mixed in before and after |
| SipHashStream.SipHash24.Compress | lib/util/siphash.h:35-52 | the sequence of updates is one round of two half rounds |
| SipHashStream.DigestIsHash | lib/util/siphash.cpp:23-43 | the digest of the bytes one by one is the hash of the padded little-endian blocks with the length modulo 256 |
| SipHashStream.FeedAfter | lib/util/siphash.h:69-92 | the state after a message is that of its whole blocks and the bytes left over |
| SipHash.FeedBlock | lib/util/siphash.h:75-91 | the fast path refines the slow one |
| SipHash.MachinePositional | lib/util/siphash.h:24-33 | a byte shifted to its place and joined makes the little-endian word |
| LittleEndian.OrByte | lib/util/siphash.h:83-86 | joining a shifted byte is adding it to the little-endian number |
| Crc16.Crc | lib/util/crc16.cpp:82-89 | the table-driven loop computes the remainder of long division of the message times x^16 by x^16 + x^12 + x^5 + 1 |
| Crc16.TableIs | lib/util/crc16.cpp:47-80 | each of the 256 entries is what eight shifts make of its index |
| Crc16.NextIs | lib/util/crc16.cpp:85-87 | one turn of the loop is eight message bits |
| Crc16.Linear | lib/util/crc16.cpp:82-89 | the checksum of the exclusive or of two messages is the exclusive or of their checksums |
| Crc16.Residue | lib/util/crc16.cpp:82-89 | a message and two more bytes have checksum zero exactly when the two are its checksum, high byte first |
| Crc16.CrcAndAppend | lib/util/crc16.cpp:82-89 | appending the checksum gives a message of checksum zero |
| Crc16.BurstDetected | lib/util/crc16.cpp:32-45 | messages that differ only within sixteen adjacent bits have different checksums |
| Gf2.DivideIsRemainder | lib/util/crc16.cpp:39-43 | division bit by bit is long division |
| HttpAccept.GoodIff | lib/http/request_parser.cpp:29-286 | over any input the outcome is good after n characters with a request exactly when the first n characters are that request printed |
| HttpOutcome.UndecidedIff | lib/http/request_parser.cpp:29-286 | nothing is settled exactly as long as some printed request begins with what has been read and goes on |
| HttpOutcome.BadIff | lib/http/request_parser.cpp:29-286 | the outcome is bad after n characters exactly when they are the first with which no printed request begins or ends |
| HttpPrint.PrintParses | lib/http/request_parser.cpp:29-286 | every printed request, folded header lines included, parses to good with exactly its fields |
| HttpAccept.GoodIsPrinted | lib/http/request_parser.cpp:29-286 | whatever is found good is a printed request |
| HttpAccept.Step | lib/http/request_parser.cpp:29-286 | an undecided character keeps the text so far and the fields so far in the shape that belongs to the state |
| HttpParser.RequestParser.constructor | lib/http/request_parser.cpp:19-21 | a new parser waits for a method |
| HttpParser.RequestParser.Reset | lib/http/request_parser.cpp:23-27 | a reset parser waits for a method |
| HttpParser.RequestParser.Consume | lib/http/request_parser.cpp:29-286 | one character moves the machine as Next says; in a header there is always a last header |
| HttpParser.RequestParser.Parse | lib/http/request_parser.hpp:38-49 | a buffer is read up to the character that settles the outcome |
| HttpParser.ParseBuffers | lib/http/request_parser.hpp:38-49 | however the bytes are split, outcome, request and count are those of all bytes at once |
| HttpRequest.TokenCodes | lib/http/request_parser.cpp:288-328 | the characters of a token, by their codes |
| HttpGrammar.NumPlaces | lib/http/request_parser.cpp:127-173 | the version numbers are their digits by place value |
| HttpRequest.FeedConcat | lib/http/request_parser.hpp:38-49 | a second buffer goes on where the first ended, and is not read when the outcome is settled |
| LruRuns.MostRecentlyUsed | lib/util/lrucache.hpp:53-79 | after any puts and gets the cache holds as many keys as it has room for, with the values put last, in order of use, and any other key was used before all of them; a get is a use if it finds its key |
| LruRuns.AlwaysInOrder | lib/util/lrucache.hpp:53-105 | in every run, with erasing and clearing, the entries are in order of last use and have the values put last |
| LruRuns.EffectiveAfter | lib/util/lrucache.hpp:71-79 | gets that find nothing leave no trace |
| LruRuns.SuccessfulRecent | lib/util/lrucache.hpp:53-79 | the same as MostRecentlyUsed where every get finds its key |
| LruRuns.Run | lib/util/lrucache.hpp:53-105 | over any run the cache holds what the operations give on a list of entries |
| LruRuns.FirstOfHistory | lib/util/lrucache.hpp:53-79 | the cache is the beginning of the full history of use |
| LruCache.LruCache.constructor | lib/util/lrucache.hpp:49-51 | a new cache is empty |
| LruCache.LruCache.Insert | lib/util/lrucache.hpp:53-69 | the entry comes first, an older one of its key goes, and the last one goes when there are too many |
| LruCache.LruCache.Get | lib/util/lrucache.hpp:71-79 | the value if there is one, its entry moved to the front; the error otherwise |
| LruCache.LruCache.EraseIfExists | lib/util/lrucache.hpp:81-87 | the entry of the key goes |
| LruCache.LruCache.EraseIf | lib/util/lrucache.hpp:89-100 | exactly the entries whose values are chosen go, in whatever order the map is walked |
| LruCache.LruCache.Clear | lib/util/lrucache.hpp:102-105 | nothing is left |
| LruCache.KeysDistinct | lib/util/lrucache.hpp:115-118 | list and map are in one-to-one correspondence |

## Left out

Weaker than the source, on purpose:

- Bitset.Bitset.ShiftLeft: asks for a word when shifting by part of a word, because the source then reads the last word without checking that there is one.
- Bitset.Bitset.ShiftRight: asks that no more words are shifted out than there are, because the source subtracts without checking.
- Bitset.Bitset.Trim: an allocation of no bytes is taken to succeed; the source aborts where it returns null.
- HttpParser.RequestParser.Consume: version numbers are unbounded, because the overflow of a C++ int is undefined.
- ScpBallotProtocol.BallotProtocol.BumpState: counters are unbounded; the source's are 32 bits wide and do not wrap in practice.
- ScpBallotProtocol.BallotProtocol.BumpToBallot: does not model the flag that a quorum has been heard, which only steers timers.
- ScpQuorum.IsVBlocking: counts in unbounded numbers, where the source casts to an int; `isQuorumSetSane` allows a thousand nodes.
- ScpSoundness.SoundIff: says that a commitment accepted with nothing prepared breaks the invariants, and not whether that happens to an intact node.
- BitsetBatchLoop.VisitByBatch: asks that the loop ends, because otherwise it does not; `BatchesIff` says when it ends rightly.
- BitsetCounts.Count: counts and sizes are unbounded numbers, as no array comes near 64 bits of length.

Not modelled:

- Consensus: nomination, timers, the choice among candidate ballots, restoring a node from its last statement, distance and weight of quorum sets, and that runs make progress.
- Ledger, transactions, buckets, history, overlay and the database: everything under `src` other than `src/scp`.
- getopt: matching the names of long options, error messages, the environment variable POSIXLY_CORRECT, and the early return at lib/util/getopt_long.c:429-430.
- JSON: comments and their placement, source offsets, strict mode and other features, the other writers, paths, and how real numbers are printed and scanned.
- Bitset: allocation failure, printing, and the sizes in bytes and bits.
- Bitset operands that share memory without being the same bitset, which the source never makes.
- Base-n: the iterators, which the model replaces by sequences.
- HTTP: the connection, the server, replies and URL decoding.
- LRU cache: the reference that `get` returns, through which a caller may change the value.
- Logging, formatting, TOML, SQLite and the scripts.
