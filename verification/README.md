# Rubash in Dafny

Rubash is a port of GNU Bash to Rust. It keeps much of its state as encoded text that is printed and parsed on every
use, and it carries several of Bash's small languages. This project models those parts as the code has them and
proves what they are for. Loops and objects of the source are methods and classes here, each proved against a
specification function; the theorems are lemmas about those functions. Further lemmas say in characters and numbers
what each operation does to any written text, without those functions.

| file | what it is about |
|---|---|
| `Text.dfy` | strings and the library functions on them |
| `AssocCodec.dfy`, `AssocRoundTrip.dfy` | the text form of associative arrays: splitter, merger, tokenizer, unquoter, and that together they undo the printer |
| `AssocForms.dfy` | the same text spelled out: bare, single-quoted and double-quoted words with any blanks, and what each of them stores |
| `AssocUpdate.dfy` | compound assignments to an associative array as updates of a finite map |
| `KeyHash.dfy`, `AssocOrder.dfy`, `KeyOrder.dfy` | the FNV-1 hash and the growing table that fix the order of keys, and that order by the hash modulo 1024 |
| `TestCommand.dfy`, `TestMeaning.dfy`, `TestArity.dfy`, `TestLeaves.dfy` | `test` and `[`: the parser object, its grammar, the value of expression trees, the dispatch on the argument count, and the values and errors of short expressions |
| `FieldSplit.dfy`, `FieldText.dfy` | the three field splitters, and the fields of texts that are laid out character by character |
| `Umask.dfy`, `UmaskText.dfy` | symbolic modes of `umask`, on classes and permissions and on single bits |
| `IndexedCodec.dfy`, `IndexedRoundTrip.dfy`, `IndexedText.dfy` | the text form of indexed arrays in `printf -v`, its round trip, and what written lists are read as |
| `BraceScan.dfy` | the scanner for `${...}` |
| `ShellQuote.dfy` | quoting in listings, and a reader that removes the quotes |
| `LoopControl.dfy`, `LoopMachine.dfy`, `LoopStatus.dfy`, `LoopCounting.dfy`, `LoopInputs.dfy` | `while` and `until` with `break n` and `continue n`, a machine with jumps that does the same, the status a loop leaves, a machine that counts loops differently, and the here-document descriptors of a loop |
| `Aliases.dfy`, `AliasText.dfy` | alias expansion, and the texts and variables it depends on |
| `Traps.dfy`, `TrapNames.dfy` | the trap table, and the names of signals and variables |
| `Namerefs.dfy` | chains of name references |

Strings are sequences of Unicode scalar values. Hashing is done on natural numbers with the 32-bit wrap-around
written out. A machine word of `umask` is the set of its bit positions. Files, terminals and simple commands are
unknown functions that the theorems hold for whatever they return.

## What holds only under a condition

The lemmas state these as equivalences:

* A stored associative array comes back unless a string holds one of the four marker characters or is the text `\"\`.
* A value of an indexed array comes back unless it has a newline, carriage return or single quote and also a
  backslash directly before `n` or `r`. Other backslashes do no harm.
* A quoted listing value reads as itself unless it has a control character and, besides, a single quote or a control
  character beyond ASCII.
* With at most four arguments `test` can depart from its own grammar only for `! -a x`, `! ! -a x`, `! x -a y`, `! x -o y`,
  and for `( op )` where `op` is a binary operator.
* A comparison in `test` whose left string is `!` is never read as itself, and one whose left string is `(` only as
  `( op )` when it holds.
* The plain splitter differs from the mixed one on the empty value, where it yields one empty field, and on values
  with a quoting marker, save one at the end that the IFS holds too.
* A quoting marker inside IFS makes the mixed splitter lose a field for every run of blanks between text and a marked
  character.
* `break n` and `continue n` count the loops whose body runs. That is right for every program whose conditions hold
  neither; `while break` never ends at top level.
* The list of traps and the actions stay in step unless a signal name holds a colon, which no name of the table does.
* The first word of an alias expansion may still be an alias when an alias without text stood before it.
* A listing of an associative array agrees with lookups unless a key is repeated with different first and last values.
* A loop that redirects one descriptor twice leaves it reading the first text.

Where the comments of the source, or the Bash it follows, disagree with its code, the code is followed:

* `bash_assoc_order` is said to give a repeated key its last value; it gives the first one, and a lookup gives the
  last.
* A cycle of name references is not reported; the walk stops after sixteen hops at a name reference.
* A `break` in the condition of a loop is not counted for that loop: it ends the enclosing one, since the condition
  runs outside the depth that the loop adds.

## Model

| member | source | states |
|---|---|---|
| `AssocRoundTrip.StoredReadsBack` | src/executor/assignment_helpers.rs:257-342 | for every list of pairs, reading the printed array yields the same pairs in the same order, each string changed only by the marker substitutions and the one sentinel text |
| `AssocRoundTrip.RoundTrip` | src/executor/assignment_helpers.rs:257-342 | printing and reading give the list back if and only if no key and no value holds a marker character or is the sentinel |
| `AssocRoundTrip.SentinelIsLost` | src/executor/assignment_helpers.rs:513-515 | the sentinel text alone is enough to lose a value |
| `AssocRoundTrip.TokensReadBack` | src/executor/assignment_helpers.rs:227-244 | splitter and merger together give back any list of finished tokens joined by blanks |
| `AssocRoundTrip.PairTextReads` | src/executor/assignment_helpers.rs:155-225 | a printed `[key]=value` or `[key]+=value` is one finished token, and the tokenizer finds exactly its key, operator and value whatever brackets, quotes or equals signs the key holds |
| `AssocRoundTrip.ForcedReads` | src/executor/assignment_helpers.rs:306-316 | a fully quoted text is one finished token that assigns nothing |
| `AssocRoundTrip.UnquoteQuoted` | src/executor/assignment_helpers.rs:274-304 | unquoting a printed key or value gives its canonical form, quoted or bare |
| `AssocCodec.QuoteAssocStorageValueForced` | src/executor/assignment_helpers.rs:306-316 | the loop builds the specified escaped text, which the round trip inverts |
| `AssocCodec.StorageWordIter.SkipBlanks` | src/executor/assignment_helpers.rs:457-462 | moves the offset past the leading blanks and no further |
| `AssocCodec.StorageWordIter.TakeWord` | src/executor/assignment_helpers.rs:464-501 | takes the longest word the quotes allow and moves past the blank that ends it |
| `AssocCodec.StorageWordIter.Next` | src/executor/assignment_helpers.rs:456-501 | each call yields the first remaining word and leaves the others, and ends the iteration only when there is none |
| `AssocCodec.SplitStorageWords` | src/executor/assignment_helpers.rs:441-446 | the iterator run to its end yields the word list of the specification |
| `AssocCodec.AssocAssignmentToken` | src/executor/assignment_helpers.rs:155-187 | finds the unquoted bracket that closes the subscript, and fails on the same tokens as the specification |
| `AssocCodec.AssocTokenScanState` | src/executor/assignment_helpers.rs:189-225 | reports an open bracket or quote if and only if the token is unfinished |
| `AssocCodec.MergeAssocSubscriptTokens` | src/executor/assignment_helpers.rs:227-244 | joins tokens until none is unfinished, keeping their order |
| `AssocCodec.UnescapeDoubleQuoted` | src/executor/assignment_helpers.rs:531-548 | removes backslashes before the five special characters only, and keeps a last one |
| `AssocCodec.UnquoteStorageValue` | src/executor/assignment_helpers.rs:504-553 | the unquoting whose result on every quoted form `AssocForms.FormUnquotes` spells out |
| `AssocUpdate.AppendAssocValue` | src/executor/assignment_helpers.rs:41-130 | the new text, for the branches without the integer attribute; `AssocForms.WrittenMeaning` says what it is for every written list |
| `AssocUpdate.ReadTokens` | src/executor/assignment_helpers.rs:62-63 | the tokens of an assignment list are the merged words of what its parentheses enclose |
| `AssocUpdate.HasSubscript` | src/executor/assignment_helpers.rs:64-66 | tells subscripted lists from alternating ones |
| `AssocUpdate.AppendPairs` | src/executor/assignment_helpers.rs:68-81 | words without subscripts are appended in pairs, the last value empty when missing |
| `AssocUpdate.ApplyAssignments` | src/executor/assignment_helpers.rs:83-127 | each assignment replaces in its slot, concatenates, or appends at the end |
| `AssocUpdate.FindLast` | src/executor/assignment_helpers.rs:344-349 | a lookup finds the last pair with the key |
| `AssocUpdate.AssignmentMeaning` | src/executor/assignment_helpers.rs:41-130 | for every stored array and every printed assignment list, the new text is the text of the array that the list means |
| `AssocUpdate.StorableAssignment` | src/executor/assignment_helpers.rs:41-130 | with storable strings the updated text is the updated array, exactly |
| `AssocUpdate.RunKeepsText` | src/executor/assignment_helpers.rs:41-130 | after any number of assignments the text still is that of the array and still reads as the array |
| `AssocUpdate.AppliedIsMapOp` | src/executor/assignment_helpers.rs:83-127 | one update of the pair list is one update of the finite map it stands for, and keeps keys distinct |
| `AssocUpdate.AssignmentIsMapUpdate` | src/executor/assignment_helpers.rs:83-127 | the same for every list of updates |
| `AssocUpdate.LookupAfterAssignment` | src/executor/assignment_helpers.rs:41-130 | a lookup in the text after a subscripted assignment is a lookup in the updated map |
| `AssocForms.FormUnquotes` | src/executor/assignment_helpers.rs:504-553 | the value stored for a written word: a bare word with its backslashes, the inside of single quotes as it is, the inside of double quotes without the backslash before five characters, markers turned into what they stand for |
| `AssocForms.WrittenMeaning` | src/executor/assignment_helpers.rs:41-130 | for every array, every list of words whose keys and values are bare, single-quoted or double-quoted, and every choice of blanks, the new text is that of the array with these assignments made |
| `AssocForms.SingleQuotedValue` | src/executor/assignment_helpers.rs:517-522 | in particular single quotes hold blanks and brackets together and are not stored |
| `AssocForms.WrittenEntries` | src/executor/assignment_helpers.rs:318-342 | stored text in any of these forms, with any blanks, is read as its entries in order |
| `AssocForms.BlanksInSubscript` | src/executor/assignment_helpers.rs:227-244 | a subscript of several bare words is one key with one space between the words, whatever blanks were written |
| `AssocForms.PrinterWrites` | src/executor/assignment_helpers.rs:257-316 | the printed text spelled out: one space between pairs, quotes for a value that is empty or has a blank, a quote or a backslash and for a key with a closing bracket too |
| `AssocForms.RewrittenText` | src/executor/assignment_helpers.rs:504-515 | the one text that storage rewrites, and into what |
| `AssocForms.UpdateInPlace` | src/executor/assignment_helpers.rs:83-127 | a new key goes to the end, a known one keeps the slot of its last entry, and no other entry changes |
| `AssocForms.PairsUp` | src/executor/assignment_helpers.rs:68-81 | even words are keys, odd ones their values, a missing last value is empty |
| `AssocForms.WordAlone` | src/executor/assignment_helpers.rs:41-81 | a value without parentheses is taken as one key, and an empty one changes nothing |
| `AssocForms.LooseEntry` | src/executor/assignment_helpers.rs:318-342 | stored words without a subscript: the key ends at the first equals sign, brackets around it go away |
| `AssocForms.NoList` | src/executor/assignment_helpers.rs:318-324 | stored text without parentheses holds no pair |
| `AssocUpdate.AlternatingDistinct` | src/executor/assignment_helpers.rs:68-81 | the alternating form keeps keys distinct exactly when the new keys are distinct and new |
| `KeyHash.BashHashString` | src/executor/assignment_helpers.rs:362-369 | 32-bit FNV-1 with wrap-around and sign-extended bytes over the UTF-8 form of the key |
| `KeyHash.LastByteSeparates` | src/executor/assignment_helpers.rs:362-369 | keys that differ only in the last byte never collide |
| `KeyHash.MaskIsRemainder` | src/executor/assignment_helpers.rs:408-415 | masking with a power of two less one is the remainder |
| `KeyHash.Utf8Spells` | src/executor/assignment_helpers.rs:362-369 | the bytes hashed for a character spell its code point in one to four bytes |
| `KeyHash.HashSnoc` | src/executor/assignment_helpers.rs:362-369 | each byte: multiply by 16777619 modulo two to the 32nd, then mix in the byte, which turns the upper three bytes over from 0x80 on; the start value is 2166136261 |
| `KeyHash.HashValues` | src/executor/assignment_helpers.rs:362-369 | the hashes of `0`, `two` and U+E9 as numbers |
| `AssocOrder.BucketFor` | src/executor/assignment_helpers.rs:408-415 | the masked hash selects the bucket that the table says |
| `AssocOrder.UniqueIndices` | src/executor/assignment_helpers.rs:389-398 | the first occurrence of every key, in order |
| `AssocOrder.FirstIndicesAre` | src/executor/assignment_helpers.rs:389-398 | an index is kept if and only if no earlier pair has its key; the indices ascend |
| `AssocOrder.Rehash` | src/executor/assignment_helpers.rs:404-414 | the growing loop builds the table four times as large |
| `AssocOrder.Insert` | src/executor/assignment_helpers.rs:403-418 | one insertion, growing first when there are twice as many items as buckets |
| `AssocOrder.BuildTable` | src/executor/assignment_helpers.rs:400-418 | the loop builds the table whose size `KeyOrder.TableSize` gives for every number of items |
| `AssocOrder.BashAssocOrder` | src/executor/assignment_helpers.rs:385-425 | each listed index comes with its pair, in the order that `KeyOrder.KeysOrdered` gives by the hash modulo 1024 |
| `AssocOrder.TableKeeps` | src/executor/assignment_helpers.rs:400-418 | after every insertion the bucket count is a power of two, each item is in the bucket its hash selects, there are at most two items a bucket on average, and the items are those inserted |
| `AssocOrder.GrowReverses` | src/executor/assignment_helpers.rs:404-414 | new bucket b is the reverse of what old bucket b mod n holds for it |
| `AssocOrder.OrderListsFirstOccurrences` | src/executor/assignment_helpers.rs:385-425 | each first occurrence is listed once and nothing else is |
| `AssocOrder.OrderAscends` | src/executor/assignment_helpers.rs:385-425 | the listing visits the buckets in ascending order |
| `AssocOrder.OrderAgreesWithLookup` | src/executor/assignment_helpers.rs:344-425 | a listed pair has the value a lookup finds if and only if the first and the last value of its key are equal |
| `AssocOrder.ListingAgrees` | src/executor/assignment_helpers.rs:344-425 | the whole listing agrees with lookups if and only if that is so for every key |
| `AssocUpdate.RepeatedKey` | src/executor/assignment_helpers.rs:68-81 | the alternating list `k a k b` gets there: the listing shows a, a lookup finds b |
| `AssocOrder.DistinctKeysAgree` | src/executor/assignment_helpers.rs:344-425 | with distinct keys the listing holds every pair once, each with the value a lookup finds |
| `KeyOrder.TableSize` | src/executor/assignment_helpers.rs:400-418 | the table starts with 1024 buckets and has four times as many whenever it held twice as many items |
| `KeyOrder.KeysOrdered` | src/executor/assignment_helpers.rs:385-425 | with at most 2048 keys one entry is listed before another if and only if its hash modulo 1024 is smaller, or they are equal and it came later |
| `KeyOrder.TwoAndZero` | src/executor/assignment_helpers.rs:376-425 | the keys `two` and `0`, entered in this order, are listed the other way round |
| `TestCommand.Term` | src/builtins/test.rs:298-343 | a successful term has read at least one argument and none beyond the last |
| `TestCommand.And` | src/builtins/test.rs:288-296 | likewise for a conjunction, which ends before no `-a` |
| `TestCommand.Or` | src/builtins/test.rs:276-286 | likewise for a disjunction, which ends before no `-o` |
| `TestCommand.TestParser.Advance` | src/builtins/test.rs:139-147 | moves one argument on, and fails at the end only when asked to check |
| `TestCommand.TestParser.UnaryOperator` | src/builtins/test.rs:235-257 | reads a unary test as the grammar does, with the optional operand of `-t` |
| `TestCommand.TestParser.BinaryOperator` | src/builtins/test.rs:259-267 | reads a binary test, whose values `TestLeaves.IntegerTests`, `TestLeaves.StringTests` and `TestLeaves.FileTests` spell out |
| `TestCommand.TestParser.ParseExpr` | src/builtins/test.rs:269-274 | the object reads an expression as the grammar does, to the same position or the same error |
| `TestCommand.TestParser.ParseOr` | src/builtins/test.rs:276-286 | the same for `-o` |
| `TestCommand.TestParser.ParseAnd` | src/builtins/test.rs:288-296 | the same for `-a` |
| `TestCommand.TestParser.ParseTerm` | src/builtins/test.rs:298-343 | the same for terms |
| `TestCommand.TestParser.ParseTwoArguments` | src/builtins/test.rs:187-203 | the two-argument dispatch |
| `TestCommand.TestParser.ParseThreeArguments` | src/builtins/test.rs:205-231 | the three-argument dispatch |
| `TestCommand.TestParser.ParsePosixTest` | src/builtins/test.rs:150-185 | the dispatch on the argument count; with the other methods: no argument is ever read past the end |
| `TestCommand.EvalExprWithBracket` | src/builtins/test.rs:346-368 | the command holds or not only when every argument was consumed; `TestLeaves` spells out the values and errors of one to five words |
| `TestMeaning.TreeReads` | src/builtins/test.rs:269-343 | wherever the printed form of a tree stands, the parser reads it to its end with the value of the tree, strictly: an error of any leaf is the error of the whole |
| `TestMeaning.GrammarMeaning` | src/builtins/test.rs:269-343 | read by the grammar every printed tree has its own value, whatever its size |
| `TestMeaning.ExpressionMeaning` | src/builtins/test.rs:150-343 | a tree of five or more tokens is evaluated to its own value by the whole command, `-a` binding tighter than `-o` |
| `TestMeaning.StringExact` | src/builtins/test.rs:298-343 | a lone string is read as itself if and only if the condition on string leaves holds |
| `TestMeaning.UnaryExact` | src/builtins/test.rs:235-343 | a unary test is read as itself if and only if the condition on unary leaves holds |
| `TestMeaning.BinaryExact` | src/builtins/test.rs:298-343 | a comparison that has a value is read as itself if and only if its left string is not `!`, and is `(` only in `( op )` where the comparison holds |
| `TestMeaning.OpenParenthesisMisread` | src/builtins/test.rs:306-325 | one that is not: `( = ) -a x` is read as a group, with another value |
| `TestArity.DispatchMeaning` | src/builtins/test.rs:150-231 | with up to four tokens the dispatch gives every printed tree its own value, except in the shapes spelled out, whose value is given |
| `TestArity.ArityAgreement` | src/builtins/test.rs:150-343 | dispatch and grammar agree on a tree of up to four tokens if and only if it is in none of those shapes or the values coincide |
| `TestLeaves.IntegerTests` | src/builtins/test.rs:520-548 | for all numbers of 64 bits and their decimal texts each of the six operators holds if and only if the numbers compare so |
| `TestLeaves.IntegerErrors` | src/builtins/test.rs:531-548 | a word that is no number is the error, the left one first |
| `TestLeaves.SignedReads` | src/builtins/test.rs:544-548 | a plus sign may stand before the digits |
| `TestLeaves.NoInteger` | src/builtins/test.rs:544-548 | no digits, or another character anywhere, is no number |
| `TestLeaves.StringTests` | src/builtins/test.rs:527-530 | equality and its negation; one string is less than another if and only if it is a beginning of it or has the smaller character where they first differ |
| `TestLeaves.FileTests` | src/builtins/test.rs:537-539 | file comparisons are asked of the host, operands in order |
| `TestLeaves.TwoWords` | src/builtins/test.rs:187-257 | every value and error of two words |
| `TestLeaves.FewWords` | src/builtins/test.rs:150-166 | the values of no word and of one word |
| `TestLeaves.ThreeShapes` | src/builtins/test.rs:205-231 | `-a`, `-o` and parentheses among three words |
| `TestLeaves.NoOperator` | src/builtins/test.rs:205-231 | three words without an operator between them: the middle one is blamed |
| `TestLeaves.BinaryOperators` | src/builtins/test.rs:501-518 | the fourteen operators between two words |
| `TestLeaves.UnaryOperators` | src/builtins/test.rs:371-400 | the operators before a word |
| `TestLeaves.LeftOver` | src/builtins/test.rs:346-368 | words left over after a comparison: an option-like one is named, others are too many |
| `TestLeaves.Unclosed` | src/builtins/test.rs:306-325 | a group that is not closed |
| `TestLeaves.NothingBehind` | src/builtins/test.rs:276-343 | a connective with nothing behind it |
| `FieldSplit.SplitIfsWhitespace` | src/executor/arrays.rs:57-80 | splits at runs of blanks, marked characters being data |
| `FieldSplit.SkipIfsBlanks` | src/executor/arrays.rs:104-126 | moves past the blanks of the IFS |
| `FieldSplit.SplitMixedIfs` | src/executor/arrays.rs:82-132 | the mixed splitter over the cells of the value |
| `FieldSplit.FieldSplitValuesWithIfs` | src/executor/arrays.rs:134-167 | the fields that `FieldText.TextSplits` and `FieldText.DefaultSplits` name for every text of fields and separators |
| `FieldSplit.SplitInvertsLayout` | src/executor/arrays.rs:82-132 | for every row of fields laid out with separators (blanks, one delimiter with blanks around it) and leading blanks, splitting gives the fields back |
| `FieldSplit.SplitRefinesReference` | src/executor/arrays.rs:82-132 | conversely every value is laid out in that way, marked characters being data, and its fields are those of the layout, as section 2.6.5 of POSIX XCU describes, if and only if no blanks join text to a marked character under an IFS that holds the marker; each such joint costs one field |
| `FieldSplit.GlueMeaning` | src/executor/arrays.rs:82-132 | a marker that is itself in the IFS changes the fields if and only if there is such a joint |
| `FieldSplit.JointsCostFields` | src/executor/arrays.rs:82-132 | the number of joints is the number of fields lost |
| `FieldSplit.SplitKeepsData` | src/executor/arrays.rs:82-132 | the fields in order are the data characters of the value: none lost, moved or made up |
| `FieldSplit.FieldsAreTheValue` | src/executor/arrays.rs:82-132 | without markers the fields joined are the value without its IFS characters |
| `FieldSplit.BlankIfsAgree` | src/executor/arrays.rs:57-132 | for an IFS of blanks the two loops agree on every value, markers included |
| `FieldSplit.PlainIfsAgree` | src/executor/arrays.rs:134-167 | for any IFS without blanks the third path agrees with the mixed splitter if and only if the value is not empty and has no marker, except one at its end behind text when the IFS holds the marker too |
| `FieldSplit.MarkersAddFields` | src/executor/arrays.rs:134-167 | a marker in such an IFS never makes the third path yield fewer fields, and makes it yield more anywhere but at the end |
| `FieldSplit.ChoiceOfSplitter` | src/executor/arrays.rs:134-167 | for any non-empty IFS the chosen path gives the mixed fields if and only if that condition holds where it applies |
| `FieldSplit.JoinSplits` | src/executor/arrays.rs:134-167 | fields joined by any IFS character are split into the same fields, if and only if that character is not the marker, or the IFS has no blanks, or there is one field |
| `FieldSplit.MarkerInIfsJoins` | src/executor/arrays.rs:103-115 | the smallest joint: two fields become one |
| `FieldText.TextSplits` | src/executor/arrays.rs:49-167 | for every IFS without the marker: fields, each ended by white space of the IFS with one other IFS character in it or none, are split into the fields; characters behind a marker are data |
| `FieldText.DefaultSplits` | src/executor/arrays.rs:134-167 | under space, tab and newline, and without IFS, words with any runs of the three between them are split into the words |
| `FieldText.PlainPath` | src/executor/arrays.rs:150-167 | without white space in the IFS every separator ends a field, empty ones included but for an empty last one |
| `FieldText.EmptyIfs` | src/executor/arrays.rs:134-142 | the empty IFS splits nothing |
| `FieldText.LastMarker` | src/executor/arrays.rs:57-80 | a marker at the very end goes away |
| `Umask.CopyClass` | src/builtins/umask.rs:227-239 | a bit is set exactly when the copied class has the permission it stands for, so that every class gets the same permissions |
| `Umask.ClassPermissions` | src/builtins/umask.rs:251-263 | the text holds the letter of each permission of the class and no other, each once and in ascending order |
| `Umask.ListedIs` | src/builtins/umask.rs:251-263 | there is exactly one such text |
| `Umask.PrintSymbolicMask` | src/builtins/umask.rs:241-249 | prints the symbolic form that the round trip parses |
| `Umask.ParseWho` | src/builtins/umask.rs:150-160 | takes the longest run of who letters |
| `Umask.ParseActions` | src/builtins/umask.rs:177-202 | takes the longest run of action letters, copies coming from the initial bits |
| `Umask.ParseSymbolicMask` | src/builtins/umask.rs:142-225 | the nested loops return the specified mask or the specified error |
| `Umask.ParsedMeaning` | src/builtins/umask.rs:142-225 | for every printed list of clauses and every current mask the result is the meaning of the clauses applied in order to the rights the mask leaves |
| `Umask.AcceptedTexts` | src/builtins/umask.rs:142-225 | a text is accepted if and only if it is the printed form of a clause list whose clauses each have an operator |
| `Umask.MaskWithin` | src/builtins/umask.rs:142-225 | a resulting mask has no bit outside 0o777 |
| `Umask.UnnamedKept` | src/builtins/umask.rs:142-225 | a class that no clause is about keeps its rights |
| `Umask.MaskRoundTrip` | src/builtins/umask.rs:142-263 | parsing the symbolic form of a mask under any current mask gives its nine permission bits back |
| `UmaskText.ModeBits` | src/builtins/umask.rs:142-239 | for every written mode and every mask: each of the nine bits of the result, from the letters, operators and classes in order, copies reading the mask at the start and making the letters before them void |
| `UmaskText.NoOperator` | src/builtins/umask.rs:166-175 | behind any proper clauses and class letters: what stands where an operator should is the error, a null character at the end of the text |
| `UmaskText.StrangeCharacter` | src/builtins/umask.rs:214-222 | behind any proper mode: a character that continues nothing is the error |
| `UmaskText.Shapes` | src/builtins/umask.rs:142-225 | every text is of one of these three shapes |
| `UmaskText.SymbolicIs` | src/builtins/umask.rs:241-263 | the symbolic form shows a letter for every bit the mask does not have |
| `IndexedCodec.UnescapeDoubleQuotedStorage` | src/builtins/printf.rs:422-435 | drops every backslash and keeps the character after it, whatever that is; a last backslash is dropped as well |
| `IndexedCodec.SplitStorageWords` | src/builtins/printf.rs:437-473 | splits at blanks outside quotes |
| `IndexedRoundTrip.ValueRoundTrip` | src/builtins/printf.rs:378-435 | a value comes back from its quoted form if and only if it does not both need dollar quotes and hold a backslash directly before n or r |
| `IndexedRoundTrip.StoredReadsBack` | src/builtins/printf.rs:283-350 | reading a printed list of entries gives the map of its re-read values |
| `IndexedRoundTrip.RoundTrip` | src/builtins/printf.rs:283-350 | a finite map printed in any order comes back if and only if all its values do |
| `IndexedText.QuotedIs` | src/builtins/printf.rs:378-398 | dollar quotes exactly for values with a newline, a carriage return or a single quote, and which characters get a backslash in each form |
| `IndexedText.PrintedArray` | src/builtins/printf.rs:343-350 | the printed text: the prefix, parentheses, and `[index]=value` entries with one space between them |
| `IndexedText.DecimalAt` | src/builtins/printf.rs:347 | indices are in base ten |
| `IndexedText.FormReads` | src/builtins/printf.rs:400-435 | the value read from a bare, single-quoted, double-quoted or dollar-quoted word; single quotes stay |
| `IndexedText.PrefixedList` | src/builtins/printf.rs:302-321 | behind the prefix, with any blanks: the indices below two to the 64th that some entry gives, each with the value of the last such entry; other words are passed over |
| `IndexedText.PlainList` | src/builtins/printf.rs:284-300 | without the prefix: the words numbered from zero, a name and its equals sign dropped |
| `IndexedText.NoList` | src/builtins/printf.rs:283-309 | text without parentheses holds no entry |
| `BraceScan.CharStream.Next` | src/executor/command_subst_helpers.rs:3-10 | takes the next character of the shared iterator |
| `BraceScan.CollectBracedParameterName` | src/executor/command_subst_helpers.rs:3-87 | the loop collects the specified name and leaves the specified rest |
| `BraceScan.BodyScanned` | src/executor/command_subst_helpers.rs:3-87 | at any nesting depth a printed body is collected whole and the scan goes on behind it |
| `BraceScan.ScanInvertsText` | src/executor/command_subst_helpers.rs:3-87 | a printed body and a closing brace: the scanner collects exactly the body and leaves what follows |
| `BraceScan.ExpansionInBrackets` | src/executor/command_subst_helpers.rs:3-87 | an expansion inside brackets is opened there, but a brace inside the brackets does not close it |
| `BraceScan.ConsumedVerbatim` | src/executor/command_subst_helpers.rs:3-87 | on any text the consumed characters are the name and at most one closing brace; without that brace everything was consumed |
| `ShellQuote.AnsiQuoteValue` | src/builtins/set.rs:230-256 | builds the dollar-quoted form |
| `ShellQuote.ContainsShellMetas` | src/builtins/set.rs:258-279 | finds a character that needs quoting, in its position |
| `ShellQuote.ShellQuoteValue` | src/builtins/set.rs:201-221 | chooses the bare, escaped, single-quoted or dollar-quoted form |
| `ShellQuote.ListingReadsBack` | src/builtins/set.rs:201-279 | quote removal after sections 2.2.1 to 2.2.3 of POSIX XCU and dollar quotes gives the value back if and only if it holds no control character, or neither a single quote nor a control character beyond ASCII |
| `ShellQuote.ReadSpends` | src/builtins/set.rs:230-256 | why the other values fail: a text that ends in a quote never reads as one with as many quotes |
| `ShellQuote.QuotedForms` | src/builtins/set.rs:201-225 | which of the four forms a value gets, and the text of each |
| `ShellQuote.DollarForms` | src/builtins/set.rs:230-253 | the text of every character in dollar quotes |
| `ShellQuote.ReaderRefuses` | src/builtins/set.rs:258-279 | the reader takes no unquoted character that the shell acts on, so quotes that were left off would be noticed |
| `LoopControl.Executor.ExecuteCommand` | src/executor/pwd_loop_builtins.rs:42-110 | break and continue ask for at most as many levels as there are open loops, and do nothing outside loops |
| `LoopControl.Executor.ExecuteAst` | src/executor/ast_exec.rs:690-824 | a list ends at the first error; a stray break or continue at depth zero is dropped |
| `LoopControl.Executor.ExecuteSimpleLoop` | src/executor/alias_loops.rs:84-140 | the loop and its level unwinding: loop depth and the errexit suppression count have their entry value on every exit, and the status is the one that `LoopStatus.LoopLeaves` reads from the run |
| `LoopControl.ExecList` | src/executor/ast_exec.rs:690-824 | any run that ends restores loop depth and suppression count, errors included |
| `LoopControl.ExecLoop` | src/executor/alias_loops.rs:84-140 | the same for one loop, from any iteration on |
| `LoopMachine.ListRuns` | src/executor/alias_loops.rs:84-140 | whatever a list of commands does inside any nest of loops, the stack machine does the same and stands at the same place |
| `LoopMachine.LoopRuns` | src/executor/alias_loops.rs:84-140 | the same for a loop: errors passed outwards level by level reach the loop that the machine jumps to |
| `LoopMachine.BreakEnds` | src/executor/alias_loops.rs:93-110 | `break n` goes on after the n-th loop whose body is being executed, or the outermost; it ends exactly so many loops if and only if none of the ended ones is executing its condition |
| `LoopMachine.ContinueEnds` | src/executor/alias_loops.rs:93-117 | `continue n` tests the condition of the n-th such loop again; it ends exactly n-1 loops if and only if none of them is executing its condition |
| `LoopStatus.LoopLeaves` | src/executor/alias_loops.rs:134-138 | read from the run of the machine: a `while` that ends by its condition has the status with which a body last ended normally, zero if none did; a loop that `break` ended, and an `until`, have zero |
| `LoopStatus.OneIteration` | src/executor/alias_loops.rs:84-138 | a loop that runs its body once: what runs in which order, and the status |
| `LoopStatus.LoopControls` | src/executor/pwd_loop_builtins.rs:42-110 | in a loop: which level `break` and `continue` ask for, and that nothing behind them runs; level zero fails with status one and goes on |
| `LoopStatus.StrayControl` | src/executor/pwd_loop_builtins.rs:42-110 | outside loops they only set status zero |
| `LoopCounting.CountingAgrees` | src/executor/alias_loops.rs:84-118 | on a program whose conditions hold no break and no continue, a machine that counts the loops testing their condition as well takes the same steps, however long it runs |
| `LoopCounting.ProperPrograms` | src/executor/alias_loops.rs:84-118 | so the executor ends such a program in the state in which that machine halts, and ends it whenever that machine halts |
| `LoopCounting.BreakCountsAgree` | src/executor/alias_loops.rs:93-110 | one `break n` does the same under both ways of counting if and only if the loops it ends, testing ones included, are n, or all that have been entered |
| `LoopCounting.BreakInCondition` | src/executor/alias_loops.rs:88-110 | `break 1` in the condition of an inner loop ends the outer one as well |
| `LoopCounting.WhileBreakSpins` | src/executor/alias_loops.rs:88-110 | at top level `while break` never ends, whatever the fuel |
| `LoopCounting.WhileBreakCounted` | src/executor/alias_loops.rs:88-110 | on the machine that counts tested loops the same program halts |
| `LoopMachine.ProgramHalts` | src/executor/alias_loops.rs:84-140 | a program that ends under the executor halts on the machine in the same state with no break or continue left over |
| `LoopMachine.ListSpins` | src/executor/alias_loops.rs:84-140 | when the executor is still looping after any number of iterations, so is the machine after as many steps |
| `LoopMachine.HaltingProgramEnds` | src/executor/alias_loops.rs:84-140 | a program that halts on the machine ends under the executor, in the same state |
| `LoopInputs.FdTable.OpenInput` | src/executor/fd_table.rs:132-136 | opens the text for reading and leaves a write end alone |
| `LoopInputs.FdTable.OpenHeredocs` | src/executor/alias_loops.rs:69-80 | remembers the entry of every descriptor just before it is opened |
| `LoopInputs.FdTable.RestoreAll` | src/executor/alias_loops.rs:122-131 | puts the remembered entries back in the order of saving |
| `LoopInputs.OpenedAt` | src/executor/alias_loops.rs:69-80 | inside the loop a redirected descriptor reads the text of its last redirection, is open, and otherwise is as before |
| `LoopInputs.RestoreMeaning` | src/executor/alias_loops.rs:69-131 | whatever the loop did, other descriptors keep what it left, and a redirected one has its old entry back if and only if it was redirected once or was already reading the text of its last but one redirection |
| `Aliases.HasUnclosedQuote` | src/executor/parse_helpers.rs:152-180 | tells whether a quote is open at the end of the text |
| `Aliases.ExpandAliasWord` | src/executor/arithmetic_aliases.rs:392-438 | terminates on every table, cyclic ones included, with the specified words, flag and list of seen aliases |
| `Aliases.ExpandAliases` | src/executor/arithmetic_aliases.rs:183-208 | the words up to the first one that does not ask for more are expanded, all later words are copied unchanged |
| `Aliases.ExpandAliasesPreservingReserved` | src/executor/arithmetic_aliases.rs:246-272 | the same, stopping before a reserved word as well |
| `Aliases.ExpansionMeaning` | src/executor/arithmetic_aliases.rs:392-438 | the expansion is read off one chain of distinct aliases, and that chain is the only one whose links follow the table and which ends where expansion must: last word first, then the rest of each text, innermost first; the flag is set if and only if some alias on the chain has it |
| `Aliases.BlankContinues` | src/builtins/alias.rs:23-33 | for aliases made by the builtin that flag means a text that ends in a blank |
| `Aliases.FirstWordSettled` | src/executor/arithmetic_aliases.rs:392-438 | the first word of a result could be expanded further if and only if the chain ended in an alias without text and the second word of the last longer text, which then comes first, is an alias that is neither on the chain nor held back; never, when every alias has a word in its text |
| `Aliases.Leftover` | src/executor/arithmetic_aliases.rs:392-438 | when the first word of a text is an empty alias the words after it are left alone |
| `Aliases.LeftoverAlias` | src/executor/arithmetic_aliases.rs:392-438 | a table where a result starts with an alias that was never looked up |
| `Aliases.ReachIs` | src/executor/arithmetic_aliases.rs:183-272 | exactly which prefix of a command is expanded |
| `Aliases.NothingLost` | src/executor/arithmetic_aliases.rs:196-202 | only an alias expands to nothing, so no other word is lost |
| `AliasText.NewAliasIs` | src/builtins/alias.rs:23-33 | a new alias has its lines joined where a backslash ends one, and asks for more exactly when the text ends in a space or a tab |
| `AliasText.PartsAre` | src/executor/arithmetic_aliases.rs:425 | the words of an alias text are what stands between white space, wherever that is |
| `AliasText.QuotesAtEnd` | src/executor/parse_helpers.rs:152-180 | whole quoted texts leave nothing open, a quote without its end does |
| `AliasText.HeldExactly` | src/executor/arithmetic_aliases.rs:410-480 | an alias is held back if and only if it was defined on the current line, its text has no operator, no open quote, and starts with none of the reserved words listed |
| `AliasText.ReservedWords` | src/executor/support_names.rs:198-218 | the words that stop the variant which keeps reserved words |
| `AliasText.EnabledExactly` | src/executor/variable_state.rs:4-8 | expansion is on if and only if `expand_aliases` is among the options set |
| `Traps.Environment.StoreTrapList` | src/builtins/trap.rs:339-348 | stores the list, or removes the variable when it is empty |
| `Traps.Environment.SetTrap` | src/builtins/trap.rs:268-273 | enters the action and lists the signal |
| `Traps.Environment.RemoveTrap` | src/builtins/trap.rs:275-280 | removes both |
| `Traps.Environment.TakeExitTrap` | src/builtins/trap.rs:188-194 | removes the exit trap and returns its action |
| `Traps.Environment.ResetForSubshell` | src/builtins/trap.rs:314-330 | the loop drops entries while it filters the list |
| `Traps.NormalizedSignals` | src/builtins/trap.rs:205-221 | collects the names of the understood arguments and reports whether some argument is not one |
| `Traps.NormalizedName` | src/builtins/trap.rs:245-266 | whatever the argument, the name is a hook or one of the table, and holds no colon |
| `Traps.OwnName` | src/builtins/trap.rs:245-266 | every name of the table is understood as itself |
| `TrapNames.UnderstoodAs` | src/builtins/trap.rs:245-266 | an argument is understood as a signal if and only if it is `0` for EXIT, a hook, a numeral from 1 to 64 for the signal at that place, or a name of the table with or without `SIG`; names in any case |
| `TrapNames.StandardSignals` | src/builtins/trap.rs:12-43 | the signals 1 to 31 |
| `TrapNames.RealtimeSignals` | src/builtins/trap.rs:44-77 | the signals 32 to 64 |
| `TrapNames.FirstTrap` | src/builtins/trap.rs:268-348 | the variables of the first trap |
| `TrapNames.SecondTrap` | src/builtins/trap.rs:268-348 | names are listed in the order of their characters with a colon between them |
| `TrapNames.LastTrap` | src/builtins/trap.rs:275-348 | removing the only trap removes both variables |
| `TrapNames.SubshellKeeps` | src/builtins/trap.rs:314-330 | which names a subshell keeps, and which variables it loses, on any variables |
| `Traps.Environment.Execute` | src/builtins/trap.rs:159-181 | the changes that `trap action signal ...` makes, the action 0 clearing the exit trap too, and its status |
| `Traps.StoredReadsBack` | src/builtins/trap.rs:332-348 | a stored set of names is read back if and only if no name holds a colon |
| `Traps.RunKeepsTable` | src/builtins/trap.rs:159-348 | after any run of operations the listed names are exactly those with an action, the actions are those of a plain map under the same operations, and no other variable changed; only the internal setter needs a name without a colon, arguments of `trap` may be anything |
| `Traps.SetKeepsConsistent` | src/builtins/trap.rs:268-273 | setting a trap keeps list and entries in step if and only if the name holds no colon |
| `Traps.ResetShows` | src/builtins/trap.rs:314-330 | a subshell keeps exactly the DEBUG and RETURN traps and the empty actions, unchanged |
| `Traps.ResetIdempotent` | src/builtins/trap.rs:314-330 | resetting twice is resetting once, on any variables |
| `Namerefs.DeclareNamerefChain` | src/builtins/declare.rs:216-241 | the bounded loop returns the specified pair |
| `Namerefs.ResolvedIs` | src/builtins/declare.rs:216-241 | the result is (last, target) if and only if a path of 1 to 16 hops over valid name references ends with that hop, at a plain variable or after all sixteen, and not from a name to itself |
| `Namerefs.LastIsNameref` | src/builtins/declare.rs:216-241 | the first name of a result is a name reference whose cell is the second |
| `Namerefs.PlainTarget` | src/builtins/declare.rs:216-241 | there is a result with a plain target if and only if a plain variable is reached on 1 to 16 valid hops |
| `Namerefs.SelfReference` | src/builtins/declare.rs:226-240 | a name reference to itself, reached within fifteen hops, gives no result |
| `Namerefs.CycleUnnoticed` | src/builtins/declare.rs:216-241 | a longer cycle is not noticed: there is a result and its target is a name reference |
| `Namerefs.ValueIs` | src/builtins/declare/names.rs:6-22 | a cell names a variable if and only if it is an identifier, or an identifier with a subscript that is not empty |
| `Namerefs.IdentifierIs` | src/builtins/declare/names.rs:58-65 | identifiers: letters, digits and underscores with no digit in front |
| `Namerefs.NamerefsListed` | src/builtins/declare/marks.rs:42-53 | the name references are the names that the list variable holds between unit separators |
| `Namerefs.OneReference` | src/builtins/declare.rs:216-241 | one reference to one plain variable |

## Left out

- The lexer, the parser, the arithmetic evaluator, expansions other than field splitting, and everything that talks to the host: processes, files, terminals, signals, output. The file, terminal and variable tests of `test` are unknown functions.
- Diagnostics and usage texts, option loops and listings; the errors of `test` are kept as values with the word they name.
- AssocUpdate.AppendAssocValue: does not model the branches for the integer attribute, because the arithmetic evaluator is not part of this model.
- LoopControl.ExecList: runs are bounded by a fuel that counts loop iterations, and the methods report when it is spent. `ProgramHalts`, `ListSpins` and `HaltingProgramEnds` show that the bound hides nothing: with enough fuel a program ends exactly when the unbounded machine halts.
- LoopControl.Executor.ExecuteAst: leaves out the pipe status, traps, exit on error, inverted commands, word-expansion errors, alias re-reading and the dispatch to compound commands of the same loop. What a simple command does is an unknown function of the simple commands run before it.
- LoopControl.Executor.ExecuteCommand: bad arguments of `break` and `continue` are all written as level zero; they set status one and go on.
- LoopInputs.RestoreMeaning: the reading position that copies of an entry share, and the redirections that surround the loop, are not part of this model. A saved entry shares its position with the open one, so text that the loop consumed stays consumed.
- ShellQuote.ListingReadsBack: the reader refuses `\x`, `\u`, `\U` and `\c` escapes, which the printer never writes, and octal escapes of bytes above 0x7F, which alone are no characters.
- TestMeaning.ExpressionMeaning: requires that string leaves and left operands are not `!` or `(`, that string leaves are not unary operators and unary operands not binary operators where another token follows, and that operands of `-t` are numbers. `StringExact`, `UnaryExact` and `BinaryExact` say exactly which leaves are read as themselves; the last for comparisons that do not fail.
- FieldSplit.JoinSplits: fields are non-empty and hold no IFS character and no marker; other joins are not covered.
- BraceScan.ScanInvertsText: brackets hold no expansions; `ExpansionInBrackets` treats those, and `ConsumedVerbatim` covers every text.
- Traps.RunKeepsTable: the options of `trap` and its listings are left out.
- Aliases.ExpandAliases: the variant that also skips quoted words, and the re-parsing of aliases that hold operators, are left out.
- Offsets into UTF-8 text are character offsets here.
- Other code that prints or reads the same texts: `declare`, `unset`, `export` and the array branches of assignments.
