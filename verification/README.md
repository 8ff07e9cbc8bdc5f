# openDAQ core, modelled and proved in Dafny

This project models the parts of openDAQ whose correctness is hardest to see from the code, and proves what
they are for. Each part keeps the form of its source: loops over arrays stay loops over arrays, objects that
update fields are classes, and every such method is proved against a specification about which the promised
properties are then proved as lemmas.

| part | modules |
|---|---|
| A. Mixed-radix FFT (kissfft) | `Arithmetic`, `Complex`, `Twiddles`, `Stage`, `SmallRadix`, `Butterflies`, `Factoring`, `Transform`, `KissFft` |
| B. EvalValue expression language | `EvalSyntax`, `EvalGrammar`, `EvalUnique`, `EvalParser`, `EvalLexer`, `EvalPrint`, `EvalReadings` |
| C. Permission inheritance | `PermissionTables`, `PermissionBuilder`, `PermissionForest` |
| D. bcrypt text layer and key schedule | `Radix64`, `BlowfishKey`, `Bcrypt` |
| E. Streaming state machines | `StreamingReader`, `ConfigRequests`, `SignalListener`, `SharedDomain`, `SignalLinks` |
| F. Object serialisation | `InterfaceId`, `Serialization` |
| G. Property classes | `PropertyClass` |
| H. WebSocket frames | `WebSocket` |

`Options` holds the shared option type. `dafny verify dfyconfig.toml` checks everything.

**A.** `KfWork` leaves exactly the discrete Fourier sum in its window, for every length, factor list, stride
and input, and touches nothing else; `SpectrumIsFourier` writes the sums out with the exponential. The five
butterflies are proved against one specification (`Stage.Staged`), so each radix-specific one computes what
the generic one does. Arithmetic is exact: a scalar is a `real`, the complex exponential is a parameter with
the laws of `ExactExp`, and `Alloc` derives from them the laws of the twiddle table that everything else
uses.

**B.** The grammar is a set of concrete trees with the tokens each is written with; `Reads` says that a tree
is a grammatical, precedence-correct, left-associative reading of the tokens consumed and that the parser
was right to stop there. The parser finds a reading exactly when there is one, and it is unique. Lexer and
parser terminate on every input. Printing a node, lexing and parsing gives the node back. `EvalReadings`
says what the readings are in terms of tokens: with the classes of operators written out as token sets,
operands joined by any number of operators are the tree that splits at the last of the loosest ones
(`FlatReading`), and every form, reference and lexeme has its node.

**C.** `Settled` says that the managers form a forest and every cache agrees with its parent's. Every
operation keeps it, although propagation stops at children that do not inherit; from it follow that each
cache is the recomputation down the ancestor chain and that the nearest settings that decide a bit decide
who is authorised. What assigning, allowing and denying mean is stated bit by bit, up to the authorisation
under settings just assigned (`AssignAndAuthorize`). The statements are about the permission tables: the
`inherited` flag of a cache is true in a manager that was just created and false after the first
recomputation without a parent.

**D.** The cipher is an uninterpreted function of the key schedule, the salt words and the iteration count.
Hashing a password with its own hash as setting reproduces the hash, so checking after hashing returns 0,
from salt generation onwards. `HashByLetter` writes out which key schedule each letter of the prefix stands
for. The safety measure of the `$2a$` key schedule deviates exactly for keys on which the old and the
correct schedule agree although the old one overwrote something, and all of those contain the byte 0xFF, as
the comments in the source claim.

**E.** The read loop of the server sends every queued packet once and in order and terminates. In every
interleaving of requests, replies, cancellations and time-outs, promises are fulfilled at most once, a reply
to a pending request reaches its caller, and every call has one outcome and one cause of it; a call that is
checked while the connection is down, and is not one of the reconnection itself, is never sent, even if the
connection comes back later. Per listener and client, a websocket client can work out the true time of the
samples it gets, and exactly the clients whose sockets still work remain, in order. Listeners that share a
domain signal write to one value: `SharedRight` states exactly when all their views are right, `SharedWrite`
when a single write is, and `OtherOriginMisleads` shows that signals counting from different times can
mislead the client. Linear rules come with `start` and `delta`, because the constructor of data rules
(`core/opendaq/signal/src/data_rule_impl.cpp`, lines 36 to 43 and 144 to 168) refuses any other;
`CompleteIsIndependent` shows that this is exactly what the bookkeeping needs.

Mirrored signals are linked to their domain signals whatever the order of announcements and withdrawals
outside a reconnection. After a reconnection this is not always so. A signal that was linked before and is
announced again without its domain signal keeps the old link: `StaleLink` shows such a run. A signal that is
announced and then withdrawn stays in the table, and if it was known before it has lost its component:
`WithdrawnStays` shows that. For a reconnection that starts with a component for every signal,
`StatusChanged` states exactly when the signals present are those announced and not withdrawn, and, while no
component is lost, exactly when their links are right.

**F.** Reading back what was written gives the value, including interface ids. A dictionary read back has
its entries in the order they were written. Bare arrays, which only foreign documents hold, are read as
lists.

**G.** The lookup of a name and the listing of the properties agree in every hierarchy with registered
parents, and a custom order loses and repeats nothing. Without one, the inherited properties come first.

**H.** Decoding inverts the encoding of section 5.2 of RFC 6455 in each of the three length forms, reports
every proper prefix as incomplete, and accepts nothing but encodings; the examples of its section 5.7 are
among them. Exactly frames with opcode 8 end the connection. With the move that its comment describes
(`ServiceAsIntended`), what the read loop handles depends on the bytes received and not on how they were
chunked. As written, the move behind a consumed frame has the payload size with the opposite sign in its
byte count, so it reads past the buffer unless the buffered bytes and twice the payload fit (`MoveBounds`).
An unmasked frame of 8193 bytes, alone in the buffer, already makes it write past the end
(`LoneFrameLeaves`). `Service` models the loop as written and states exactly on which buffered bytes it is
defined, and `InsideIffHoweverChunked` exactly which streams stay inside whatever the socket delivers at a
time.

## Model

| member | source | states |
|---|---|---|
| `Butterflies.Bfly2` | external/kissfft/kiss_fft.c:16-37 | the radix-2 butterfly leaves the recombined window of the common stage specification and changes nothing outside |
| `Butterflies.Bfly3` | external/kissfft/kiss_fft.c:87-129 | the radix-3 butterfly meets the same specification |
| `Butterflies.Bfly4` | external/kissfft/kiss_fft.c:39-85 | the radix-4 butterfly meets it in both directions of the transform |
| `Butterflies.Bfly5` | external/kissfft/kiss_fft.c:131-190 | the radix-5 butterfly meets it |
| `Butterflies.BflyGeneric` | external/kissfft/kiss_fft.c:193-234 | the generic butterfly meets it for every radix |
| `Butterflies.TwiddleIndex` | external/kissfft/kiss_fft.c:24-36 | every twiddle index of a stage stays below N |
| `Butterflies.IndexStep` | external/kissfft/kiss_fft.c:222-230 | subtracting N once keeps the generic butterfly's index equal to the product modulo N and below N |
| `Transform.CooleyTukey` | external/kissfft/kiss_fft.c:280-300 | recombining the p sub-transforms of a decimated input gives the transform of the whole input |
| `Transform.KfWork` | external/kissfft/kiss_fft.c:236-301 | the window holds the Fourier sums of the strided input, the rest of the output is unchanged, for every factor list |
| `Transform.CopySamples` | external/kissfft/kiss_fft.c:275-279 | the leaf case copies the strided samples, which are their own one-point transforms |
| `Transform.SubTransforms` | external/kissfft/kiss_fft.c:280-289 | the recursive calls leave the p sub-transforms side by side |
| `Transform.Recombine` | external/kissfft/kiss_fft.c:293-300 | whichever butterfly is chosen, the stage is recombined by the common specification |
| `Factoring.NextRadix` | external/kissfft/kiss_fft.c:316-324 | the next divisor tried is 4 or prime, also when the search skips to the remaining number by the original square root |
| `Factoring.KfFactor` | external/kissfft/kiss_fft.c:307-329 | p times m gives the previous m down to 1, radices are 4 or prime, and at most 30 pairs are written for a 31-bit length |
| `Factoring.NoneBelowRootIsPrime` | external/kissfft/kiss_fft.c:321-322 | a number without divisors up to the square root of a multiple of it is prime |
| `Factoring.NextFastSize` | external/kissfft/kiss_fft.c:409-421 | the least number not below a positive n that is a product of twos, threes and fives; a negative n is returned as it is |
| `KissFft.Alloc` | external/kissfft/kiss_fft.c:338-369 | the table holds the powers of the root of unity with the sign of the direction, and the factor list splits the length |
| `KissFft.TableLaws` | external/kissfft/kiss_fft.c:358-365 | the table multiplies by adding exponents modulo N, is primitive and closed under conjugation |
| `KissFft.SpectrumIsFourier` | external/kissfft/kiss_fft.c:353-396 | each output is the sum of the inputs times the exponential of the angle 2 pi j k / n, negative in the forward direction |
| `KissFft.KissFftStride` | external/kissfft/kiss_fft.c:372-396 | the output is the spectrum of the strided input, also when input and output are one buffer |
| `KissFft.KissFft` | external/kissfft/kiss_fft.c:398-401 | the output is the spectrum of the input |
| `KissFft.Orthogonal` | external/kissfft/kiss_fft.c:358-365 | the twiddle sums of two outputs add up to N or to 0 |
| `KissFft.InverseUndoesForward` | external/kissfft/kiss_fft.c:353-396 | the forward transform followed by the inverse one is N times the input |
| `EvalUnique.ParserIsGrammar` | core/coreobjects/src/eval_value_parser.cpp:90-126 | the parser returns a tree and a rest exactly when that tree is a grammatical, precedence-correct reading of the tokens consumed and the next token's infix precedence is at most p |
| `EvalUnique.ReadingIsUnique` | core/coreobjects/src/eval_value_parser.cpp:90-126 | there is at most one such reading |
| `EvalUnique.FailureMeansNoReading` | core/coreobjects/src/eval_value_parser.cpp:90-248 | the parser fails exactly when there is none |
| `EvalParser.EvalValueParser.Parse` | core/coreobjects/src/eval_value_parser.cpp:80-83 | parse() builds the node of the reading and collects its property references |
| `EvalParser.EvalValueParser.Expression` | core/coreobjects/src/eval_value_parser.cpp:90-126 | expression(p) builds the node of the tree read, moves the cursor past its tokens, or fails as the description does |
| `EvalParser.EvalValueParser.Prefix` | core/coreobjects/src/eval_value_parser.cpp:128-248 | every prefix form is built as the grammar has it |
| `EvalParser.EvalValueParser.IfExpression` | core/coreobjects/src/eval_value_parser.cpp:166-177 | a conditional has its three expressions in order |
| `EvalParser.EvalValueParser.SwitchExpression` | core/coreobjects/src/eval_value_parser.cpp:178-192 | a switch has a variable and at least two values |
| `EvalParser.EvalValueParser.ListLiteral` | core/coreobjects/src/eval_value_parser.cpp:154-165 | a list literal has its elements in order |
| `EvalParser.EvalValueParser.UnitLiteral` | core/coreobjects/src/eval_value_parser.cpp:193-214 | a unit has one to four parameters |
| `EvalParser.EvalValueParser.Elements` | core/coreobjects/src/eval_value_parser.cpp:154-214 | the element loop reads the longest list up to its bracket and its limit |
| `EvalParser.EvalValueParser.ValRef` | core/coreobjects/src/eval_value_parser.cpp:250-271 | a value reference is read with its selection |
| `EvalParser.EvalValueParser.PropRef` | core/coreobjects/src/eval_value_parser.cpp:273-306 | a property reference is read with its item and its call, and its name is recorded |
| `EvalParser.EvalValueParser.ArgumentRef` | core/coreobjects/src/eval_value_parser.cpp:217-234 | an indexed reference keeps its argument index |
| `EvalParser.EvalValueParser.Advance` | core/coreobjects/src/eval_value_parser.cpp:344-350 | the cursor never passes the final End |
| `EvalParser.EvalValueParser.Consume` | core/coreobjects/src/eval_value_parser.cpp:332-342 | the expected token is consumed or the parse fails |
| `EvalLexer.EvalValueLexer.Tokenize` | core/coreobjects/src/eval_value_lexer.cpp:29-36 | terminates on every string with the tokens of the lexical description and a final End |
| `EvalLexer.EvalValueLexer.ScanToken` | core/coreobjects/src/eval_value_lexer.cpp:38-136 | one token, or one character skipped, or the error of the description |
| `EvalLexer.EvalValueLexer.ScanStringToken` | core/coreobjects/src/eval_value_lexer.cpp:138-154 | a string up to its delimiter; an unterminated one emits nothing |
| `EvalLexer.EvalValueLexer.ScanNumberToken` | core/coreobjects/src/eval_value_lexer.cpp:156-171 | an integer in range, or a float where one starts |
| `EvalLexer.EvalValueLexer.ScanFloatToken` | core/coreobjects/src/eval_value_lexer.cpp:173-197 | fraction and exponent as far as they go |
| `EvalLexer.EvalValueLexer.ScanNameToken` | core/coreobjects/src/eval_value_lexer.cpp:117-130 | the name as keyword or identifier |
| `EvalLexer.EvalValueLexer.AdvanceOverIdentifier` | core/coreobjects/src/eval_value_lexer.cpp:199-209 | the longest name, never past the end |
| `EvalPrint.LexRendered` | core/coreobjects/src/eval_value_lexer.cpp:29-209 | lexing rendered tokens gives the tokens back |
| `EvalPrint.PrintedTreeIsRead` | core/coreobjects/src/eval_value_parser.cpp:24-306 | any grammatical way of writing an expression is read back as it was written |
| `EvalPrint.PrintParse` | core/coreobjects/src/eval_value_parser.cpp:24-306 | printing a node, lexing and parsing gives the node back |
| `EvalPrint.ParseEvalValue` | core/coreobjects/src/eval_value_parser.cpp:24-40 | lexing and parsing as a whole give the described meaning of the text |
| `EvalReadings.FlatReading` | core/coreobjects/src/eval_value_parser.cpp:66-126 | operands and operators in turn are read as the tree that splits at the last of the loosest operators, whatever their number |
| `EvalReadings.TwoOperators` | core/coreobjects/src/eval_value_parser.cpp:66-102 | x a y b z groups to the right exactly if the token b is of a tighter class than a, and to the left otherwise |
| `EvalReadings.PrefixTakesOperand` | core/coreobjects/src/eval_value_parser.cpp:136-147 | a prefix operator takes its operand only, before and after any operator |
| `EvalReadings.Operations` | core/coreobjects/src/eval_value_parser.cpp:104-126 | the operation that each operator token stands for, with its operands in order |
| `EvalReadings.PrefixOperations` | core/coreobjects/src/eval_value_parser.cpp:136-147 | minus negates and the exclamation mark is the logical negation |
| `EvalReadings.Parentheses` | core/coreobjects/src/eval_value_parser.cpp:148-153 | parentheses mean their content |
| `EvalReadings.Lists` | core/coreobjects/src/eval_value_parser.cpp:154-165 | a list has its elements in order, also with a trailing comma |
| `EvalReadings.Conditional` | core/coreobjects/src/eval_value_parser.cpp:166-177 | a conditional has condition, true and false branch in this order |
| `EvalReadings.Switches` | core/coreobjects/src/eval_value_parser.cpp:178-192 | a switch has the variable first and then its values |
| `EvalReadings.Units` | core/coreobjects/src/eval_value_parser.cpp:193-214 | a unit has its parameters in order |
| `EvalReadings.ReadingIsSized` | core/coreobjects/src/eval_value_parser.cpp:178-214 | whatever is read has switches of two values or more and units of one to four parameters throughout |
| `EvalReadings.ValueReferences` | core/coreobjects/src/eval_value_parser.cpp:250-271 | $x is the value x and $x[i] the value named x[i], with no property referred to |
| `EvalReadings.PropertyReferences` | core/coreobjects/src/eval_value_parser.cpp:273-306 | %x and %x() are the property x, which is recorded |
| `EvalReadings.PropertyItems` | core/coreobjects/src/eval_value_parser.cpp:278-301 | the three items, in any case, with their kinds and texts and nothing recorded; any other item is an error |
| `EvalReadings.ArgumentReferences` | core/coreobjects/src/eval_value_parser.cpp:217-234 | {i}.%x is the property x with the argument number i as a 32-bit integer |
| `EvalReadings.FunctionNames` | core/coreobjects/src/eval_value_parser.cpp:235-244 | a bare name is a function reference where those are allowed, and an error elsewhere |
| `EvalReadings.Symbols` | core/coreobjects/src/eval_value_lexer.cpp:53-66 | each one-character symbol is its token, whatever follows |
| `EvalReadings.LongSymbols` | core/coreobjects/src/eval_value_lexer.cpp:67-96 | two characters are taken together where they can be |
| `EvalReadings.Keywords` | core/coreobjects/src/eval_value_lexer.cpp:117-130 | the five keywords in any case, and every other name an identifier |
| `EvalReadings.Names` | core/coreobjects/src/eval_value_lexer.cpp:117-130 | a name is taken as far as letters, digits, underscores and points go |
| `EvalReadings.Integers` | core/coreobjects/src/eval_value_lexer.cpp:156-165 | digits are their decimal value, and an error beyond 9223372036854775807 |
| `EvalReadings.Floats` | core/coreobjects/src/eval_value_lexer.cpp:173-197 | digits around a point, or after it, make one float lexeme |
| `EvalReadings.Fractions` | core/coreobjects/src/eval_value_lexer.cpp:178-185 | a point needs a digit after it |
| `EvalReadings.Exponents` | core/coreobjects/src/eval_value_lexer.cpp:186-195 | an exponent needs a digit |
| `EvalReadings.SignedExponents` | core/coreobjects/src/eval_value_lexer.cpp:186-195 | and may have a sign |
| `EvalReadings.Strings` | core/coreobjects/src/eval_value_lexer.cpp:138-154 | a string is everything between its delimiters |
| `EvalReadings.UnfinishedStrings` | core/coreobjects/src/eval_value_lexer.cpp:138-154 | a string without an end leaves no token and no text |
| `EvalReadings.SumOfProduct` | core/coreobjects/src/eval_value_parser.cpp:66-126 | the text 1+2*3 means 1 plus the product of 2 and 3 |
| `PermissionTables.CellSteps` | core/coreobjects/src/permissions_builder_impl.cpp:85-112 | assign, allow and deny keep allowed and denied disjoint and assigned within their union |
| `PermissionTables.AssignVerdict` | core/coreobjects/src/permissions_builder_impl.cpp:85-92 | after an assign the verdict on a bit is Allowed if the mask has it, and Unset otherwise |
| `PermissionTables.AllowVerdict` | core/coreobjects/src/permissions_builder_impl.cpp:94-102 | after an allow it is Allowed on the bits of the mask and as before elsewhere |
| `PermissionTables.DenyVerdict` | core/coreobjects/src/permissions_builder_impl.cpp:104-112 | after a deny it is Denied on the bits of the mask and as before elsewhere |
| `PermissionTables.ExtendAssociative` | core/coreobjects/src/permissions_builder_impl.cpp:59-74 | extending is associative on tables a builder can produce |
| `PermissionTables.EmptyIsIdentity` | core/coreobjects/src/permissions_builder_impl.cpp:59-74 | the empty tables are its identity |
| `PermissionTables.ExtendReachable` | core/coreobjects/src/permissions_builder_impl.cpp:59-112 | extending keeps tables within those a builder can produce |
| `PermissionTables.ExtendVerdict` | core/coreobjects/src/permissions_builder_impl.cpp:59-112 | the later table decides a bit if it can, else the earlier verdict stands |
| `PermissionTables.NearestDecides` | core/coreobjects/src/permissions_builder_impl.cpp:59-112 | along a chain, the nearest table that decides a bit decides it |
| `PermissionBuilder.PermissionsBuilder.Assign` | core/coreobjects/src/permissions_builder_impl.cpp:85-92 | the group is replaced in all three tables and allowed exactly the bits of the mask, no other group changes |
| `PermissionBuilder.PermissionsBuilder.Allow` | core/coreobjects/src/permissions_builder_impl.cpp:94-102 | the bits of the mask are allowed and no longer denied, other bits and other groups keep their verdict |
| `PermissionBuilder.PermissionsBuilder.Deny` | core/coreobjects/src/permissions_builder_impl.cpp:104-112 | the bits of the mask are denied and no longer allowed, other bits and other groups keep their verdict |
| `PermissionBuilder.PermissionsBuilder.Extend` | core/coreobjects/src/permissions_builder_impl.cpp:59-74 | the three passes, in any order of groups, are the extension group by group |
| `PermissionForest.PermissionManager.SetPermissions` | core/coreobjects/src/permission_manager_impl.cpp:41-64 | sets the settings, leaves all others' settings, and every cache of the forest is consistent again |
| `PermissionForest.PermissionManager.Recompute` | core/coreobjects/src/permission_manager_impl.cpp:41-64 | the same while other managers still wait for their update; terminates |
| `PermissionForest.PermissionManager.ComputeOwn` | core/coreobjects/src/permission_manager_impl.cpp:43-60 | the cache is the parent's extended by the settings, or the settings themselves |
| `PermissionForest.PermissionManager.UpdateInheritedPermissions` | core/coreobjects/src/permission_manager_impl.cpp:146-152 | a manager that does not inherit needs no update |
| `PermissionForest.PermissionManager.UpdateChildPermissions` | core/coreobjects/src/permission_manager_impl.cpp:154-161 | the children, in any order, leave nothing stale below |
| `PermissionForest.PermissionManager.SetParent` | core/coreobjects/src/permission_manager_impl.cpp:110-124 | moving a subtree keeps the forest acyclic and every cache consistent |
| `PermissionForest.PermissionManager.constructor` | core/coreobjects/src/permission_manager_impl.cpp:24-30 | a new manager joins with default settings |
| `PermissionForest.PermissionManager.Clone` | core/coreobjects/src/permission_manager_impl.cpp:101-108 | the clone is a sibling with the same settings and the same effective tables |
| `PermissionForest.PermissionManager.IsAuthorized` | core/coreobjects/src/permission_manager_impl.cpp:66-99 | no group of the user is denied and some group is allowed |
| `PermissionForest.CacheIsRecomputed` | core/coreobjects/src/permission_manager_impl.cpp:41-64 | every cache is the recomputation from the root |
| `PermissionForest.RecomputedIsCombined` | core/coreobjects/src/permission_manager_impl.cpp:41-64 | the recomputation is the extension along the chain of inherited settings |
| `PermissionTables.CombinedVerdict` | core/coreobjects/src/permissions_builder_impl.cpp:59-112 | its verdict on a bit is that of the nearest deciding settings |
| `PermissionForest.AuthorizedByNearest` | core/coreobjects/src/permission_manager_impl.cpp:66-99 | authorisation by cache is authorisation by the nearest deciding settings of each group |
| `PermissionForest.AssignedDecides` | core/coreobjects/src/permission_manager_impl.cpp:43-60 | settings that assign a group decide every bit for it |
| `PermissionForest.SilentInherits` | core/coreobjects/src/permission_manager_impl.cpp:43-60 | a group that the settings do not mention has what the parent gives if they inherit, and nothing otherwise |
| `PermissionForest.AssignAndAuthorize` | core/coreobjects/src/permission_manager_impl.cpp:41-99 | assigning a mask to a group authorises its members exactly for the bits of the mask, and leaves the others what the parent gives |
| `Radix64.AlphabetRoundTrip` | external/bcrypt/src/crypt_blowfish.c:368-387 | the two alphabet tables are inverse, and no character is a terminator |
| `Radix64.Alphabet` | external/bcrypt/src/crypt_blowfish.c:368-369 | the sixty-four characters in their order |
| `Radix64.FieldsInOrder` | external/bcrypt/src/crypt_blowfish.c:413-443 | the four fields of three bytes are their bits from the first byte on |
| `Radix64.DecodeEncode` | external/bcrypt/src/crypt_blowfish.c:389-443 | decoding what was encoded gives the bytes back, for every length and whatever surrounds it |
| `Radix64.EncodeDecode` | external/bcrypt/src/crypt_blowfish.c:389-443 | encoding what was decoded gives the text back but for the bits of the last character that are not read |
| `Radix64.BFEncode` | external/bcrypt/src/crypt_blowfish.c:413-443 | the text goes to its place in the buffer and nowhere else |
| `Radix64.BFDecode` | external/bcrypt/src/crypt_blowfish.c:389-411 | all bytes or a failure; no character past the terminator is read and nothing past the size is written |
| `Radix64.SafeAtoi64` | external/bcrypt/src/crypt_blowfish.c:380-387 | characters outside the alphabet, the terminator included, are refused |
| `BlowfishKey.BFSwap` | external/bcrypt/src/crypt_blowfish.c:445-457 | the words are swapped on a little-endian host, and only those |
| `BlowfishKey.SwapReadsBigEndian` | external/bcrypt/src/crypt_blowfish.c:445-457 | words read from memory have big-endian order on either kind of host |
| `BlowfishKey.SwapWritesBigEndian` | external/bcrypt/src/crypt_blowfish.c:445-457 | words written to memory have big-endian order on either kind of host |
| `BlowfishKey.NextWord` | external/bcrypt/src/crypt_blowfish.c:595-613 | four bytes of the key with its terminator, repeated cyclically, in the correct and in the old form |
| `BlowfishKey.KeyRepeats` | external/bcrypt/src/crypt_blowfish.c:593-613 | each word of the key is four bytes in turn of the key with its terminator, repeated |
| `BlowfishKey.BuggyRepeats` | external/bcrypt/src/crypt_blowfish.c:593-613 | the old word takes the same bytes as signed ones |
| `BlowfishKey.SignedPush` | external/bcrypt/src/crypt_blowfish.c:596-600 | a signed byte overwrites what was there exactly from 0x80 on |
| `BlowfishKey.BytesOfWord` | external/bcrypt/src/crypt_blowfish.c:445-457 | bytes and words determine each other, the most significant byte first |
| `BlowfishKey.BFSetKey` | external/bcrypt/src/crypt_blowfish.c:547-647 | the schedule asked for; only bit 16 of the first initial word deviates, exactly for ambiguous keys under the safety flag |
| `BlowfishKey.DeviationMeaning` | external/bcrypt/src/crypt_blowfish.c:629-633 | the branch-free arithmetic sets bit 16 exactly when the schedules agree, something was overwritten and safety is on |
| `BlowfishKey.AmbiguousHasFF` | external/bcrypt/src/crypt_blowfish.c:562-570 | only passwords with the byte 0xFF are affected by the safety measure |
| `Bcrypt.CheckHeader` | external/bcrypt/src/crypt_blowfish.c:679-690 | accepts exactly the valid prefixes with costs up to 31 |
| `Bcrypt.HeaderMeaning` | external/bcrypt/src/crypt_blowfish.c:679-692 | valid headers are those of the letters a, b, x, y with costs 0 to 31, and the cost is the number written |
| `Bcrypt.ReadSalt` | external/bcrypt/src/crypt_blowfish.c:693-697 | the salt words are the big-endian words of the decoded bytes on either kind of host |
| `Bcrypt.WriteDigest` | external/bcrypt/src/crypt_blowfish.c:759-778 | the bytes of the cipher's output, independent of the host's byte order |
| `Bcrypt.BFCrypt` | external/bcrypt/src/crypt_blowfish.c:653-783 | header, canonical salt, 23 encoded bytes and a terminator, or failure with nothing written |
| `Bcrypt.CryptShape` | external/bcrypt/src/crypt_blowfish.c:772-780 | every hash is a valid setting with the same header and salt, of 60 characters |
| `Bcrypt.HashByLetter` | external/bcrypt/src/crypt_blowfish.c:579-783 | b and y hash with the correct words, x with the sign-extended ones, a with the correct ones and bit 16 of the first initial word flipped exactly for ambiguous keys |
| `Bcrypt.RehashIsFixed` | external/bcrypt/src/crypt_blowfish.c:692-780 | hashing a password with its own hash as setting gives that hash |
| `Bcrypt.OnlyHeaderAndSaltMatter` | external/bcrypt/src/crypt_blowfish.c:692-780 | settings with the same header and decoded salt give the same hash |
| `Bcrypt.OutputMagic` | external/bcrypt/src/crypt_blowfish.c:785-798 | the failure text is never the setting itself |
| `Bcrypt.CryptRn` | external/bcrypt/src/crypt_blowfish.c:820-883 | the hash, or a text that differs from the setting |
| `Bcrypt.TimingSafeStrcmp` | external/bcrypt/src/bcrypt.c:105-129 | zero exactly for equal strings |
| `Bcrypt.HashPw` | external/bcrypt/src/bcrypt.c:177-182 | returns 0 exactly for valid settings, with the hash in the buffer |
| `Bcrypt.CheckPw` | external/bcrypt/src/bcrypt.c:184-194 | returns 0 exactly when the hash is the password's under itself, and -1 exactly for invalid settings |
| `Bcrypt.CheckAfterHash` | external/bcrypt/src/bcrypt.c:177-194 | a stored hash passes the check |
| `Bcrypt.GensaltBlowfish` | external/bcrypt/src/crypt_blowfish.c:885-910 | the setting of prefix, cost and random bytes, or an empty text |
| `Bcrypt.GeneratedIsValid` | external/bcrypt/src/crypt_blowfish.c:885-910 | every generated setting is valid and stands for its cost and bytes |
| `Bcrypt.Gensalt` | external/bcrypt/src/bcrypt.c:170-175 | work factors out of range become 12, and generation succeeds |
| `Bcrypt.HashAndCheck` | external/bcrypt/src/bcrypt.c:131-194 | generating a salt, hashing and checking returns 0 for every password, factor and random input |
| `StreamingReader.Connection.DequeueUpTo` | core/opendaq/signal/src/connection_impl.cpp:502-522 | the smaller of capacity and length comes from the front |
| `StreamingReader.StreamingManager.ProcessPackets` | shared/libraries/native_streaming_protocol/src/streaming_manager.cpp:63-110 | each signal gets the packets of its slice in order, others nothing |
| `StreamingReader.Server.FillBuffer` | modules/native_streaming_server_module/src/native_streaming_server_impl.cpp:532-550 | the slices are adjacent from 0 on, hold the fronts of the queues, and without a repeat all queues are empty |
| `StreamingReader.Server.Pass` | modules/native_streaming_server_module/src/native_streaming_server_impl.cpp:530-558 | what was passed on and what is queued stay what there was |
| `StreamingReader.Server.ReadQueues` | modules/native_streaming_server_module/src/native_streaming_server_impl.cpp:525-559 | terminates with every queue empty and every packet passed on once, in order per signal |
| `StreamingReader.Server.AddReader` | modules/native_streaming_server_module/src/native_streaming_server_impl.cpp:568-589 | a signal is read once, through a connection of its own |
| `StreamingReader.Server.RemoveReader` | modules/native_streaming_server_module/src/native_streaming_server_impl.cpp:591-608 | the signal's reader and slice go, the others keep their order |
| `StreamingReader.Server.ClearIndices` | modules/native_streaming_server_module/src/native_streaming_server_impl.cpp:610-617 | no slice of an earlier pass remains |
| `StreamingReader.PassConserves` | modules/native_streaming_server_module/src/native_streaming_server_impl.cpp:530-558 | a pass loses and doubles no packet |
| `ConfigRequests.ReplyTable.RegisterConfigRequest` | modules/native_streaming_client_module/src/native_device_impl.cpp:350-355 | the request is pending with an unfulfilled promise |
| `ConfigRequests.ReplyTable.UnregisterConfigRequest` | modules/native_streaming_client_module/src/native_device_impl.cpp:357-361 | the request is no longer pending, no promise changes |
| `ConfigRequests.ReplyTable.CancelPendingConfigRequests` | modules/native_streaming_client_module/src/native_device_impl.cpp:363-373 | exactly the pending promises fail, and none is set twice |
| `ConfigRequests.ReplyTable.ProcessReply` | modules/native_streaming_client_module/src/native_device_impl.cpp:389-405 | a reply to a pending id fulfils its promise with that packet and ends the pending state, with every other entry and promise unchanged; other packets change nothing |
| `ConfigRequests.StepInv` | modules/native_streaming_client_module/src/native_device_impl.cpp:306-406 | every step of every participant keeps the invariant of the table and the callers |
| `ConfigRequests.StepKeeps` | modules/native_streaming_client_module/src/native_device_impl.cpp:306-406 | no step changes a fulfilled promise or an outcome |
| `ConfigRequests.RunsAreSafe` | modules/native_streaming_client_module/src/native_device_impl.cpp:306-406 | in every run nothing finished is pending, replies reach the request with their id, only refused calls were not sent, outcomes are final |
| `ConfigRequests.RefusedForGood` | modules/native_streaming_client_module/src/native_device_impl.cpp:316-321 | a refused call is never sent in any continuation and can only end with a lost connection |
| `ConfigRequests.CheckDecides` | modules/native_streaming_client_module/src/native_device_impl.cpp:316-321 | a call is refused exactly if it is checked while disconnected and is not one of the reconnection |
| `ConfigRequests.CanAlwaysGoOn` | modules/native_streaming_client_module/src/native_device_impl.cpp:306-348 | a caller without an outcome is never stuck |
| `ConfigRequests.EveryCallEnds` | modules/native_streaming_client_module/src/native_device_impl.cpp:306-348 | a call has its outcome after at most five steps of its own in every interleaving |
| `ConfigRequests.ReplyReaches` | modules/native_streaming_client_module/src/native_device_impl.cpp:323-399 | once a reply to a pending request is received, its promise holds that packet in every continuation, and a waiting caller ends with it by its next own step |
| `ConfigRequests.CancelReaches` | modules/native_streaming_client_module/src/native_device_impl.cpp:323-373 | a cancellation does the same for all pending requests, with its error |
| `ConfigRequests.Causes` | modules/native_streaming_client_module/src/native_device_impl.cpp:323-348 | each outcome has one cause: a time-out while connected, a lost connection, a removed component, a reply or a cancellation |
| `ConfigRequests.SendDecides` | modules/native_streaming_client_module/src/native_device_impl.cpp:323-333 | a request is sent exactly if the transport is still there; otherwise it never is and ends with the component removed |
| `ConfigRequests.RunInputs` | modules/native_streaming_client_module/src/native_device_impl.cpp:306-406 | connection, transport and received packets after a run are what the steps of the run say |
| `SignalListener.Listener.CheckDomainPacket` | modules/new_websocket_streaming_server_module/src/websocket_signal_listener_impl.cpp:293-324 | the cache is updated as far as the rule of a new descriptor has parameters |
| `SignalListener.CheckedIsOwn` | modules/new_websocket_streaming_server_module/src/websocket_signal_listener_impl.cpp:293-324 | start and delta are the packet's own when its rule has them |
| `SignalListener.CompleteIsIndependent` | modules/new_websocket_streaming_server_module/src/websocket_signal_listener_impl.cpp:293-324 | the times taken for a packet are independent of the packets before it if and only if its rule has start and delta |
| `SignalListener.AfterDataValid` | modules/new_websocket_streaming_server_module/src/websocket_signal_listener_impl.cpp:97-128 | the counters are the client's own view, and the client knew the true time before each write |
| `SignalListener.GapFreeIsSilent` | modules/new_websocket_streaming_server_module/src/websocket_signal_listener_impl.cpp:100-116 | a packet that follows without a gap costs no domain message |
| `SignalListener.TrueTimes` | modules/new_websocket_streaming_server_module/src/websocket_signal_listener_impl.cpp:89-101 | the true times of a packet are start plus offset of its linear rule, and its delta; other packets have none |
| `SignalListener.ClientClock` | modules/new_websocket_streaming_server_module/src/websocket_signal_listener_impl.cpp:100-103 | the client takes the domain value for the first sample and delta more for each sample after it |
| `SignalListener.AllServed` | modules/new_websocket_streaming_server_module/src/websocket_signal_listener_impl.cpp:76-128 | no failing client remains, and each of the others, in order, gets its data after at most one domain value |
| `SignalListener.Listener.DataReceived` | modules/new_websocket_streaming_server_module/src/websocket_signal_listener_impl.cpp:68-131 | the clients that remain are, in order, exactly those that do not fail, each with the data as last message and its count grown; all views stay right |
| `SignalListener.Listener.DescriptorChanged` | modules/new_websocket_streaming_server_module/src/websocket_signal_listener_impl.cpp:133-182 | the clients that remain are, in order, exactly those that do not fail, each with new metadata and a count restarted at zero |
| `SignalListener.Listener.AddClient` | modules/new_websocket_streaming_server_module/src/websocket_signal_listener_impl.cpp:189-245 | a client is added once, with metadata and without a domain value |
| `SharedDomain.SharedRight` | modules/new_websocket_streaming_server_module/src/websocket_signal_listener_impl.cpp:97-127 | with several listeners on one domain signal, all of a client's views are right if and only if no data follows another listener's differing domain value |
| `SharedDomain.SharedWrite` | modules/new_websocket_streaming_server_module/src/websocket_signal_listener_impl.cpp:100-107 | one write is right in the shared view if and only if it brings a domain value or the last one is still its own |
| `SharedDomain.SameOrigin` | modules/new_websocket_streaming_server_module/src/websocket_signal_listener_impl.cpp:97-127 | listeners whose signals count from the same time leave all views right |
| `SharedDomain.OtherOriginMisleads` | modules/new_websocket_streaming_server_module/src/websocket_signal_listener_impl.cpp:100-107 | a run of two listeners, each right on its own, after which the client is wrong about one |
| `SignalLinks.LinkTo` | modules/native_streaming_client_module/src/native_streaming_device_impl.cpp:142-155 | links to and from the new signal, none other changed |
| `SignalLinks.Device.AddToDeviceSignals` | modules/native_streaming_client_module/src/native_streaming_device_impl.cpp:133-159 | every signal stays linked to the one its domain id names; known ids are refused |
| `SignalLinks.Device.SignalUnavailable` | modules/native_streaming_client_module/src/native_streaming_device_impl.cpp:220-239 | no link to the withdrawn signal remains; ids that are not in the table and signals without a component are refused; during a reconnection an announced signal stays announced |
| `SignalLinks.LinksByIds` | modules/native_streaming_client_module/src/native_streaming_device_impl.cpp:133-239 | links depend on the signals present and not on the order of arrival |
| `SignalLinks.Device.AddOnReconnection` | modules/native_streaming_client_module/src/native_streaming_device_impl.cpp:161-205 | known signals keep their object; links are within the announced signals or as before |
| `SignalLinks.Device.SignalAvailable` | modules/native_streaming_client_module/src/native_streaming_device_impl.cpp:207-218 | the announcement goes to the table in use, and links stay right outside a reconnection |
| `SignalLinks.Device.StatusChanged` | modules/native_streaming_client_module/src/native_streaming_device_impl.cpp:241-270 | the announced signals remain; after a start with all components they are those not withdrawn if and only if none was withdrawn after its announcement; with no component lost their links are right if and only if no signal whose domain signal was not announced had a link before; it fails exactly on a dropped signal without a component |
| `SignalLinks.WithdrawnStays` | modules/native_streaming_client_module/src/native_streaming_device_impl.cpp:220-260 | a run that leaves a withdrawn signal in the table without a component |
| `SignalLinks.StaleLink` | modules/native_streaming_client_module/src/native_streaming_device_impl.cpp:161-260 | a run of a reconnection that leaves a link to a removed signal |
| `InterfaceId.HexStringToUint32` | core/coretypes/src/util.cpp:42-82 | the value of a non-empty hexadecimal text that fits 32 bits, and an error for every other text |
| `InterfaceId.ParsePrinted` | core/coretypes/src/util.cpp:9-125 | parsing a printed id gives the id |
| `InterfaceId.PrintParsed` | core/coretypes/src/util.cpp:9-125 | printing a parsed id gives the text in upper case |
| `InterfaceId.PrintedFormat` | core/coretypes/src/util.cpp:9-37 | the text is the eleven fields with their widths and dashes in braces |
| `InterfaceId.StringToInterfaceId` | core/coretypes/src/util.cpp:87-125 | succeeds exactly on well-formed texts; on an error the fields already read stay changed |
| `Serialization.TreeOfEvents` | core/coretypes/src/json_serializer_impl.cpp:21-193 | the events of a document determine it, whatever follows them |
| `Serialization.JsonSerializer.Serialize` | core/corecontainers/src/listobject_impl.cpp:433-487 | every value appends the events of its document and nothing else |
| `Serialization.JsonSerializer.SerializeList` | core/corecontainers/src/listobject_impl.cpp:433-487 | a tagged object with the element id unless unknown, and the elements in order |
| `Serialization.JsonSerializer.SerializeDict` | core/corecontainers/src/dictobject_impl.cpp:405-480 | a tagged object with the two ids unless unknown, and the entries in order |
| `Serialization.JsonSerializer.StartTaggedObject` | core/coretypes/src/json_serializer_impl.cpp:22-35 | the type of the object is its first member |
| `Serialization.JsonSerializedList.ReadObject` | core/coretypes/src/json_serialized_list.cpp:103-113 | the element at the cursor, which moves on; an error past the end |
| `Serialization.JsonSerializedList.ReadSerializedObject` | core/coretypes/src/json_serialized_list.cpp:69-101 | the members of the object at the cursor, which moves on |
| `Serialization.Deserialize` | core/coretypes/src/json_deserializer_impl.cpp:83-144 | the value of a document, by its type |
| `Serialization.DeserializeTagged` | core/coretypes/src/json_deserializer_impl.cpp:13-59 | the factory named by the type of the object, or an error |
| `Serialization.DeserializeList` | core/corecontainers/src/listobject_impl.cpp:502-525 | the list with its element id, or an error |
| `Serialization.DeserializeDict` | core/corecontainers/src/dictobject_impl.cpp:482-534 | the dictionary with its two ids, or an error |
| `Serialization.SetNew` | core/corecontainers/src/dictobject_impl.cpp:60-88 | setting a new key appends it |
| `Serialization.FromToJson` | core/corecontainers/src/dictobject_impl.cpp:405-534 | reading the document of a value gives the value with all its ids |
| `Serialization.RoundTrip` | core/coretypes/src/json_deserializer_impl.cpp:13-144 | the event stream of a value determines its document, and the document gives the value back |
| `Serialization.PlainDocuments` | core/coretypes/src/json_deserializer_impl.cpp:83-144 | null, truth values, numbers and strings stand for themselves, strings up to a NUL |
| `Serialization.BareArray` | core/coretypes/src/json_deserializer_impl.cpp:61-80 | an array of readable elements without null is the list of their values in order |
| `Serialization.UnreadableElement` | core/coretypes/src/json_deserializer_impl.cpp:61-80 | one unreadable element makes the array unreadable |
| `Serialization.UnknownTypes` | core/coretypes/src/json_deserializer_impl.cpp:13-59 | an object without a type, or of a type without a factory, is refused |
| `Serialization.ListDocuments` | core/corecontainers/src/listobject_impl.cpp:433-487 | the events of a list, with and without an element id |
| `Serialization.DictDocument` | core/corecontainers/src/dictobject_impl.cpp:405-480 | the events of a dictionary with its two ids |
| `Serialization.EntryDocument` | core/corecontainers/src/dictobject_impl.cpp:405-480 | the events of an entry |
| `Serialization.SetExisting` | core/corecontainers/src/dictobject_impl.cpp:60-88 | setting a known key replaces its value in place |
| `Serialization.UnknownId` | core/coretypes/include/coretypes/baseobject.h:23 | the id that is not written is that of the unknown interface |
| `PropertyClass.GetProperties` | core/coreobjects/src/property_object_class_impl.cpp:220-229 | the listing in the order the class has, or an error for a parent that is not registered |
| `PropertyClass.GetWithNormalOrder` | core/coreobjects/src/property_object_class_impl.cpp:146-167 | inherited properties first, then the own ones |
| `PropertyClass.GetWithCustomOrder` | core/coreobjects/src/property_object_class_impl.cpp:169-218 | the listed ones first, then the rest of the merged properties |
| `PropertyClass.GetInheritedProperties` | core/coreobjects/src/property_object_class_impl.cpp:109-128 | the parent's listing, or nothing without a parent |
| `PropertyClass.FillLookup` | core/coreobjects/src/property_object_class_impl.cpp:183-195 | the ordered map of all properties, later ones in the place of earlier ones |
| `PropertyClass.TakeOrdered` | core/coreobjects/src/property_object_class_impl.cpp:197-214 | the loops arrange the map by the listing |
| `PropertyClass.LookupMatchesListing` | core/coreobjects/src/property_object_class_impl.cpp:43-107 | getProperty is the last listed property with the name, hasProperty holds exactly for listed names |
| `PropertyClass.IncompleteFails` | core/coreobjects/src/property_object_class_impl.cpp:43-128 | the listing succeeds if and only if all ancestors are registered; otherwise no lookup ends with not found |
| `PropertyClass.CustomOrder` | core/coreobjects/src/property_object_class_impl.cpp:169-218 | a custom order repeats no name, has every visible name, begins with the listed ones in order and ends with the others in theirs |
| `PropertyClass.NormalOrder` | core/coreobjects/src/property_object_class_impl.cpp:146-167 | without a custom order the listing is the parent's listing followed by the own properties |
| `PropertyClass.LookupOrder` | core/coreobjects/src/property_object_class_impl.cpp:183-195 | the merged properties are in the order in which their names first occur |
| `WebSocket.DecodeHeader` | modules/new_websocket_streaming_server_module/src/websocket_protocol.cpp:44-112 | the header found by the layout of the frame, also in truncated data |
| `WebSocket.DecodeEncoded` | modules/new_websocket_streaming_server_module/src/websocket_protocol.cpp:44-112 | an encoded frame is decoded as itself, for every payload length, masking and length form, whatever follows |
| `WebSocket.PrefixIncomplete` | modules/new_websocket_streaming_server_module/src/websocket_protocol.cpp:44-112 | every proper prefix of a frame is incomplete |
| `WebSocket.EncodedDecode` | modules/new_websocket_streaming_server_module/src/websocket_protocol.cpp:44-112 | whatever is decoded as complete is the encoding of the frame found |
| `WebSocket.GenerateHeader` | modules/new_websocket_streaming_server_module/include/streaming/websocket_protocol.hpp:84-117 | an unmasked header in the shortest length form, at most ten bytes |
| `WebSocket.FramesAppend` | modules/new_websocket_streaming_server_module/src/websocket_client_established.cpp:75-108 | more bytes never change the frames found and add those of the leftover with the new bytes |
| `WebSocket.FramesOfStream` | modules/new_websocket_streaming_server_module/src/websocket_client_established.cpp:75-108 | the frames of a stream of encoded frames are exactly those, with nothing left over |
| `WebSocket.OpcodeEightCloses` | modules/new_websocket_streaming_server_module/src/websocket_client_established.cpp:86-108 | a frame with opcode 8 ends the connection and what follows is left, a frame with any other opcode goes on with what follows |
| `WebSocket.RfcTexts` | modules/new_websocket_streaming_server_module/src/websocket_protocol.cpp:44-112 | the unmasked and the masked text frame of section 5.7 of RFC 6455 are encodings |
| `WebSocket.RfcLengths` | modules/new_websocket_streaming_server_module/src/websocket_protocol.cpp:44-112 | and so are its headers of 256 and of 65536 bytes |
| `WebSocket.Client.ServiceAsIntended` | modules/new_websocket_streaming_server_module/src/websocket_client_established.cpp:73-115 | with the move of the comment: the frames handled are those of all bytes received, however chunked; the connection goes on unless it is closed or a frame does not fit the buffer |
| `WebSocket.Client.Service` | modules/new_websocket_streaming_server_module/src/websocket_client_established.cpp:73-115 | as written: defined if and only if every move on the buffered bytes stays inside the buffer, and then the same |
| `WebSocket.Client.Slide` | modules/new_websocket_streaming_server_module/src/websocket_client_established.cpp:101-107 | a move of any sufficient count inside the buffer brings the bytes behind the frame to the front |
| `WebSocket.MoveBounds` | modules/new_websocket_streaming_server_module/src/websocket_client_established.cpp:101-107 | the move as written stays inside if and only if the buffered bytes and twice the payload fit the buffer |
| `WebSocket.LoneFrameLeaves` | modules/new_websocket_streaming_server_module/src/websocket_client_established.cpp:101-107 | an unmasked frame of 8193 bytes alone in the buffer makes the move as written leave it |
| `WebSocket.InsideIffHoweverChunked` | modules/new_websocket_streaming_server_module/src/websocket_client_established.cpp:75-108 | no call leaves the buffer under any chunking if and only if each frame up to a close frame, or one that never fits, has room for twice its payload behind what can be buffered |

## Left out

- Rounding, sin and cos, fixed-point, SIMD and OpenMP variants of kissfft: arithmetic is exact and the laws of the exponential are a precondition of `Alloc`; the square root of `kf_factor` is the exact integer one.
- Width of C integers in kissfft: indices and sizes are unbounded, so the sums of two indices below N and the search of `kiss_fft_next_fast_size` do not wrap around; memory allocation and the `lenmem` protocol are not modelled.
- Evaluation of EvalValue nodes, resolution of references and the conversion of float lexemes to doubles.
- EvalLexer.EvalValueLexer.ScanFloatToken: a float lexeme outside the range of a double, for which the conversion throws, is accepted.
- Factoring.NextFastSize: 0 is excluded, for which the source does not return.
- The build without access control, weak references and the destruction of managers.
- PermissionForest.PermissionManager.SetParent: a new parent at or below the manager itself is excluded, because the source would then follow the parents without end.
- The rounds, the S-boxes and the cost loop of Blowfish, the self-test (taken as passing), other salt formats, and reading random bytes.
- BlowfishKey.BFSetKey: the key is a C string, so it holds no zero byte.
- Threads and locks of the read loop: nothing is enqueued while the readers are locked; subscribers of a signal and exceptions for signals that are not registered.
- StreamingReader.Server.AddReader: signals are registered and distinct signals have distinct global ids.
- ConfigRequests: request ids are fresh, sending does not throw, and notifications are not modelled.
- ConfigRequests.ReplyTable.RegisterConfigRequest: a promise with the id does not exist yet.
- Overflow of the 64-bit domain arithmetic, metadata contents and unsubscription in the websocket listener.
- SharedDomain.SharedRight: the order in which the messages of several listeners reach a client is given, not derived from their threads.
- A change of the connection status other than to Reconnecting or Connected.
- SignalLinks.Device.AddToDeviceSignals: announcements during a reconnection are those of `AddOnReconnection`.
- The character level of JSON: a document is its event stream; serializer version 1, factory callbacks and types other than lists and dictionaries.
- A float is an exact number. A null among the entries of a dictionary document, which the source dereferences, and a null in a bare array, for which the source passes on an uninitialised pointer, are errors.
- PropertyClass.LookupMatchesListing: classes keep a name once and all ancestors are registered; `IncompleteFails` says what happens otherwise.
- Types registered under a parent's name that are no property classes count as not registered.
- What happens after a move of the websocket loop that leaves the buffer: it is undefined in the source.
- WebSocket.GenerateHeader: opcode and flags are within their fields of the first byte.
- OPC UA, the old websocket modules, discovery, module registration, configuration plumbing and bindings.
