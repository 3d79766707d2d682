# OpenSpy: ciphers, filters and protocol state

A Dafny model of the parts of the OpenSpy servers that compute on bytes, tokens and step-by-step
state, with proofs of what they promise.  `dafny verify dfyconfig.toml` checks all of it.

* **Tree keystream** (`TreeWalk`, `TreeCipher`, `KeyTable`, `TreeKeystream`, `FlatKeystream`,
  `TreeMixing`): the generator behind enctype2, as a struct with explicit stacks and as its
  hand-flattened twin on one word array.  Sequential generation agrees with random access however
  requests are batched, the two codings simulate each other, and different trees never meet.
* **Card cipher** (`CardCipher`, `CardState`, `KeySchedule`, `RegisterCipher`): the card-shuffle
  cipher with named fields and as a register machine, their key schedules, and that they are the
  same cipher.
* **Swap-table stream and the enctype1 buffer** (`ShuffleStream`, `Enctype1`): the stream used for
  chat and as a layer, and the layered packet, which is invertible.
* **Glob matcher** (`Glob`): exact against the recursive definition, and when the prefix-skipping
  form is exact.
* **Server filters** (`FilterTokens`, `FilterCompiler`, `FilterStack`, `FilterExact`, `FilterEval`,
  `FilterLexer`, `FilterMeaning`): from text to verdict.  The compiler is right exactly for the trees
  the text denotes.
* **Protocol pieces** (`QrRegistry`, `QrChallenge`, `ResponseOrder`, `RequestQueue`, `LinkedList`,
  `LineFraming`, `KeyValue`, `CompactInt`): server registration, its events and what earns a
  validation, in-order responses, the request queue, the list with removal during iteration, chat
  lines over the stream cipher, two codecs.

`Bits` holds bytes, 32-bit words and the bitwise operators; sums that the C++ code lets wrap are
written with their modulus.  `Decimals` holds printed numbers.  Code that updates state in place is
a class or a method over arrays here too, proved against a function on values, about which the laws
are proved.

Places where the code does not do what its names suggest, kept as they are:

* past the last leaf `crypt_encrypt` repeats the last word, because the clamp on the stack index
  rereads the parent of the last two leaves; `encshare2` lets the unsigned index wrap instead, so
  the two codings agree exactly up to the last leaf;
* a filter's `>=` and `<=` on strings compare the lengths the wrong way round, right only for equal
  lengths, and `<` and `>` with a string are always true;
* a game server is updated without having been announced since its last deletion exactly when a
  heartbeat of another version than 1 makes its first event since then; served in one version
  throughout, it never is;
* a compact integer that is negative is read back as twice its absolute value, and a key/value text
  with a line delimiter is read back only up to one pair, data keys aside.

## Model

| member | source | states |
|---|---|---|
| TreeWalk.StackDepth | code/serverbrowsing/server/gutil.cpp:139-176 | a node of depth k has at most k left turns above it, for every height: the bound on the stack |
| TreeWalk.PopLeftTurn | code/serverbrowsing/server/gutil.cpp:198-207 | the right sibling of the last left turn has exactly the left turns below the top of the stack |
| TreeWalk.NextLeaf | code/serverbrowsing/server/gutil.cpp:187-209 | the right child of the last left turn starts at the next leaf, and only the last leaf has no left turn above it; any height |
| TreeWalk.LastLeavesParent | code/serverbrowsing/server/gutil.cpp:198-205 | the left turns above the last leaf but one are exactly its parent, which is what slot 0 then holds; any height |
| TreeWalk.ReadBit | code/serverbrowsing/server/gutil.cpp:144-169 | reading the leaf number bit by bit from the top moves one level down the tree per bit |
| TreeCipher.StepLeft | code/serverbrowsing/server/gutil.cpp:187-197 | mixing, pushing and turning left keeps the invariant (registers are the value of the node, the stack is exactly the left turns above it) and the next leaf |
| TreeCipher.StepRight | code/serverbrowsing/server/gutil.cpp:153-157 | turning right keeps the invariant without a push |
| TreeCipher.StepPop | code/serverbrowsing/server/gutil.cpp:200-207 | emission and pop keep the invariant and move to the next leaf |
| TreeCipher.StepClamp | code/serverbrowsing/server/gutil.cpp:200-207 | the index clamp fires on the last leaf only, and then the generator stands on that leaf again |
| TreeCipher.StepAfterLeaf | code/serverbrowsing/server/gutil.cpp:187-209 | after any leaf the generator stands before the leaf one further on, or before the last one again |
| TreeCipher.OnPathIsBounded | code/serverbrowsing/server/gutil.cpp:139-213 | a generator on the path keeps the weaker bounds that alone make every stack access safe: the node is at least 2^index and the entries below the index are inner nodes no higher than their place |
| TreeCipher.PopKeepsBounds | code/serverbrowsing/server/gutil.cpp:200-207 | the clamped pop keeps those bounds whatever slot 0 holds |
| TreeCipher.WalkersAgree | code/serverbrowsing/server/gutil.cpp:139-213 | the node determines registers, index and live stack: two generators on one node are in one state |
| TreeCipher.WordsSplit | code/serverbrowsing/server/gutil.cpp:179-213 | asking for a + b words gives the words of asking for a and then for b |
| KeyTable.ColumnsArePermutations | code/serverbrowsing/server/gutil.cpp:227-240 | after r rounds of set-up each of the low r byte columns of the table is a permutation of 0..255, for every key |
| KeyTable.PartnerOf | code/serverbrowsing/server/gutil.cpp:233-234 | word sums that wrap, then masked to a byte, give the swap partner of the specification |
| TreeKeystream.SetupTable | code/serverbrowsing/server/gutil.cpp:223-242 | the in-place set-up computes the specified table for every key of any non-zero length |
| TreeKeystream.CryptKey.Seek | code/serverbrowsing/server/gutil.cpp:139-176 | seek stands on leaf n with exactly its left turns on the stack and returns the word of leaf n |
| TreeKeystream.CryptKey.GoDown | code/serverbrowsing/server/gutil.cpp:189-197 | the inner loop reaches a leaf, keeps the invariant and the next leaf |
| TreeKeystream.CryptKey.Pop | code/serverbrowsing/server/gutil.cpp:200-207 | the clamped pop and the right turn from the popped triple |
| TreeKeystream.CryptKey.Encrypt | code/serverbrowsing/server/gutil.cpp:179-213 | from any node the k-th word is that of the leaf k further on, as seek finds it, as far as there are leaves, also after a seek to the last one; from before the last leaf the words saturate there and the invariant is kept |
| TreeKeystream.CryptKey.Init | code/serverbrowsing/server/gutil.cpp:215-244 | set-up leaves the generator before leaf 0 of tree 0 with an empty pad |
| TreeKeystream.CryptKey.NextPadByte | code/serverbrowsing/server/gutil.cpp:252-260 | the i-th pad byte drawn is byte i mod 63 of block i / 63: 63 of every 64 keystream bytes |
| TreeKeystream.CryptKey.DoCrypt | code/serverbrowsing/server/gutil.cpp:249-262 | the data is exclusive-ored with the next pad bytes; calls of any lengths compose |
| TreeKeystream.DrawInBatches | code/serverbrowsing/server/gutil.cpp:139-213 | from any leaf and however the requests are batched, the words up to the last leaf are those of consecutive leaves, each equal to what a seek to its leaf returns; from before the last leaf all of them are, saturating there |
| TreeMixing.Rot8Bytes | code/serverbrowsing/server/gutil.cpp:93-94 | a rotation by 8 moves every byte one place up and the top byte to the bottom, one by 24 the other way |
| TreeMixing.RotationsCancel | code/serverbrowsing/server/gutil.cpp:93-94 | the two rotations undo each other on every word |
| TreeMixing.MixUndone | code/serverbrowsing/server/gutil.cpp:123-127 | the macro d loses nothing: two subtractions undo it |
| TreeMixing.LookUndone | code/serverbrowsing/server/gutil.cpp:97-107 | a table look-up exclusive-ored in can be undone when the table separates low bytes |
| TreeMixing.SetupSeparates | code/serverbrowsing/server/gutil.cpp:227-242 | the table of every key separates them: the bottom byte column was a permutation before the masking |
| TreeMixing.TurnsUndone | code/serverbrowsing/server/gutil.cpp:97-121 | both turns are undone by the rotations and look-ups in reverse order |
| TreeMixing.TreesApart | code/serverbrowsing/server/gutil.cpp:139-176 | under every key two different trees have different values at every node |
| TreeMixing.SeekBoth | code/serverbrowsing/server/gutil.cpp:139-176 | seeks to one leaf of two trees leave different registers |
| TreeMixing.BareLeaf | code/serverbrowsing/server/gutil.cpp:97-176 | over a table of zeros every leaf of every tree has the word that plain additions, complements and half-word rotations give |
| TreeMixing.SetupIsOneRun | code/serverbrowsing/server/gutil.cpp:223-242 | the table is what one run of 2048 swaps leaves, a byte of room made every 512, exclusive-ored with its indices |
| TreeMixing.PadSkipsLast | code/serverbrowsing/server/gutil.cpp:249-262 | pad byte i is byte i + i / 63 of the keystream words, lowest byte first |
| FlatKeystream.FlatLeft | code/serverbrowsing/server/enctype_shared.cpp:45-55 | the register moves of the flattened left turn are the macro f |
| FlatKeystream.FlatRight | code/serverbrowsing/server/enctype_shared.cpp:60-71 | the register moves of the flattened right turn are the macro g |
| FlatKeystream.FlatPop | code/serverbrowsing/server/enctype_shared.cpp:59-71 | popping without a clamp: the unsigned index wraps below zero only on an empty stack |
| FlatKeystream.FlatWord | code/serverbrowsing/server/enctype_shared.cpp:36-72 | one round of the outer loop emits the word of the leaf and keeps the invariant up to the last leaf |
| FlatKeystream.Encshare2 | code/serverbrowsing/server/enctype_shared.cpp:22-77 | the next len words are those of consecutive leaves, within the leaves left; with the word of the last leaf the index has wrapped |
| FlatKeystream.Encshare3 | code/serverbrowsing/server/enctype_shared.cpp:101-148 | seek on the flat array |
| FlatKeystream.Encshare4 | code/serverbrowsing/server/enctype_shared.cpp:152-179 | set-up on the flat array gives the same table as the structured set-up |
| FlatKeystream.Encshare1 | code/serverbrowsing/server/enctype_shared.cpp:81-97 | from any leaf on, the data is exclusive-ored with 63 bytes of every 16-word block drawn from there, within the leaves left; from leaf 0 these are the pad bytes of the structured cipher |
| FlatKeystream.FreshRunsAgree | code/serverbrowsing/server/enctype_shared.cpp:81-97 | fresh runs of both codings give the same bytes for every key and every length the leaves last for |
| FlatKeystream.RunBoth | code/serverbrowsing/server/enctype_shared.cpp:22-179 | for every key, seek and batching up to the last leaf the two codings give equal words, those of consecutive leaves, and have equal tables; registers, index and live stack are equal if and only if a leaf is left |
| FlatKeystream.PaddedTwice | code/serverbrowsing/server/enctype_shared.cpp:81-97 | the cipher undoes itself |
| CardCipher.RotateIsThreeSwaps | code/serverbrowsing/server/sb_crypt.cpp:150-154 | the five-assignment rotation is three swaps under every coincidence of the four indices |
| CardCipher.RotateKeepsDistinct | code/serverbrowsing/server/sb_crypt.cpp:150-154 | so it keeps the cards a permutation |
| CardCipher.DistinctIsPermutation | code/serverbrowsing/server/sb_crypt.cpp:42-59 | 256 distinct cards carry every byte value |
| CardCipher.ByteRoundTrip | code/serverbrowsing/server/sb_crypt.cpp:138-232 | from equal states decrypting the encrypted byte gives the byte and the state encryption left |
| CardCipher.RoundTrip | code/serverbrowsing/server/sb_crypt.cpp:172-274 | decryption undoes encryption on every byte string and both ends stay in step |
| CardCipher.EncryptSplit | code/serverbrowsing/server/sb_crypt.cpp:172-203 | splitting the plain text changes neither the output nor the final state |
| CardCipher.DecryptSplit | code/serverbrowsing/server/sb_crypt.cpp:234-274 | splitting the cipher text changes neither the output nor the final state |
| CardCipher.StaysPermutation | code/serverbrowsing/server/sb_crypt.cpp:138-274 | the cards stay a permutation over every run in both directions |
| CardCipher.PassesUnmasked | code/serverbrowsing/server/sb_crypt.cpp:165-167 | a byte goes out as it came in exactly if the sum of the avalanche and rotor cards is the card at the sum of the other three |
| CardCipher.DifferenceKept | code/serverbrowsing/server/sb_crypt.cpp:165-169 | two bytes from one state go out with the difference they came in with |
| CardState.GOACryptState.EncryptByte | code/serverbrowsing/server/sb_crypt.cpp:138-170 | the method on fields is the specified byte step |
| CardState.GOACryptState.DecryptByte | code/serverbrowsing/server/sb_crypt.cpp:205-232 | the method on fields is the specified inverse byte step |
| CardState.GOACryptState.Encrypt | code/serverbrowsing/server/sb_crypt.cpp:172-203 | the block loop, with swaptemp in place of the card at the rotor, is the byte routine along the buffer |
| CardState.GOACryptState.Decrypt | code/serverbrowsing/server/sb_crypt.cpp:234-274 | the block loop is the inverse byte routine along the buffer |
| CardState.GOACryptState.Keyrand | code/serverbrowsing/server/sb_crypt.cpp:12-40 | a draw with the mask 2^k - 1 of its limit is the specified draw |
| CardState.GOACryptState.Deal | code/serverbrowsing/server/sb_crypt.cpp:113-121 | dealing with the incrementally halved mask gives the cards and running sum of the specified schedule |
| CardState.GOACryptState.HashInit | code/serverbrowsing/server/sb_crypt.cpp:63-82 | the unkeyed start state |
| CardState.GOACryptState.CryptInit | code/serverbrowsing/server/sb_crypt.cpp:84-136 | the start state of a key, or the unkeyed one for no key |
| KeySchedule.MaskStep | code/serverbrowsing/server/sb_crypt.cpp:119-120 | the least 2^k - 1 not below i halves exactly when i passes a power of two |
| KeySchedule.DrawUpTo | code/serverbrowsing/server/sb_crypt.cpp:25-39 | a draw ends within 12 tries with a value at most the limit |
| KeySchedule.ScheduleIsPermutation | code/serverbrowsing/server/sb_crypt.cpp:106-121 | the dealt cards are a permutation for every key |
| KeySchedule.InitialIsPermutation | code/serverbrowsing/server/sb_crypt.cpp:63-136 | every start state, keyed or not, has a permutation for cards |
| KeySchedule.FirstByte | code/serverbrowsing/server/sb_crypt.cpp:63-82 | byte 0 under the unkeyed start state gives 239 and a state worked out by hand |
| KeySchedule.StartIndices | code/serverbrowsing/server/sb_crypt.cpp:122-132 | a keyed run starts with four different cards, at places 1, 3, 5 and 7, and the card at the running sum |
| KeySchedule.WrittenTwice | code/serverbrowsing/server/sb_crypt.cpp:25-33 | a key and the same key written twice part where the shorter wraps: its length is added |
| KeySchedule.FirstDraws | code/serverbrowsing/server/sb_crypt.cpp:106-121 | the first two draws and swaps for the key byte 1 |
| RegisterCipher.RegShuffle | code/serverbrowsing/server/enctype1_decoder.cpp:206-230 | the register moves of the first half are the shuffle step on slots 256..260 |
| RegisterCipher.Func7e | code/serverbrowsing/server/enctype1_encoder.cpp:1-55 | the register encryptor is the byte encryption under the mapping of slots to fields, for every state |
| RegisterCipher.Func7 | code/serverbrowsing/server/enctype1_decoder.cpp:201-252 | the register decryptor is the byte decryption |
| RegisterCipher.Func6e | code/serverbrowsing/server/enctype1_encoder.cpp:58-63 | the buffer encryptor in place |
| RegisterCipher.Func6 | code/serverbrowsing/server/enctype1_decoder.cpp:191-196 | the buffer decryptor in place |
| RegisterCipher.CodeOnBoth | code/serverbrowsing/server/enctype1_encoder.cpp:1-55 | from corresponding states both machines give the same byte and stay in correspondence, in both directions |
| RegisterCipher.ComputeMask | code/serverbrowsing/server/enctype1_decoder.cpp:164-171 | the mask recomputed by doubling is the least 2^k - 1 not below the limit |
| RegisterCipher.Func5 | code/serverbrowsing/server/enctype1_decoder.cpp:161-186 | a draw with the running sum kept in an int agrees with the byte-sized one mod 256 |
| RegisterCipher.Func4 | code/serverbrowsing/server/enctype1_decoder.cpp:133-156 | the register key schedule gives the specified start state, and nothing for an empty key |
| RegisterCipher.SchedulesAgree | code/serverbrowsing/server/enctype1_decoder.cpp:133-186 | both key schedules give corresponding states with a permutation for cards, for every key of 1 to 255 bytes |
| ShuffleStream.ApplyTwice | code/peerchat/server/gs_peerchat.cpp:112-133 | from equal contexts the cipher undoes itself and both ends stay in step |
| ShuffleStream.ApplySplit | code/peerchat/server/gs_peerchat.cpp:112-133 | splitting the data changes nothing |
| ShuffleStream.ApplyKeepsPermutation | code/peerchat/server/gs_peerchat.cpp:112-133 | the table stays a permutation over every run |
| ShuffleStream.MixedIsPermutation | code/peerchat/server/gs_peerchat.cpp:91-107 | the keyed table is a permutation |
| ShuffleStream.UnchangedExactly | code/peerchat/server/gs_peerchat.cpp:121-128 | a byte goes out as it came in exactly if the card at the sum of the two swapped ones is 0 |
| ShuffleStream.FirstSteps | code/peerchat/server/gs_peerchat.cpp:121-128 | the first two steps from the reversed table, worked out by hand |
| ShuffleStream.FirstMixing | code/peerchat/server/gs_peerchat.cpp:96-107 | the first two steps of keying with the byte 2 |
| ShuffleStream.ChallengeUndone | code/peerchat/server/gs_peerchat.cpp:84-87 | the game key exclusive-ored again gives the challenge back |
| ShuffleStream.GameKeysTold | code/peerchat/server/gs_peerchat.cpp:84-87 | game keys that differ in a used byte give different table keys |
| ShuffleStream.Func2 | code/serverbrowsing/server/enctype1_decoder.cpp:88-105 | the array form of the stream |
| ShuffleStream.Func3 | code/serverbrowsing/server/enctype1_decoder.cpp:110-128 | its key set-up |
| ShuffleStream.PeerchatCtx.Init | code/peerchat/server/gs_peerchat.cpp:69-108 | the chat key set-up is that of the challenge exclusive-ored with the repeated game key |
| ShuffleStream.PeerchatCtx.Crypt | code/peerchat/server/gs_peerchat.cpp:112-133 | the in-place chat cipher is the specified stream |
| Enctype1.FindMasterKeyOffset | code/serverbrowsing/server/enctype1_helper.cpp:72-79 | the first offset at which the table holds the byte, or -1 exactly if it does not |
| Enctype1.ObfuscateScrambleData | code/serverbrowsing/server/enctype1_helper.cpp:84-91 | each scramble byte becomes its first offset, cut to a byte; bytes not in the table stay |
| Enctype1.Func8 | code/serverbrowsing/server/enctype1_decoder.cpp:257-262 | the table lookup in place |
| Enctype1.LookupUndoesObfuscation | code/serverbrowsing/server/enctype1_helper.cpp:84-91 | the lookup undoes the obfuscation of every byte drawn from the table |
| Enctype1.DecodeInvertsEncode | code/serverbrowsing/server/enctype1_helper.cpp:36-70 | the three layers, taken off in reverse order with the same length formulas, give the data back, for every length, key, seed and scramble |
| Enctype1.CreateBuffer | code/serverbrowsing/server/enctype1_helper.cpp:36-115 | the packet carries the layered data, the scramble as offsets and the seed |
| Enctype1.PadReach | code/serverbrowsing/server/enctype1_helper.cpp:41-47 | byte i is under the pad exactly from 2 i + 36 bytes of data on |
| Enctype1.CardReach | code/serverbrowsing/server/enctype1_helper.cpp:56-64 | byte i is under the card cipher exactly from 4 i + 24 bytes on, over the stream over the pad |
| Enctype1.PacketHead | code/serverbrowsing/server/enctype1_helper.cpp:93-115 | the length in big-endian order, 42 and 218, the scramble at 19, the seed at 36, the data at 58 |
| Enctype1.PacketFields | code/serverbrowsing/server/enctype1_helper.cpp:93-115 | the fields of the packet can be cut out again |
| Enctype1.Recover | code/serverbrowsing/server/enctype1_decoder.cpp:88-262 | the decoder routines in reverse order decode the packet |
| Enctype1.SendAndRecover | code/serverbrowsing/server/enctype1_helper.cpp:36-115 | for every plaintext within the leaf budget and all random choices, recovering the created buffer gives the plaintext |
| FilterCompiler.ConvertToRPN | code/serverbrowsing/filter/CToken.cpp:184-222 | the two-stack loop computes the specified conversion |
| FilterCompiler.ReadExpr | code/serverbrowsing/filter/CToken.cpp:188-215 | reading the tokens of a well-formed expression puts out what is complete and leaves exactly its right spine on the stack |
| FilterCompiler.CompilesToPostorder | code/serverbrowsing/filter/CToken.cpp:184-222 | for every well-formed expression tree the conversion of its infix tokens is its postorder |
| FilterExact.Aligned | code/serverbrowsing/filter/CToken.cpp:188-220 | where the output agrees with the postorder, precedence and association make that tree of the text |
| FilterExact.Misaligned | code/serverbrowsing/filter/CToken.cpp:193-200 | once an operator stays below a tighter one that should have come out, the conversion does not come right again |
| FilterExact.Block | code/serverbrowsing/filter/CToken.cpp:201-212 | a bracket puts out exactly the conversion of what is inside, whatever is on the stack |
| FilterExact.CompilesExactly | code/serverbrowsing/filter/CToken.cpp:158-222 | the conversion is the postorder if and only if the tree is the one its text denotes and has no float operand |
| FilterExact.MisplacedNot | code/serverbrowsing/filter/CToken.cpp:158-222 | NOT directly after NOT or after an arithmetic operator is never compiled as meant |
| FilterStack.PostorderPushesValue | code/serverbrowsing/filter/CToken.cpp:515-602 | evaluating a postorder never finds the stack too short and pushes exactly the value of the tree, for every meaning of the operators |
| FilterStack.PostorderDeterminesTree | code/serverbrowsing/filter/CToken.cpp:515-602 | two trees with one postorder are the same up to brackets |
| FilterEval.StringLike | code/serverbrowsing/filter/CToken.cpp:294-297 | LIKE is the glob matcher with % as the wildcard, on the right operand as mask |
| FilterEval.Apply | code/serverbrowsing/filter/CToken.cpp:311-487 | each operator function does to the stack what its meaning says |
| FilterEval.Evaluate | code/serverbrowsing/filter/CToken.cpp:515-609 | evaluate gives the verdict of the stack machine, and adds only empty values to the key map |
| FilterEval.CompiledVerdict | code/serverbrowsing/filter/CToken.cpp:158-609 | for every well-formed expression and all keys, compiling and evaluating gives the truth of its recursive value with one operand left |
| FilterEval.FormulaValue | code/serverbrowsing/filter/CToken.cpp:311-359 | AND, OR, NOT and brackets over comparisons have their propositional value |
| FilterEval.VerdictIsTruth | code/serverbrowsing/filter/CToken.cpp:158-609 | a filter of comparisons is accepted exactly if its propositional meaning is true |
| FilterEval.TextOrder | code/serverbrowsing/filter/CToken.cpp:299-359 | with a string operand >= accepts exactly if the left text is no longer than the right, <= exactly if it is no shorter, and < and > always accept |
| FilterEval.TextOrderAsWritten | code/serverbrowsing/filter/CToken.cpp:299-359 | >= and <= give the order of lengths they are written for if and only if the lengths are equal, < and > if and only if it holds |
| FilterEval.ShorterIsAtLeast | code/serverbrowsing/filter/CToken.cpp:299-359 | 'ab' >= 'c' is refused, 'a' >= 'bc' and 'ab' < 'c' are accepted |
| FilterEval.FilterMatches | code/serverbrowsing/filter/filter.cpp:4-9 | no tokens match everything, otherwise evaluate decides |
| FilterLexer.LexTurn | code/serverbrowsing/filter/CToken.cpp:228-271 | every turn of the lexer consumes at least one character, so it terminates on every text |
| FilterLexer.ReadString | code/serverbrowsing/filter/CToken.cpp:31-41 | a quoted string runs to its own delimiter or the end |
| FilterLexer.ReadVariable | code/serverbrowsing/filter/CToken.cpp:42-60 | a name runs over letters, digits, dots and underscores |
| FilterLexer.ReadInteger | code/serverbrowsing/filter/CToken.cpp:61-80 | the digits and whether a float mark was among them |
| FilterLexer.LexStep | code/serverbrowsing/filter/CToken.cpp:228-271 | the loop body is one turn |
| FilterLexer.FilterToTokenList | code/serverbrowsing/filter/CToken.cpp:223-273 | lexing and converting compute the specified postfix list |
| FilterLexer.TurnSpelled | code/serverbrowsing/filter/CToken.cpp:81-142 | any spelling of a token at the front of the text is read as that token if and only if the next character does not lengthen it: a name character after a name, a digit or float mark after digits, a second symbol after =, <, > or ! |
| FilterLexer.LexPieces | code/serverbrowsing/filter/CToken.cpp:223-271 | text that spells tokens, with white space only where the next would lengthen the one before, is lexed to exactly those tokens |
| FilterLexer.FilterTextMeansExpression | code/serverbrowsing/filter/CToken.cpp:31-273 | a text spelling a well-formed expression is accepted exactly if its value is true, for all keys, spellings and spacing that keeps tokens apart |
| FilterLexer.WriteAndJudge | code/serverbrowsing/filter/CToken.cpp:31-609 | writing an expression down with as few spaces as the lexer allows, lexing, compiling and evaluating it gives the truth of its value |
| FilterMeaning.Grouping | code/serverbrowsing/filter/CToken.cpp:158-222 | of two operators between three operands the second goes first exactly if it binds tighter: OR, AND, comparisons, sums, products, left to right within a level |
| FilterMeaning.NotGrouping | code/serverbrowsing/filter/CToken.cpp:158-222 | NOT takes the next operand and only what is multiplied or divided with it |
| FilterMeaning.OrOfAnd | code/serverbrowsing/filter/CToken.cpp:158-609 | p or q and r is accepted exactly if p is, or q and r both are |
| FilterMeaning.IntegerVerdict | code/serverbrowsing/filter/CToken.cpp:311-359 | the six comparisons, AND and OR on two integers are accepted exactly where they hold |
| FilterMeaning.TextVerdict | code/serverbrowsing/filter/CToken.cpp:274-331 | texts are equal exactly if they are the same, LIKE takes the right one as mask, an integer is compared with a text by its digits |
| FilterMeaning.ArithmeticValue | code/serverbrowsing/filter/CToken.cpp:361-468 | sum, difference, product and quotient towards zero of two integers; division by zero leaves nothing |
| FilterMeaning.NotValueOf | code/serverbrowsing/filter/CToken.cpp:470-487 | NOT of an integer is accepted exactly if it is 0 |
| FilterMeaning.VariableValue | code/serverbrowsing/filter/CToken.cpp:613-645 | a printed number is that number, other text is itself, a missing key counts as 0 |
| FilterMeaning.TextOperands | code/serverbrowsing/filter/CToken.cpp:333-487 | arithmetic on a text leaves nothing, AND and OR with a text accept |
| FilterMeaning.LoneOperator | code/serverbrowsing/filter/CToken.cpp:311-487 | what each operator leaves on an empty stack |
| FilterMeaning.SpeltComparisons | code/serverbrowsing/filter/CToken.cpp:81-142 | how the comparisons are written |
| FilterMeaning.SpeltConnectives | code/serverbrowsing/filter/CToken.cpp:81-142 | how AND, OR and NOT are written |
| FilterMeaning.SpeltArithmetic | code/serverbrowsing/filter/CToken.cpp:81-257 | how arithmetic and brackets are written |
| FilterMeaning.DotsAndDigits | code/serverbrowsing/filter/CToken.cpp:42-80 | dots and underscores belong to names; a float repeats the token before it |
| FilterMeaning.SomePlayers | code/serverbrowsing/filter/CToken.cpp:31-609 | the text numplayers>0 accepts exactly the servers whose printed number of players is positive |
| Glob.GreedyIsEnough | code/core/OS/OpenSpy.cpp:527-533 | the earliest match of the part between two wildcards leaves the most for the rest, so older wildcards can be forgotten |
| Glob.Backtrack | code/core/OS/OpenSpy.cpp:544-560 | if the part since the last wildcard cannot match here, moving its start one place on loses nothing |
| Glob.TrailingQuestions | code/core/OS/OpenSpy.cpp:541-543 | the shortcut at the end of the mask is right: a wildcard followed by question marks only absorbs the rest |
| Glob.Match2 | code/core/OS/OpenSpy.cpp:516-570 | match2 always terminates and returns 0 exactly if the name matches under the recursive definition |
| Glob.Match | code/peerchat/match.cpp:53-72 | match returns 0 exactly if the rest of the mask matches the rest of the name after the two skips |
| Glob.SkippingIsSound | code/core/OS/OpenSpy.cpp:571-591 | match returning 0 implies that the unstripped mask matches |
| Glob.SkippingExactOnce | code/core/OS/OpenSpy.cpp:571-591 | the two agree when ! and @ occur at most once in the name |
| Glob.SkippingAgreesExactly | code/core/OS/OpenSpy.cpp:571-591 | they agree on all masks if and only if ! and @ occur at most once in the name |
| Glob.CharMatchesExactly | code/core/OS/OpenSpy.cpp:552-553 | a mask character stands for itself, a letter for both its cases, _ also for a space, ? for anything |
| Glob.PlainMask | code/core/OS/OpenSpy.cpp:516-570 | without wildcards a mask matches character by character |
| Glob.AroundWildcard | code/core/OS/OpenSpy.cpp:516-570 | with one wildcard exactly the names that begin and end as the mask does, without overlap |
| ResponseOrder.WaitBuffer.SendOrWait | code/gamestats/server/GSPeer.cpp:223-251 | what was sent is the responses 0..w-1 in order, w the least index not arrived, and the map holds exactly the arrived ones above w |
| ResponseOrder.WaitBuffer.Drain | code/gamestats/server/GSPeer.cpp:237-250 | the countdown from the top index never ends the drain early |
| ResponseOrder.Deliver | code/gamestats/server/GSPeer.cpp:223-251 | for every arrival order of distinct indices the packets sent are the responses 0..w-1 in order, and w has not arrived |
| RequestQueue.SubmitKeepsInvariant | code/peerchat/server/Peer.cpp:610-638 | submitting keeps: started then queued is the submission order, and a queued request implies a running task |
| RequestQueue.FinishKeepsInvariant | code/peerchat/server/Peer.cpp:600-609 | so does finishing |
| RequestQueue.StartsInOrder | code/peerchat/server/Peer.cpp:600-638 | in every run the key requests start in submission order, each exactly once |
| RequestQueue.NothingLeftBehind | code/peerchat/tasks/tasks.cpp:302-423 | when all tasks have finished nothing is left queued |
| RequestQueue.FinishingDrains | code/peerchat/tasks/tasks.cpp:418-421 | finishing tasks in any order ends after exactly as many steps as there are unfinished requests, and until then one can finish |
| RequestQueue.Peer.AddTaskRequest | code/peerchat/server/Peer.cpp:610-638 | the method is the submit step |
| RequestQueue.Peer.ProcessNextTask | code/peerchat/server/Peer.cpp:600-609 | the method takes the next request or clears the flag |
| RequestQueue.Peer.CompleteTask | code/peerchat/tasks/tasks.cpp:418-421 | the end of a task is the finish step |
| LinkedList.Head.FindPrevious | code/core/OS/LinkedList.h:43-57 | the node before the item, exactly if there is one |
| LinkedList.Head.AddToList | code/core/OS/LinkedList.h:30-41 | appends the node to the sequence the pointers spell out |
| LinkedList.Head.RemoveFromList | code/core/OS/LinkedList.h:15-29 | deletes exactly the given node, and changes nothing if it is absent |
| LinkedList.Head.RemoveAndFree | code/peerchat/server/Peer.cpp:509-515 | the removing callback |
| LinkedList.Head.RemoveMatching | code/core/OS/LinkedList.h:82-93 | iterating with a removing and freeing callback visits each original node once in order, touches no freed node and leaves exactly the non-matching nodes in order |
| LinkedList.Head.Find | code/core/OS/LinkedList.h:82-93 | iterating with a stopping callback visits nodes up to the first match |
| LinkedList.DataOfKept | code/peerchat/server/Peer.cpp:509-557 | the entries left are the entries that do not match |
| LinkedList.AddUser | code/peerchat/server/Peer.cpp:504-508 | an entry is appended |
| LinkedList.RemoveEntries | code/peerchat/server/Peer.cpp:516-557 | the three removals leave the other entries in order |
| LinkedList.IsUserAddressVisible | code/peerchat/server/Peer.cpp:493-503 | true exactly for a global owner or a user with an entry |
| LinkedList.WhoIsSeen | code/peerchat/server/Peer.cpp:493-557 | after a user leaves a channel the user is seen exactly through another channel; after a quit not at all; nobody else is affected |
| LineFraming.Peer.HandleCommands | code/peerchat/server/Peer.cpp:168-177 | the non-empty lines are executed in order until the peer is deleted |
| LineFraming.Peer.CutLines | code/peerchat/server/Peer.cpp:189-202 | the memchr loop dispatches the complete lines and keeps the unfinished one |
| LineFraming.Peer.OnStreamRead | code/peerchat/server/Peer.cpp:178-206 | one read, encrypted or not, is the specified step |
| LineFraming.NothingLost | code/peerchat/server/Peer.cpp:178-206 | dispatched bytes plus the accumulator are always the decrypted input |
| LineFraming.SplitText | code/peerchat/server/Peer.cpp:189-202 | only the unfinished line matters for what follows |
| LineFraming.ReadSplit | code/peerchat/server/Peer.cpp:178-206 | a read may be split in two anywhere without any effect if and only if the flood check does not bite at the split |
| LineFraming.SplitIndependence | code/peerchat/server/Peer.cpp:178-206 | with no over-long unfinished line, any division of the stream into reads gives the state of one read of everything |
| LineFraming.EncryptedChatArrives | code/peerchat/server/Peer.cpp:184-186 | what an encrypting client with the same key meant to send is what is dispatched, however it is split |
| LineFraming.Feed | code/peerchat/server/Peer.cpp:178-206 | the same for the object fed read by read |
| LineFraming.TokensOfJoined | code/peerchat/server/Peer.cpp:168-202 | the commands of lines written out with newlines are the non-empty lines |
| LineFraming.LinesExecuted | code/peerchat/server/Peer.cpp:168-206 | one read executes the non-empty lines in order, stripped, keeps the unfinished one, and deletes the peer exactly if that has more than 1024 bytes |
| LineFraming.ReturnStripped | code/peerchat/server/Peer.cpp:173-174 | a carriage return at the end is stripped, blanks stay |
| KeyValue.KVReader.constructor | code/core/OS/KVReader.cpp:11-70 | the token loop computes the specified parse |
| KeyValue.KVReader.ParseLine | code/core/OS/KVReader.cpp:33-61 | the inner loop on one line, with data keys, duplicates and the stream flags |
| KeyValue.KVReader.FindIndex | code/core/OS/KVReader.cpp:121-131 | the first pair with the key |
| KeyValue.KVReader.ToString | code/core/OS/KVReader.cpp:142-159 | renders the pairs in order |
| KeyValue.RoundTrip | code/core/OS/KVReader.cpp:11-159 | parsing what ToString renders gives back every list of pairs with distinct non-empty keys and no delimiters, empty values anywhere; under a data key also payloads with delimiters |
| KeyValue.ReadsBack | code/core/OS/KVReader.cpp:33-61 | the same from between any two pairs of the rendered list |
| KeyValue.PayloadReadBack | code/core/OS/KVReader.cpp:33-61 | after any renderable pairs, a payload under a data key with its printed length in front is read back whatever it contains, delimiters too |
| KeyValue.LinesRoundTripUpToOne | code/core/OS/KVReader.cpp:24-66 | with a line delimiter the round trip holds if and only if there is at most one pair, whatever data keys are configured, as long as the pairs do not use them |
| KeyValue.FirstValueKept | code/core/OS/KVReader.cpp:33-61 | of two values for one key the first is kept |
| KeyValue.CleanExactly | code/core/OS/KVReader.cpp:165-176 | cleaning changes a text exactly if char is unsigned and a byte is above 127 |
| CompactInt.WriteCompactInt | code/utmaster/server/UTPeer.cpp:176-207 | writes the specified bytes after what was there |
| CompactInt.ReadCompactInt | code/utmaster/server/UTPeer.cpp:142-174 | reads the specified value, with sign extension and 32-bit wrap, and moves the cursor past it |
| CompactInt.IntReadBack | code/utmaster/server/UTPeer.cpp:142-207 | an integer is read back if and only if it is not negative (a negative one gives twice its absolute value); exactly the bytes written are consumed, at most five |
| CompactInt.WriteFString | code/utmaster/server/UTPeer.cpp:231-234 | length, characters and terminator |
| CompactInt.ReadFString | code/utmaster/server/UTPeer.cpp:209-229 | the character loop with its terminator and colour cases |
| CompactInt.StringReadBack | code/utmaster/server/UTPeer.cpp:209-234 | a string, embedded NULs included, is read back if and only if colours are kept or it has no escape |
| CompactInt.WriteAndReadBack | code/utmaster/server/UTPeer.cpp:142-234 | any sequence of non-negative ints and strings is read back and the reader ends where the writer did |
| CompactInt.EncodedForm | code/utmaster/server/UTPeer.cpp:176-207 | sign and more-mark in the top bits of the first byte, then six, seven, seven and seven bits, lowest first, and the rest; the lengths change at 2^6, 2^13, 2^20 and 2^27 |
| CompactInt.ColourLeftOut | code/utmaster/server/UTPeer.cpp:209-229 | a colour escape takes three bytes with it, and the final NUL is left out |
| QrRegistry.Registry.IsServerDeleted | code/qr/tasks/shared.cpp:126-153 | deleted is 1 and, unless ignored, no challenge is stored |
| QrRegistry.Registry.GetServerKey | code/qr/tasks/Heartbeat.cpp:9-115 | the key an address leads to, by QR1MAP for version 1 or by instance, unless deleted |
| QrRegistry.Registry.GetNewServerKey | code/qr/tasks/shared.cpp:27-90 | the known id of the address, or the next number |
| QrRegistry.Registry.SetServerDeleted | code/qr/tasks/Heartbeat.cpp:510-529 | sets the field and resets the counter if asked |
| QrRegistry.Registry.IncrNumHeartbeats | code/qr/tasks/shared.cpp:168-176 | counts one heartbeat |
| QrRegistry.Registry.WriteServerData | code/qr/tasks/Heartbeat.cpp:364-391 | leads the addresses to the server |
| QrRegistry.Registry.SetServerInitialInfo | code/qr/tasks/Heartbeat.cpp:530-585 | stores the id and the expected challenge |
| QrRegistry.Registry.PerformHeartbeat | code/qr/tasks/Heartbeat.cpp:205-315 | the heartbeat task is the specified step, with its reply and event |
| QrRegistry.Registry.PerformValidate | code/qr/tasks/ValidateServer.cpp:25-73 | the validation task is the specified step, with its reply and event |
| QrRegistry.HeartbeatTracks | code/qr/tasks/Heartbeat.cpp:205-315 | a heartbeat of any version keeps: the deleted field is 0 exactly for live servers, every address leads to a server with that field, and no event breaks the law |
| QrRegistry.ValidationTracks | code/qr/tasks/ValidateServer.cpp:25-73 | so does a validation |
| QrRegistry.HeartbeatKeeps | code/qr/tasks/Heartbeat.cpp:205-315 | for a server served in one version only, a heartbeat of it or of any other server keeps its version law and what the store says about its announcements |
| QrRegistry.ValidationKeeps | code/qr/tasks/ValidateServer.cpp:25-73 | so does a validation |
| QrRegistry.RunTracks | code/qr/tasks/Heartbeat.cpp:205-315 | every run, of whatever versions, keeps the store in step with the history and every event lawful |
| QrRegistry.RunKeeps | code/qr/tasks/Heartbeat.cpp:205-315 | every run keeps, for each server all of whose own tasks are of one version, the law of that version, whatever versions other servers on the store use |
| QrRegistry.EventsNeedValidation | code/qr/tasks/Heartbeat.cpp:205-315 | in every run each event is about a server validated before, with no deletion and no new registration in between |
| QrRegistry.Version2Runs | code/qr/tasks/ValidateServer.cpp:52-63 | a server served in version 2, in a run where others may use any: each update or deletion follows an announcement with no deletion or re-registration in between, and between two announcements there is one |
| QrRegistry.Version1Runs | code/qr/tasks/Heartbeat.cpp:298-304 | a server served in version 1, in a run where others may use any: between two announcements there is a deletion, and each update follows an announcement with no deletion in between |
| QrRegistry.RunIsSound | code/qr/tasks/Heartbeat.cpp:292-304 | in every run, for every server of whatever versions: the counter is 0 before the first event since the last deletion, and an announced server is live and has been counted |
| QrRegistry.LawsExactly | code/qr/tasks/Heartbeat.cpp:205-315 | for every run and every server, of any mix of versions: the law common to both versions, the law of version 1 and the law of version 2 each hold of its events if and only if no task of the run is a fault of that kind, each fault read off the request, the stored fields and whether there has been an event since the last deletion or registration |
| QrRegistry.UpdatesAnnouncedExactly | code/qr/tasks/Heartbeat.cpp:298-304 | every update of a server follows an announcement with no deletion in between if and only if no heartbeat of another version than 1, with statechanged neither 2 nor 3, finds the server live and without an event since its last deletion |
| QrRegistry.UpdateWithoutNew | code/qr/tasks/Heartbeat.cpp:298-304 | such a run, from the empty store: registered and validated in version 1, then a heartbeat of version 2, gives the history registered, validated, updated with no announcement |
| QrChallenge.ValidatedExactly | code/qr/tasks/ValidateServer.cpp:8-63 | in every run a response validates its server exactly if that is not live and the response begins with what the last registration asked for, quotes stripped; otherwise nothing changes |
| QrChallenge.ValidationIsEarned | code/qr/tasks/ValidateServer.cpp:25-63 | wherever a run validates a server, the response began with what the last registration before it asked for |
| QrChallenge.StoredAnswer | code/qr/tasks/ValidateServer.cpp:8-24 | the stored challenge is the answer of the last registration |
| QrChallenge.QuotesStripped | code/core/OS/OpenSpy.cpp:333-337 | quotes around a text are stripped and nothing else is |
| QrChallenge.EmptyResponse | code/qr/tasks/ValidateServer.cpp:44-50 | an empty response to a server that waits for ab is refused |
| QrChallenge.RegisteredIsFound | code/qr/tasks/Heartbeat.cpp:9-115 | after a registration, requests from its address with its instance key find the server |
| QrChallenge.FoundFromOtherPort | code/qr/tasks/Heartbeat.cpp:364-391 | and in version 1 from the port it registered from |
| QrChallenge.IdsFollowAddresses | code/qr/tasks/shared.cpp:27-90 | an address that registers again keeps its id, a new one gets the next number |
| QrChallenge.Asked | code/qr/tasks/Heartbeat.cpp:205-304 | what statechanged 1, 2, 3 or nothing does to a live server |
| QrRegistry.Serve | code/qr/tasks/Heartbeat.cpp:205-315 | the published events of any run are the events of its history |
| Decimals.KnownDecimals | code/core/OS/KVReader.cpp:104-111 | 1024 printed and a signed number read |
| Decimals.AtoiOfDigits | code/core/OS/KVReader.cpp:104-111 | a printed length is read back by atoi, which the length of a payload rests on |

## Left out

- TreeKeystream.CryptKey.Encrypt: after a seek straight to the last leaf nothing is said about the second word on, because the pop then reads whatever stack slot 0 held before; every access stays inside the stacks.
- FlatKeystream.Encshare2: requests end at the last leaf, because with its word the unsigned index wraps to 0xFFFFFFFF and the source would go on through pointers outside the array.
- FlatKeystream.Encshare1: within the leaves left, for the same reason.
- Enctype1.CreateBuffer: the validation key is not empty, because for an empty one the register array stays uninitialised; the plaintext is within the leaf budget.
- Enctype1.Recover: put together from the decoder routines, since the repository holds no whole decoder; the master key is any table of 256 bytes with its terminator.
- Glob.Match2: strings end at their first NUL and the wildcard is neither NUL nor a question mark; letters are folded as in the C locale.
- FilterEval.Evaluate: integers are unbounded where the code overflows, and a float operand is dropped by the compiler before it gets here; the integer left in a token that never had one is a parameter.
- FilterLexer.LexPieces: names do not start with a keyword and numbers are not negative, because the lexer cuts keywords off the front of names and reads a minus sign as an operator; a float literal pushes whatever token came before.
- FilterLexer.ReadVariable: the buffer of the source has no room for a terminator when the name fills the whole filter; the name is taken as ending there.
- LineFraming.ReadSplit: encryption is fixed on or off; what a command does is only whether it deletes the peer, given all commands so far.
- KeyValue.LinesRoundTripUpToOne: no pair's key, and not the empty key, is a data key.
- KeyValue.RoundTrip: bytes above 127 survive only where char is signed, since cleanup_string drops them elsewhere; which of the two holds is a parameter, as is what a short read leaves in its buffer.
- CompactInt.WriteCompactInt: the most negative int, whose absolute value overflows, is excluded.
- RequestQueue.Peer.AddTaskRequest: submitting and finishing are atomic steps, although the flag is read outside the mutex.
- ResponseOrder.WaitBuffer.SendOrWait: indices are distinct and fit an int.
- LinkedList.Head.RemoveMatching: the callback is the one instance the servers use, not an arbitrary function; PurgeUserAddressVisibility is not modelled.
- QrRegistry.RunTracks: tasks are atomic and nothing expires; custom keys, player and team keys, addresses for queries and heartbeat times are not stored; the heartbeat throttle is compiled out in the source.
- QrRegistry.Version1Runs: for servers all of whose tasks are of one version, as QrRegistry.Version2Runs is; QrRegistry.LawsExactly says when the same laws hold of a server served in both.
- Redis, AMQP, HTTP, libuv, TLS, logging and configuration: a store is maps, a sent packet or event is an entry in a list, random bytes are parameters.
- `OS::Buffer` reallocation and the read cursor it moves: buffers are sequences with a cursor.
- The `\final\` splitters, version 2 length framing, channel membership, the GP, FESL, search, cdkey and natneg handlers, `cengine_gs_encrypt`, `GOAHashFinal`, `unescapeJSON`, keepalives and pings.
- That the ciphers are hard to break.
