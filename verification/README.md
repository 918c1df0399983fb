# Verified models of the scale firmware and its vendored compiler cache

Two parts of the repository are modelled and proved here: the compiler cache under
`swig-4.3.1/CCache`, and the signal chain of the scale under `main`. Source paths below are relative
to the root of the repository.

**The compiler cache.** Preprocessed source goes through a token normaliser (`Unify.dfy`,
`UnifyNormal.dfy`, `UnifyCode.dfy`) and a 64-byte push buffer (`Hash.dfy`) into an incremental MD4 with
its own 64-byte tail (`Mdfour.dfy`, `Md4Block.dfy`). The normaliser is shown to be a normal form whose tokens
follow a grammar over literal alphabets (`Lexis.dfy`), the two buffers to deliver every byte once, and the
streaming digest to be that of RFC 1320, down to two of its test vectors (`Md4Vectors.dfy`). The statistics file
is printed by the fallback formatter (`Format.dfy`, `FormatMeaning.dfy`, `FormatCode.dfy`; `FormatLaws.dfy` says
what each conversion prints), parsed back
(`Stats.dfy`) and updated (`StatsUpdate.dfy`) by many processes under a lock (`StatsProtocol.dfy`). When a
limit is exceeded, the oldest files are evicted (`Cleanup.dfy`). `KeyMeaning.dfy` says what a cache key tells
apart. `Common.dfy`, `Bytes.dfy` and `Text.dfy` hold what is shared: options, division, bytes, words, numerals.

**The signal chain.** 24-bit samples (`Hx711.dfy`) go through a step-aware moving average
(`MovingAverage.dfy`) and an adaptive Kalman filter (`Kalman.dfy`), are converted to grams by a calibrated
line (`Calibration.dfy`) and drive a debounced state machine (`WeightManager.dfy`). `Pipeline.dfy` composes
them: how soon a changed load is recognized, from raw bits to state; `Unnoticed.dfy` does so for a load that
starts no boost.

Code that updates objects in place is a class whose methods are proved against functions on values; what the
source promises is proved about those functions, over all inputs and all runs. `float` and `double` are
modelled as real numbers, and so are their constants; where a division by zero can occur, `Floats.dfy` adds the
infinities and NaN. Widths that matter are written out: 32-bit counters
and bit lengths wrap, `int` and `long` arguments of the formatter are 32 and 64 bits, integer division
truncates toward zero where the source divides.

## What the code does and its comments do not say

- Only 32 bits of the MD4 bit length are written, so the bytes compressed are those of RFC 1320 exactly when
  the length modulo 2^61 is below 2^29 (`Mdfour.PaddingAgrees`); only then do the chains agree for every
  compression function (`Mdfour.ChainAgrees`).
- The punctuator found is not always the longest: `:>` is taken as `:` (`UnifyNormal.LongestMatchExceptColon`).
- The flush that ends `unify` finalises the digest although more is hashed afterwards; the tail then
  counts twice (`Mdfour.MidStreamFinish`).
- A literal that is not closed makes the scanner read one byte behind the text (`past` in the model), and
  unification is then not idempotent (`UnifyNormal.IdempotentExactlyWhenClosed`).
- Finalising in mid-stream makes different messages compress the same bytes (`KeyMeaning.MessagesCollide`), but
  not for the keys of sources with closed literals and no zero bytes (`KeyMeaning.KeyTellsTokens`).
- A numeral keeps its last nineteen digits only: `%lu` prints every digit exactly below 10^19, and `%lo` below
  2^57 (`FormatLaws.UnsignedLongPrints`).
- A formatted integer is narrower than the width asked for exactly in the case given by
  `FormatMeaning.FieldWidth`, and a precision below the width of a string is raised to the
  width (`FormatMeaning.StringMeaning`).
- The result of the lock call is used by updates only; the other operations go on without the lock. The file
  stays in step exactly as long as every write is harmless (`StatsProtocol.InStepExactlyWhenHarmless`), and
  one completed update between read and write is enough that it is not (`StatsProtocol.StaleSizes`,
  `StatsProtocol.IgnoredLockFailureLosesAnUpdate`).
- A file that could not be removed is missing from the count (`Cleanup.CountIsOfSurvivors`), and a limit of
  1 removes nothing (`Cleanup.LimitsOfOneRemoveNothing`).
- The boost of the Kalman filter never ends and its process noise is never set back
  (`Hx711.BoostNeverEnds`); the cascaded median never leaves the range of its first two samples
  (`Hx711.CascadeStays`). A change below the threshold need not start a boost and is then followed some
  hundred times more slowly (`Unnoticed.AnyLoadArrives`).
- Calibrating with equal raw values for tare and weight succeeds with an infinite line, which converts no
  reading to a number (`Calibration.BrokenLineConverts`).
- `WM_DEBOUNCE_COUNT` is commented as the number of consecutive readings for a change of state and is 3,
  but 4 are needed (`WeightManager.DebounceCountIsNotEnough`). The header of the weight manager gives a wake
  threshold of 200 g; the code uses its own 20 g.

## Model

| member | source | states |
|---|---|---|
| `Md4Block.Mdfour64` | swig-4.3.1/CCache/mdfour.c:39-82 | the 48 unrolled statements on A, B, C, D compute the 48 tabulated operations of section 3.4 of RFC 1320, followed by the addition of the saved words |
| `Md4Block.FirstRound` | swig-4.3.1/CCache/mdfour.c:47-54 | after 16 statements the variables are the chain after the 16 operations of round 1 of the RFC table |
| `Md4Block.SecondRound` | swig-4.3.1/CCache/mdfour.c:57-64 | the same for round 2: column order of the words, shifts 3, 5, 9, 13, constant 5A827999 |
| `Md4Block.ThirdRound` | swig-4.3.1/CCache/mdfour.c:66-73 | the same for round 3: listed order of the words, shifts 3, 9, 11, 15, constant 6ED9EBA1 |
| `Md4Block.FSelects` | swig-4.3.1/CCache/mdfour.c:29 | F has the bits of its second argument where the first has a one, and those of the third elsewhere |
| `Md4Block.GIsMajority` | swig-4.3.1/CCache/mdfour.c:30 | G does not depend on the order of its arguments, and is what two equal ones say |
| `Md4Block.HIsParity` | swig-4.3.1/CCache/mdfour.c:31 | H has exactly the bits that one argument alone or all three have |
| `Md4Vectors.DigestOfNothing` | swig-4.3.1/CCache/mdfour.c:39-194 | the digest of the empty message, as hexadecimal text, is the one in appendix A.5 of RFC 1320 |
| `Md4Vectors.DigestOfAbc` | swig-4.3.1/CCache/mdfour.c:39-194 | and so is the digest of abc |
| `Mdfour.Copy64` | swig-4.3.1/CCache/mdfour.c:84-91 | the 16 words of a block are its little-endian words |
| `Mdfour.Copy4` | swig-4.3.1/CCache/mdfour.c:93-99 | a word is written as its four little-endian bytes, and nothing else in the array changes |
| `Mdfour.MdState.Begin` | swig-4.3.1/CCache/mdfour.c:101-109 | whatever was absorbed before, the state is the initial chain with nothing counted and no tail |
| `Mdfour.MdState.Tail` | swig-4.3.1/CCache/mdfour.c:112-137 | the tail is compressed with its padding as one block up to 55 bytes and as two from 56 on, with 32 bits of the bit length; the tail buffer keeps its bytes |
| `Mdfour.MdState.Update` | swig-4.3.1/CCache/mdfour.c:139-175 | data moves the abstract state by absorbing it, a null pointer by finalising; every tail fill level and every length |
| `Mdfour.MdState.FillTail` | swig-4.3.1/CCache/mdfour.c:148-161 | topping up a tail in use absorbs exactly the bytes copied, and uses them all unless the tail becomes a whole block |
| `Mdfour.MdState.CompressBlocks` | swig-4.3.1/CCache/mdfour.c:163-169 | the loop absorbs the whole blocks of the input and leaves less than one block |
| `Mdfour.MdState.KeepPart` | swig-4.3.1/CCache/mdfour.c:171-174 | what is less than a block is absorbed by keeping it in the tail |
| `Mdfour.MdState.Result` | swig-4.3.1/CCache/mdfour.c:178-184 | the output is the four words of the chain, low-order byte first (section 3.5 of RFC 1320) |
| `Mdfour.OutputIsFaithful` | swig-4.3.1/CCache/mdfour.c:178-184 | the sixteen output bytes of two chains are equal if and only if the chains are |
| `Mdfour.Mdfour` | swig-4.3.1/CCache/mdfour.c:187-194 | for every input the output is the printed chain after all blocks of the padded input, and that padding is the one of RFC 1320 if and only if the length modulo 2^61 is below 2^29 |
| `Mdfour.BlocksConcat` | swig-4.3.1/CCache/mdfour.c:163-169 | compressing a concatenation of whole blocks is compressing its parts one after the other |
| `Mdfour.AbsorbConcat` | swig-4.3.1/CCache/mdfour.c:139-175 | absorbing a and then b is absorbing a followed by b, for every tail already pending and every compression function |
| `Mdfour.ChunkingIsInvisible` | swig-4.3.1/CCache/mdfour.c:139-175 | every way of splitting data into update calls gives the state of one call |
| `Mdfour.PaddingAgrees` | swig-4.3.1/CCache/mdfour.c:118-131 | the bytes compressed are those of sections 3.1 and 3.2 of the RFC if and only if the length modulo 2^61 is below 2^29, since only 32 bits of the bit length are written |
| `Mdfour.ChainAgrees` | swig-4.3.1/CCache/mdfour.c:112-194 | what the code computes is the chain of RFC 1320 for every compression function if and only if the length modulo 2^61 is below 2^29: beyond that some compression function, one that recognises the last block of the RFC, tells the two apart |
| `Mdfour.OneShotIsRfc1320` | swig-4.3.1/CCache/mdfour.c:112-175 | one update and one finalise give the chain of the RFC for every message below 2^29 bytes |
| `Mdfour.StreamingIsRfc1320` | swig-4.3.1/CCache/mdfour.c:101-175 | for every message below 2^29 bytes and every splitting into updates, one finalise gives the chain of the RFC |
| `Mdfour.FinishedStream` | swig-4.3.1/CCache/mdfour.c:112-175 | absorbing and finalising on top of any pending tail: the blocks compressed, the count modulo 2^32 and the tail that stays |
| `Mdfour.MidStreamFinish` | swig-4.3.1/CCache/mdfour.c:143-146 | finalising in mid-stream: in any chunking the compressed blocks are those of the first message padded, then those of its tail followed by the second message, padded; the tail is counted twice |
| `Mdfour.FinishedAgain` | swig-4.3.1/CCache/mdfour.c:143-146 | the same for one update before and one after the first finalise |
| `Hash.FeedConcat` | swig-4.3.1/CCache/unify.c:97-116 | pushing two texts one after the other is pushing their concatenation |
| `Hash.FeedWithoutZero` | swig-4.3.1/CCache/unify.c:97-116 | exactly-once delivery: without zero bytes the push buffer followed by the MD4 buffer absorbs every character once and in order |
| `Hash.FeedMessage` | swig-4.3.1/CCache/unify.c:102-109 | a text closed by a zero byte is absorbed whole and then finalised |
| `Hash.UnifiedThenHashed` | swig-4.3.1/CCache/unify.c:97-116 | both buffers together: a unified text with its flush, further data in any pieces and the final finalise compress exactly the twice-finished blocks |
| `Hash.ResultTextIsFaithful` | swig-4.3.1/CCache/hash.c:65-80 | two result texts are equal if and only if the chains and the 32-bit byte counts are, and every text fits its 53-byte buffer |
| `Hash.PushBuffer.constructor` | swig-4.3.1/CCache/hash.c:31-34 | a fresh state holds the initial chain and nothing is buffered |
| `Hash.PushBuffer.EmptyBuffer` | swig-4.3.1/CCache/unify.c:97-116 | when the buffer is empty the MD4 state is what the whole log of pushed characters makes of the state before them |
| `Hash.PushBuffer.HashBuffer` | swig-4.3.1/CCache/hash.c:26-29 | data hashed past the push buffer is absorbed, whatever the push buffer holds; the characters in it are then still to come |
| `Hash.PushBuffer.PushChar` | swig-4.3.1/CCache/unify.c:97-116 | one more character is in the log that buffer and MD4 state together stand for; a zero byte empties the buffer and finalises |
| `Hash.PushBuffer.HashResult` | swig-4.3.1/CCache/hash.c:65-80 | the state is finalised and the text is 32 hexadecimal digits of the digest, a dash and the count; characters still in the push buffer are in neither |
| `Hash.HexOf` | swig-4.3.1/CCache/hash.c:74-76 | the digit loop writes two lower-case hexadecimal digits for each byte, high half first |
| `Unify.FirstMatch` | swig-4.3.1/CCache/unify.c:208-226 | the punctuator found starts the text, and no punctuator listed before it does |
| `Unify.Next` | swig-4.3.1/CCache/unify.c:127-231 | every turn of the scanner uses at least one character, so it terminates |
| `Lexis.WordIsOneToken` | swig-4.3.1/CCache/unify.c:145-153 | letters, underscores and digits that do not start with a digit are one token, up to the first character that is none of these |
| `Lexis.NumberIsOneToken` | swig-4.3.1/CCache/unify.c:155-182 | a number of digits and dots, an x with hexadecimal digits, an e with digits and signs, and suffix letters, each part as long as it can be, is one token |
| `Lexis.LiteralIsOneToken` | swig-4.3.1/CCache/unify.c:191-206 | a closed literal with any escapes in it is one token, whatever follows |
| `Lexis.LineIsOneToken` | swig-4.3.1/CCache/unify.c:129-143 | a line that starts with # is one token, unless it is a line marker, which is none |
| `Lexis.WhiteSpaceIsNoToken` | swig-4.3.1/CCache/unify.c:184-189 | the six white-space characters are in no token and part tokens |
| `Lexis.TableIsComplete` | swig-4.3.1/CCache/unify.c:36-43 | a text is in the table if and only if it is one of 24 single characters, a compound with =, a doubled character, an arrow, an ellipsis, a shift assignment or one of four digraphs |
| `Lexis.PunctuatorIsOneToken` | swig-4.3.1/CCache/unify.c:208-226 | the longest punctuator at the front of a text is one token, unless the text starts with :> |
| `Lexis.OtherIsOneToken` | swig-4.3.1/CCache/unify.c:228-231 | a character that belongs to nothing else is one token |
| `Lexis.NothingIsLost` | swig-4.3.1/CCache/unify.c:119-233 | a text whose literals are closed is its tokens with nothing but white space and line markers in front, in between and behind |
| `UnifyNormal.ColonComesFirst` | swig-4.3.1/CCache/unify.c:38-39 | a text that starts with ':>' gives the punctuator ':' only, which is listed before ':>' |
| `UnifyNormal.LongestMatchExceptColon` | swig-4.3.1/CCache/unify.c:208-226 | the punctuator found is the longest listed one that the text starts with if and only if the text does not start with ':>' |
| `UnifyNormal.SameNext` | swig-4.3.1/CCache/unify.c:127-231 | a turn that does not start with white space depends only on the characters it uses: with a white-space character or '#' anywhere after them, in whatever text, it is the same turn |
| `UnifyNormal.SkipLayout` | swig-4.3.1/CCache/unify.c:129-133 | white space and complete line markers in front of a text change none of its tokens |
| `UnifyNormal.LayoutIsInvisible` | swig-4.3.1/CCache/unify.c:127-232 | layout inserted in any text where the scanner starts a turn, or in the white space behind such a place, leaves the list of tokens unchanged |
| `UnifyNormal.UnifiedIgnoresLayout` | swig-4.3.1/CCache/unify.c:127-232 | and so leaves the unified text unchanged |
| `UnifyNormal.Retokenised` | swig-4.3.1/CCache/unify.c:127-232 | the tokens of a unified text whose literals are closed are the tokens of the text |
| `UnifyNormal.UnifyIsIdempotent` | swig-4.3.1/CCache/unify.c:119-233 | unifying a unified text changes nothing, for every text whose literals are closed and whatever byte stands behind either text |
| `UnifyNormal.UnifiedSeparatesTokens` | swig-4.3.1/CCache/unify.c:119-233 | two texts whose literals are closed have the same unified text if and only if they have the same tokens |
| `UnifyNormal.IdempotentExactlyWhenClosed` | swig-4.3.1/CCache/unify.c:191-206 | with a zero byte behind the text, as on the last page of a mapped file, unification is idempotent on a text if and only if its literals are closed |
| `UnifyNormal.OpenGrows` | swig-4.3.1/CCache/unify.c:191-206 | the failing family: every text with an open literal gets longer when unified again |
| `UnifyNormal.UnifiedHasNoZero` | swig-4.3.1/CCache/unify.c:191-206 | a text without zero bytes gives a unified text without zero bytes when its literals are closed, or the byte behind it is not zero |
| `UnifyCode.TokenTable.constructor` | swig-4.3.1/CCache/unify.c:60-94 | the table marks every character with exactly its classes and lists for every first character its punctuators in order |
| `UnifyCode.BucketsFit` | swig-4.3.1/CCache/unify.c:54-94 | no first character has more than six punctuators, and '<' has six, so the seven places of a table entry suffice |
| `UnifyCode.BucketDecides` | swig-4.3.1/CCache/unify.c:208-226 | searching only the punctuators of the first character finds the first match in the whole list |
| `UnifyCode.Unifier.PushWord` | swig-4.3.1/CCache/unify.c:145-153 | an identifier is pushed to its end with a newline |
| `UnifyCode.Unifier.PushNumber` | swig-4.3.1/CCache/unify.c:155-182 | the four phases of the number scanner push the number to the specified end with a newline |
| `UnifyCode.Unifier.PushQuoted` | swig-4.3.1/CCache/unify.c:191-206 | the quote loop pushes the literal, escapes included, up to its closing quote, or the rest of the text and the byte behind it |
| `UnifyCode.Unifier.PushToken` | swig-4.3.1/CCache/unify.c:208-226 | the first punctuator that matches is pushed with a newline, or nothing when none matches |
| `UnifyCode.Unifier.Turn` | swig-4.3.1/CCache/unify.c:127-231 | one turn of the outer loop pushes and uses exactly what the specification says |
| `UnifyCode.Unifier.Unify` | swig-4.3.1/CCache/unify.c:119-233 | the characters pushed are the unified text and one closing zero byte, and the push buffer ends empty |
| `UnifyCode.KeyIgnoresLayout` | swig-4.3.1/CCache/ccache.c:568-593 | the cache key does not change when layout is inserted where the scanner starts a turn, or in the white space behind such a place |
| `UnifyCode.KeyIsFinishedTwice` | swig-4.3.1/CCache/ccache.c:568-593 | what is compressed for a key when the unified source has no zero byte: arguments and unified source, padded; then their tail and the error output, padded |
| `UnifyCode.KeyOfClosedSource` | swig-4.3.1/CCache/ccache.c:568-593 | so it is for every source without zero bytes whose literals are closed |
| `UnifyCode.KeyIsMd4` | swig-4.3.1/CCache/ccache.c:568-593 | any function that agrees with MD4 on 64-byte blocks gives the key of MD4 |
| `UnifyCode.ComputeKey` | swig-4.3.1/CCache/ccache.c:568-593 | hashing arguments, unified source and error output through both buffers gives the text of the key state with MD4 as compression |
| `KeyMeaning.BytesTellMessages` | swig-4.3.1/CCache/mdfour.c:112-146 | the bytes compressed tell the message before the finalisation in mid-stream and the one after it, however long, provided that where one first message goes on behind another with the padding mark it holds no zero byte from there on, and the other does not end in a zero byte unless a newline follows the mark |
| `KeyMeaning.MessagesCollide` | swig-4.3.1/CCache/mdfour.c:143-146 | a family of pairs of different messages with the same bytes, the same chain under every compression function and the same count: finalising in mid-stream does not tell a first message that looks like a padding |
| `KeyMeaning.KeyBytesAreCompressed` | swig-4.3.1/CCache/ccache.c:568-593 | and those bytes are what the chain of the key is computed from, for every compression function |
| `KeyMeaning.KeyTellsTokens` | swig-4.3.1/CCache/ccache.c:568-593 | for the same arguments, sources without zero bytes and with closed literals: the bytes compressed for two keys are the same if and only if the sources have the same tokens and the error outputs are equal |
| `Text.NumeralValue` | swig-4.3.1/CCache/snprintf.c:470-476 | a numeral in base 2 to 16 denotes its number |
| `Text.NumeralLength` | swig-4.3.1/CCache/snprintf.c:470-476 | a numeral has at most k digits if and only if the number is below base^k |
| `FormatMeaning.DigitsMeaning` | swig-4.3.1/CCache/snprintf.c:470-477 | the digits kept in the 20-byte buffer denote the magnitude modulo base^19, and are the whole numeral if and only if the magnitude is below base^19 |
| `FormatMeaning.OctalLosesDigits` | swig-4.3.1/CCache/snprintf.c:470-477 | the least value that loses digits in octal: 2^57 prints as nineteen digits that denote 0 |
| `FormatMeaning.FieldMeaning` | swig-4.3.1/CCache/snprintf.c:440-522 | a field of fmtint is blanks, a sign that tells negative values, zeros and digits that denote the magnitude modulo base^19, blanks; blanks stand on one side only, chosen by the minus flag; the precision is always reached |
| `FormatMeaning.FieldWidth` | swig-4.3.1/CCache/snprintf.c:479-488 | a field is at least as wide as asked for if and only if it is not the case that a zero flag meets a precision above the number of digits and a width above sign and precision; otherwise it is exactly the maximum of the two |
| `FormatMeaning.NarrowField` | swig-4.3.1/CCache/snprintf.c:479-488 | a concrete narrow field: "%010.5d" of 42 prints the seven characters 0000042 |
| `FormatMeaning.StringMeaning` | swig-4.3.1/CCache/snprintf.c:337-345 | what the 's' conversion prints of a string: the string cut to the precision and padded to the width, with a precision below the width raised to the width, and nothing at all for a precision below -1 |
| `FormatMeaning.StringsAreCutAndPadded` | swig-4.3.1/CCache/snprintf.c:337-345 | all strings of length n are cut to the precision as given and padded if and only if neither 0 <= precision < width with n above the precision, nor a precision below -1 with anything to print |
| `FormatMeaning.ReadDirective` | swig-4.3.1/CCache/snprintf.c:159-391 | a directive shown as text in front of any format prints its meaning, and the rest goes on with the arguments left |
| `FormatMeaning.RenderMeaning` | swig-4.3.1/CCache/snprintf.c:141-400 | the eight-state machine, run on the text of any list of well-formed literals and directives, prints the meaning of each in order |
| `FormatLaws.LowerNumeral` | swig-4.3.1/CCache/snprintf.c:470-475 | a numeral is the one over the digits 0123456789abcdef |
| `FormatLaws.UpperNumeral` | swig-4.3.1/CCache/snprintf.c:468-475 | and over 0123456789ABCDEF with the flag for capitals |
| `FormatLaws.IntPrints` | swig-4.3.1/CCache/snprintf.c:256-268 | %d, %i and %hd print every int as a minus sign, when it is negative, and the decimal numeral of its magnitude |
| `FormatLaws.LongPrints` | swig-4.3.1/CCache/snprintf.c:256-268 | %ld, %li and %lld do so for every long |
| `FormatLaws.UnsignedPrints` | swig-4.3.1/CCache/snprintf.c:269-307 | %o, %u, %x and %X print every unsigned int in base 8, 10 and 16, in lower and upper case |
| `FormatLaws.HexLongPrints` | swig-4.3.1/CCache/snprintf.c:293-307 | %lx and %lX print every unsigned long in base 16 |
| `FormatLaws.UnsignedLongPrints` | swig-4.3.1/CCache/snprintf.c:269-292 | %lu and %lo print the last nineteen digits, which are all of them exactly below 10^19 and below 2^57 |
| `FormatLaws.PointerPrints` | swig-4.3.1/CCache/snprintf.c:346-349 | %p prints a pointer as a signed number in base 16 |
| `FormatLaws.SignPrints` | swig-4.3.1/CCache/snprintf.c:456-466 | a plus sign or a blank stands in front of a number that is not negative |
| `FormatLaws.ZerosFill` | swig-4.3.1/CCache/snprintf.c:479-511 | the flag 0 fills the field with zeros between sign and digits, for every width |
| `FormatLaws.BlanksInFront` | swig-4.3.1/CCache/snprintf.c:479-499 | without it blanks fill the field in front |
| `FormatLaws.BlanksBehind` | swig-4.3.1/CCache/snprintf.c:487-521 | and with a minus flag behind |
| `FormatLaws.DigitsAtLeast` | swig-4.3.1/CCache/snprintf.c:479-511 | a precision is filled up with zeros to so many digits |
| `FormatLaws.StarPrints` | swig-4.3.1/CCache/snprintf.c:198-209 | a star takes the width from the arguments; a negative one counts as none |
| `FormatLaws.CharacterPrints` | swig-4.3.1/CCache/snprintf.c:334-336 | %c prints the character of the argument modulo 256 |
| `FormatLaws.StringPrints` | swig-4.3.1/CCache/snprintf.c:337-345 | %s prints the string |
| `FormatLaws.NullPrints` | swig-4.3.1/CCache/snprintf.c:338-339 | and (NULL) for a null pointer |
| `FormatLaws.StringInFront` | swig-4.3.1/CCache/snprintf.c:402-436 | a width fills a string up with blanks in front |
| `FormatLaws.StringBehind` | swig-4.3.1/CCache/snprintf.c:402-436 | and with a minus flag behind |
| `FormatLaws.StringCutOff` | swig-4.3.1/CCache/snprintf.c:402-436 | a precision cuts a string off |
| `FormatLaws.PercentPrints` | swig-4.3.1/CCache/snprintf.c:369-371 | two percent signs print one and use no argument |
| `FormatLaws.UsesOneArgument` | swig-4.3.1/CCache/snprintf.c:256-368 | each of the fifteen other conversions uses up one argument, and what is behind it goes on with the others |
| `FormatLaws.IgnoredPrints` | swig-4.3.1/CCache/snprintf.c:316-367 | e, E, g, G and n use an argument and print nothing |
| `FormatLaws.UnknownPrints` | swig-4.3.1/CCache/snprintf.c:376-378 | any other character behind a percent sign prints nothing and uses no argument |
| `FormatLaws.SkippedWide` | swig-4.3.1/CCache/snprintf.c:372-375 | w is skipped together with the character behind it |
| `Format.Step` | swig-4.3.1/CCache/snprintf.c:159-391 | every turn of the machine consumes format characters or lowers the rank of the state, so it terminates on every format |
| `FormatCode.Sink.Outch` | swig-4.3.1/CCache/snprintf.c:747-753 | one more character is counted, and stored while there is room; the front of everything put out stands in the buffer |
| `FormatCode.Sink.Terminate` | swig-4.3.1/CCache/snprintf.c:392-397 | the buffer ends up with the first maxlen - 1 characters and a zero byte, nothing else changed; with maxlen 0 nothing is written |
| `FormatCode.Sink.Fmtstr` | swig-4.3.1/CCache/snprintf.c:402-436 | the three loops put out padding and text, together cut off after the precision |
| `FormatCode.Sink.Convert` | swig-4.3.1/CCache/snprintf.c:470-477 | the digits produced, least significant first, are the reversed numeral, or its last 19 digits when 20 were produced |
| `FormatCode.Sink.Fmtint` | swig-4.3.1/CCache/snprintf.c:440-522 | the countdown loops put out exactly the specified field |
| `FormatCode.Formatter.Turn` | swig-4.3.1/CCache/snprintf.c:159-391 | one turn of the loop takes the step of the machine and puts out its text |
| `FormatCode.Formatter.Print` | swig-4.3.1/CCache/snprintf.c:256-379 | every conversion puts out its specified text |
| `FormatCode.RunOf` | swig-4.3.1/CCache/snprintf.c:159-391 | the loop terminates and puts out everything the machine had still to put out |
| `FormatCode.Dopr` | swig-4.3.1/CCache/snprintf.c:141-400 | the length returned is that of the unbounded output whatever the bound, and the buffer holds the first min(length, maxlen - 1) characters of it and a zero byte |
| `FormatCode.Vasprintf` | swig-4.3.1/CCache/snprintf.c:787-799 | the second pass fills the buffer that the first pass measured with the whole text and a zero byte; an empty text allocates nothing |
| `Stats.ParseNumbers` | swig-4.3.1/CCache/stats.c:67-78 | numbers printed with one blank between them are added, modulo 2^32, to whatever the counters from number i on hold, and what follows them is not read |
| `Stats.ReadAdds` | swig-4.3.1/CCache/stats.c:67-117 | reading a file that was overwritten, whatever it held before, adds exactly the counters written last to those read onto; the text has at most 254 bytes, so the length guard never fires |
| `Stats.RoundTrip` | swig-4.3.1/CCache/stats.c:67-117 | for all 32-bit counters and whatever the file held before, reading back after an overwriting write gives exactly the counters; the text has at most 254 bytes, so the length guard never fires |
| `Stats.StrtolReadsNumbers` | swig-4.3.1/CCache/stats.c:67-78 | white space, a sign and digits are read as the number they write, clamped to 64 bits |
| `Stats.StrtolReadsNothing` | swig-4.3.1/CCache/stats.c:67-78 | where no digits stand nothing is read, which ends the parsing |
| `Stats.OverwritingKeepsTheRest` | swig-4.3.1/CCache/stats.c:94-95 | what a longer file held behind the new text stays, since the file is not truncated |
| `Stats.EmptyFileReads` | swig-4.3.1/CCache/stats.c:99-114 | an empty file reads as all zeros but for a size limit of 62500 kilobytes |
| `Stats.PrintsNumber` | swig-4.3.1/CCache/stats.c:88 | the fallback formatter prints the directive of the file as the decimal number and a blank |
| `Stats.ParseStats` | swig-4.3.1/CCache/stats.c:67-78 | the parsing loop computes the specified counters |
| `Stats.StatsFile.WriteStats` | swig-4.3.1/CCache/stats.c:81-96 | the loop succeeds on all counters and overwrites the front of the file with their text, leaving a longer old content behind it |
| `Stats.StatsFile.ReadFd` | swig-4.3.1/CCache/stats.c:106-117 | what is parsed from the first 1023 bytes is added to the counters, whatever they hold; an empty file adds the default size limit |
| `StatsUpdate.UpdateSize` | swig-4.3.1/CCache/stats.c:120-178 | without the lock the file is left alone; with it the file reads back as the update applied to what it read as before, and a cleanup is asked for exactly when a limit that is set is exceeded |
| `StatsUpdate.ToCache` | swig-4.3.1/CCache/stats.c:181-187 | a cache miss is an update by the size in kilobytes; a cleanup is asked for, with both limits, exactly when a limit that is set is exceeded afterwards, and never without the lock |
| `StatsUpdate.SetSizesOf` | swig-4.3.1/CCache/stats.c:343-365 | the file reads back with the two sizes stored, modulo 2^32, and all other counters as before |
| `StatsUpdate.SetAllLimits` | swig-4.3.1/CCache/stats.c:294-340 | every directory's file reads back with the limits shared out over 16 directories, division truncating toward zero |
| `StatsUpdate.TableIsComplete` | swig-4.3.1/CCache/stats.c:35-64 | the table of counters lists every counter but number 0, so zeroing keeps exactly that one and the four flagged ones |
| `StatsUpdate.ZeroStatsOf` | swig-4.3.1/CCache/stats.c:271-289 | the loop over the table zeroes exactly the counters that are not kept |
| `StatsProtocol.OneCounter` | swig-4.3.1/CCache/stats.c:149-156 | every operation sets a counter or adds to it modulo 2^32, one way or the other for each operation and counter |
| `StatsProtocol.UpdateCounts` | swig-4.3.1/CCache/stats.c:148-156 | an update adds one to its counter and, for a file put into the cache, to counters 11 and 12 the number of files and the size |
| `StatsProtocol.LimitsAreStored` | swig-4.3.1/CCache/stats.c:293-330 | limits go to counters 13 and 14 divided by 16, and -1 changes nothing |
| `StatsProtocol.ShareIsASixteenth` | swig-4.3.1/CCache/stats.c:299-304 | the share of a directory is a sixteenth of the limit, off by less than one and toward zero |
| `StatsProtocol.CounterAfter` | swig-4.3.1/CCache/stats.c:133-365 | a series of operations leaves in each counter what it was set to last, or what it held at first, plus what was added since, modulo 2^32 |
| `StatsProtocol.StaleOutcome` | swig-4.3.1/CCache/stats.c:322-362 | an operation makes the same of an old snapshot as of the counters after the operations since if and only if these have left every counter that it does not set itself: they add a multiple of 2^32 to it, or set it back |
| `StatsProtocol.StaleSizes` | swig-4.3.1/CCache/stats.c:343-365 | setting the sizes on a snapshot that updates have overtaken is harmless if and only if each event counter was counted a multiple of 2^32 times since, so a single one is already lost |
| `StatsProtocol.StaleLimits` | swig-4.3.1/CCache/stats.c:320-333 | the same for setting the limits, where the files and kilobytes cached since must come to multiples of 2^32 as well |
| `StatsProtocol.StaleZeroing` | swig-4.3.1/CCache/stats.c:271-289 | the same for zeroing: only the first counter, files and kilobytes count, all else is zeroed anyway |
| `StatsProtocol.InStepExactlyWhenHarmless` | swig-4.3.1/CCache/stats.c:133-365 | in every interleaving, with or without locks, the file is in step with the operations written at every moment if and only if every write is harmless |
| `StatsProtocol.NoLostUpdates` | swig-4.3.1/CCache/stats.c:133-365 | in every interleaving in which no other operation writes between an operation's read and its write, granted locks or not, the file reads back as the written operations applied one after the other |
| `StatsProtocol.LocksPreventDisturbance` | swig-4.3.1/CCache/stats.c:133-160 | and that is so in every interleaving in which no operation goes on without the lock |
| `StatsProtocol.OneHolderAtATime` | swig-4.3.1/CCache/stats.c:141-160 | in every interleaving no two processes that hold the lock are between lock and close at the same time |
| `StatsProtocol.OneAtATime` | swig-4.3.1/CCache/stats.c:141-160 | when no operation goes on without the lock, no two processes are between lock and close at the same time |
| `StatsProtocol.EventCounter` | swig-4.3.1/CCache/stats.c:149-156 | each event counter is the number of its updates since the last zeroing, modulo 2^32, on top of its initial value when it was never zeroed or is kept |
| `StatsProtocol.LimitsAreTheLastSet` | swig-4.3.1/CCache/stats.c:294-340 | the limits are the ones set last, each divided by 16; arguments that come out as -1 leave the counter alone |
| `StatsProtocol.SizesAreTheStored` | swig-4.3.1/CCache/stats.c:343-365 | files and size are the values stored last plus what was cached since, modulo 2^32 |
| `StatsProtocol.WriteInStep` | swig-4.3.1/CCache/stats.c:133-365 | a write keeps the file in step if and only if what was written since its operation's read is harmless to it |
| `StatsProtocol.IgnoredLockFailureLosesAnUpdate` | swig-4.3.1/CCache/stats.c:354-362 | setting the sizes goes on when the lock call fails; then a completed update can be undone, whatever the file held |
| `Cleanup.FilesAreTotallyOrdered` | swig-4.3.1/CCache/cleanup.c:37-46 | the comparison is a total order: antisymmetric, transitive, and equal only for the same time and name |
| `Cleanup.SortIsQsort` | swig-4.3.1/CCache/cleanup.c:83-87 | the sort used here keeps what qsort promises: a permutation in order |
| `Cleanup.OneOrderOnly` | swig-4.3.1/CCache/cleanup.c:83-87 | files with different names have only one order, so every other sort gives the same list |
| `Cleanup.ProtectedAreTheLast` | swig-4.3.1/CCache/cleanup.c:93-102 | the adjusted minimum covers exactly the files at least as new as the minfiles-th newest, all ties included, and all files when there are no more than minfiles |
| `Cleanup.EvictionPolicy` | swig-4.3.1/CCache/cleanup.c:78-122 | when no removal fails: an oldest-first prefix goes, every protected file stays, no shorter prefix meets both thresholds, and in the end both are met or only protected files are left |
| `Cleanup.EvictionUnderFailures` | swig-4.3.1/CCache/cleanup.c:78-122 | whatever removals are refused: attempts are made on an oldest-first prefix, never on a protected file, as long as the files left do not meet both thresholds; at the end they do, or only protected files have not been tried |
| `Cleanup.CountIsOfSurvivors` | swig-4.3.1/CCache/cleanup.c:112-121 | the count handed on is the number of files left if and only if no attempted removal failed |
| `Cleanup.FailedRemovalIsNotCounted` | swig-4.3.1/CCache/cleanup.c:112-121 | a concrete failing input: one file that cannot be removed is not counted although it stays |
| `Cleanup.OneMoreAttempt` | swig-4.3.1/CCache/cleanup.c:112-118 | an attempt lowers the size of what is left by the file's size, or not at all when it is refused |
| `Cleanup.Directory.Unlink` | swig-4.3.1/CCache/cleanup.c:112 | removes a name that is there and not stuck, and says which of the three happened |
| `Cleanup.Cleaner.TraverseFn` | swig-4.3.1/CCache/cleanup.c:49-74 | regular files other than the statistics file are listed with their kilobytes, and the total is the sum over the list |
| `Cleanup.NamesByFirstDifference` | swig-4.3.1/CCache/cleanup.c:37-46 | names are compared by the first character in which they differ, a name that ends first coming first |
| `Cleanup.OlderGoesFirst` | swig-4.3.1/CCache/cleanup.c:37-46 | an older file is removed before a newer one, and of two of the same time the one with the greater name |
| `Cleanup.BasenameOfPath` | swig-4.3.1/CCache/util.c:598-603 | the base name of d/b is b when b has no slash, and a name without a slash is its own |
| `Cleanup.StatsByBasename` | swig-4.3.1/CCache/cleanup.c:55-59 | a name is passed over if and only if it is stats or ends in /stats |
| `Cleanup.OneEntry` | swig-4.3.1/CCache/cleanup.c:49-74 | of one entry the list holds a regular file that is not a statistics file, with its size in kilobytes, and nothing else |
| `Cleanup.MoreEntries` | swig-4.3.1/CCache/cleanup.c:49-74 | of two lists of entries it holds the files of the one followed by those of the other |
| `Cleanup.StatsAreLeft` | swig-4.3.1/CCache/cleanup.c:49-74 | no statistics file is ever removed, whichever other files are |
| `Cleanup.Cleaner.AdjustMinfiles` | swig-4.3.1/CCache/cleanup.c:93-102 | the loop counts the ties just before the protected files |
| `Cleanup.Cleaner.DeleteOldest` | swig-4.3.1/CCache/cleanup.c:105-119 | the loop stops at the first place where it is done; the total is the summed size of the files not removed, even with failed removals; the directory keeps exactly the names not removed |
| `Cleanup.Cleaner.SortAndClean` | swig-4.3.1/CCache/cleanup.c:78-122 | sorting and deleting together, with the count of the files not attempted |
| `Cleanup.Cleaner.CleanupDir` | swig-4.3.1/CCache/cleanup.c:125-155 | a directory is cleaned against floor(0.8 * limit) for both limits, the counts handed to the statistics are those of the cleaning, and every statistics file that was present is present afterwards |
| `Cleanup.EndsBelowThresholds` | swig-4.3.1/CCache/cleanup.c:105-121 | a cleanup not stopped by protected files ends below each threshold that is not zero |
| `Cleanup.TriggersOnlyAbove` | swig-4.3.1/CCache/stats.c:162-170 | a limit triggers a cleanup only when what was stored and what was cached since come to more than it |
| `Cleanup.TriggersExactlyAbove` | swig-4.3.1/CCache/stats.c:162-170 | after a series of updates a limit that is not zero asks for a cleanup if and only if what was stored and what was cached since exceed it modulo 2^32 |
| `Cleanup.Hysteresis` | swig-4.3.1/CCache/stats.c:153-177 | after a cleanup not stopped by protected files, with limits of at least 2, more than limit - floor(0.8 * limit) + 1 files (kilobytes) have to be cached before that limit can trigger again |
| `Cleanup.ThresholdsVanish` | swig-4.3.1/CCache/cleanup.c:129-130 | a threshold is zero, which counts as no limit, if and only if the limit is at most 1 |
| `Cleanup.ThresholdIsFourFifths` | swig-4.3.1/CCache/cleanup.c:129-130 | the threshold is four fifths of the limit, rounded down |
| `Cleanup.LimitsOfOneRemoveNothing` | swig-4.3.1/CCache/cleanup.c:106-107 | so limits of 1 remove nothing, whatever triggered the cleanup |
| `MovingAverage.Median3` | main/moving_avg/moving_average.c:8-13 | three conditional swaps give the value that has one of the other two on each side |
| `MovingAverage.MiddleIsUnique` | main/moving_avg/moving_average.c:8-13 | there is only one such value |
| `MovingAverage.RingTakesOneMore` | main/moving_avg/moving_average.c:43-51 | overwriting the next slot makes a ring of the last values accepted one of the last values including the new one |
| `MovingAverage.RingSum` | main/moving_avg/moving_average.c:41-45 | the sum over all slots is the sum of the last min(n, size) values accepted |
| `MovingAverage.MovingAvg.constructor` | main/moving_avg/moving_average.c:16-28 | a fresh ring of zeros has accepted nothing |
| `MovingAverage.MovingAvg.Update` | main/moving_avg/moving_average.c:37-54 | the value is accepted and the result is the mean of the last min(n, size) values accepted since the start or the last reset |
| `MovingAverage.MovingAvg.UpdateMedian3` | main/moving_avg/moving_average.c:73-91 | what is accepted is the median of the last three inputs, or the input itself while there are fewer than three |
| `MovingAverage.MovingAvg.Reset` | main/moving_avg/moving_average.c:110-124 | a reset leaves one accepted value and a prefilter primed with three copies of it |
| `MovingAverage.MovingAvg.Value` | main/hx711/hx711.c:37-40 | the current value is the mean of the window, 0 when nothing was accepted |
| `MovingAverage.MediansFromTheStart` | main/moving_avg/moving_average.c:76-88 | over a whole run: the first two inputs after a start pass through; after a reset the first value passed on is the reset value whatever the input; every other is the median of three |
| `MovingAverage.SpikesAreRejected` | main/moving_avg/moving_average.c:73-91 | when of any three inputs in a row at most one is out of range, and neither of the first two, nothing out of range is ever accepted |
| `MovingAverage.AverageWithin` | main/moving_avg/moving_average.c:53 | an average lies in every range that the accepted values lie in |
| `Kalman.KalmanFilter.constructor` | main/kalman_filter/kalman_filter.c:4-13 | estimate 0, covariance 1, the two noise parameters given |
| `Kalman.KalmanFilter.Adaptive` | main/kalman_filter/kalman_filter.c:16-24 | the same with the default ranges and threshold |
| `Kalman.KalmanFilter.Update` | main/kalman_filter/kalman_filter.c:37-49 | one update of the struct is the specified correction; a division by zero makes the gain infinite with the sign of the predicted covariance, the covariance negative infinity and the estimate infinite on the side of the measurement, or all of them NaN when that covariance is 0; from the next update on all are NaN; the noise parameters stay |
| `Kalman.KalmanFilter.UpdateAdaptive` | main/kalman_filter/kalman_filter.c:52-75 | the same, followed by retuning: upward when the innovation exceeds the threshold, as an infinite one does and NaN does not |
| `Kalman.CorrectedIs` | main/kalman_filter/kalman_filter.c:41-46 | the gain is the share of predicted covariance in the total and lies strictly between 0 and 1, the estimate is drawn by it, the covariance kept is gain times noise and below the noise |
| `Kalman.GainIsOptimal` | main/kalman_filter/kalman_filter.c:44-46 | of all real gains the one used leaves the least posterior covariance, no other gain leaves the same, and the covariance kept is that one |
| `Kalman.StepKeepsGood` | main/kalman_filter/kalman_filter.c:52-72 | every adaptive update keeps the noise parameters in their ranges, leaves a covariance below the noise it used, has a gain strictly between 0 and 1 and leaves at most rMax / (rMax + qMin) of the error |
| `Kalman.NoiseFollowsInnovation` | main/kalman_filter/kalman_filter.c:63-72 | a large innovation never lowers the process noise and never raises the measurement noise, any other the reverse |
| `Kalman.QuietRunRetunes` | main/kalman_filter/kalman_filter.c:63-72 | n quiet updates leave max(qMin, 0.8^n q) and min(rMax, 1.2^n r) |
| `Kalman.LoudRunRetunes` | main/kalman_filter/kalman_filter.c:63-72 | n loud ones leave min(qMax, 1.2^n q) and max(rMin, 0.8^n r) |
| `Kalman.DefaultRetuning` | main/kalman_filter/kalman_filter.c:16-24 | with the default tuning, from noises 0.5 and 1, an innovation of 100 leaves 0.1 and 0.8, and one of 10, which is not above the threshold, 0.4 and 1.2 |
| `Kalman.StaysUsable` | main/kalman_filter/kalman_filter.c:52-72 | with noise parameters that are not negative no update divides by zero and the estimate stays between the last estimate and the measurement |
| `Kalman.AdaptiveConvergence` | main/kalman_filter/kalman_filter.c:52-75 | for every run of measurements within d of z: the error is at most (rMax / (rMax + qMin))^n times the first error, plus d, whatever the adaptation does; with d = 0 this is a constant measurement |
| `Kalman.AdaptiveNeverOvershoots` | main/kalman_filter/kalman_filter.c:52-60 | for a constant measurement the error never changes sign, never vanishes and never grows |
| `Kalman.SettlesWithin` | main/kalman_filter/kalman_filter.c:52-75 | how many readings suffice for a given accuracy, from Bernoulli's inequality |
| `Kalman.StaysWithin` | main/kalman_filter/kalman_filter.c:52-60 | the estimate of a whole run stays in every range that holds its start and its measurements |
| `Kalman.Converges` | main/kalman_filter/kalman_filter.c:37-75 | geometric convergence for any update that draws the estimate with a gain bounded from below |
| `Kalman.CovarianceStep` | main/kalman_filter/kalman_filter.c:41-46 | one update takes the difference of two covariances into [0, (r / (q + r))^2 times it] |
| `Kalman.CovarianceForgets` | main/kalman_filter/kalman_filter.c:37-49 | with the same fixed noise parameters, two runs with any measurements keep the order of their covariances, and their difference is at most (r / (q + r))^(2n) times the first |
| `Kalman.WithoutProcessNoiseAnAverage` | main/kalman_filter/kalman_filter.c:37-49 | with process noise 0 the recursion computes in closed form the mean of all measurements and the weighted start |
| `Calibration.Tare` | main/calibration/calibration.c:12-23 | no samples give -1; else the mean of the samples with its fraction dropped |
| `Calibration.QuotientTruncates` | main/calibration/calibration.c:21 | the division is off by less than one and toward zero, for sums of either sign |
| `Calibration.TareIsInHull` | main/calibration/calibration.c:17-21 | the tare lies in every range the samples lie in |
| `Calibration.SpreadIsPairs` | main/calibration/calibration.c:53-54 | the denominator is the sum over all pairs of points of their squared difference |
| `Calibration.NoFitExactlyWhenAllEqual` | main/calibration/calibration.c:54-57 | the denominator is zero if and only if all raw values are equal |
| `Calibration.FitIsTheBest` | main/calibration/calibration.c:59-60 | no line has a smaller sum of squared residuals than the fit, and only the fit has as small a one |
| `Calibration.ErrorAgainstFit` | main/calibration/calibration.c:59-60 | another line loses against the fit exactly the squared values of the difference of the two lines |
| `Calibration.FitOfALine` | main/calibration/calibration.c:41-60 | points on a line give that line back |
| `Calibration.Calibration.ComputeMany` | main/calibration/calibration.c:31-65 | -1 exactly for fewer than two points, -2 exactly when all raw values are equal, the stored line untouched by both; else the stored line minimises the sum of squared residuals over all real lines |
| `Calibration.Calibration.ComputeOne` | main/calibration/calibration.c:75-90 | -1 exactly for weight 0; else for different raw values the stored line takes the tare to 0 and the raw value of the weight to the weight, and for equal ones it is the infinite line of a division by zero |
| `Calibration.TwoPointsFixTheLine` | main/calibration/calibration.c:84-85 | which determines slope and intercept |
| `Calibration.BrokenLineConverts` | main/calibration/calibration.c:100-103 | a line from equal raw values converts no reading to a number: readings on the other side of zero to an infinity, all others to NaN |
| `Hx711.ReadRaw` | main/hx711/hx711.c:166-185 | 24 shifts and the extension of bit 23 give the two's-complement number of the sampled bits |
| `Hx711.SamplesRoundTrip` | main/hx711/hx711.c:166-185 | every number of 24 bits is read as what it is, and every reading is such a number with exactly those bits |
| `Hx711.BitWeight` | main/hx711/hx711.c:166-185 | setting the first of the 24 bits takes 2^23 off the number, setting the i-th after it adds 2^(23 - i) |
| `Hx711.CascadeInPlace` | main/hx711/hx711.c:285-288 | the loop replaces each sample by the median of itself and the two before it as they are by then |
| `Hx711.CascadeStays` | main/hx711/hx711.c:285-288 | every value of the cascade lies between its first two samples, however large the window grows |
| `Hx711.Driver.constructor` | main/hx711/hx711.c:42-97 | after initialisation both filters are primed with one reading and no boost is on; without memory the moving average is left out |
| `Hx711.Driver.ReadFiltered` | main/hx711/hx711.c:198-229 | one reading moves the chain of moving average and Kalman filter by the specified step |
| `Hx711.Driver.AverageStage` | main/hx711/hx711.c:205-210 | the average continues, or starts afresh with two copies of the reading |
| `Hx711.Driver.SmoothStage` | main/hx711/hx711.c:213-224 | the Kalman stage with its boost; the branch for a count of 1 cannot be reached |
| `Hx711.Driver.ReadMedian` | main/hx711/hx711.c:261-308 | without the mutex 0 and nothing changes; else the window is adjusted, the cascaded median goes through the average, and the truncated output is returned |
| `Hx711.Driver.AdjustWindow` | main/hx711/hx711.c:267-273 | the window grows by 2 up to 11 during a boost and shrinks by 1 down to 3 otherwise |
| `Hx711.WindowFollowsBoost` | main/hx711/hx711.c:267-273 | during a boost the window grows by 2 up to 11, else it shrinks by 1 down to 3 |
| `Hx711.Tuned` | main/hx711/hx711.c:214-219 | a boost that is on, or a step, sets the noise and the count; without either nothing changes, so nothing ever sets the noise back |
| `Hx711.WholeChainStaysInHull` | main/hx711/hx711.c:198-229 | for every mix of both readers, any window, with or without the filter, and noise parameters that are not negative: every output lies in the hull of 0 and the raw values so far, and so does its conversion to an integer |
| `Hx711.TruncatedIsTowardZero` | main/hx711/hx711.c:302-304 | the conversion of an output to an integer is off by less than one and toward zero |
| `Hx711.BoostNeverEnds` | main/hx711/hx711.c:214-222 | between readings the boost count is 0 or 4, and once 4 it stays 4 for every further run |
| `Hx711.StepStartsBoost` | main/hx711/hx711.c:206-216 | a raw value more than the threshold away from the last output starts the boost, through the restarted average |
| `Hx711.StepMeans` | main/hx711/hx711.c:198-229 | a step is a raw value more than 1000 counts off the last output; it is taken with process noise 10 and leaves a boost of four readings |
| `Hx711.BoostBypassesAverage` | main/hx711/hx711.c:205-223 | during a boost the average passes the raw value on, so the chain is the boosted filter over raw values |
| `Hx711.BoostedConvergence` | main/hx711/hx711.c:198-229 | from then on each reading leaves at most a third of the error: for raw values within d of z the output is within 3^-n times the first error, plus d |
| `WeightManager.HandleStateTransition` | main/weight_manager/weight_manager.c:58-118 | the switch computes the specified state, count and event |
| `WeightManager.MachineFollowsReference` | main/weight_manager/weight_manager.c:134-146 | after every series of weights, state and count are determined by what the last four like readings said and how many readings since contradict it; the count is 0 to 2 and the error state is never reached |
| `WeightManager.ContraryMeans` | main/weight_manager/weight_manager.c:62-105 | the number of contrary readings is at least n exactly when the last n readings are all heavy (light) |
| `WeightManager.EventWhenPlacedChanges` | main/weight_manager/weight_manager.c:64-100 | an event is logged exactly when what the scale takes for the case changes |
| `WeightManager.EventsAlternate` | main/weight_manager/weight_manager.c:64-100 | additions and removals alternate strictly, an addition first, and an odd number of events means something is on the scale |
| `WeightManager.EventsAreEarned` | main/weight_manager/weight_manager.c:143-146 | every event comes with the last of four like readings in a row |
| `WeightManager.EnoughReadingsDecide` | main/weight_manager/weight_manager.c:134-146 | four readings of at least 20 g in a row force measuring and four of at most 10 g force no weight, whatever came before |
| `WeightManager.FourReadingsDecide` | main/weight_manager/weight_manager.c:58-118 | four readings of at least 20 grams in a row, or of at most 10, decide the state whatever came before |
| `WeightManager.BetweenChangesNothing` | main/weight_manager/weight_manager.c:58-118 | a weight strictly between 10 and 20 grams causes no event and ends all debouncing |
| `WeightManager.FailureEnds` | main/weight_manager/weight_manager.c:108-115 | the error state is left exactly by a weight of less than 1000 grams either way, without an event |
| `WeightManager.DebounceCountIsNotEnough` | main/weight_manager/weight_manager.c:27 | three readings, the configured count, change nothing yet: the count is lost with the first change of state |
| `WeightManager.NoNumberChangesNothing` | main/weight_manager/weight_manager.c:58-118 | a weight that is NaN, after any series of weights, causes no event and ends all debouncing |
| `WeightManager.Manager.Receive` | main/weight_manager/weight_manager.c:134-146 | the task body converts the truncated number with the stored line, infinite or NaN as it may be, and is afterwards in the state that the reference gives for all weights so far |
| `Pipeline.OutputFollows` | main/hx711/hx711.c:198-229 | seventeen readings after a noticed change, the truncated output is within one count of the raw values, since 3^16 exceeds 2^24 |
| `Pipeline.LoadIsRecognized` | main/weight_manager/weight_manager.c:134-146 | from any chain within bounds and any history: 20 readings of a noticed load whose counts convert to at least 20 g end in measuring, and of one whose counts convert to at most 10 g in no weight |
| `Pipeline.FirmwareRecognizesLoad` | main/main.c:48-51 | the same for every chain reachable with the firmware's own parameters: window 8, Kalman filter on, noise 0.5 and 1.0, any first reading and any mix of readings since |
| `Pipeline.CalibratedScaleRecognizes` | main/main.c:98-104 | with the line through tare and known weight, 20 readings of the known weight end in measuring and 20 of the tare in no weight, when the change is noticed and the two are at least 20 counts apart |
| `Unnoticed.StepKeepsLively` | main/kalman_filter/kalman_filter.c:52-72 | with the default ranges the covariance stays at least 0.02, so every adaptive update leaves at most 5 / 5.021 of the error |
| `Unnoticed.QuietRun` | main/hx711/hx711.c:198-229 | a run after which the boost count is 0 never had a step, and is one of the adaptive filter over the moving averages |
| `Unnoticed.AnyLoadArrives` | main/hx711/hx711.c:198-229 | after a window of readings, k times 240 more and 16 more the truncated output is within one count of the raw values, whether a boost starts at some time or never |
| `Unnoticed.AnyLoadIsRecognized` | main/weight_manager/weight_manager.c:134-146 | from any chain within bounds whose Kalman filter has a covariance of at least 0.02, and any history of the weight manager, noticed or not: after a window, 240 k + 17 and 4 readings of a load whose counts all convert to at least 20 g (at most 10 g) the state is measuring (no weight), where 2^(k + 1) is at least 2002 plus the range of the raw values |
| `Unnoticed.FirmwareRecognizesAnyLoad` | main/main.c:48-51 | the same for every chain reachable with the firmware's own parameters |
| `Unnoticed.SteadyLoadIsRecognized` | main/main.c:48-51 | in numbers: after 2429 raw values within 46 counts of each other that mean at least 20 grams the state is Measuring, and NoWeight when they mean at most 10 |

## Left out

- Hx711.Driver.constructor: asks for noise parameters that are not negative when the Kalman filter is used; negative ones could make it divide by zero.
- FormatCode.Dopr: a missing or mismatched argument, which C leaves undefined, reads as zero, and using one `va_list` twice in `vasprintf` is using the same list of values twice.
- FormatCode.Sink.Fmtint: the value LONG_MIN and widths beyond the range of `int` overflow in C; here magnitudes and widths are unbounded.
- StatsProtocol.NoLostUpdates: a read and a write are one step each, the lock is granted or refused by the system, and a process that dies inside is not modelled.
- Rounding, overflow and signed zeros of `float` and `double`; conversions of 24-bit integers are exact in both.
- The floating-point conversion of the formatter: its text is a parameter. The store of the `n` conversion, and null results of `malloc`.
- In the formatter, the byte read behind the terminator when a format ends in the unsupported `w` conversion is taken to be another zero.
- The flag that builds the token table only once: a table is built for each unifier.
- The string loop `hash_string`, `hash_int` and `hash_file`: they pass bytes on to `hash_buffer`.
- Memory mapping, directory traversal, `lseek`, `read` and `write`, and clocks: file contents, directory entries, outcomes of removals and sampled bits are inputs.
- The growth by reallocation of the file list in `cleanup.c`: the list is a sequence, sorted by value; the algorithm of `qsort` is replaced by one that keeps its promise.
- Mutexes, queues and task scheduling of the firmware: a mutex is taken or not, and every number sent is received in order.
- The commented-out Kalman block of the median reader, and a Kalman filter with a mutex of its own.
- `stats_summary`, the removal of the top-level file in `stats_zero`, and the calls of `safe_open` that fail: such an operation does nothing.
- The single-logarithm body composition, display, networking, power management and the rest of SWIG.
