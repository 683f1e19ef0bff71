# Remote Test Harness, verified

A remote test harness lets an electric vehicle and a charging station that are far apart be tested against each other.  This project models the parts of it that compute, and proves what they promise:

- **JSON** (`Json*.dfy`): the reader as a class with its cursor, node stack, error list and depth counter, tied to recursive functions of the document; the grammar of the texts it accepts as syntax trees, those of RFC 8259 among them (`JsonGrammar.dfy`, with its white space and tokens in `JsonGaps.dfy` and `JsonLexemes.dfy`), which of these texts the reader reads (`JsonAcceptance.dfy`), that it refuses the others (`JsonRejection.dfy`), that it accepts nothing else (`JsonSoundness.dfy`, `JsonExactness.dfy`), and its errors (`JsonErrors.dfy`); the two writers; 64-bit number decoding; string escapes and UTF-8; the order and the sparse arrays of values.  `JsonTheorems.dfy` joins reader and writers.
- **SHA-256** (`Sha256Spec.dfy`, `Sha256Constants.dfy`, `Sha256.dfy`): the streaming implementation against the one-shot definition of FIPS 180-2, on words whose bit operations are in `Bits.dfy`; what its functions do to each bit (`Sha256Functions.dfy`), and its example, computed on bit vectors (`Sha256Vectors.dfy`, `Sha256Machine.dfy`, `Sha256Example.dfy`).
- **The relay** (`Hex.dfy`, `Mqtt.dfy`, `Relay.dfy`, `RelayRuns.dfy`): two relay loops, two message callbacks and a lossy broker as a step relation; safety, conservation and progress over all runs.
- **The handshake** (`Handshake.dfy`): two loops whose messages may be lost, turn by turn.
- **The serial line** (`Deframer.dfy`): frames out of a stream that arrives in pieces, and the block check character.
- **SLAC** (`Slac.dfy`): the charging station's state machine, driven by any answers of the network and the clock.
- **The tokenizer and the repeating timer** (`Tokenizer.dfy`, `MsTimer.dfy`).

`Sequences.dfy` holds a fact about concatenation that several of them use.

Code that changes state is modelled by classes and methods with loops, each tied by its `ensures` to a function; the main results are lemmas about those functions.  `dafny verify dfyconfig.toml` checks everything.

## Conventions

Bytes are `char`s in the JSON and text modules and numbers below 256 elsewhere.  C's integers are modelled with their widths: 64-bit subset types in `JsonNumbers` and `MsTimer`, 32-bit words with explicit remainders in `Sha256`, a byte counter modulo 256 in `Slac`.  Library code that is not part of the repository enters as function parameters: `toDouble` (stream extraction of a double), `realText` (printing a double) and `scan` (sscanf on anything but two hexadecimal digits).  The network and the clock enter as arbitrary sequences of answers.

Where code and comments disagree, the code is modelled: the handshake comment that the vehicle side sends its message three times before success is sure, as at least three, only when it hears the first message in its first round (`Handshake.ThreeAreSure`), and exact, for a single message heard, only for two of its twenty-three arrival times (`Handshake.TimesPublished`); the assertion at the end of a shrinking `resize` fails on arrays with a hole at the new end (`JsonArrays.ArrayValue.Resize`); the retry limit of SLAC is without effect above 255 (`Slac.TimeoutsBounded`); the reader does not read every JSON text, nor every string as written (`JsonRejection.ParsesText`, `JsonStrings.SecondHalf`), and it accepts texts that are not JSON (`JsonExactness.ParsesExactly`).

## Model

| member | source | states |
|---|---|---|
| JsonTheorems.WriteThenParse | lib/jsoncpp/jsoncpp.cpp:4055-4113 | for every value without reals, reading what FastWriter prints gives the value back (integers retagged, holes null, whole text consumed, no error) if and only if it holds no null string pointer and nests at most 1000 deep |
| JsonTheorems.LayoutThenParse | lib/jsoncpp/jsoncpp.cpp:300-402 | the same for text laid out with any blank indentation and any blank ending: the reader returns the value, or throws exactly when it nests deeper than 1000 |
| JsonTheorems.WriteThenParseIdentity | lib/jsoncpp/jsoncpp.cpp:745-752 | the trip gives back a value that `operator==` calls equal if and only if the value is in normal form and nests at most 1000 deep |
| JsonTheorems.NullPointerNeverReturns | lib/jsoncpp/jsoncpp.cpp:3980-3982 | a value with a null string pointer in it, which prints as nothing, never comes back |
| JsonTheorems.CanonSameData | lib/jsoncpp/jsoncpp.cpp:745-752 | what comes back is the same data: integers equal by numeric value, arrays slot by slot with holes as null, objects member by member |
| JsonTheorems.ParseGood | lib/jsoncpp/jsoncpp.cpp:342-402 | whatever document is accepted, its value has the normal form: integers tagged by size, arrays without holes, member names distinct and in dictionary order at every depth, no null string pointer, nesting at most 1000 |
| JsonTheorems.ParseWriteParse | lib/jsoncpp/jsoncpp.cpp:300-340 | the value of any accepted document without reals, written and read again, is the same value |
| JsonTheorems.StyledIsFast | lib/jsoncpp/jsoncpp.cpp:4617-4736 | with empty indentation BuiltStyledStreamWriter prints exactly what FastWriter prints, less the final line feed |
| JsonTheorems.WriteReadWrite | lib/jsoncpp/jsoncpp.cpp:4055-4060 | running writer, reader and writer in turn: the read throws exactly above the depth limit, otherwise gives the same data, and the second text is the first |
| JsonExactness.ParsesExactly | lib/jsoncpp/jsoncpp.cpp:300-402 | parse returns true if and only if the document begins with a gap and a text of the explicitly stated grammar `Accepted` (RFC 8259 and what this reader adds: comments, numbers that lack digits, the comma of `{"":1,}`, any token for the comma after a comment) that meets (1) to (4) below, and, if it is a number, is not the beginning of a longer one; the root is then the value that text denotes, whichever way it is read as one |
| JsonExactness.CutOffRefused | lib/jsoncpp/jsoncpp.cpp:652-658 | no proper prefix of a gap and the text of an object or array of that grammar is accepted |
| JsonExactness.TruncatedRefused | lib/jsoncpp/jsoncpp.cpp:652-658 | in particular none of white space and an RFC 8259 object or array |
| JsonExactness.ReadIsDenoted | lib/jsoncpp/jsoncpp.cpp:342-402 | one successful call, from any position and depth, has consumed a gap and a readable text of the grammar, fits under the limit, and returns the value the text denotes |
| JsonExactness.NumeralInDocument | lib/jsoncpp/jsoncpp.cpp:706-774 | a number at the cursor: written as an integer in [-2^63, 2^64-1] it is that integer, tagged signed up to 2147483647; otherwise the value is Real(r) if and only if toDouble of exactly its text is Some(r), and else the one error NotANumber at its place |
| JsonExactness.LongestStops | lib/jsoncpp/jsoncpp.cpp:585-605 | a number is read to its end if and only if no longer text there is a number |
| JsonSoundness.ReadIsAccepted | lib/jsoncpp/jsoncpp.cpp:342-402 | from a successful read, the gap and the syntax tree of the text it consumed |
| JsonSoundness.ReadMembersIsAccepted | lib/jsoncpp/jsoncpp.cpp:619-667 | from a successful loop over members, the members, with what stands between them |
| JsonSoundness.ReadItemsIsAccepted | lib/jsoncpp/jsoncpp.cpp:669-704 | from a successful loop over items, the items |
| JsonGrammar.WellFormedIsAccepted | lib/jsoncpp/jsoncpp.cpp:300-402 | every text of RFC 8259 is one of that grammar, whatever the comment setting |
| JsonGrammar.NumeralValueIs | lib/jsoncpp/jsoncpp.cpp:714-774 | decoding the text of a number gives the integer it writes, or the conversion of the whole text |
| JsonGaps.GapSkipped | lib/jsoncpp/jsoncpp.cpp:404-412 | white space and whole comments are passed over on the way to the next token |
| JsonGaps.GapBefore | lib/jsoncpp/jsoncpp.cpp:404-412 | whatever was passed over was white space and whole comments |
| JsonGaps.CommentIsRead | lib/jsoncpp/jsoncpp.cpp:506-583 | a comment is read to its first star and slash, or to its line end, where a line feed after a carriage return goes with it |
| JsonGaps.ReadCommentIs | lib/jsoncpp/jsoncpp.cpp:506-583 | what is read for a comment, unless it reaches the end of the document, is one |
| JsonLexemes.NumberIs | lib/jsoncpp/jsoncpp.cpp:585-605 | what is read for a number is a minus, digits, a fraction and an exponent, where digits may be missing |
| JsonLexemes.StringPieces | lib/jsoncpp/jsoncpp.cpp:785-836 | a string that decodes is made of raw characters, one-letter escapes and \u escapes of four digits |
| JsonLexemes.QuotedIs | lib/jsoncpp/jsoncpp.cpp:607-617 | a string ends at the first quote mark not behind a backslash, and only there |
| JsonLexemes.JunkScanned | lib/jsoncpp/jsoncpp.cpp:650-664 | after a comment, any token but a closing brace is taken for the comma between members |
| JsonLexemes.JunkIs | lib/jsoncpp/jsoncpp.cpp:650-664 | and what is taken for it is a string, a number, a literal, a slash and a character that make no comment, or one other character |
| JsonErrors.StatusCutOff | lib/jsoncpp/jsoncpp.cpp:652-658 | the status message cut off before its closing brace is refused, with the one error of a missing comma or brace at its end |
| JsonErrors.BraceMissing | lib/jsoncpp/jsoncpp.cpp:652-658 | the same for any first member at which the document ends |
| JsonErrors.NoCommaOrBrace | lib/jsoncpp/jsoncpp.cpp:652-658 | after any member, a token that is no comma, brace or comment is the error, at that token |
| JsonErrors.NoCommaOrBracket | lib/jsoncpp/jsoncpp.cpp:688-699 | after any item and its comments, a token that is no comma or bracket is the error, at that token |
| JsonErrors.NoColon | lib/jsoncpp/jsoncpp.cpp:640-644 | after any member name, a token that is no colon, a comment included, is the error |
| JsonErrors.NoName | lib/jsoncpp/jsoncpp.cpp:630-637 | a symbol where a member name should be is the error; a closing brace too, after a name that is not empty |
| JsonErrors.NoValue | lib/jsoncpp/jsoncpp.cpp:383-391 | a comma, colon or closing bracket where a value should be is the error |
| JsonErrors.BadAfter | lib/jsoncpp/jsoncpp.cpp:785-836 | what decodes before an error in a string does not change the error or its place |
| JsonErrors.BadEscapes | lib/jsoncpp/jsoncpp.cpp:799-827 | the errors of a backslash, and their places: nothing after it, an unknown letter, too few characters for a \u escape |
| JsonErrors.BadHexEscape | lib/jsoncpp/jsoncpp.cpp:867-893 | the error of the first character of a \u escape that is no digit |
| JsonErrors.NoSecondHalf | lib/jsoncpp/jsoncpp.cpp:847-863 | the errors after a leading surrogate: too few characters, or no \u escape |
| JsonParsing.Parse | lib/jsoncpp/jsoncpp.cpp:300-340 | on every byte string and any earlier root value: either the depth limit throws, or the cursor ends inside the document and the result is true exactly when no error was recorded |
| JsonParsing.ReadValue | lib/jsoncpp/jsoncpp.cpp:342-402 | one call never moves the cursor back or out; success keeps the errors and the depth, failure records exactly one error |
| JsonParsing.ReadMembers | lib/jsoncpp/jsoncpp.cpp:619-667 | the same for the loop over members, with recovery from any error |
| JsonParsing.ReadArray | lib/jsoncpp/jsoncpp.cpp:669-704 | the same for arrays |
| JsonRejection.ParsesText | lib/jsoncpp/jsoncpp.cpp:300-402 | on every text of the RFC 8259 grammar, with any white space, numbers and escapes (and raw control characters in strings), parse returns true if and only if (1) in every string and name each leading-surrogate escape, pairing from the left, is directly followed by another \u escape, (2) every number not written as an integer from -2^63 to 2^64-1 is one that toDouble, the stream extraction of a double, accepts, (3) it nests at most 1000 deep, and (4) it is a container if strict-root asks for one; then the root holds the value it denotes and the whole text is consumed; a text that meets (1) and (2) and nests deeper throws |
| JsonRejection.RefusesValue | lib/jsoncpp/jsoncpp.cpp:342-402 | a text of the grammar `Accepted` that fails (1) or (2) anywhere makes the read fail, from any position and depth, after any gap |
| JsonRejection.LoneSurrogateRefused | lib/jsoncpp/jsoncpp.cpp:847-852 | the text of an array of one string of a lone leading surrogate, which RFC 8259 allows, is refused |
| JsonRejection.FalsePairAccepted | lib/jsoncpp/jsoncpp.cpp:853-858 | in an array of one string, a leading surrogate followed by the escape of a letter is accepted and read as the one character U+10041 |
| JsonAcceptance.ParsesReadable | lib/jsoncpp/jsoncpp.cpp:300-402 | on a text of the grammar that meets (1) and (2): the value it denotes, the whole text consumed and no error, or a throw if and only if it nests deeper than 1000; strict-root refuses scalars with its error |
| JsonAcceptance.ReadsValue | lib/jsoncpp/jsoncpp.cpp:342-402 | any text of the grammar `Accepted` that can be read is read from any position and depth after any gap, leaving the cursor at its end, or throws when too deep for the depth left |
| JsonAcceptance.ReadsItems | lib/jsoncpp/jsoncpp.cpp:669-704 | the items of an array are read into consecutive slots |
| JsonAcceptance.ReadsMembers | lib/jsoncpp/jsoncpp.cpp:619-667 | the members of an object are stored by name, a repeated name overwriting, with comments between them and the separators and the last comma that pass |
| JsonNormalForm.ReadGood | lib/jsoncpp/jsoncpp.cpp:342-402 | a successful read of any text from any depth yields a normal-form value whose height fits under the limit |
| JsonNormalForm.CanonSameTree | lib/jsoncpp/jsoncpp.cpp:4062-4113 | the value that comes back prints as the identical text |
| JsonNormalForm.CanonicalFixed | lib/jsoncpp/jsoncpp.cpp:745-752 | values in normal form are exactly fixed by writing and reading |
| JsonNormalForm.CanonicalCanonPlain | lib/jsoncpp/jsoncpp.cpp:3980-3982 | a null string pointer anywhere keeps a value out of the values the reader can produce |
| JsonRoundTrip.LayoutDenotes | lib/jsoncpp/jsoncpp.cpp:4632-4736 | the text laid out for a value, at any indentation, is well formed and denotes the value with integers retagged and holes filled, at the same height |
| JsonLayout.LayoutFlat | lib/jsoncpp/jsoncpp.cpp:4773-4783 | with empty indentation the layout is the text without any white space |
| JsonReader.Reader.SkipSpaces | lib/jsoncpp/jsoncpp.cpp:485-493 | the cursor stops at the first byte that is not white space |
| JsonReader.Reader.Match | lib/jsoncpp/jsoncpp.cpp:495-504 | a literal is consumed if and only if it is there, all of it |
| JsonReader.Reader.ReadCStyleComment | lib/jsoncpp/jsoncpp.cpp:560-567 | ends after the first star and slash, or fails |
| JsonReader.Reader.ReadCppStyleComment | lib/jsoncpp/jsoncpp.cpp:569-583 | ends after LF, CR or CR LF |
| JsonReader.Reader.ReadComment | lib/jsoncpp/jsoncpp.cpp:506-527 | the two kinds of comment, without collecting them |
| JsonReader.Reader.ReadNumber | lib/jsoncpp/jsoncpp.cpp:585-605 | the longest integral, fractional and exponent part |
| JsonReader.Reader.ReadString | lib/jsoncpp/jsoncpp.cpp:607-617 | up to the first quote mark not behind a backslash |
| JsonReader.Reader.ReadToken | lib/jsoncpp/jsoncpp.cpp:414-483 | the token is the one the scanning function finds, and the cursor is at its end |
| JsonReader.Reader.SkipCommentTokens | lib/jsoncpp/jsoncpp.cpp:404-412 | the next token that is not a comment |
| JsonReader.Reader.RecoverFromError | lib/jsoncpp/jsoncpp.cpp:905-916 | skips to the token asked for and keeps the error list as it was |
| JsonReader.Reader.DecodeNumber | lib/jsoncpp/jsoncpp.cpp:706-712 | stores the number of the token or records one error, as the function NumberOf; which number is `JsonExactness.NumeralInDocument` |
| JsonReader.Reader.DecodeString | lib/jsoncpp/jsoncpp.cpp:776-783 | stores the decoded string or records one error |
| JsonReader.Reader.ReadValue | lib/jsoncpp/jsoncpp.cpp:342-402 | cursor, errors, depth and node stack are those of the function ReadValue |
| JsonReader.Reader.ReadMember | lib/jsoncpp/jsoncpp.cpp:641-663 | one turn of the member loop from the colon on |
| JsonReader.Reader.ReadNameAndMember | lib/jsoncpp/jsoncpp.cpp:624-663 | one turn of the member loop |
| JsonReader.Reader.ReadObject | lib/jsoncpp/jsoncpp.cpp:619-667 | the loop over members |
| JsonReader.Reader.ReadItem | lib/jsoncpp/jsoncpp.cpp:681-702 | one turn of the item loop |
| JsonReader.Reader.ReadArray | lib/jsoncpp/jsoncpp.cpp:669-704 | the loop over items |
| JsonReader.Reader.Parse | lib/jsoncpp/jsoncpp.cpp:300-340 | the outcome is that of the function Parse, and the node stack ends with the root value alone |
| JsonNumbers.DecodeNumber | lib/jsoncpp/jsoncpp.cpp:714-754 | on an optional minus and any digits, the exact integer if and only if it lies in [-2^63, 2^64-1], with every intermediate value a 64-bit unsigned number; otherwise, and on other tokens, the conversion to double; `JsonExactness.NumeralInDocument` says of which text |
| JsonNumbers.DecodeInvertsToString | lib/jsoncpp/jsoncpp.cpp:714-754 | reading inverts writing for every 64-bit integer |
| JsonNumbers.NoLeadingZero | lib/jsoncpp/jsoncpp.cpp:149-155 | the decimal text of no number but zero begins with a zero |
| JsonNumbers.UIntToString | lib/jsoncpp/jsoncpp.cpp:149-155 | in place, backwards: the shortest decimal text and a NUL end at the given place, the rest of the buffer is untouched |
| JsonNumbers.IntToString | lib/jsoncpp/jsoncpp.cpp:3833-3847 | the decimal text of any 64-bit signed integer, in at most 21 bytes with its NUL |
| JsonNumbers.UInt64ToString | lib/jsoncpp/jsoncpp.cpp:3849-3855 | the same for unsigned integers |
| JsonStrings.DecodeScalars | lib/jsoncpp/jsoncpp.cpp:785-893 | for every sequence of Unicode scalar values, each written raw, as a short escape, as \uXXXX or as a surrogate pair, decoding gives the concatenated UTF-8 |
| JsonStrings.HexSpells | lib/jsoncpp/jsoncpp.cpp:867-893 | any four digits by their places in "0123456789abcdef" or "0123456789ABCDEF", lower case, upper case or mixed, denote the number they spell |
| JsonStrings.ShortEscapeIs | lib/jsoncpp/jsoncpp.cpp:803-823 | the eight one-letter escapes and their characters, by their places in two lists |
| JsonStrings.QuoteSpelling | lib/jsoncpp/jsoncpp.cpp:3998-4037 | how the writer spells each character: as it is, by a letter, never for a slash, or by \u00 and two upper-case digits |
| JsonStrings.Utf8Examples | lib/jsoncpp/jsoncpp.cpp:104-131 | the examples of section 7 of RFC 3629 |
| JsonStrings.DecodeSpellings | lib/jsoncpp/jsoncpp.cpp:785-865 | decoding any sequence of raw characters, one-letter escapes and \u escapes with any four digits succeeds if and only if each leading surrogate, pairing from the left, is directly followed by another \u escape, and then yields their meanings one after the other |
| JsonStrings.SecondHalf | lib/jsoncpp/jsoncpp.cpp:853-856 | the escape after a leading surrogate counts by its low ten bits alone, so any one there is taken for the trailing surrogate with these bits |
| JsonStrings.LoneSurrogate | lib/jsoncpp/jsoncpp.cpp:847-852 | the error and its place for a leading surrogate alone |
| JsonStrings.FalsePair | lib/jsoncpp/jsoncpp.cpp:853-858 | a leading surrogate and the escape of the letter A decode to U+10041 |
| JsonStrings.Utf8Correct | lib/jsoncpp/jsoncpp.cpp:104-131 | the bit operations give the encoding of section 3 of RFC 3629 for every code point up to 0x10FFFF |
| JsonStrings.DecodeString | lib/jsoncpp/jsoncpp.cpp:785-836 | the loop decodes as the function does, with the same error and place on every malformed escape |
| JsonStrings.DecodeUnicodeCodePoint | lib/jsoncpp/jsoncpp.cpp:838-865 | single units, surrogate pairs, and each error of a broken pair |
| JsonStrings.DecodeUnicodeEscapeSequence | lib/jsoncpp/jsoncpp.cpp:867-893 | four hexadecimal digits of either case, whose value `HexSpells` fixes, or the error |
| JsonStrings.ValueToQuotedString | lib/jsoncpp/jsoncpp.cpp:3980-4041 | the quoted text is the sequence of escapes the decoder understands |
| JsonStrings.QuotesMean | lib/jsoncpp/jsoncpp.cpp:3980-4041 | decoding what the writer quotes gives the string back, for every byte string |
| JsonWriters.FastWriter.Write | lib/jsoncpp/jsoncpp.cpp:4055-4060 | the text is the syntax tree of the value without white space, and a line feed |
| JsonWriters.FastWriter.WriteValue | lib/jsoncpp/jsoncpp.cpp:4062-4113 | appends the text of the value |
| JsonWriters.FastWriter.WriteArray | lib/jsoncpp/jsoncpp.cpp:4089-4097 | appends the slots up to the highest index, a missing one as null |
| JsonWriters.FastWriter.WriteObject | lib/jsoncpp/jsoncpp.cpp:4098-4111 | appends the members in the order of the map, which `JsonTheorems.ObjectWritten` says is dictionary order |
| JsonWriters.BuiltStyledStreamWriter.Write | lib/jsoncpp/jsoncpp.cpp:4617-4631 | the text is the layout of the value for any indentation string |
| JsonTheorems.ObjectWritten | lib/jsoncpp/jsoncpp.cpp:4098-4111 | of any object all members are written, each with its value, and of any two names the smaller in dictionary order first |
| JsonLayout.StyledText | lib/jsoncpp/jsoncpp.cpp:4632-4736 | the text of an object of an array and an empty object, indented by tabs, character by character |
| JsonWriters.BuiltStyledStreamWriter.WriteValue | lib/jsoncpp/jsoncpp.cpp:4632-4689 | appends the layout, with the new line that precedes a container unless one was just written; the indentation is restored |
| JsonWriters.BuiltStyledStreamWriter.WriteArrayValue | lib/jsoncpp/jsoncpp.cpp:4691-4720 | an array over several lines |
| JsonWriters.BuiltStyledStreamWriter.WriteObjectValue | lib/jsoncpp/jsoncpp.cpp:4662-4687 | an object over several lines, its members in the order of the map |
| JsonOrder.EqualIsIdentity | lib/jsoncpp/jsoncpp.cpp:2755-2797 | `operator==` holds exactly between identical values |
| JsonOrder.Trichotomy | lib/jsoncpp/jsoncpp.cpp:2703-2747 | exactly one of a < b, a == b and b < a, on all nested values |
| JsonOrder.Transitive | lib/jsoncpp/jsoncpp.cpp:2703-2747 | a < b and b < c give a < c, through size-first then lexicographic comparison of maps |
| JsonOrder.MapTrichotomy | lib/jsoncpp/jsoncpp.cpp:2736-2742 | the same for maps of equal size |
| JsonOrder.MapTransitive | lib/jsoncpp/jsoncpp.cpp:2736-2742 | the same for maps of equal size |
| JsonValues.StringLessIs | lib/jsoncpp/jsoncpp.cpp:2475-2487 | one string is less than another if and only if it is a proper prefix of it or is smaller at the first place where they differ |
| JsonOrder.KeyLessIs | lib/jsoncpp/jsoncpp.cpp:2475-2487 | keys: indices by number, names by that order |
| JsonOrder.TypesInOrder | lib/jsoncpp/jsoncpp.cpp:2703-2706 | values of different types: null, signed, unsigned, real, string, boolean, array, object |
| JsonOrder.ScalarsInOrder | lib/jsoncpp/jsoncpp.cpp:2708-2731 | values of one scalar type: numbers by size, strings in dictionary order with the null pointer first, false before true |
| JsonOrder.ContainersInOrder | lib/jsoncpp/jsoncpp.cpp:2736-2742 | containers of one type: by size, then by their first differing entry, its key before its value |
| JsonValues.ValidInOrder | lib/jsoncpp/jsoncpp.cpp:2475-2487 | the names of every object in a value are in strictly increasing dictionary order |
| JsonValues.KeyTrichotomy | lib/jsoncpp/jsoncpp.cpp:2475-2497 | exactly one of two keys of one kind is less, or they are equal |
| JsonValues.PutFind | lib/jsoncpp/jsoncpp.cpp:3192-3209 | storing under a key changes that key alone |
| JsonArrays.ArrayValue.At | lib/jsoncpp/jsoncpp.cpp:3121-3135 | indexing pads the sequence with nulls up to the index and returns its element |
| JsonArrays.ArrayValue.Assign | lib/jsoncpp/jsoncpp.cpp:3121-3135 | assigning pads and replaces one element |
| JsonArrays.ArrayValue.Append | lib/jsoncpp/jsoncpp.cpp:3266 | appending adds one element at the end, holes or not |
| JsonArrays.ArrayValue.Resize | lib/jsoncpp/jsoncpp.cpp:3103-3119 | growing extends with nulls; shrinking truncates, and its closing assertion holds, if and only if the slot that becomes last is present or the result is empty |
| JsonArrays.ArrayValue.RemoveIndex | lib/jsoncpp/jsoncpp.cpp:3320-3341 | a present slot is removed and returned; that deletes one element if and only if it was not the last, or the slot before it is present or does not exist; an absent slot changes nothing |
| JsonArrays.FilledClosed | lib/jsoncpp/jsoncpp.cpp:3329-3340 | exactly when closing the gap deletes one element of the sequence |
| JsonArrays.FilledTake | lib/jsoncpp/jsoncpp.cpp:3114-3117 | exactly when dropping the slots from newSize on is truncation |
| Sha256.HashInPieces | src/utilities/open-plc-utils/key/SHA256Write.c:27-61 | for every list of writes after a reset, the digest fetched is that of the concatenated bytes with the length the counter says, and it is the SHA-256 digest of the concatenated bytes, however cut, when no write makes the low count word go around more than once; `Sha256Example.HashOfAbc` fixes what that digest is |
| Sha256Example.HashOfAbc | src/utilities/open-plc-utils/key/SHA256Block.c:29-142 | the example of FIPS 180-2, appendix B.1: the digest of the bytes of abc is the thirty-two literal bytes, computed round by round |
| Sha256Functions.ChBits | src/utilities/open-plc-utils/key/SHA256Block.c:128 | each bit of Ch is that of y where x has a 1 and that of z elsewhere |
| Sha256Functions.MajBits | src/utilities/open-plc-utils/key/SHA256Block.c:125 | each bit of Maj is the majority of the three |
| Sha256Functions.BigSigmaBits | src/utilities/open-plc-utils/key/SHA256Block.c:124-127 | bit i of each is the exclusive or of bits i + 2, i + 13 and i + 22, and i + 6, i + 11 and i + 25, around the word |
| Sha256Functions.SmallSigmaBits | src/utilities/open-plc-utils/key/SHA256Block.c:113-114 | the same for the two of the schedule, the last bit of each shifted, not rotated |
| Sha256Functions.RotrBits | src/utilities/open-plc-utils/key/SHA256Block.c:26-27 | bit i of a rotation by n is bit i + n, around the word |
| Sha256Example.SigmasOfOne | src/utilities/open-plc-utils/key/SHA256Block.c:113-127 | the literal values on the word of a single bit |
| Sha256Machine.RoundVectors | src/utilities/open-plc-utils/key/SHA256Block.c:119-135 | a round on words is the round on vectors of thirty-two bits |
| Sha256Machine.ScheduleVector | src/utilities/open-plc-utils/key/SHA256Block.c:112-116 | a word of the schedule is computed on vectors from words 2, 7, 15 and 16 before it |
| Bits.OperatorBits | src/utilities/open-plc-utils/key/SHA256Block.c:113-128 | and, or and exclusive or work on each bit alone |
| Sha256.SmallWrites | src/utilities/open-plc-utils/key/SHA256Write.c:35-40 | writes of fewer than 2^32 bytes each never do |
| Sha256.WriteAll | src/utilities/open-plc-utils/key/SHA256Write.c:27-61 | the writes append to the message, and keep the counter exact under that condition |
| Sha256.Hasher.Write | src/utilities/open-plc-utils/key/SHA256Write.c:27-61 | for any number of bytes: the buffered state stands for the message with the new bytes appended, and the two count words are those of the carry rule |
| Sha256.Hasher.Absorb | src/utilities/open-plc-utils/key/SHA256Write.c:42-59 | filling the block, whole blocks straight from the caller, and the rest: every byte is digested once, in order |
| Sha256.Hasher.AddCount | src/utilities/open-plc-utils/key/SHA256Write.c:35-40 | the low word always counts exactly; the two words do if and only if the low word goes around at most once |
| Sha256.CarryExact | src/utilities/open-plc-utils/key/SHA256Write.c:35-40 | the carry rule is exact if and only if the low word goes around at most once |
| Sha256.Hasher.Fetch | src/utilities/open-plc-utils/key/SHA256Fetch.c:37-57 | the digest of the message as sections 5.1.1 and 6.2.2 of FIPS 180-2 define it, with the length the counter says; nothing beyond 32 bytes is written, and the structure is left all zero |
| Sha256.PaddingIs | src/utilities/open-plc-utils/key/SHA256Fetch.c:44-49 | what is written to pad is 0x80, the least number of zeros and the length the counter says |
| Sha256.LengthField | src/utilities/open-plc-utils/key/SHA256Fetch.c:42-47 | the two shifted count words, encoded, are the length in bits as a 64-bit big-endian number |
| Sha256.Hasher.WriteDigest | src/utilities/open-plc-utils/key/SHA256Fetch.c:50-54 | the state words, most significant byte first |
| Sha256.Encode | src/utilities/open-plc-utils/key/SHA256Fetch.c:27-35 | four bytes, most significant first |
| Sha256.Hasher.CompressBlock | src/utilities/open-plc-utils/key/SHA256Block.c:29-142 | the state becomes the compression of section 6.2.2 of the old state and the block, whose functions `Sha256Functions` and whose arrangement `Sha256Example.HashOfAbc` fix |
| Sha256.Hasher.Schedule | src/utilities/open-plc-utils/key/SHA256Block.c:104-117 | the sixty-four words of the message schedule |
| Sha256.Hasher.Pass | src/utilities/open-plc-utils/key/SHA256Block.c:124-135 | one round on the shift register, the function that `Sha256Machine.RoundVectors` and `Sha256Example.HashOfAbc` fix |
| Sha256.RotrMacro | src/utilities/open-plc-utils/key/SHA256Block.c:26-27 | two shifts and an or make a rotation |
| Sha256.JoinBytes | src/utilities/open-plc-utils/key/SHA256Block.c:106-110 | four bytes make a big-endian word |
| Sha256.Hasher.Reset | src/utilities/open-plc-utils/key/SHA256Reset.c:24-37 | the initial state, no message |
| Sha256Spec.HashBlocksSplit | src/utilities/open-plc-utils/key/SHA256Block.c:29-142 | digesting blocks can be split at any block boundary |
| Sha256Constants.ConstantsAreRoots | src/utilities/open-plc-utils/key/SHA256Block.c:32-98 | the sixty-four round constants are the first 32 bits of the fractional parts of the cube roots of the first sixty-four primes |
| Sha256Constants.InitialIsRoots | src/utilities/open-plc-utils/key/SHA256Reset.c:27-34 | the initial state is made of the square roots of the first eight primes |
| Sha256Spec.NumberOfBigEndian | src/utilities/open-plc-utils/key/SHA256Fetch.c:27-35 | big-endian bytes lose nothing |
| Hex.ConvertBinaryToHex | src/app/common.cpp:64-70 | in place: two lower-case digits a byte and a NUL, the rest of the buffer untouched |
| Hex.DigitsOf | src/app/common.cpp:64-70 | the digits of byte i are those at its high and low half in "0123456789abcdef" |
| Hex.ConvertHexToBinary | src/app/common.cpp:50-57 | in place: one byte for each two characters before the first NUL, as sscanf reads them |
| Hex.EncodedDecodes | src/app/common.cpp:50-70 | decoding what was encoded gives the bytes back, and nothing else, whatever the buffer held |
| Hex.SendAcross | src/app/common.cpp:50-70 | the two methods one after the other |
| Hex.EncodedIsNoHandshake | src/mqtt/mqtt.cpp:53-73 | encoded data has even length and is never the handshake message |
| Mqtt.Client.HandleMessage | src/mqtt/mqtt.cpp:45-90 | the callback as one step: a handshake message changes only rth_hs, any other only the flag and the packet, a foreign topic nothing |
| RelayRuns.PrefixSafety | src/tcp/server.cpp:86-146 | in every interleaving, with messages lost at will and devices under test that send anything, what each device has received is a beginning of what the other has sent |
| RelayRuns.OneToken | src/tcp/client.cpp:86-138 | there is never more than one message under way, and exactly one if and only if no step of the run lost it |
| RelayRuns.Conserved | src/tcp/client.cpp:86-138 | without a loss every byte taken from a device has been handed to the other, except those under way |
| Relay.StepMoves | src/tcp/client.cpp:86-138 | every single step of either loop, a callback or the broker keeps the invariant, and loses the message exactly when it is a lossy step |
| RelayRuns.AtomicIsLossless | src/tcp/client.cpp:133-134 | if the broker loses nothing and the client publishes and clears without interruption, no message is ever lost |
| RelayRuns.RequestWiped | src/tcp/client.cpp:133-134 | without that, for any two requests and any response there is a run without broker loss in which the second request is wiped and the relay stands still |
| RelayRuns.GoneForever | src/tcp/server.cpp:120-143 | after a loss nothing more is ever handed to either device |
| RelayRuns.NeverStuck | src/tcp/server.cpp:86-146 | without a loss some step of the relay can be taken, unless it waits for a device under test |
| RelayRuns.Progress | src/tcp/server.cpp:86-146 | in every run from any state the relay takes at most Work steps of its own, six more for each time it receives from a device under test and four for each handshake message, in whatever order |
| RelayRuns.WorkBound | src/tcp/server.cpp:86-146 | Work is at most six, and a few for each handshake message still queued |
| Handshake.EvseSuccess | src/app/rth_statemachine.cpp:111-156 | the station side succeeds only if the vehicle side had heard a message of it and published its own |
| Handshake.EvSuccess | src/app/rth_statemachine.cpp:120-135 | the vehicle side succeeds only after hearing a message, publishing one, and reaching its fourth round; if it heard the first in round k it has published at least 3 - k |
| Handshake.LoopsEnd | src/app/rth_statemachine.cpp:137-145 | in every interleaving each loop takes at most twelve rounds of at most four turns |
| Handshake.StepKeeps | src/app/rth_statemachine.cpp:111-152 | every turn, callback and loss keeps the invariant, and a turn always brings its loop nearer to its end |
| Handshake.TimesPublished | src/app/rth_statemachine.cpp:104-157 | a vehicle side that hears one message, before turn j of its loop, succeeds if and only if j is at most 22, and publishes 4, 3, 3, 2, 2 messages for j from 0 to 4 and one for later j: three, as the comment says, only when j is 1 or 2 |
| Handshake.ThreeAreSure | src/app/rth_statemachine.cpp:120-128 | whatever arrives and when, every successful run of the vehicle side that first hears a message in round k publishes at least three messages if and only if k is 0 |
| Handshake.StationPublishes | src/app/rth_statemachine.cpp:111-152 | a station side to which one message comes, before turn j of its loop, succeeds if and only if j is at most 35, having published (j + 2) / 3 messages, and otherwise fails after twelve |
| Handshake.Device.RthHandshake | src/app/rth_statemachine.cpp:104-157 | the loop, whatever callbacks come between its steps, returns and publishes as its turn-by-turn function says |
| Handshake.HearIsCallback | src/mqtt/mqtt.cpp:50-77 | the callback sets rth_hs as the model does |
| Deframer.ReadAll | src/io/io.cpp:46-97 | however a stream is split into reads, the messages are the frames of the whole stream; bytes are conserved in order (read is emitted, discarded or buffered), no 0x02 is discarded, every message has first byte 0x02 and the length its second byte says, and at most 512 bytes stay buffered |
| Deframer.SerialReader.ReadSerialData | src/io/io.cpp:46-103 | one call: what was read and buffered is cut, in order, into messages, discarded bytes without a start byte, and the new buffer |
| Deframer.Recovered | src/io/io.cpp:63-96 | well-formed frames with anything between them that holds no 0x02 are recovered exactly and in order |
| Deframer.StateMeans | src/io/io.cpp:52-97 | from the cutting of the stream that every call keeps: the messages so far are the frames of the stream so far, and at most 512 bytes are buffered |
| Deframer.CalculateBcc | src/io/io.cpp:31-39 | the exclusive or of all bytes |
| Deframer.BccParity | src/io/io.cpp:31-39 | bit k of the check character is set if and only if an odd number of the bytes have it |
| Deframer.BccClears | src/io/io.cpp:31-39 | data followed by its check character has check character zero |
| Deframer.BccDetects | src/io/io.cpp:31-39 | changing any one byte changes the check character |
| Slac.Success | src/utilities/open-plc-utils/slacify.cpp:262-367 | a run that returns 0 has made the five calls of a matching back to back, all successful, and then network checks of which only the last succeeded, within the time limit |
| Slac.TimeoutsBounded | src/utilities/open-plc-utils/slacify.cpp:274-290 | a run has at most one timed-out probe more than the retry limit if and only if the limit fits the byte counter |
| Slac.TimeoutsCounted | src/utilities/open-plc-utils/slacify.cpp:279-288 | nothing that fails in a later state resets the retry counter |
| Slac.NeverUnavailable | src/utilities/open-plc-utils/slacify.cpp:279-288 | with a limit above 255 a run can time out any number of times and go on |
| Slac.MatchingFails | src/utilities/open-plc-utils/slacify.cpp:307-334 | a failure of any of the four calls of a matching goes back to listening with the counter as it was |
| Slac.MatchingsFail | src/utilities/open-plc-utils/slacify.cpp:307-334 | and so does any number of them in a row |
| Slac.NetworkCheck | src/utilities/open-plc-utils/slacify.cpp:343-367 | a successful network check ends the run with success; a failed one with failure and unoccupied if and only if the time since the matching has reached the limit |
| Slac.ProbeFails | src/utilities/open-plc-utils/slacify.cpp:262-295 | a failed probe is repeated until the time since listening began reaches the limit; then the counter decides |
| Slac.Evse.EVSESlac | src/utilities/open-plc-utils/slacify.cpp:420-448 | from any session state and any answers of the network and the clock, the code returned and the state left are those of the run; from the unavailable state it fails at once |
| Slac.Evse.UnoccupiedState | src/utilities/open-plc-utils/slacify.cpp:262-295 | the listening loop, with its timer and retry counter |
| Slac.Evse.UnmatchedState | src/utilities/open-plc-utils/slacify.cpp:307-334 | the four calls of a matching, each failure going back to listening |
| Slac.Evse.MatchedState | src/utilities/open-plc-utils/slacify.cpp:343-367 | the network checks, with their timer |
| Tokenizer.Parse | src/utilities/tokenizer.cpp:33-95 | the nested loops end on every input, each round consuming a character, and find the tokens of the line; they stay inside the token buffer if and only if every token has fewer than 512 characters |
| Tokenizer.RoundTrip | src/utilities/tokenizer.cpp:33-95 | any mix of bare and quoted tokens, with any blanks and with commas or blanks between them, gives back the tokens, whatever follows the end of the line |
| Tokenizer.QuotingIsUndone | src/utilities/tokenizer.cpp:33-95 | any list of texts that lack end-of-line characters and one kind of quote mark can be quoted, joined and parsed back |
| Tokenizer.Unclosed | src/utilities/tokenizer.cpp:59-78 | a quoted token that is not closed reaches to the end of the line |
| Tokenizer.Characters | src/utilities/tokenizer.cpp:59-78 | the characters of one token, quoted or bare, in the buffer; every write is inside it if and only if there are at most 512 |
| Tokenizer.OneToken | src/utilities/tokenizer.cpp:53-84 | one token and the place after it; with its NUL it stays inside the buffer if and only if it has fewer than 512 characters, and then the buffer holds it |
| MsTimer.RateBound | src/utilities/mstimer.cpp:35-67 | k true answers mean that at least k durations have passed, and after each poll at most one duration has passed since the stored start, across wraparound, if a gap and a duration together stay under 2^64 |
| MsTimer.NoDrift | src/utilities/mstimer.cpp:56-63 | with no gap longer than the duration, every duration that has passed has been answered, but for the one that may just have ended |
| MsTimer.MsTimer.IsExpired | src/utilities/mstimer.cpp:35-67 | the answer and the new start time, in 64-bit arithmetic |
| MsTimer.StoppedStays | src/utilities/mstimer.cpp:35-38 | a stopped timer never answers true and does not change, however often it is polled |
| MsTimer.PollInTime | src/utilities/mstimer.cpp:41-63 | one poll in true time: late by more than a duration restarts at the poll, otherwise at the previous end |

## Left out

- Json reals: reading and printing a double are library calls, taken as arbitrary functions; round trips are stated for values without reals.
- Json comments: they are skipped as the reader skips them, but not collected, attached to values or written back.
- JsonReader.Reader.ReadComment: does not collect the comment or decide where it belongs, because comments are not part of the model's values.
- After an error, the place where the reader resumes and what it leaves in the root are modelled as in the source, but no theorem speaks of them.
- The reader's peeks at the byte after the end of the document (lines 563 and 673 of the JSON source) see a NUL here.
- JsonReader.Reader.ReadValue: the node stack holds values that are stored back when they are popped, where the source holds pointers into the tree; aliasing between them is not captured.
- Values are modelled by value: sharing and ownership of strings and maps, and the difference between copied and static strings, are not captured.
- JsonArrays.ArrayValue.At: returns the value where the source returns a reference into the map; `ArrayValue.Assign` is the assignment through it.  Array indices are unbounded, where the source's are 32 bits wide.
- BuiltStyledStreamWriter with comment style None, whose single-line arrays depend on a right margin, YAML colons, dropped null placeholders, special floats.
- `OurReader`, `Path`, `StyledWriter` and `StyledStreamWriter`: near copies of modelled code.
- Sha256.Hasher.Write: takes the caller's bytes as a sequence.  After a write that makes the low count word go around more than once, which takes at least 2^32 bytes, the digest is that of a message with another length field.
- Reconnecting of the relay: one TCP session on each side.  After a reconnection of the client its flag is still set and the request is sent again, which breaks the properties stated.
- The relay loops are steps of a state machine, not methods, because other threads come between their statements.  A message callback is one step: the source raises the flag before it stores the packet, and read in between the old packet would be taken.
- Relayed payloads are assumed to fit the 65536-byte buffers of both sides; sockets, select, sleeping, printing and logging are not modelled.
- Losing the broker connection, quality of service and TLS are not part of this model; the broker keeps the order of a topic and may lose messages.
- Handshake: a signal that ends the program, and messages on the handshake topics that are data.
- Deframer: a failed read is a call without effect; opening and configuring the port, and writing to it, are not modelled.
- Slac.Evse.EVSESlac: the command-line switch, channel set-up and closing, and printing; a run whose environment stops answering is cut short there.
- The vehicle's side of SLAC returns 0 even when setting the key fails, so no success claim is made for it.
- Tokenizer.Parse: beyond the end of the token buffer the model goes on without writing, where the source's behaviour is undefined.
- The one-shot timer, whose facts are readable from single branches, and the clock's own jumps.
- SDP and V2GTP packing, J1772 voltage classification, the top-level state machine, key generation from passwords, the configuration file reader: small layouts, tables and straight-line code that would add only easy members.
