# Verified model of the libraries around the V8 node

This project models, in Dafny, the algorithms of the libraries that the V8 node ships and depends on, together with
its own thread pool and its registry of compiled functions, and proves properties of them that hold for all inputs,
all runs and all reachable states. `dafny verify dfyconfig.toml` checks everything.

Code that changes things step by step is written as methods and classes with loops, each tied to a specification
function; what the source promises is then proved about the specification.

**JSON values (`include/json.hpp`).** `JsonValues` has the values, `operator==` and the key order of objects; integers
have their 64-bit ranges and a floating-point number is its 64-bit pattern. `JsonPointer` escapes, unescapes, prints
and splits paths. `JsonPatch` applies patch documents and shows that a patch under a prefix touches only that subtree.
`JsonDiff` builds the edit script, and `JsonDiffLaw` proves `patch(diff(s, t)) == t` with its exact condition.
`JsonEquality` and `NearestDouble` say what `operator==` compares, without using it: canonical forms for values
without floating-point numbers, and nearest doubles for an integer against a float. `JsonDiffCanon` restates the diff
law with canonical forms. `JsonPatchLaw` says what each operation of a patch changes and what it leaves alone, and
`JsonIndexLaw` which tokens are array indexes. `JsonFlatten` and `JsonFlattenLaw` prove `unflatten(flatten(j)) == j`
with its exact condition; the documentation of `flatten` promises this for all values, but an object whose first
visited key is "0" comes back as an array, so the law carries that condition. `JsonPlaceLaw` says what `unflatten`
makes of any entry, also of objects that `flatten` does not produce. The documentation of `diff` promises its law for
all values, but a NaN equals nothing.

**JSON text.** `JsonStrings` and `JsonStringLaw` escape strings and read string tokens, `JsonLexer` is the scanner
with its automaton, `JsonNumbers` prints and reads integers, `JsonParser` is the recursive-descent parser and
`JsonDump` the serializer. `JsonTextLaw` proves `parse(dump(j)) == j` for every indent, exactly for values whose
strings are well-formed UTF-8. `JsonTokens` spells out all tokens, numbers among them with their values, `JsonGrammar`
has the syntax trees with their meaning, and `JsonWhiteLaw` proves that the parser accepts exactly the spellings of
trees with white space between the tokens. `JsonEscapeLaw` says what the escapes of a string denote, and `JsonDumpLaw`
what a dump looks like. The parser accepts a text that goes on after a null character, as the source does.

**Binary formats.** `ByteVectors`, `ShortFloats`, `Cbor`, `CborCodec`, `CborLaw` (RFC 7049) and `MsgPack`,
`MsgPackCodec`, `MsgPackLaw`: encoders, decoders on arbitrary bytes, and self-delimiting round trips. The MessagePack
encoder writes no lead byte for sizes of 2^32 and more, and the law says so. `ItemForms` has the numbers that only the
decoders know: wider integers than needed and short floating-point numbers.

**ICU sets.** `Bits` holds facts about 32-bit words, `InversionList` the sets, `BmpTables` the loops that fill the bit
tables, `UnicodeText` the reference readings of UTF-16 and UTF-8, `Utf16Text` the encoding and the scans of UTF-16,
and `BmpSet` the class with its lookups and spans.

**ICU tries.** `TrieFormat` defines the byte format inductively: a trie is well-formed if its bytes are the nodes of a
tree whose branches are ordered. `TrieReader` matches byte by byte, `TrieIterator` enumerates with an explicit stack,
and `TrieLaw` proves that both describe the same map. The iterator keeps a string length in 16 bits: `TrieEvents` says
where that cuts a string short. The enumeration is proved right for every trie without such a place, and wrong at the
first such place of any other trie from where the right edge is still found. `TrieCodes` writes values, jumps and
whole trees and shows that they are read back. The builder of the source writes a jump of more than three bytes wrong:
it stores each of its middle bytes in the same place of its array; the exact condition for a right jump is proved.

**ICU canonical iterator.** `CanonicalPermute` and `CanonicalIterator`: the orders of a segment, and the odometer over
the variants of all segments. The combining class is a parameter.

**Thread pool (`include/threadpool.h`).** `ThreadPool` is a state machine over the atomic accesses of the workers, of
any number of callers of `addJob` and of one caller of `joinAll`; `ThreadPoolRuns` has the properties of whole runs:
exactly when `joinAll(true)` has run every accepted job, the order of a single worker, and runs that lose a job or
overshoot the queue limit.

**moment (`libs/moment.js`).** `MomentWeeks` has the week dates over the proleptic Gregorian calendar of section
15.9.1 of ECMAScript 5.1, `MomentDuration` the carrying of durations in exact arithmetic, and `MomentCalendar` ties
the constants of both to known dates and to the cycle of 400 years.

**Function registry (`src/v8runner.cpp`).** `FunctionRegistry` relates the maps of conversations and functions to the
history of compile, remove and clean calls. Whether code compiles is an input.

`Outcome` has optional values, results and error classes, `Octets` the bytes, `Decimals` decimal numerals,
`JsonNormal` what a value becomes when it is written and read back.

## Model

| member | source | states |
|---|---|---|
| JsonPointer.ReplaceSubstring | include/json.hpp:12102-12114 | the in-place find-and-replace loop equals replacing every non-overlapping occurrence from left to right |
| JsonPointer.UnescapeEscape | include/json.hpp:12117-12132 | unescaping an escaped token gives the token back, for every token |
| JsonPointer.EscapeUnescape | include/json.hpp:12117-12132 | escaping an unescaped text gives it back exactly when it has no "/" and every "~" in it is followed by "0" or "1" |
| JsonPointer.EscapedText | include/json.hpp:12117-12123 | an escaped token has no "/" and passes the escape check |
| JsonPointer.CheckEscapes | include/json.hpp:12065-12080 | the loop over "~" accepts exactly the properly escaped tokens |
| JsonPointer.SplitPath | include/json.hpp:12029-12087 | the loop over slashes yields the tokens between them, unescaped, or the domain error for a missing slash or a bad escape |
| JsonPointer.SplitToPath | include/json.hpp:11693-11700 | splitting the printed form of a token list returns that list, whatever characters the tokens hold |
| JsonPointer.ToPathSplit | include/json.hpp:12029-12087 | printing the tokens of any path that splits gives the path back |
| JsonPointer.ToString | include/json.hpp:11693-11700 | the fold over the tokens prints each with a slash and escaped |
| JsonPointer.StoIDecimal | include/json.hpp:11918-11918 | an array index is read back from its decimal form exactly when it fits an int, and is out of range otherwise |
| JsonIndexLaw.StoIText | include/json.hpp:11918-11918 | white space, a sign, digits and anything behind them give the number of the digits with that sign, exactly if it fits an int |
| JsonIndexLaw.StoIFails | include/json.hpp:11918-11918 | without a digit behind the white space and the sign there is no number |
| JsonIndexLaw.IndexOfDigits | include/json.hpp:11866-11918 | a numeral with a leading zero is a domain error; any other is an index inside the array for checked access, and up to the largest int where the array may grow |
| JsonIndexLaw.IndexOfText | include/json.hpp:11866-11918 | any other text with a number is an index by that number; a negative number is out of range for checked access, and a length error where the array would grow |
| JsonValues.EqReflexive | include/json.hpp:5882-5955 | a value equals itself under operator== exactly if it holds no NaN and no discarded value |
| JsonEquality.EqCanon | include/json.hpp:5882-5955 | values without floating-point numbers are equal exactly if they are the same after every signed integer is replaced by the unsigned one with the same 64 bits |
| NearestDouble.EqFloats | include/json.hpp:5919-5922 | two floating-point numbers are equal exactly if they are the same finite number, with or without a sign on zero, or the same infinity |
| NearestDouble.EqNearest | include/json.hpp:5929-5944 | an integer equals a floating-point number, on either side, exactly if no finite double is nearer to the integer, and of two that are equally near it is the one whose last bit is 0 |
| JsonValues.SortedKeys | include/json.hpp:8440-8450 | members are visited in ascending order of their keys, each once |
| JsonPatch.At | include/json.hpp:11888-11930 | checked access follows the tokens, with its own errors for a bad index, a missing key and a primitive parent |
| JsonPatch.Patch | include/json.hpp:12472-12731 | all operations of the document are read and applied in order to a copy, and the first failure ends the run |
| JsonPatch.ApplyBelow | include/json.hpp:12511-12719 | an operation below a child has the result that it has inside the child, in success and in failure; it differs from the child alone exactly where the check of the first token stops an add there that can create what is missing |
| JsonPatch.AddCreatesBelow | include/json.hpp:12512-12531 | such an add: it fails on an empty object and succeeds on the same object below a parent, because only the first token of the whole path is checked |
| JsonPatch.RunBelow | include/json.hpp:12511-12731 | a whole patch below a child changes only that child and fails as it does inside; a patch that succeeds on the child alone has the same result below the parent |
| JsonPatch.PatchAllRuns | include/json.hpp:12609-12731 | a document whose entries read as operations is applied by running them |
| JsonPatchLaw.ReadMeans | include/json.hpp:12610-12725 | an element of the document is an operation exactly if it has the members of one: op, path, and value or from as that needs |
| JsonPatchLaw.AddToArray | include/json.hpp:12511-12561 | an add at an index of an array, or at "-", inserts: one element more, the value at the index, the elements before it in place and the others moved up by one; out of range behind the end |
| JsonPatchLaw.RemoveFromArray | include/json.hpp:12569-12600 | a remove at an index is the inverse of that insertion; out of range if there is no such element |
| JsonPatchLaw.RemoveUndoesAdd | include/json.hpp:12511-12600 | removing what was added to an array gives the whole document back |
| JsonPatchLaw.AddUndoesRemove | include/json.hpp:12511-12600 | adding what was removed from an array gives the whole document back |
| JsonPatchLaw.AddToObject | include/json.hpp:12511-12539 | an add to an object or a null sets that member and keeps all others |
| JsonPatchLaw.RemoveFromObject | include/json.hpp:12569-12589 | a remove takes that member away and keeps all others; out of range without such a member |
| JsonPatchLaw.BelowPrimitive | include/json.hpp:12511-12600 | below a primitive value a remove does nothing, and an add is the failed assertion |
| JsonPatchLaw.AtRoot | include/json.hpp:12512-12520 | an add at the root replaces the document, and a remove at the root is a domain error |
| JsonPatchLaw.AddRemoveKeep | include/json.hpp:12511-12600 | both leave every place alone that parts from the path of the container |
| JsonPatchLaw.AddCreates | include/json.hpp:12512-12531 | an add below a place that does not exist makes the place an object with the one member, and its first token must exist |
| JsonPatchLaw.NullBecomes | include/json.hpp:11836-11864 | a null on the way becomes an array for a plain index or "-", with nulls before the new element, and an object for a token that is no number |
| JsonPatchLaw.ReplaceMeans | include/json.hpp:12664-12669 | a replace needs an existing place, puts the value there and keeps every place that parts from it |
| JsonPatchLaw.CopyMeans | include/json.hpp:12688-12696 | after a copy the value at the path is the old value at from, and every place that parts from the path keeps its value |
| JsonPatchLaw.MoveMeans | include/json.hpp:12671-12686 | a move is a remove at from, and then an add of the value that stood there |
| JsonPatchLaw.TestMeans | include/json.hpp:12698-12719 | a test succeeds exactly if the value at the path is equal, and then gives the document itself; otherwise it is a domain error, also for a path out of range |
| JsonPatchLaw.ApartUnlessPrefix | include/json.hpp:11821-11930 | two plain paths part unless one is a prefix of the other |
| JsonDiff.Diff | include/json.hpp:12765-12895 | the recursive method returns the edit script of the specification, rendered with the path it was given |
| JsonDiff.DiffElements | include/json.hpp:12792-12835 | common elements are diffed in place, then removals and additions follow |
| JsonDiff.InsertRemovals | include/json.hpp:12807-12819 | surplus elements are removed from the back, inserted at one fixed position of the script |
| JsonDiff.AppendAdditions | include/json.hpp:12821-12831 | missing elements are added at ascending indexes |
| JsonDiff.DiffMembers | include/json.hpp:12836-12878 | members of the source are diffed or removed, then new members are added |
| JsonDiff.RenderUnderAll | include/json.hpp:12796-12801 | the script of a child is rendered with the path of the child in front of each of its paths |
| JsonDiffLaw.DiffRun | include/json.hpp:12765-12895 | running the edit script on the source gives a value that matches the target |
| JsonDiffLaw.DiffLocal | include/json.hpp:12765-12895 | a script consists of additions, removals and replacements, and only a replacement may address the root |
| JsonDiffLaw.PatchSucceeds | include/json.hpp:12472-12731 | applying the script of diff(s, t) to s succeeds exactly if every index at which the arrays differ fits an int |
| JsonDiffLaw.IntSizedAddressable | include/json.hpp:12765-12895 | arrays of at most 2^31 elements always meet that condition |
| JsonDiffLaw.DiffPatchLaw | include/json.hpp:12735-12895 | patch(diff(s, t)) applied to s equals t under operator== exactly if that condition holds and t holds no NaN or discarded value |
| JsonDiffLaw.NaNIsNotReached | include/json.hpp:12738-12743 | the documented law fails for every source if the target is a NaN: patching gives the target, but it is not equal to itself |
| JsonDiffLaw.NaNExample | include/json.hpp:12738-12743 | a bit pattern for which this happens |
| JsonDiffCanon.DiffPatchCanon | include/json.hpp:12735-12895 | without floating-point numbers: patch(diff(s, t)) applied to s has the canonical form of t, exactly if the indexes fit an int |
| JsonDiffCanon.EmptyDiff | include/json.hpp:12765-12895 | the script is empty exactly if the canonical forms are the same |
| JsonFlatten.Flatten | include/json.hpp:12141-12187 | the recursion over a value collects each leaf under its printed path, and empty containers as null |
| JsonFlatten.Unflatten | include/json.hpp:12199-12225 | the members are placed one after the other in key order, or the domain error is returned |
| JsonPlaceLaw.PlaceReads | include/json.hpp:11746-11800 | for every document and path, an assignment that succeeds puts the value where the path leads afterwards |
| JsonPlaceLaw.PlaceAlong | include/json.hpp:11746-11800 | and all along the path each container gets that one element or member and keeps everything else: arrays grow by nulls up to the index, a null becomes an array for "0" and else an object |
| JsonPlaceLaw.UnflattenedIsFlat | include/json.hpp:12199-12225 | only an object of primitive values under valid paths can be unflattened |
| JsonFlattenLaw.FlatLists | include/json.hpp:12141-12187 | the flat object lists exactly the leaves of the value, one path for each |
| JsonFlattenLaw.UnflattenFlatten | include/json.hpp:11746-11800 | unflatten rebuilds a value from its leaves, with empty containers as null |
| JsonFlattenLaw.OrderStep | include/json.hpp:11746-11800 | because paths come in lexicographic order, an array is created by its index 0 before any other index needs it |
| JsonFlattenLaw.FlattenLaw | include/json.hpp:12388-12436 | unflatten(flatten(j)) equals j exactly if j has no empty container, no array beyond 2^31, no discarded value, no NaN and no object whose first visited key is "0"; the documentation promises it without the last condition |
| JsonFlattenLaw.KeyZeroBecomesIndex | include/json.hpp:12408-12411 | the documented law fails for an object with the single key "0", which comes back as an array |
| ByteVectors.AddToVector | include/json.hpp:6546-6590 | the bytes pushed for a number are its big-endian bytes |
| ByteVectors.GetFromVector | include/json.hpp:6626-6640 | the bytes behind an index are combined to their big-endian value, or out of range is reported |
| ByteVectors.ValueOfBigEndian | include/json.hpp:6546-6640 | reading the bytes of a number gives the number |
| CborCodec.ToCbor | include/json.hpp:6898-7150 | the encoder appends the encoding of the specification to the vector |
| CborCodec.FromCbor | include/json.hpp:7448-7916 | on every vector and start index the decoder terminates, reads within bounds, and returns what the specification says; on success the index has grown and lies within the vector |
| CborCodec.ReadText | include/json.hpp:7175-7194 | a string is taken only if it lies inside the vector, although the index moves first and may wrap around |
| CborCodec.ReadChunks | include/json.hpp:7448-7916 | the chunks up to the break byte are joined; a chunk that is no string is a domain error |
| CborLaw.RoundTrip | include/json.hpp:6898-7150 | wherever the encoding of a value stands in a vector, decoding there gives the value and the index behind it |
| CborLaw.SelfDelimiting | include/json.hpp:7448-7916 | decoding to_cbor(j) followed by any bytes returns a value equal to j and stops exactly behind its encoding |
| CborLaw.DecodeLocal | include/json.hpp:7448-7916 | a decoded item depends on its own bytes only |
| CborLaw.IndefiniteArray | include/json.hpp:7448-7916 | whatever stands between, the array of definite length is read to its end exactly if the one of indefinite length with the same item bytes and as many items is, and the values are equal |
| CborLaw.IndefiniteMap | include/json.hpp:7448-7916 | the same for objects |
| CborLaw.DefiniteMap | include/json.hpp:7448-7916 | every object of indefinite length has the value of the definite one with the same member bytes and their number |
| CborLaw.IndefiniteString | include/json.hpp:7448-7916 | whatever string items stand between 0x7f and the break byte, also with longer heads or themselves in chunks, decode to the value of the definite string of their contents joined; nothing else is accepted there |
| ItemForms.CborUnsigned | include/json.hpp:7484-7506 | an unsigned integer in 1, 2, 4 or 8 bytes is read, also where fewer would do |
| ItemForms.CborNegative | include/json.hpp:7537-7560 | -1 - n is read from n in any of these widths; from n = 2^63 on the conversion wraps around and the result is 2^64 - 1 - n |
| ItemForms.CborHalf | include/json.hpp:7855-7885 | 0xf9 and the big-endian bytes of sign, exponent and mantissa of half precision decode to the number that these stand for |
| ItemForms.CborSingle | include/json.hpp:7887-7900 | 0xfa does so for single precision |
| ShortFloats.HalfValue | include/json.hpp:7448-7916 | a half-precision number widens to the double of exactly its value, including subnormal numbers, infinities and NaN |
| ShortFloats.SingleValue | include/json.hpp:7448-7916 | the same for single precision |
| MsgPackCodec.ToMsgPack | include/json.hpp:6652-6886 | the encoder appends the encoding of the specification to the vector |
| MsgPackCodec.FromMsgPack | include/json.hpp:7210-7432 | the decoder returns what the specification says, on every vector and start index |
| MsgPackLaw.RoundTrip | include/json.hpp:6652-6886 | wherever the encoding of a value with 32-bit sizes stands in a vector, decoding there gives the value and the index behind it |
| MsgPackLaw.DecodedSized | include/json.hpp:7210-7432 | the decoder never returns a string, array or object of more than 2^32-1 elements |
| ItemForms.MsgPackUnsigned | include/json.hpp:7301-7323 | 0xcc to 0xcf read an unsigned integer of 1, 2, 4 or 8 bytes |
| ItemForms.MsgPackSigned | include/json.hpp:7325-7347 | 0xd0 to 0xd3 read a signed integer in two's complement |
| ItemForms.MsgPackSingle | include/json.hpp:7277-7287 | 0xca reads a single-precision number |
| MsgPackLaw.SelfDelimiting | include/json.hpp:6652-6886 | encoding and decoding with any bytes behind gives the value back exactly if all its sizes fit 32 bits; beyond that the encoder writes no lead byte |
| JsonNormal.NormalEq | include/json.hpp:5882-5955 | the value that comes back, with its non-negative integers unsigned, equals the original under operator== exactly if the original holds no NaN or discarded value |
| JsonStrings.EscapeString | include/json.hpp:8143-8248 | filling the pre-sized buffer of backslashes yields each character or its escape, in order |
| JsonStrings.GetString | include/json.hpp:10975-11088 | the loop over runs and escapes returns what the characters between the quotes denote, or the error; it never reads an escape beyond the closing quote |
| JsonStrings.ToUnicode | include/json.hpp:9645-9707 | a code point, or a surrogate pair combined to one, becomes its UTF-8 bytes; a wrong low surrogate and a code point above U+10FFFF are errors |
| JsonStringLaw.EscapedTrip | include/json.hpp:8143-8248 | an escaped string is scanned as one string token exactly if it is well-formed UTF-8 (section 4 of RFC 3629) |
| JsonStringLaw.EscapedDenotes | include/json.hpp:10975-11088 | for every string, whatever its bytes are, unescaping the escaped string gives the original back |
| JsonStringLaw.QuotedTrip | include/json.hpp:8143-8248 | both laws for the whole quoted string, wherever it stands in a text |
| JsonStringLaw.DenotesUtf8 | include/json.hpp:10975-11088 | what a string token denotes is well-formed UTF-8, or unescaping it is an error |
| JsonStringLaw.ErrorIsUnpaired | include/json.hpp:11047-11082 | unescaping fails exactly if some code unit is a high surrogate without a low one behind it or a low surrogate without a high one before it |
| JsonEscapeLaw.LetterMeans | include/json.hpp:10992-11043 | the eight escapes of one letter denote the characters of section 7 of RFC 7159 |
| JsonEscapeLaw.EscapeMeans | include/json.hpp:11046-11082 | every code point that is no surrogate may be written as the escapes of its UTF-16 units, in digits of either case, and denotes its UTF-8 |
| JsonEscapeLaw.EscapesMean | include/json.hpp:11046-11082 | so a whole text in such escapes denotes the UTF-8 of the text |
| JsonLexer.ScanString | include/json.hpp:9965-10413 | the automaton accepts exactly the string tokens of section 7 of RFC 7159 over well-formed UTF-8, and falls back to its marker otherwise |
| JsonLexer.ScanNumber | include/json.hpp:9994-10560 | the automaton takes the longest number and says whether it is unsigned, signed or floating-point; a leading zero followed by digits is an error |
| JsonLexer.ScanLiteral | include/json.hpp:10546-10778 | the literals are recognized letter by letter |
| JsonLexer.Lexer.Scan | include/json.hpp:9773-10813 | white space is skipped and the next token returned with its start and end |
| JsonLexer.LeadStep | include/json.hpp:10128-10260 | the first byte of a character leads to the state that accepts exactly its well-formed continuations |
| JsonNumbers.NumToStr | include/json.hpp:8273-8304 | digits taken from the end, the sign, and reversing in place yield the decimal text of every 64-bit integer |
| JsonNumbers.NumberTrip | include/json.hpp:11259-11325 | a printed integer in front of a delimiter is one number token, and reads back as the same integer |
| JsonTokens.NumeralMeans | include/json.hpp:11259-11325 | a numeral without fraction and exponent is its exact value from -2^63, with a sign, up to 2^64 - 1, without one; every other goes to the floating-point conversion |
| JsonTokens.NumeralRead | include/json.hpp:9994-10560 | every numeral of section 6 of RFC 7159 is one token of the kind that its parts say, unless the next character can go on with it |
| JsonTokens.NumeralFound | include/json.hpp:9994-10560 | every number token is such a numeral |
| JsonTokens.TokenFound | include/json.hpp:9773-10813 | what the scanner takes for a token is spelled as one |
| JsonTokens.TokenRead | include/json.hpp:9773-10813 | what is spelled as a token is scanned as that token wherever it stands |
| JsonDump.Dump | include/json.hpp:2647-2663 | every indent selects the indented or the compact text of the specification |
| JsonDump.DumpTo | include/json.hpp:8415-8545 | the recursive serializer appends the text of the value, its indent restored after every container |
| JsonParser.Parser.ParseInternal | include/json.hpp:11396-11589 | recursive descent over the tokens gives the value of the specification and stands at the token after it |
| JsonParser.Parser.Parse | include/json.hpp:11379-11393 | the whole text must be one value followed by the end of input |
| JsonGrammar.SoundValue | include/json.hpp:11396-11589 | what parse_internal reads are the tokens of a syntax tree, and the result is the meaning of the tree; of members with the same key the last one counts |
| JsonGrammar.CompleteValue | include/json.hpp:11396-11589 | wherever the tokens of a tree come next, parse_internal takes exactly these and returns the meaning of the tree, or the error of a bad surrogate in it |
| JsonWhiteLaw.GrammarLaw | include/json.hpp:11379-11589 | for every text: parsing succeeds with a value exactly if the text is the tokens of a tree with that meaning, with space, tab, line feed and carriage return between them, up to the end or a null character |
| JsonWhiteLaw.WrittenTree | include/json.hpp:11379-11589 | whatever white space stands between the tokens of a tree, parsing gives the meaning of the tree |
| JsonWhiteLaw.SpacingLaw | include/json.hpp:9951-9963 | white space between any tokens, whether they form a value or not, does not change the result |
| JsonWhiteLaw.FrontLaw | include/json.hpp:9822-9831 | white space in front of any text changes nothing |
| JsonWhiteLaw.BackLaw | include/json.hpp:9951-9963 | white space behind any text changes nothing |
| JsonWhiteLaw.StrayLaw | include/json.hpp:9773-10813 | any other character between the tokens that starts no token is an error |
| JsonTextLaw.RoundTrip | include/json.hpp:8415-8545 | wherever the text of a value stands before a delimiter, parsing it gives the value and the start of the next token, or fails if a string is not UTF-8 |
| JsonTextLaw.ParseDumped | include/json.hpp:11379-11589 | parse(dump(j)) returns j with its non-negative integers unsigned if all strings are UTF-8, and an error otherwise |
| JsonTextLaw.ParseDumpLaw | include/json.hpp:8415-8545 | parse(dump(j, indent)) equals j for every float-free j and every indent exactly if every string and key of j is well-formed UTF-8 |
| JsonDumpLaw.DumpSpacing | include/json.hpp:11379-11589 | a value may be written with any white space between its tokens: parsing gives what parsing its dump gives |
| JsonDumpLaw.CompactLayout | include/json.hpp:8415-8545 | the compact text is the tokens of the value and nothing else |
| JsonDumpLaw.ArrayLayout | include/json.hpp:8465-8501 | indented elements stand on lines of their own, one step deeper, with a comma behind all but the last, and the bracket on the level of the array |
| JsonDumpLaw.ObjectLayout | include/json.hpp:8425-8463 | the same for members in key order, with a colon and a space behind each key |
| JsonDumpLaw.LayoutExample | include/json.hpp:8415-8545 | the text of an array in an array with an indent of four |
| BmpTables.Set32x64Bits | deps/icu-56/source/common/bmpset.cpp:66-115 | the vertical bit rectangle gains exactly the points of the given range |
| BmpTables.InitAscii | deps/icu-56/source/common/bmpset.cpp:121-135 | the first loop records the members below U+0080 and leaves the cursor at the first range beyond |
| BmpTables.InitTable7FF | deps/icu-56/source/common/bmpset.cpp:137-151 | the second loop records the members from U+0080 up to U+07FF |
| BmpTables.AddRange | deps/icu-56/source/common/bmpset.cpp:160-185 | adding a range marks the blocks it meets in part as mixed and the others as full, and moves the start past the last mixed block |
| BmpTables.InitBlocks | deps/icu-56/source/common/bmpset.cpp:153-197 | every block that is not mixed says for all its 64 code points whether they are members |
| BmpTables.BlocksOverridden | deps/icu-56/source/common/bmpset.cpp:223-238 | after the override no illegal block is mixed, illegal blocks answer for U+FFFD and the others are as before |
| BmpSet.FindCodePoint | deps/icu-56/source/common/bmpset.cpp:242-274 | the binary search returns the number of entries at most c, kept between its bounds |
| BmpSet.FindStarts | deps/icu-56/source/common/bmpset.cpp:40-45 | the saved positions are those of U+0800, U+1000 .. U+10000 and the last index |
| BmpSet.BMPSet.constructor | deps/icu-56/source/common/bmpset.cpp:27-49 | after construction the four tables mean what the inversion list says |
| BmpSet.BMPSet.Contains | deps/icu-56/source/common/bmpset.cpp:276-301 | contains(c) is membership of c in the inversion list for every int c, and false out of range |
| BmpSet.BMPSet.ContainsInBlock | deps/icu-56/source/common/bmpset.cpp:282-292 | two bits or a search in a 4k slice of the list decide membership |
| BmpSet.BMPSet.Span | deps/icu-56/source/common/bmpset.cpp:307-401 | the span ends at the first code point of the UTF-16 text whose membership differs from the condition |
| BmpSet.BMPSet.SpanBack | deps/icu-56/source/common/bmpset.cpp:404-488 | the span from the back begins right after the last code point whose membership differs |
| BmpSet.BMPSet.SpanUTF8 | deps/icu-56/source/common/bmpset.cpp:494-649 | the result is the first offset at which a reference scan (section 4 of RFC 3629, every other byte read as U+FFFD) disagrees with the condition, truncated tails included, without reading past the text |
| BmpSet.CompleteLimit | deps/icu-56/source/common/bmpset.cpp:524-558 | the limit is set before a truncated last sequence, so that no check for trail bytes reads past the text |
| BmpSet.ScanTogether | deps/icu-56/source/common/bmpset.cpp:587-638 | a sequence, or bytes that form none, can be passed as a whole: the reference scan stops at its start or behind it |
| UnicodeText.DecodedEncoded | deps/icu-56/source/common/bmpset.cpp:494-649 | the reference reading of UTF-8 decodes every scalar value from its encoding, wherever it stands |
| UnicodeText.ScanOfText | deps/icu-56/source/common/bmpset.cpp:494-649 | on encoded text the reference scan stops where the first code point that differs starts |
| Utf16Text.UnitsBack | deps/icu-56/source/common/bmpset.cpp:332-350 | wherever the UTF-16 units of a code point stand, it is read back, and they are a pair exactly above U+FFFF |
| Utf16Text.TextOfCodePoints | deps/icu-56/source/common/bmpset.cpp:307-488 | every sequence of code units, unpaired surrogates included, is the encoding of its code points |
| Utf16Text.ScalarsSeparate | deps/icu-56/source/common/bmpset.cpp:307-488 | every list of code points that are no surrogates can be encoded so |
| Utf16Text.ScansOfText | deps/icu-56/source/common/bmpset.cpp:307-488 | on an encoded text the span ends where the first code point that differs starts, and the span from the back begins after the last one |
| TrieReader.SkipValue | deps/icu-56/source/common/unicode/bytestrie.h:366-382 | skipping by the unshifted lead byte moves over exactly the bytes that readValue reads |
| TrieReader.JumpByDelta | deps/icu-56/source/common/bytestrie.cpp:48-64 | the five forms of a jump delta lead to the position that the format defines |
| TrieCodes.ValueBack | deps/icu-56/source/common/bytestriebuilder.cpp:424-457 | each of the five forms in which a 32-bit value is written has the length that its lead byte says, and is read back wherever it stands |
| TrieCodes.ValueNode | deps/icu-56/source/common/bytestriebuilder.cpp:424-457 | written as final it is a final node with that value, and else an intermediate one before the next node |
| TrieCodes.DeltaBack | deps/icu-56/source/common/bytestrie.cpp:48-64 | a jump written in its five forms is read back |
| TrieCodes.BuilderDeltaBack | deps/icu-56/source/common/bytestriebuilder.cpp:470-501 | the jump as the builder writes it is read back exactly up to 0xdffff, or where the bytes it stores and leaves happen to be the right ones |
| TrieCodes.LongJumpIsWrong | deps/icu-56/source/common/bytestriebuilder.cpp:470-501 | a jump over 0xe0000 bytes is not, whatever its array held |
| TrieCodes.CodeAt | deps/icu-56/source/common/unicode/bytestrie.h:422-475 | wherever the code of a tree stands, the bytes are that tree |
| TrieCodes.WrittenTrie | deps/icu-56/source/common/unicode/bytestrie.h:422-475 | a written tree with ordered branches is a well-formed trie |
| TrieCodes.WrittenExample | deps/icu-56/source/common/bytestrie.cpp:29-44 | the bytes 10 61 a5 2c are the string "a" with the value 300 |
| TrieReader.BytesTrie.Next | deps/icu-56/source/common/bytestrie.cpp:180-204 | one byte moves to the node that the tree has for it, and the result tells its value kind |
| TrieReader.BytesTrie.NextImpl | deps/icu-56/source/common/bytestrie.cpp:148-178 | intermediate values are skipped until a node decides about the byte |
| TrieReader.BytesTrie.BranchNext | deps/icu-56/source/common/bytestrie.cpp:78-146 | the binary search and the linear search over a branch find the edge of the byte or no match |
| TrieReader.BytesTrie.GetValue | deps/icu-56/source/common/unicode/bytestrie.h:206-211 | the value read at a value node is the value of the node |
| TrieIterator.Iterator.Next | deps/icu-56/source/common/bytestrieiterator.cpp:99-168 | each call delivers the first pending pair and leaves the others pending; where a branch 0x10000 bytes deep or deeper is resumed, the pair delivered is the first one behind the string cut to the low 16 bits of its length, with or without a length limit; false exactly if none is left |
| TrieIterator.Iterator.Follow | deps/icu-56/source/common/bytestrieiterator.cpp:130-168 | the nodes from a position on are followed to the first pair below them, also when the stack is no longer right |
| TrieIterator.Iterator.BranchNext | deps/icu-56/source/common/bytestrieiterator.cpp:178-208 | the first edge is taken, and the pushed states stand for exactly the rest of the branch if its length is right; the lengths that differ but take the same edge are named |
| TrieIterator.Iterator.Resume | deps/icu-56/source/common/bytestrieiterator.cpp:104-125 | popping a state cuts the string back to the low 16 bits of its length before the branch, and continues with the next edge |
| TrieIterator.Iterator.constructor | deps/icu-56/source/common/bytestrieiterator.cpp:23-74 | an iterator from any trie state, also inside a linear match longer than the limit, has all pairs of that state pending |
| TrieIterator.Iterator.Reset | deps/icu-56/source/common/bytestrieiterator.cpp:79-92 | after a reset everything from the initial state is pending again |
| TrieEvents.PackedRestores | deps/icu-56/source/common/bytestrieiterator.cpp:114-117 | the branch length and the string length come back from one stack element exactly if the string length is below 0x10000 |
| TrieEvents.PackedParts | deps/icu-56/source/common/bytestrieiterator.cpp:185-197 | otherwise the low half keeps the low half of the string length, and its high half is mixed into the branch length |
| TrieEvents.DeliveredEvents | deps/icu-56/source/common/bytestrieiterator.cpp:99-208 | apart from the cuts, the events of a node are its pairs |
| TrieEvents.CutIff | deps/icu-56/source/common/bytestrieiterator.cpp:178-208 | a string is cut somewhere exactly if some branch of the trie stands 0x10000 bytes deep or deeper |
| TrieEvents.ResumableBelow | deps/icu-56/source/common/bytestrieiterator.cpp:114-119 | for a branch less than 0x20000 bytes deep the mixed length leads to the right edge |
| TrieEvents.CutFirst | deps/icu-56/source/common/bytestrieiterator.cpp:106-127 | resuming with the string cut short gives the due pair without these bytes |
| TrieIterator.Iterator.HasNext | deps/icu-56/source/common/bytestrieiterator.cpp:96-97 | there is a position or a stack entry exactly if some pair is pending |
| TrieLaw.PairIff | deps/icu-56/source/common/bytestrieiterator.cpp:99-208 | the pairs of a node are exactly those found by walking from it, with or without a length limit |
| TrieLaw.PairsAscend | deps/icu-56/source/common/bytestrieiterator.cpp:99-208 | strings come in strictly ascending byte order, so none twice |
| TrieLaw.EnumerationIsLookup | deps/icu-56/source/common/bytestrieiterator.cpp:99-208 | for a well-formed trie the enumerated pairs are exactly the strings that have a value, each once, in order |
| TrieLaw.LimitedEnumeration | deps/icu-56/source/common/bytestrieiterator.cpp:99-177 | with a length limit, longer strings are delivered once for each prefix of that length, with value -1 unless the prefix has a value |
| TrieLaw.Enumerate | deps/icu-56/source/common/bytestrieiterator.cpp:99-168 | calling next until it returns false lists the map of the trie in order, for every trie whose branches stand less than 0x10000 bytes deep, however long its strings are |
| TrieLaw.DeepIsCut | deps/icu-56/source/common/bytestrieiterator.cpp:178-208 | every other trie has a first cut |
| TrieLaw.EnumerateDeep | deps/icu-56/source/common/bytestrieiterator.cpp:99-208 | up to the first cut the pairs come right, and the next one misses 0x10000 bytes, or a multiple, and is not the pair due |
| TrieLaw.DeepExample | deps/icu-56/source/common/bytestrieiterator.cpp:99-208 | a trie with two strings of 0x10001 bytes, the second of which is delivered as one byte |
| TrieLaw.Find | deps/icu-56/source/common/bytestrie.cpp:180-204 | folding next over a string and reading the value agrees with the enumeration |
| ThreadPool.NextInv | include/threadpool.h:21-53 | every atomic step of a worker, a caller of addJob or joinAll keeps the invariants |
| ThreadPool.RunInv | include/threadpool.h:21-89 | they hold in every state of every run: accepted jobs = queued + held by a worker + run; jobsLeft and jobsDone as the program counters say |
| ThreadPool.CountersInRange | include/threadpool.h:142-148 | jobsLeft is never negative, also with the no-ops of a shutdown, and each worker takes at most one no-op |
| ThreadPool.QueueBound | include/threadpool.h:78-89 | with P callers jobsLeft never exceeds the limit + P - 1 before stop, and nothing is accepted if the limit is 0 or becomes negative when it is narrowed to int |
| ThreadPool.RunAtMostOnce | include/threadpool.h:21-53 | no job runs more often than it was accepted |
| ThreadPool.AfterJoin | include/threadpool.h:112-131 | after joinAll jobs have run or are still queued, jobsDone counts the runs, and the per-thread counts exceed it by the no-ops |
| ThreadPoolRuns.WaitedForAll | include/threadpool.h:112-138 | if joinAll(true) leaves waitAll while no call of addJob can still push a job, and no new call starts, then from there on no job is queued or held and every accepted job has run, also at the moment of stop |
| ThreadPoolRuns.WaitAllLaw | include/threadpool.h:112-138 | in any reachable state where waitAll is left, every continuation without a new call in which joinAll returns has run every accepted job: exactly if no caller is between its check and the end of its push, and none that can still pass the check is before it |
| ThreadPoolRuns.LateJobIsLost | include/threadpool.h:78-138 | the shortest such loss: a concrete run in which an accepted job is never run |
| ThreadPoolRuns.RunsByPriority | include/threadpool.h:43-46 | a single worker runs the queued jobs in order of priority |
| ThreadPoolRuns.TakenByPriority | include/threadpool.h:43-46 | with any number of workers, while no addJob is under way the jobs are taken from the queue in order of priority, none queued comes before one taken, and the queue holds exactly the rest |
| ThreadPoolRuns.BoundIsReached | include/threadpool.h:78-89 | for every positive limit and every number of callers some run reaches the bound |
| CanonicalPermute.Permute | deps/icu-56/source/common/caniter.cpp:265-337 | the result gains exactly the orders of the source in which everything before a character of combining class 0 stays before it |
| CanonicalPermute.ArrangementSteps | deps/icu-56/source/common/caniter.cpp:302-336 | such an order starts with the first character or one of another class, followed by such an order of the rest, and every such choice is one |
| CanonicalPermute.AllPermutations | deps/icu-56/source/common/caniter.cpp:265-337 | without the restriction these are all permutations |
| CanonicalIterator.Iterator.Next | deps/icu-56/source/common/caniter.cpp:130-159 | each call returns the text at the current position of the list of all combinations, once each, and then nothing |
| CanonicalIterator.Iterator.Advance | deps/icu-56/source/common/caniter.cpp:148-158 | the carry from the last segment on adds one to the mixed-radix number, or ends the iteration |
| CanonicalIterator.Iterator.Reset | deps/icu-56/source/common/caniter.cpp:119-124 | the iteration starts again |
| CanonicalIterator.TextAtRank | deps/icu-56/source/common/caniter.cpp:141-159 | the text of a combination stands at the position given by its digits |
| CanonicalIterator.RankDistinct | deps/icu-56/source/common/caniter.cpp:148-158 | different combinations have different positions |
| MomentWeeks.NextYear | libs/moment.js:1103-1109 | years follow each other without gaps |
| MomentWeeks.WeeksAreWhole | libs/moment.js:1203-1207 | the weeks of a year are a whole number, 52 or 53 |
| MomentWeeks.WeekHoldsDay | libs/moment.js:1181-1201 | weekOfYear finds the week that holds the day, across both boundaries of the year |
| MomentWeeks.DayInWeek | libs/moment.js:1158-1179 | dayOfYearFromWeeks names the day with the given weekday in the given week |
| MomentWeeks.DateToWeekToDate | libs/moment.js:1148-1207 | from a date to its week and weekday and back gives the date, for every year and every week rule |
| MomentWeeks.WeekToDateToWeek | libs/moment.js:1148-1207 | from a week and weekday to the date and back gives the week |
| MomentWeeks.FixedDayInWeekOne | libs/moment.js:1148-1156 | the day of January that the rule fixes is always in week 1 |
| MomentCalendar.KnownDays | libs/moment.js:1148-1156 | the weekdays of three known dates |
| MomentCalendar.ThursdayRule | libs/moment.js:1148-1207 | by the rule of ISO 8601 a week starts on Monday, belongs to the year of its Thursday, and its number is that of the Thursday |
| MomentDuration.Duration.Bubble | libs/moment.js:3950-3997 | the fields end in their ranges with one sign; the milliseconds, the carried days and the months exchanged for days add up |
| MomentDuration.DaysLeft | libs/moment.js:3981-3984 | as many whole months as fit are taken out of the days, and at most 30 days are left |
| MomentDuration.FieldsAreUnique | libs/moment.js:3965-3995 | only one choice of fields keeps a duration of one sign |
| MomentDuration.NormalizedStays | libs/moment.js:3950-3997 | normalized fields are kept only by themselves |
| MomentCalendar.FourHundredYears | libs/moment.js:3997-4006 | 400 years of the calendar have 146097 days and 4800 months |
| MomentCalendar.MonthsToDays | libs/moment.js:4003-4006 | months become days by the mean month of that cycle, rounded away from zero |
| MomentCalendar.DaysToMonths | libs/moment.js:3997-4001 | days become months by the same mean, rounded toward zero |
| MomentDuration.Duration.constructor | libs/moment.js:2551-2584 | a duration made from units holds their milliseconds, days and months, and is bubbled; made from the fields of a bubbled duration it has the same fields |
| FunctionRegistry.V8Runner.Compile | src/v8runner.cpp:305-382 | compiling records the call, keeps every conversation in its isolate, and empties the old function first |
| FunctionRegistry.V8Runner.Remove | src/v8runner.cpp:385-416 | removing empties the function of the pair |
| FunctionRegistry.V8Runner.Run | src/v8runner.cpp:419-452 | NOT_FOUND exactly if no compilation of the pair succeeded since the last cleaning, NOT_FUNCTION exactly if one did but the latest call for the pair did not make a function; the isolate lookup never misses |
| FunctionRegistry.V8Runner.CleanData | src/v8runner.cpp:553-565 | cleaning forgets all functions and conversations |
| FunctionRegistry.V8Runner.GetIsolate | src/v8runner.cpp:296-302 | the isolates take turns |
| FunctionRegistry.EvenlySpread | src/v8runner.cpp:296-302 | at any time the numbers of conversations of two isolates differ by at most one |

## Left out

- ThreadPoolRuns.WaitAllLaw: new calls of `addJob` after waitAll is left are outside the statement, as the source makes no promise about them.
- JsonPatch.Patch: the pointers that `get_unchecked` follows into the copy are modelled as updates of a value, so aliasing between them is not captured; the checks of all members of one operation come before it is applied; an add below a primitive parent is the failed assertion of the source. For the index "-1" on an empty array the model reports a length error, where the index arithmetic of the source wraps around to a growth of 0 and its access is undefined.
- JsonFlatten.Unflatten: the references that `get_and_create` follows are modelled as updates of a value.
- JsonParser.Parser.Parse: without callbacks and discarded values; input is a buffer that reads as null characters after its end, so line buffers and streams are not modelled.
- JsonDumpLaw.DumpSpacing: for strings that are well-formed UTF-8; others are no tokens.
- JsonNumbers.NumberTrip: conversion between floating-point numbers and text (`strtod`, `snprintf`) is a parameter, so the text laws are about float-free values.
- CborCodec.ToCbor: a discarded value is outside the round trip, as it has no encoding.
- CborCodec.FromCbor: a vector has at most 2^63-1 bytes, the most that `size()` can report.
- BmpSet.BMPSet.Span: the two branches for a zero and a nonzero span condition are written once with the condition as a value; the same holds for `spanBack` and the loops of `spanUTF8`.
- BmpSet.BMPSet.constructor: the copy constructor and `spanBackUTF8`, which relies on a routine of another file, are not part of this model.
- TrieReader.BytesTrie.Next: `next` on a whole string, `hasUniqueValue`, `getNextBytes` and the builder, except how it writes values and jumps, are not part of this model.
- TrieIterator.Iterator.Next: not modelled where a branch is resumed with a length that does not lead to its first edge, which needs a branch at least 2^17 bytes deep: there the source takes other bytes for keys, and may leave the array. Nothing is claimed of the calls after a cut.
- TrieIterator.Iterator.Resume: for the entries whose length off the stack leads to the first edge, as above.
- TrieIterator.Iterator.BranchNext: for lengths that lead to the first edge, as above.
- TrieLaw.EnumerateDeep: for a first cut after which the first edge is still found, for the same reason; every first cut less than 2^17 bytes deep is one (TrieEvents.ResumableBelow).
- CanonicalPermute.Permute: strings are sequences of code points; memory errors are not modelled.
- CanonicalIterator.Iterator.constructor: splitting a source into segments and finding their variants depend on normalization data and are not part of this model; the variants are an input.
- ThreadPool.RunInv: safety only; the condition variables are notified without the mutex of the waiter, so liveness is not claimed. Atomic integers do not wrap around, and one thread calls `joinAll`.
- MomentWeeks.DateToWeekToDate: years are integers; the range limits of JavaScript dates are not modelled.
- MomentDuration.Duration.Bubble: milliseconds, days and months are integers and the quotients exact, without floating-point rounding.
- FunctionRegistry.V8Runner.GetIsolate: one runner; the counter is static in the source and would be shared by several.
- Execution of JavaScript, V8 handles and contexts, the Erlang interface, sockets, the time checker and file access: input, output and foreign calls.
- Parsing, formatting and locales of moment, and the iterators, streams and reflection of the JSON class: data-driven or easy.
