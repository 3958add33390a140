# TinyplyCSharp in Dafny

A model of TinyplyCSharp's codec for the PLY polygon file format, together with
proofs about it. PLY is Greg Turk's ascii and binary mesh format. The model covers
`TinyplyCSharp/Tinyply.cs`:

- **Type table.** The scalar type table (`PropertyTable`, `PropertyTypeFromString`).
- **Binding keys.** The 32-bit FNV-1a hash that keys the binding table on
  element name + property name, fed one UTF-16 code unit at a time as a C# string
  is.
- **Endian swapper.** The in-place swapper that reverses each stride-sized chunk of
  a buffer.
- **Header.** The line and word tokeniser, and the header parser (`ParseHeader` with
  `ReadHeaderFormat`, `ReadHeaderElement`, `ReadHeaderProperty`, `ReadHeaderText`).
- **Binding registry.** `RequestPropertiesFromElement` and `AddPropertiesToElement`.
  Several property names share one parsing helper, which is one `PlyData` plus one
  cursor.
- **Reading.** The lookup table, the data pass `ParseData` in binary and ascii form,
  and `Read`. `Read` either runs two passes, measuring list lengths in the first, or
  one pass sized from list-size hints. For a big-endian stream it then swaps every
  buffer.
- **Writing.** `Write`: the header and the binary or ascii payload.

How the model is organised:

- **Text.** It is a sequence of characters, one per byte (a Latin-1 view). Whitespace
  is characters 9..13 and 32. Lines end at `\n`, `\r` or `\r\n`.
- **State.** `PlyFileImpl` (module `PlyFile`) is a class with the source's fields.
  - **The binding table.** The `Dictionary` is a sequence of (key, helper index)
    entries in insertion order.
  - **Helpers.** The parsing helpers live in an arena (a sequence) that the entries
    index.
  - **Buffers.** Each is an optional byte sequence; `null` is `None`.
- **Pure logic.** Every operation's logic is a function on the value `Impl`.
  - The class's methods are proved to leave `Model()` equal to what that function
    computes.
  - `HashFnv1a`, `ReadLine`, `ReadWord`, `EndianSwapBuffer` and the `ParseHeader`
    loop are `while` loops proved against their functions.
- **Exceptions.** They are `Err` values. Where the source leaves its state half
  updated before throwing (header lines read so far, bindings inserted before the
  mixed-type check), the model keeps exactly that state.
- **Integers.** They are unbounded. The source's 32-bit behaviour is written out
  where it matters: the FNV multiply mod 2^32, `(int)` of a `UInt32`, and the range
  checks of the decimal parses.

`Write` sets every bound `Helper`'s `ByteOffset` back to 0 and clears the big-endian
flag; `TotalSizeBytes` is kept. So writing the same document twice gives the same
bytes (`WriteFacts.WriteTwice`).

The bytes `Write` returns are the encoded header followed by the payload. For a
header that can be written and read back (`HeaderFacts.HeaderWritable`), a fresh
`ParseHeader` reads those bytes back to the written schema
(`HeaderFacts.WrittenHeaderReadsBack`, built on `HeaderFacts.HeaderRoundTrip`). The
conditions are:

- every comment is non-empty ASCII with no line break and no trailing whitespace;
- names are ASCII words without whitespace, and sizes fit in an int32;
- what comes back is the chosen format (little-endian when binary), the comments,
  and every element with its bound properties;
- a UINT32 property comes back as INT32 (its name is written as "int"), and list
  counts come back empty.

An empty comment is written as "comment " and throws on reading back
(`HeaderFacts.EmptyCommentAborts`).

For a document of one element whose properties are all scalars bound to one helper,
the payload is stated byte for byte. In binary it is the buffer's leading bytes
(`GroupWrite.GroupedBinaryWrite`, the twin of `GroupFacts.GroupedRead`). In ascii
each value's text is followed by a space and each instance by a line break
(`GroupWrite.GroupedAsciiWrite`). The ascii text of an integer value reads back as
the bytes it was written from (`AsciiFacts.AsciiIntRoundTrip`).

Where the code and its documentation disagree, the model follows the code:

- With no list-size hints, a buffer gets exactly the `TotalSizeBytes` the first pass
  measured. It is not multiplied by the number of keys sharing the helper; the
  multiplier applies only on the hinted path.
- `ListHints` is the sum of all hints times the number of bindings, because the
  hint loop is nested inside a loop over one buffer per binding.

## Model

| member | source | states |
|---|---|---|
| PlyTypes.AliasesAgree | TinyplyCSharp/Tinyply.cs:235-246 | each long type name and its C alias ("char", "uchar", "short", "ushort", "int", "uint", "float", "double") map to the same type |
| PlyTypes.InvalidExactlyForUnknownNames | TinyplyCSharp/Tinyply.cs:235-246 | a name maps to INVALID exactly when it is not one of the sixteen names the function tests |
| PlyTypes.Strides | TinyplyCSharp/Tinyply.cs:112-123 | the strides are 1,1,2,2,4,4,4,8 and 0 for INVALID, and INVALID is the only zero-stride type |
| PlyTypes.NameRoundTrip | TinyplyCSharp/Tinyply.cs:112-123 | reading a type's table name back gives the type itself except UINT32, whose name "int" reads back as INT32; the stride is kept either way |
| Fnv.HashFnv1a | TinyplyCSharp/Tinyply.cs:220-233 | the loop computes FNV-1a over the string's UTF-16 code units: start at 0x811C9DC5, xor each unit in and multiply by 0x01000193 mod 2^32 |
| Fnv.Units | TinyplyCSharp/Tinyply.cs:226 | a character is one code unit below U+10000 and a surrogate pair above, every unit below 2^16 |
| Fnv.Utf16 | TinyplyCSharp/Tinyply.cs:226 | a string has at least one code unit per character |
| Fnv.Utf16Append | TinyplyCSharp/Tinyply.cs:226 | the code units of a concatenation are those of its parts |
| Fnv.Utf16OfBmp | TinyplyCSharp/Tinyply.cs:226 | a string below U+10000, such as every name read from a header, is one code unit per character, each its code |
| Fnv.SurrogateRounds | TinyplyCSharp/Tinyply.cs:226-230 | U+1D11E is hashed in two rounds, 0xD834 then 0xDD1E |
| Fnv.FoldAppend | TinyplyCSharp/Tinyply.cs:220-233 | hashing a concatenation is hashing the second part from the state the first part left |
| Fnv.BindingKey | TinyplyCSharp/Tinyply.cs:690 | the key of (element, property) is the hash of the element name continued over the property name's code units |
| Fnv.KeyOfSplitNames | TinyplyCSharp/Tinyply.cs:739 | keys are computed on the concatenated names, so ("ab","c") and ("a","bc") share a key |
| Endian.SwappedBytesReverse | TinyplyCSharp/Tinyply.cs:132-187 | each ToUIntN / swap / GetBytes formula reverses the N bytes it is applied to |
| Endian.SwapAtReverses | TinyplyCSharp/Tinyply.cs:132-187 | swapping a value in place at an offset reverses that value's bytes and leaves every other byte of the buffer as it was |
| Endian.Swap16Reverses | TinyplyCSharp/Tinyply.cs:132-139 | the 16-bit shift formula writes the two bytes back in reverse order |
| Endian.Swap32Reverses | TinyplyCSharp/Tinyply.cs:141-147 | the 32-bit shift-and-mask formula writes the four bytes back in reverse order |
| Endian.Swap64Reverses | TinyplyCSharp/Tinyply.cs:149-162 | the 64-bit shift-and-mask formula writes the eight bytes back in reverse order |
| Endian.EndianSwapBuffer | TinyplyCSharp/Tinyply.cs:209-217 | the in-place loop leaves the array equal to the swap function of its old contents, and reports whether every chunk fitted |
| Endian.CopyInto | TinyplyCSharp/Tinyply.cs:209-217 | copying bytes into an array at an offset changes exactly that window |
| Endian.SwapFromIsReverseFrom | TinyplyCSharp/Tinyply.cs:209-217 | the swap loop with a typed swapper is the chunk reversal loop with that swapper's width |
| Endian.ReverseFromChunks | TinyplyCSharp/Tinyply.cs:209-217 | when the remaining length is a whole number of chunks, the loop reverses each chunk and keeps the prefix |
| Endian.SwapFromCompletes | TinyplyCSharp/Tinyply.cs:209-217 | swapping a whole buffer succeeds exactly when its length is a whole number of strides |
| Endian.SwapBufferReversesChunks | TinyplyCSharp/Tinyply.cs:209-217 | swapping a buffer of whole values reverses the bytes of each stride-sized chunk |
| Endian.ReverseFromWhole | TinyplyCSharp/Tinyply.cs:209-217 | the chunk loop over a whole buffer is the chunk reversal |
| Endian.ReverseReverse | TinyplyCSharp/Tinyply.cs:132-187 | reversing bytes twice restores them |
| Endian.ReverseChunksTwice | TinyplyCSharp/Tinyply.cs:569-591 | swapping twice restores the buffer |
| Endian.ReverseChunksKeepsTail | TinyplyCSharp/Tinyply.cs:212 | bytes at or beyond numBytes are unchanged |
| Endian.ReverseChunksAt | TinyplyCSharp/Tinyply.cs:212-216 | byte j of the chunk at a stride offset becomes byte stride-1-j of that chunk |
| Text.Latin1 | TinyplyCSharp/Tinyply.cs:248-280 | each byte becomes the character with that code |
| Text.WordFrom | TinyplyCSharp/Tinyply.cs:282-302 | the word scan never moves backwards, keeps the word read so far as a prefix and yields no whitespace |
| Text.NextWord | TinyplyCSharp/Tinyply.cs:282-302 | ReadWord yields a word without whitespace and a position at or after the start |
| Text.ReadWord | TinyplyCSharp/Tinyply.cs:282-302 | the character loop returns the word and position of the word function |
| Text.WordFromAt | TinyplyCSharp/Tinyply.cs:282-302 | an ascii word followed by whitespace is read whole, and the separator is consumed |
| Text.WordFromAtEnd | TinyplyCSharp/Tinyply.cs:282-302 | an ascii word that ends the text is read whole |
| Text.WordSkipsWhite | TinyplyCSharp/Tinyply.cs:282-302 | leading whitespace is skipped |
| Text.ReadWordOf | TinyplyCSharp/Tinyply.cs:282-302 | ReadWord at an ascii word followed by whitespace returns that word and the position after the separator |
| Text.LineFrom | TinyplyCSharp/Tinyply.cs:248-280 | the line scan moves forward, yields no line break, and at the end of the stream yields nothing only for an empty line |
| Text.NextLine | TinyplyCSharp/Tinyply.cs:248-280 | ReadLine yields null exactly at the end of the stream, and otherwise a line without line breaks after which the position has advanced |
| Text.ReadLine | TinyplyCSharp/Tinyply.cs:248-280 | the character loop returns the line and position of the line function |
| Text.LineBreaks | TinyplyCSharp/Tinyply.cs:255-277 | after a run without line breaks a line ends at the end of the stream, at `\n`, or at `\r` that also swallows a following `\n` |
| Text.LineFromAt | TinyplyCSharp/Tinyply.cs:248-280 | text up to a `\n` is read as one line and the position moves past the `\n` |
| Text.SkipWhite | TinyplyCSharp/Tinyply.cs:882 | Trim's left edge: the first non-whitespace character or the end |
| Text.DropWhiteEnd | TinyplyCSharp/Tinyply.cs:882 | Trim's right edge: just after the last non-whitespace character |
| Text.Trim | TinyplyCSharp/Tinyply.cs:882 | a trimmed line is empty or starts and ends with non-whitespace |
| Text.TrimOfTrimmed | TinyplyCSharp/Tinyply.cs:882 | trimming a trimmed line changes nothing |
| Text.Utf8Char | TinyplyCSharp/Tinyply.cs:1114-1162 | a character's encoding takes 1 to 4 bytes, and an ascii character is its own byte |
| Text.Utf8Multi | TinyplyCSharp/Tinyply.cs:1114-1162 | a non-ascii code point takes 2 to 4 bytes |
| Text.Encode | TinyplyCSharp/Tinyply.cs:1114-1162 | an encoded string has at least one byte per character |
| Text.EncodeAppend | TinyplyCSharp/Tinyply.cs:1114-1162 | encoding distributes over concatenation |
| Text.ByteChar | TinyplyCSharp/Tinyply.cs:248-280 | an ascii character survives the byte round trip |
| Text.EncodeAscii | TinyplyCSharp/Tinyply.cs:883-886 | reading the encoding of an ascii string back gives the string |
| Decimal.DigitChar | TinyplyCSharp/Tinyply.cs:1294-1343 | a digit's character has that digit's value |
| Decimal.ShowNat | TinyplyCSharp/Tinyply.cs:1294-1343 | a number's decimal text is non-empty digits without a leading zero |
| Decimal.ParseInteger | TinyplyCSharp/Tinyply.cs:785-840 | only non-empty text parses |
| Decimal.ParseInRange | TinyplyCSharp/Tinyply.cs:785-840 | a parse succeeds exactly when the text is an integer in range, and fails naming the text otherwise |
| Decimal.DigitsValueOfShowNat | TinyplyCSharp/Tinyply.cs:1294-1343 | a number's digits read back as the number |
| Decimal.ParseShowInt | TinyplyCSharp/Tinyply.cs:788-818 | an integer written in ascii reads back as itself (see also lines 1294-1325) |
| Decimal.ShowIntIsPlain | TinyplyCSharp/Tinyply.cs:1294-1325 | an integer's text is non-empty signs and digits, so it is one word |
| Bytes.Pow256 | TinyplyCSharp/Tinyply.cs:919-950 | 256^n is positive, and at least 256 for n >= 1 |
| Bytes.LeBytes | TinyplyCSharp/Tinyply.cs:1345-1351 | GetBytes yields exactly n bytes |
| Bytes.LeValueBound | TinyplyCSharp/Tinyply.cs:919-950 | n little-endian bytes hold a value below 256^n |
| Bytes.ByteRoundTrip | TinyplyCSharp/Tinyply.cs:919-950 | a value below 256 survives the cast to a byte |
| Bytes.LeValueOfBytes | TinyplyCSharp/Tinyply.cs:1345-1351 | the bytes of a value read back as the value mod 256^n |
| Bytes.BytesOfLeValue | TinyplyCSharp/Tinyply.cs:919-950 | decoding then encoding n bytes gives them back |
| Bytes.SignedRoundTrip | TinyplyCSharp/Tinyply.cs:919-950 | BitConverter.ToIntN inverts GetBytes over the signed range |
| Bytes.Int32Wrap | TinyplyCSharp/Tinyply.cs:1005 | C#'s unchecked int product: the result is in the int32 range, congruent to the exact value mod 2^32, and equal to it when that is in range |
| Bytes.UnsignedRoundTrip | TinyplyCSharp/Tinyply.cs:919-950 | BitConverter.ToUIntN inverts GetBytes over the unsigned range |
| Schema.FindEntry | TinyplyCSharp/Tinyply.cs:852-858 | a key lookup finds nothing exactly when the key is absent, and otherwise an entry with that key |
| Schema.FindEntryUnique | TinyplyCSharp/Tinyply.cs:852-858 | with unique keys the lookup of an entry's key yields that entry's helper |
| Schema.KeysOf | TinyplyCSharp/Tinyply.cs:513-525 | the count of keys sharing a helper is zero exactly when none does |
| Schema.FindElement | TinyplyCSharp/Tinyply.cs:309-320 | the index of the first element with that name, or -1 exactly when there is none |
| Schema.FindProperty | TinyplyCSharp/Tinyply.cs:322-334 | the index of the first property with that name, or -1 exactly when there is none |
| Schema.LookupOf | TinyplyCSharp/Tinyply.cs:848-866 | a property is skipped exactly when its key is unbound; its strides are the type's, and the list stride is 0 for a scalar |
| Schema.LookupRow | TinyplyCSharp/Tinyply.cs:846-870 | one lookup per property of the element, in declaration order |
| Schema.MakePropertyLookupTable | TinyplyCSharp/Tinyply.cs:842-874 | one row per element, in order |
| Schema.LookupTableHelpers | TinyplyCSharp/Tinyply.cs:842-874 | every helper the table names is in the arena and bound |
| Header.ParseElement | TinyplyCSharp/Tinyply.cs:338-342 | a parsed element has the next word as its name, an int32 size and no properties |
| Header.ParseProperty | TinyplyCSharp/Tinyply.cs:74-86 | a parsed property has no list counts, and a scalar has an INVALID list type |
| Header.AddToLastElement | TinyplyCSharp/Tinyply.cs:1103-1107 | only the last element changes, and it gains the property at its end |
| Header.HeaderFrom | TinyplyCSharp/Tinyply.cs:876-898 | the loop never moves the stream backwards, and it returns true only if the success flag stayed set |
| Header.AfterLine | TinyplyCSharp/Tinyply.cs:880-895 | after a line the loop goes on from beyond that line |
| Header.ParseHeader | TinyplyCSharp/Tinyply.cs:876-898 | the stream position after the header is within the text |
| Header.HeaderLineKeepsBindings | TinyplyCSharp/Tinyply.cs:882-895 | a header line changes no binding and no helper |
| Header.TokenLineKeepsBindings | TinyplyCSharp/Tinyply.cs:886-895 | whatever keyword starts the line, no binding and no helper changes |
| Header.HeaderFromKeepsBindings | TinyplyCSharp/Tinyply.cs:876-898 | the header loop leaves the bindings and helpers as it found them |
| ParseFacts.UnknownWords | TinyplyCSharp/Tinyply.cs:887-894 | the keyword chain tells a word apart exactly when it is one of the nine it tests |
| ParseFacts.KeywordFromMiss | TinyplyCSharp/Tinyply.cs:887-894 | a word that no remaining keyword matches is unknown |
| ParseFacts.SkippedLine | TinyplyCSharp/Tinyply.cs:887 | empty, "ply" and "PLY" lines change nothing and the loop goes on |
| ParseFacts.CommentLine | TinyplyCSharp/Tinyply.cs:888 | a comment stores the trimmed line minus its first 8 characters; a shorter line throws (see also lines 1109-1112) |
| ParseFacts.ObjInfoLine | TinyplyCSharp/Tinyply.cs:892 | obj_info stores the trimmed line minus its first 9 characters; a shorter line throws (see also lines 1109-1112) |
| ParseFacts.FormatLine | TinyplyCSharp/Tinyply.cs:889 | binary_big_endian sets both flags, binary_little_endian sets IsBinary only, anything else neither; nothing else changes (see also lines 1091-1096) |
| ParseFacts.ElementLine | TinyplyCSharp/Tinyply.cs:890 | an element line appends the element named by its second word, or throws leaving the document as it was (see also lines 1098-1101) |
| ParseFacts.PropertyLine | TinyplyCSharp/Tinyply.cs:891 | a property line appends to the last element only, and throws when there is none (see also lines 1103-1107) |
| ParseFacts.EndHeaderLine | TinyplyCSharp/Tinyply.cs:893 | end_header changes nothing and ends the loop |
| ParseFacts.UnknownLine | TinyplyCSharp/Tinyply.cs:894 | an unknown first word changes nothing, makes the result false and the loop goes on |
| ParseFacts.UnknownLineContinues | TinyplyCSharp/Tinyply.cs:876-898 | after an unknown line scanning continues, and ParseHeader can no longer return true |
| ParseFacts.StopsAfterEndHeader | TinyplyCSharp/Tinyply.cs:893 | the loop stops right after the end_header line (see also lines 897) |
| ParseFacts.AbortStops | TinyplyCSharp/Tinyply.cs:876-898 | an exception ends the loop with the document as the earlier lines left it |
| ParseFacts.StopsAtEnd | TinyplyCSharp/Tinyply.cs:880 | the end of the stream ends the loop with the success flag so far (see also lines 897) |
| PlyWrite.Chunk | TinyplyCSharp/Tinyply.cs:1345-1351 | a copy of n bytes from an offset succeeds exactly when the window is inside the source, and yields that window |
| PlyWrite.BufferOf | TinyplyCSharp/Tinyply.cs:1239 | a helper without a buffer throws, otherwise its bytes are used (see also lines 1281) |
| PlyWrite.BinaryProperty | TinyplyCSharp/Tinyply.cs:1270-1288 | a missing buffer throws; a scalar writes exactly the PropStride buffer bytes at the ByteOffset and moves past them; a list writes the first ListStride bytes of the little-endian int ListCounts[i], then the PropStride * ListCounts[i] buffer bytes at the ByteOffset, the product wrapped to a 32-bit int as C# does, and moves past those (see also lines 1345-1351) |
| PlyWrite.AsciiValue | TinyplyCSharp/Tinyply.cs:1294-1343 | a value is written only for a valid type whose bytes are inside the buffer |
| PlyWrite.ValueTexts | TinyplyCSharp/Tinyply.cs:1237-1240 | the texts of n values stored one after the other, one per value |
| PlyWrite.ValueTextsAt | TinyplyCSharp/Tinyply.cs:1237-1240 | the k-th text is the text of the value k strides on |
| PlyWrite.ValueTextsStep | TinyplyCSharp/Tinyply.cs:1237-1240 | the k-th text from an offset is the (k-1)-th from the next value |
| PlyWrite.ValueTextsHead | TinyplyCSharp/Tinyply.cs:1237-1240 | the first text is the text of the value at the offset |
| PlyWrite.ValueTextsNth | TinyplyCSharp/Tinyply.cs:1237-1240 | the k-th text is the text of the value reached after k strides from the offset |
| PlyWrite.AdvanceIs | TinyplyCSharp/Tinyply.cs:1342 | k strides of s from an offset end at offset + s * k |
| PlyWrite.Terminated | TinyplyCSharp/Tinyply.cs:1341 | texts each followed by a separator are at least that many separators long |
| PlyWrite.AsciiValues | TinyplyCSharp/Tinyply.cs:1237-1240 | writing n list values succeeds exactly when there is a buffer (or none is needed) and every value has a text; the output is each value's text followed by a space, and the offset advances by n strides (see also lines 1341-1342) |
| PlyWrite.AsciiProperty | TinyplyCSharp/Tinyply.cs:1229-1246 | a scalar writes its value's text followed by a space and moves one stride; a list writes its count, a space, then each value's text followed by a space (see also lines 1294-1343) |
| PlyWrite.EmitAt | TinyplyCSharp/Tinyply.cs:1229-1246 | writing one bound property keeps the writer state well formed |
| PlyWrite.PropsOut | TinyplyCSharp/Tinyply.cs:1227-1247 | the property loop keeps the writer state well formed |
| PlyWrite.InstancesOut | TinyplyCSharp/Tinyply.cs:1224-1249 | the instance loop keeps the writer state well formed |
| PlyWrite.ElementsOut | TinyplyCSharp/Tinyply.cs:1221-1251 | the element loop keeps the writer state well formed |
| PlyWrite.ResetOffsets | TinyplyCSharp/Tinyply.cs:599-603 | every bound helper's ByteOffset becomes 0 and nothing else changes |
| PlyWrite.WriteStart | TinyplyCSharp/Tinyply.cs:597-609 | the document Write starts from is well formed |
| PlyWrite.Write | TinyplyCSharp/Tinyply.cs:597-622 | Write changes only the helpers (cursors), sets the chosen format and clears IsBigEndian, keeps the document well formed, and its bytes start with the encoded header |
| WriteFacts.PrefixFrom | TinyplyCSharp/Tinyply.cs:1227-1247 | the longest run of bound properties from j on |
| WriteFacts.PropsOutFrom | TinyplyCSharp/Tinyply.cs:1227-1247 | because `continue` skips propertyIdx++, the property loop writes only the leading run of bound properties (see also lines 1231) |
| WriteFacts.PropsOutIsPrefix | TinyplyCSharp/Tinyply.cs:1227-1247 | each instance writes exactly the longest bound prefix of its element's properties (see also lines 1270-1288) |
| WriteFacts.OffsetsOnlyTrans | TinyplyCSharp/Tinyply.cs:1254-1292 | "only bound ByteOffsets changed" composes |
| WriteFacts.EmitAtFrame | TinyplyCSharp/Tinyply.cs:1294-1351 | writing a property changes only a bound helper's ByteOffset |
| WriteFacts.PropsOutFrame | TinyplyCSharp/Tinyply.cs:1227-1247 | the property loop changes only bound ByteOffsets |
| WriteFacts.InstancesOutFrame | TinyplyCSharp/Tinyply.cs:1224-1249 | the instance loop changes only bound ByteOffsets |
| WriteFacts.ElementsOutFrame | TinyplyCSharp/Tinyply.cs:1221-1251 | the payload changes only bound ByteOffsets |
| WriteFacts.WriteTwice | TinyplyCSharp/Tinyply.cs:597-622 | writing the document Write left behind gives the same bytes and the same document again |
| HeaderFacts.TypeNameIsWord | TinyplyCSharp/Tinyply.cs:112-123 | every type name is one ascii word other than "list" |
| HeaderFacts.PlyParses | TinyplyCSharp/Tinyply.cs:1116 | the "ply" line written is skipped by the parser (see also lines 887) |
| HeaderFacts.EndHeaderParses | TinyplyCSharp/Tinyply.cs:1161 | the end_header line written ends the parse (see also lines 893) |
| HeaderFacts.FormatParses | TinyplyCSharp/Tinyply.cs:1117-1124 | the format line written sets the flags it was written from (see also lines 1091-1096) |
| HeaderFacts.CommentParses | TinyplyCSharp/Tinyply.cs:1126-1131 | a written comment line stores the comment (see also lines 1109-1112) |
| HeaderFacts.EmptyCommentAborts | TinyplyCSharp/Tinyply.cs:1126-1131 | an empty comment is written as "comment " which trims to 7 characters, so reading it back throws (see also lines 1109-1112) |
| HeaderFacts.ElementParses | TinyplyCSharp/Tinyply.cs:1137 | a written element line appends that element, without properties (see also lines 1098-1101) |
| HeaderFacts.ListPropertyReads | TinyplyCSharp/Tinyply.cs:1144-1148 | a written list property line parses to the same list property (see also lines 74-86) |
| HeaderFacts.ScalarPropertyReads | TinyplyCSharp/Tinyply.cs:1150-1153 | a written scalar property line parses to the same scalar property (see also lines 74-86) |
| HeaderFacts.PropertyParses | TinyplyCSharp/Tinyply.cs:1139-1157 | a written property line is appended to the last element (see also lines 1103-1107) |
| HeaderFacts.NextLineAt | TinyplyCSharp/Tinyply.cs:248-280 | a line followed by `\n` is read whole and the stream moves past it |
| HeaderFacts.LinesAppend | TinyplyCSharp/Tinyply.cs:1114-1162 | writing lines distributes over concatenation |
| HeaderFacts.StepsAppend | TinyplyCSharp/Tinyply.cs:876-898 | two runs of header steps compose when the first ends where the second starts |
| HeaderFacts.LinesRun | TinyplyCSharp/Tinyply.cs:876-898 | the loop over lines that each continue lands where the last step left the document |
| HeaderFacts.HeaderLineMoves | TinyplyCSharp/Tinyply.cs:876-898 | each line that continues moves the loop forward by its length plus one |
| HeaderFacts.EndHeaderAt | TinyplyCSharp/Tinyply.cs:893 | the loop at "end_header\n" returns true, is past that line and has the document unchanged (see also lines 897) |
| HeaderFacts.CommentsStep | TinyplyCSharp/Tinyply.cs:1126-1131 | the written comment lines append exactly those comments |
| HeaderFacts.PropertiesStep | TinyplyCSharp/Tinyply.cs:1139-1157 | the written property lines add the bound properties to the last element |
| HeaderFacts.ElementBlockStep | TinyplyCSharp/Tinyply.cs:1137-1157 | an element's line and its property lines append the element with its bound properties |
| HeaderFacts.ElementsStep | TinyplyCSharp/Tinyply.cs:1133-1159 | the element blocks append every element with its bound properties |
| HeaderFacts.HeaderLinesAre | TinyplyCSharp/Tinyply.cs:1114-1162 | the header is its lines, each followed by `\n`, then end_header |
| HeaderFacts.HeaderStepsFor | TinyplyCSharp/Tinyply.cs:876-898 | under any line step that treats ply, format, comment, element and property lines as the loop does, the lines before end_header take the empty document to the parsed form of the written one (see also lines 1114-1162) |
| HeaderFacts.StopsAtEndHeader | TinyplyCSharp/Tinyply.cs:876-898 | lines that carry the document from one state to another, then end_header: the parse returns that state and true, and stops right after the end_header line, whatever follows |
| HeaderFacts.HeaderBodyRuns | TinyplyCSharp/Tinyply.cs:876-898 | the loop runs over the written lines to the parsed document |
| HeaderFacts.HeaderRoundTrip | TinyplyCSharp/Tinyply.cs:876-898 | parsing the written header, whatever follows it, returns true, stops right after end_header, and yields the written format, comments, elements and bound properties (see also lines 1114-1162) |
| HeaderFacts.Latin1Append | TinyplyCSharp/Tinyply.cs:257 | reading bytes one character per byte splits at any point of the stream |
| HeaderFacts.LinesAscii | TinyplyCSharp/Tinyply.cs:1114-1162 | lines of ASCII text, each with its line break, are ASCII |
| HeaderFacts.CommentTextsAscii | TinyplyCSharp/Tinyply.cs:1126-1131 | the comment lines of writable comments are ASCII |
| HeaderFacts.PropertyTextsAscii | TinyplyCSharp/Tinyply.cs:1139-1157 | the property lines of an element with whitespace-free ASCII names are ASCII |
| HeaderFacts.ElementTextsAscii | TinyplyCSharp/Tinyply.cs:1135-1159 | the element and property lines of writable elements are ASCII |
| HeaderFacts.HeaderTextsAscii | TinyplyCSharp/Tinyply.cs:1116-1159 | every line of a writable header is ASCII |
| HeaderFacts.LinesEndAscii | TinyplyCSharp/Tinyply.cs:1161 | the header lines followed by end_header are ASCII |
| HeaderFacts.HeaderAscii | TinyplyCSharp/Tinyply.cs:1114-1162 | a writable header is ASCII, so it is written one byte per character |
| HeaderFacts.WrittenHeaderReadsBack | TinyplyCSharp/Tinyply.cs:597-622 | the bytes Write returns, read by a fresh ParseHeader one character per byte, give back the schema written: the chosen format (little-endian when binary), the comments, every element with its bound properties; the parse returns true and stops right after end_header (see also lines 876-898) |
| Registry.MissingKeys | TinyplyCSharp/Tinyply.cs:671-682 | the names listed in the exception are exactly the requested ones the element lacks |
| Registry.PropertyNamed | TinyplyCSharp/Tinyply.cs:686-687 | the property found for a key has that name |
| Registry.BindFrom | TinyplyCSharp/Tinyply.cs:684-691 | the insertion loop only appends entries, all for the one new helper, and changes neither count, buffer nor cursor |
| Registry.NewProperty | TinyplyCSharp/Tinyply.cs:738 | an added property has the given name and type, and is a list exactly when a list type is given |
| Registry.CreateFrom | TinyplyCSharp/Tinyply.cs:734-742 | the creation loop only appends entries and creates at most one property per key |
| Registry.UniformCounts | TinyplyCSharp/Tinyply.cs:766-773 | the list-count overload gives every instance the same count, and no counts for a count of 0 |
| Registry.NewEntries | TinyplyCSharp/Tinyply.cs:684-691 | one entry per key, keyed on element + property, all pointing at the same helper |
| Registry.FreshSplit | TinyplyCSharp/Tinyply.cs:690 | keys are fresh from k on exactly when key k is absent and the rest are fresh after inserting it |
| Registry.BindFromFresh | TinyplyCSharp/Tinyply.cs:684-691 | with no key taken, the loop inserts one entry per key and does not throw |
| Registry.BindFromHelper | TinyplyCSharp/Tinyply.cs:688-689 | T and IsList of the shared helper come from the last key |
| Registry.BindFromTaken | TinyplyCSharp/Tinyply.cs:690 | inserting a key that is already present throws |
| Registry.RequestSucceeds | TinyplyCSharp/Tinyply.cs:624-716 | a request succeeds exactly when there are elements, both keys are non-empty, the element and all properties exist, no key is taken and all types agree; it then adds one entry per key sharing one new helper (Count = Size, no buffer, T and IsList of the last key) |
| Registry.RequestRefusalsKeepState | TinyplyCSharp/Tinyply.cs:628-682 | no elements, an empty key, an unknown element or unknown properties throw without touching the document, and the message lists every missing name (see also lines 711-714) |
| Registry.MixedTypesKeepBindings | TinyplyCSharp/Tinyply.cs:684-709 | with mixed types the request throws only after the entries were inserted |
| Registry.RequestTwiceFails | TinyplyCSharp/Tinyply.cs:690 | requesting the same (element, property) again throws a duplicate key |
| Registry.RequestKeepsWellFormed | TinyplyCSharp/Tinyply.cs:624-716 | a request, successful or not, keeps keys unique and every entry inside the arena |
| Registry.BindNoDuplicates | TinyplyCSharp/Tinyply.cs:684-691 | the insertion loop keeps keys unique |
| Registry.NewProperties | TinyplyCSharp/Tinyply.cs:736-741 | one new property per key, in key order |
| Registry.CreateFromFresh | TinyplyCSharp/Tinyply.cs:734-742 | with no key taken, one entry per key is inserted and nothing throws |
| Registry.CreateFromProperties | TinyplyCSharp/Tinyply.cs:734-742 | with no key taken, one property per key is created |
| Registry.CreateFromTaken | TinyplyCSharp/Tinyply.cs:739 | a key that is already present throws a duplicate key |
| Registry.AddPropertiesSucceeds | TinyplyCSharp/Tinyply.cs:719-756 | adding succeeds exactly when no key is taken; it always adds one helper, and on success one entry per key, the properties appended to the existing element or a new element of that size |
| Registry.AddPropertiesRefuses | TinyplyCSharp/Tinyply.cs:739 | a taken key throws a duplicate key and no element is created (see also lines 744-755) |
| Registry.CreateFromKeepsUnique | TinyplyCSharp/Tinyply.cs:734-742 | the insertion loop adds only absent keys, all on the new helper, whether or not it stops at a duplicate |
| Registry.AddPropertiesKeepsWellFormed | TinyplyCSharp/Tinyply.cs:719-757 | adding properties, successful or not, keeps keys unique and every entry inside the arena |
| DataPass.ReadBytes | TinyplyCSharp/Tinyply.cs:777-783 | ReadBytes yields the next bytes, fewer only at the end of the stream, and throws only for a negative count |
| DataPass.CopyAt | TinyplyCSharp/Tinyply.cs:777-783 | Array.Copy succeeds exactly when the window is inside dest, and changes exactly that window |
| DataPass.ListCountWith | TinyplyCSharp/Tinyply.cs:919-950 | reading a list count stays inside the stream |
| DataPass.ListCountAsWritten | TinyplyCSharp/Tinyply.cs:919-950 | the count read as written stays inside the stream |
| DataPass.ListCountBinary | TinyplyCSharp/Tinyply.cs:919-950 | the count read with its bytes swapped stays inside the stream |
| DataPass.ListCountAscii | TinyplyCSharp/Tinyply.cs:952-980 | an ascii count stays inside the text |
| DataPass.SkipBinary | TinyplyCSharp/Tinyply.cs:982-1010 | a binary skip stays inside the stream, and a scalar skip returns PropStride and keeps listSize; a list's count is the as-written little-endian decode, and its length PropStride * count is wrapped to a 32-bit int as C# does |
| DataPass.SkipWords | TinyplyCSharp/Tinyply.cs:1012-1044 | skipping words stays inside the text |
| DataPass.SkipAscii | TinyplyCSharp/Tinyply.cs:1012-1044 | an ascii skip stays inside the text, and a scalar skip returns PropStride and keeps listSize; a list returns count * PropStride wrapped to a 32-bit int |
| DataPass.ReadPropertyBinary | TinyplyCSharp/Tinyply.cs:777-783 | the destination keeps its length and the offset advances by the stride |
| DataPass.ReadBinary | TinyplyCSharp/Tinyply.cs:982-1010 | a binary read keeps the destination length and stays inside the stream; a list's count is the as-written little-endian decode, and its length PropStride * count is wrapped to a 32-bit int as C# does |
| DataPass.ReadPropertyAscii | TinyplyCSharp/Tinyply.cs:785-840 | the destination keeps its length, the offset advances by the stride, and an INVALID type throws |
| DataPass.ReadValuesAscii | TinyplyCSharp/Tinyply.cs:1021-1024 | reading list values keeps the destination length |
| DataPass.ReadAscii | TinyplyCSharp/Tinyply.cs:1012-1044 | an ascii read keeps the destination length and stays inside the text |
| DataPass.BinarySkipper | TinyplyCSharp/Tinyply.cs:982-1010 | the binary skip delegate is the binary skip (list counts read as written) and stays in the stream |
| DataPass.BinaryReader | TinyplyCSharp/Tinyply.cs:982-1010 | the binary read delegate is the binary read (list counts read as written) and stays in the stream |
| DataPass.AsciiSkipper | TinyplyCSharp/Tinyply.cs:1012-1044 | the ascii skip delegate is the ascii skip |
| DataPass.AsciiReader | TinyplyCSharp/Tinyply.cs:1012-1044 | the ascii read delegate is the ascii read |
| DataPass.SameLayoutTrans | TinyplyCSharp/Tinyply.cs:1067-1070 | differing only in list counts is transitive |
| DataPass.SameLayoutSym | TinyplyCSharp/Tinyply.cs:1067-1070 | differing only in list counts is symmetric |
| DataPass.AppendListCount | TinyplyCSharp/Tinyply.cs:1067-1070 | recording a list count changes no element's shape |
| DataPass.AddTotal | TinyplyCSharp/Tinyply.cs:1065 | only helper h's TotalSizeBytes changes, by n |
| DataPass.SetFilled | TinyplyCSharp/Tinyply.cs:1074 | only helper h's buffer and ByteOffset change |
| DataPass.PropStep | TinyplyCSharp/Tinyply.cs:1058-1081 | one property step keeps the state inside the stream and the arena |
| DataPass.PropsFrom | TinyplyCSharp/Tinyply.cs:1056-1082 | the property loop keeps the state inside the stream and the arena |
| DataPass.InstancesFrom | TinyplyCSharp/Tinyply.cs:1053-1083 | the instance loop keeps the state inside the stream and the arena |
| DataPass.ElementsFrom | TinyplyCSharp/Tinyply.cs:1051-1085 | the element loop keeps the state inside the stream and the arena |
| DataPass.LookupTableFits | TinyplyCSharp/Tinyply.cs:842-874 | the lookup table has the document's shape and names only bound helpers in the arena |
| DataPass.PassCtx | TinyplyCSharp/Tinyply.cs:904-1045 | a pass uses the document's lookup table and delegates that stay in the stream; a binary pass uses the binary delegates, which read list counts as written |
| DataPass.ParseData | TinyplyCSharp/Tinyply.cs:904-1089 | a pass changes only helpers and elements, and keeps the document well formed |
| ListCounts.AsWrittenIgnoresOrder | TinyplyCSharp/Tinyply.cs:919-950 | as written, the count is decoded the same way whatever the byte order |
| ListCounts.SwapCountTwoBytes | TinyplyCSharp/Tinyply.cs:209-217 | the swap loop over a two-byte count exchanges its two bytes |
| ListCounts.AsWrittenMisreadsBigEndian | TinyplyCSharp/Tinyply.cs:926 | a big-endian UINT16 count of 3 (bytes 0,3) is read as 768 as written, and as 3 once swapped |
| ListCounts.OneByteCount | TinyplyCSharp/Tinyply.cs:941-944 | an INT8 or UINT8 count is its one byte read unsigned, in either byte order, and the stream moves one byte |
| ListCounts.OtherCountKeepsSize | TinyplyCSharp/Tinyply.cs:945-946 | a count of float or INVALID type leaves the list size at its previous value |
| ListCounts.CountSwapper | TinyplyCSharp/Tinyply.cs:919-950 | the swapper for a count type has its width |
| ListCounts.ReverseOneChunk | TinyplyCSharp/Tinyply.cs:209-217 | swapping one value's bytes reverses them |
| ListCounts.SwapCountOfBigEndian | TinyplyCSharp/Tinyply.cs:919-950 | swapping a big-endian count's bytes gives its little-endian bytes |
| ListCounts.BigEndianCountRoundTrip | TinyplyCSharp/Tinyply.cs:925-950 | a big-endian count of a two- or four-byte type decodes to its value once swapped (the one-byte types are ListCounts.OneByteCount) |
| ListCounts.AsWrittenCountRoundTrip | TinyplyCSharp/Tinyply.cs:919-950 | the count both passes read: a count stored little-endian decodes to its value and the stream moves past it, whatever byte order the header declares |
| ListCounts.LittleEndianCountRoundTrip | TinyplyCSharp/Tinyply.cs:919-950 | a little-endian count decodes to its value |
| ListCounts.WrappedListSkipsNothing | TinyplyCSharp/Tinyply.cs:982-1010 | an INT32 list whose UINT32 count is 2^30 has length 4 * 2^30, which wraps to 0: the skipper moves past the count only and measures 0, and the reader copies nothing |
| PassFacts.TablesAgree | TinyplyCSharp/Tinyply.cs:842-874 | recording list counts does not change the lookup table |
| PassFacts.ReadAfterSkip | TinyplyCSharp/Tinyply.cs:982-1010 | a binary read succeeds where the skip did, advances the offset by what the skip counted and ends where it ended |
| PassFacts.BinaryCoherent | TinyplyCSharp/Tinyply.cs:982-1010 | the binary delegates move forward and reads agree with skips |
| PassFacts.GrowsTrans | TinyplyCSharp/Tinyply.cs:1065 | "totals only grow" composes |
| PassFacts.BelowBefore | TinyplyCSharp/Tinyply.cs:1065 | a bound on the final totals bounds earlier ones |
| PassFacts.StepGrows | TinyplyCSharp/Tinyply.cs:1063-1071 | a first-pass step only adds to TotalSizeBytes |
| PassFacts.PropsGrow | TinyplyCSharp/Tinyply.cs:1056-1082 | the first-pass property loop only adds to TotalSizeBytes |
| PassFacts.InstancesGrow | TinyplyCSharp/Tinyply.cs:1053-1083 | the first-pass instance loop only adds to TotalSizeBytes |
| PassFacts.ElementsGrow | TinyplyCSharp/Tinyply.cs:1051-1085 | the first pass only adds to TotalSizeBytes |
| PassFacts.KeepsTrans | TinyplyCSharp/Tinyply.cs:1072-1075 | "layout and totals kept" composes |
| PassFacts.StepKeeps | TinyplyCSharp/Tinyply.cs:1072-1075 | a second-pass step keeps element shapes, list counts and totals |
| PassFacts.PropsKeep | TinyplyCSharp/Tinyply.cs:1056-1082 | the second-pass property loop keeps list counts and totals |
| PassFacts.InstancesKeep | TinyplyCSharp/Tinyply.cs:1053-1083 | the second-pass instance loop keeps list counts and totals |
| PassFacts.ElementsKeep | TinyplyCSharp/Tinyply.cs:1051-1085 | the second pass keeps list counts and totals (ListCounts is filled only in the first pass) |
| PassFacts.StepSim | TinyplyCSharp/Tinyply.cs:1058-1081 | with coherent delegates (the binary ones, `BinaryCoherent`), a second-pass step succeeds where the first-pass one did, at the same position, and copies at ByteOffset exactly the bytes the first pass counted |
| PassFacts.FirstStepBelow | TinyplyCSharp/Tinyply.cs:1056-1082 | a first-pass loop within the final totals takes a first step within them |
| PassFacts.PropsSim | TinyplyCSharp/Tinyply.cs:1056-1082 | with coherent delegates, the second-pass property loop follows the first |
| PassFacts.PropsSimStep | TinyplyCSharp/Tinyply.cs:1056-1082 | with coherent delegates, one property of the second pass follows the first |
| PassFacts.InstancesSim | TinyplyCSharp/Tinyply.cs:1053-1083 | with coherent delegates, the second-pass instance loop follows the first |
| PassFacts.ElementsSim | TinyplyCSharp/Tinyply.cs:1051-1085 | with coherent delegates (the binary ones; the ascii ones are not, see `ReadFacts.AsciiSkipOutrunsRead`), the second pass follows the first: it succeeds, and each ByteOffset ends at the TotalSizeBytes the first pass counted |
| PlyRead.HintSumZero | TinyplyCSharp/Tinyply.cs:496-503 | hints that are not negative sum to zero exactly when each is zero |
| PlyRead.TwoPassesWhen | TinyplyCSharp/Tinyply.cs:496-508 | for hints that are not negative, Read takes two passes exactly when there is no binding or every hint is zero |
| PlyRead.Zeros | TinyplyCSharp/Tinyply.cs:49-53 | a new buffer is n zero bytes |
| PlyRead.WithBuffer | TinyplyCSharp/Tinyply.cs:539-550 | allocating changes only the helper's buffer |
| PlyRead.AllocateFrom | TinyplyCSharp/Tinyply.cs:533-553 | the allocation loop keeps the arena's size |
| PlyRead.Allocate | TinyplyCSharp/Tinyply.cs:533-553 | allocation keeps the arena's size |
| PlyRead.AllocateKeeps | TinyplyCSharp/Tinyply.cs:537 | a helper that already has a buffer is left alone |
| PlyRead.AllocateOne | TinyplyCSharp/Tinyply.cs:537-551 | a missing buffer gets the planned size |
| PlyRead.AllocateFromSpec | TinyplyCSharp/Tinyply.cs:533-553 | the loop from binding i on succeeds exactly when every later missing buffer has a non-negative size, and then allocates them all |
| PlyRead.AllocateSpec | TinyplyCSharp/Tinyply.cs:496-555 | allocation succeeds exactly when every needed size is non-negative; each missing buffer gets TotalSizeBytes (two-pass) or Count * Stride * hint-or-1 * keys sharing it, zero-filled; other helpers are kept |
| PlyRead.SwapperOf | TinyplyCSharp/Tinyply.cs:566-591 | the switch picks a swapper of the type's width for every multi-byte type and none for 1-byte and INVALID types |
| PlyRead.SwapBufferSpec | TinyplyCSharp/Tinyply.cs:561-594 | a buffer swaps exactly when it exists and holds whole values; each value's bytes are reversed, 1-byte types are untouched, and nothing else changes |
| PlyRead.SwapBufferTwice | TinyplyCSharp/Tinyply.cs:561-594 | swapping a buffer twice restores it |
| PlyRead.SwapAllFrom | TinyplyCSharp/Tinyply.cs:563-593 | the swap loop keeps the arena's size |
| PlyRead.SwapAll | TinyplyCSharp/Tinyply.cs:563-593 | the swap keeps the arena's size |
| PlyRead.SwapSkips | TinyplyCSharp/Tinyply.cs:530 | a helper shared with an earlier binding is not swapped again (Distinct) |
| PlyRead.SwapOne | TinyplyCSharp/Tinyply.cs:563-593 | the first binding of a helper swaps it |
| PlyRead.SwapAllFromSpec | TinyplyCSharp/Tinyply.cs:563-593 | the swap loop from binding i on succeeds exactly when every later binding's buffer swaps, and each bound helper is swapped once |
| PlyRead.SwapAllSpec | TinyplyCSharp/Tinyply.cs:561-594 | the big-endian swap succeeds exactly when every bound buffer swaps; each bound helper is swapped once and the others are untouched |
| PlyRead.Prepare | TinyplyCSharp/Tinyply.cs:496-555 | the first pass and allocation change only helpers and elements |
| PlyRead.Read | TinyplyCSharp/Tinyply.cs:487-595 | Read changes only helpers and elements and keeps the document well formed |
| ReadFacts.Totals | TinyplyCSharp/Tinyply.cs:452 | the TotalSizeBytes of every helper |
| ReadFacts.FirstPassMeasures | TinyplyCSharp/Tinyply.cs:505-508 | for a fresh binary document without hints, the first pass keeps buffers and ByteOffsets, only adds to TotalSizeBytes and yields sizes allocation accepts (see also lines 1063-1071) |
| ReadFacts.AllocationFits | TinyplyCSharp/Tinyply.cs:537-546 | for a fresh binary document, after a first pass every bound buffer gets exactly the measured TotalSizeBytes, its ByteOffset still 0 |
| ReadFacts.PassesStart | TinyplyCSharp/Tinyply.cs:504-558 | for a fresh binary document, the two passes start level: same layout and position, and every offset within its total |
| ReadFacts.TwoPassFills | TinyplyCSharp/Tinyply.cs:504-558 | after a two-pass read of a binary stream every bound cursor's ByteOffset equals its buffer's length, which is the measured TotalSizeBytes, and the list counts are those of the first pass (see also lines 1072-1075) |
| ReadFacts.ReadTwoPass | TinyplyCSharp/Tinyply.cs:487-595 | for a fresh binary document, a two-pass Read succeeds where the first pass does (big-endian: where each buffer swaps) and fills every bound buffer |
| ReadFacts.AsciiSkipOutrunsRead | TinyplyCSharp/Tinyply.cs:1012-1042 | for a scalar integer whose word is not a number, the ascii skipper moves past the word while the ascii reader throws BadNumber for it, so an ascii first pass can succeed where the second throws |
| ReadFacts.AsciiSkipOutrunsReadAt | TinyplyCSharp/Tinyply.cs:1012-1042 | the word "x" in an INT32 column is skipped by the first pass and refused by the second |
| ReadFacts.ReadWithHints | TinyplyCSharp/Tinyply.cs:539-555 | with hints the pass is skipped: allocation succeeds exactly when the planned sizes are non-negative, and ListCounts stays as it was |
| GroupFacts.InstanceIsSlice | TinyplyCSharp/Tinyply.cs:1056-1082 | one instance's properties, each PropStride bytes in header order, are exactly the stream bytes they cover |
| GroupFacts.InterleavedIsSlice | TinyplyCSharp/Tinyply.cs:1051-1085 | an element's instances laid one after the other, each property's bytes in header order, are exactly the stream bytes they cover |
| GroupFacts.SplicedIsCopy | TinyplyCSharp/Tinyply.cs:777-783 | writing the stream's bytes one at a time at the offset is Array.Copy of the stream's slice into the buffer |
| GroupFacts.SplicedTwice | TinyplyCSharp/Tinyply.cs:777-783 | copying a bytes and then the rest of n at the advanced offset is copying n |
| GroupFacts.MeasureStep | TinyplyCSharp/Tinyply.cs:995-1001 | the first pass over a bound scalar adds its PropStride to the helper's TotalSizeBytes and moves past it, or throws when the stream is shorter (see also line 1065) |
| GroupFacts.CopyStep | TinyplyCSharp/Tinyply.cs:982-987 | the second pass over a bound scalar copies its PropStride bytes into the helper's buffer at ByteOffset and advances both (see also line 1074) |
| GroupFacts.PropsMeasure | TinyplyCSharp/Tinyply.cs:1056-1082 | the first pass over one instance of a grouped element adds the instance's bytes to the helper's total, or throws exactly when the stream is shorter |
| GroupFacts.PropsCopy | TinyplyCSharp/Tinyply.cs:1056-1082 | the second pass over one instance copies its bytes, property after property, into the helper's buffer |
| GroupFacts.InstancesMeasure | TinyplyCSharp/Tinyply.cs:1053-1083 | the first pass over the instances adds Span(size, row bytes) to the total, or throws exactly when the stream is shorter (none for a negative size) |
| GroupFacts.InstancesCopy | TinyplyCSharp/Tinyply.cs:1053-1083 | the second pass over the instances copies their bytes, instance after instance, into the helper's buffer |
| GroupFacts.GroupOnTable | TinyplyCSharp/Tinyply.cs:842-874 | the lookup row of an element whose properties are all bound to one helper names that helper, with each property's stride, for every property |
| GroupFacts.GroupedHelper | TinyplyCSharp/Tinyply.cs:858-866 | the helper a property is bound to is in the arena and bound |
| GroupFacts.GroupedFirstPass | TinyplyCSharp/Tinyply.cs:1051-1085 | the measuring pass over a binary document of one grouped element succeeds exactly when the stream holds the element's bytes, and then only adds them to the helper's TotalSizeBytes |
| GroupFacts.ElementCopies | TinyplyCSharp/Tinyply.cs:1051-1085 | a copying pass over one grouped element copies the element's bytes into its helper |
| GroupFacts.GroupedCopy | TinyplyCSharp/Tinyply.cs:1051-1085 | the copying pass over a binary document of one grouped element changes only that helper, copying the element's bytes at its ByteOffset |
| GroupFacts.CopiedBuffer | TinyplyCSharp/Tinyply.cs:1074 | the buffer after the copy is the old bytes before the offset, the instances one after the other, and the old bytes after them |
| GroupFacts.GroupedPrepare | TinyplyCSharp/Tinyply.cs:505-553 | for a fresh document of one grouped element, the first pass and allocation succeed exactly when the stream holds the element's bytes, and give the helper a zeroed buffer of that size with ByteOffset 0 |
| GroupFacts.LittleEndianRead | TinyplyCSharp/Tinyply.cs:556-595 | without the big-endian flag, Read is Prepare followed by the copying pass, with no swap |
| GroupFacts.GroupedRead | TinyplyCSharp/Tinyply.cs:487-595 | Read of a fresh little-endian document of one grouped element fails exactly when the stream is shorter than size * row bytes; otherwise the helper's buffer is the instances, one after the other, each property's bytes in header order, and its cursor stands at the end |
| GroupWrite.WGroupOnTable | TinyplyCSharp/Tinyply.cs:1262-1274 | the lookup row of a grouped element binds every property to the one helper with its type's stride |
| GroupWrite.BinaryStep | TinyplyCSharp/Tinyply.cs:1283-1285 | a bound scalar writes its PropStride buffer bytes at the ByteOffset and moves past them, or throws when they are not in the buffer (see also lines 1345-1351) |
| GroupWrite.BinaryEmits | TinyplyCSharp/Tinyply.cs:1283-1285 | every property of a grouped element writes its bytes, from every writer state |
| GroupWrite.AsciiStep | TinyplyCSharp/Tinyply.cs:1242-1245 | a bound scalar of a valid type writes its value's text and a space and moves one stride, or throws when the value is not in the buffer (see also lines 1294-1343) |
| GroupWrite.AsciiEmits | TinyplyCSharp/Tinyply.cs:1242-1245 | every property of a grouped element writes its text, from every writer state |
| GroupWrite.PropsRow | TinyplyCSharp/Tinyply.cs:1227-1247 | the property loop of one instance writes each property's cell in header order and moves the ByteOffset past the row, or throws when the buffer is short |
| GroupWrite.RowsEmit | TinyplyCSharp/Tinyply.cs:1227-1247 | every instance of a grouped element writes its row |
| GroupWrite.InstanceCons | TinyplyCSharp/Tinyply.cs:1224-1249 | one instance writes its row and then the instance's end (a line break in ascii, nothing in binary) |
| GroupWrite.InstancesRows | TinyplyCSharp/Tinyply.cs:1224-1249 | the instance loop writes the remaining rows, each followed by the instance's end, and moves the ByteOffset past them; it throws exactly when the buffer is shorter |
| GroupWrite.OneElementOut | TinyplyCSharp/Tinyply.cs:1221-1251 | a document of one element writes that element's instances |
| GroupWrite.ResetHelper | TinyplyCSharp/Tinyply.cs:599-603 | after Write resets the cursors, a bound helper keeps its buffer and its ByteOffset is 0 |
| GroupWrite.GroupedPayload | TinyplyCSharp/Tinyply.cs:1221-1251 | the payload of a grouped element is its reps rows, and fails exactly when the buffer is shorter than reps * row bytes |
| GroupWrite.BinaryRowIsSlices | TinyplyCSharp/Tinyply.cs:1270-1288 | the binary cells of an instance are its properties' buffer bytes in header order |
| GroupWrite.BinaryRowsInterleaved | TinyplyCSharp/Tinyply.cs:1267-1289 | the binary rows are the instances laid one after the other, as the reader copies them |
| GroupWrite.WriteOf | TinyplyCSharp/Tinyply.cs:597-622 | Write fails exactly when its payload loop does, and otherwise returns the document with the loop's helpers and the encoded header followed by the loop's output (see also lines 1215-1219, 1254-1262) |
| GroupWrite.GroupedElementOut | TinyplyCSharp/Tinyply.cs:1215-1292 | in the context Write builds, a grouped element writes its rows from ByteOffset 0 |
| GroupWrite.BinaryRowsAreSlice | TinyplyCSharp/Tinyply.cs:1264-1291 | the binary rows of reps instances are the buffer's first reps * row bytes |
| GroupWrite.GroupedWrite | TinyplyCSharp/Tinyply.cs:597-622 | Write of a grouped element fails exactly when the buffer is shorter than reps * row bytes; otherwise it returns the header followed by the rows and leaves the ByteOffset after them |
| GroupWrite.GroupedBinaryWrite | TinyplyCSharp/Tinyply.cs:1254-1292 | binary Write of a grouped element fails exactly when the buffer is shorter than size * row bytes; otherwise its bytes are the encoded header followed by exactly that many leading bytes of the buffer, the twin of GroupFacts.GroupedRead (see also lines 597-609) |
| GroupWrite.GroupedAsciiWrite | TinyplyCSharp/Tinyply.cs:1215-1251 | ascii Write of a grouped element fails exactly when the buffer is shorter than size * row bytes; otherwise its bytes are the encoded header and then, for each instance, each property's text followed by a space and a line break after the instance (see also lines 1294-1343) |
| AsciiFacts.SignedBytes | TinyplyCSharp/Tinyply.cs:1302-1319 | the two's-complement reading of 2 or 4 bytes is in the type's range and BitConverter.GetBytes of it gives the bytes back (see also lines 793-813) |
| AsciiFacts.UnsignedBytes | TinyplyCSharp/Tinyply.cs:1308-1325 | the unsigned reading of bytes is in range and GetBytes of it gives the bytes back (see also lines 800-820) |
| AsciiFacts.IntWordReads | TinyplyCSharp/Tinyply.cs:785-820 | an integer's text followed by a space is read as that word, the stream moves past the space, and the word parses to the integer |
| AsciiFacts.ReadsByte | TinyplyCSharp/Tinyply.cs:789-792 | an INT8 or UINT8 word in range stores its byte at the destination offset |
| AsciiFacts.ReadsWide | TinyplyCSharp/Tinyply.cs:793-820 | a 16- or 32-bit word in range copies its little-endian bytes to the destination offset |
| AsciiFacts.ReadsBack | TinyplyCSharp/Tinyply.cs:785-840 | reading an integer value's text stores the bytes that stand for it, moves the destination one stride and the stream past the space |
| AsciiFacts.IntText | TinyplyCSharp/Tinyply.cs:1294-1325 | an integer value is written as the number its bytes stand for (unsigned for the one-byte types), which the reader accepts for the type and stores as the same bytes |
| AsciiFacts.WrittenIntText | TinyplyCSharp/Tinyply.cs:1294-1342 | the text written for an integer value and its space is ASCII, so the reader sees it one character per byte |
| AsciiFacts.AsciiIntRoundTrip | TinyplyCSharp/Tinyply.cs:785-820 | what the ascii writer emits for an integer value, followed by a space, ReadPropertyAscii reads back as exactly the bytes it was written from, leaving the rest of the destination alone (see also lines 1294-1343) |
| PlyFile.PlyFileImpl.constructor | TinyplyCSharp/Tinyply.cs:447-485 | a new PlyFileImpl has no elements, comments, bindings or helpers, is ascii, and is well formed |
| PlyFile.PlyFileImpl.ParseHeader | TinyplyCSharp/Tinyply.cs:876-898 | the line loop leaves the object, the result and the stream position exactly as the header function computes them, and keeps the object well formed |
| PlyFile.PlyFileImpl.RequestPropertiesFromElement | TinyplyCSharp/Tinyply.cs:624-716 | the object and result are those of the request function, whose behaviour Registry.RequestSucceeds and its neighbours pin down, and a well-formed object stays well formed |
| PlyFile.PlyFileImpl.AddPropertiesToElement | TinyplyCSharp/Tinyply.cs:758-775 | the object and failure are those of the add function (the overload with one list count for all instances), and a well-formed object stays well formed |
| PlyFile.PlyFileImpl.Read | TinyplyCSharp/Tinyply.cs:487-595 | on success the object is what Read computes; otherwise the same exception is reported; either way the object is well formed |
| PlyFile.PlyFileImpl.Write | TinyplyCSharp/Tinyply.cs:597-622 | on success the object is what Write computes and the bytes are those written; otherwise the same exception is reported; either way the object is well formed |

## Findings

| source | as written | input that shows it | evidently intended | confidence | as-written member | corrected member |
|---|---|---|---|---|---|---|
| TinyplyCSharp/Tinyply.cs:919-950 | the big-endian list count is swapped with `numBytes` 0, so the swap loop at line 212 never runs and the count is decoded little-endian | a big-endian UINT16 count of 3, bytes [0, 3], is read as 768 | the count's own bytes are swapped before decoding, as the buffers are after the pass | not executed | DataPass.ListCountAsWritten, ListCounts.AsWrittenMisreadsBigEndian | DataPass.ListCountBinary, ListCounts.BigEndianCountRoundTrip |

The skip and read delegates, and with them both passes, read counts as written
(`DataPass.ListCountAsWritten`), so the model reads a big-endian file with wide list
counts the way the program does. `DataPass.ListCountBinary` is the intended decode,
and `ListCounts.BigEndianCountRoundTrip` is proved about it alone. For little-endian
streams, and for one-byte counts (the usual `uchar`), the two are the same.

## Left out

- Stream plumbing. `MemoryStream`, `BinaryReader`, `StreamWriter` and `FileStream`
  are left out, and so are `Flush` and `Close`. The input is a byte sequence with a
  position; the output is the byte sequence written.
- Text.ReadLine: header text is read one byte per character (`Text.Latin1`), where
  `BinaryReader.ReadChar` decodes UTF-8. So non-ASCII comments and names differ: the
  comment bytes C3 A9 of "café" are kept as "cafÃ©", not "café", and the writer
  then encodes that comment as 7 bytes, not 5.
- Text.ReadWord: words are read one byte per character, and each byte at or above
  0x80 becomes U+FFFD. The source reads one UTF-8 code point per `stream.Read()` and
  keeps the first character that `GetChars` makes of its four little-endian bytes.
  So the word "é" read from ascii data is one U+FFFD in the source and two in the
  model, and a code point such as U+0101 becomes '\u0001' in the source. A header
  word is worse off: the header line is first read one byte per character and then
  encoded again as UTF-8 before its words are read (Tinyply.cs:883). So "é" in a
  header becomes four U+FFFD in the model, against one in the source.
- Text.Trim and Text.IsWhiteSpace: whitespace is the ASCII whitespace only.
  `String.Trim` and `Char.IsWhiteSpace` also take U+0085, U+00A0 and the other
  Unicode spaces.
- Registry.CreateFrom: every property that one `AddPropertiesToElement` call
  creates shares one `List<int> listCounts` object (Tinyply.cs:738, stored by
  reference at line 100). A later first-pass `ListCounts.Add` (line 1069) on one of
  them therefore appends to all of them. The model gives each property its own copy
  of the list.
- Floating point. Ascii FLOAT32 and FLOAT64 parsing (`Convert.ToSingle`,
  `Convert.ToDouble`) and formatting are opaque parameters (`Floats.FloatText`).
  Binary floats are copied bytes and are modelled.
- `Convert.ToInt32` and friends. Culture and whitespace leniency are not modelled:
  a parse is an optional sign and decimal digits, with the type's range check.
- The generic `Specializer<T>` dispatch. It is a choice of swapper by type
  (`PlyRead.SwapperOf`).
- `Dictionary` enumeration order. Bindings are taken in insertion order. The
  results of allocation and swapping do not depend on the order.
- Buffer aliasing. A `PlyData` handed to the caller is the helper's index in the
  arena, not a shared reference, so callers reading the buffer through their own
  reference are not modelled.
- int32 overflow. The cursor arithmetic (`TotalSizeBytes`, `ByteOffset`, buffer
  sizes) is unbounded integers; the source's 32-bit wrap there is not modelled.
  The list lengths `PropStride * count` (Tinyply.cs:991, 1005, 1037 and 1281) are
  wrapped as the source wraps them (`Bytes.Int32Wrap`): an INT32 list whose UINT32
  count is 2^30 has length 0, so nothing after the count is skipped, measured or
  copied (`ListCounts.WrappedListSkipsNothing`). Only the sums those lengths are
  added into stay unbounded.
  Nor is the wrap of the `listHints` sum (Tinyply.cs:496-503): four bindings with
  hint 2^30 give 4 * (4 * 2^30) = 2^34, which is 0 in int32, so the source takes two
  passes where `PlyRead.ListHints` is non-zero and the model takes one.
- ReadFacts.TwoPassFills and the other `ReadFacts` two-pass results are for binary
  streams only. An ascii two-pass read has no result about success or about
  filling the buffers: the ascii skipper reads a scalar's word without parsing it
  (Tinyply.cs:1037-1042) while the reader parses it (Tinyply.cs:1012-1024), so the
  second pass can throw where the first succeeded
  (`ReadFacts.AsciiSkipOutrunsRead`).
- `PlyFile.PlyFileImpl.Read`: the state left behind by an exception in the data pass
  or the swap is not stated. Only the exception is stated. The source leaves partly
  filled buffers behind.
- `PlyFile.PlyFileImpl.Write`: the state left behind by an exception while writing
  is not stated. Only the exception is stated.
- `PlyFile.PlyFileImpl.AddPropertiesToElement` models the overload with one list
  count for every instance (Tinyply.cs:758-775). The overload with an explicit
  list-count list (Tinyply.cs:719-757) is `Registry.AddProperties`, proved about but
  not exposed as a method.
- The keyword if-chain of `ParseHeader` is a keyword table (`Header.KeywordOf`),
  tried in the same order.
- The payload round trip is proved only in pieces. The header comes back
  (`HeaderFacts.WrittenHeaderReadsBack`). The binary payload of a grouped element is
  the buffer's leading bytes (`GroupWrite.GroupedBinaryWrite`), and reading them is
  `GroupFacts.GroupedRead`. One ascii integer value comes back
  (`AsciiFacts.AsciiIntRoundTrip`). No lemma chains a whole `Write` into a `Read`.
- AsciiFacts.AsciiIntRoundTrip covers the integer types only. Float text is an
  opaque parameter (`Floats.FloatText`), so nothing says a written float parses back
  to the same bytes.
- `obj_info` lines are parsed but not written, as in the source. They are therefore
  not in the header round trip.
- GroupFacts.GroupedRead: the buffer's contents are stated for a document of one
  element whose properties are all scalars bound to one helper, read in two passes
  from a little-endian stream. GroupWrite.GroupedBinaryWrite and
  GroupWrite.GroupedAsciiWrite state the written bytes for the same kind of document
  only. For binary streams, several elements, list properties, several helpers
  per element and the big-endian swap are covered only by the size and offset
  results (`ReadFacts.TwoPassFills`, `PlyRead.SwapAllSpec`). The hinted one-pass read
  has only `ReadFacts.ReadWithHints`, and ascii streams have no such result (see the
  `ReadFacts.TwoPassFills` line).
- The public `PlyFile` wrapper class (Tinyply.cs:355-445) only forwards to
  `PlyFileImpl` and is not modelled separately.
- The example program and the unit tests (TinyplyCSharpExample, TinyplyCSharpTest)
  are drivers that do file I/O and are not part of this model.
