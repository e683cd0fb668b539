# rust_tokio_examples, modelled in Dafny

This project models the parts of the `rust_tokio_examples` repository that
compute something. The repository is a collection of small Rust examples.

Its centre is the JPEG marker-segment scanner in `rust_crate_nom_01`. It
covers reading the start-of-image marker, the APP0 (JFIF), SOF0/SOF2, COM,
DHT, DQT and SOS segments, skipping entropy-coded data with byte stuffing,
and reading at most 32 segments with `many_m_n`. Beside it come the examples
written with the same parser library:

- the `Task` binary codec, whose deserializer reports its own error type;
- the borrowed-slice readers of `nom_ref.rs`.

The model also covers the small examples that the large ones stand on:

- an even-number iterator;
- `Cow` rewrites;
- interior mutability with `Cell` and a naive reference counter, and a
  graph of shared nodes;
- a counting stream and a collecting sink;
- the game `Character` shared by three crates, and the `Describe` trait;
- five ways of doubling the first number of a list;
- serde post-processing (variant choice, field validators, host names);
- standard ranges;
- `add` and `sub` with their tests;
- an `Envelop`/`Letter` conversion.

## Layout

The project has one module per concern.

- **Shared modules:**
  - `Ints` holds the Rust integer types as subset types, and the big- and
    little-endian byte forms.
  - `Wrappers` holds `Option` and `Result`.
  - `Utf8` models `String::from_utf8`'s well-formedness check and its
    `valid_up_to`.
  - `Decimal` models `i32`'s `Display` and `str::parse::<i32>`.
- **`Nom`** models the nom 7 complete-input combinators the examples call, on
  byte slices:
  - `take`, `be_u16`, `le_u64`, `take_while`, `length_data`,
    `length_count` and `count`;
  - `many_m_n`;
  - `IResult` with `Error`, `Failure`, `Incomplete`, plus a `Panic` outcome
    for the debug-build panics of the code above it.
- **`Jpeg`** models `rust_crate_nom_01/src/main.rs`. `TaskCodec` models
  `examples/context.rs` and `NomRef` models `examples/nom_ref.rs`.
- **One module per small example:**
  - `EvenIterator`, `CowDemo`, `InteriorMut`, `StreamSink`, `Game`,
    `DescribeTrait` and `DoubleFirst`;
  - `CustomDe`, `ValidateField` and `HostnameDe`;
  - `Ranges`, `Arith` and `Envelop`.

Where the source changes state in place, the model uses a class with those
fields. This covers the byte vector the serializer extends, the iterator's
cursor, the cells and nodes, the stream and sink, the game characters, and
the boxed range. Pure code becomes functions.

Panics are modelled in two ways:

- `requires` clauses on the operation when the source would panic on its
  input (`i32` overflow, `unwrap` on `None`);
- an explicit `Panic` outcome where the panic sits inside the JPEG scanner:
  `segment_size - 2` on a `u16` below 2, and indexing a SOF2 frame shorter
  than 6 bytes.

## Model

| member | source | states |
|---|---|---|
| Ints.FromBe16 | rust_crate_nom_01/src/main.rs:227-230 | a big-endian u16 is 256 × its first byte plus its second |
| Ints.ToBe16 | rust_crate_nom_01/examples/context.rs:47 | `to_be_bytes` gives two bytes that read back as the value |
| Ints.FromBe16Injective | rust_crate_nom_01/src/main.rs:227-230 | two byte pairs with the same big-endian value are equal |
| Ints.FromLeToLe | rust_crate_nom_01/examples/context.rs:46-52 | reading back little-endian bytes gives the number written |
| Ints.ToLeFromLe | rust_crate_nom_01/examples/context.rs:112 | writing the number read from little-endian bytes gives those bytes |
| Ints.ToLe64RoundTrip | rust_crate_nom_01/examples/context.rs:46-52 | `from_le_bytes(to_le_bytes(x)) == x` for u64 |
| Ints.FromLe64RoundTrip | rust_crate_nom_01/examples/context.rs:112 | every 8 bytes are the little-endian form of the u64 `le_u64` reads |
| Utf8.CharWidth | rust_crate_nom_01/examples/context.rs:120 | the width of the next well-formed character (1 exactly for ASCII), 0 when ill-formed |
| Utf8.ValidUpTo | rust_crate_nom_01/examples/context.rs:120-123 | `valid_up_to` is at most the input length, and where it stops short the next character is ill formed, so no longer prefix of whole characters is well formed |
| Utf8.ValidUpToSpec | rust_crate_nom_01/examples/context.rs:120-123 | the input is well formed iff the valid prefix is all of it, and the valid prefix is well formed |
| Utf8.CharWidthPrefix | rust_crate_nom_01/examples/context.rs:120 | a character's width depends only on its own bytes |
| Utf8.AsciiIsValid | rust_crate_nom_01/examples/context.rs:147 | bytes below 0x80 are well-formed UTF-8 |
| Utf8.AsciiBytes | rust_crate_nom_01/examples/context.rs:147 | an ASCII string's bytes are its code points |
| Nom.IResult.MapErr | rust_crate_nom_01/src/main.rs:222-230 | mapping the error keeps success, the remaining input, the value, and an error's recoverability |
| Nom.IResult.Map | rust_crate_nom_01/src/main.rs:104-109 | `map` applies the function to the value and keeps the remaining input |
| Nom.Take | rust_crate_nom_01/src/main.rs:98-102 | `take(n)` succeeds iff n bytes remain; the value is those n bytes and the rest follows; otherwise `Eof` at the input |
| Nom.BeU16 | rust_crate_nom_01/src/main.rs:227-230 | succeeds iff 2 bytes remain, and the value's big-endian form is the bytes read |
| Nom.LeU64 | rust_crate_nom_01/examples/context.rs:112 | succeeds iff 8 bytes remain, and the value's little-endian form is the bytes read |
| Nom.TakeWhile | rust_crate_nom_01/src/main.rs:357 | the longest prefix whose bytes all satisfy the condition; never fails |
| Nom.LengthDataLeU64 | rust_crate_nom_01/examples/context.rs:118 | a u64 length then that many bytes; too short a prefix is `Eof`, too few data bytes is `Incomplete` with the number missing |
| Nom.LeU64Encoded | rust_crate_nom_01/examples/context.rs:112 | `le_u64` reads back `to_le_bytes` |
| Nom.BeU16Encoded | rust_crate_nom_01/examples/context.rs:113 | `be_u16` reads back `to_be_bytes` |
| Nom.LengthDataEncoded | rust_crate_nom_01/examples/context.rs:118 | `length_data(le_u64)` reads back a length-prefixed field |
| Nom.CountOf | rust_crate_nom_01/examples/nom_ref.rs:57-70 | `count(g, n)` returns exactly n outputs |
| Nom.LengthCountBeU16 | rust_crate_nom_01/examples/nom_ref.rs:57-70 | `length_count(be_u16, g)` returns as many outputs as the big-endian count says |
| Nom.ManyMNLoopStep | rust_crate_nom_01/src/main.rs:397 | a parse that consumes input is kept and the loop goes on |
| Nom.ManyMNLoopStop | rust_crate_nom_01/src/main.rs:397 | a recoverable error after at least `min` items ends the loop with what was collected |
| Nom.RunManyMN | rust_crate_nom_01/src/main.rs:397 | the loop of `many_m_n`, including its guard against a parser that consumes nothing, computes the recursive specification |
| Nom.SuffixTransitive | rust_crate_nom_01/src/main.rs:383-388 | a suffix of a suffix is a suffix |
| Nom.ChainExtend | rust_crate_nom_01/src/main.rs:397 | one more successful parse extends a chain of parses |
| Nom.ManyMNLoopOutcome | rust_crate_nom_01/src/main.rs:397 | for a parser that always advances and fails only recoverably, the loop succeeds unless it panics; it stops at `max` items or at the first error, and its items chain through the input |
| Nom.ManyMNZeroOutcome | rust_crate_nom_01/src/main.rs:397 | `many_m_n(0, max, p)` over such a parser returns at most `max` chained items, stopping at `max` or at the first error |
| Nom.ChainSuffix | rust_crate_nom_01/src/main.rs:397 | the input left after k-byte-advancing parses is a suffix, shorter by k times the number of items |
| Jpeg.TakeSoi | rust_crate_nom_01/src/main.rs:104-109 | true iff the two bytes taken are FF D8; fails iff fewer than two bytes |
| Jpeg.TakeSoi2 | rust_crate_nom_01/src/main.rs:127-142 | FF D8 is returned with the rest; any other pair is `InvalidSoi`; fewer than two bytes is `Nom(input, Eof)` |
| Jpeg.TakeSoi2RejectsEoi | rust_crate_nom_01/src/main.rs:84-89 | `take_soi_2(&[0xFF, 0xD9])` is `Error(InvalidSoi)` |
| Jpeg.GetDensityUnit | rust_crate_nom_01/src/main.rs:191-198 | codes 0, 1 and 2 map to the three units and back; any other is `"Unknown density unit"` |
| Jpeg.TakeBytes | rust_crate_nom_01/src/main.rs:255 | `take(n)` with the error mapped to `JpegParseSegmentsError::Nom` |
| Jpeg.TakeSegmentId2 | rust_crate_nom_01/src/main.rs:222-225 | the two marker bytes and the rest, or `Nom(input, Eof)` |
| Jpeg.TakeSegmentSize | rust_crate_nom_01/src/main.rs:227-230 | the big-endian size and the rest, or `Nom(input, Eof)` |
| Jpeg.TakePayload | rust_crate_nom_01/src/main.rs:311-312 | `take(segment_size - 2)`: panics exactly for a size below 2; otherwise succeeds iff the payload fits, with the first `size - 2` bytes and the rest after them, and a short input is `Nom(content, Eof)` |
| Jpeg.App0Segment | rust_crate_nom_01/src/main.rs:241-293 | APP0 never panics; success yields an `App` segment and a suffix of the input; errors are recoverable |
| Jpeg.App0Fields | rust_crate_nom_01/src/main.rs:254-293 | the same for the fixed 14-byte part and the thumbnail bytes after it |
| Jpeg.Sof0Segment | rust_crate_nom_01/src/main.rs:294-309 | SOF0 never panics; success yields a frame of type 0 and a suffix |
| Jpeg.Sof2Segment | rust_crate_nom_01/src/main.rs:310-323 | success yields a frame of type 2 and a suffix; errors are recoverable |
| Jpeg.ComSegment | rust_crate_nom_01/src/main.rs:325-334 | success yields a `Com` segment and a suffix; errors are recoverable |
| Jpeg.SkippedSegment | rust_crate_nom_01/src/main.rs:335-346 | DHT and DQT skip their payload and yield their tag |
| Jpeg.SkipEntropyCoded | rust_crate_nom_01/src/main.rs:354-368 | the byte-stuffing scan never panics and fails only recoverably |
| Jpeg.SkipEntropyCodedStopsAtMarker | rust_crate_nom_01/src/main.rs:354-368 | on success the rest starts with FF followed by a non-zero byte |
| Jpeg.ScanEntropyCoded | rust_crate_nom_01/src/main.rs:353-368 | the `loop` with its mutable cursor computes the recursive scan |
| Jpeg.MarkersAfterCut | rust_crate_nom_01/src/main.rs:354-368 | cutting a marker-free prefix keeps exactly the markers after it |
| Jpeg.MarkerInSuffix | rust_crate_nom_01/src/main.rs:354-368 | a marker in a suffix is a marker of the whole |
| Jpeg.NoMarkerInSuffix | rust_crate_nom_01/src/main.rs:354-368 | no marker before p in a suffix means none in the matching stretch of the whole |
| Jpeg.FirstMarkerAfterCut | rust_crate_nom_01/src/main.rs:354-368 | no marker before the cut and none before p after it means none before cut + p |
| Jpeg.SkipToFF | rust_crate_nom_01/src/main.rs:357 | `take_while(!= 0xFF)` stops at the first FF or the end |
| Jpeg.SkipToFirstFF | rust_crate_nom_01/src/main.rs:357 | the rest of `take_while(!= 0xFF)` starts at the first FF |
| Jpeg.SkipEntropyCodedStuffed | rust_crate_nom_01/src/main.rs:361-363 | a stuffed FF 00 is skipped and the scan continues after it |
| Jpeg.SkipEntropyCodedAtMarker | rust_crate_nom_01/src/main.rs:364-367 | the scan stops at the first FF not followed by 00, leaving it unread |
| Jpeg.SkipEntropyCodedFindsFirstMarker | rust_crate_nom_01/src/main.rs:354-368 | the scan succeeds iff a marker (FF then non-zero) exists; the rest starts at the first one |
| Jpeg.SosSegment | rust_crate_nom_01/src/main.rs:347-371 | SOS success yields `StartOfScan` and a suffix; errors are recoverable |
| Jpeg.TakeSegmentData | rust_crate_nom_01/src/main.rs:232-381 | success leaves a suffix; errors are recoverable; `UnhandledSegment(id)` exactly for the ids no arm handles |
| Jpeg.ReadSegment | rust_crate_nom_01/src/main.rs:383-388 | a success consumes the two id bytes at least; errors are recoverable |
| Jpeg.ReadSegmentUnfold | rust_crate_nom_01/src/main.rs:383-388 | `read_segment` dispatches on the first two bytes with the rest |
| Jpeg.ReadSegmentWellBehaved | rust_crate_nom_01/src/main.rs:383-388 | `read_segment` always advances by at least two bytes and fails only recoverably |
| Jpeg.ReadSegments | rust_crate_nom_01/src/main.rs:390-403 | `many_m_n(0, 32, read_segment)` always succeeds unless a segment panics; at most 32 chained segments; it stops at 32 or where `read_segment` fails; 2 bytes at least per segment |
| Jpeg.BareMarkers | rust_crate_nom_01/src/main.rs:237-240 | SOI and EOI consume only their marker |
| Jpeg.App0Layout | rust_crate_nom_01/src/main.rs:241-293 | APP0's outcome for each input: size below 14, too short, wrong `JFIF\0`, missing thumbnail bytes, or the decoded fields |
| Jpeg.Sof0Layout | rust_crate_nom_01/src/main.rs:294-309 | SOF0 reads the size and 8 bytes whatever the size says |
| Jpeg.ComLayout | rust_crate_nom_01/src/main.rs:325-334 | COM: panic below 2, `Eof` when short, else the payload bytes |
| Jpeg.TableLayout | rust_crate_nom_01/src/main.rs:335-346 | DHT and DQT: panic below 2, `Eof` when short, else the segment after its payload |
| Jpeg.Sof2Layout | rust_crate_nom_01/src/main.rs:310-323 | SOF2: panic below 2, `Eof` when short, index panic when the payload is under 6 bytes, else the frame |
| Jpeg.SosSegmentUnfold | rust_crate_nom_01/src/main.rs:347-371 | past its header the SOS arm is the entropy-coded scan, tagged `StartOfScan` |
| Jpeg.SosScan | rust_crate_nom_01/src/main.rs:347-371 | after a complete SOS header the segment succeeds iff a marker follows, and stops at the first |
| Jpeg.SosLayout | rust_crate_nom_01/src/main.rs:347-371 | SOS's outcome for each input |
| Jpeg.ExampleEntropyScan | rust_crate_nom_01/src/main.rs:354-368 | `x FF 00 y FF D9` stops at `FF D9` |
| Jpeg.DispatchSos | rust_crate_nom_01/src/main.rs:347 | id FF DA goes to the SOS arm |
| Jpeg.ExampleSos | rust_crate_nom_01/src/main.rs:347-371 | one SOS segment with stuffed data is read up to the EOI marker |
| Jpeg.ExampleFileSegments | rust_crate_nom_01/src/main.rs:383-388 | the segments of a minimal SOI, SOS, EOI file read one by one |
| Jpeg.ReadSegmentsExample | rust_crate_nom_01/src/main.rs:390-403 | `read_segments` on that file gives SOI, SOS, EOI and nothing left |
| TaskCodec.Encode | rust_crate_nom_01/examples/context.rs:45-56 | the wire form is 19 bytes plus the name |
| TaskCodec.ByteVec.Extend | rust_crate_nom_01/examples/context.rs:47 | `Vec::extend` appends |
| TaskCodec.ByteVec.Push | rust_crate_nom_01/examples/context.rs:52 | `Vec::push` appends one byte |
| TaskCodec.Serialize | rust_crate_nom_01/examples/context.rs:45-56 | succeeds iff the name length fits a u64, then appends the wire form; otherwise `InvalidNameLength`, after the id and index are already written |
| TaskCodec.DeserializeName | rust_crate_nom_01/examples/context.rs:117-125 | the name succeeds iff the length-prefixed bytes are well-formed UTF-8; it is those bytes |
| TaskCodec.Deserialize | rust_crate_nom_01/examples/context.rs:101-141 | never panics and never reports `InvalidBool`, since any non-zero byte is `true` |
| TaskCodec.DeserializeEncode | rust_crate_nom_01/examples/context.rs:143-164 | deserializing a serialized task gives it back with the rest untouched |
| TaskCodec.DeserializeIsEncoding | rust_crate_nom_01/examples/context.rs:101-141 | a successful decode read the task's wire form, with any non-zero flag byte for `true` |
| TaskCodec.DeserializeShortName | rust_crate_nom_01/examples/context.rs:117-118 | a name length past the end gives `Incomplete` with the bytes missing |
| TaskCodec.DemoMissingIndex | rust_crate_nom_01/examples/context.rs:166-176 | an id followed by one byte fails with `Nom([9], Eof)` at the index |
| TaskCodec.DeserializeNameFails | rust_crate_nom_01/examples/context.rs:101-141 | a failing name field is the failure of the record |
| TaskCodec.DeserializeNameInvalid | rust_crate_nom_01/examples/context.rs:117-125 | an ill-formed name is `Utf8Error` with the bytes and their valid prefix length |
| TaskCodec.DeserializeInvalidName | rust_crate_nom_01/examples/context.rs:178-196 | a record whose name is ill formed is `Utf8Error` |
| TaskCodec.LoneContinuation | rust_crate_nom_01/examples/context.rs:184-185 | `00 9F` is ill formed, valid up to 1 |
| NomRef.TakePair | rust_crate_nom_01/examples/nom_ref.rs:48 | two bytes as a pair, or `Eof` at the input |
| NomRef.ReadDoubleU16 | rust_crate_nom_01/examples/nom_ref.rs:46-55 | succeeds iff 4 bytes remain; the two pairs are bytes 0-1 and 2-3; `Eof` at the first short field |
| NomRef.ReadListU16 | rust_crate_nom_01/examples/nom_ref.rs:57-70 | for the big-endian count n, succeeds iff 2 + 2n bytes remain; the n items are the consecutive pairs after the count, and the rest follows them; fewer than 2 bytes is `Eof` at the input |
| NomRef.CountPairsStep | rust_crate_nom_01/examples/nom_ref.rs:57-70 | `count` puts the first pair in front of the others |
| NomRef.CountPairs | rust_crate_nom_01/examples/nom_ref.rs:57-70 | n pairs succeed iff 2n bytes remain; they are the consecutive chunks; a short one fails at the chunk where it starts |
| NomRef.CountPairsOk | rust_crate_nom_01/examples/nom_ref.rs:57-70 | the success half of the above |
| NomRef.CountPairsShort | rust_crate_nom_01/examples/nom_ref.rs:57-70 | the failure half of the above |
| NomRef.PairsShift | rust_crate_nom_01/examples/nom_ref.rs:57-70 | the chunks after the first are the chunks of the rest |
| NomRef.LengthCountPairs | rust_crate_nom_01/examples/nom_ref.rs:57-70 | `length_count(be_u16, pair)` reads the count n and then n consecutive two-byte chunks, failing iff they do not fit |
| NomRef.ReadListU16Short | rust_crate_nom_01/examples/nom_ref.rs:57-70 | a list cut short fails at the first short item |
| NomRef.DemoDouble | rust_crate_nom_01/examples/nom_ref.rs:21-29 | `0 1 3 0 …` reads as `[0, 1]`, `[3, 0]` and leaves the other four bytes |
| NomRef.DemoList | rust_crate_nom_01/examples/nom_ref.rs:32-42 | `0 3 0 x 0 y 0 z` reads as three pairs with nothing left |
| Decimal.DigitChar | rust_19_multiple_error_types/src/main.rs:5-6 | a digit's character reads back as the digit |
| Decimal.NatToString | rust_09_traits/src/main.rs:51-62 | `Display` for a natural number: non-empty digits without a leading zero |
| Decimal.NatToStringValue | rust_09_traits/src/main.rs:51-62 | the digits written read back as the number |
| Decimal.NatToStringInjective | rust_27_cow/src/main.rs:116-122 | distinct numbers print differently |
| Decimal.ScanDigits | rust_19_multiple_error_types/src/main.rs:5-6 | an accepted value never exceeds the limit |
| Decimal.ParseI32 | rust_19_multiple_error_types/src/main.rs:5-6 | success needs a non-empty digit string after an optional sign that scans within the sign's limit |
| Decimal.ScanDigitsSnoc | rust_19_multiple_error_types/src/main.rs:5-6 | scanning one more character extends the value by one digit, or fails |
| Decimal.ScanAllDigits | rust_19_multiple_error_types/src/main.rs:5-6 | a digit string scans to its value, or `TooLarge` past the limit |
| Decimal.ParseI32Digits | rust_19_multiple_error_types/src/main.rs:5-6 | a signed digit string parses to its value, or to the overflow error of its sign |
| Decimal.ParseIntToString | rust_09_traits/src/main.rs:51-62 | `parse::<i32>` reads back what `Display` printed, for every i32 |
| Decimal.ScanStopsAtNonDigit | rust_19_multiple_error_types/src/main.rs:5-6 | a non-digit after digits within range is `InvalidDigit` |
| Decimal.ScanRest | rust_19_multiple_error_types/src/main.rs:5-6 | scanning continues from the value of the prefix |
| Decimal.ScanFailed | rust_19_multiple_error_types/src/main.rs:5-6 | a failed prefix fails the whole |
| EvenIterator.NextEven | rust_15_iterator/src/main.rs:10-18 | the first even number at or after x |
| EvenIterator.EvenNumber.constructor | rust_15_iterator/src/main.rs:25-34 | the cursor starts at the given start, or 0 |
| EvenIterator.EvenNumber.Next | rust_15_iterator/src/main.rs:10-18 | returns the first even number at or after the cursor and moves past it |
| EvenIterator.EvenNumber0 | rust_15_iterator/src/main.rs:21-23 | starts at 0 |
| EvenIterator.EvensUpTo50 | rust_15_iterator/src/main.rs:40-53 | the loop sees consecutive even numbers from the first at or above the start, up to the first above 50 |
| CowDemo.ToMut | rust_27_cow/src/main.rs:96-103 | `to_mut` makes the value owned and keeps its contents |
| CowDemo.AbsAll | rust_27_cow/src/main.rs:96-103 | every element becomes its absolute value; the value stays borrowed iff it was borrowed with no negative |
| CowDemo.MatchShift | rust_27_cow/src/main.rs:105-114 | a match past a prefix is a match in the rest |
| CowDemo.ReplaceKeepsDotFreeHead | rust_27_cow/src/main.rs:105-114 | a dot-free text that heads the result of `replace(".txt", ".md")` heads the original too |
| CowDemo.ReplacedHead | rust_27_cow/src/main.rs:105-114 | a replaced occurrence starts with a dot |
| CowDemo.ReplaceRemovesTxt | rust_27_cow/src/main.rs:105-114 | no `.txt` is left after `replace(".txt", ".md")` |
| CowDemo.ReplaceAbsent | rust_27_cow/src/main.rs:105-114 | `replace` without an occurrence returns the string unchanged |
| CowDemo.RewriteDemo | rust_27_cow/src/main.rs:54-62 | `bar.txt` becomes owned `bar.md`; `bar.jpg` stays borrowed |
| CowDemo.ReplaceTxtExtToMdExt | rust_27_cow/src/main.rs:105-114 | owned iff the name ends with `.txt`; the owned text is the rewritten stem followed by `.md`, which is the stem plus `.md` when the stem has no `.txt`, and no `.txt` is left anywhere in it; any other name is lent back unchanged |
| CowDemo.ReplaceSuffix | rust_27_cow/src/main.rs:105-114 | for a name ending in `.txt`, `replace(".txt", ".md")` rewrites the stem and turns the final `.txt` into `.md` |
| CowDemo.ReplaceAppendTxt | rust_27_cow/src/main.rs:105-114 | `replace(".txt", ".md")` of any text followed by `.txt` is the rewritten text followed by `.md` |
| CowDemo.HowManyItems | rust_27_cow/src/main.rs:116-122 | 0 gives the borrowed `No more items`, 1 the borrowed `Last item available`; 2 or more give an owned text of decimal digits whose value is the count, then ` items remaining` |
| CowDemo.CountMessageHead | rust_27_cow/src/main.rs:116-122 | a formatted message starts with a digit |
| CowDemo.HowManyItemsInjective | rust_27_cow/src/main.rs:116-122 | different counts give different messages |
| CowDemo.TokenNew | rust_27_cow/src/main.rs:15-24 | the token keeps its text; it is borrowed iff made from a `&str` |
| InteriorMut.Cell.constructor | rust_29_interior_mut/src/main.rs:13-25 | `Cell::new` holds the value |
| InteriorMut.Cell.Set | rust_29_interior_mut/src/main.rs:63-67 | `Cell::set` replaces the value |
| InteriorMut.Foo | rust_29_interior_mut/src/main.rs:63-67 | `foo` adds 2 to the shared cell |
| InteriorMut.CellDemo | rust_29_interior_mut/src/main.rs:13-25 | after `foo` the cell is 2; the earlier read plus one then overwrites it with 1 |
| InteriorMut.NaiveRc.constructor | rust_29_interior_mut/src/main.rs:79-84 | the count starts at 1 in a fresh cell |
| InteriorMut.NaiveRc.Clone | rust_29_interior_mut/src/main.rs:95-101 | bumps this count and gives the clone a new cell with the bumped value |
| InteriorMut.NaiveRc.Copy | rust_29_interior_mut/src/main.rs:97-100 | the struct literal with a fresh cell |
| InteriorMut.RcDemo | rust_29_interior_mut/src/main.rs:30-36 | counts 1, then 2 and 2; a clone of the clone leaves the original at 2 |
| InteriorMut.Node.constructor | rust_29_interior_mut/src/main.rs:123-128 | a node starts without edges |
| InteriorMut.Node.AddAdjacent | rust_29_interior_mut/src/main.rs:131-136 | appends one edge and keeps the value |
| InteriorMut.FromNodes | rust_29_interior_mut/src/main.rs:144-146 | the graph lists the nodes given |
| InteriorMut.Neighbours | rust_29_interior_mut/src/main.rs:52-59 | the values of a node's neighbours, in edge order |
| InteriorMut.GraphDemo | rust_29_interior_mut/src/main.rs:39-60 | the printed graph is 1 → [2, 3], 2 → [1], 3 → [1] |
| StreamSink.MyStream.constructor | tokio_future_05/src/main.rs:87-91 | starts at 0 with the given max |
| StreamSink.MyStream.PollNext | tokio_future_05/src/main.rs:101-112 | ready with the next count up to max, then ready with the end |
| StreamSink.MyStream.SizeHint | tokio_future_05/src/main.rs:114-116 | no bounds promised |
| StreamSink.MySink.constructor | tokio_future_05/src/main.rs:130-134 | no data, no pending item |
| StreamSink.MySink.PollReady | tokio_future_05/src/main.rs:140-147 | always ready |
| StreamSink.MySink.StartSend | tokio_future_05/src/main.rs:149-155 | the item is kept until the flush |
| StreamSink.MySink.PollFlush | tokio_future_05/src/main.rs:157-164 | the pending item is appended |
| StreamSink.MySink.PollClose | tokio_future_05/src/main.rs:166-171 | always ready |
| StreamSink.MySink.Send | tokio_future_05/src/main.rs:202-209 | `send` appends exactly the item |
| StreamSink.Drain | tokio_future_05/src/main.rs:194-200 | the `while let` loop sees 1, …, max |
| StreamSink.Pump | tokio_future_05/src/main.rs:202-209 | the sink ends with 1, …, max |
| StreamSink.FirstPoll | tokio_future_05/src/main.rs:187-191 | the first poll is ready with 1 |
| Game.Damage | rustgdb_1/src/main.rs:21-23 | the damage is at least `damage - armor` and never negative, and is one of the two |
| Game.Character.constructor | rustgdb_1/src/main.rs:4-11 | the struct literal |
| Game.Character.Wizard | rustgdb_1/src/main.rs:30-39 | a wizard with life 25, armor 2 and attack 6, ignoring the attack given |
| Game.Character.TakeDamages | rustgdb_1/src/main.rs:21-23 | life falls by what the armor does not absorb; nothing else changes |
| Game.Character.Attacked | rustgdb_1/src/main.rs:25-27 | this takes the other's attack; the other is untouched |
| Game.Character.GetName | rustgdb_1/src/main.rs:14-16 | `[class] first last`: `[`, the class, `] `, then the plain name |
| Game.Character.PlainName | rust_08_struct/src/main.rs:19-21 | `first last`: the first name, one space, the last name |
| Game.Character.IsDead | rustgdb_1/src/main.rs:41-43 | dead only at a life of exactly 0; a negative life is reported alive |
| Game.CreateWizard | rustgdb_1/src/main.rs:46-48 | Merlin the wizard |
| Game.AttackTest | rustgdb_1/src/main.rs:88-110 | life 100 and armor 0 hit for 100 is dead |
| Game.HeroScenario | rustgdb_1/src/main.rs:53-76 | three hits of 96 through armor 5 take life 105 to 14, -77, -168, and `is_dead` never holds |
| Game.ConanScenario | rust_08_struct/src/main.rs:48-71 | 15 damage through armor 5 leaves 55; the wizard's attack of 6 leaves 54 |
| DescribeTrait.MakeLazyCat | rust_09_traits/src/main.rs:108-113 | describes as `Animal: garfield, class: cat` |
| DescribeTrait.DescribeCharacter | rust_09_traits/src/main.rs:51-62 | a character's description starts with its `get_name` |
| DescribeTrait.DescribedFields | rust_09_traits/src/main.rs:51-62 | after the name come `, class: ` and the class, `, attack: ` and the attack, `, armor: ` and the armor, `, life: ` and the life, each number in decimal, and nothing else; `parse::<i32>` reads attack and armor back |
| DescribeTrait.FieldsLayout | rust_09_traits/src/main.rs:53-60 | the `format!` string puts each field right after its label, in order, with nothing after the life |
| DescribeTrait.DescribeAnimal | rust_09_traits/src/main.rs:70-74 | `Animal: name, class: class`: `Animal: `, the name, `, class: `, then the class |
| DescribeTrait.Describe | rust_09_traits/src/main.rs:4-5 | the description starts with `[` iff the value is a character, and an animal's with `Animal: ` |
| DescribeTrait.DefaultIgnoresValue | rust_09_traits/src/main.rs:7-9 | `describe_with_default` is `Dunno!` for every value |
| DescribeTrait.OmniDescribe | rust_09_traits/src/main.rs:76-89 | `omni_describe`, `_2` and `_3` give the description of the value's own type |
| DescribeTrait.DescribedLifeReadsBack | rust_09_traits/src/main.rs:51-62 | a character's description ends with its life, which parses back |
| DescribeTrait.OmniDescribe4Parts | rust_09_traits/src/main.rs:92-102 | `entity: ` then the first description, `\nentity2: ` then the second, and nothing else |
| DoubleFirst.DoubleFirst1Printed | rust_19_multiple_error_types/src/main.rs:4-7 | `double_first` of a list headed by a printed i32 is twice that number |
| DoubleFirst.DoubleFirst2 | rust_19_multiple_error_types/src/main.rs:10-13 | `None` iff the list is empty; otherwise twice the parsed first element, or its parse error |
| DoubleFirst.DoubleFirst3 | rust_19_multiple_error_types/src/main.rs:16-23 | `Ok(None)` iff the list is empty; otherwise `Ok(Some)` of twice the parsed first element, or its parse error |
| DoubleFirst.DoubleFirst4 | rust_19_multiple_error_types/src/main.rs:37-41 | `DoubleError` iff the list is empty or its first element does not parse; otherwise twice the parsed value |
| DoubleFirst.DoubleFirst5 | rust_19_multiple_error_types/src/main.rs:59-65 | `EmptyVec` iff the list is empty; otherwise twice the parsed first element, or the boxed parse error |
| DoubleFirst.DoubleFirst5b | rust_19_multiple_error_types/src/main.rs:67-71 | the same outcomes as `double_first_5`, written with `?` |
| DoubleFirst.DoubleFirst3Transposes | rust_19_multiple_error_types/src/main.rs:16-23 | `double_first_3` swaps the layers of `double_first_2` in both directions |
| DoubleFirst.DoubleFirstAgree | rust_19_multiple_error_types/src/main.rs:10-71 | all five agree with `double_first` where it does not panic; `double_first_4` fails iff empty or unparsable; `5` and `5_2` agree and keep the reason |
| DoubleFirst.OnlyFirstMatters | rust_19_multiple_error_types/src/main.rs:59-65 | only the first element is looked at |
| DoubleFirst.MainInputs | rust_19_multiple_error_types/src/main.rs:76-156 | `["42", …]` doubles to 84; `"tofu"` is `InvalidDigit`; the empty list is `None` |
| CustomDe.Decide | rust_crate_serde_yaml_01/examples/custom_de.rs:47-60 | succeeds iff exactly one of `A` and `B` is present, which picks the variant; otherwise one of the two messages |
| CustomDe.MainInputs | rust_crate_serde_yaml_01/examples/custom_de.rs:65-90 | `A: 42` and `B: 110` pick their variant; `C: 900` alone leaves no variant |
| ValidateField.DeAbove2 | rust_crate_serde_yaml_01/examples/validate_field.rs:5-18 | accepts iff the value is above 2; rejects with the value and `a value above 2` |
| ValidateField.DeNonEmptyVec | rust_crate_serde_yaml_01/examples/validate_field.rs:20-33 | accepts iff non-empty; rejects as a sequence |
| ValidateField.DeserializeStruct | rust_crate_serde_yaml_01/examples/validate_field.rs:35-41 | the struct is accepted iff both validators accept; a low field is the error |
| ValidateField.MainInputs | rust_crate_serde_yaml_01/examples/validate_field.rs:43-60 | 32 with `[2, 3]` is accepted; 2, and an empty vector, are rejected |
| HostnameDe.TryFrom | rust_crate_serde_yaml_01/examples/ipaddr_or_domain_name.rs:30-45 | fails iff no `hostname` key; an address when the text parses as one, else the text as a host |
| HostnameDe.ToMap | rust_crate_serde_yaml_01/examples/ipaddr_or_domain_name.rs:60-71 | the one-entry `hostname` map |
| HostnameDe.OnlyHostnameKey | rust_crate_serde_yaml_01/examples/ipaddr_or_domain_name.rs:30-45 | no other key matters |
| HostnameDe.RoundTrip | rust_crate_serde_yaml_01/examples/ipaddr_or_domain_name.rs:17-45 | an address or a non-address host name comes back as written; a host name that parses as an address comes back as the address |
| HostnameDe.MisspeltKey | rust_crate_serde_yaml_01/examples/ipaddr_or_domain_name.rs:72-74 | `hostnam` is `Unable to retrieve hostname` |
| Ranges.Next | rust_11_traits_2/examples/ranges.rs:92-114 | `next` yields the start, which is in the range; bounded ranges yield while items remain, one fewer after; `a..` overflows exactly at its top |
| Ranges.TakeFinite | rust_11_traits_2/examples/ranges.rs:92-114 | `take(n)` on a bounded range yields min(n, remaining) consecutive members from the start |
| Ranges.TakeFrom | rust_11_traits_2/examples/ranges.rs:98-102 | `take(n)` on `a..` yields a, …, a+n-1, and panics iff the last step passes the type's top |
| Ranges.TakeTen | rust_11_traits_2/examples/ranges.rs:92-114 | `take(10)`: a bounded range yields min(10, remaining) consecutive members from its start; `a..` yields a, …, a+9, and panics iff that passes its top |
| Ranges.AllIsMembers | rust_11_traits_2/examples/ranges.rs:66-72 | iterating a bounded range to its end yields exactly its members, ascending |
| Ranges.TakeRange4 | rust_11_traits_2/examples/ranges.rs:117-142 | for a bounded range, `contains` holds iff iterating the range yields the value; `a..` contains what is at least `a`, `..b` what is below `b` |
| Ranges.MakeRange2 | rust_11_traits_2/examples/ranges.rs:158-164 | inclusive or half-open from `start` to `end` by the flag |
| Ranges.MainMembership | rust_11_traits_2/examples/ranges.rs:37-63 | 4 is not in 0..2 and is in 0.., ..5 and 0..7 |
| Ranges.MainTakesRange | rust_11_traits_2/examples/ranges.rs:14 | `0..2` yields 0, 1 |
| Ranges.MainTakesInclusive | rust_11_traits_2/examples/ranges.rs:27 | `0..=4` yields 0 to 4 |
| Ranges.MainTakesFrom | rust_11_traits_2/examples/ranges.rs:21 | `0u32..` yields 0 to 9 |
| Ranges.TakeTenFrom | rust_11_traits_2/examples/ranges.rs:98-102 | ten items from a start at least ten below the top |
| Ranges.InclusiveReachesTop | rust_11_traits_2/examples/ranges.rs:158-164 | an inclusive range to `i32::MAX` yields it; the half-open one does not |
| Ranges.BoxedRange.constructor | rust_11_traits_2/examples/ranges.rs:199-209 | the box holds the range |
| Ranges.BoxedRange.NextItem | rust_11_traits_2/examples/ranges.rs:70-72 | advances the boxed range by one `next` |
| Ranges.BoxedRange.CloneBox | rust_11_traits_2/examples/ranges.rs:194-196 | a new box in the same state |
| Ranges.BoxedRange.ForEach | rust_11_traits_2/examples/ranges.rs:87-89 | drains the box, yielding every item it had left |
| Ranges.CloneBoxDemo | rust_11_traits_2/examples/ranges.rs:84-89 | draining the clone yields 5, 6, 7 and leaves the original, which yields them again |
| Arith.Adder | rust_10_tests/src/lib.rs:6-8 | the result less either argument is the other |
| Arith.Add | rust_10_tests/src/lib.rs:1-4 | the result less either argument is the other, so `add` is the sum |
| Arith.Sub | rust_10_tests/src/main.rs:3-5 | the result plus `y` is `x` |
| Arith.SubAddInverse | rust_10_tests/src/main.rs:3-5 | `sub` undoes `add` and `add` undoes `sub` |
| Arith.AddCommutes | rust_10_tests/src/lib.rs:1-8 | argument order does not matter |
| Arith.Tests | rust_10_tests/src/main.rs:16-36 | the test equalities: 2+2 = 4, 0+0 = 0, 2-2 = 0, 2+2 ≠ 3 |
| Envelop.New | rust_22_into_from/src/main.rs:14-18 | stores the label and the letter as given |
| Envelop.Into | rust_22_into_from/src/main.rs:20-25 | the letter taken out, with the envelope's label, rebuilds the envelope |
| Envelop.IntoNew | rust_22_into_from/src/main.rs:27-45 | a letter comes back unchanged from any envelope |
| Envelop.IntoForgetsTyp | rust_22_into_from/src/main.rs:20-25 | differently labelled envelopes give the same letter |
| Envelop.LetterEquality | rust_22_into_from/src/main.rs:1-7 | letters are equal iff their four fields are |
| Envelop.MainLetter | rust_22_into_from/src/main.rs:27-45 | the letter taken out equals the one put in, whose type differs from the envelope's |

## Left out

- Reading the file named on the command line, `println!` output and `process::exit` in the JPEG `main` are I/O. The segment scanner takes the file's bytes as its input.
- The COM segment keeps the comment's raw bytes. `String::from_utf8_lossy`'s replacement of ill-formed sequences is not modelled.
- nom's `context` wrapper adds nothing to `TaskDeserializerError`, whose `ContextError` implementation is the default. It is left out.
- The nom combinators are written for the error types the examples use. The generic `E: ParseError` parameters are instantiated, not abstracted.
- `TaskDeserializerError`'s `Display` and `finish()` only format errors, so they are left out.
- `Decimal.ParseI32` models `str::parse::<i32>` on ASCII input: an optional sign, then decimal digits. It does not model Unicode digits or other radixes, which the examples do not use.
- `Utf8.ValidUtf8` follows Table 3-7 of the Unicode Standard. Only `valid_up_to` of `FromUtf8Error` is kept, not its `error_len`.
- `EvenIterator.EvenNumber.Next`: the `u32` overflow at `u32::MAX` is excluded by a precondition. The example's loops stop far below it.
- `EvenIterator.EvensUpTo50` stops at the first value above 50. This is the `break` the example's loops spell out.
- `CowDemo`: the threads that receive tokens and the `Path` conversion are left out. Only `Token::new` and the `Cow` state are modelled.
- `InteriorMut`: `RefCell`'s dynamic borrow checks cannot fail in the example, so nodes are plain objects. `NaiveRc` has no `Drop`, so no count goes down.
- `StreamSink`: the async runtime, `Pin`, wakers and `Vec::reserve` in `poll_ready` are left out.
- `WaitForIt` in `tokio_future_05` reads the wall clock, so it is left out.
- `Game`: printing is left out. The three crates' copies of `Character` share one class. The local struct of `rust_08_struct` differs in its name format, which is `PlainName`, and has no `is_dead`; `Game.Character.IsDead` and `Game.AttackTest` model `rustgdb_1` alone.
- `DescribeTrait`: `make_animal` and the `Debug` output are left out. `omni_describe_2` and `omni_describe_3` are the same call as `omni_describe`.
- `CustomDe`, `ValidateField` and `HostnameDe`: the YAML text is not parsed. Each model starts from the values serde has already read from it. IP address parsing and display are parameters (`parseIp`, `showIp`).
- `ValidateField.MainInputs`: the third input's empty `vec_non_empty:` is taken as an empty vector, as the example's comment describes it. How serde_yaml reads an empty value is not modelled.
- `HostnameDe.ToMap` writes the `hostname: <text>` form that the inputs of `main` use. serde_yaml's own enum encoding of `to_string(&h0)` is not modelled.
- `Ranges`: the ranges are over unbounded integers, with `a..` carrying its type's largest value. `take_range_5` and `take_range_6` differ from `take_range_4` only in a lossless widening, so they share `TakeRange4`.
- ValidateField.DeserializeStruct: the fields are validated in declaration order, so a struct with both fields bad reports the `field_above_2` error. serde reports the first bad key in the order the document gives them; every input of `main` lists the keys in declaration order.
- `Arith` and `DoubleFirst`: `i32` overflow panics in a debug build, so these operations require the exact result to be in range.
