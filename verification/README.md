# Fixed-width record encoding, modelled in Dafny

This is a model of the `record` package of ronoaldo/encoding. The package
turns Go structs into fixed-width text records and reads such records back.
It has two halves:

- **The encoder** (`encoder.go`):
  - `parseTags` reads each field's `record:"…"` directive: an optional leading width, then the options `nopad`/`nopadding`, `upper` and `-`.
  - `encodeStruct` writes one token per field, with no separator between tokens:
    - integers are zero-padded to the width;
    - strings are right-justified with spaces, upper-cased on request, and cut to the width.
  - `Encode` checks its argument; `Marshal` wraps `Encode`.
- **The decoder** (`record/decoder.go`):
  - `Decode` checks its argument and `decodeStruct` reads one line.
  - `nextToken` moves a cursor across the line, field by field.
  - Integer, string and date fields are set from their tokens; a nested struct decodes from the next line.
  - Value errors are collected in an `ErrorList`, through `ErrorList.Add`, with the error types `ErrEOF`, `ErrInvalidInt` and `ErrInvalidDate`.
  - Structural errors end the call.
  - `TimeLayout` changes the date layout; `Unmarshal` wraps a fresh decoder.

Go reflection becomes an explicit schema (module `Schema`). A struct type is
a list of `Field(name, kind, tag, optional, settable)` entries, and a value
is a list of `Value`s in the same order. What a caller passes through
`interface{}` is an `Arg`: a nil pointer, a pointer, or a value passed by
copy. The decoder's state is the lines its scanner delivers plus how many
it has read, a flag saying whether the scanner stops with an error after
them (a line too long for its buffer), and the date layout.

Modules, in dependency order:

- `Wrappers`: Option and Result.
- `Strconv`: Go's `strconv.ParseInt(s, 10, 64)` and `Atoi`, including the int64 range and the order of syntax and range errors; also `%d` formatting.
- `Strs`: ASCII `ToUpper`, `TrimSpace`, `Split`.
- `Tags`: `parseTags`.
- `Schema`: fields, values, conformance, directives.
- `Scanner`: the line splitting of `bufio.Scanner`.
- `Columns`: column arithmetic.
- `Encoding`: the encoder.
- `Decoding`: the decoder.
- `DecoderLaws`: single-step laws of the field loop.
- `RoundTrip`: encode, then decode.
- `TestVectors` and `DecoderVectors`: the repository's tests and examples, worked through the model.

## Where the model follows the code rather than the documentation

- **Date fields are inverted.** In `record/decoder.go:149-156` the branches are swapped:
  - when `time.Parse` fails, the field is set to the zero time and no entry is recorded;
  - when the parse succeeds, the field is left alone and an `ErrInvalidDate` entry with a nil cause is recorded.

  The model keeps this. `DecoderVectors.ErrorHandling` and `DecoderVectors.UnmarshalPerson` show the effect: on the repository's own sample line the first decode returns an ErrorList, where `record/decoder_test.go:25-27` expects nil and the example output at `record/decoder_test.go:94` expects a July 19 birthday.
- **Date tokens are not trimmed** before parsing; integer and string tokens are.
- **A width-0 field drops the last character.** A field of width 0 (no width in its directive) runs from the cursor to one before the end of the line, so the line's last character is never read (`record/decoder.go:184-186`). Dafny's `DecoderLaws.ZeroWidthDropsLast` and `DecoderVectors.ZeroWidthToken` state this.
- **A nested struct does not decode from its own columns.** It reads the next input line, after consuming its own token. An error inside it that is not an ErrorList fails the type assertion at `record/decoder.go:160`, which is a panic; it is modelled as the outcome `Panic`.
- **A negative width** makes the decoder's slice expression panic (`Panic`). In the encoder it acts as fmt's `-` flag.
- **A struct passed by value** cannot be set through reflection. The line is still read and walked, but the caller's value never changes.
- **A huge width wraps around in the decoder.** `nextToken` computes `start + t.size` in Go's 64-bit int (`record/decoder.go:183`). A width that carries it past MaxInt64 makes it negative, the end-of-line check lets it through, and the slice panics.
- **A huge width loses the verb in the encoder.** fmt stops reading a width once the digits so far exceed 10^6, so the largest width it reads is 10,000,009. Past that, `encoder.go:67-69` and `:73-82` write fmt's `%!(NOVERB)` report followed by the value as an extra argument.
- **The `optional` flag** is read by the decoder, but `parseTags` never sets it. The schema supplies it per field.

## Model

| member | source | states |
|---|---|---|
| Tags.ParseTags | encoder.go:98-119 | a field without a directive gets the default tag (width 0, no flags); otherwise the width is the first comma-separated element when that reads as an integer, else 0; the directive parser never sets the decoder's optional flag |
| Tags.ParseTagsSpec | encoder.go:98-119 | in a non-empty directive, split at commas, each flag is set exactly when some element spells one of its option names |
| Tags.ApplyOptionsFlags | encoder.go:107-116 | after the options loop each flag is set iff it was set before or an option names it; unknown options change nothing, and the width is untouched |
| Tags.OptionNamesAreNotNumbers | encoder.go:103-106 | a first element taken as the width can never also be an option |
| TestVectors.WidthSecond | encoder.go:103-105 | a width is only read in first position: `upper,6` sets upper and leaves the width 0 |
| TestVectors.UnknownOptions | encoder.go:108-115 | option names match exactly, so ` upper` sets nothing; `optional` is not an option that parseTags knows either |
| TestVectors.NoPad | encoder.go:109-110 | `6,nopad` gives width 6 with padding off |
| TestVectors.RecordTypeDirectives | encoder_test.go:5-14 | the encoder test's record type reads as an untagged int, a six-wide string, a six-wide int, a six-wide upper-cased string, a skipped field and an untagged string |
| Schema.FieldTag | record/decoder.go:119 | the directive the decoder acts on is parseTags' result with the field's optional flag added |
| Strconv.ParseIntSpec | record/decoder.go:137 | `Strconv.ParseInt` succeeds exactly on an optionally signed run of decimal digits whose value is an int64, and then returns that value |
| Strconv.ParseFormatInt | encoder.go:69 | the plain decimal form of an int64 parses back to it |
| Strconv.ParseIntStopsAtNonDigit | record/decoder.go:137 | a digit run whose value fits in uint64, followed by a non-digit, is a syntax error (the height field of the second sample line) |
| Strs.ToUpperSpec | encoder.go:76-78 | upper-casing keeps the length and maps every character through its upper-case form |
| Strs.TrimSpaceSpec | record/decoder.go:134 | TrimSpace is the piece of the text that starts where the leading white space ends; only white space follows it, it neither starts nor ends with white space, and it is empty exactly for all-blank text |
| Encoding.IntTokenShape | encoder.go:63-69 | an int token (`Encoding.IntToken`) is the plain decimal with `nopad` or width 0; a positive width gives a zero-padded token exactly that wide, or as wide as the decimal when that is wider, which parses back to the value; a negative width left-justifies the decimal with spaces; a width too large for fmt to read (past 10,000,009) writes fmt's no-verb report with the value as an extra int64 argument |
| Encoding.ZeroPadWidth | encoder.go:65-69 | a zero-padded integer is exactly as wide as asked, or as its plain decimal when that is wider |
| Encoding.ZeroPadParses | encoder.go:65-69 | a zero-padded int64 parses back to the same value |
| Encoding.StrTokenShape | encoder.go:70-82 | a string token (`Encoding.StrToken`) is the text (upper-cased first with `upper`) cut to the width; padded, it is exactly the width, with spaces on the left and the kept text on the right, a negative width puts the spaces on the right; with `nopad` it is the kept text alone; width 0 keeps the text whole; a width too large for fmt to read writes fmt's no-verb report with the kept text as an extra argument |
| Encoding.FieldTokenWritten | encoder.go:59-83 | in `Encoding.FieldToken`, a skipped field, or a field of any kind but int and string, adds nothing to the line whatever its value; a written int shows at least its plain decimal |
| Encoding.EncodeOnlyWritten | encoder.go:56-86 | two records that agree on the written fields encode, through `Encoding.EncodeStruct`, to the same line |
| Encoding.EncodeLength | encoder.go:56-86 | the line `Encoding.EncodeStruct` writes is exactly as long as the field tokens together: nothing separates them |
| Encoding.Encode | encoder.go:39-53 | a nil pointer or a pointer to a non-struct is an invalid pointer and a non-struct value is an invalid value type, in both cases writing nothing; a struct, by pointer or by value, has its line appended to the writer and no error is returned |
| Encoding.Marshal | encoder.go:15-21 | Marshal succeeds exactly for a struct argument, and returns its line; on failure it returns Encode's error |
| Columns.ConcatCut | encoder.go:57-84 | the tokens written one after another can be cut back, at the column boundaries, into the same tokens |
| TestVectors.WideIntToken | encoder.go:65-69 | an int field of width 100000000 writes `%!(NOVERB)%!(EXTRA int64=5)` for the value 5, not a hundred million digits |
| TestVectors.EncodeHello | encoder_test.go:21-30 | the first test record marshals to `1 HELLO000000HELLO world` |
| TestVectors.EncodeOverflow | encoder_test.go:32-41 | the second test record marshals to `1 ERROR012345STACK Overflow`: the label is upper-cased before it is cut to six characters |
| Scanner.ScanLines | record/decoder.go:62-67 | the scanner the decoder reads through delivers lines that hold no newline and are shorter than its 64 KiB buffer |
| Scanner.ScanOneLine | record/decoder.go:109-115 | a line with no newline, no final carriage return and fitting the buffer is delivered as that one line, with or without a final newline |
| Scanner.ScanTerminated | record/decoder.go:109-115 | lines the scanner leaves whole, each written with its newline, are read back exactly, with no error |
| Scanner.ScanTooLong | record/decoder.go:109-113 | input whose first 64 KiB hold no newline stops the scan with an error before any line |
| Decoding.Add | record/decoder.go:47-53 | Add appends one entry with the given type, field and cause, and keeps the earlier entries in front, unchanged |
| Decoding.NewDecoder | record/decoder.go:62-67 | a new decoder starts at the first line with the default date layout |
| Decoding.TimeLayout | record/decoder.go:71-73 | TimeLayout replaces the layout and changes nothing else |
| Decoding.NextToken | record/decoder.go:179-191 | a positive width takes exactly the next `size` characters, or is the end-of-line error when they run past the line; a width that carries the end past MaxInt64 wraps it around to a negative end, which passes the end-of-line check and makes the slice panic; width 0 runs to one before the end; a negative width never yields a token; every token is the slice of the line between the cursor and the new cursor |
| Decoding.SetScalarSpec | record/decoder.go:132-156 | in `Decoding.SetScalar`, strings get the trimmed token; ints get the parsed trimmed token, or keep their value and record an ErrInvalidInt entry only when not optional and not blank; dates follow the inverted branches described above |
| Decoding.Finish | record/decoder.go:172-176 | the call returns nil exactly when no entry was collected, and otherwise the list |
| Decoding.SetField | record/decoder.go:132-169 | setting a field changes only that field, keeps the record conforming, reads lines only forward, and keeps the earlier entries as a prefix; it stops the call only with a plain error or a panic |
| Decoding.DecodeFields | record/decoder.go:117-176 | the field loop keeps the record conforming, never changes fields before the current one, and never loses the entries so far, unless it ends with a plain error or a panic; it returns nil only when there are no entries; a cursor at the end of the line ends it; a target that cannot be set is never changed |
| Decoding.DecodeStruct | record/decoder.go:94-116 | a call reads at least one line when one is left, and exactly one when the struct has no nested struct fields; with none left, a scanner failure gives the single ErrEOF entry and a clean end of input reads as an empty line; an empty line changes nothing and returns nil |
| Decoding.Decode | record/decoder.go:79-92 | bad arguments give the pointer or value-type error without reading; a struct behind a pointer keeps its schema; a struct passed by value is never changed, and the only ErrorList entry it can get is ErrEOF; a plain error or a panic can still end the call |
| Decoding.Unmarshal | record/decoder.go:195-197 | Unmarshal decodes from the lines the scanner cuts the bytes into, with the default layout; for a struct argument, empty input gives nil and unchanged fields, and a first line too long for the scanner's buffer gives the single ErrEOF entry |
| DecoderLaws.ReadsLine | record/decoder.go:109-117 | with a line left, a call walks that line from the first field at column 0 |
| DecoderLaws.SkipReadsNothing | record/decoder.go:119-121 | a skipped field leaves the cursor where it was |
| DecoderLaws.UnsettableStillMoves | record/decoder.go:123-130 | a field that cannot be set still consumes its columns, and changes nothing else |
| DecoderLaws.TooShortAborts | record/decoder.go:123-125 | a field that runs past the end of the line, but not past MaxInt64, ends the call with the end-of-line error, and the entries collected so far are lost |
| DecoderLaws.WrapPanics | record/decoder.go:183-190 | a field whose width carries the cursor past MaxInt64 ends the call with a panic, settable or not |
| DecoderLaws.ScalarStep | record/decoder.go:123-156 | a settable int, string or date field takes its token from exactly its columns, gets SetScalar's value, appends SetScalar's entries, and the walk resumes right after its columns |
| DecoderLaws.ScalarSet | record/decoder.go:132-156 | setting a scalar field is SetScalar's value and entries, and nothing else |
| DecoderLaws.ReadOnlyWalk | record/decoder.go:117-130 | over fields that are all skipped or cannot be set, on a fixed-width line long enough for their columns, the loop reads every token, changes nothing, reads no further line and finishes with the entries it was given |
| DecoderLaws.ReadOnlyStruct | record/decoder.go:94-130 | a struct none of whose fields can be set, read from a line long enough for its columns, consumes that line, keeps its values and returns nil |
| DecoderLaws.FieldsDone | record/decoder.go:117 | when the fields run out, the call ends with the entries collected so far |
| DecoderLaws.ZeroWidthDropsLast | record/decoder.go:184-186 | a width-0 string field gets the text up to but not including the line's last character, and the walk goes on from that character |
| DecoderLaws.UnsupportedAborts | record/decoder.go:167-168 | a settable field of an unsupported kind ends the call with a plain error naming the field |
| DecoderLaws.NestedReadsNextLine | record/decoder.go:157-159 | a nested struct ignores its own token and consumes a further input line |
| DecoderLaws.NestedOutcome | record/decoder.go:159-165 | a nested struct's entries are appended after the outer ones as they are, and any other error inside it becomes a panic |
| RoundTrip.EncodedDecodable | encoder.go:56-86 | the line of a record whose fields all fit their widths consists of fixed-width columns, each holding a token that decodes to the field's value |
| RoundTrip.RoundTripLine | record/decoder.go:117-145 | decoding the line the encoder wrote for a record whose fields fit reads exactly that line, reports no error, and gives back every settable, non-skipped field's value (upper-cased where asked) |
| RoundTrip.EncodingClean | encoder.go:56-86 | the line of a record whose fields all fit holds no newline and does not end with a carriage return, so the scanner leaves it whole |
| RoundTrip.MarshalUnmarshal | record/decoder.go:195-197 | when the line is shorter than the scanner's buffer, Unmarshal of Marshal's bytes restores the record as RoundTripLine says, and returns nil |
| RoundTrip.DecodedIsRecord | record/decoder.go:117-145 | for a record whose fields fit, when every field is settable, not skipped and not upper-cased, the values RoundTripLine decodes are the record itself, whatever the target held before |
| DecoderVectors.HeaderLine | record/decoder_test.go:53-61 | the example's header line `0HEADER____` decodes to `{0 HEADER____}` with no error |
| DecoderVectors.ContentLine | record/decoder_test.go:63-72 | the example's content line `1DATA     1` decodes to `{1 DATA 1}` with no error: the text is trimmed |
| DecoderVectors.ErrorHandling | record/decoder_test.go:21-41 | on the two sample lines, the second decode reports the invalid height and keeps the record; the first reports the birthday entry, because of the inverted date branch |
| DecoderVectors.UnmarshalPerson | record/decoder_test.go:83-95 | Unmarshal of the sample line sets the name and the height, leaves the birthday at the zero time, and reports the birthday entry |
| DecoderVectors.SampleScans | record/decoder_test.go:12-13 | TestErrorHandling's two-line sample reaches the decoder as its two lines |
| DecoderVectors.NewlineInValue | record/decoder.go:195-197 | a string value holding a newline does not survive the round trip: Marshal writes it inside the line, the scanner cuts the line there, and Unmarshal returns the end-of-line error |
| DecoderVectors.ZeroWidthToken | record/decoder.go:183-190 | a width-0 token at the start of `world` is `worl` |
| DecoderVectors.WrappedEnd | record/decoder.go:183-190 | a width of MaxInt64 at column 1 of `ab` wraps the end around and the slice panics |

## Left out

- Reflection: struct types and values are given as an explicit schema (`Schema.Field`, `Schema.Value`); `reflect.Value.CanSet` is the field's `settable` flag plus whether the struct was passed by pointer.
- Input and output: the encoder's writer is a string it appends to. The decoder's input is the sequence of lines the scanner would deliver, plus a flag for a scanner that stops with an error after them. Line splitting is `Scanner.ScanLines`: `bufio.Scanner` with `ScanLines` over an in-memory reader, which never fails, so the only scanner error is a line too long for its 64 KiB buffer. After that error the model's decoder reports ErrEOF on every later call; what Go's scanner does on a later call is not modelled.
- `Encode`/`Decode` on an untyped nil interface: Go panics on `t.Kind()` there; `Arg` has no such case.
- Text is treated as one character per byte: `[]rune` slicing and `len` agree only on ASCII, and `ToUpper`/`TrimSpace` are modelled on ASCII.
- Int fields narrower than 64 bits: every integer kind is modelled as int64. `SetInt` truncation into `int8`…`int32` and `reflect.Value.Int` on them are not modelled.
- `time.Parse` is a parameter (`DateParser`), and `time.Time` is the opaque `Time` with its zero value singled out. The default layout is the constant `DateFormat`, "20060102". `DateFormat` and `dateType` are declared outside the files modelled here.
- The `log.Printf` call for unsettable fields and the `Error()` message strings: only the error kinds and entries are modelled.
- Decoding.NextToken: the `nil` tag branch (record/decoder.go:180-182) is not modelled, because parseTags never returns nil.
- RoundTrip.MarshalUnmarshal: requires the encoded line to be shorter than the scanner's 64 KiB buffer, and, through `Fits`, string values without a newline. Go does not round-trip past either limit: `DecoderVectors.NewlineInValue` shows the newline case, and a longer line gives the ErrEOF entry (`Decoding.Unmarshal`).
- RoundTrip.RoundTripLine: the round trip covers padded int and string fields of positive width up to fmt's width limit, 10,000,009, and skipped fields. Dates and nested structs are left out because the encoder writes nothing for them. Strings with outer white space are left out because the decoder trims it, and strings holding a newline because the scanner cuts the line there.
- RoundTrip.RoundTripLine, RoundTrip.EncodedDecodable and the decoder laws that read a token: they require the line to be at most MaxInt64 characters long, because Go's `len` of a string is an int; the model's strings have no such bound of their own.
- Decoding.NextToken: its clauses about the wrap-around assume the cursor and the width are int64 values, as they are in Go; `Tags.ParseTags` only gives int64 widths.
- Date fields of a defined type convertible to `time.Time` but distinct from it (`type D time.Time`): `record/decoder.go:147` sends them down the date branch too, and when the parse fails the `fval.Set` at `:150` panics, because `time.Time` is not assignable to `D`. `Schema.Kind`'s `Date` is `time.Time` itself, so `Decoding.SetScalar` and `Decoding.SetScalarSpec` do not cover such fields.
