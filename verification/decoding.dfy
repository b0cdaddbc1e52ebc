/**
  The decoding engine of record/decoder.go: a decoder holds its input lines
  and how many of them it has read and the current date layout; each call reads one line
  and walks the fields with a cursor. Structural failures end the call at
  once; value failures are collected per field and returned together.
 */
module Decoding {
  import opened Wrappers
  import opened Strconv
  import opened Strs
  import opened Tags
  import opened Schema
  import opened Scanner

  /** The error types, numbered as Go's `iota` numbers them. */
  const ErrEOF: int := 0
  const ErrInvalidInt: int := 1
  const ErrInvalidDate: int := 2

  /** The underlying error an entry carries. */
  datatype Cause =
    | NoCause                  // a nil error
    | ScanFailure              // the error the line scanner reported
    | NumFailure(e: NumError)  // the error strconv.ParseInt returned

  datatype DecodingError = DecodingError(kind: int, field: string, cause: Cause)

  /** The entry the decoder records when the scanner fails. */
  const EOFEntry: DecodingError := DecodingError(ErrEOF, "", ScanFailure)

  /** `ErrorList.Add`: one entry appended after all earlier ones, which stay as they were. */
  function Add(errs: seq<DecodingError>, kind: int, field: string, cause: Cause): (r: seq<DecodingError>)
    ensures |r| == |errs| + 1
    ensures r[..|errs|] == errs
    ensures r[|errs|] == DecodingError(kind, field, cause)
  {
    errs + [DecodingError(kind, field, cause)]
  }

  /** A date/time layout; the model never looks inside one. */
  type Layout = string

  /** The default layout: year, month, day, eight digits (Go reference-time notation). */
  const DateFormat: Layout := "20060102"

  /** `time.Parse(layout, value)`: a time, or None when Go reports a parse error. */
  type DateParser = (Layout, string) -> Option<Time>

  /**
    A decoder: the lines its scanner delivers (ScanLines), how many of them
    it has delivered so far, whether the scanner stops with an error once
    they run out (a line too long for its buffer), and the layout for date
    fields.
   */
  datatype Decoder = Decoder(lines: seq<string>, next: nat, scanErr: bool, layout: Layout)

  /** `NewDecoder` over the scanner's lines: positioned at the first line, with the default date layout. */
  function NewDecoder(lines: seq<string>, scanErr: bool): (d: Decoder)
    ensures d.lines == lines && d.next == 0 && d.scanErr == scanErr && d.layout == DateFormat
  {
    Decoder(lines, 0, scanErr, DateFormat)
  }

  /** `TimeLayout`: replaces the layout for later calls and touches nothing else. */
  function TimeLayout(d: Decoder, layout: Layout): (r: Decoder)
    ensures r.layout == layout
    ensures r.lines == d.lines && r.next == d.next && r.scanErr == d.scanErr
  {
    d.(layout := layout)
  }

  /** `d2` is `d` after reading zero or more lines: same input, scanner and layout, and no line unread again. */
  predicate Follows(d: Decoder, d2: Decoder) {
    d2 == d.(next := d2.next) && d.next <= d2.next
  }

  /** The errors that are not gathered in an ErrorList. */
  datatype PlainError = InvalidPointer | InvalidValueType | EndOfLine | Unsupported(field: string)

  /** What a decode call returns: nil, a plain error, an ErrorList, or a run-time panic. */
  datatype Outcome = Nil | Plain(err: PlainError) | Errors(list: seq<DecodingError>) | Panic

  /** The decoder state, the record and the outcome after (part of) a call. */
  datatype Step = Step(dec: Decoder, rec: seq<Value>, out: Outcome)

  /** `text` is what `l` holds from column `from` up to, not including, column `to`. */
  predicate SliceOf(l: string, from: nat, to: nat, text: string) {
    from <= to <= |l| && text == l[from..to]
  }

  /** `nextToken`'s three results: a token and the new cursor, the end-of-line error, or a slice panic. */
  datatype Token = Token(text: string, end: nat) | TooShort | SlicePanic

  /**
    `nextToken`: a field of width `size` covers the next `size` characters; a
    width of 0 runs from the cursor to one before the end of the line, so the
    line's last character is dropped. An end past the line is the plain
    end-of-line error; an end before the cursor (a negative width) makes
    Go's slice expression panic. The end is computed in Go's 64-bit `int`,
    so a width that carries it past MaxInt64 wraps it below the cursor, and
    the slice panics too.
   */
  function NextToken(l: string, start: nat, t: Tag): (r: Token)
    ensures r.Token? ==> SliceOf(l, start, r.end, r.text)
    ensures t.size > 0 && start + t.size <= MaxInt64 ==> (r == TooShort <==> start + t.size > |l|)
    ensures t.size > 0 && start + t.size <= |l| && start + t.size <= MaxInt64 ==> r.Token? && r.end == start + t.size
    ensures IsInt64(t.size) && start <= MaxInt64 && start + t.size > MaxInt64 ==> r == SlicePanic
    ensures t.size == 0 && start < |l| ==> r == Token(l[start..|l| - 1], |l| - 1)
    ensures t.size < 0 && IsInt64(t.size) && start <= MaxInt64 ==> !r.Token?
  {
    var end := if t.size == 0 then |l| - 1 else Wrap64(start + t.size);
    if end > |l| then TooShort
    else if end < start then SlicePanic
    else Token(l[start..end], end)
  }

  /** A settable int, string or date field's new value and the entries it adds. */
  datatype Assign = Assign(value: Value, entries: seq<DecodingError>)

  /** Setting one scalar field from its token (SetScalarSpec states the rules). */
  function SetScalar(f: Field, t: Tag, token: string, prior: Value, layout: Layout, parse: DateParser): (r: Assign)
    requires f.kind.Int? || f.kind.Str? || f.kind.Date?
    requires FieldConforms(f, prior)
    ensures FieldConforms(f, r.value)
  {
    match f.kind
    case Str => Assign(StrVal(TrimSpace(token)), [])
    case Int =>
      var tok := TrimSpace(token);
      (match ParseInt(tok)
       case Ok(v) => Assign(IntVal(v), [])
       case Err(e) =>
         if !t.optional && tok != "" then Assign(prior, Add([], ErrInvalidInt, f.name, NumFailure(e)))
         else Assign(prior, []))
    case Date =>
      match parse(layout, token)
      case None => Assign(TimeVal(ZeroTime), [])
      case Some(_) =>
        if !t.optional && token != "" then Assign(prior, Add([], ErrInvalidDate, f.name, NoCause))
        else Assign(prior, [])
  }

  /**
    The rules for one scalar field.
    String: the trimmed token, whatever `upper` says.
    Int: the trimmed token parsed as base-10 int64; on failure the prior value
    stays and an ErrInvalidInt entry is recorded unless the field is optional
    or the token is all white space, so an all-blank token never errors.
    Date, as the source has it: the untrimmed token is parsed with the
    current layout; a parse failure stores the zero time without an entry,
    while a successful parse leaves the field alone and records an
    ErrInvalidDate entry with a nil cause unless the field is optional or the
    token is empty.
   */
  lemma SetScalarSpec(f: Field, t: Tag, token: string, prior: Value, layout: Layout, parse: DateParser)
    requires f.kind.Int? || f.kind.Str? || f.kind.Date?
    requires FieldConforms(f, prior)
    ensures var r := SetScalar(f, t, token, prior, layout, parse);
            && |r.entries| <= 1
            && (f.kind.Str? ==> r == Assign(StrVal(TrimSpace(token)), []))
            && (f.kind.Int? ==>
                  var tok := TrimSpace(token);
                  && (ParseInt(tok).Ok? ==> r == Assign(IntVal(ParseInt(tok).value), []))
                  && (ParseInt(tok).Err? ==> r.value == prior)
                  && (IsSignedDigits(tok) && IsInt64(SignedValue(tok)) ==> r == Assign(IntVal(SignedValue(tok)), []))
                  && (!IsSignedDigits(tok) && !t.optional && tok != [] ==> |r.entries| == 1)
                  && (r.entries != [] <==> ParseInt(tok).Err? && !t.optional && !AllSpace(token))
                  && (r.entries != [] ==> r.entries == [DecodingError(ErrInvalidInt, f.name, NumFailure(ParseInt(tok).error))]))
            && (f.kind.Date? ==>
                  && (parse(layout, token).None? ==> r == Assign(TimeVal(ZeroTime), []))
                  && (parse(layout, token).Some? ==> r.value == prior)
                  && (r.entries != [] <==> parse(layout, token).Some? && !t.optional && token != "")
                  && (r.entries != [] ==> r.entries == [DecodingError(ErrInvalidDate, f.name, NoCause)]))
  {
    TrimSpaceEmpty(token);
    ParseIntSpec(TrimSpace(token));
  }

  /** The outcome once the walk is over: nil exactly when no entry was collected. */
  function Finish(errs: seq<DecodingError>): (o: Outcome)
    ensures o == Nil <==> errs == []
    ensures o != Nil ==> o == Errors(errs)
  {
    if |errs| > 0 then Errors(errs) else Nil
  }

  lemma ConformsUpdate(schema: seq<Field>, rec: seq<Value>, i: nat, v: Value)
    requires Conforms(schema, rec) && i < |schema| && FieldConforms(schema[i], v)
    ensures Conforms(schema, rec[i := v])
  {
  }

  /**
    `decodeStruct`: reads the next line (with none left, a scanner failure
    gives an ErrorList holding the single ErrEOF entry, while a normal end of
    input reads as an empty line) and decodes it into the fields.
   */
  function DecodeStruct(d: Decoder, schema: seq<Field>, rec: seq<Value>, addressable: bool, parse: DateParser): (r: Step)
    requires Conforms(schema, rec)
    ensures Conforms(schema, r.rec)
    ensures Follows(d, r.dec)
    ensures r.out.Errors? ==> |r.out.list| > 0
    ensures d.next >= |d.lines| && d.scanErr ==> r == Step(d, rec, Errors([EOFEntry]))
    ensures d.next < |d.lines| ==> r.dec.next > d.next
    ensures d.next < |d.lines| && Flat(schema) ==> r.dec.next == d.next + 1
    ensures d.next < |d.lines| && d.lines[d.next] == "" ==> r == Step(d.(next := d.next + 1), rec, Nil)
    ensures d.next >= |d.lines| && !d.scanErr ==> r == Step(d, rec, Nil)
    ensures !addressable ==> r.rec == rec && (r.out.Errors? ==> r.out.list == [EOFEntry])
    decreases schema, 1
  {
    if d.next >= |d.lines| then
      if d.scanErr then Step(d, rec, Errors([Add([], ErrEOF, "", ScanFailure)[0]]))
      else DecodeFields(d, "", schema, Directives(schema), rec, 0, 0, [], addressable, parse)
    else
      DecodeFields(d.(next := d.next + 1), d.lines[d.next], schema, Directives(schema), rec, 0, 0, [], addressable, parse)
  }

  /** After one settable field: carry on with the new state, or stop the call with this step. */
  datatype Progress = Continue(dec: Decoder, rec: seq<Value>, errs: seq<DecodingError>) | Stop(step: Step)

  /**
    Setting field `i`, whose directive is `t`, from its token. Scalars go
    through SetScalar. A nested
    struct decodes from the next input line, and its entries are appended as
    they are; a plain error inside it is a panic in the source (the type
    assertion to ErrorList fails). An unsupported kind is a plain error.
    Only field `i` can change, and the entries so far stay in front.
   */
  function SetField(d: Decoder, schema: seq<Field>, rec: seq<Value>, i: nat, t: Tag, token: string,
                    errs: seq<DecodingError>, parse: DateParser): (r: Progress)
    requires i < |schema| && Conforms(schema, rec)
    ensures r.Continue? ==> Conforms(schema, r.rec) && Follows(d, r.dec) && errs <= r.errs
    ensures r.Continue? ==> forall k :: 0 <= k < |rec| && k != i ==> r.rec[k] == rec[k]
    ensures r.Stop? ==> r.step.out.Plain? || r.step.out.Panic?
    ensures r.Stop? ==> Conforms(schema, r.step.rec) && Follows(d, r.step.dec)
    ensures r.Stop? ==> forall k :: 0 <= k < |rec| && k != i ==> r.step.rec[k] == rec[k]
    ensures !schema[i].kind.Nested? ==> (r.Continue? ==> r.dec == d) && (r.Stop? ==> r.step.dec == d)
    decreases schema, 0, |schema| - i, 0
  {
    var f := schema[i];
    assert FieldConforms(f, rec[i]);
    match f.kind
    case Other => Stop(Step(d, rec, Plain(Unsupported(f.name))))
    case Nested(sub) =>
      var inner := DecodeStruct(d, sub, rec[i].fields, true, parse);
      var rec2 := rec[i := NestedVal(inner.rec)];
      ConformsUpdate(schema, rec, i, NestedVal(inner.rec));
      if inner.out.Nil? then Continue(inner.dec, rec2, errs)
      else if inner.out.Errors? then Continue(inner.dec, rec2, errs + inner.out.list)
      else Stop(Step(inner.dec, rec2, Panic))
    case _ =>
      var a := SetScalar(f, t, token, rec[i], d.layout, parse);
      ConformsUpdate(schema, rec, i, a.value);
      Continue(d, rec[i := a.value], errs + a.entries)
  }

  /**
    The field loop of `decodeStruct`, from field `i` with the cursor at
    `start` and the entries `errs` collected so far; `tags` holds the
    fields' directives, as Directives reads them. The loop ends once the
    fields run out or the cursor reaches the end of the line. A skipped field
    reads nothing and leaves the cursor; every other field moves the cursor
    past its token, even when it cannot be set; a token past the end of the
    line ends the call with a plain error that drops the entries so far.
   */
  function DecodeFields(d: Decoder, l: string, schema: seq<Field>, tags: seq<Tag>, rec: seq<Value>, i: nat,
                        start: nat, errs: seq<DecodingError>, addressable: bool, parse: DateParser): (r: Step)
    requires i <= |schema| && |tags| == |schema| && Conforms(schema, rec)
    ensures Conforms(schema, r.rec)
    ensures Follows(d, r.dec)
    ensures forall k :: 0 <= k < i ==> r.rec[k] == rec[k]
    ensures r.out.Errors? ==> |r.out.list| > 0 && errs <= r.out.list
    ensures r.out == Nil ==> errs == []
    ensures start >= |l| ==> r == Step(d, rec, Finish(errs))
    ensures !addressable ==> r.rec == rec && r.dec == d && (r.out.Errors? ==> r.out.list == errs)
    ensures Flat(schema) ==> r.dec == d
    decreases schema, 0, |schema| - i, 1
  {
    if i == |schema| || start >= |l| then Step(d, rec, Finish(errs))
    else
      var f := schema[i];
      var t := tags[i];
      if t.skip then DecodeFields(d, l, schema, tags, rec, i + 1, start, errs, addressable, parse)
      else
        match NextToken(l, start, t)
        case TooShort => Step(d, rec, Plain(EndOfLine))
        case SlicePanic => Step(d, rec, Panic)
        case Token(token, end) =>
          if !(addressable && f.settable) then
            DecodeFields(d, l, schema, tags, rec, i + 1, end, errs, addressable, parse)
          else
            match SetField(d, schema, rec, i, t, token, errs, parse)
            case Stop(step) => step
            case Continue(d2, rec2, errs2) =>
              DecodeFields(d2, l, schema, tags, rec2, i + 1, end, errs2, addressable, parse)
  }

  /** What `Decode` returns: the decoder afterwards, the argument as the caller now sees it, and the outcome. */
  datatype DecodeOut = DecodeOut(dec: Decoder, arg: Arg, out: Outcome)

  /**
    `Decoder.Decode`: a typed nil pointer or a pointer to a non-struct is an
    invalid pointer and a non-struct value an invalid value type, without
    reading input. A struct behind a pointer is decoded in place. A struct
    passed by value is a copy that reflection cannot set: the line is still
    read and walked, but the caller's value never changes and no value error
    can arise.
   */
  function Decode(d: Decoder, v: Arg, parse: DateParser): (r: DecodeOut)
    requires ArgConforms(v)
    ensures ArgConforms(r.arg)
    ensures Follows(d, r.dec)
    ensures r.out.Errors? ==> |r.out.list| > 0
    ensures v.NilPointer? || (v.Pointer? && v.target.NonStruct?) ==> r == DecodeOut(d, v, Plain(InvalidPointer))
    ensures v.Direct? && v.target.NonStruct? ==> r == DecodeOut(d, v, Plain(InvalidValueType))
    ensures v.Direct? ==> r.arg == v && (r.out.Errors? ==> r.out.list == [EOFEntry])
    ensures v.Pointer? && v.target.StructOf? ==>
              r.arg.Pointer? && r.arg.target.StructOf? && r.arg.target.schema == v.target.schema
  {
    match v
    case NilPointer => DecodeOut(d, v, Plain(InvalidPointer))
    case Pointer(NonStruct) => DecodeOut(d, v, Plain(InvalidPointer))
    case Pointer(StructOf(schema, rec)) =>
      var s := DecodeStruct(d, schema, rec, true, parse);
      DecodeOut(s.dec, Pointer(StructOf(schema, s.rec)), s.out)
    case Direct(StructOf(schema, rec)) =>
      var s := DecodeStruct(d, schema, rec, false, parse);
      DecodeOut(s.dec, v, s.out)
    case Direct(NonStruct) => DecodeOut(d, v, Plain(InvalidValueType))
  }

  /**
    `Unmarshal`: one Decode on a fresh decoder over a reader of `data`, so
    only the first line the scanner delivers is ever read and dates use the
    default layout.
   */
  function Unmarshal(data: string, v: Arg, parse: DateParser): (r: DecodeOut)
    requires ArgConforms(v)
    ensures r.dec.layout == DateFormat
    ensures r.dec.lines == ScanLines(data).lines
    ensures data == [] && !v.NilPointer? && v.target.StructOf? ==> r.out == Nil && r.arg == v
    ensures && |data| >= MaxScanTokenSize && NoNewline(data[..MaxScanTokenSize])
            && !v.NilPointer? && v.target.StructOf?
            ==> r.out == Errors([EOFEntry]) && r.arg == v
  {
    var sc := ScanLines(data);
    assert |data| >= MaxScanTokenSize && NoNewline(data[..MaxScanTokenSize]) ==> sc == Scan([], true) by {
      if |data| >= MaxScanTokenSize && NoNewline(data[..MaxScanTokenSize]) {
        ScanTooLong(data);
      }
    }
    Decode(NewDecoder(sc.lines, sc.tooLong), v, parse)
  }
}
