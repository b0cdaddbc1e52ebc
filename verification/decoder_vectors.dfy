/**
  The decoder's examples and tests worked through the model: the file of
  header and content lines, the person records of the error-handling test,
  and a width-0 field. As with the encoder's vectors, record types are
  described by predicates over their directives, and every computation on
  a literal sits in a lemma of its own.
 */
module DecoderVectors {
  import opened Wrappers
  import opened Strconv
  import opened Strs
  import opened Tags
  import opened Schema
  import opened Columns
  import opened Encoding
  import opened Scanner
  import opened Decoding
  import opened DecoderLaws
  import TestVectors

  /** A directive that is a lone width. */
  lemma WidthOnly(tag: string, n: int)
    requires tag != "" && ',' !in tag && ParseInt(tag) == Ok(n)
    ensures ParseTags(tag) == NoTag.(size := n)
  {
    SplitNoSeparator(tag, ',');
    assert [tag][1..] == [];
  }

  // One, Eight, Nine, Ten and Twelve only unfold ParseInt on a literal, for the fixtures below.

  lemma One()
    ensures ParseInt("1") == Ok(1)
  {
    ParseIntSpec("1");
  }

  lemma Eight()
    ensures ParseInt("8") == Ok(8)
  {
    ParseIntSpec("8");
  }

  lemma Nine()
    ensures ParseInt("9") == Ok(9)
  {
    ParseIntSpec("9");
  }

  lemma Ten()
    ensures ParseInt("10") == Ok(10)
  {
    ParseIntSpec("10");
    assert IsSignedDigits("10");
    assert Unsigned("10") == "10";
    assert "10"[..1] == "1" && "1"[..0] == "";
    assert ValueOf("10") == 10;
  }

  lemma Twelve()
    ensures ParseInt("12") == Ok(12)
  {
    ParseIntSpec("12");
    assert IsSignedDigits("12");
    assert Unsigned("12") == "12";
    assert "12"[..1] == "1" && "1"[..0] == "";
    assert ValueOf("12") == 12;
  }

  /** A field declared with this name and kind, settable, not optional, whose directive reads as `t`. */
  predicate Declared(f: Field, name: string, kind: Kind, t: Tag) {
    f.name == name && f.kind == kind && f.settable && !f.optional && ParseTags(f.tag) == t
  }

  /** Such a field's decoder directive is the parsed tag itself. */
  lemma DeclaredTag(f: Field, name: string, kind: Kind, t: Tag)
    requires Declared(f, name, kind, t)
    ensures FieldTag(f) == t
  {
  }

  /** A settable scalar field that ends the line ends the call after its own assignment. */
  lemma LastScalar(d: Decoder, l: string, schema: seq<Field>, tags: seq<Tag>, rec: seq<Value>, i: nat,
                   start: nat, errs: seq<DecodingError>, parse: DateParser, token: string, a: Assign)
    requires i + 1 == |schema| && ScalarColumn(schema, tags, i) && Conforms(schema, rec)
    requires start < |l| <= MaxInt64 && start + tags[i].size == |l|
    requires token == l[start..|l|]
    requires a == SetScalar(schema[i], tags[i], token, rec[i], d.layout, parse)
    ensures DecodeFields(d, l, schema, tags, rec, i, start, errs, true, parse) == Step(d, rec[i := a.value], Finish(errs + a.entries))
  {
    ScalarStep(d, l, schema, tags, rec, i, start, errs, parse, token, a);
    FieldsDone(d, l, schema, tags, rec[i := a.value], |l|, errs + a.entries, true, parse);
  }

  /** A settable scalar field first on the line starts the walk from its own assignment. */
  lemma FirstScalar(d: Decoder, l: string, schema: seq<Field>, tags: seq<Tag>, rec: seq<Value>, parse: DateParser,
                    token: string, a: Assign, rec1: seq<Value>)
    requires ScalarColumn(schema, tags, 0) && Conforms(schema, rec) && tags[0].size < |l| <= MaxInt64
    requires token == l[0..tags[0].size]
    requires a == SetScalar(schema[0], tags[0], token, rec[0], d.layout, parse)
    requires rec1 == rec[0 := a.value]
    ensures Conforms(schema, rec1)
    ensures DecodeFields(d, l, schema, tags, rec, 0, 0, [], true, parse)
         == DecodeFields(d, l, schema, tags, rec1, 1, tags[0].size, a.entries, true, parse)
  {
    ScalarStep(d, l, schema, tags, rec, 0, 0, [], parse, token, a);
    assert [] + a.entries == a.entries;
  }

  /**
    Walking a line of exactly two scalar columns: each field takes the value
    SetScalar gives for its own columns, the entries come in field order, and
    the call ends at the end of the line.
   */
  lemma Walk2(d: Decoder, l: string, schema: seq<Field>, tags: seq<Tag>, rec: seq<Value>, parse: DateParser,
              t0: string, t1: string, a0: Assign, a1: Assign, rec1: seq<Value>)
    requires |schema| == 2 && ScalarColumn(schema, tags, 0) && ScalarColumn(schema, tags, 1) && Conforms(schema, rec)
    requires |l| == tags[0].size + tags[1].size <= MaxInt64
    requires t0 == l[0..tags[0].size] && t1 == l[tags[0].size..|l|]
    requires a0 == SetScalar(schema[0], tags[0], t0, rec[0], d.layout, parse)
    requires rec1 == rec[0 := a0.value]
    requires a1 == SetScalar(schema[1], tags[1], t1, rec1[1], d.layout, parse)
    ensures DecodeFields(d, l, schema, tags, rec, 0, 0, [], true, parse)
         == Step(d, rec1[1 := a1.value], Finish(a0.entries + a1.entries))
  {
    FirstScalar(d, l, schema, tags, rec, parse, t0, a0, rec1);
    LastScalar(d, l, schema, tags, rec1, 1, tags[0].size, a0.entries, parse, t1, a1);
  }

  /** A string token without surrounding white space is stored as it is. */
  lemma StrAsIs(f: Field, t: Tag, token: string, prior: Value, layout: Layout, parse: DateParser)
    requires f.kind == Str && FieldConforms(f, prior) && Trimmed(token)
    ensures SetScalar(f, t, token, prior, layout, parse) == Assign(StrVal(token), [])
  {
    SetScalarSpec(f, t, token, prior, layout, parse);
    TrimSpaceTrimmed(token);
  }

  /** An int token without surrounding white space that parses is stored as its value. */
  lemma IntAsIs(f: Field, t: Tag, token: string, v: int, prior: Value, layout: Layout, parse: DateParser)
    requires f.kind == Int && FieldConforms(f, prior) && Trimmed(token) && ParseInt(token) == Ok(v)
    ensures SetScalar(f, t, token, prior, layout, parse) == Assign(IntVal(v), [])
  {
    SetScalarSpec(f, t, token, prior, layout, parse);
    TrimSpaceTrimmed(token);
  }

  // Example_fileParsing: a header line and a content line, each decoded by a fresh decoder.

  /** The header record type: a one-digit type and ten characters of text. */
  predicate HeaderType(schema: seq<Field>) {
    && |schema| == 2
    && Declared(schema[0], "Type", Int, NoTag.(size := 1))
    && Declared(schema[1], "Text", Str, NoTag.(size := 10))
  }

  const HeaderSchema: seq<Field> := [Field("Type", Int, "1", false, true), Field("Text", Str, "10", false, true)]

  /** The example's header struct has that type. */
  lemma HeaderDirectives()
    ensures HeaderType(HeaderSchema)
  {
    One();
    WidthOnly("1", 1);
    Ten();
    WidthOnly("10", 10);
  }

  lemma HeaderColumns(l: string)
    requires l == "0HEADER____"
    ensures |l| == 11 && l[0..1] == "0" && l[1..11] == "HEADER____"
  {
  }

  lemma HeaderConforms(schema: seq<Field>, rec: seq<Value>)
    requires HeaderType(schema) && rec == [IntVal(0), StrVal("")]
    ensures Conforms(schema, rec)
  {
    assert IsInt64(0);
    assert FieldConforms(schema[0], rec[0]) && FieldConforms(schema[1], rec[1]);
  }

  lemma HeaderTags(schema: seq<Field>, tags: seq<Tag>)
    requires HeaderType(schema) && tags == Directives(schema)
    ensures |tags| == 2 && tags[0] == NoTag.(size := 1) && tags[1] == NoTag.(size := 10)
  {
    DeclaredTag(schema[0], "Type", Int, NoTag.(size := 1));
    DeclaredTag(schema[1], "Text", Str, NoTag.(size := 10));
  }

  /** The header record after each of its fields is set in turn. */
  lemma HeaderRecords(rec: seq<Value>)
    requires rec == [IntVal(0), StrVal("")]
    ensures rec[0 := IntVal(0)] == rec && rec[1 := StrVal("HEADER____")] == [IntVal(0), StrVal("HEADER____")]
  {
  }

  /** What each field of the header struct gets from its column of the header line. */
  lemma HeaderValues(schema: seq<Field>, tags: seq<Tag>, rec: seq<Value>, layout: Layout, parse: DateParser)
    requires HeaderType(schema) && |tags| == 2 && rec == [IntVal(0), StrVal("")]
    requires Conforms(schema, rec)
    ensures SetScalar(schema[0], tags[0], "0", rec[0], layout, parse) == Assign(IntVal(0), [])
    ensures SetScalar(schema[1], tags[1], "HEADER____", rec[1], layout, parse) == Assign(StrVal("HEADER____"), [])
  {
    assert FieldConforms(schema[0], rec[0]) && FieldConforms(schema[1], rec[1]);
    ParseIntSpec("0");
    IntAsIs(schema[0], tags[0], "0", 0, rec[0], layout, parse);
    StrAsIs(schema[1], tags[1], "HEADER____", rec[1], layout, parse);
  }

  /** The header line's two columns give type 0 and the text HEADER____ (underscores are not white space), with no entry. */
  lemma HeaderWalk(d: Decoder, schema: seq<Field>, l: string, rec: seq<Value>, parse: DateParser)
    requires HeaderType(schema) && l == "0HEADER____" && rec == [IntVal(0), StrVal("")]
    ensures Conforms(schema, rec)
    ensures DecodeFields(d, l, schema, Directives(schema), rec, 0, 0, [], true, parse)
         == Step(d, [IntVal(0), StrVal("HEADER____")], Nil)
  {
    HeaderConforms(schema, rec);
    HeaderRecords(rec);
    HeaderTags(schema, Directives(schema));
    HeaderValues(schema, Directives(schema), rec, d.layout, parse);
    HeaderColumns(l);
    Walk2(d, l, schema, Directives(schema), rec, parse, "0", "HEADER____",
          Assign(IntVal(0), []), Assign(StrVal("HEADER____"), []), rec);
  }

  /** Decoding the header line into a zero header struct fills it in and returns nil. */
  lemma HeaderLine(schema: seq<Field>, l: string, parse: DateParser)
    requires schema == HeaderSchema && l == "0HEADER____"
    ensures Conforms(schema, [IntVal(0), StrVal("")])
    ensures var d := NewDecoder([l], false);
            Decode(d, Pointer(StructOf(schema, [IntVal(0), StrVal("")])), parse)
            == DecodeOut(d.(next := 1), Pointer(StructOf(schema, [IntVal(0), StrVal("HEADER____")])), Nil)
  {
    HeaderDirectives();
    HeaderDecode(schema, l, parse);
  }

  /** The same for any struct of the header type. */
  lemma HeaderDecode(schema: seq<Field>, l: string, parse: DateParser)
    requires HeaderType(schema) && l == "0HEADER____"
    ensures Conforms(schema, [IntVal(0), StrVal("")])
    ensures var d := NewDecoder([l], false);
            Decode(d, Pointer(StructOf(schema, [IntVal(0), StrVal("")])), parse)
            == DecodeOut(d.(next := 1), Pointer(StructOf(schema, [IntVal(0), StrVal("HEADER____")])), Nil)
  {
    var d := NewDecoder([l], false);
    var rec := [IntVal(0), StrVal("")];
    HeaderWalk(d.(next := 1), schema, l, rec, parse);
    ReadsLine(d, schema, rec, parse);
  }

  /** The content record type: a type digit, nine characters of text and a one-digit id. */
  predicate ContentType(schema: seq<Field>) {
    && |schema| == 3
    && Declared(schema[0], "Type", Int, NoTag.(size := 1))
    && Declared(schema[1], "Text", Str, NoTag.(size := 9))
    && Declared(schema[2], "ID", Int, NoTag.(size := 1))
  }

  const ContentSchema: seq<Field> :=
    [Field("Type", Int, "1", false, true), Field("Text", Str, "9", false, true), Field("ID", Int, "1", false, true)]

  /** The example's content struct has that type. */
  lemma ContentDirectives()
    ensures ContentType(ContentSchema)
  {
    One();
    WidthOnly("1", 1);
    Nine();
    WidthOnly("9", 9);
  }

  lemma ContentColumns(l: string)
    requires l == "1DATA     1"
    ensures |l| == 11 && l[0..1] == "1" && l[1..10] == "DATA     " && l[10..11] == "1"
  {
  }

  lemma Data(s: string)
    requires s == "DATA     "
    ensures TrimSpace(s) == "DATA"
  {
    var p := s[4..];
    assert s == "DATA" + p;
    assert AllSpace(p);
    TrimSpaceBeforeSpaces("DATA", p);
  }

  lemma ContentConforms(schema: seq<Field>, rec: seq<Value>)
    requires ContentType(schema) && rec == [IntVal(0), StrVal(""), IntVal(0)]
    ensures Conforms(schema, rec)
  {
    assert IsInt64(0);
    assert FieldConforms(schema[0], rec[0]) && FieldConforms(schema[1], rec[1]) && FieldConforms(schema[2], rec[2]);
  }

  lemma ContentTags(schema: seq<Field>, tags: seq<Tag>)
    requires ContentType(schema) && tags == Directives(schema)
    ensures |tags| == 3 && tags[0] == NoTag.(size := 1) && tags[1] == NoTag.(size := 9) && tags[2] == NoTag.(size := 1)
  {
    DeclaredTag(schema[0], "Type", Int, NoTag.(size := 1));
    DeclaredTag(schema[1], "Text", Str, NoTag.(size := 9));
    DeclaredTag(schema[2], "ID", Int, NoTag.(size := 1));
  }

  /** The content record after each of its fields is set in turn. */
  lemma ContentRecords(rec: seq<Value>, rec1: seq<Value>, rec2: seq<Value>)
    requires rec == [IntVal(0), StrVal(""), IntVal(0)]
    requires rec1 == [IntVal(1), StrVal(""), IntVal(0)] && rec2 == [IntVal(1), StrVal("DATA"), IntVal(0)]
    ensures rec1 == rec[0 := IntVal(1)] && rec2 == rec1[1 := StrVal("DATA")]
    ensures rec2[2 := IntVal(1)] == [IntVal(1), StrVal("DATA"), IntVal(1)]
  {
  }

  /** What each field of the content struct gets from its column of the content line. */
  lemma ContentValues(schema: seq<Field>, tags: seq<Tag>, rec: seq<Value>, rec1: seq<Value>, rec2: seq<Value>,
                      layout: Layout, parse: DateParser)
    requires ContentType(schema) && |tags| == 3
    requires rec == [IntVal(0), StrVal(""), IntVal(0)] && Conforms(schema, rec)
    requires rec1 == [IntVal(1), StrVal(""), IntVal(0)] && rec2 == [IntVal(1), StrVal("DATA"), IntVal(0)]
    ensures SetScalar(schema[0], tags[0], "1", rec[0], layout, parse) == Assign(IntVal(1), [])
    ensures SetScalar(schema[1], tags[1], "DATA     ", rec1[1], layout, parse) == Assign(StrVal("DATA"), [])
    ensures SetScalar(schema[2], tags[2], "1", rec2[2], layout, parse) == Assign(IntVal(1), [])
  {
    assert FieldConforms(schema[0], rec[0]) && FieldConforms(schema[1], rec[1]) && FieldConforms(schema[2], rec[2]);
    One();
    IntAsIs(schema[0], tags[0], "1", 1, rec[0], layout, parse);
    SetScalarSpec(schema[1], tags[1], "DATA     ", rec1[1], layout, parse);
    Data("DATA     ");
    IntAsIs(schema[2], tags[2], "1", 1, rec2[2], layout, parse);
  }

  /** The content line's columns give type 1, the text DATA with its padding trimmed, and id 1, with no entry. */
  lemma ContentWalk(d: Decoder, schema: seq<Field>, l: string, rec: seq<Value>, parse: DateParser)
    requires ContentType(schema) && l == "1DATA     1" && rec == [IntVal(0), StrVal(""), IntVal(0)]
    ensures Conforms(schema, rec)
    ensures DecodeFields(d, l, schema, Directives(schema), rec, 0, 0, [], true, parse)
         == Step(d, [IntVal(1), StrVal("DATA"), IntVal(1)], Nil)
  {
    var tags := Directives(schema);
    var rec1 := [IntVal(1), StrVal(""), IntVal(0)];
    var rec2 := [IntVal(1), StrVal("DATA"), IntVal(0)];
    ContentConforms(schema, rec);
    ContentRecords(rec, rec1, rec2);
    ContentTags(schema, tags);
    ContentValues(schema, tags, rec, rec1, rec2, d.layout, parse);
    ContentColumns(l);
    FirstScalar(d, l, schema, tags, rec, parse, "1", Assign(IntVal(1), []), rec1);
    ScalarStep(d, l, schema, tags, rec1, 1, 1, [], parse, "DATA     ", Assign(StrVal("DATA"), []));
    LastScalar(d, l, schema, tags, rec2, 2, 10, [], parse, "1", Assign(IntVal(1), []));
  }

  /** Decoding the content line into a zero content struct fills it in and returns nil. */
  lemma ContentLine(schema: seq<Field>, l: string, parse: DateParser)
    requires schema == ContentSchema && l == "1DATA     1"
    ensures Conforms(schema, [IntVal(0), StrVal(""), IntVal(0)])
    ensures var d := NewDecoder([l], false);
            Decode(d, Pointer(StructOf(schema, [IntVal(0), StrVal(""), IntVal(0)])), parse)
            == DecodeOut(d.(next := 1), Pointer(StructOf(schema, [IntVal(1), StrVal("DATA"), IntVal(1)])), Nil)
  {
    ContentDirectives();
    ContentDecode(schema, l, parse);
  }

  /** The same for any struct of the content type. */
  lemma ContentDecode(schema: seq<Field>, l: string, parse: DateParser)
    requires ContentType(schema) && l == "1DATA     1"
    ensures Conforms(schema, [IntVal(0), StrVal(""), IntVal(0)])
    ensures var d := NewDecoder([l], false);
            Decode(d, Pointer(StructOf(schema, [IntVal(0), StrVal(""), IntVal(0)])), parse)
            == DecodeOut(d.(next := 1), Pointer(StructOf(schema, [IntVal(1), StrVal("DATA"), IntVal(1)])), Nil)
  {
    var d := NewDecoder([l], false);
    var rec := [IntVal(0), StrVal(""), IntVal(0)];
    ContentWalk(d.(next := 1), schema, l, rec, parse);
    ReadsLine(d, schema, rec, parse);
  }

  // TestErrorHandling and ExampleUnmarshal: person records with a name, a birthday and a height.

  /** The person record type: twenty characters of name (marked upper), an eight-character date and a twelve-digit height. */
  predicate PersonType(schema: seq<Field>) {
    && |schema| == 3
    && Declared(schema[0], "Name", Str, NoTag.(size := 20, upper := true))
    && Declared(schema[1], "Birthday", Date, NoTag.(size := 8))
    && Declared(schema[2], "Height", Int, NoTag.(size := 12))
  }

  const PersonSchema: seq<Field> :=
    [Field("Name", Str, "20,upper", false, true), Field("Birthday", Date, "8", false, true), Field("Height", Int, "12", false, true)]

  lemma NameField(f: Field)
    requires f == Field("Name", Str, "20,upper", false, true)
    ensures Declared(f, "Name", Str, NoTag.(size := 20, upper := true))
  {
    TestVectors.WideUpper(f.tag);
  }

  lemma BirthdayField(f: Field)
    requires f == Field("Birthday", Date, "8", false, true)
    ensures Declared(f, "Birthday", Date, NoTag.(size := 8))
  {
    Eight();
    WidthOnly(f.tag, 8);
  }

  lemma HeightField(f: Field)
    requires f == Field("Height", Int, "12", false, true)
    ensures Declared(f, "Height", Int, NoTag.(size := 12))
  {
    Twelve();
    WidthOnly(f.tag, 12);
  }

  /** The test's Person struct has that type. */
  lemma PersonDirectives()
    ensures PersonType(PersonSchema)
  {
    NameField(PersonSchema[0]);
    BirthdayField(PersonSchema[1]);
    HeightField(PersonSchema[2]);
  }

  /** A freshly allocated Person: empty name, zero time, height 0. */
  const NewPerson: seq<Value> := [StrVal(""), TimeVal(ZeroTime), IntVal(0)]

  /** The person both lines of the test describe, as the decoder leaves it. */
  const Jhon: seq<Value> := [StrVal("JHON DOE"), TimeVal(ZeroTime), IntVal(172)]

  /** The first line of the test's sample (and the whole of the Unmarshal example's input). */
  const PersonLine: string := "JHON DOE            19860719000000000172"

  /** The second line of the test's sample: a zero date and a height with a letter in it. */
  const TypoLine: string := "JHON DOE            000000000000000001a2"

  /** The entry the first line produces: the birthday parsed, and so, as the date branch is written, counts as invalid. */
  const BirthdayEntry: DecodingError := DecodingError(ErrInvalidDate, "Birthday", NoCause)

  /** The entry the second line produces: the height is not a number. */
  const HeightEntry: DecodingError := DecodingError(ErrInvalidInt, "Height", NumFailure(ErrSyntax))

  /** Any name, time and int64 height make a Person. */
  lemma PersonConforms(schema: seq<Field>, rec: seq<Value>)
    requires |schema| == 3 && schema[0].kind.Str? && schema[1].kind.Date? && schema[2].kind.Int?
    requires |rec| == 3 && rec[0].StrVal? && rec[1].TimeVal? && rec[2].IntVal? && IsInt64(rec[2].i)
    ensures Conforms(schema, rec)
  {
  }

  lemma PersonTags(schema: seq<Field>, tags: seq<Tag>)
    requires PersonType(schema) && tags == Directives(schema)
    ensures |tags| == 3 && tags[0] == NoTag.(size := 20, upper := true)
    ensures tags[1] == NoTag.(size := 8) && tags[2] == NoTag.(size := 12)
  {
    DeclaredTag(schema[0], "Name", Str, NoTag.(size := 20, upper := true));
    DeclaredTag(schema[1], "Birthday", Date, NoTag.(size := 8));
    DeclaredTag(schema[2], "Height", Int, NoTag.(size := 12));
  }

  lemma PersonColumns(l: string)
    requires l == PersonLine
    ensures |l| == 40 && l[0..20] == "JHON DOE            " && l[20..28] == "19860719" && l[28..40] == "000000000172"
  {
  }

  lemma TypoColumns(l: string)
    requires l == TypoLine
    ensures |l| == 40 && l[0..20] == "JHON DOE            " && l[20..28] == "00000000" && l[28..40] == "0000000001a2"
  {
  }

  /** The name column loses its trailing padding. */
  lemma JhonDoe(token: string)
    requires token == "JHON DOE            "
    ensures TrimSpace(token) == "JHON DOE"
  {
    var p := token[8..];
    assert token == "JHON DOE" + p;
    assert AllSpace(p);
    TrimSpaceBeforeSpaces("JHON DOE", p);
  }

  lemma NineZeros()
    ensures Zeros(9) == "000000000"
  {
  }

  /** Leading zeros do not count: the height column reads 172. */
  lemma Height(token: string)
    requires token == "000000000172"
    ensures Trimmed(token) && ParseInt(token) == Ok(172)
  {
    assert Digits(172) == "172";
    NineZeros();
    assert token == Zeros(9) + Digits(172);
    ParseZeroPaddedNat(172, 9);
  }

  /** A letter among the digits is a syntax error. */
  lemma HeightTypo(token: string)
    requires token == "0000000001a2"
    ensures Trimmed(token) && ParseInt(token) == Err(ErrSyntax)
  {
    NineZeros();
    assert token[..10] == Zeros(9) + "1";
    ValueOfZerosPrefix(9, "1");
    assert ValueOf("1") == 1;
    ParseIntStopsAtNonDigit(token, 10);
  }

  /** The person records after each field of the first line is set in turn. */
  lemma PersonRecords(rec: seq<Value>, rec1: seq<Value>)
    requires rec == NewPerson && rec1 == [StrVal("JHON DOE"), TimeVal(ZeroTime), IntVal(0)]
    ensures rec1 == rec[0 := StrVal("JHON DOE")] && rec1 == rec1[1 := TimeVal(ZeroTime)]
    ensures rec1[2 := IntVal(172)] == Jhon
    ensures [] + [BirthdayEntry] == [BirthdayEntry] && [BirthdayEntry] + [] == [BirthdayEntry]
  {
  }

  /** Setting the second line's values on the decoded person changes nothing. */
  lemma TypoRecords(rec: seq<Value>)
    requires rec == Jhon
    ensures rec[0 := StrVal("JHON DOE")] == rec && rec[1 := TimeVal(ZeroTime)] == rec && rec[2 := IntVal(172)] == rec
    ensures [] + [HeightEntry] == [HeightEntry]
  {
  }

  /**
    What each field of a new Person gets from its column of the first line,
    given a date parser that, like Go's, reads 19860719 as a date: the name
    and the height as expected, while the birthday keeps its zero value and
    records an ErrInvalidDate entry.
   */
  lemma PersonValues(schema: seq<Field>, tags: seq<Tag>, rec: seq<Value>, rec1: seq<Value>, layout: Layout, parse: DateParser)
    requires PersonType(schema) && |tags| == 3 && tags[1] == NoTag.(size := 8)
    requires rec == NewPerson && rec1 == [StrVal("JHON DOE"), TimeVal(ZeroTime), IntVal(0)] && Conforms(schema, rec)
    requires parse(layout, "19860719").Some?
    ensures SetScalar(schema[0], tags[0], "JHON DOE            ", rec[0], layout, parse) == Assign(StrVal("JHON DOE"), [])
    ensures SetScalar(schema[1], tags[1], "19860719", rec1[1], layout, parse) == Assign(TimeVal(ZeroTime), [BirthdayEntry])
    ensures SetScalar(schema[2], tags[2], "000000000172", rec1[2], layout, parse) == Assign(IntVal(172), [])
  {
    assert FieldConforms(schema[0], rec[0]) && FieldConforms(schema[1], rec1[1]) && FieldConforms(schema[2], rec1[2]);
    SetScalarSpec(schema[0], tags[0], "JHON DOE            ", rec[0], layout, parse);
    JhonDoe("JHON DOE            ");
    SetScalarSpec(schema[1], tags[1], "19860719", rec1[1], layout, parse);
    Height("000000000172");
    IntAsIs(schema[2], tags[2], "000000000172", 172, rec1[2], layout, parse);
  }

  /**
    What each field of the decoded person gets from its column of the second
    line, given a date parser that, like Go's, rejects 00000000: the name is
    read again, the birthday becomes the zero time, and the height keeps 172
    and records an ErrInvalidInt entry.
   */
  lemma TypoValues(schema: seq<Field>, tags: seq<Tag>, rec: seq<Value>, layout: Layout, parse: DateParser)
    requires PersonType(schema) && |tags| == 3 && tags[2] == NoTag.(size := 12)
    requires rec == Jhon && Conforms(schema, rec)
    requires parse(layout, "00000000").None?
    ensures SetScalar(schema[0], tags[0], "JHON DOE            ", rec[0], layout, parse) == Assign(StrVal("JHON DOE"), [])
    ensures SetScalar(schema[1], tags[1], "00000000", rec[1], layout, parse) == Assign(TimeVal(ZeroTime), [])
    ensures SetScalar(schema[2], tags[2], "0000000001a2", rec[2], layout, parse) == Assign(IntVal(172), [HeightEntry])
  {
    assert FieldConforms(schema[0], rec[0]) && FieldConforms(schema[1], rec[1]) && FieldConforms(schema[2], rec[2]);
    SetScalarSpec(schema[0], tags[0], "JHON DOE            ", rec[0], layout, parse);
    JhonDoe("JHON DOE            ");
    SetScalarSpec(schema[1], tags[1], "00000000", rec[1], layout, parse);
    HeightTypo("0000000001a2");
    TrimSpaceTrimmed("0000000001a2");
    SetScalarSpec(schema[2], tags[2], "0000000001a2", rec[2], layout, parse);
  }

  /** Walking the first line: the values PersonValues gives, and the birthday's entry as the only one. */
  lemma PersonWalk(d: Decoder, schema: seq<Field>, l: string, parse: DateParser)
    requires PersonType(schema) && l == PersonLine && parse(d.layout, "19860719").Some?
    ensures Conforms(schema, NewPerson)
    ensures DecodeFields(d, l, schema, Directives(schema), NewPerson, 0, 0, [], true, parse)
         == Step(d, Jhon, Errors([BirthdayEntry]))
  {
    var tags := Directives(schema);
    var rec := NewPerson;
    var rec1 := [StrVal("JHON DOE"), TimeVal(ZeroTime), IntVal(0)];
    PersonConforms(schema, rec);
    PersonRecords(rec, rec1);
    PersonTags(schema, tags);
    PersonValues(schema, tags, rec, rec1, d.layout, parse);
    PersonColumns(l);
    FirstScalar(d, l, schema, tags, rec, parse, "JHON DOE            ", Assign(StrVal("JHON DOE"), []), rec1);
    ScalarStep(d, l, schema, tags, rec1, 1, 20, [], parse, "19860719", Assign(TimeVal(ZeroTime), [BirthdayEntry]));
    LastScalar(d, l, schema, tags, rec1, 2, 28, [BirthdayEntry], parse, "000000000172", Assign(IntVal(172), []));
  }

  /** Walking the second line over the first one's result: the record stays as it was, and the height's entry is the only one. */
  lemma TypoWalk(d: Decoder, schema: seq<Field>, l: string, parse: DateParser)
    requires PersonType(schema) && l == TypoLine && parse(d.layout, "00000000").None?
    ensures Conforms(schema, Jhon)
    ensures DecodeFields(d, l, schema, Directives(schema), Jhon, 0, 0, [], true, parse)
         == Step(d, Jhon, Errors([HeightEntry]))
  {
    var tags := Directives(schema);
    var rec := Jhon;
    PersonConforms(schema, rec);
    TypoRecords(rec);
    PersonTags(schema, tags);
    TypoValues(schema, tags, rec, d.layout, parse);
    TypoColumns(l);
    FirstScalar(d, l, schema, tags, rec, parse, "JHON DOE            ", Assign(StrVal("JHON DOE"), []), rec);
    ScalarStep(d, l, schema, tags, rec, 1, 20, [], parse, "00000000", Assign(TimeVal(ZeroTime), []));
    LastScalar(d, l, schema, tags, rec, 2, 28, [], parse, "0000000001a2", Assign(IntVal(172), [HeightEntry]));
  }

  /** Decoding the first line into a new Person: the record is filled in, but the call reports the birthday entry. */
  lemma FirstDecode(d: Decoder, schema: seq<Field>, parse: DateParser)
    requires PersonType(schema) && d.next < |d.lines| && d.lines[d.next] == PersonLine
    requires parse(d.layout, "19860719").Some?
    ensures Conforms(schema, NewPerson)
    ensures Decode(d, Pointer(StructOf(schema, NewPerson)), parse)
         == DecodeOut(d.(next := d.next + 1), Pointer(StructOf(schema, Jhon)), Errors([BirthdayEntry]))
  {
    PersonWalk(d.(next := d.next + 1), schema, PersonLine, parse);
    ReadsLine(d, schema, NewPerson, parse);
  }

  /** Decoding the second line into the decoded person: the record stays, and the call reports the height entry. */
  lemma SecondDecode(d: Decoder, schema: seq<Field>, parse: DateParser)
    requires PersonType(schema) && d.next < |d.lines| && d.lines[d.next] == TypoLine
    requires parse(d.layout, "00000000").None?
    ensures Conforms(schema, Jhon)
    ensures Decode(d, Pointer(StructOf(schema, Jhon)), parse)
         == DecodeOut(d.(next := d.next + 1), Pointer(StructOf(schema, Jhon)), Errors([HeightEntry]))
  {
    TypoWalk(d.(next := d.next + 1), schema, TypoLine, parse);
    ReadsLine(d, schema, Jhon, parse);
  }

  /**
    TestErrorHandling's two calls on one decoder, with a date parser that
    accepts 19860719 and rejects 00000000 as Go's does. The second call
    returns an ErrorList, as the test expects; the first returns one too,
    where the test expects nil.
   */
  lemma ErrorHandling(schema: seq<Field>, parse: DateParser)
    requires schema == PersonSchema
    requires parse(DateFormat, "19860719").Some? && parse(DateFormat, "00000000").None?
    ensures Conforms(schema, NewPerson)
    ensures var d := NewDecoder([PersonLine, TypoLine], false);
            var first := Decode(d, Pointer(StructOf(schema, NewPerson)), parse);
            && first == DecodeOut(d.(next := 1), Pointer(StructOf(schema, Jhon)), Errors([BirthdayEntry]))
            && Decode(first.dec, first.arg, parse) == DecodeOut(d.(next := 2), Pointer(StructOf(schema, Jhon)), Errors([HeightEntry]))
  {
    PersonDirectives();
    var d := NewDecoder([PersonLine, TypoLine], false);
    FirstDecode(d, schema, parse);
    SecondDecode(d.(next := 1), schema, parse);
  }

  /** TestErrorHandling's input, the two sample lines joined by '\n', reaches the decoder as those two lines. */
  lemma SampleScans()
    ensures ScanLines(PersonLine + "\n" + TypoLine) == Scan([PersonLine, TypoLine], false)
  {
    assert Scannable(PersonLine) && Scannable(TypoLine);
    ScanOneLine(TypoLine);
    ScanFirstLine(PersonLine, TypoLine);
  }

  /** The example's input, the sample line with its '\n', reaches the decoder as that one line. */
  lemma PersonLineScans()
    ensures ScanLines(PersonLine + "\n") == Scan([PersonLine], false)
  {
    assert Scannable(PersonLine);
    ScanOneLine(PersonLine);
  }

  /**
    ExampleUnmarshal: the name and the height come through, but the birthday
    stays the zero time and an ErrorList holding the birthday entry comes
    back, where the example prints July 19 and no error.
   */
  lemma UnmarshalPerson(schema: seq<Field>, parse: DateParser)
    requires schema == PersonSchema && parse(DateFormat, "19860719").Some?
    ensures Conforms(schema, NewPerson)
    ensures Unmarshal(PersonLine + "\n", Pointer(StructOf(schema, NewPerson)), parse)
         == DecodeOut(NewDecoder([PersonLine], false).(next := 1), Pointer(StructOf(schema, Jhon)), Errors([BirthdayEntry]))
  {
    PersonDirectives();
    PersonLineScans();
    FirstDecode(NewDecoder([PersonLine], false), schema, parse);
  }

  /** A width-0 field at the start of "world" reads "worl": the line's last character is left out. */
  lemma ZeroWidthToken(l: string)
    requires l == "world"
    ensures NextToken(l, 0, NoTag) == Token("worl", 4)
  {
    assert l[0..4] == "worl";
  }

  /**
    A width of MaxInt64 at column 1 wraps the token's end around to a
    negative number: the end-of-line guard lets it through and the slice
    panics.
   */
  lemma WrappedEnd(l: string, t: Tag)
    requires l == "ab" && t == NoTag.(size := MaxInt64)
    ensures NextToken(l, 1, t) == SlicePanic
  {
  }

  // A string value holding '\n': the scanner cuts Marshal's line inside it.

  /** A struct with one six-wide string field. */
  const NameSchema: seq<Field> := [Field("Name", Str, "6", false, true)]

  lemma SixWideName(f: Field)
    requires f == NameSchema[0]
    ensures FieldTag(f) == NoTag.(size := 6)
  {
    TestVectors.WidthAlone(f.tag);
  }

  lemma ThreeSpaces()
    ensures Spaces(3) == "   "
  {
  }

  /** The value "a\nb" right-justified in six columns. */
  lemma NewlineMarshal(schema: seq<Field>, rec: seq<Value>)
    requires schema == NameSchema && rec == [StrVal("a\nb")]
    ensures Conforms(schema, rec)
    ensures Marshal(Pointer(StructOf(schema, rec))) == Ok("   a\nb")
  {
    SixWideName(schema[0]);
    TestVectors.PaddedStrToken(schema[0], 6, "a\nb");
    ThreeSpaces();
    var tok := FieldToken(schema[0], rec[0]);
    assert tok == "   a\nb";
    assert Tokens(schema, rec) == [tok];
    assert [tok][..0] == [];
    assert EncodeStruct(schema, rec) == Concat([tok]) == tok;
  }

  /** Those bytes reach the decoder as two lines. */
  lemma NewlineScan(data: string)
    requires data == "   a\nb"
    ensures ScanLines(data) == Scan(["   a", "b"], false)
  {
    assert Scannable("   a") && Scannable("b");
    ScanOneLine("b");
    ScanFirstLine("   a", "b");
    assert "   a" + "\n" + "b" == data;
  }

  /** The six-wide column runs past the first line, "   a". */
  lemma NewlineDecode(d: Decoder, schema: seq<Field>, cur: seq<Value>, parse: DateParser)
    requires schema == NameSchema && cur == [StrVal("")]
    requires d.next < |d.lines| && d.lines[d.next] == "   a"
    ensures Conforms(schema, cur)
    ensures DecodeStruct(d, schema, cur, true, parse) == Step(d.(next := d.next + 1), cur, Plain(EndOfLine))
  {
    SixWideName(schema[0]);
    assert Directives(schema)[0] == NoTag.(size := 6);
    ReadsLine(d, schema, cur, parse);
    TooShortAborts(d.(next := d.next + 1), "   a", schema, Directives(schema), cur, 0, 0, [], true, parse);
  }

  /** Unmarshal over data the scanner splits cleanly is Decode over the lines it delivers. */
  lemma UnmarshalOfScan(data: string, lines: seq<string>, v: Arg, parse: DateParser)
    requires ArgConforms(v) && ScanLines(data) == Scan(lines, false)
    ensures Unmarshal(data, v, parse) == Decode(NewDecoder(lines, false), v, parse)
  {
  }

  /**
    The round trip fails for a string value holding '\n': Marshal writes
    "   a\nb", the scanner delivers "   a" first, and Unmarshal returns the
    end-of-line error with the target untouched.
   */
  lemma NewlineInValue(schema: seq<Field>, parse: DateParser)
    requires schema == NameSchema
    ensures Conforms(schema, [StrVal("a\nb")]) && Conforms(schema, [StrVal("")])
    ensures Marshal(Pointer(StructOf(schema, [StrVal("a\nb")]))) == Ok("   a\nb")
    ensures Unmarshal("   a\nb", Pointer(StructOf(schema, [StrVal("")])), parse)
         == DecodeOut(NewDecoder(["   a", "b"], false).(next := 1), Pointer(StructOf(schema, [StrVal("")])), Plain(EndOfLine))
  {
    NewlineMarshal(schema, [StrVal("a\nb")]);
    var data := "   a\nb";
    var d := NewDecoder(["   a", "b"], false);
    var arg := Pointer(StructOf(schema, [StrVal("")]));
    NewlineScan(data);
    UnmarshalOfScan(data, ["   a", "b"], arg, parse);
    NewlineDecode(d, schema, [StrVal("")], parse);
  }
}
