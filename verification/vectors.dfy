/**
  Concrete inputs and outputs: the directives, records and lines used by the
  repository's own tests and examples, worked through the model.
 */
module TestVectors {
  import opened Wrappers
  import opened Strconv
  import opened Strs
  import opened Tags
  import opened Schema
  import opened Encoding
  import opened Columns
  import opened Decoding

  /** A directive of two comma-separated elements. */
  lemma SplitTwo(a: string, b: string)
    requires ',' !in a && ',' !in b
    ensures Split(a + "," + b, ',') == [a, b]
  {
    SplitFirst(a, b, ',');
    SplitNoSeparator(b, ',');
  }

  /** A word that does not start with a digit or a sign is not a width. */
  lemma NotAWidth(e: string)
    requires |e| > 0 && !IsDigit(e[0]) && !IsSign(e[0])
    ensures ParseInt(e).Err?
  {
    ParseIntSpec(e);
  }

  /** A width followed by one option: the width is read, then the option applied. */
  lemma WidthThen(w: string, n: int, opt: string)
    requires ParseInt(w) == Ok(n) && ',' !in w && ',' !in opt
    ensures ParseTags(w + "," + opt) == ApplyOption(NoTag.(size := n), opt)
  {
    SplitTwo(w, opt);
    OneOption(NoTag.(size := n), opt);
    assert [w, opt][1..] == [opt];
  }

  lemma OneOption(t: Tag, o: string)
    ensures ApplyOptions(t, [o]) == ApplyOption(t, o)
  {
    assert [o][1..] == [];
  }

  /** A non-width followed by another element: both are read as options. */
  lemma OptionThen(o: string, e: string)
    requires ParseInt(o).Err? && ',' !in o && ',' !in e
    ensures ParseTags(o + "," + e) == ApplyOption(ApplyOption(NoTag, o), e)
  {
    SplitTwo(o, e);
    OneOption(ApplyOption(NoTag, o), e);
    assert [o, e][1..] == [e];
  }

  /** A single element that is not a width is read as an option. */
  lemma LoneOption(o: string)
    requires o != "" && ParseInt(o).Err? && ',' !in o
    ensures ParseTags(o) == ApplyOption(NoTag, o)
  {
    SplitNoSeparator(o, ',');
    OneOption(NoTag, o);
  }

  lemma Six()
    ensures ParseInt("6") == Ok(6)
  {
    ParseIntSpec("6");
  }

  lemma Twenty()
    ensures ParseInt("20") == Ok(20)
  {
    ParseIntSpec("20");
    assert IsSignedDigits("20");
    assert Unsigned("20") == "20";
    assert "20"[..1] == "2" && "2"[..0] == "";
    assert ValueOf("20") == 20;
  }

  /*
    The concrete lemmas below take the directive text as a parameter that
    their precondition fixes, and derive the result from the general lemmas
    above rather than from the literal.
   */

  /** A lone width sets the width and nothing else. */
  lemma WidthAlone(tag: string)
    requires tag == "6"
    ensures ParseTags(tag) == NoTag.(size := 6)
  {
    SplitNoSeparator(tag, ',');
    Six();
  }

  /** A width followed by `upper` sets both. */
  lemma WidthThenUpper(tag: string)
    requires tag == "6,upper"
    ensures ParseTags(tag) == NoTag.(size := 6, upper := true)
  {
    Six();
    WidthThen("6", 6, "upper");
    SixUpper(tag);
  }

  lemma SixUpper(tag: string)
    requires tag == "6,upper"
    ensures "6" + "," + "upper" == tag
  {
  }

  /** The directive of the decoder test's name field. */
  lemma WideUpper(tag: string)
    requires tag == "20,upper"
    ensures ParseTags(tag) == NoTag.(size := 20, upper := true)
  {
    Twenty();
    WidthThen("20", 20, "upper");
    TwentyUpper(tag);
  }

  lemma TwentyUpper(tag: string)
    requires tag == "20,upper"
    ensures "20" + "," + "upper" == tag
  {
  }

  /** A width is only read in first position: after an option it is an unknown option. */
  lemma WidthSecond(tag: string)
    requires tag == "upper,6"
    ensures ParseTags(tag) == NoTag.(upper := true)
  {
    NotAWidth("upper");
    OptionThen("upper", "6");
    assert "upper" + "," + "6" == tag;
  }

  /**
    Unknown options set nothing: options match exactly, so a leading space
    makes an unknown option, and the decoder's `optional` is unknown to the
    directive parser.
   */
  lemma UnknownOptions(spaced: string, optional: string)
    requires spaced == " upper" && optional == "optional"
    ensures ParseTags(spaced) == NoTag
    ensures ParseTags(optional) == NoTag
  {
    NotAWidth(spaced);
    LoneOption(spaced);
    NotAWidth(optional);
    LoneOption(optional);
  }

  /** `-` skips the field. */
  lemma Skip(tag: string)
    requires tag == "-"
    ensures ParseTags(tag) == NoTag.(skip := true)
  {
    ParseIntSpec(tag);
    LoneOption(tag);
  }

  /** `nopad` turns padding off. */
  lemma NoPad(tag: string)
    requires tag == "6,nopad"
    ensures ParseTags(tag) == NoTag.(size := 6, noPadding := true)
  {
    Six();
    WidthThen("6", 6, "nopad");
    assert "6" + "," + "nopad" == tag;
  }

  /** The record type of the encoder test: two plain, three six-wide and one skipped field. */
  const RecordType: seq<Field> := [
    Field("Seq", Int, "", false, true),
    Field("Name", Str, "6", false, true),
    Field("Code", Int, "6", false, true),
    Field("Label", Str, "6,upper", false, true),
    Field("Internal", Str, "-", false, true),
    Field("Free", Str, "", false, true)
  ]

  /** An int field under a positive width without `nopad`: the zero-padded decimal. */
  lemma PaddedIntToken(f: Field, n: int, v: int)
    requires f.kind.Int? && IsInt64(v) && 0 < n <= MaxFmtWidth && ParseTags(f.tag) == NoTag.(size := n)
    ensures FieldToken(f, IntVal(v)) == ZeroPad(v, n)
  {
  }

  /** A string field under a positive width, neither `upper` nor `nopad`, that the text fits: right-justified. */
  lemma PaddedStrToken(f: Field, n: int, s: string)
    requires f.kind.Str? && n >= |s| && n <= MaxFmtWidth && ParseTags(f.tag) == NoTag.(size := n)
    ensures FieldToken(f, StrVal(s)) == Spaces(n - |s|) + s
  {
    assert s[..|s|] == s;
  }

  /**
    A string field under width 6 and `upper`, whose text is a six-character
    head and some tail: the head upper-cased, the tail cut off.
   */
  lemma UpperSixToken(f: Field, head: string, tail: string)
    requires f.kind.Str? && ParseTags(f.tag) == NoTag.(size := 6, upper := true) && |head| == 6
    ensures FieldToken(f, StrVal(head + tail)) == ToUpper(head)
  {
    ToUpperAppend(head, tail);
    assert (ToUpper(head) + ToUpper(tail))[..6] == ToUpper(head);
    assert Spaces(0) == [];
  }

  /** An untagged field: the plain decimal or the text as it is. */
  lemma PlainTokens(f: Field, v: Value)
    requires f.tag == "" && FieldConforms(f, v)
    ensures f.kind.Int? ==> FieldToken(f, v) == FormatInt(v.i)
    ensures f.kind.Str? ==> FieldToken(f, v) == v.s
  {
    if f.kind.Str? {
      assert v.s[..|v.s|] == v.s;
    }
  }

  /** Six pieces written one after another. */
  lemma ConcatSix<T>(t0: seq<T>, t1: seq<T>, t2: seq<T>, t3: seq<T>, t4: seq<T>, t5: seq<T>)
    ensures Concat([t0, t1, t2, t3, t4, t5]) == t0 + t1 + t2 + t3 + t4 + t5
  {
    assert [t0, t1, t2, t3, t4, t5] == [t0, t1, t2, t3, t4] + [t5];
    ConcatSnoc([t0, t1, t2, t3, t4], t5);
    assert [t0, t1, t2, t3, t4] == [t0, t1, t2, t3] + [t4];
    ConcatSnoc([t0, t1, t2, t3], t4);
    assert [t0, t1, t2, t3] == [t0, t1, t2] + [t3];
    ConcatSnoc([t0, t1, t2], t3);
    assert [t0, t1, t2] == [t0, t1] + [t2];
    ConcatSnoc([t0, t1], t2);
    assert [t0, t1] == [t0] + [t1];
    ConcatSnoc([t0], t1);
    assert Concat([t0]) == t0;
  }

  /** A six-field line is its six tokens one after another. */
  lemma EncodeSix(schema: seq<Field>, rec: seq<Value>, t0: string, t1: string, t2: string, t3: string, t4: string, t5: string)
    requires |schema| == 6 && Conforms(schema, rec)
    requires FieldToken(schema[0], rec[0]) == t0 && FieldToken(schema[1], rec[1]) == t1
    requires FieldToken(schema[2], rec[2]) == t2 && FieldToken(schema[3], rec[3]) == t3
    requires FieldToken(schema[4], rec[4]) == t4 && FieldToken(schema[5], rec[5]) == t5
    ensures EncodeStruct(schema, rec) == t0 + t1 + t2 + t3 + t4 + t5
  {
    var toks := Tokens(schema, rec);
    assert toks[0] == t0 && toks[1] == t1 && toks[2] == t2 && toks[3] == t3 && toks[4] == t4 && toks[5] == t5;
    assert toks == [t0, t1, t2, t3, t4, t5];
    ConcatSix(t0, t1, t2, t3, t4, t5);
  }

  /**
    What the encoder test's record type says, with its directives read: an
    untagged int, a six-wide string, a six-wide int, a six-wide upper-cased
    string, a skipped string and an untagged string.
   */
  predicate EncoderTestType(schema: seq<Field>) {
    && |schema| == 6
    && schema[0].kind == Int && schema[0].tag == ""
    && schema[1].kind == Str && ParseTags(schema[1].tag) == NoTag.(size := 6)
    && schema[2].kind == Int && ParseTags(schema[2].tag) == NoTag.(size := 6)
    && schema[3].kind == Str && ParseTags(schema[3].tag) == NoTag.(size := 6, upper := true)
    && schema[4].kind == Str && ParseTags(schema[4].tag).skip
    && schema[5].kind == Str && schema[5].tag == ""
  }

  lemma RecordTypeDirectives()
    ensures EncoderTestType(RecordType)
  {
    WidthAlone(RecordType[1].tag);
    WidthThenUpper(RecordType[3].tag);
    Skip(RecordType[4].tag);
  }

  /** The tokens of the first, fifth and sixth fields, whatever the values. */
  lemma OuterTokens(schema: seq<Field>, rec: seq<Value>)
    requires schema == RecordType && Conforms(schema, rec)
    ensures FieldToken(schema[0], rec[0]) == FormatInt(rec[0].i)
    ensures FieldToken(schema[4], rec[4]) == ""
    ensures FieldToken(schema[5], rec[5]) == rec[5].s
  {
    RecordTypeDirectives();
    assert FieldConforms(schema[0], rec[0]) && FieldConforms(schema[5], rec[5]);
    PlainTokens(schema[0], rec[0]);
    PlainTokens(schema[5], rec[5]);
  }

  /*
    Each computation on a literal sits in a lemma of its own, away from
    other facts about literals.
   */
  lemma UpperHello()
    ensures ToUpper("Hello ") == "HELLO "
  {
    ToUpperSpec("Hello ");
  }

  lemma HelloWorld()
    ensures "Hello " + "World" == "Hello World"
  {
  }

  lemma SixZeros()
    ensures ZeroPad(0, 6) == "000000"
  {
    assert Zeros(5) == "00000";
  }

  lemma HelloLine()
    ensures "1" + " HELLO" + "000000" + "HELLO " + "" + "world" == "1 HELLO000000HELLO world"
  {
  }

  lemma HelloName(f: Field)
    requires f.kind == Str && ParseTags(f.tag) == NoTag.(size := 6)
    ensures FieldToken(f, StrVal("HELLO")) == " HELLO"
  {
    PaddedStrToken(f, 6, "HELLO");
  }

  lemma HelloCode(f: Field)
    requires f.kind == Int && ParseTags(f.tag) == NoTag.(size := 6)
    ensures FieldToken(f, IntVal(0)) == "000000"
  {
    PaddedIntToken(f, 6, 0);
    SixZeros();
  }

  lemma HelloLabel(f: Field)
    requires f.kind == Str && ParseTags(f.tag) == NoTag.(size := 6, upper := true)
    ensures FieldToken(f, StrVal("Hello World")) == "HELLO "
  {
    UpperSixToken(f, "Hello ", "World");
    UpperHello();
    HelloWorld();
  }

  lemma HelloConforms(schema: seq<Field>, rec: seq<Value>)
    requires EncoderTestType(schema)
    requires rec == [IntVal(1), StrVal("HELLO"), IntVal(0), StrVal("Hello World"), StrVal("Unused"), StrVal("world")]
    ensures Conforms(schema, rec)
  {
    assert IsInt64(1) && IsInt64(0);
    assert forall k :: 0 <= k < 6 ==> FieldConforms(schema[k], rec[k]);
  }

  /**
    The encoder test's first record, on the test's record type:
    the name is right-justified, the code zero-padded, the label upper-cased
    and cut to six characters, and the skipped field leaves no trace.
   */
  lemma EncodeHello(schema: seq<Field>, rec: seq<Value>)
    requires schema == RecordType
    requires rec == [IntVal(1), StrVal("HELLO"), IntVal(0), StrVal("Hello World"), StrVal("Unused"), StrVal("world")]
    ensures Conforms(schema, rec)
    ensures Marshal(Direct(StructOf(schema, rec))) == Ok("1 HELLO000000HELLO world")
  {
    RecordTypeDirectives();
    HelloConforms(schema, rec);
    OuterTokens(schema, rec);
    HelloName(schema[1]);
    HelloCode(schema[2]);
    HelloLabel(schema[3]);
    EncodeSix(schema, rec, "1", " HELLO", "000000", "HELLO ", "", "world");
    HelloLine();
  }

  lemma UpperStack()
    ensures ToUpper("Stack ") == "STACK "
  {
    ToUpperSpec("Stack ");
  }

  lemma StackOverflow()
    ensures "Stack " + "Overflow" == "Stack Overflow"
  {
  }

  lemma CodeDigits()
    ensures ZeroPad(12345, 6) == "012345"
  {
    assert Digits(12345) == "12345";
    assert Zeros(1) == "0";
  }

  lemma OverflowLine()
    ensures "1" + " ERROR" + "012345" + "STACK " + "" + "Overflow" == "1 ERROR012345STACK Overflow"
  {
  }

  lemma OverflowName(f: Field)
    requires f.kind == Str && ParseTags(f.tag) == NoTag.(size := 6)
    ensures FieldToken(f, StrVal("ERROR")) == " ERROR"
  {
    PaddedStrToken(f, 6, "ERROR");
  }

  lemma OverflowCode(f: Field)
    requires f.kind == Int && ParseTags(f.tag) == NoTag.(size := 6)
    ensures FieldToken(f, IntVal(12345)) == "012345"
  {
    PaddedIntToken(f, 6, 12345);
    CodeDigits();
  }

  lemma OverflowLabel(f: Field)
    requires f.kind == Str && ParseTags(f.tag) == NoTag.(size := 6, upper := true)
    ensures FieldToken(f, StrVal("Stack Overflow")) == "STACK "
  {
    UpperSixToken(f, "Stack ", "Overflow");
    UpperStack();
    StackOverflow();
  }

  lemma OverflowConforms(schema: seq<Field>, rec: seq<Value>)
    requires EncoderTestType(schema)
    requires rec == [IntVal(1), StrVal("ERROR"), IntVal(12345), StrVal("Stack Overflow"), StrVal("Unused"), StrVal("Overflow")]
    ensures Conforms(schema, rec)
  {
    assert IsInt64(1) && IsInt64(12345);
    assert forall k :: 0 <= k < 6 ==> FieldConforms(schema[k], rec[k]);
  }

  /**
    The encoder test's second record: the code is zero-padded in front, and
    the label is upper-cased before it is cut to six characters.
   */
  lemma EncodeOverflow(schema: seq<Field>, rec: seq<Value>)
    requires schema == RecordType
    requires rec == [IntVal(1), StrVal("ERROR"), IntVal(12345), StrVal("Stack Overflow"), StrVal("Unused"), StrVal("Overflow")]
    ensures Conforms(schema, rec)
    ensures Marshal(Direct(StructOf(schema, rec))) == Ok("1 ERROR012345STACK Overflow")
  {
    RecordTypeDirectives();
    OverflowConforms(schema, rec);
    OuterTokens(schema, rec);
    OverflowName(schema[1]);
    OverflowCode(schema[2]);
    OverflowLabel(schema[3]);
    EncodeSix(schema, rec, "1", " ERROR", "012345", "STACK ", "", "Overflow");
    OverflowLine();
  }

  /**
    A width of 10^8 is past what fmt reads: the int field writes fmt's
    no-verb report with the value as an extra argument, not 10^8 digits.
   */
  lemma WideIntToken(t: Tag)
    requires t == NoTag.(size := 100_000_000)
    ensures IntToken(5, t) == "%!(NOVERB)%!(EXTRA int64=5)"
  {
    assert FormatInt(5) == "5";
  }
}
