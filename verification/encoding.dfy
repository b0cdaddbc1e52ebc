/**
  The encoding engine of encoder.go: one line of text per record value, one
  token per field in declaration order with nothing between tokens. Only
  integer and string fields produce text.
 */
module Encoding {
  import opened Wrappers
  import opened Strconv
  import opened Strs
  import opened Tags
  import opened Schema
  import opened Columns

  function Max(a: int, b: int): int {
    if a < b then b else a
  }

  /**
    `fmt`'s `%0<w>d` for w > 0: the sign is written first and counts toward
    the width, and zeros go between sign and digits; the digits are never cut.
   */
  function ZeroPad(v: int, w: int): string {
    if v < 0 then "-" + Zeros(w - 1 - |Digits(-v)|) + Digits(-v)
    else Zeros(w - |Digits(v)|) + Digits(v)
  }

  /** A zero-padded integer is as wide as asked, or as its plain decimal when that is wider. */
  lemma ZeroPadWidth(v: int, w: int)
    ensures |ZeroPad(v, w)| == Max(w, |FormatInt(v)|)
  {
  }

  /** Zero padding is harmless to ParseInt: a padded int64 parses back to its value. */
  lemma ZeroPadParses(v: int, w: int)
    requires IsInt64(v)
    ensures ParseInt(ZeroPad(v, w)) == Ok(v)
  {
    ParseZeroPadded(v, if v < 0 then w - 1 - |Digits(-v)| else w - |Digits(v)|);
  }

  /** fmt's `-` flag: the text followed by spaces up to width `w`. */
  function LeftJustify(s: string, w: int): string {
    s + Spaces(w - |s|)
  }

  /** A left-justified text keeps the text in front and only white space after it. */
  lemma LeftJustifyShape(s: string, w: int)
    ensures var r := LeftJustify(s, w);
            |r| == Max(w, |s|) && r[..|s|] == s && AllSpace(r[|s|..])
  {
    var r := LeftJustify(s, w);
    SpacesAllSpace(w - |s|);
    assert r[..|s|] == s;
    assert r[|s|..] == Spaces(w - |s|);
  }

  /**
    The largest width fmt reads from a format: it gives up on a width once
    the digits read so far exceed 10^6, so a width is read exactly when its
    value divided by 10 is at most 10^6.
   */
  const MaxFmtWidth: int := 10_000_009

  /** A padded format whose width fmt cannot read. */
  predicate WidthTooLarge(t: Tag) {
    !t.noPadding && (t.size > MaxFmtWidth || t.size < -MaxFmtWidth)
  }

  /**
    What fmt writes for a format whose width it cannot read: the rest of
    the format, verb included, is lost, and the argument is reported as an
    extra one, with its Go type and its default form.
   */
  function BadWidth(typeName: string, shown: string): string {
    "%!(NOVERB)%!(EXTRA " + typeName + "=" + shown + ")"
  }

  /**
    An integer field. Without `nopad` the format is `%0<size>d`: for a
    positive size the decimal value is zero-padded to at least `size`
    characters and never cut, and the token still parses back to the value;
    a negative size reads as fmt's `-` flag and pads with spaces on the right;
    size 0 (or `nopad`) gives the plain decimal. A width too large for fmt
    loses the verb.
   */
  function IntToken(v: int, t: Tag): string {
    if t.noPadding || t.size == 0 then FormatInt(v)
    else if WidthTooLarge(t) then BadWidth("int64", FormatInt(v))
    else if t.size > 0 then ZeroPad(v, t.size)
    else LeftJustify(FormatInt(v), -t.size)
  }

  /** The shape IntToken promises for each combination of width and `nopad`. */
  lemma IntTokenShape(v: int, t: Tag)
    requires IsInt64(v)
    ensures var r := IntToken(v, t); var d := FormatInt(v);
            && (t.noPadding || t.size == 0 ==> r == d && ParseInt(r) == Ok(v))
            && (WidthTooLarge(t) ==> r == BadWidth("int64", d))
            && (!t.noPadding && 0 < t.size <= MaxFmtWidth ==> |r| == Max(t.size, |d|) && ParseInt(r) == Ok(v))
            && (!t.noPadding && -MaxFmtWidth <= t.size < 0 ==>
                  |r| == Max(-t.size, |d|) && r[..|d|] == d && AllSpace(r[|d|..]))
  {
    ParseFormatInt(v);
    if !t.noPadding && 0 < t.size <= MaxFmtWidth {
      ZeroPadWidth(v, t.size);
      ZeroPadParses(v, t.size);
    } else if !t.noPadding && -MaxFmtWidth <= t.size < 0 {
      LeftJustifyShape(FormatInt(v), -t.size);
    }
  }

  /** The text a string field starts from: upper-cased first when `upper` is set. */
  function CaseFold(s: string, t: Tag): string {
    if t.upper then ToUpper(s) else s
  }

  /** How many characters of the case-folded text survive truncation. */
  function Kept(u: string, t: Tag): (n: nat)
    ensures n <= |u|
  {
    if t.size > 0 && |u| > t.size then t.size else |u|
  }

  /**
    A string field. The text is upper-cased (with `upper`) before it is cut to
    its first `size` characters (only for size > 0, `nopad` or not). Without
    `nopad` the result is right-justified in exactly `size` characters,
    space-padded on the left; size 0 emits the text unchanged; a negative size
    left-justifies. With `nopad` the kept text is emitted as is. A width too
    large for fmt loses the verb.
   */
  function StrToken(s: string, t: Tag): string
  {
    var u := CaseFold(s, t);
    var c := u[..Kept(u, t)];
    if t.noPadding then c
    else if WidthTooLarge(t) then BadWidth("string", c)
    else if t.size > 0 then Spaces(t.size - |c|) + c
    else if t.size < 0 then LeftJustify(c, -t.size)
    else c
  }

  /** The shape StrToken promises for each combination of width and `nopad`. */
  lemma StrTokenShape(s: string, t: Tag)
    ensures var r := StrToken(s, t); var u := CaseFold(s, t); var m := Kept(u, t);
            && (t.size > 0 ==> m == if |u| < t.size then |u| else t.size)
            && (t.noPadding ==> r == u[..m])
            && (t.size == 0 ==> r == u)
            && (WidthTooLarge(t) ==> r == BadWidth("string", u[..m]))
            && (!t.noPadding && 0 < t.size <= MaxFmtWidth ==>
                  |r| == t.size && r[t.size - m..] == u[..m] && AllSpace(r[..t.size - m]))
            && (!t.noPadding && -MaxFmtWidth <= t.size < 0 ==>
                  |r| == Max(-t.size, |u|) && r[..|u|] == u && AllSpace(r[|u|..]))
  {
    var u := CaseFold(s, t);
    var c := u[..Kept(u, t)];
    if WidthTooLarge(t) {
    } else if !t.noPadding && t.size > 0 {
      SpacesAllSpace(t.size - |c|);
      var r := Spaces(t.size - |c|) + c;
      assert r[..t.size - |c|] == Spaces(t.size - |c|);
      assert r[t.size - |c|..] == c;
    } else if !t.noPadding && t.size < 0 {
      assert c == u;
      LeftJustifyShape(c, -t.size);
    }
  }

  /** One field's token: nothing for a skipped field or for a kind other than int and string. */
  function FieldToken(f: Field, v: Value): string
    requires FieldConforms(f, v)
  {
    var t := ParseTags(f.tag);
    if t.skip then ""
    else
      match f.kind
      case Int => IntToken(v.i, t)
      case Str => StrToken(v.s, t)
      case _ => ""
  }

  /** Every field's token, in declaration order. */
  function Tokens(schema: seq<Field>, rec: seq<Value>): (toks: seq<string>)
    requires Conforms(schema, rec)
    ensures |toks| == |schema|
  {
    seq(|schema|, k requires 0 <= k < |schema| => FieldToken(schema[k], rec[k]))
  }

  /** `encodeStruct`: the fields' tokens written one after another, with no separators. */
  function EncodeStruct(schema: seq<Field>, rec: seq<Value>): string
    requires Conforms(schema, rec)
  {
    Concat(Tokens(schema, rec))
  }

  /** Whether the encoder writes anything for field `f`: it is not skipped, and it is an int or a string. */
  predicate Written(f: Field) {
    !ParseTags(f.tag).skip && (f.kind.Int? || f.kind.Str?)
  }

  /**
    A skipped field, or one of any kind but int and string, contributes
    nothing to the line, whatever its value; a written int always shows at
    least its plain decimal.
   */
  lemma FieldTokenWritten(f: Field, v: Value)
    requires FieldConforms(f, v)
    ensures !Written(f) ==> FieldToken(f, v) == ""
    ensures Written(f) && f.kind.Int? ==> |FieldToken(f, v)| >= |FormatInt(v.i)|
  {
    var t := ParseTags(f.tag);
    if Written(f) && f.kind.Int? && !t.noPadding && t.size > 0 {
      ZeroPadWidth(v.i, t.size);
    }
  }

  /** The line depends on the written fields only: records that agree on them encode alike. */
  lemma EncodeOnlyWritten(schema: seq<Field>, rec: seq<Value>, rec2: seq<Value>)
    requires Conforms(schema, rec) && Conforms(schema, rec2)
    requires forall k :: 0 <= k < |schema| && Written(schema[k]) ==> rec[k] == rec2[k]
    ensures EncodeStruct(schema, rec) == EncodeStruct(schema, rec2)
  {
    forall k | 0 <= k < |schema|
      ensures Tokens(schema, rec)[k] == Tokens(schema, rec2)[k]
    {
      FieldTokenWritten(schema[k], rec[k]);
      FieldTokenWritten(schema[k], rec2[k]);
    }
    assert Tokens(schema, rec) == Tokens(schema, rec2);
  }

  /** The line is exactly as long as the field tokens together. */
  lemma EncodeLength(schema: seq<Field>, rec: seq<Value>)
    requires Conforms(schema, rec)
    ensures var ws := seq(|schema|, k requires 0 <= k < |schema| => |FieldToken(schema[k], rec[k])|);
            |EncodeStruct(schema, rec)| == Start(ws, |schema|)
  {
    var ws := seq(|schema|, k requires 0 <= k < |schema| => |FieldToken(schema[k], rec[k])|);
    ConcatLength(Tokens(schema, rec), ws);
  }

  datatype EncodeError = InvalidPointer | InvalidValueType

  /** What `Encode` leaves in the writer, and the error it returns. */
  datatype EncodeOut = EncodeOut(written: string, err: Option<EncodeError>)

  /**
    `Encoder.Encode` on a writer that already holds `w`: a typed nil pointer
    or a pointer to a non-struct is an invalid pointer, a non-struct value is
    an invalid value type, and in both cases nothing is written; a struct, by
    pointer or by value, is encoded onto the end of `w` and no error results.
   */
  function Encode(w: string, src: Arg): (r: EncodeOut)
    requires ArgConforms(src)
    ensures r.err.None? <==> !src.NilPointer? && src.target.StructOf?
    ensures r.err == Some(InvalidPointer) <==> src.NilPointer? || (src.Pointer? && src.target.NonStruct?)
    ensures r.err == Some(InvalidValueType) <==> src.Direct? && src.target.NonStruct?
    ensures r.err.Some? ==> r.written == w
    ensures r.err.None? ==> r.written == w + EncodeStruct(src.target.schema, src.target.rec)
  {
    match src
    case NilPointer => EncodeOut(w, Some(InvalidPointer))
    case Pointer(NonStruct) => EncodeOut(w, Some(InvalidPointer))
    case Pointer(StructOf(schema, rec)) => EncodeOut(w + EncodeStruct(schema, rec), None)
    case Direct(StructOf(schema, rec)) => EncodeOut(w + EncodeStruct(schema, rec), None)
    case Direct(NonStruct) => EncodeOut(w, Some(InvalidValueType))
  }

  /** `Marshal`: Encode into an empty buffer; the bytes on success, only the error otherwise. */
  function Marshal(src: Arg): (r: Result<string, EncodeError>)
    requires ArgConforms(src)
    ensures r.Ok? <==> !src.NilPointer? && src.target.StructOf?
    ensures r.Ok? ==> r.value == EncodeStruct(src.target.schema, src.target.rec)
    ensures r.Err? ==> Encode([], src).err == Some(r.error)
  {
    var out := Encode([], src);
    match out.err
    case Some(e) => Err(e)
    case None => Ok(out.written)
  }
}
