/**
  The two engines agree on the column layout: when every field is a padded
  int or string whose value fits its width (or is skipped), encoding a record
  and decoding the line gives back its values, upper-cased where the
  directive says so.
 */
module RoundTrip {
  import opened Wrappers
  import opened Strconv
  import opened Strs
  import opened Tags
  import opened Schema
  import opened Columns
  import opened Encoding
  import opened Scanner
  import opened Decoding
  import DecoderLaws

  /**
    A field that survives the round trip under directive `t`: skipped, or a
    padded int or string field of positive width, no larger than fmt reads,
    whose value needs no more than that width; a string must not start or end with white space, which
    the decoder trims, and must not hold a '\n', where the scanner would
    cut the line.
   */
  predicate Fits(t: Tag, f: Field, v: Value)
    requires FieldConforms(f, v)
  {
    t.skip || (
      && 0 < t.size <= MaxFmtWidth && !t.noPadding
      && match f.kind
         case Int => |FormatInt(v.i)| <= t.size
         case Str => |v.s| <= t.size && Trimmed(v.s) && NoNewline(v.s)
         case _ => false)
  }

  predicate AllFit(schema: seq<Field>, rec: seq<Value>)
    requires Conforms(schema, rec)
  {
    forall k :: 0 <= k < |schema| ==> Fits(FieldTag(schema[k]), schema[k], rec[k])
  }

  /** What a fitting field's token decodes back to: ints unchanged, strings case-folded as written. */
  function DecodedValue(t: Tag, f: Field, v: Value): Value
    requires FieldConforms(f, v)
  {
    if f.kind.Str? then StrVal(CaseFold(v.s, t)) else v
  }

  /** What the round trip leaves in a field that held `prior`: skipped and unsettable fields keep it. */
  function Expected(t: Tag, f: Field, v: Value, prior: Value): Value
    requires FieldConforms(f, v)
  {
    if t.skip || !f.settable then prior else DecodedValue(t, f, v)
  }

  /** The record the round trip leaves behind when the decoder starts from `cur`. */
  function Decoded(schema: seq<Field>, rec: seq<Value>, cur: seq<Value>): (r: seq<Value>)
    requires Conforms(schema, rec) && |cur| == |schema|
    ensures |r| == |schema|
  {
    seq(|schema|, k requires 0 <= k < |schema| => Expected(FieldTag(schema[k]), schema[k], rec[k], cur[k]))
  }

  /** A fitting field's token is exactly as wide as its column, and only a skipped field has no column. */
  lemma TokenWidth(f: Field, v: Value)
    requires FieldConforms(f, v) && Fits(FieldTag(f), f, v)
    ensures |FieldToken(f, v)| == Width(FieldTag(f))
    ensures FieldTag(f).skip || FieldTag(f).size > 0
  {
    var t := ParseTags(f.tag);
    if !t.skip {
      if f.kind.Int? {
        ZeroPadWidth(v.i, t.size);
      } else {
        StrTokenShape(v.s, t);
      }
    }
  }

  /** A zero-padded int token has no surrounding space and parses back to its value. */
  lemma DecodeIntToken(v: int, t: Tag)
    requires IsInt64(v) && 0 < t.size <= MaxFmtWidth && !t.noPadding
    ensures TrimSpace(IntToken(v, t)) == IntToken(v, t)
    ensures ParseInt(IntToken(v, t)) == Ok(v)
  {
    var tok := ZeroPad(v, t.size);
    assert IntToken(v, t) == tok;
    ZeroPadParses(v, t.size);
    ParseIntSpec(tok);
    SignedDigitsTrimmed(tok);
    TrimSpaceTrimmed(tok);
  }

  /** A signed digit string has no space at either end. */
  lemma SignedDigitsTrimmed(s: string)
    requires IsSignedDigits(s)
    ensures Trimmed(s)
  {
    if |s| > 1 {
      assert s[|s| - 1] == s[1..][|s| - 2];
      assert IsDigit(s[1..][|s| - 2]);
    }
  }

  /** A right-justified string token that needed no cut trims back to the case-folded text. */
  lemma DecodeStrToken(s: string, t: Tag)
    requires 0 < t.size <= MaxFmtWidth && !t.noPadding && |s| <= t.size && Trimmed(s)
    ensures TrimSpace(StrToken(s, t)) == CaseFold(s, t)
  {
    var u := CaseFold(s, t);
    ToUpperTrimmed(s);
    assert u[..Kept(u, t)] == u;
    assert StrToken(s, t) == Spaces(t.size - |u|) + u;
    SpacesAllSpace(t.size - |u|);
    TrimSpaceAfterSpaces(Spaces(t.size - |u|), u);
  }

  /** A fitting field's token decodes back to the value it was written from, without entries. */
  lemma DecodeToken(f: Field, v: Value, prior: Value, layout: Layout, parse: DateParser)
    requires FieldConforms(f, v) && FieldConforms(f, prior) && Fits(FieldTag(f), f, v)
    requires !FieldTag(f).skip
    ensures f.kind.Int? || f.kind.Str?
    ensures SetScalar(f, FieldTag(f), FieldToken(f, v), prior, layout, parse) == Assign(DecodedValue(FieldTag(f), f, v), [])
  {
    var t := ParseTags(f.tag);
    if f.kind.Int? {
      DecodeIntToken(v.i, t);
    } else {
      DecodeStrToken(v.s, t);
    }
  }

  /** Token `tok` sets an int or string field `f` to `v`, whatever it held before, without entries. */
  ghost predicate Decodes(f: Field, t: Tag, tok: string, v: Value, layout: Layout, parse: DateParser) {
    && (f.kind.Int? || f.kind.Str?)
    && forall prior :: FieldConforms(f, prior) ==> SetScalar(f, t, tok, prior, layout, parse) == Assign(v, [])
  }

  /** Setting a field from a token that Decodes: the field takes the value and nothing else changes. */
  lemma SetDecoded(d: Decoder, schema: seq<Field>, rec: seq<Value>, i: nat, t: Tag, tok: string, v: Value, parse: DateParser)
    requires i < |schema| && Conforms(schema, rec)
    requires Decodes(schema[i], t, tok, v, d.layout, parse)
    ensures SetField(d, schema, rec, i, t, tok, [], parse) == Continue(d, rec[i := v], [])
  {
    assert FieldConforms(schema[i], rec[i]);
  }

  /**
    One turn of the field loop at field `i`'s column: when the column holds
    a token that Decodes to `v` (or the field is skipped or unsettable, and
    `v` is its current value), decoding from field `i` is decoding from
    field `i + 1` with field `i` already set to `v`.
   */
  lemma LineStep(d: Decoder, l: string, schema: seq<Field>, tags: seq<Tag>, tok: string, v: Value,
                 cur: seq<Value>, i: nat, parse: DateParser)
    requires |tags| == |schema| && i < |schema| && Conforms(schema, cur) && FieldConforms(schema[i], v)
    requires Start(Widths(tags), i) < |l| <= MaxInt64 && CutAt(l, Widths(tags), i, tok)
    requires tags[i].skip || tags[i].size > 0
    requires !tags[i].skip && schema[i].settable ==> Decodes(schema[i], tags[i], tok, v, d.layout, parse)
    requires tags[i].skip || !schema[i].settable ==> v == cur[i]
    ensures Conforms(schema, cur[i := v])
    ensures DecodeFields(d, l, schema, tags, cur, i, Start(Widths(tags), i), [], true, parse)
         == DecodeFields(d, l, schema, tags, cur[i := v], i + 1, Start(Widths(tags), i + 1), [], true, parse)
  {
    var ws := Widths(tags);
    if tags[i].skip || !schema[i].settable {
      assert cur[i := v] == cur;
    }
    if !tags[i].skip {
      assert NextToken(l, Start(ws, i), tags[i]) == Token(tok, Start(ws, i + 1));
      if schema[i].settable {
        SetDecoded(d, schema, cur, i, tags[i], tok, v, parse);
      }
    }
  }

  /**
    Line `l` is cut into fixed-width columns holding `toks` under the
    directives `tags`, and from field `i` on each column's token Decodes to
    the wanted value, or the field is skipped or unsettable and the wanted
    value is the current one.
   */
  ghost predicate Decodable(d: Decoder, l: string, schema: seq<Field>, tags: seq<Tag>, toks: seq<string>,
                            want: seq<Value>, cur: seq<Value>, i: nat, parse: DateParser) {
    && |tags| == |schema| && |toks| == |schema| && i <= |schema|
    && Conforms(schema, cur) && Conforms(schema, want)
    && FixedWidth(tags) && |l| == Start(Widths(tags), |schema|) && |l| <= MaxInt64
    && (forall k :: i <= k < |schema| ==> CutAt(l, Widths(tags), k, toks[k]))
    && (forall k :: i <= k < |schema| && !tags[k].skip && schema[k].settable ==>
          Decodes(schema[k], tags[k], toks[k], want[k], d.layout, parse))
    && (forall k :: i <= k < |schema| && (tags[k].skip || !schema[k].settable) ==> want[k] == cur[k])
  }

  /**
    The field loop over a Decodable line, from field `i` at its column:
    it ends without error and without reading further lines, leaves the
    fields before `i` alone, and leaves every later field as wanted.
   */
  lemma {:induction false} DecodeLine(d: Decoder, l: string, schema: seq<Field>, tags: seq<Tag>, toks: seq<string>,
                                      want: seq<Value>, cur: seq<Value>, i: nat, parse: DateParser)
    requires |tags| == |schema| && |toks| == |schema| && i <= |schema|
    requires Conforms(schema, cur) && Conforms(schema, want)
    requires FixedWidth(tags) && |l| == Start(Widths(tags), |schema|) <= MaxInt64
    requires forall k :: i <= k < |schema| ==> CutAt(l, Widths(tags), k, toks[k])
    requires forall k :: i <= k < |schema| && !tags[k].skip && schema[k].settable ==>
               Decodes(schema[k], tags[k], toks[k], want[k], d.layout, parse)
    requires forall k :: i <= k < |schema| && (tags[k].skip || !schema[k].settable) ==> want[k] == cur[k]
    ensures DecodeFields(d, l, schema, tags, cur, i, Start(Widths(tags), i), [], true, parse)
         == Step(d, cur[..i] + want[i..], Nil)
    decreases |schema| - i
  {
    var ws := Widths(tags);
    var start := Start(ws, i);
    if i < |schema| && start < |l| {
      assert FieldConforms(schema[i], want[i]);
      LineStep(d, l, schema, tags, toks[i], want[i], cur, i, parse);
      var cur2 := cur[i := want[i]];
      DecodeLine(d, l, schema, tags, toks, want, cur2, i + 1, parse);
      SpliceStep(cur, want, i);
    } else {
      forall k | i <= k < |schema|
        ensures tags[k].skip
      {
        ZeroWidthTail(tags, i, k);
      }
      SpliceSame(cur, want, i);
    }
  }

  /** The whole field loop over a Decodable line: no error, no further line read, every field as wanted. */
  lemma DecodeWholeLine(d: Decoder, l: string, schema: seq<Field>, tags: seq<Tag>, toks: seq<string>,
                        want: seq<Value>, cur: seq<Value>, parse: DateParser)
    requires Decodable(d, l, schema, tags, toks, want, cur, 0, parse)
    ensures DecodeFields(d, l, schema, tags, cur, 0, 0, [], true, parse) == Step(d, want, Nil)
  {
    DecodeLine(d, l, schema, tags, toks, want, cur, 0, parse);
    SpliceStart(cur, want);
  }

  /** Taking field `i` from `want` moves the splice point one field on. */
  lemma SpliceStep<T>(cur: seq<T>, want: seq<T>, i: nat)
    requires i < |cur| == |want|
    ensures cur[i := want[i]][..i + 1] + want[i + 1..] == cur[..i] + want[i..]
  {
    assert want[i..] == [want[i]] + want[i + 1..];
    assert cur[i := want[i]][..i + 1] == cur[..i] + [want[i]];
  }

  /** Splicing at the start takes everything from `want`. */
  lemma SpliceStart<T>(cur: seq<T>, want: seq<T>)
    ensures cur[..0] + want[0..] == want
  {
    assert cur[..0] == [];
  }

  /** Splicing in a tail that agrees with `cur` changes nothing. */
  lemma SpliceSame<T>(cur: seq<T>, want: seq<T>, i: nat)
    requires i <= |cur| == |want|
    requires forall k :: i <= k < |cur| ==> want[k] == cur[k]
    ensures cur[..i] + want[i..] == cur
  {
    assert want[i..] == cur[i..];
    assert cur == cur[..i] + cur[i..];
  }

  /**
    The encoding of a record whose fields all fit is Decodable into any
    record `cur`: its tokens fill fixed-width columns, and each settable
    field that is not skipped gets its Decoded value back from its token.
   */
  lemma EncodedDecodable(d: Decoder, schema: seq<Field>, rec: seq<Value>, cur: seq<Value>, parse: DateParser)
    requires Conforms(schema, rec) && Conforms(schema, cur) && AllFit(schema, rec)
    requires |EncodeStruct(schema, rec)| <= MaxInt64
    ensures Decodable(d, EncodeStruct(schema, rec), schema, Directives(schema), Tokens(schema, rec),
                      Decoded(schema, rec, cur), cur, 0, parse)
  {
    var tags, toks, want := Directives(schema), Tokens(schema, rec), Decoded(schema, rec, cur);
    var ws := Widths(tags);
    forall k | 0 <= k < |schema|
      ensures |toks[k]| == ws[k] && (tags[k].skip || tags[k].size > 0)
      ensures FieldConforms(schema[k], want[k])
      ensures !tags[k].skip && schema[k].settable ==> Decodes(schema[k], tags[k], toks[k], want[k], d.layout, parse)
    {
      assert FieldConforms(schema[k], rec[k]) && FieldConforms(schema[k], cur[k]);
      assert Fits(FieldTag(schema[k]), schema[k], rec[k]);
      TokenWidth(schema[k], rec[k]);
      if !tags[k].skip && schema[k].settable {
        forall prior | FieldConforms(schema[k], prior)
          ensures SetScalar(schema[k], tags[k], toks[k], prior, d.layout, parse) == Assign(want[k], [])
        {
          DecodeToken(schema[k], rec[k], prior, d.layout, parse);
        }
      }
    }
    ConcatLength(toks, ws);
    forall k | 0 <= k < |schema|
      ensures CutAt(EncodeStruct(schema, rec), ws, k, toks[k])
    {
      ConcatCut(toks, ws, k);
    }
  }

  /** The field loop over the encoding of a record whose fields all fit leaves every field as Decoded says. */
  lemma DecodeEncodedLine(d: Decoder, schema: seq<Field>, rec: seq<Value>, cur: seq<Value>, parse: DateParser)
    requires Conforms(schema, rec) && Conforms(schema, cur) && AllFit(schema, rec)
    requires |EncodeStruct(schema, rec)| <= MaxInt64
    ensures DecodeFields(d, EncodeStruct(schema, rec), schema, Directives(schema), cur, 0, 0, [], true, parse)
         == Step(d, Decoded(schema, rec, cur), Nil)
  {
    EncodedDecodable(d, schema, rec, cur, parse);
    DecodeWholeLine(d, EncodeStruct(schema, rec), schema, Directives(schema), Tokens(schema, rec), Decoded(schema, rec, cur), cur, parse);
  }

  /**
    The round trip: when the next input line is the encoding of a record
    whose fields all fit, decoding into a record `cur` reads exactly that
    line, reports no error, and leaves each field as Expected says: the
    written value (upper-cased where the directive says so) in every
    settable field that is not skipped, and `cur`'s value in the others.
   */
  lemma RoundTripLine(d: Decoder, schema: seq<Field>, rec: seq<Value>, cur: seq<Value>, parse: DateParser)
    requires Conforms(schema, rec) && Conforms(schema, cur) && AllFit(schema, rec)
    requires d.next < |d.lines| && d.lines[d.next] == EncodeStruct(schema, rec) && |d.lines[d.next]| <= MaxInt64
    ensures DecodeStruct(d, schema, cur, true, parse) == Step(d.(next := d.next + 1), Decoded(schema, rec, cur), Nil)
  {
    var d1 := d.(next := d.next + 1);
    DecoderLaws.ReadsLine(d, schema, cur, parse);
    DecodeEncodedLine(d1, schema, rec, cur, parse);
  }

  /** A signed digit string holds no '\n' and ends with a digit. */
  lemma SignedDigitsClean(s: string)
    requires IsSignedDigits(s)
    ensures Clean(s)
  {
    assert forall k :: 1 <= k < |s| ==> s[k] == s[1..][k - 1];
  }

  /** Space padding is clean. */
  lemma {:induction false} SpacesClean(n: int)
    ensures Clean(Spaces(n))
  {
    if n > 0 {
      SpacesClean(n - 1);
      assert forall k :: 1 <= k < n ==> Spaces(n)[k] == Spaces(n - 1)[k - 1];
    }
  }

  /** A fitting field's token holds no '\n' and does not end with '\r', so the scanner leaves it alone. */
  lemma TokenClean(f: Field, v: Value)
    requires FieldConforms(f, v) && Fits(FieldTag(f), f, v)
    ensures Clean(FieldToken(f, v))
  {
    var t := ParseTags(f.tag);
    if !t.skip {
      if f.kind.Int? {
        ZeroPadParses(v.i, t.size);
        ParseIntSpec(ZeroPad(v.i, t.size));
        SignedDigitsClean(ZeroPad(v.i, t.size));
      } else {
        var u := CaseFold(v.s, t);
        ToUpperSpec(v.s);
        ToUpperTrimmed(v.s);
        assert Clean(u);
        assert u[..Kept(u, t)] == u;
        SpacesClean(t.size - |u|);
        CleanAppend(Spaces(t.size - |u|), u);
      }
    }
  }

  /** Clean tokens written one after another make a clean line. */
  lemma {:induction false} ConcatClean(toks: seq<string>)
    requires forall k :: 0 <= k < |toks| ==> Clean(toks[k])
    ensures Clean(Concat(toks))
    decreases |toks|
  {
    if toks != [] {
      ConcatClean(toks[..|toks| - 1]);
      CleanAppend(Concat(toks[..|toks| - 1]), toks[|toks| - 1]);
    }
  }

  /** The line of a record whose fields all fit holds no '\n' and does not end with '\r'. */
  lemma EncodingClean(schema: seq<Field>, rec: seq<Value>)
    requires Conforms(schema, rec) && AllFit(schema, rec)
    ensures Clean(EncodeStruct(schema, rec))
  {
    var toks := Tokens(schema, rec);
    forall k | 0 <= k < |toks|
      ensures Clean(toks[k])
    {
      TokenClean(schema[k], rec[k]);
    }
    ConcatClean(toks);
  }

  /**
    Marshal followed by Unmarshal of the bytes it produced, when the line
    fits the scanner's buffer: the pointer's struct ends up holding Decoded
    and the call returns nil.
   */
  lemma MarshalUnmarshal(schema: seq<Field>, rec: seq<Value>, cur: seq<Value>, parse: DateParser)
    requires Conforms(schema, rec) && Conforms(schema, cur) && AllFit(schema, rec)
    requires |EncodeStruct(schema, rec)| < MaxScanTokenSize
    ensures var m := Marshal(Pointer(StructOf(schema, rec)));
            && m == Ok(EncodeStruct(schema, rec))
            && Unmarshal(m.value, Pointer(StructOf(schema, cur)), parse).arg == Pointer(StructOf(schema, Decoded(schema, rec, cur)))
            && Unmarshal(m.value, Pointer(StructOf(schema, cur)), parse).out == Nil
  {
    var line := EncodeStruct(schema, rec);
    EncodingClean(schema, rec);
    if line == [] {
      DecodeEncodedLine(NewDecoder([], false), schema, rec, cur, parse);
    } else {
      ScanOneLine(line);
      RoundTripLine(NewDecoder([line], false), schema, rec, cur, parse);
    }
  }

  /**
    A field written and read back unchanged: the decoder may set it, does
    not skip it, and a string field is not upper-cased.
   */
  predicate Faithful(f: Field) {
    f.settable && !FieldTag(f).skip && (f.kind.Str? ==> !FieldTag(f).upper)
  }

  /** When every field is faithful, the round trip restores the record exactly, whatever the target held before. */
  lemma DecodedIsRecord(schema: seq<Field>, rec: seq<Value>, cur: seq<Value>)
    requires Conforms(schema, rec) && |cur| == |schema|
    requires forall k :: 0 <= k < |schema| ==> Faithful(schema[k])
    ensures Decoded(schema, rec, cur) == rec
  {
  }
}
