/**
  Single-step laws of the field loop of `decodeStruct`: how far each field
  moves the cursor, when the call stops, and where a nested struct reads
  its values from.
 */
module DecoderLaws {
  import opened Wrappers
  import opened Strs
  import opened Tags
  import opened Schema
  import opened Decoding
  import opened Strconv
  import opened Columns

  /** A call on a struct with a line left reads that line and walks it from the first field at column 0. */
  lemma ReadsLine(d: Decoder, schema: seq<Field>, cur: seq<Value>, parse: DateParser)
    requires Conforms(schema, cur) && d.next < |d.lines|
    ensures DecodeStruct(d, schema, cur, true, parse)
         == DecodeFields(d.(next := d.next + 1), d.lines[d.next], schema, Directives(schema), cur, 0, 0, [], true, parse)
  {
  }

  /** A skipped field reads nothing: the walk goes on with the next field at the same column. */
  lemma SkipReadsNothing(d: Decoder, l: string, schema: seq<Field>, tags: seq<Tag>, rec: seq<Value>, i: nat,
                         start: nat, errs: seq<DecodingError>, addressable: bool, parse: DateParser)
    requires i < |schema| && |tags| == |schema| && Conforms(schema, rec)
    requires start < |l| && tags[i].skip
    ensures DecodeFields(d, l, schema, tags, rec, i, start, errs, addressable, parse)
         == DecodeFields(d, l, schema, tags, rec, i + 1, start, errs, addressable, parse)
  {
  }

  /**
    A field that cannot be set still consumes its columns: the cursor moves
    `size` characters on, the record and the entries stay as they were.
   */
  lemma UnsettableStillMoves(d: Decoder, l: string, schema: seq<Field>, tags: seq<Tag>, rec: seq<Value>, i: nat,
                             start: nat, errs: seq<DecodingError>, addressable: bool, parse: DateParser)
    requires i < |schema| && |tags| == |schema| && Conforms(schema, rec)
    requires start < |l| <= MaxInt64 && !tags[i].skip && tags[i].size > 0 && start + tags[i].size <= |l|
    requires !(addressable && schema[i].settable)
    ensures DecodeFields(d, l, schema, tags, rec, i, start, errs, addressable, parse)
         == DecodeFields(d, l, schema, tags, rec, i + 1, start + tags[i].size, errs, addressable, parse)
  {
  }

  /**
    A field whose columns run past the end of the line ends the call with
    the plain end-of-line error: the fields set so far keep their new
    values, later fields are untouched, and the entries collected so far
    are lost. This holds whether or not the field could be set.
   */
  lemma TooShortAborts(d: Decoder, l: string, schema: seq<Field>, tags: seq<Tag>, rec: seq<Value>, i: nat,
                       start: nat, errs: seq<DecodingError>, addressable: bool, parse: DateParser)
    requires i < |schema| && |tags| == |schema| && Conforms(schema, rec)
    requires start < |l| && !tags[i].skip && tags[i].size > 0 && |l| < start + tags[i].size <= MaxInt64
    ensures DecodeFields(d, l, schema, tags, rec, i, start, errs, addressable, parse) == Step(d, rec, Plain(EndOfLine))
  {
  }

  /**
    A width that carries the end of the token past MaxInt64 wraps it around
    to a negative end: the end-of-line guard lets it through and the slice
    panics, settable field or not.
   */
  lemma WrapPanics(d: Decoder, l: string, schema: seq<Field>, tags: seq<Tag>, rec: seq<Value>, i: nat,
                   start: nat, errs: seq<DecodingError>, addressable: bool, parse: DateParser)
    requires i < |schema| && |tags| == |schema| && Conforms(schema, rec)
    requires start < |l| <= MaxInt64 && !tags[i].skip && IsInt64(tags[i].size) && start + tags[i].size > MaxInt64
    ensures DecodeFields(d, l, schema, tags, rec, i, start, errs, addressable, parse) == Step(d, rec, Panic)
  {
  }

  /** Field `i` is a settable int, string or date field that the decoder does not skip and that has a positive width. */
  predicate ScalarColumn(schema: seq<Field>, tags: seq<Tag>, i: nat) {
    && i < |schema| && |tags| == |schema|
    && (schema[i].kind.Int? || schema[i].kind.Str? || schema[i].kind.Date?) && schema[i].settable
    && !tags[i].skip && tags[i].size > 0
  }

  /**
    A settable int, string or date field whose columns fit the line takes
    its token from exactly those columns, gets the value SetScalar gives, adds
    SetScalar's entries after the earlier ones, and the walk goes on right
    after its columns.
   */
  lemma ScalarStep(d: Decoder, l: string, schema: seq<Field>, tags: seq<Tag>, rec: seq<Value>, i: nat,
                   start: nat, errs: seq<DecodingError>, parse: DateParser, token: string, a: Assign)
    requires ScalarColumn(schema, tags, i) && Conforms(schema, rec)
    requires start < |l| <= MaxInt64 && start + tags[i].size <= |l|
    requires token == l[start..start + tags[i].size]
    requires a == SetScalar(schema[i], tags[i], token, rec[i], d.layout, parse)
    ensures Conforms(schema, rec[i := a.value])
    ensures DecodeFields(d, l, schema, tags, rec, i, start, errs, true, parse)
         == DecodeFields(d, l, schema, tags, rec[i := a.value], i + 1, start + tags[i].size, errs + a.entries, true, parse)
  {
    ScalarSet(d, schema, rec, i, tags[i], token, errs, parse, a);
    TokenFits(l, start, tags[i], token);
  }

  /** A positive width that fits the line takes exactly the next `size` characters. */
  lemma TokenFits(l: string, start: nat, t: Tag, token: string)
    requires t.size > 0 && start + t.size <= |l| <= MaxInt64 && token == l[start..start + t.size]
    ensures NextToken(l, start, t) == Token(token, start + t.size)
  {
  }

  /** Setting an int, string or date field is SetScalar's value and entries, and nothing else. */
  lemma ScalarSet(d: Decoder, schema: seq<Field>, rec: seq<Value>, i: nat, t: Tag, token: string,
                  errs: seq<DecodingError>, parse: DateParser, a: Assign)
    requires i < |schema| && Conforms(schema, rec)
    requires schema[i].kind.Int? || schema[i].kind.Str? || schema[i].kind.Date?
    requires a == SetScalar(schema[i], t, token, rec[i], d.layout, parse)
    ensures Conforms(schema, rec[i := a.value])
    ensures SetField(d, schema, rec, i, t, token, errs, parse) == Continue(d, rec[i := a.value], errs + a.entries)
  {
    ConformsUpdate(schema, rec, i, a.value);
  }

  /** From field `i` on, every field is skipped or cannot be set. */
  predicate ReadOnlyFrom(schema: seq<Field>, tags: seq<Tag>, i: nat, addressable: bool)
    requires |tags| == |schema|
  {
    forall k :: i <= k < |schema| ==> tags[k].skip || !(addressable && schema[k].settable)
  }

  /**
    A walk over fields that are all skipped or cannot be set, on a
    fixed-width line long enough for their columns, reads every token and
    sets nothing: the record stays as it was, no entry is added and no
    further line is read, and the call finishes with the entries it was
    given.
   */
  lemma {:induction false} ReadOnlyWalk(d: Decoder, l: string, schema: seq<Field>, tags: seq<Tag>, rec: seq<Value>, i: nat,
                                        errs: seq<DecodingError>, addressable: bool, parse: DateParser)
    requires i <= |schema| && |tags| == |schema| && Conforms(schema, rec)
    requires FixedWidth(tags) && ReadOnlyFrom(schema, tags, i, addressable)
    requires Start(Widths(tags), |schema|) <= |l| <= MaxInt64
    ensures DecodeFields(d, l, schema, tags, rec, i, Start(Widths(tags), i), errs, addressable, parse)
         == Step(d, rec, Finish(errs))
    decreases |schema| - i
  {
    var ws := Widths(tags);
    var start := Start(ws, i);
    if i < |schema| && start < |l| {
      assert Start(ws, i + 1) == start + Width(tags[i]);
      if !tags[i].skip {
        StartMonotone(ws, i + 1, |schema|);
        TokenFits(l, start, tags[i], l[start..start + tags[i].size]);
      }
      ReadOnlyWalk(d, l, schema, tags, rec, i + 1, errs, addressable, parse);
    }
  }

  /**
    A struct whose fields are all skipped or cannot be set, read from a
    fixed-width line long enough for its columns, consumes that one line,
    keeps its values and returns nil.
   */
  lemma ReadOnlyStruct(d: Decoder, schema: seq<Field>, cur: seq<Value>, parse: DateParser)
    requires Conforms(schema, cur) && d.next < |d.lines|
    requires FixedWidth(Directives(schema)) && ReadOnlyFrom(schema, Directives(schema), 0, true)
    requires Start(Widths(Directives(schema)), |schema|) <= |d.lines[d.next]| <= MaxInt64
    ensures DecodeStruct(d, schema, cur, true, parse) == Step(d.(next := d.next + 1), cur, Nil)
  {
    ReadsLine(d, schema, cur, parse);
    ReadOnlyWalk(d.(next := d.next + 1), d.lines[d.next], schema, Directives(schema), cur, 0, [], true, parse);
  }

  /** Once the fields run out, the call ends with the entries collected so far. */
  lemma FieldsDone(d: Decoder, l: string, schema: seq<Field>, tags: seq<Tag>, rec: seq<Value>,
                   start: nat, errs: seq<DecodingError>, addressable: bool, parse: DateParser)
    requires |tags| == |schema| && Conforms(schema, rec)
    ensures DecodeFields(d, l, schema, tags, rec, |schema|, start, errs, addressable, parse) == Step(d, rec, Finish(errs))
  {
  }

  /**
    A width-0 string field takes the text from the cursor up to, but not
    including, the line's last character; the walk goes on from that last
    character.
   */
  lemma ZeroWidthDropsLast(d: Decoder, l: string, schema: seq<Field>, tags: seq<Tag>, rec: seq<Value>, i: nat,
                           start: nat, errs: seq<DecodingError>, parse: DateParser)
    requires i < |schema| && |tags| == |schema| && Conforms(schema, rec)
    requires start < |l| && !tags[i].skip && tags[i].size == 0
    requires schema[i].kind.Str? && schema[i].settable
    ensures DecodeFields(d, l, schema, tags, rec, i, start, errs, true, parse)
         == DecodeFields(d, l, schema, tags, rec[i := StrVal(TrimSpace(l[start..|l| - 1]))], i + 1, |l| - 1, errs, true, parse)
  {
    var token := l[start..|l| - 1];
    ConformsUpdate(schema, rec, i, StrVal(TrimSpace(token)));
    assert NextToken(l, start, tags[i]) == Token(token, |l| - 1);
    assert SetField(d, schema, rec, i, tags[i], token, errs, parse) == Continue(d, rec[i := StrVal(TrimSpace(token))], errs + []);
    assert errs + [] == errs;
  }

  /** A settable field of an unsupported kind ends the call with a plain error naming it, as soon as its token is read. */
  lemma UnsupportedAborts(d: Decoder, l: string, schema: seq<Field>, tags: seq<Tag>, rec: seq<Value>, i: nat,
                          start: nat, errs: seq<DecodingError>, parse: DateParser)
    requires i < |schema| && |tags| == |schema| && Conforms(schema, rec)
    requires start < |l| <= MaxInt64 && !tags[i].skip && tags[i].size > 0 && start + tags[i].size <= |l|
    requires schema[i].kind.Other? && schema[i].settable
    ensures DecodeFields(d, l, schema, tags, rec, i, start, errs, true, parse)
         == Step(d, rec, Plain(Unsupported(schema[i].name)))
  {
  }

  /**
    A nested struct field ignores its own token and decodes from the next
    input line: the outcome is the same for every token, a further line is
    consumed when one is left, and when that line is empty the nested
    values stay as they were and no entry is added.
   */
  lemma NestedReadsNextLine(d: Decoder, schema: seq<Field>, rec: seq<Value>, i: nat, t: Tag,
                            token: string, other: string, errs: seq<DecodingError>, parse: DateParser)
    requires i < |schema| && Conforms(schema, rec) && schema[i].kind.Nested?
    ensures SetField(d, schema, rec, i, t, token, errs, parse) == SetField(d, schema, rec, i, t, other, errs, parse)
    ensures d.next < |d.lines| ==>
              var r := SetField(d, schema, rec, i, t, token, errs, parse);
              (if r.Continue? then r.dec.next else r.step.dec.next) > d.next
    ensures d.next < |d.lines| && d.lines[d.next] == "" ==>
              SetField(d, schema, rec, i, t, token, errs, parse) == Continue(d.(next := d.next + 1), rec, errs)
  {
    assert FieldConforms(schema[i], rec[i]);
    if d.next < |d.lines| && d.lines[d.next] == "" {
      assert rec[i := NestedVal(rec[i].fields)] == rec;
    }
  }

  /**
    A nested struct's entries are appended after the outer ones as they
    are, and a plain error or panic inside it becomes a panic of the outer
    call.
   */
  lemma NestedOutcome(d: Decoder, schema: seq<Field>, rec: seq<Value>, i: nat, t: Tag,
                      token: string, errs: seq<DecodingError>, parse: DateParser)
    requires i < |schema| && Conforms(schema, rec) && schema[i].kind.Nested?
    requires rec[i].NestedVal? && Conforms(schema[i].kind.fields, rec[i].fields)
    ensures var r := SetField(d, schema, rec, i, t, token, errs, parse);
            var inner := DecodeStruct(d, schema[i].kind.fields, rec[i].fields, true, parse);
            && (inner.out.Nil? ==> r.Continue? && r.errs == errs)
            && (inner.out.Errors? ==> r.Continue? && r.errs == errs + inner.out.list)
            && (inner.out.Plain? || inner.out.Panic? ==> r.Stop? && r.step.out == Panic)
            && (r.Continue? ==> r.dec == inner.dec && r.rec[i] == NestedVal(inner.rec))
  {
    assert FieldConforms(schema[i], rec[i]);
  }
}
