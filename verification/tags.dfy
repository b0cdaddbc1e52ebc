/**
  The field directive interpreter (`parseTags` and the `tag` type of
  encoder.go): a `record:"…"` value such as `"6,upper"` becomes a width and
  three flags. The decoder additionally reads an `optional` flag, which this
  interpreter never sets; the schema supplies it (see Schema.FieldTag).
 */
module Tags {
  import opened Wrappers
  import opened Strconv
  import opened Strs

  datatype Tag = Tag(size: int, noPadding: bool, upper: bool, skip: bool, optional: bool)

  /** What a field without a `record` directive gets. */
  const NoTag: Tag := Tag(0, false, false, false, false)

  /** One option of the directive; unknown options change nothing. */
  function ApplyOption(t: Tag, e: string): Tag {
    if e == "nopad" || e == "nopadding" then t.(noPadding := true)
    else if e == "upper" then t.(upper := true)
    else if e == "-" then t.(skip := true)
    else t
  }

  /** Applying a list of options in order; the width and the optional flag are left alone. */
  function ApplyOptions(t: Tag, opts: seq<string>): (r: Tag)
    ensures r.size == t.size && r.optional == t.optional
    decreases |opts|
  {
    if opts == [] then t else ApplyOptions(ApplyOption(t, opts[0]), opts[1..])
  }

  /**
    After the options, a flag is set exactly when it was set before or one
    of the options names it.
   */
  lemma {:induction false} ApplyOptionsFlags(t: Tag, opts: seq<string>)
    ensures var r := ApplyOptions(t, opts);
            && (r.noPadding <==> t.noPadding || "nopad" in opts || "nopadding" in opts)
            && (r.upper <==> t.upper || "upper" in opts)
            && (r.skip <==> t.skip || "-" in opts)
    decreases |opts|
  {
    if opts != [] {
      ApplyOptionsFlags(ApplyOption(t, opts[0]), opts[1..]);
      assert opts == [opts[0]] + opts[1..];
    }
  }

  /**
    `parseTags`: an empty directive gives NoTag; otherwise the width is the
    first comma-separated element when that reads as an integer (as
    `strconv.Atoi` reads it), else 0. `optional` is never set here.
   */
  function ParseTags(tagVal: string): (r: Tag)
    ensures tagVal == "" ==> r == NoTag
    ensures tagVal != "" ==> var first := Split(tagVal, ',')[0];
              r.size == if ParseInt(first).Ok? then ParseInt(first).value else 0
    ensures !r.optional
    ensures IsInt64(r.size)
  {
    if tagVal == "" then NoTag
    else
      var elems := Split(tagVal, ',');
      ParseIntSpec(elems[0]);
      match ParseInt(elems[0])
      case Ok(size) => ApplyOptions(NoTag.(size := size), elems[1..])
      case Err(_) => ApplyOptions(NoTag, elems)
  }

  /**
    The flags `parseTags` reads from a non-empty directive: it is split at
    commas, and each flag is set exactly when some element spells its option
    exactly (an integer taken as the width never does).
   */
  lemma ParseTagsSpec(tagVal: string)
    requires tagVal != ""
    ensures var r := ParseTags(tagVal); var elems := Split(tagVal, ',');
            && (r.noPadding <==> "nopad" in elems || "nopadding" in elems)
            && (r.upper <==> "upper" in elems)
            && (r.skip <==> "-" in elems)
  {
    var elems := Split(tagVal, ',');
    assert elems == [elems[0]] + elems[1..];
    if ParseInt(elems[0]).Ok? {
      OptionNamesAreNotNumbers(elems[0]);
      ApplyOptionsFlags(NoTag.(size := ParseInt(elems[0]).value), elems[1..]);
    } else {
      ApplyOptionsFlags(NoTag, elems);
    }
  }

  /** None of the option names reads as an integer. */
  lemma OptionNamesAreNotNumbers(e: string)
    requires ParseInt(e).Ok?
    ensures e != "nopad" && e != "nopadding" && e != "upper" && e != "-"
  {
    ParseIntSpec(e);
    assert IsSignedDigits(e);
    assert !IsSignedDigits("-");
    assert !IsDigit('n') && !IsDigit('u');
  }
}
