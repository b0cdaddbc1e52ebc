/**
  The few functions of Go's `strings` package the codec uses, on one-byte
  (ASCII) text: `ToUpper`, `TrimSpace` and `Split` with a one-character
  separator, plus the space padding `fmt` produces.
 */
module Strs {

  /** The ASCII white space `unicode.IsSpace` accepts. */
  predicate IsSpace(c: char) {
    c == ' ' || c == '\t' || c == '\n' || c == '\U{0B}' || c == '\U{0C}' || c == '\r'
  }

  predicate AllSpace(s: string) {
    forall k :: 0 <= k < |s| ==> IsSpace(s[k])
  }

  /** Neither starts nor ends with white space. */
  predicate Trimmed(s: string) {
    s == [] || (!IsSpace(s[0]) && !IsSpace(s[|s| - 1]))
  }

  predicate IsLower(c: char) {
    'a' <= c <= 'z'
  }

  function UpperChar(c: char): char {
    if IsLower(c) then (c as int - 32) as char else c
  }

  /** `strings.ToUpper` on ASCII text (see ToUpperSpec). */
  function ToUpper(s: string): (r: string)
    ensures |r| == |s|
  {
    if s == [] then [] else [UpperChar(s[0])] + ToUpper(s[1..])
  }

  /** Every letter a..z becomes A..Z, and nothing else moves. */
  lemma {:induction false} ToUpperSpec(s: string)
    ensures forall k :: 0 <= k < |s| ==> ToUpper(s)[k] == UpperChar(s[k])
  {
    if s != [] {
      ToUpperSpec(s[1..]);
      var r := ToUpper(s);
      assert r == [UpperChar(s[0])] + ToUpper(s[1..]);
      forall k | 0 < k < |s| ensures r[k] == UpperChar(s[k]) {
        assert r[k] == ToUpper(s[1..])[k - 1];
        assert s[k] == s[1..][k - 1];
      }
    }
  }

  /** Upper-casing leaves white space alone, so it keeps a string trimmed. */
  lemma ToUpperTrimmed(s: string)
    requires Trimmed(s)
    ensures Trimmed(ToUpper(s))
  {
    ToUpperSpec(s);
  }

  /** Upper-casing twice is upper-casing once. */
  lemma ToUpperIdempotent(s: string)
    ensures ToUpper(ToUpper(s)) == ToUpper(s)
  {
    ToUpperSpec(s);
    ToUpperSpec(ToUpper(s));
  }

  /** Upper-casing works character by character, so it distributes over concatenation. */
  lemma ToUpperAppend(a: string, b: string)
    ensures ToUpper(a + b) == ToUpper(a) + ToUpper(b)
  {
    ToUpperSpec(a);
    ToUpperSpec(b);
    ToUpperSpec(a + b);
    assert forall k :: 0 <= k < |b| ==> (a + b)[|a| + k] == b[k];
  }

  /** How many white-space characters `s` starts with (see LeadSpec). */
  function Lead(s: string): (n: nat)
    ensures n <= |s|
  {
    if s != [] && IsSpace(s[0]) then 1 + Lead(s[1..]) else 0
  }

  /** Lead counts a run of white space that is not followed by more. */
  lemma {:induction false} LeadSpec(s: string)
    ensures AllSpace(s[..Lead(s)])
    ensures Lead(s) < |s| ==> !IsSpace(s[Lead(s)])
  {
    if s != [] && IsSpace(s[0]) {
      LeadSpec(s[1..]);
      var n := Lead(s);
      assert s[..n] == [s[0]] + s[1..][..n - 1];
    }
  }

  /** `s` without its trailing white space (see TrimRightSpec). */
  function TrimRight(s: string): (r: string)
    ensures |r| <= |s|
  {
    if s != [] && IsSpace(s[|s| - 1]) then TrimRight(s[..|s| - 1]) else s
  }

  /** TrimRight keeps a prefix, drops only white space, and does not end in white space. */
  lemma {:induction false} TrimRightSpec(s: string)
    ensures var r := TrimRight(s);
            && r == s[..|r|]
            && AllSpace(s[|r|..])
            && (r != [] ==> !IsSpace(r[|r| - 1]))
  {
    if s != [] && IsSpace(s[|s| - 1]) {
      var s' := s[..|s| - 1];
      TrimRightSpec(s');
      var r := TrimRight(s');
      assert s'[..|r|] == s[..|r|];
      forall k | |r| <= k < |s| ensures IsSpace(s[k]) {
        if k < |s| - 1 { assert s[k] == s'[|r|..][k - |r|]; }
      }
    }
  }

  /** `strings.TrimSpace`: the part of `s` between its leading and trailing white space. */
  function TrimSpace(s: string): string {
    TrimRight(s[Lead(s)..])
  }

  /**
    The result of TrimSpace starts where the leading white space ends, only
    white space follows it, it neither starts nor ends with white space, and
    it is empty exactly when `s` is all white space.
   */
  lemma TrimSpaceSpec(s: string)
    ensures var r := TrimSpace(s);
            && Lead(s) + |r| <= |s| && r == s[Lead(s)..Lead(s) + |r|]
            && AllSpace(s[Lead(s) + |r|..])
            && Trimmed(r)
            && (r == [] <==> AllSpace(s))
  {
    var i := Lead(s);
    var r := TrimSpace(s);
    LeadSpec(s);
    TrimRightSpec(s[i..]);
    assert s[i..][..|r|] == s[i..i + |r|];
    assert s[i..][|r|..] == s[i + |r|..];
    TrimSpaceEmpty(s);
  }

  /** TrimSpace leaves nothing exactly when there is nothing but white space. */
  lemma TrimSpaceEmpty(s: string)
    ensures TrimSpace(s) == [] <==> AllSpace(s)
  {
    var i := Lead(s);
    LeadSpec(s);
    TrimRightSpec(s[i..]);
    if TrimSpace(s) == [] {
      if i < |s| {
        assert false;
      }
      assert s == s[..i];
    }
  }

  /** A string without surrounding white space is its own TrimSpace. */
  lemma TrimSpaceTrimmed(s: string)
    requires Trimmed(s)
    ensures TrimSpace(s) == s
  {
    assert Lead(s) == 0;
    assert s[0..] == s;
    assert TrimRight(s) == s;
  }

  /** Leading white space is counted by Lead. */
  lemma {:induction false} LeadAfterSpaces(p: string, s: string)
    requires AllSpace(p) && Trimmed(s)
    ensures Lead(p + s) == |p|
    decreases |p|
  {
    if p == [] {
      assert p + s == s;
    } else {
      assert (p + s)[1..] == p[1..] + s;
      LeadAfterSpaces(p[1..], s);
    }
  }

  /** Leading white space is what TrimSpace removes. */
  lemma TrimSpaceAfterSpaces(p: string, s: string)
    requires AllSpace(p) && Trimmed(s)
    ensures TrimSpace(p + s) == s
  {
    LeadAfterSpaces(p, s);
    assert (p + s)[|p|..] == s;
    assert TrimRight(s) == s;
  }

  /** Trailing white space is what TrimRight removes. */
  lemma {:induction false} TrimRightBeforeSpaces(s: string, p: string)
    requires AllSpace(p) && Trimmed(s)
    ensures TrimRight(s + p) == s
    decreases |p|
  {
    if p == [] {
      assert s + p == s;
      if s != [] {
        assert !IsSpace(s[|s| - 1]);
      }
    } else {
      assert (s + p)[..|s + p| - 1] == s + p[..|p| - 1];
      TrimRightBeforeSpaces(s, p[..|p| - 1]);
    }
  }

  /** Trailing white space after a trimmed string is what TrimSpace removes. */
  lemma TrimSpaceBeforeSpaces(s: string, p: string)
    requires AllSpace(p) && Trimmed(s)
    ensures TrimSpace(s + p) == s
  {
    if s == [] {
      assert s + p == p;
      LeadAfterSpaces(p, []);
      assert p + [] == p;
      assert p[|p|..] == [];
    } else {
      assert (s + p)[0] == s[0];
      assert Lead(s + p) == 0;
      assert (s + p)[0..] == s + p;
      TrimRightBeforeSpaces(s, p);
    }
  }

  /** A string of `n` spaces (none when `n` is not positive). */
  function Spaces(n: int): (r: string)
    ensures |r| == if n > 0 then n else 0
    decreases n
  {
    if n <= 0 then [] else " " + Spaces(n - 1)
  }

  lemma {:induction false} SpacesAllSpace(n: int)
    ensures AllSpace(Spaces(n))
    decreases n
  {
    if n > 0 {
      SpacesAllSpace(n - 1);
      assert forall k :: 1 <= k < n ==> Spaces(n)[k] == Spaces(n - 1)[k - 1];
    }
  }

  /** Inverse of Split: the parts glued back together with `sep` between them. */
  function Join(parts: seq<string>, sep: char): string
    requires |parts| > 0
  {
    if |parts| == 1 then parts[0] else parts[0] + [sep] + Join(parts[1..], sep)
  }

  /**
    `strings.Split(s, sep)` for a one-character separator: the maximal pieces
    between separators, in order. There is always at least one piece (the
    empty string gives `[""]`); SplitJoin and SplitPieces state what the
    pieces are.
   */
  function Split(s: string, sep: char): (r: seq<string>)
    ensures |r| > 0
  {
    if s == [] then [""]
    else
      var rest := Split(s[1..], sep);
      if s[0] == sep then [""] + rest else [[s[0]] + rest[0]] + rest[1..]
  }

  /** Putting a character in front of the first part puts it in front of the joined text. */
  lemma JoinPrepend(c: char, parts: seq<string>, sep: char)
    requires |parts| > 0
    ensures Join([[c] + parts[0]] + parts[1..], sep) == [c] + Join(parts, sep)
  {
    var q := [[c] + parts[0]] + parts[1..];
    assert q[1..] == parts[1..];
  }

  /** Joining the pieces of Split with the separator gives back `s`. */
  lemma {:induction false} SplitJoin(s: string, sep: char)
    ensures Join(Split(s, sep), sep) == s
  {
    if s != [] {
      var rest := Split(s[1..], sep);
      SplitJoin(s[1..], sep);
      if s[0] == sep {
        var r := [""] + rest;
        assert r[1..] == rest;
        assert Join(r, sep) == [sep] + Join(rest, sep);
      } else {
        JoinPrepend(s[0], rest, sep);
      }
      assert s == [s[0]] + s[1..];
    }
  }

  /** No piece of Split holds the separator. */
  lemma {:induction false} SplitPieces(s: string, sep: char)
    ensures forall k :: 0 <= k < |Split(s, sep)| ==> sep !in Split(s, sep)[k]
  {
    if s != [] {
      var rest := Split(s[1..], sep);
      SplitPieces(s[1..], sep);
      var r := Split(s, sep);
      forall k | 0 <= k < |r| ensures sep !in r[k] {
        if s[0] == sep {
          if k > 0 { assert r[k] == rest[k - 1]; }
        } else if k > 0 {
          assert r[k] == rest[k];
        } else {
          assert r[0] == [s[0]] + rest[0];
        }
      }
    }
  }

  /** A string without the separator splits into itself alone. */
  lemma {:induction false} SplitNoSeparator(s: string, sep: char)
    requires sep !in s
    ensures Split(s, sep) == [s]
  {
    if s != [] {
      assert sep !in s[1..];
      SplitNoSeparator(s[1..], sep);
      assert s == [s[0]] + s[1..];
    }
  }

  /** Split cuts at the first separator: the text before it is the first piece. */
  lemma {:induction false} SplitFirst(a: string, b: string, sep: char)
    requires sep !in a
    ensures Split(a + [sep] + b, sep) == [a] + Split(b, sep)
  {
    var s := a + [sep] + b;
    if a == [] {
      assert s[1..] == b;
    } else {
      assert s[1..] == a[1..] + [sep] + b;
      SplitFirst(a[1..], b, sep);
      assert [a[0]] + a[1..] == a;
    }
  }
}
