/**
  Column arithmetic shared by the two engines. A line is the concatenation
  of the fields' tokens; when every token is exactly as wide as its column,
  the line can be cut back into the same tokens at the column boundaries.
 */
module Columns {
  import opened Tags

  /** The pieces written one after another, in order. */
  function Concat<T>(parts: seq<seq<T>>): seq<T>
    decreases |parts|
  {
    if parts == [] then [] else Concat(parts[..|parts| - 1]) + parts[|parts| - 1]
  }

  /** One more piece goes on the end. */
  lemma ConcatSnoc<T>(parts: seq<seq<T>>, p: seq<T>)
    ensures Concat(parts + [p]) == Concat(parts) + p
  {
    assert (parts + [p])[..|parts|] == parts;
  }

  /** The column where piece `k` starts when piece `j` is `ws[j]` wide. */
  function Start(ws: seq<nat>, k: nat): nat
    requires k <= |ws|
  {
    if k == 0 then 0 else Start(ws, k - 1) + ws[k - 1]
  }

  /** Each piece is exactly as wide as its column. */
  predicate HasWidths<T>(parts: seq<seq<T>>, ws: seq<nat>) {
    |parts| == |ws| && forall k :: 0 <= k < |ws| ==> |parts[k]| == ws[k]
  }

  lemma {:induction false} StartMonotone(ws: seq<nat>, j: nat, k: nat)
    requires j <= k <= |ws|
    ensures Start(ws, j) <= Start(ws, k)
    decreases k - j
  {
    if j < k {
      StartMonotone(ws, j, k - 1);
    }
  }

  /** The first `k` pieces fill exactly the columns before piece `k`. */
  lemma {:induction false} ConcatPrefix<T>(parts: seq<seq<T>>, ws: seq<nat>, k: nat)
    requires HasWidths(parts, ws) && k <= |parts|
    ensures |Concat(parts[..k])| == Start(ws, k)
    decreases k
  {
    if k > 0 {
      ConcatPrefix(parts, ws, k - 1);
      assert parts[..k][..k - 1] == parts[..k - 1];
    }
  }

  /** Concatenation respects any split of the pieces. */
  lemma {:induction false} ConcatSplit<T>(parts: seq<seq<T>>, k: nat)
    requires k <= |parts|
    ensures Concat(parts) == Concat(parts[..k]) + Concat(parts[k..])
    decreases |parts|
  {
    if k == |parts| {
      assert parts[..k] == parts;
      assert parts[k..] == [];
    } else {
      var n := |parts|;
      ConcatSplit(parts[..n - 1], k);
      assert parts[..n - 1][..k] == parts[..k];
      assert parts[..n - 1][k..] == parts[k..][..n - 1 - k];
      assert parts[k..][n - 1 - k] == parts[n - 1];
    }
  }

  /** The line is as long as all columns together. */
  lemma ConcatLength<T>(parts: seq<seq<T>>, ws: seq<nat>)
    requires HasWidths(parts, ws)
    ensures |Concat(parts)| == Start(ws, |ws|)
  {
    ConcatPrefix(parts, ws, |parts|);
    assert parts[..|parts|] == parts;
  }

  /** Piece `k`'s columns of `line` hold exactly `piece`. */
  ghost predicate CutAt<T>(line: seq<T>, ws: seq<nat>, k: nat, piece: seq<T>)
    requires k < |ws|
  {
    Start(ws, k + 1) <= |line| && line[Start(ws, k)..Start(ws, k + 1)] == piece
  }

  /** Cutting the line at piece `k`'s columns gives piece `k` back. */
  lemma ConcatCut<T>(parts: seq<seq<T>>, ws: seq<nat>, k: nat)
    requires HasWidths(parts, ws) && k < |parts|
    ensures CutAt(Concat(parts), ws, k, parts[k])
  {
    ConcatSplit(parts, k + 1);
    ConcatPrefix(parts, ws, k);
    assert parts[..k + 1][..k] == parts[..k];
    var front := Concat(parts[..k + 1]);
    assert front == Concat(parts[..k]) + parts[k];
    assert Concat(parts)[Start(ws, k)..Start(ws, k + 1)] == front[Start(ws, k)..];
  }

  /** Characters a field occupies: none when skipped, else its width (a negative width counts as none). */
  function Width(t: Tag): nat {
    if t.skip || t.size < 0 then 0 else t.size
  }

  /** The widths of a list of directives. */
  function Widths(tags: seq<Tag>): (ws: seq<nat>)
    ensures |ws| == |tags|
  {
    seq(|tags|, k requires 0 <= k < |tags| => Width(tags[k]))
  }

  /**
    A fixed-width layout: every field the decoder does not skip has a
    positive width.
   */
  predicate FixedWidth(tags: seq<Tag>) {
    forall k :: 0 <= k < |tags| ==> tags[k].skip || tags[k].size > 0
  }

  /** In a fixed-width layout, once the columns from `i` on add up to nothing, every field from `i` on is skipped. */
  lemma ZeroWidthTail(tags: seq<Tag>, i: nat, k: nat)
    requires FixedWidth(tags) && i <= k < |tags|
    requires Start(Widths(tags), i) >= Start(Widths(tags), |tags|)
    ensures tags[k].skip
  {
    var ws := Widths(tags);
    StartMonotone(ws, i, k);
    StartMonotone(ws, k + 1, |tags|);
  }
}
