/**
 * The bordered text box used to show budget details.  Each line is padded with
 * spaces to the widest visible width, where escape sequences take no width, and
 * the block is framed with a border of full-block characters.  Writing to the
 * terminal is replaced by returning the rows that would be written.
 */
module Boxer {
  import opened Ansi

  const BLOCK: char := '█'

  /** The width a line takes on screen: its length once control sequences are removed. */
  function Width(line: string): nat {
    |StripAnsi(line)|
  }

  /** c repeated n times (Python's string repetition `c * n`). */
  function Repeat(c: char, n: nat): (r: string)
    ensures |r| == n
    ensures forall i :: 0 <= i < n ==> r[i] == c
  {
    if n == 0 then [] else [c] + Repeat(c, n - 1)
  }

  /** The widest visible width among the lines. */
  function MaxWidth(lines: seq<string>): (w: nat)
    requires |lines| > 0
    ensures forall i :: 0 <= i < |lines| ==> Width(lines[i]) <= w
    ensures exists i :: 0 <= i < |lines| && Width(lines[i]) == w
  {
    if |lines| == 1 then Width(lines[0])
    else
      var m := MaxWidth(lines[1..]);
      if Width(lines[0]) >= m then Width(lines[0]) else m
  }

  /** The top and bottom border for a box whose widest line is w wide. */
  function Border(w: nat): string {
    Repeat(BLOCK, w + 4)
  }

  /** The empty row framing the lines above and below. */
  function Blank(w: nat): string {
    [BLOCK, ' '] + Repeat(' ', w) + [' ', BLOCK]
  }

  /** n spaces, and none when n is not positive (string repetition by a negative count is empty). */
  function Padding(n: int): (r: string)
    ensures |r| == if n <= 0 then 0 else n
    ensures forall i :: 0 <= i < |r| ==> r[i] == ' '
  {
    if n <= 0 then [] else Repeat(' ', n)
  }

  /** One line of the box, padded on the right to width w. */
  function Framed(line: string, w: nat): string {
    [BLOCK] + ([' '] + (line + (Padding(w - Width(line)) + [' ', BLOCK])))
  }

  /** A box is a list of display lines. */
  datatype TextBoxer = TextBoxer(lines: seq<string>) {

    /** `boxer + other`: a new boxer with `other` as one more line at the end. */
    function Add(other: string): (r: TextBoxer)
      ensures |r.lines| == |lines| + 1
      ensures r.lines[..|lines|] == lines && r.lines[|lines|] == other
    {
      TextBoxer(lines + [other])
    }

    /** The rows the box prints, top border first. */
    method Print() returns (rows: seq<string>)
      requires |lines| > 0
      ensures rows == Box(lines)
    {
      var maxWidth := MaxWidth(lines);
      rows := [Border(maxWidth), Blank(maxWidth)];
      for i := 0 to |lines|
        invariant rows == [Border(maxWidth), Blank(maxWidth)] + FramedRows(lines[..i], maxWidth)
      {
        FramedRowsSnoc([Border(maxWidth), Blank(maxWidth)], lines, i, maxWidth);
        rows := rows + [Framed(lines[i], maxWidth)];
      }
      BoxOfAll(lines, rows);
      rows := rows + [Blank(maxWidth), Border(maxWidth)];
    }
  }

  /** f applied to every element of s, in order. */
  function Map<A, B>(s: seq<A>, f: A -> B): (r: seq<B>)
    ensures |r| == |s|
  {
    if s == [] then [] else Map(s[..|s| - 1], f) + [f(s[|s| - 1])]
  }

  lemma {:induction false} MapAt<A, B>(s: seq<A>, f: A -> B)
    ensures forall k :: 0 <= k < |s| ==> Map(s, f)[k] == f(s[k])
  {
    if s != [] {
      var init := s[..|s| - 1];
      MapAt(init, f);
      forall k | 0 <= k < |s| ensures Map(s, f)[k] == f(s[k]) {
        if k < |init| {
          assert s[k] == init[k];
        }
      }
    }
  }

  lemma MapSnoc<A, B>(s: seq<A>, i: nat, f: A -> B)
    requires i < |s|
    ensures Map(s[..i + 1], f) == Map(s[..i], f) + [f(s[i])]
  {
    assert s[..i + 1][..i] == s[..i];
  }

  /** The framed rows for ls, in order. */
  function FramedRows(ls: seq<string>, w: nat): seq<string> {
    Map(ls, line => Framed(line, w))
  }

  /** Framing one more line adds its row at the end. */
  lemma FramedRowsSnoc(head: seq<string>, ls: seq<string>, i: nat, w: nat)
    requires i < |ls|
    ensures head + FramedRows(ls[..i + 1], w) == (head + FramedRows(ls[..i], w)) + [Framed(ls[i], w)]
  {
    MapSnoc(ls, i, line => Framed(line, w));
  }

  /** Once every line is framed, the closing rows complete the box. */
  lemma BoxOfAll(lines: seq<string>, rows: seq<string>)
    requires |lines| > 0
    requires rows == [Border(MaxWidth(lines)), Blank(MaxWidth(lines))] + FramedRows(lines[..|lines|], MaxWidth(lines))
    ensures rows + [Blank(MaxWidth(lines)), Border(MaxWidth(lines))] == Box(lines)
  {
    assert lines[..|lines|] == lines;
  }

  /** The rows printed for lines: border, blank row, the framed lines, blank row, border. */
  function Box(lines: seq<string>): seq<string>
    requires |lines| > 0
  {
    var w := MaxWidth(lines);
    [Border(w), Blank(w)] + FramedRows(lines, w) + [Blank(w), Border(w)]
  }

  /** Box(lines) has the shape of a box around lines, and every row is equally wide. */
  lemma BoxIsBox(lines: seq<string>)
    requires |lines| > 0
    ensures IsBox(Box(lines), lines, MaxWidth(lines))
    ensures forall k :: 0 <= k < |Box(lines)| ==> Width(Box(lines)[k]) == MaxWidth(lines) + 4
  {
    var w := MaxWidth(lines);
    BoxShape(lines, w, Box(lines));
    BoxWidths(Box(lines), lines, w);
  }

  lemma BoxShape(lines: seq<string>, w: nat, rows: seq<string>)
    requires forall k :: 0 <= k < |lines| ==> Width(lines[k]) <= w
    requires rows == [Border(w), Blank(w)] + FramedRows(lines, w) + [Blank(w), Border(w)]
    ensures IsBox(rows, lines, w)
  {
    BoxEnds(lines, w, rows);
    BoxMiddle(lines, w, rows);
  }

  /** The first two and the last two rows are the border and the blank row. */
  lemma BoxEnds(lines: seq<string>, w: nat, rows: seq<string>)
    requires rows == [Border(w), Blank(w)] + FramedRows(lines, w) + [Blank(w), Border(w)]
    ensures |rows| == |lines| + 4
    ensures rows[0] == Border(w) && rows[|rows| - 1] == Border(w)
    ensures rows[1] == Blank(w) && rows[|rows| - 2] == Blank(w)
  {
  }

  /** Between them come the framed lines. */
  lemma BoxMiddle(lines: seq<string>, w: nat, rows: seq<string>)
    requires rows == [Border(w), Blank(w)] + FramedRows(lines, w) + [Blank(w), Border(w)]
    ensures forall k :: 0 <= k < |lines| ==> rows[k + 2] == Framed(lines[k], w)
  {
    var framed := FramedRows(lines, w);
    forall k | 0 <= k < |lines| ensures rows[k + 2] == Framed(lines[k], w) {
      FramedRowAt(lines, w, k);
      assert rows[k + 2] == framed[k];
    }
  }

  /** The k-th framed row frames the k-th line. */
  lemma FramedRowAt(ls: seq<string>, w: nat, k: nat)
    requires k < |ls|
    ensures FramedRows(ls, w)[k] == Framed(ls[k], w)
  {
    var f := line => Framed(line, w);
    MapAt(ls, f);
    assert Map(ls, f)[k] == f(ls[k]);
  }

  /**
   * rows is the box for lines with inner width w: border, blank row, one framed
   * row per line, blank row, border.
   */
  predicate IsBox(rows: seq<string>, lines: seq<string>, w: nat) {
    (forall k :: 0 <= k < |lines| ==> Width(lines[k]) <= w)
    && |rows| == |lines| + 4
    && rows[0] == Border(w) && rows[|rows| - 1] == Border(w)
    && rows[1] == Blank(w) && rows[|rows| - 2] == Blank(w)
    && (forall k :: 0 <= k < |lines| ==> rows[k + 2] == Framed(lines[k], w))
  }

  /** Every row of a box has the same visible width, four more than its inner width. */
  lemma BoxWidths(rows: seq<string>, lines: seq<string>, w: nat)
    requires IsBox(rows, lines, w)
    ensures forall k :: 0 <= k < |rows| ==> Width(rows[k]) == w + 4
  {
    forall k | 0 <= k < |rows| ensures Width(rows[k]) == w + 4 {
      if k == 0 || k == |rows| - 1 {
        BorderWidth(w);
      } else if k == 1 || k == |rows| - 2 {
        BlankWidth(w);
      } else {
        FramedWidth(lines[k - 2], w);
      }
    }
  }

  lemma NoIntroducers(s: string)
    requires forall m :: 0 <= m < |s| ==> s[m] == ' ' || s[m] == BLOCK
    ensures StripAnsi(s) == s
    ensures forall m :: 0 <= m < |s| ==> IsInert(s[m])
  {
    StripAnsiPlain(s);
  }

  lemma BorderWidth(w: nat)
    ensures Width(Border(w)) == w + 4
  {
    NoIntroducers(Border(w));
  }

  lemma BlankWidth(w: nat)
    ensures Width(Blank(w)) == w + 4
  {
    NoIntroducers(Blank(w));
  }

  /** A leading space or block adds one to the width. */
  lemma WidthCons(c: char, u: string)
    requires c == ' ' || c == BLOCK
    ensures Width([c] + u) == Width(u) + 1
  {
    StripAnsiCons(c, u);
  }

  /** Trailing spaces and blocks add their length to the width. */
  lemma WidthAppendPlain(u: string, tail: string)
    requires forall m :: 0 <= m < |tail| ==> tail[m] == ' ' || tail[m] == BLOCK
    ensures Width(u + tail) == Width(u) + |tail|
  {
    NoIntroducers(tail);
    StripAnsiAppendInert(u, tail);
  }

  /** Every framed line is exactly four wider than the box's widest line. */
  lemma FramedWidth(line: string, w: nat)
    requires Width(line) <= w
    ensures Width(Framed(line, w)) == w + 4
  {
    var tail := Padding(w - Width(line)) + [' ', BLOCK];
    var u := line + tail;
    WidthAppendPlain(line, tail);
    WidthCons(' ', u);
    WidthCons(BLOCK, [' '] + u);
  }
}
