/**
  Text helpers: building a URI from a path, and counting how many screen
  rows a list of lines occupies in a window of a given width. The host's
  `strdisplaywidth` is not part of this model; it is a function parameter.
 */
module Text {
  import opened Common
  import opened Collection

  predicate IsAsciiLetter(c: char) {
    ('A' <= c <= 'Z') || ('a' <= c <= 'z')
  }

  /** `/^[A-Za-z]:/.test(path)`: the path starts with a drive letter. */
  predicate StartsWithDrive(path: string) {
    |path| >= 2 && IsAsciiLetter(path[0]) && path[1] == ':'
  }

  /** `generateUri(path, scheme = 'file')`: `scheme://path`, where a Windows
      drive path under the `file` scheme gets a leading `/`. */
  function GenerateUri(path: string, scheme: Option<string>, isWindows: bool): (r: string)
    ensures var s := scheme.GetOr("file");
      && |r| >= |s| + 3 + |path|
      && r[..|s|] == s && r[|s|..|s| + 3] == "://"
      && (r[|s| + 3..] == "/" + path <==> s == "file" && isWindows && StartsWithDrive(path))
      && (r[|s| + 3..] == path <==> !(s == "file" && isWindows && StartsWithDrive(path)))
  {
    var s := scheme.GetOr("file");
    var p := if s == "file" && isWindows && StartsWithDrive(path) then "/" + path else path;
    assert |"/" + path| != |path|;
    s + "://" + p
  }

  /** The display width of line `idx`, widened by one in insert mode when
      the cursor (1-indexed line, 0-indexed column) sits at or past its end. */
  function AdjustedWidth(displayWidth: string -> nat, lines: seq<string>, idx: nat,
                         cursor: Option<(int, int)>, mode: string): (w: nat)
    requires idx < |lines|
    ensures w == displayWidth(lines[idx]) || w == displayWidth(lines[idx]) + 1
    ensures mode != "i" || cursor.None? ==> w == displayWidth(lines[idx])
  {
    var strwidth := displayWidth(lines[idx]);
    if mode == "i" && cursor.Some? && cursor.value.0 - 1 == idx && cursor.value.1 + 1 >= strwidth
    then strwidth + 1
    else strwidth
  }

  /** The rows each line takes: `Math.ceil(strwidth / width)`. */
  function LineHeights(width: int, displayWidth: string -> nat, lines: seq<string>,
                       cursor: Option<(int, int)>, mode: string): (hs: seq<int>)
    requires width > 0
    ensures |hs| == |lines|
    ensures forall i :: 0 <= i < |lines| ==>
      var w := AdjustedWidth(displayWidth, lines, i, cursor, mode);
      0 <= hs[i] && (hs[i] - 1) * width < w <= hs[i] * width
  {
    seq(|lines|, i requires 0 <= i < |lines| =>
      CeilDiv(AdjustedWidth(displayWidth, lines, i, cursor, mode), width))
  }

  /** `displayHeight(width, lines, cursor, mode)`: the total number of rows;
      `sum` of an empty list throws. */
  function DisplayHeight(width: int, displayWidth: string -> nat, lines: seq<string>,
                         cursor: Option<(int, int)>, mode: string): (r: Result<int>)
    requires width > 0
    ensures r.Throw? <==> |lines| == 0
    ensures r.Ok? ==> r.value >= 0
    ensures r.Ok? ==> r.value == Total(LineHeights(width, displayWidth, lines, cursor, mode))
  {
    var hs := LineHeights(width, displayWidth, lines, cursor, mode);
    if |hs| > 0 then SumIsTotal(hs); TotalNonNegative(hs); Sum(hs) else Sum(hs)
  }

  lemma {:induction false} TotalNonNegative(s: seq<int>)
    requires forall i :: 0 <= i < |s| ==> s[i] >= 0
    ensures Total(s) >= 0
    decreases |s|
  {
    if |s| > 0 {
      TotalNonNegative(s[1..]);
    }
  }

  /** Outside insert mode the cursor does not change the height. */
  lemma CursorOnlyMattersInInsertMode(width: int, displayWidth: string -> nat, lines: seq<string>,
                                       cursor: Option<(int, int)>, mode: string)
    requires width > 0
    requires mode != "i"
    ensures DisplayHeight(width, displayWidth, lines, cursor, mode)
         == DisplayHeight(width, displayWidth, lines, None, mode)
  {
    assert LineHeights(width, displayWidth, lines, cursor, mode)
        == LineHeights(width, displayWidth, lines, None, mode);
  }

  /** When every line is non-empty and fits within the width, each line takes
      exactly one row, so the height is the number of lines. */
  lemma {:induction false} FittingLinesTakeOneRowEach(width: int, displayWidth: string -> nat, lines: seq<string>)
    requires width > 0 && |lines| > 0
    requires forall i :: 0 <= i < |lines| ==> 0 < displayWidth(lines[i]) <= width
    ensures DisplayHeight(width, displayWidth, lines, None, "n") == Ok(|lines|)
  {
    var hs := LineHeights(width, displayWidth, lines, None, "n");
    forall i | 0 <= i < |hs|
      ensures hs[i] == 1
    {
      var w := AdjustedWidth(displayWidth, lines, i, None, "n");
      assert hs[i] == CeilDiv(w, width);
      CeilDivOfFitting(w, width);
    }
    SumIsTotal(hs);
    TotalOfOnes(hs);
  }

  lemma CeilDivOfFitting(w: int, width: int)
    requires 0 < w <= width
    ensures CeilDiv(w, width) == 1
  {
    var q := w + width - 1;
    assert width <= q < 2 * width;
    assert q / width == 1 by {
      assert q == 1 * width + (q - width);
      assert 0 <= q - width < width;
    }
  }

  lemma {:induction false} TotalOfOnes(s: seq<int>)
    requires forall i :: 0 <= i < |s| ==> s[i] == 1
    ensures Total(s) == |s|
    decreases |s|
  {
    if |s| > 0 {
      TotalOfOnes(s[1..]);
    }
  }
}
