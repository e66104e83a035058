/**
 Finding a stored post's image in a story frame.

 The search slides a 24-pixel-wide thumbnail down eleven bands of the frame. It does not slide: it lays every
 window of a band side by side in one wide image, the thumbnail as often beside itself, and lets the imaging
 library compare the two and average each window down to one pixel. Grey levels are numbers; the average the
 library takes of one window is a given function of that window's pixels, for the searching; for what a share
 means it is known to round to a nearest level twice, along each row and then down the rows (`IsBox`).
 */
module Reshare {
  import opened Numbers
  import opened Text

  const COARSE_WIDTH := 24
  const COARSE_TOLERANCE: Level := 24
  const SCALES: seq<real> := [0.70, 0.73, 0.76, 0.79, 0.82, 0.85, 0.88, 0.91, 0.94, 0.97, 1.00]

  newtype Level = l: int | 0 <= l < 256

  datatype Image = Image(data: seq<Level>, width: nat, height: nat)

  ghost predicate IsImage(img: Image) {
    img.width > 0 && |img.data| == img.width * img.height
  }

  /** A pixel by row and column. */
  function Pixel(img: Image, r: nat, c: nat): Level
    requires IsImage(img) && r < img.height && c < img.width
  {
    InBounds(r, c, img.width, img.height);
    img.data[r * img.width + c]
  }

  lemma {:induction false} InBounds(r: nat, c: nat, width: nat, height: nat)
    requires r < height && c < width
    ensures 0 <= r * width + c < width * height
  {
    assert r * width + c < (r + 1) * width <= height * width;
  }

  function Flatten(parts: seq<seq<Level>>): seq<Level> {
    if parts == [] then [] else parts[0] + Flatten(parts[1..])
  }

  ghost predicate Uniform(parts: seq<seq<Level>>, width: nat) {
    forall part | part in parts :: |part| == width
  }

  lemma {:induction false} FlattenLength(parts: seq<seq<Level>>, width: nat)
    requires Uniform(parts, width)
    ensures |Flatten(parts)| == width * |parts|
  {
    if parts != [] {
      FlattenLength(parts[1..], width);
      OneMore(width, |parts[1..]|);
    }
  }

  lemma {:induction false} OneMore(width: nat, n: nat)
    ensures width * (n + 1) == width + width * n
  {
  }

  /** Element `k` of part `i`, found in the joined sequence. */
  lemma {:induction false} FlattenAt(parts: seq<seq<Level>>, width: nat, i: nat, k: nat)
    requires Uniform(parts, width) && i < |parts| && k < width
    ensures i * width + k < |Flatten(parts)| == width * |parts|
    ensures Flatten(parts)[i * width + k] == parts[i][k]
    decreases i
  {
    FlattenLength(parts, width);
    InBounds(i, k, width, |parts|);
    if i > 0 {
      FlattenAt(parts[1..], width, i - 1, k);
      assert i * width + k == width + ((i - 1) * width + k);
    }
  }

  function Row(img: Image, r: nat): (row: seq<Level>)
    requires IsImage(img) && r < img.height
    ensures |row| == img.width
    ensures forall c | 0 <= c < img.width :: row[c] == Pixel(img, r, c)
  {
    InBounds(r, img.width - 1, img.width, img.height);
    img.data[r * img.width..r * img.width + img.width]
  }

  /** An image's rows: its bytes, cut every `width`. */
  function Rows(img: Image): (rows: seq<seq<Level>>)
    requires IsImage(img)
    ensures |rows| == img.height && Uniform(rows, img.width)
  {
    seq(img.height, r requires 0 <= r < img.height => Row(img, r))
  }

  /** An image made from its rows. */
  function FromRows(rows: seq<seq<Level>>, width: nat): Image {
    Image(Flatten(rows), width, |rows|)
  }

  lemma {:induction false} FromRowsPixel(rows: seq<seq<Level>>, width: nat, r: nat, c: nat)
    requires Uniform(rows, width) && r < |rows| && c < width
    ensures IsImage(FromRows(rows, width)) && Pixel(FromRows(rows, width), r, c) == rows[r][c]
  {
    FlattenAt(rows, width, r, c);
  }

  /** Cutting and joining undo each other. */
  lemma {:induction false} RowsRoundTrip(rows: seq<seq<Level>>, width: nat)
    requires Uniform(rows, width) && width > 0
    ensures IsImage(FromRows(rows, width)) && Rows(FromRows(rows, width)) == rows
  {
    FlattenLength(rows, width);
    forall r, c | 0 <= r < |rows| && 0 <= c < width
      ensures Rows(FromRows(rows, width))[r][c] == rows[r][c]
    {
      FromRowsPixel(rows, width, r, c);
    }
    assert forall r | 0 <= r < |rows| :: Rows(FromRows(rows, width))[r] == rows[r];
  }

  /** One row of the stack: rows r, r + 1, ... of the band after one another, one for each window. */
  function StackRow(band: seq<seq<Level>>, height: nat, r: nat): seq<Level>
    requires r < height <= |band|
  {
    Flatten(seq(|band| - height + 1, y requires 0 <= y < |band| - height + 1 => band[y + r]))
  }

  function Stack(band: seq<seq<Level>>, height: nat): Image
    requires height <= |band|
  {
    FromRows(seq(height, r requires 0 <= r < height => StackRow(band, height, r)), COARSE_WIDTH * (|band| - height + 1))
  }

  /** The thumbnail beside itself `shifts` times. */
  function TiledRow(line: seq<Level>, shifts: nat): seq<Level> {
    Flatten(seq(shifts, _ => line))
  }

  function Tiled(lines: seq<seq<Level>>, shifts: nat): Image {
    FromRows(seq(|lines|, r requires 0 <= r < |lines| => TiledRow(lines[r], shifts)), COARSE_WIDTH * shifts)
  }

  /** Pixel (r, 24y + k) of the stack is pixel (y + r, k) of the band. */
  lemma {:induction false} StackPixel(band: seq<seq<Level>>, height: nat, r: nat, y: nat, k: nat)
    requires Uniform(band, COARSE_WIDTH) && r < height && y + height <= |band| && k < COARSE_WIDTH
    ensures var stack := Stack(band, height); var c := COARSE_WIDTH * y + k;
            IsImage(stack) && c < stack.width && Pixel(stack, r, c) == band[y + r][k]
  {
    var shifts := |band| - height + 1;
    var rows := seq(height, i requires 0 <= i < height => StackRow(band, height, i));
    forall i: nat | i < height
      ensures |rows[i]| == COARSE_WIDTH * shifts
    {
      FlattenLength(seq(shifts, j requires 0 <= j < shifts => band[j + i]), COARSE_WIDTH);
    }
    FlattenAt(seq(shifts, j requires 0 <= j < shifts => band[j + r]), COARSE_WIDTH, y, k);
    FromRowsPixel(rows, COARSE_WIDTH * shifts, r, COARSE_WIDTH * y + k);
  }

  /** Pixel (r, 24y + k) of the tiled thumbnail is its pixel (r, k). */
  lemma {:induction false} TiledPixel(lines: seq<seq<Level>>, shifts: nat, r: nat, y: nat, k: nat)
    requires Uniform(lines, COARSE_WIDTH) && r < |lines| && y < shifts && k < COARSE_WIDTH
    ensures var tiled := Tiled(lines, shifts); var c := COARSE_WIDTH * y + k;
            IsImage(tiled) && c < tiled.width && Pixel(tiled, r, c) == lines[r][k]
  {
    var rows := seq(|lines|, i requires 0 <= i < |lines| => TiledRow(lines[i], shifts));
    forall i: nat | i < |lines|
      ensures |rows[i]| == COARSE_WIDTH * shifts
    {
      FlattenLength(seq(shifts, _ => lines[i]), COARSE_WIDTH);
    }
    FlattenAt(seq(shifts, _ => lines[r]), COARSE_WIDTH, y, k);
    FromRowsPixel(rows, COARSE_WIDTH * shifts, r, COARSE_WIDTH * y + k);
  }

  /** The table the difference image is mapped through: white where the two agree. */
  const AGREES: seq<Level> := seq(256, level => if level <= COARSE_TOLERANCE as int then 255 else 0)

  function Difference(x: Level, y: Level): Level {
    if x < y then y - x else x - y
  }

  /** ImageChops.difference, then Image.point: pixel by pixel. */
  function Agreement(stack: Image, tiled: Image): (agree: Image)
    requires IsImage(stack) && IsImage(tiled) && stack.width == tiled.width && stack.height == tiled.height
    ensures IsImage(agree) && agree.width == stack.width && agree.height == stack.height
  {
    Image(seq(|stack.data|, i requires 0 <= i < |stack.data| => AGREES[Difference(stack.data[i], tiled.data[i])]),
          stack.width, stack.height)
  }

  lemma {:induction false} AgreementPixel(stack: Image, tiled: Image, r: nat, c: nat)
    requires IsImage(stack) && IsImage(tiled) && stack.width == tiled.width && stack.height == tiled.height
    requires r < stack.height && c < stack.width
    ensures Pixel(Agreement(stack, tiled), r, c) ==
            if Difference(Pixel(stack, r, c), Pixel(tiled, r, c)) <= COARSE_TOLERANCE then 255 else 0
  {
    InBounds(r, c, stack.width, stack.height);
  }

  /** The 24-pixel-wide window of a wide image that its `y`th averaged pixel covers. */
  function Window(wide: Image, y: nat): seq<seq<Level>>
    requires IsImage(wide) && COARSE_WIDTH * (y + 1) <= wide.width
  {
    seq(wide.height, r requires 0 <= r < wide.height =>
      seq(COARSE_WIDTH, k requires 0 <= k < COARSE_WIDTH => Pixel(wide, r, COARSE_WIDTH * y + k)))
  }

  /** The thumbnail laid on the band at row `y`: where the two agree. */
  function Overlay(band: seq<seq<Level>>, lines: seq<seq<Level>>, y: nat): seq<seq<Level>>
    requires Uniform(band, COARSE_WIDTH) && Uniform(lines, COARSE_WIDTH) && y + |lines| <= |band|
  {
    seq(|lines|, r requires 0 <= r < |lines| =>
      seq(COARSE_WIDTH, k requires 0 <= k < COARSE_WIDTH =>
        if Difference(band[y + r][k], lines[r][k]) <= COARSE_TOLERANCE then 255 else 0))
  }

  /** The stack and the tiled thumbnail are images of one size. */
  lemma {:induction false} SameShape(band: seq<seq<Level>>, lines: seq<seq<Level>>)
    requires Uniform(band, COARSE_WIDTH) && Uniform(lines, COARSE_WIDTH) && 0 < |lines| <= |band|
    ensures var stack, tiled := Stack(band, |lines|), Tiled(lines, |band| - |lines| + 1);
            && IsImage(stack) && stack.width == COARSE_WIDTH * (|band| - |lines| + 1) && stack.height == |lines|
            && IsImage(tiled) && tiled.width == stack.width && tiled.height == stack.height
  {
    StackPixel(band, |lines|, 0, 0, 0);
    TiledPixel(lines, |band| - |lines| + 1, 0, 0, 0);
  }

  /** The window the library averages is the thumbnail laid on the band. */
  lemma {:induction false} WindowIsOverlay(band: seq<seq<Level>>, lines: seq<seq<Level>>, y: nat)
    requires Uniform(band, COARSE_WIDTH) && Uniform(lines, COARSE_WIDTH) && 0 < |lines| && y + |lines| <= |band|
    requires var stack, tiled := Stack(band, |lines|), Tiled(lines, |band| - |lines| + 1);
             && IsImage(stack) && stack.width == COARSE_WIDTH * (|band| - |lines| + 1) && stack.height == |lines|
             && IsImage(tiled) && tiled.width == stack.width && tiled.height == stack.height
    ensures Window(Agreement(Stack(band, |lines|), Tiled(lines, |band| - |lines| + 1)), y) == Overlay(band, lines, y)
  {
    hide Stack, Tiled, Agreement, IsImage, Pixel;
    var stack, tiled := Stack(band, |lines|), Tiled(lines, |band| - |lines| + 1);
    var agree := Agreement(stack, tiled);
    forall r, k | 0 <= r < |lines| && 0 <= k < COARSE_WIDTH
      ensures Pixel(agree, r, COARSE_WIDTH * y + k) == Overlay(band, lines, y)[r][k]
    {
      StackPixel(band, |lines|, r, y, k);
      TiledPixel(lines, |band| - |lines| + 1, r, y, k);
      AgreementPixel(stack, tiled, r, COARSE_WIDTH * y + k);
    }
    forall r | 0 <= r < |lines|
      ensures Window(agree, y)[r] == Overlay(band, lines, y)[r]
    {
      assert forall k | 0 <= k < COARSE_WIDTH :: Window(agree, y)[r][k] == Pixel(agree, r, COARSE_WIDTH * y + k);
    }
  }

  // ---------------------------------------------------------------------------------------------
  // What a share says

  function Total(values: seq<Level>): nat {
    if values == [] then 0 else Total(values[..|values| - 1]) + values[|values| - 1] as nat
  }

  function TotalOfAll(rows: seq<seq<Level>>): nat {
    if rows == [] then 0 else TotalOfAll(rows[..|rows| - 1]) + Total(rows[|rows| - 1])
  }

  /** No level is nearer to the mean of `values`. */
  ghost predicate Nearest(level: Level, values: seq<Level>) {
    Abs(2 * (|values| * level as int - Total(values))) <= |values|
  }

  ghost predicate RowMeans(window: seq<seq<Level>>, means: seq<Level>) {
    |means| == |window| && forall r | 0 <= r < |window| :: Nearest(means[r], window[r])
  }

  /** Rounded along each row, then down the rows. */
  ghost predicate BoxMean(window: seq<seq<Level>>, level: Level) {
    exists means | RowMeans(window, means) :: Nearest(level, means)
  }

  /** A box filter: to the nearest level each time, ties either way. */
  ghost predicate IsBox(average: seq<seq<Level>> -> Level) {
    forall window: seq<seq<Level>> :: window != [] && Uniform(window, COARSE_WIDTH) ==> BoxMean(window, average(window))
  }

  /** Halves up: one such rounding. */
  function Rounded(values: seq<Level>): (mean: Level)
    requires values != []
    ensures Nearest(mean, values)
  {
    TotalIsBounded(values);
    HalfUp(Total(values), |values|);
    ((2 * Total(values) + |values|) / (2 * |values|)) as Level
  }

  lemma {:induction false} MoreOfMany(n: nat, less: int, more: int)
    requires less <= more
    ensures n * less <= n * more
  {
  }

  lemma {:induction false} HalfUp(total: nat, n: nat)
    requires 0 < n && total <= 255 * n
    ensures var mean := (2 * total + n) / (2 * n); 0 <= mean < 256 && Abs(2 * (n * mean - total)) <= n
  {
    var mean, rest := (2 * total + n) / (2 * n), (2 * total + n) % (2 * n);
    assert 2 * total + n == 2 * (n * mean) + rest;
    MoreOfMany(n, Min(mean, 256), mean);
  }

  lemma {:induction false} TotalIsBounded(values: seq<Level>)
    ensures Total(values) <= 255 * |values|
  {
    if values != [] {
      TotalIsBounded(values[..|values| - 1]);
    }
  }

  /** There are box filters. */
  lemma {:induction false} HalvesUpIsABox(average: seq<seq<Level>> -> Level)
    requires forall window: seq<seq<Level>> | window != [] && Uniform(window, COARSE_WIDTH) ::
               average(window) == Rounded(seq(|window|, r requires 0 <= r < |window| => Rounded(window[r])))
    ensures IsBox(average)
  {
    forall window: seq<seq<Level>> | window != [] && Uniform(window, COARSE_WIDTH)
      ensures BoxMean(window, average(window))
    {
      var means := seq(|window|, r requires 0 <= r < |window| => Rounded(window[r]));
      assert RowMeans(window, means);
    }
  }

  /** A level within one of the mean of values with a total. */
  ghost predicate WithinOne(values: nat, level: int, total: int) {
    Abs(values * level - total) <= values
  }

  /** Rounding twice stays within one level of the true mean. */
  lemma {:induction false} BoxMeanIsNear(window: seq<seq<Level>>, level: Level)
    requires Uniform(window, COARSE_WIDTH) && BoxMean(window, level)
    ensures WithinOne(COARSE_WIDTH * |window|, level as int, TotalOfAll(window))
  {
    var means :| RowMeans(window, means) && Nearest(level, means);
    RowMeansAreNear(window, means);
    NearTwice(|window|, level as int, Total(means), TotalOfAll(window));
  }

  lemma {:induction false} NearTwice(n: nat, level: int, rows: int, all: int)
    requires Abs(2 * (n * level - rows)) <= n && Abs(2 * (COARSE_WIDTH * rows - all)) <= COARSE_WIDTH * n
    ensures WithinOne(COARSE_WIDTH * n, level, all)
  {
    assert COARSE_WIDTH * n * level == COARSE_WIDTH * (n * level);
  }

  lemma {:induction false} RowMeansAreNear(window: seq<seq<Level>>, means: seq<Level>)
    requires Uniform(window, COARSE_WIDTH) && RowMeans(window, means)
    ensures Abs(2 * (COARSE_WIDTH * Total(means) - TotalOfAll(window))) <= COARSE_WIDTH * |window|
  {
    if window != [] {
      var last := |window| - 1;
      RowMeansAreNear(window[..last], means[..last]);
      assert Nearest(means[last], window[last]);
    }
  }

  /** How many pixels of a line agree with those under it. */
  function AgreeingInLine(under: seq<Level>, line: seq<Level>): nat
    requires |under| == |line|
  {
    if line == [] then 0
    else
      var last := |line| - 1;
      AgreeingInLine(under[..last], line[..last])
      + if Difference(under[last], line[last]) <= COARSE_TOLERANCE then 1 else 0
  }

  /** How many pixels of the thumbnail agree with the band, laid on it at row `y`. */
  function Agreeing(band: seq<seq<Level>>, lines: seq<seq<Level>>, y: nat): nat
    requires Uniform(band, COARSE_WIDTH) && Uniform(lines, COARSE_WIDTH) && y + |lines| <= |band|
  {
    if lines == [] then 0
    else
      var last := |lines| - 1;
      Agreeing(band, lines[..last], y) + AgreeingInLine(band[y + last], lines[last])
  }

  lemma {:induction false} LineTotal(marks: seq<Level>, under: seq<Level>, line: seq<Level>)
    requires |marks| == |under| == |line|
    requires forall k | 0 <= k < |line| ::
               marks[k] == if Difference(under[k], line[k]) <= COARSE_TOLERANCE then 255 else 0
    ensures Total(marks) == 255 * AgreeingInLine(under, line)
  {
    if line != [] {
      var last := |line| - 1;
      LineTotal(marks[..last], under[..last], line[..last]);
    }
  }

  lemma {:induction false} OverlayTotal(band: seq<seq<Level>>, lines: seq<seq<Level>>, y: nat)
    requires Uniform(band, COARSE_WIDTH) && Uniform(lines, COARSE_WIDTH) && y + |lines| <= |band|
    ensures TotalOfAll(Overlay(band, lines, y)) == 255 * Agreeing(band, lines, y)
  {
    if lines != [] {
      var last := |lines| - 1;
      OverlayTotal(band, lines[..last], y);
      LineTotal(Overlay(band, lines, y)[last], band[y + last], lines[last]);
      OverlayGrows(band, lines, y);
      hide Overlay, AgreeingInLine, Total;
    }
  }

  lemma {:induction false} OverlayGrows(band: seq<seq<Level>>, lines: seq<seq<Level>>, y: nat)
    requires Uniform(band, COARSE_WIDTH) && Uniform(lines, COARSE_WIDTH) && y + |lines| <= |band| && lines != []
    ensures var last := |lines| - 1;
            && |Overlay(band, lines, y)| == |lines| && Uniform(lines[..last], COARSE_WIDTH)
            && Overlay(band, lines, y)[..last] == Overlay(band, lines[..last], y)
  {
  }

  /** The share found at a row is, out of 255 and within one of it, the part of the thumbnail's pixels that agree
      with the band there. */
  lemma {:induction false} ShareIsAgreement(band: seq<seq<Level>>, lines: seq<seq<Level>>, y: nat,
                                            average: seq<seq<Level>> -> Level)
    requires Uniform(band, COARSE_WIDTH) && Uniform(lines, COARSE_WIDTH) && 0 < |lines| && y + |lines| <= |band|
    requires IsBox(average)
    ensures y < |SlideDown(band, lines, average)|
    ensures var share, pixels := SlideDown(band, lines, average)[y], COARSE_WIDTH * |lines|;
            WithinOne(pixels, share as int, 255 * Agreeing(band, lines, y))
  {
    SlideAt(band, lines, y, average);
    hide *;
    var laid := Overlay(band, lines, y);
    BoxMeanIsNear(laid, average(laid));
    OverlayTotal(band, lines, y);
  }

  lemma {:induction false} SlideAt(band: seq<seq<Level>>, lines: seq<seq<Level>>, y: nat,
                                   average: seq<seq<Level>> -> Level)
    requires Uniform(band, COARSE_WIDTH) && Uniform(lines, COARSE_WIDTH) && 0 < |lines| && y + |lines| <= |band|
    requires IsBox(average)
    ensures y < |SlideDown(band, lines, average)|
    ensures var laid := Overlay(band, lines, y);
            && SlideDown(band, lines, average)[y] == average(laid)
            && |laid| == |lines| && Uniform(laid, COARSE_WIDTH) && BoxMean(laid, average(laid))
  {
    hide BoxMean;
  }

  /** Nowhere in any band do noticeably more pixels agree than where the search puts the thumbnail: not by more
      than two in 255. */
  lemma {:induction false} BestAgreesMost(bands: seq<seq<seq<Level>>>, lines: seq<seq<Level>>,
                                          average: seq<seq<Level>> -> Level, b: nat, y: nat, b': nat, y': nat)
    requires IsSearch(bands, lines) && IsBox(average) && IsBest(Slide(bands, lines, average), b, y)
    requires b' < |bands| && y' + |lines| <= |bands[b']|
    ensures b < |bands| && y + |lines| <= |bands[b]|
    ensures 255 * Agreeing(bands[b'], lines, y') <= 255 * Agreeing(bands[b], lines, y) + 2 * COARSE_WIDTH * |lines|
  {
    var shares, pixels := Slide(bands, lines, average), COARSE_WIDTH * |lines|;
    BestBeats(bands, lines, average, b, y, b', y');
    hide *;
    ShareIsAgreement(bands[b], lines, y, average);
    ShareIsAgreement(bands[b'], lines, y', average);
    NearBest(pixels, shares[b'][y'] as int, shares[b][y] as int, Agreeing(bands[b'], lines, y'),
             Agreeing(bands[b], lines, y));
  }

  lemma {:induction false} BestBeats(bands: seq<seq<seq<Level>>>, lines: seq<seq<Level>>,
                                     average: seq<seq<Level>> -> Level, b: nat, y: nat, b': nat, y': nat)
    requires IsSearch(bands, lines) && IsBest(Slide(bands, lines, average), b, y)
    requires b' < |bands| && y' + |lines| <= |bands[b']|
    ensures b < |bands| && y + |lines| <= |bands[b]|
    ensures var shares := Slide(bands, lines, average);
            y < |shares[b]| && y' < |shares[b']| && shares[b'][y'] <= shares[b][y]
            && Uniform(bands[b], COARSE_WIDTH) && Uniform(bands[b'], COARSE_WIDTH) && Uniform(lines, COARSE_WIDTH)
            && 0 < |lines|
  {
    assert Sits(Slide(bands, lines, average), b', y');
    hide Overlay, Place;
  }

  lemma {:induction false} NearBest(n: nat, less: int, more: int, few: int, many: int)
    requires less <= more && WithinOne(n, less, 255 * few) && WithinOne(n, more, 255 * many)
    ensures 255 * few <= 255 * many + 2 * n
  {
    MoreOfMany(n, less, more);
    var p, q := n * less, n * more;
    assert 255 * few <= p + n && q <= 255 * many + n;
  }

  lemma {:induction false} TotalOfThree(values: seq<Level>)
    requires |values| == 3
    ensures Total(values) == values[0] as nat + values[1] as nat + values[2] as nat
  {
    assert values[..2][..1] == [values[0]] && values[..2][1] == values[1];
    assert Total([values[0]]) == values[0] as nat;
  }

  /** Twice rounded is not once rounded: with four, four and none of the 24 pixels of three rows agreeing, the
      mean is 28 and a third, but the rows' means round to 43, 43 and 0, and theirs to 29. */
  lemma {:induction false} RoundedTwice(window: seq<seq<Level>>)
    requires |window| == 3 && Uniform(window, COARSE_WIDTH)
    requires Total(window[0]) == 4 * 255 && Total(window[1]) == 4 * 255 && Total(window[2]) == 0
    ensures TotalOfAll(window) == 8 * 255 && BoxMean(window, 29)
    ensures Abs(2 * (72 * 29 - TotalOfAll(window))) > 72
  {
    var means: seq<Level> := [43, 43, 0];
    TotalOfThree(means);
    assert Nearest(29, means);
    assert RowMeans(window, means);
    assert window[..2][..1] == [window[0]] && window[..2][1] == window[1];
    assert TotalOfAll([window[0]]) == Total(window[0]);
  }

  // ---------------------------------------------------------------------------------------------
  // Searching

  datatype Placement = Placement(score: real, scale: real, top: real)

  ghost predicate IsSearch(bands: seq<seq<seq<Level>>>, lines: seq<seq<Level>>) {
    && |bands| == |SCALES| && (forall band | band in bands :: Uniform(band, COARSE_WIDTH))
    && Uniform(lines, COARSE_WIDTH) && 0 < |lines|
  }

  /** The naive search of one band: the average over the overlay, for each row the thumbnail can start on. */
  ghost function SlideDown(band: seq<seq<Level>>, lines: seq<seq<Level>>, average: seq<seq<Level>> -> Level): seq<Level>
    requires Uniform(band, COARSE_WIDTH) && Uniform(lines, COARSE_WIDTH)
  {
    var shifts := if |lines| <= |band| then |band| - |lines| + 1 else 0;
    seq(shifts, y requires 0 <= y < shifts => average(Overlay(band, lines, y)))
  }

  ghost function Slide(bands: seq<seq<seq<Level>>>, lines: seq<seq<Level>>,
                       average: seq<seq<Level>> -> Level): (shares: seq<seq<Level>>)
    requires IsSearch(bands, lines)
    ensures |shares| == |bands| && forall b | 0 <= b < |bands| :: shares[b] == SlideDown(bands[b], lines, average)
  {
    seq(|bands|, b requires 0 <= b < |bands| => SlideDown(bands[b], lines, average))
  }

  function Place(share: Level, b: nat, y: nat): Placement
    requires b < |SCALES|
  {
    Placement(share as real / 255.0, SCALES[b], y as real / COARSE_WIDTH as real * SCALES[b])
  }

  /** A placement is the share out of 255, at one of eleven sizes from seven tenths of the frame's width up, its top
      edge as many rows down as found, 24 of them to the card's width. */
  lemma {:induction false} PlaceIsInWidths(share: Level, b: nat, y: nat)
    requires b < |SCALES|
    ensures |SCALES| == 11 && Place(share, b, y).score * 255.0 == share as real
    ensures Place(share, b, y).scale == 0.7 + 0.03 * b as real
    ensures Place(share, b, y).top * 24.0 == y as real * Place(share, b, y).scale
  {
  }

  ghost predicate Before(b: int, y: int, b': int, y': int) {
    b < b' || (b == b' && y < y')
  }

  ghost predicate Sits(shares: seq<seq<Level>>, b: int, y: int) {
    0 <= b < |shares| && 0 <= y < |shares[b]|
  }

  /** The best share of all, and the first of equals. */
  ghost predicate IsBest(shares: seq<seq<Level>>, b: int, y: int) {
    && Sits(shares, b, y)
    && forall b', y' | Sits(shares, b', y') ::
         shares[b'][y'] <= shares[b][y] && (Before(b', y', b, y) ==> shares[b'][y'] < shares[b][y])
  }

  ghost predicate IsSearchResult(shares: seq<seq<Level>>, best: Option<Placement>)
    requires |shares| <= |SCALES|
  {
    match best
    case None => forall b, y :: !Sits(shares, b, y)
    case Some(p) => exists b, y :: IsBest(shares, b, y) && p == Place(shares[b][y], b, y)
  }

  /** One thumbnail, one answer. */
  lemma {:induction false} SearchHasOneResult(shares: seq<seq<Level>>, best: Option<Placement>,
                                              other: Option<Placement>)
    requires |shares| <= |SCALES| && IsSearchResult(shares, best) && IsSearchResult(shares, other)
    ensures best == other
  {
    if best.Some? && other.Some? {
      var b, y :| IsBest(shares, b, y) && best.value == Place(shares[b][y], b, y);
      var b', y' :| IsBest(shares, b', y') && other.value == Place(shares[b'][y'], b', y');
      assert !Before(b, y, b', y') && !Before(b', y', b, y);
    }
  }

  /** `max(range(n), key=shares.__getitem__)`: the first of the greatest. */
  function FirstMax(shares: seq<Level>): (y: nat)
    requires shares != []
    ensures y < |shares|
    ensures forall i | 0 <= i < |shares| :: shares[i] <= shares[y]
    ensures forall i | 0 <= i < y :: shares[i] < shares[y]
  {
    if |shares| == 1 then 0
    else
      var y := FirstMax(shares[..|shares| - 1]);
      if shares[|shares| - 1] > shares[y] then |shares| - 1 else y
  }

  class Frame {
    const bands: seq<seq<seq<Level>>>
    const average: seq<seq<Level>> -> Level
    var stacks: map<(nat, nat), Image>

    /** Every remembered stack is the one its key asks for. */
    ghost predicate Valid()
      reads this`stacks
    {
      && |bands| == |SCALES| && (forall band | band in bands :: Uniform(band, COARSE_WIDTH))
      && forall key | key in stacks ::
           key.0 < |bands| && key.1 <= |bands[key.0]| && stacks[key] == Stack(bands[key.0], key.1)
    }

    /** `shrunk` holds one band of the frame for each scale, already brought down to 24 columns. */
    constructor (shrunk: seq<Image>, average: seq<seq<Level>> -> Level)
      requires |shrunk| == |SCALES|
      requires forall img | img in shrunk :: IsImage(img) && img.width == COARSE_WIDTH
      ensures Valid() && stacks == map[] && this.average == average
      ensures bands == seq(|shrunk|, i requires 0 <= i < |shrunk| => Rows(shrunk[i]))
    {
      this.average := average;
      var made: seq<seq<seq<Level>>> := [];
      for i := 0 to |shrunk|
        invariant made == seq(i, j requires 0 <= j < i => Rows(shrunk[j]))
      {
        made := made + [Rows(shrunk[i])];
      }
      bands := made;
      stacks := map[];
    }

    /** A band's stack, made the first time it is asked for. */
    method StackOf(band: nat, height: nat) returns (stack: Image)
      requires Valid() && band < |bands| && height <= |bands[band]|
      modifies this`stacks
      ensures Valid() && stack == Stack(bands[band], height)
    {
      var key := (band, height);
      if key !in stacks {
        stacks := stacks[key := Stack(bands[band], height)];
      }
      stack := stacks[key];
    }

    /** The shares of one band, one for each row the thumbnail can start on. */
    method Shares(band: nat, lines: seq<seq<Level>>) returns (shares: seq<Level>)
      requires Valid() && IsSearch(bands, lines) && band < |bands| && |lines| <= |bands[band]|
      modifies this`stacks
      ensures Valid() && shares == SlideDown(bands[band], lines, average)
    {
      var shifts := |bands[band]| - |lines| + 1;
      var stack := StackOf(band, |lines|);
      var tiled := Tiled(lines, shifts);
      SameShape(bands[band], lines);
      var agree := Agreement(stack, tiled);
      assert agree.width == COARSE_WIDTH * shifts;
      shares := Averaged(agree, shifts, average);
      forall y | 0 <= y < shifts
        ensures shares[y] == average(Overlay(bands[band], lines, y))
      {
        WindowIsOverlay(bands[band], lines, y);
      }
    }

    /** The best placement over all bands: what sliding finds, whatever was searched for before. */
    method Search(coarse: Image) returns (best: Option<Placement>)
      requires Valid() && IsImage(coarse) && coarse.width == COARSE_WIDTH && coarse.height > 0
      modifies this`stacks
      ensures Valid() && IsSearchResult(Slide(bands, Rows(coarse), average), best)
    {
      best := None;
      var lines := Rows(coarse);
      assert IsSearchResult([], best);
      hide Slide, IsSearchResult, Stack;
      ghost var slid := Slide(bands, lines, average);
      for b := 0 to |SCALES|
        invariant Valid() && IsSearchResult(slid[..b], best)
      {
        assert slid[..b + 1] == slid[..b] + [slid[b]];
        var shifts := |bands[b]| - coarse.height + 1;
        if shifts < 1 {
          Searched(slid[..b], [], best, best);
          continue;
        }
        var shares := Shares(b, lines);
        var y := FirstMax(shares);
        ghost var was := best;
        if best.None? || shares[y] as real / 255.0 > best.value.score {
          best := Some(Place(shares[y], b, y));
        }
        Searched(slid[..b], shares, was, best);
      }
      assert slid[..|SCALES|] == slid;
    }
  }

  /** Image.resize with the box filter, to one pixel for each window. */
  function Averaged(wide: Image, shifts: nat, average: seq<seq<Level>> -> Level): seq<Level>
    requires IsImage(wide) && wide.width == COARSE_WIDTH * shifts
  {
    seq(shifts, y requires 0 <= y < shifts => average(Window(wide, y)))
  }

  /** One more band: its first maximum replaces the best only when strictly better. */
  lemma {:induction false} Searched(slid: seq<seq<Level>>, shares: seq<Level>, was: Option<Placement>,
                                    best: Option<Placement>)
    requires |slid| < |SCALES| && IsSearchResult(slid, was)
    requires best == if shares != [] && (was.None? || shares[FirstMax(shares)] as real / 255.0 > was.value.score)
                     then Some(Place(shares[FirstMax(shares)], |slid|, FirstMax(shares))) else was
    ensures IsSearchResult(slid + [shares], best)
  {
    var next := slid + [shares];
    if was.Some? {
      var b, y :| IsBest(slid, b, y) && was.value == Place(slid[b][y], b, y);
      if best == was {
        assert Sits(next, b, y);
        assert IsBest(next, b, y);
      } else {
        assert IsBest(next, |slid|, FirstMax(shares));
      }
    } else {
      assert forall b, y | b < |slid| :: Sits(next, b, y) <==> Sits(slid, b, y);
      assert shares != [] ==> IsBest(next, |slid|, FirstMax(shares));
    }
  }
}
