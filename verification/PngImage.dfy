/** From inflated scanlines to an RGBA image, and what its transparency test computes. */
module PngImage {
  import opened Options
  import opened PngRows

  datatype DecodeError = OutOfRange | UnknownFilter(filter: Byte)

  /** Four bytes a pixel, row after row. */
  datatype DecodedImage = DecodedImage(width: nat, height: nat, data: seq<Byte>)

  function Min(a: nat, b: nat): nat {
    if a < b then a else b
  }

  /** The bytes a row starts from: what is left of `raw`, then whatever the buffer still holds. */
  function LineAt(raw: seq<Byte>, cursor: nat, residue: seq<Byte>): (line: seq<Byte>)
    requires cursor <= |raw|
    ensures |line| == |residue|
  {
    var copied := Min(|raw| - cursor, |residue|);
    raw[cursor..cursor + copied] + residue[copied..]
  }

  function RowsOf(raw: seq<Byte>, cursor: nat, height: nat, channels: nat, previous: seq<Byte>)
    : (result: Result<seq<seq<Byte>>, DecodeError>)
    requires channels > 0
    ensures result.Ok? ==> |result.value| == height && forall row <- result.value :: |row| == |previous|
    decreases height
  {
    if height == 0 then Ok([])
    else if cursor >= |raw| then Err(OutOfRange)
    else if !IsFilter(raw[cursor]) then Err(UnknownFilter(raw[cursor]))
    else
      var row := Unfiltered(raw[cursor], LineAt(raw, cursor + 1, previous), previous, channels, |previous|);
      var rest :- RowsOf(raw, cursor + 1 + |previous|, height - 1, channels, row);
      Ok([row] + rest)
  }

  predicate AllOfLength(rows: seq<seq<Byte>>, n: nat) {
    forall row <- rows :: |row| == n
  }

  predicate AreFilters(filters: seq<Byte>) {
    forall filter <- filters :: IsFilter(filter)
  }

  /** Every row under a filter of the encoder's choice, each preceded by its filter type. */
  function EncodeRows(rows: seq<seq<Byte>>, filters: seq<Byte>, channels: nat, previous: seq<Byte>): seq<Byte>
    requires channels > 0 && |rows| == |filters| && AllOfLength(rows, |previous|)
  {
    if rows == [] then []
    else
      [filters[0]] + Filtered(filters[0], rows[0], previous, channels)
      + EncodeRows(rows[1..], filters[1..], channels, rows[0])
  }

  /** One row's bytes, in the middle of the stream, are read back as that row. */
  lemma LineRoundTrip(raw: seq<Byte>, cursor: nat, filter: Byte, row: seq<Byte>, channels: nat, previous: seq<Byte>)
    requires channels > 0 && |row| == |previous| && cursor + 1 + |row| <= |raw|
    requires raw[cursor + 1..cursor + 1 + |row|] == Filtered(filter, row, previous, channels)
    ensures Unfiltered(filter, LineAt(raw, cursor + 1, previous), previous, channels, |previous|) == row
  {
    hide Filtered, Unfiltered;
    assert LineAt(raw, cursor + 1, previous) == Filtered(filter, row, previous, channels);
    UnfilterUndoesFilter(filter, row, previous, channels, |row|);
    assert row[..|row|] == row;
  }

  lemma SplitFirstLine(raw: seq<Byte>, cursor: nat, filter: Byte, line: seq<Byte>, coded: seq<Byte>)
    requires cursor <= |raw| && [filter] + line + coded <= raw[cursor..]
    ensures cursor + 1 + |line| <= |raw| && raw[cursor] == filter
    ensures raw[cursor + 1..cursor + 1 + |line|] == line
    ensures coded <= raw[cursor + 1 + |line|..]
  {
    var tail := raw[cursor..];
    assert tail[0] == filter;
    assert tail[1..1 + |line|] == line;
    assert tail[1 + |line|..] == raw[cursor + 1 + |line|..];
  }

  /** Reading back a well-read first row and then the rest. */
  lemma RowsOfStep(raw: seq<Byte>, cursor: nat, height: nat, channels: nat, previous: seq<Byte>, row: seq<Byte>)
    requires channels > 0 && height > 0 && cursor < |raw| && IsFilter(raw[cursor])
    requires row == Unfiltered(raw[cursor], LineAt(raw, cursor + 1, previous), previous, channels, |previous|)
    ensures var rest := RowsOf(raw, cursor + 1 + |previous|, height - 1, channels, row);
            RowsOf(raw, cursor, height, channels, previous)
            == if rest.Ok? then Ok([row] + rest.value) else rest
  {
    hide IsFilter, Unfiltered, LineAt;
  }

  /** The first row and its coded line, split off the rest of both. */
  lemma EncodeRowsStep(rows: seq<seq<Byte>>, filters: seq<Byte>, channels: nat, previous: seq<Byte>)
    requires channels > 0 && |rows| == |filters| > 0 && AllOfLength(rows, |previous|) && AreFilters(filters)
    ensures IsFilter(filters[0]) && AreFilters(filters[1..])
    ensures |rows[0]| == |previous| && AllOfLength(rows[1..], |rows[0]|)
    ensures EncodeRows(rows, filters, channels, previous)
         == [filters[0]] + Filtered(filters[0], rows[0], previous, channels)
            + EncodeRows(rows[1..], filters[1..], channels, rows[0])
  {
    hide Filtered, IsFilter;
    assert filters[0] in filters && rows[0] in rows;
  }

  lemma HeadRoundTrip(raw: seq<Byte>, cursor: nat, filter: Byte, row: seq<Byte>, rest: seq<seq<Byte>>,
                      channels: nat, previous: seq<Byte>)
    requires channels > 0 && |row| == |previous| && IsFilter(filter)
    requires cursor + 1 + |previous| <= |raw| && raw[cursor] == filter
    requires raw[cursor + 1..cursor + 1 + |row|] == Filtered(filter, row, previous, channels)
    requires RowsOf(raw, cursor + 1 + |previous|, |rest|, channels, row) == Ok(rest)
    ensures RowsOf(raw, cursor, |rest| + 1, channels, previous) == Ok([row] + rest)
  {
    hide RowsOf, Filtered, Unfiltered, IsFilter, LineAt;
    LineRoundTrip(raw, cursor, filter, row, channels, previous);
    RowsOfStep(raw, cursor, |rest| + 1, channels, previous, row);
  }

  lemma NoRows(raw: seq<Byte>, cursor: nat, channels: nat, previous: seq<Byte>)
    requires channels > 0
    ensures RowsOf(raw, cursor, 0, channels, previous) == Ok([])
  {
  }

  /** The row loop recovers every row, whichever filter each was sent under and whatever surrounds them. */
  lemma {:induction false} RowsRoundTrip(
    raw: seq<Byte>, cursor: nat, rows: seq<seq<Byte>>, filters: seq<Byte>, channels: nat, previous: seq<Byte>)
    requires channels > 0 && |rows| == |filters| && AllOfLength(rows, |previous|) && AreFilters(filters)
    requires cursor <= |raw| && EncodeRows(rows, filters, channels, previous) <= raw[cursor..]
    ensures RowsOf(raw, cursor, |rows|, channels, previous) == Ok(rows)
    decreases |rows|
  {
    hide Filtered, Unfiltered, IsFilter, LineAt, AllOfLength, AreFilters, EncodeRows, RowsOf;
    if rows == [] {
      NoRows(raw, cursor, channels, previous);
    } else {
      EncodeRowsStep(rows, filters, channels, previous);
      var line := Filtered(filters[0], rows[0], previous, channels);
      SplitFirstLine(raw, cursor, filters[0], line, EncodeRows(rows[1..], filters[1..], channels, rows[0]));
      RowsRoundTrip(raw, cursor + 1 + |line|, rows[1..], filters[1..], channels, rows[0]);
      HeadRoundTrip(raw, cursor, filters[0], rows[0], rows[1..], channels, previous);
      assert rows == [rows[0]] + rows[1..];
    }
  }

  function Pixel(row: seq<Byte>, channels: nat, x: nat): (pixel: seq<Byte>)
    requires 3 <= channels <= 4 && (x + 1) * channels <= |row|
    ensures |pixel| == 4
  {
    row[x * channels..x * channels + 3] + [if channels == 4 then row[x * channels + 3] else 255]
  }

  function RowPixels(row: seq<Byte>, channels: nat, n: nat): (pixels: seq<Byte>)
    requires 3 <= channels <= 4 && n * channels <= |row|
    ensures |pixels| == 4 * n
  {
    if n == 0 then [] else RowPixels(row, channels, n - 1) + Pixel(row, channels, n - 1)
  }

  predicate AreRows(rows: seq<seq<Byte>>, width: nat, channels: nat) {
    forall row <- rows :: |row| == width * channels
  }

  /** How many bytes `height` rows of `width` pixels take up. */
  function Size(height: nat, width: nat): nat {
    height * width * 4
  }

  lemma SizeGrows(height: nat, width: nat)
    ensures Size(height + 1, width) == Size(height, width) + width * 4
  {
  }

  lemma SizeIsMonotone(height: nat, more: nat, width: nat)
    requires height <= more
    ensures Size(height, width) <= Size(more, width)
  {
    assert height * width <= more * width;
  }

  /** Where the four bytes of a pixel begin. */
  function PixelIndex(x: nat, y: nat, width: nat): nat {
    (y * width + x) * 4
  }

  function ImageOf(rows: seq<seq<Byte>>, width: nat, channels: nat): (data: seq<Byte>)
    requires 3 <= channels <= 4 && AreRows(rows, width, channels)
    ensures |data| == Size(|rows|, width)
  {
    if rows == [] then []
    else
      var last := |rows| - 1;
      assert rows[last] in rows;
      SizeGrows(last, width);
      ImageOf(rows[..last], width, channels) + RowPixels(rows[last], channels, width)
  }

  function Channel(row: seq<Byte>, channels: nat, x: nat, k: nat): Byte
    requires 3 <= channels <= 4 && (x + 1) * channels <= |row| && k < 4
  {
    if k < channels then row[x * channels + k] else 255
  }

  lemma InRow(x: nat, width: nat, channels: nat)
    requires x < width
    ensures (x + 1) * channels <= width * channels
  {
  }

  lemma InImage(x: nat, y: nat, width: nat, height: nat)
    requires x < width && y < height
    ensures PixelIndex(x, y, width) == Size(y, width) + 4 * x
    ensures PixelIndex(x, y, width) + 3 < Size(y + 1, width) <= Size(height, width)
  {
    SizeGrows(y, width);
    SizeIsMonotone(y + 1, height, width);
  }

  lemma {:induction false} RowPixelsAt(row: seq<Byte>, channels: nat, n: nat, x: nat, k: nat)
    requires 3 <= channels <= 4 && n * channels <= |row| && x < n && k < 4
    ensures (x + 1) * channels <= |row|
    ensures RowPixels(row, channels, n)[4 * x + k] == Channel(row, channels, x, k)
  {
    InRow(x, n, channels);
    if x < n - 1 {
      RowPixelsAt(row, channels, n - 1, x, k);
    }
  }

  lemma LastRowDrawn(rows: seq<seq<Byte>>, width: nat, channels: nat)
    requires 3 <= channels <= 4 && AreRows(rows, width, channels) && rows != []
    ensures rows[|rows| - 1] in rows && AreRows(rows[..|rows| - 1], width, channels)
    ensures ImageOf(rows, width, channels)
         == ImageOf(rows[..|rows| - 1], width, channels) + RowPixels(rows[|rows| - 1], channels, width)
  {
    hide Size, RowPixels;
  }

  lemma LastRowAt(rows: seq<seq<Byte>>, width: nat, channels: nat, at: nat)
    requires 3 <= channels <= 4 && AreRows(rows, width, channels) && rows != []
    ensures rows[|rows| - 1] in rows && AreRows(rows[..|rows| - 1], width, channels)
    ensures at < Size(|rows| - 1, width) ==>
              at < |ImageOf(rows, width, channels)|
              && ImageOf(rows, width, channels)[at] == ImageOf(rows[..|rows| - 1], width, channels)[at]
    ensures at < 4 * width ==>
              Size(|rows| - 1, width) + at < |ImageOf(rows, width, channels)|
              && ImageOf(rows, width, channels)[Size(|rows| - 1, width) + at]
                 == RowPixels(rows[|rows| - 1], channels, width)[at]
  {
    hide Size, RowPixels, ImageOf;
    SizeGrows(|rows| - 1, width);
    LastRowDrawn(rows, width, channels);
  }

  /** Byte `k` of the pixel at `(x, y)` is that channel of row `y`, alpha 255 where there are but three. */
  lemma {:induction false} ImageAt(rows: seq<seq<Byte>>, width: nat, channels: nat, x: nat, y: nat, k: nat)
    requires 3 <= channels <= 4 && AreRows(rows, width, channels)
    requires x < width && y < |rows| && k < 4
    ensures (x + 1) * channels <= |rows[y]| && PixelIndex(x, y, width) + k < |ImageOf(rows, width, channels)|
    ensures ImageOf(rows, width, channels)[PixelIndex(x, y, width) + k] == Channel(rows[y], channels, x, k)
  {
    hide Size, PixelIndex, RowPixels, ImageOf, Channel;
    InRow(x, width, channels);
    InImage(x, y, width, |rows|);
    var last := |rows| - 1;
    if y < last {
      assert rows[..last][y] == rows[y];
      InImage(x, y, width, last);
      LastRowAt(rows, width, channels, PixelIndex(x, y, width) + k);
      ImageAt(rows[..last], width, channels, x, y, k);
    } else {
      LastRowAt(rows, width, channels, 4 * x + k);
      RowPixelsAt(rows[last], channels, width, x, k);
    }
  }

  /** Writes one pixel after those already out. */
  method StorePixel(out: array<Byte>, row: array<Byte>, channels: nat, x: nat, to: nat)
    requires 3 <= channels <= 4 && (x + 1) * channels <= row.Length && to + 4 <= out.Length && out != row
    modifies out
    ensures out[..to + 4] == old(out[..to]) + Pixel(row[..], channels, x)
  {
    ghost var before, line := out[..to], row[..];
    InRow(x, x + 1, channels);
    PixelIs(line, channels, x);
    var from := x * channels;
    out[to] := row[from];
    out[to + 1] := row[from + 1];
    out[to + 2] := row[from + 2];
    out[to + 3] := if channels == 4 then row[from + 3] else 255;
    assert out[..to] == before && row[..] == line;
    assert out[..to + 4] == before + [out[to], out[to + 1], out[to + 2], out[to + 3]];
  }

  lemma PixelIs(row: seq<Byte>, channels: nat, x: nat)
    requires 3 <= channels <= 4 && (x + 1) * channels <= |row| && x * channels + channels <= |row|
    ensures Pixel(row, channels, x)
         == [row[x * channels], row[x * channels + 1], row[x * channels + 2],
             if channels == 4 then row[x * channels + 3] else 255]
  {
  }

  /** Appends a row's pixels to the `y` rows already out. */
  method StoreRow(out: array<Byte>, row: array<Byte>, width: nat, channels: nat, y: nat)
    requires 3 <= channels <= 4 && row.Length == width * channels && out != row
    requires Size(y + 1, width) <= out.Length
    modifies out
    ensures Size(y, width) <= out.Length
    ensures out[..Size(y + 1, width)] == old(out[..Size(y, width)]) + RowPixels(row[..], channels, width)
  {
    hide Size, PixelIndex;
    SizeGrows(y, width);
    ghost var before := out[..Size(y, width)];
    var x := 0;
    while x < width
      invariant 0 <= x <= width && x * channels <= row.Length
      invariant out[..Size(y, width) + 4 * x] == before + RowPixels(row[..], channels, x)
    {
      InRow(x, width, channels);
      InImage(x, y, width, y + 1);
      StorePixel(out, row, channels, x, PixelIndex(x, y, width));
      x := x + 1;
    }
  }

  /** Overwrites the line buffer with what is left of `raw`, as far as it reaches. */
  method CopyLine(raw: seq<Byte>, cursor: nat, current: array<Byte>)
    requires cursor <= |raw|
    modifies current
    ensures current[..] == LineAt(raw, cursor, old(current[..]))
  {
    var copied := Min(|raw| - cursor, current.Length);
    forall i | 0 <= i < copied {
      current[i] := raw[cursor + i];
    }
  }

  method CopyAll(from: array<Byte>, to: array<Byte>)
    requires from.Length == to.Length
    modifies to
    ensures to[..] == old(from[..])
  {
    forall i | 0 <= i < from.Length {
      to[i] := from[i];
    }
  }

  lemma NothingDrawn(width: nat, channels: nat)
    requires 3 <= channels <= 4
    ensures AreRows([], width, channels) && ImageOf([], width, channels) == [] && Size(0, width) == 0
  {
  }

  lemma ImageGrows(rows: seq<seq<Byte>>, row: seq<Byte>, width: nat, channels: nat)
    requires 3 <= channels <= 4 && AreRows(rows, width, channels) && |row| == width * channels
    ensures AreRows(rows + [row], width, channels)
    ensures ImageOf(rows + [row], width, channels)
         == ImageOf(rows, width, channels) + RowPixels(row, channels, width)
  {
    hide RowPixels;
    assert (rows + [row])[|rows|] == row;
    assert (rows + [row])[..|rows|] == rows;
  }

  /** What is still to come, put after what is done, is the whole. */
  ghost predicate Resumes(raw: seq<Byte>, cursor: nat, height: nat, channels: nat, previous: seq<Byte>,
                          done: seq<seq<Byte>>, whole: Result<seq<seq<Byte>>, DecodeError>)
    requires channels > 0
  {
    var rest := RowsOf(raw, cursor, height, channels, previous);
    whole == if rest.Ok? then Ok(done + rest.value) else rest
  }

  lemma ResumesOneRowOn(raw: seq<Byte>, cursor: nat, height: nat, channels: nat, previous: seq<Byte>,
                        done: seq<seq<Byte>>, whole: Result<seq<seq<Byte>>, DecodeError>, row: seq<Byte>)
    requires channels > 0 && height > 0 && cursor < |raw| && IsFilter(raw[cursor])
    requires Resumes(raw, cursor, height, channels, previous, done, whole)
    requires row == Unfiltered(raw[cursor], LineAt(raw, cursor + 1, previous), previous, channels, |previous|)
    ensures Resumes(raw, cursor + 1 + |previous|, height - 1, channels, row, done + [row], whole)
  {
    hide RowsOf, IsFilter, Unfiltered, LineAt;
    RowsOfStep(raw, cursor, height, channels, previous, row);
    var rest := RowsOf(raw, cursor + 1 + |previous|, height - 1, channels, row);
    if rest.Ok? {
      assert done + ([row] + rest.value) == done + [row] + rest.value;
    }
  }

  lemma ResumesFromNothing(raw: seq<Byte>, height: nat, channels: nat, previous: seq<Byte>)
    requires channels > 0
    ensures Resumes(raw, 0, height, channels, previous, [], RowsOf(raw, 0, height, channels, previous))
  {
    hide RowsOf;
    var whole := RowsOf(raw, 0, height, channels, previous);
    if whole.Ok? {
      assert [] + whole.value == whole.value;
    }
  }

  lemma ResumesNoFurther(raw: seq<Byte>, cursor: nat, height: nat, channels: nat, previous: seq<Byte>,
                         done: seq<seq<Byte>>, whole: Result<seq<seq<Byte>>, DecodeError>)
    requires channels > 0 && Resumes(raw, cursor, height, channels, previous, done, whole)
    ensures height == 0 ==> whole == Ok(done)
    ensures height > 0 && cursor >= |raw| ==> whole == Err(OutOfRange)
    ensures height > 0 && cursor < |raw| && !IsFilter(raw[cursor]) ==> whole == Err(UnknownFilter(raw[cursor]))
  {
    hide Unfiltered, LineAt;
    assert done + [] == done;
  }

  /** The line buffer before the first row. */
  function Blank(n: nat): (line: seq<Byte>)
    ensures |line| == n && forall b <- line :: b == 0
  {
    seq(n, _ => 0)
  }

  /** What a decoder has to answer for the rows a stream stands for. */
  ghost predicate Draws(rows: Result<seq<seq<Byte>>, DecodeError>, width: nat, height: nat, channels: nat,
                        result: Result<DecodedImage, DecodeError>)
    requires 3 <= channels <= 4
  {
    match rows
    case Err(error) => result == Err(error)
    case Ok(rows) =>
      AreRows(rows, width, channels) && result == Ok(DecodedImage(width, height, ImageOf(rows, width, channels)))
  }

  method NewLine(n: nat) returns (line: array<Byte>)
    ensures fresh(line) && line[..] == Blank(n)
  {
    line := new Byte[n](_ => 0);
  }

  /** The row loop of the decoder over its two line buffers. */
  method DecodeRows(raw: seq<Byte>, width: nat, height: nat, channels: nat)
    returns (result: Result<DecodedImage, DecodeError>)
    requires 3 <= channels <= 4
    ensures Draws(RowsOf(raw, 0, height, channels, Blank(width * channels)), width, height, channels, result)
  {
    hide RowsOf, RowPixels, Unfiltered, IsFilter, LineAt, Resumes, Blank, Size, ImageOf, AreRows;
    var stride := width * channels;
    var out := NewLine(Size(height, width));
    var previous := NewLine(stride);
    var current := NewLine(stride);
    ghost var whole := RowsOf(raw, 0, height, channels, Blank(stride));
    ghost var done: seq<seq<Byte>> := [];
    ResumesFromNothing(raw, height, channels, Blank(stride));
    NothingDrawn(width, channels);
    var cursor: nat, y: nat := 0, 0;
    while y < height
      invariant 0 <= y <= height && |done| == y && AreRows(done, width, channels)
      invariant current[..] == previous[..]
      invariant Resumes(raw, cursor, height - y, channels, previous[..], done, whole)
      invariant Size(y, width) <= out.Length && out[..Size(y, width)] == ImageOf(done, width, channels)
    {
      ResumesNoFurther(raw, cursor, height - y, channels, previous[..], done, whole);
      if cursor >= |raw| {
        return Err(OutOfRange);
      }
      var filter := raw[cursor];
      CopyLine(raw, cursor + 1, current);
      var known := UnfilterRow(filter, current, previous, channels);
      if !known {
        return Err(UnknownFilter(filter));
      }
      ghost var row: seq<Byte> := current[..];
      ResumesOneRowOn(raw, cursor, height - y, channels, previous[..], done, whole, row);
      cursor := cursor + 1 + stride;
      SizeIsMonotone(y + 1, height, width);
      StoreRow(out, current, width, channels, y);
      ImageGrows(done, row, width, channels);
      done := done + [row];
      CopyAll(current, previous);
      y := y + 1;
    }
    ResumesNoFurther(raw, cursor, 0, channels, previous[..], done, whole);
    assert out[..Size(height, width)] == out[..];
    return Ok(DecodedImage(width, height, out[..]));
  }

  /** Whatever a decoder answers for an encoded image, each byte of each pixel is the one that went in. */
  lemma EveryPixelIsRecovered(rows: seq<seq<Byte>>, filters: seq<Byte>, width: nat, channels: nat,
                              after: seq<Byte>, result: Result<DecodedImage, DecodeError>, x: nat, y: nat, k: nat)
    requires 3 <= channels <= 4 && AllOfLength(rows, width * channels)
    requires |rows| == |filters| && AreFilters(filters)
    requires var raw := EncodeRows(rows, filters, channels, Blank(width * channels)) + after;
             Draws(RowsOf(raw, 0, |rows|, channels, Blank(width * channels)), width, |rows|, channels, result)
    requires x < width && y < |rows| && k < 4
    ensures (x + 1) * channels <= |rows[y]|
    ensures result.Ok? && PixelIndex(x, y, width) + k < |result.value.data|
    ensures result.value.data[PixelIndex(x, y, width) + k] == if k < channels then rows[y][x * channels + k] else 255
  {
    hide EncodeRows, RowsOf, ImageOf, PixelIndex, AreFilters, Blank;
    var coded := EncodeRows(rows, filters, channels, Blank(width * channels));
    var raw := coded + after;
    assert raw[0..] == raw && coded <= raw;
    RowsRoundTrip(raw, 0, rows, filters, channels, Blank(width * channels));
    assert AreRows(rows, width, channels);
    ImageAt(rows, width, channels, x, y, k);
  }

  // ---------------------------------------------------------------- alpha

  function AlphaAt(image: DecodedImage, x: nat, y: nat): Byte
    requires x < image.width && y < image.height && |image.data| == Size(image.height, image.width)
  {
    InImage(x, y, image.width, image.height);
    image.data[PixelIndex(x, y, image.width) + 3]
  }

  /** A decoded image's alpha is its fourth channel, and 255 throughout when there are three. */
  lemma DecodedAlpha(rows: seq<seq<Byte>>, width: nat, channels: nat, x: nat, y: nat)
    requires 3 <= channels <= 4 && AreRows(rows, width, channels) && x < width && y < |rows|
    ensures (x + 1) * channels <= |rows[y]|
    ensures AlphaAt(DecodedImage(width, |rows|, ImageOf(rows, width, channels)), x, y)
         == if channels == 4 then rows[y][x * channels + 3] else 255
  {
    ImageAt(rows, width, channels, x, y, 3);
  }

  lemma Below(a: nat, b: nat, width: nat)
    requires a * width < b * width
    ensures a < b
  {
    if b <= a {
      SizeIsMonotone(b, a, width);
    }
  }

  /** Every fourth byte belongs to exactly one pixel. */
  lemma PixelOfByte(i: nat, width: nat, height: nat) returns (x: nat, y: nat)
    requires i < Size(height, width) && i % 4 == 3
    ensures x < width && y < height && i == PixelIndex(x, y, width) + 3
  {
    var pixel := i / 4;
    assert pixel < height * width;
    assert width > 0;
    x, y := pixel % width, pixel / width;
    assert pixel == y * width + x;
    assert y * width <= pixel < height * width;
    Below(y, height, width);
  }

  ghost predicate IsLowestAlpha(image: DecodedImage, lowest: Byte)
    requires |image.data| == Size(image.height, image.width)
  {
    && (forall x: nat, y: nat | x < image.width && y < image.height :: lowest <= AlphaAt(image, x, y))
    && (lowest == 255
        || exists x: nat, y: nat :: x < image.width && y < image.height && lowest == AlphaAt(image, x, y))
  }

  /** The least alpha of any pixel, or 255 where there is none; in any buffer, the least fourth byte. */
  method MinimumAlpha(image: DecodedImage) returns (lowest: Byte)
    ensures forall j :: 0 <= j < |image.data| && j % 4 == 3 ==> lowest <= image.data[j]
    ensures |image.data| == Size(image.height, image.width) ==> IsLowestAlpha(image, lowest)
  {
    hide Size;
    lowest := 255;
    ghost var at: int := -1;
    var i := 3;
    while i < |image.data|
      invariant i % 4 == 3 && i >= 3
      invariant forall j :: 0 <= j < i && j < |image.data| && j % 4 == 3 ==> lowest <= image.data[j]
      invariant if at < 0 then lowest == 255 else at < |image.data| && at % 4 == 3 && image.data[at] == lowest
    {
      if image.data[i] < lowest {
        lowest, at := image.data[i], i;
      }
      i := i + 4;
    }
    if |image.data| == Size(image.height, image.width) {
      LowestOfBytes(image, lowest, at);
    }
  }

  /** A bound on every fourth byte, met by one of them, is the lowest alpha. */
  lemma LowestOfBytes(image: DecodedImage, lowest: Byte, at: int)
    requires |image.data| == Size(image.height, image.width)
    requires forall j :: 0 <= j < |image.data| && j % 4 == 3 ==> lowest <= image.data[j]
    requires if at < 0 then lowest == 255 else at < |image.data| && at % 4 == 3 && image.data[at] == lowest
    ensures IsLowestAlpha(image, lowest)
  {
    hide Size;
    forall x: nat, y: nat | x < image.width && y < image.height
      ensures lowest <= AlphaAt(image, x, y)
    {
      InImage(x, y, image.width, image.height);
      assert (PixelIndex(x, y, image.width) + 3) % 4 == 3;
    }
    if at >= 0 {
      var x, y := PixelOfByte(at, image.width, image.height);
      assert lowest == AlphaAt(image, x, y);
    }
  }
}
