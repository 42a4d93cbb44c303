/** The scanline half of the PNG decoder, from inflated bytes to RGBA pixels. */
module PngRows {

  type Byte = x: int | 0 <= x < 256

  /** `x & 0xff`. */
  function LowByte(x: int): Byte {
    x % 256
  }

  function Abs(x: int): nat {
    if x < 0 then -x else x
  }

  /** Whichever of left, up and upper left is nearest `a + b - c`; ties go to the earlier. */
  function Paeth(a: int, b: int, c: int): (r: int)
    ensures r == a || r == b || r == c
    ensures var p := a + b - c;
            && Abs(p - r) <= Abs(p - a) && Abs(p - r) <= Abs(p - b) && Abs(p - r) <= Abs(p - c)
            && (Abs(p - r) == Abs(p - a) ==> r == a)
            && (r != a && Abs(p - r) == Abs(p - b) ==> r == b)
  {
    var p := a + b - c;
    var pa, pb, pc := Abs(p - a), Abs(p - b), Abs(p - c);
    if pa <= pb && pa <= pc then a else if pb <= pc then b else c
  }

  predicate IsFilter(filter: int) {
    0 <= filter <= 4
  }

  /** What a filter type predicts from the neighbours (section 6 of RFC 2083). */
  function Predict(filter: int, left: int, up: int, upLeft: int): int {
    match filter
    case 1 => left
    case 2 => up
    case 3 => (left + up) / 2
    case 4 => Paeth(left, up, upLeft)
    case _ => 0
  }

  function BackBy(row: seq<Byte>, i: nat, channels: nat): Byte
    requires i - channels < |row| && i <= |row|
    requires channels > 0
  {
    if i >= channels then row[i - channels] else 0
  }

  function PredictAt(filter: int, raw: seq<Byte>, previous: seq<Byte>, channels: nat, i: nat): int
    requires channels > 0 && i <= |raw| && i < |previous|
  {
    Predict(filter, BackBy(raw, i, channels), previous[i], BackBy(previous, i, channels))
  }

  /** The encoder: each byte less what its unfiltered neighbours predict, modulo 256. */
  function Filtered(filter: int, raw: seq<Byte>, previous: seq<Byte>, channels: nat): (line: seq<Byte>)
    requires channels > 0 && |raw| == |previous|
    ensures |line| == |raw|
    ensures forall i :: 0 <= i < |raw| ==> line[i] == (raw[i] - PredictAt(filter, raw, previous, channels, i)) % 256
  {
    seq(|raw|, i requires 0 <= i < |raw| => (raw[i] - PredictAt(filter, raw, previous, channels, i)) % 256)
  }

  /** The first `n` bytes a line stands for. */
  function Unfiltered(filter: int, line: seq<Byte>, previous: seq<Byte>, channels: nat, n: nat): (raw: seq<Byte>)
    requires channels > 0 && |line| == |previous| && n <= |line|
    ensures |raw| == n
  {
    if n == 0 then []
    else
      var before := Unfiltered(filter, line, previous, channels, n - 1);
      before + [(line[n - 1] + PredictAt(filter, before, previous, channels, n - 1)) % 256]
  }

  /** Prediction looks back only: the bytes before `i` are all it needs. */
  lemma PredictFromPrefix(filter: int, raw: seq<Byte>, previous: seq<Byte>, channels: nat, i: nat)
    requires channels > 0 && |raw| == |previous| && i < |raw|
    ensures PredictAt(filter, raw[..i], previous, channels, i) == PredictAt(filter, raw, previous, channels, i)
  {
  }

  lemma RemainderOf(x: Byte, multiple: int)
    ensures (x + 256 * multiple) % 256 == x
  {
  }

  lemma SubtractThenAdd(x: Byte, p: int)
    ensures ((x - p) % 256 + p) % 256 == x
    ensures ((x + p) % 256 - p) % 256 == x
  {
    RemainderOf(x, -((x - p) / 256));
    RemainderOf(x, -((x + p) / 256));
  }

  /** Unfiltering undoes filtering, for every line, filter type and pixel width. */
  lemma {:induction false} UnfilterUndoesFilter(filter: int, raw: seq<Byte>, previous: seq<Byte>, channels: nat, n: nat)
    requires channels > 0 && |raw| == |previous| && n <= |raw|
    ensures Unfiltered(filter, Filtered(filter, raw, previous, channels), previous, channels, n) == raw[..n]
  {
    if n > 0 {
      UnfilterUndoesFilter(filter, raw, previous, channels, n - 1);
      PredictFromPrefix(filter, raw, previous, channels, n - 1);
      SubtractThenAdd(raw[n - 1], PredictAt(filter, raw, previous, channels, n - 1));
    }
  }

  /** And filtering undoes unfiltering: no two lines stand for one row. */
  lemma FilterUndoesUnfilter(filter: int, line: seq<Byte>, previous: seq<Byte>, channels: nat)
    requires channels > 0 && |line| == |previous|
    ensures Filtered(filter, Unfiltered(filter, line, previous, channels, |line|), previous, channels) == line
  {
    var raw := Unfiltered(filter, line, previous, channels, |line|);
    forall i | 0 <= i < |line|
      ensures Filtered(filter, raw, previous, channels)[i] == line[i]
    {
      UnfilteredPrefix(filter, line, previous, channels, i, |line|);
      UnfilteredPrefix(filter, line, previous, channels, i + 1, |line|);
      PredictFromPrefix(filter, raw, previous, channels, i);
      SubtractThenAdd(line[i], PredictAt(filter, raw, previous, channels, i));
    }
  }

  lemma {:induction false} UnfilteredPrefix(
    filter: int, line: seq<Byte>, previous: seq<Byte>, channels: nat, m: nat, n: nat)
    requires channels > 0 && |line| == |previous| && m <= n <= |line|
    ensures Unfiltered(filter, line, previous, channels, n)[..m] == Unfiltered(filter, line, previous, channels, m)
  {
    if m < n {
      UnfilteredPrefix(filter, line, previous, channels, m, n - 1);
    }
  }

  // ---------------------------------------------------------------- in place

  /** How far an in-place pass has got: a prefix unfiltered, the rest as it came. */
  ghost predicate Halfway(filter: int, row: array<Byte>, line: seq<Byte>, previous: seq<Byte>, channels: nat, i: nat)
    requires channels > 0 && |line| == |previous| == row.Length && i <= |line|
    reads row
  {
    row[..i] == Unfiltered(filter, line, previous, channels, i) && row[i..] == line[i..]
  }

  /** One byte more, whichever way the pass computed it. */
  method StoreNext(filter: int, row: array<Byte>, ghost line: seq<Byte>, ghost previous: seq<Byte>, ghost channels: nat,
                   i: nat, value: Byte)
    requires channels > 0 && |line| == |previous| == row.Length && i < row.Length
    requires Halfway(filter, row, line, previous, channels, i)
    requires value == (line[i] + PredictAt(filter, row[..i], previous, channels, i)) % 256
    modifies row
    ensures Halfway(filter, row, line, previous, channels, i + 1)
  {
    ghost var before, rest := row[..i], row[i + 1..];
    row[i] := value;
    assert row[..i + 1] == before + [value];
    assert row[i + 1..] == rest && rest == line[i + 1..];
  }

  lemma SubLeavesFirstPixel(line: seq<Byte>, previous: seq<Byte>, channels: nat, n: nat)
    requires channels > 0 && |line| == |previous| && n <= channels && n <= |line|
    ensures Unfiltered(1, line, previous, channels, n) == line[..n]
  {
    if n > 0 {
      SubLeavesFirstPixel(line, previous, channels, n - 1);
    }
  }

  lemma {:induction false} NoneLeavesAll(line: seq<Byte>, previous: seq<Byte>, channels: nat, n: nat)
    requires channels > 0 && |line| == |previous| && n <= |line|
    ensures Unfiltered(0, line, previous, channels, n) == line[..n]
  {
    if n > 0 {
      NoneLeavesAll(line, previous, channels, n - 1);
    }
  }

  /** Reconstructs a row over its own bytes; an unknown filter type is refused with the row untouched. */
  method UnfilterRow(filter: int, row: array<Byte>, previous: array<Byte>, channels: nat) returns (known: bool)
    requires channels > 0 && row.Length == previous.Length && row != previous
    modifies row
    ensures known <==> IsFilter(filter)
    ensures known ==> row[..] == Unfiltered(filter, old(row[..]), previous[..], channels, row.Length)
    ensures !known ==> row[..] == old(row[..])
  {
    ghost var line, above := row[..], previous[..];
    known := IsFilter(filter);
    match filter {
      case 0 =>
        NoneLeavesAll(line, above, channels, |line|);
        assert line[..|line|] == line;
      case 1 =>
        UnfilterSub(row, previous, channels);
      case 2 =>
        var i := 0;
        while i < row.Length
          invariant 0 <= i <= row.Length && Halfway(2, row, line, above, channels, i)
        {
          StoreNext(2, row, line, above, channels, i, LowByte(row[i] as int + previous[i]));
          i := i + 1;
        }
        assert row[..i] == row[..];
      case 3 =>
        UnfilterAverage(row, previous, channels);
      case 4 =>
        UnfilterPaeth(row, previous, channels);
      case _ =>
    }
  }

  method UnfilterSub(row: array<Byte>, previous: array<Byte>, channels: nat)
    requires channels > 0 && row.Length == previous.Length && row != previous
    modifies row
    ensures row[..] == Unfiltered(1, old(row[..]), previous[..], channels, row.Length)
  {
    ghost var line, above := row[..], previous[..];
    var i := channels;
    if row.Length <= channels {
      SubLeavesFirstPixel(line, above, channels, row.Length);
      assert line[..row.Length] == line;
      return;
    }
    SubLeavesFirstPixel(line, above, channels, channels);
    while i < row.Length
      invariant channels <= i <= row.Length && Halfway(1, row, line, above, channels, i)
    {
      assert row[..i][i - channels] == row[i - channels];
      assert row[i..][0] == line[i..][0];
      StoreNext(1, row, line, above, channels, i, LowByte(row[i] as int + row[i - channels]));
      i := i + 1;
    }
    assert row[..i] == row[..];
  }

  method UnfilterAverage(row: array<Byte>, previous: array<Byte>, channels: nat)
    requires channels > 0 && row.Length == previous.Length && row != previous
    modifies row
    ensures row[..] == Unfiltered(3, old(row[..]), previous[..], channels, row.Length)
  {
    ghost var line, above := row[..], previous[..];
    var i := 0;
    while i < row.Length
      invariant 0 <= i <= row.Length && Halfway(3, row, line, above, channels, i)
    {
      var left := if i >= channels then row[i - channels] else 0;
      assert i >= channels ==> row[..i][i - channels] == left;
      assert row[i..][0] == line[i..][0];
      StoreNext(3, row, line, above, channels, i, LowByte(row[i] + (left as int + previous[i]) / 2));
      i := i + 1;
    }
    assert row[..i] == row[..];
  }

  method UnfilterPaeth(row: array<Byte>, previous: array<Byte>, channels: nat)
    requires channels > 0 && row.Length == previous.Length && row != previous
    modifies row
    ensures row[..] == Unfiltered(4, old(row[..]), previous[..], channels, row.Length)
  {
    ghost var line, above := row[..], previous[..];
    var i := 0;
    while i < row.Length
      invariant 0 <= i <= row.Length && Halfway(4, row, line, above, channels, i)
    {
      var left := if i >= channels then row[i - channels] else 0;
      var upLeft := if i >= channels then previous[i - channels] else 0;
      assert i >= channels ==> row[..i][i - channels] == left;
      assert row[i..][0] == line[i..][0];
      StoreNext(4, row, line, above, channels, i, LowByte(row[i] + Paeth(left, previous[i], upLeft)));
      i := i + 1;
    }
    assert row[..i] == row[..];
  }
}
