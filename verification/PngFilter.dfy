/**
 Scanline reconstruction of PNG images.  The filter side is section 6 of RFC 2083; the decoder works in
 place on each scanline.
 */
module PngFilter {
  import opened Wrappers

  type Byte = x: int | 0 <= x < 256

  // ---------------------------------------------------------------- predictors

  /** Addition of bytes, wrapping around at 256. */
  function Plus(x: int, y: int): (r: Byte)
    ensures 0 <= x < 256 && 0 <= y < 256 ==> r == x + y || r == x + y - 256
  {
    (x + y) % 256
  }

  function Minus(x: int, y: int): Byte {
    (x - y) % 256
  }

  /** The mean of two bytes, rounded down. */
  function Average(x: int, y: int): (m: int)
    ensures 2 * m <= x + y < 2 * m + 2
  {
    (x + y) / 2
  }

  function Abs(x: int): nat {
    if x < 0 then -x else x
  }

  function Paeth(left: int, up: int, upperLeft: int): int {
    var distance := left + up - upperLeft;
    var leftDistance, upDistance, upperLeftDistance := Abs(distance - left), Abs(distance - up), Abs(distance - upperLeft);
    if leftDistance <= upDistance && leftDistance <= upperLeftDistance then left
    else if upDistance <= upperLeftDistance then up
    else upperLeft
  }

  /** `x` is a neighbour nearest to `p`, and no neighbour listed before it is as near. */
  predicate FirstNearest(p: int, neighbours: seq<int>, x: int) {
    exists i :: 0 <= i < |neighbours| && x == neighbours[i]
      && (forall j :: 0 <= j < |neighbours| ==> Abs(p - neighbours[i]) <= Abs(p - neighbours[j]))
      && (forall j :: 0 <= j < i ==> Abs(p - neighbours[i]) < Abs(p - neighbours[j]))
  }

  lemma {:induction false} PaethCases(left: int, up: int, upperLeft: int)
    ensures var p := left + up - upperLeft;
            var a, b, c := Abs(p - left), Abs(p - up), Abs(p - upperLeft);
            || (Paeth(left, up, upperLeft) == left && a <= b && a <= c)
            || (Paeth(left, up, upperLeft) == up && b < a && b <= c)
            || (Paeth(left, up, upperLeft) == upperLeft && c < a && c < b)
  {
    hide Abs;
  }

  /** The predictor picks the nearest of left, up and upper left, with ties broken in that order. */
  lemma {:induction false} PaethIsFirstNearest(left: int, up: int, upperLeft: int)
    ensures FirstNearest(left + up - upperLeft, [left, up, upperLeft], Paeth(left, up, upperLeft))
  {
    hide Abs, Paeth;
    var p, ns := left + up - upperLeft, [left, up, upperLeft];
    PaethCases(left, up, upperLeft);
    var i := if Abs(p - left) <= Abs(p - up) && Abs(p - left) <= Abs(p - upperLeft) then 0
             else if Abs(p - up) <= Abs(p - upperLeft) then 1 else 2;
    assert Paeth(left, up, upperLeft) == ns[i];
  }

  /** The prediction of each of the five filter types from the bytes to the left, above and above left. */
  function Predict(filter: nat, left: Byte, up: Byte, upperLeft: Byte): int {
    match filter
    case 1 => left
    case 2 => up
    case 3 => Average(left, up)
    case 4 => Paeth(left, up, upperLeft)
    case _ => 0
  }

  /** The byte one pixel to the left, or zero in the first pixel. */
  function Left(line: seq<Byte>, i: nat, channels: nat): Byte
    requires i < |line| && channels > 0
  {
    if i >= channels then line[i - channels] else 0
  }

  /** Byte `c` of pixel `p` has byte `c` of the pixel before it to its left, and zero in the first pixel. */
  lemma {:induction false} LeftIsSameChannel(line: seq<Byte>, p: nat, c: nat, channels: nat)
    requires c < channels && p * channels + c < |line|
    ensures p == 0 ==> Left(line, p * channels + c, channels) == 0
    ensures p > 0 ==> (p - 1) * channels + c < |line| && Left(line, p * channels + c, channels) == line[(p - 1) * channels + c]
  {
    assert (p - 1) * channels == p * channels - channels;
    assert p > 0 ==> (p - 1) * channels >= 0;
  }

  function PredictAt(filter: nat, line: seq<Byte>, previous: seq<Byte>, channels: nat, i: nat): int
    requires i < |line| == |previous| && channels > 0
  {
    Predict(filter, Left(line, i, channels), previous[i], Left(previous, i, channels))
  }

  /** The encoder's side: differences from the prediction, modulo 256. */
  function FilterLine(filter: nat, line: seq<Byte>, previous: seq<Byte>, channels: nat): (r: seq<Byte>)
    requires |line| == |previous| && channels > 0
    ensures |r| == |line|
  {
    seq(|line|, i requires 0 <= i < |line| => Minus(line[i], PredictAt(filter, line, previous, channels, i)))
  }

  /** `line` is what the filtered bytes stand for, given the scanline above. */
  predicate Reconstructs(filter: nat, filtered: seq<Byte>, line: seq<Byte>, previous: seq<Byte>, channels: nat)
    requires |filtered| == |previous| && channels > 0
  {
    && |line| == |filtered|
    && forall i :: 0 <= i < |line| ==> line[i] == Plus(filtered[i], PredictAt(filter, line, previous, channels, i))
  }

  lemma {:induction false} Wraps(x: Byte, k: int)
    ensures (x + 256 * k) % 256 == x
  {
  }

  lemma {:induction false} ModInverse(x: Byte, p: int)
    ensures Plus(Minus(x, p), p) == x && Minus(Plus(x, p), p) == x
  {
    var down, up := (x - p) / 256, (x + p) / 256;
    assert Minus(x, p) + p == x + 256 * (-down);
    assert Plus(x, p) - p == x + 256 * (-up);
    Wraps(x, -down);
    Wraps(x, -up);
  }

  /** Filtering is undone by reconstruction, and every reconstruction filters back to the same bytes. */
  lemma {:induction false} FilterInverse(filter: nat, line: seq<Byte>, previous: seq<Byte>, channels: nat, filtered: seq<Byte>)
    requires |line| == |previous| == |filtered| && channels > 0
    ensures Reconstructs(filter, filtered, line, previous, channels) <==> filtered == FilterLine(filter, line, previous, channels)
  {
    hide Predict;
    forall i | 0 <= i < |line|
      ensures line[i] == Plus(filtered[i], PredictAt(filter, line, previous, channels, i))
              <==> filtered[i] == FilterLine(filter, line, previous, channels)[i]
    {
      ModInverse(line[i], PredictAt(filter, line, previous, channels, i));
      ModInverse(filtered[i], PredictAt(filter, line, previous, channels, i));
    }
  }

  lemma {:induction false} SameByte(filter: nat, filtered: seq<Byte>, a: seq<Byte>, b: seq<Byte>, previous: seq<Byte>, channels: nat, i: nat)
    requires |filtered| == |previous| && channels > 0 && i < |filtered|
    requires Reconstructs(filter, filtered, a, previous, channels) && Reconstructs(filter, filtered, b, previous, channels)
    requires i >= channels ==> a[i - channels] == b[i - channels]
    ensures a[i] == b[i]
  {
    hide Plus, Predict;
    assert Left(a, i, channels) == Left(b, i, channels);
  }

  /** A filtered scanline stands for only one line. */
  lemma {:induction false} ReconstructionUnique(filter: nat, filtered: seq<Byte>, a: seq<Byte>, b: seq<Byte>,
                                                previous: seq<Byte>, channels: nat, n: nat)
    requires |filtered| == |previous| && channels > 0 && n <= |filtered|
    requires Reconstructs(filter, filtered, a, previous, channels) && Reconstructs(filter, filtered, b, previous, channels)
    ensures |a| == |b| == |filtered| && a[..n] == b[..n]
  {
    SameLength(filter, filtered, a, previous, channels);
    SameLength(filter, filtered, b, previous, channels);
    hide Reconstructs;
    if n > 0 {
      var i := n - 1;
      ReconstructionUnique(filter, filtered, a, b, previous, channels, i);
      assert forall k :: 0 <= k < i ==> a[k] == a[..i][k] == b[..i][k] == b[k];
      SameByte(filter, filtered, a, b, previous, channels, i);
      assert a[..n] == a[..i] + [a[i]] && b[..n] == b[..i] + [b[i]];
    }
  }

  // ---------------------------------------------------------------- the decoder

  function Prior(line: array<Byte>, i: nat, channels: nat): Byte
    requires i < line.Length && channels > 0
    reads line
  {
    if i >= channels then line[i - channels] else 0
  }

  method UnfilterSub(line: array<Byte>, previous: array<Byte>, channels: nat)
    requires line != previous && line.Length == previous.Length && channels > 0
    modifies line
    ensures Reconstructs(1, old(line[..]), line[..], previous[..], channels)
  {
    hide Plus;
    for index := 0 to line.Length
      invariant forall k :: 0 <= k < index ==> line[k] == Plus(old(line[k]), Prior(line, k, channels))
      invariant forall k :: index <= k < line.Length ==> line[k] == old(line[k])
    {
      var prior := if index >= channels then line[index - channels] else 0;
      line[index] := Plus(line[index], prior);
    }
  }

  method UnfilterUp(line: array<Byte>, previous: array<Byte>, channels: nat)
    requires line != previous && line.Length == previous.Length && channels > 0
    modifies line
    ensures Reconstructs(2, old(line[..]), line[..], previous[..], channels)
  {
    hide Plus;
    for index := 0 to line.Length
      invariant forall k :: 0 <= k < index ==> line[k] == Plus(old(line[k]), previous[k])
      invariant forall k :: index <= k < line.Length ==> line[k] == old(line[k])
    {
      line[index] := Plus(line[index], previous[index]);
    }
  }

  method UnfilterAverage(line: array<Byte>, previous: array<Byte>, channels: nat)
    requires line != previous && line.Length == previous.Length && channels > 0
    modifies line
    ensures Reconstructs(3, old(line[..]), line[..], previous[..], channels)
  {
    hide Plus, Average;
    for index := 0 to line.Length
      invariant forall k :: 0 <= k < index ==> line[k] == Plus(old(line[k]), Average(Prior(line, k, channels), previous[k]))
      invariant forall k :: index <= k < line.Length ==> line[k] == old(line[k])
    {
      var prior := if index >= channels then line[index - channels] else 0;
      line[index] := Plus(line[index], Average(prior, previous[index]));
    }
  }

  method UnfilterPaeth(line: array<Byte>, previous: array<Byte>, channels: nat)
    requires line != previous && line.Length == previous.Length && channels > 0
    modifies line
    ensures Reconstructs(4, old(line[..]), line[..], previous[..], channels)
  {
    hide Plus, Paeth;
    for index := 0 to line.Length
      invariant forall k :: 0 <= k < index ==>
        line[k] == Plus(old(line[k]), Paeth(Prior(line, k, channels), previous[k], Prior(previous, k, channels)))
      invariant forall k :: index <= k < line.Length ==> line[k] == old(line[k])
    {
      var prior := if index >= channels then line[index - channels] else 0;
      var up := previous[index];
      var upperLeft := if index >= channels then previous[index - channels] else 0;
      line[index] := Plus(line[index], Paeth(prior, up, upperLeft));
    }
  }

  /** Reconstructs one scanline in place, unless its filter type is unknown. */
  method UnfilterLine(filter: Byte, line: array<Byte>, previous: array<Byte>, channels: nat) returns (ok: bool)
    requires line != previous && line.Length == previous.Length && channels > 0
    modifies line
    ensures ok <==> filter <= 4
    ensures ok ==> Reconstructs(filter, old(line[..]), line[..], previous[..], channels)
  {
    ok := true;
    if filter == 1 {
      UnfilterSub(line, previous, channels);
    } else if filter == 2 {
      UnfilterUp(line, previous, channels);
    } else if filter == 3 {
      UnfilterAverage(line, previous, channels);
    } else if filter == 4 {
      UnfilterPaeth(line, previous, channels);
    } else if filter != 0 {
      ok := false;
    }
  }

  datatype DecodeError = MissingHeader | BadDimensions | BadEncoding | BadSize | BadFilter(filter: Byte)

  datatype Header = Header(width: nat, height: nat, bitDepth: nat, colorType: nat, compression: nat, filtering: nat, interlace: nat)

  const PNG_CHANNELS: map<nat, nat> := map[0 := 1, 2 := 3, 3 := 1, 4 := 2, 6 := 4]

  function HeaderFault(header: Option<Header>): Option<DecodeError> {
    match header
    case None => Some(MissingHeader)
    case Some(h) =>
      if h.width <= 0 || h.height <= 0 || h.bitDepth != 8 then Some(BadDimensions)
      else if h.colorType !in PNG_CHANNELS || h.compression != 0 || h.filtering != 0 || h.interlace != 0 then Some(BadEncoding)
      else None
  }

  /** Section 4.1.1 of RFC 2083: a color type is a sum of 1 for a palette, 2 for color and 4 for an alpha channel, and
      a palette goes with color and without alpha. */
  predicate ValidColorType(t: nat) {
    var palette, color, alpha := t % 2, t / 2 % 2, t / 4;
    t < 8 && (palette == 1 ==> color == 1 && alpha == 0)
  }

  /** The header is accepted exactly for an image with pixels, eight bits per sample, a color type of the standard and
      none of the other options; its channels are one, or three for direct color, and one more for alpha. */
  lemma {:induction false} HeaderMeans(h: Header)
    ensures HeaderFault(Some(h)).None? <==>
              h.width > 0 && h.height > 0 && h.bitDepth == 8 && ValidColorType(h.colorType)
              && h.compression == 0 && h.filtering == 0 && h.interlace == 0
    ensures HeaderFault(Some(h)) == Some(BadDimensions) <==> h.width == 0 || h.height == 0 || h.bitDepth != 8
    ensures HeaderFault(Some(h)) in {None, Some(BadDimensions), Some(BadEncoding)} && HeaderFault(None) == Some(MissingHeader)
    ensures h.colorType in PNG_CHANNELS ==>
              var direct, alpha := h.colorType % 4 == 2, h.colorType / 4 == 1;
              PNG_CHANNELS[h.colorType] == (if direct then 3 else 1) + (if alpha then 1 else 0)
  {
    var t := h.colorType;
    assert t < 8 ==> t == 0 || t == 1 || t == 2 || t == 3 || t == 4 || t == 5 || t == 6 || t == 7;
  }

  function Zeros(n: nat): (r: seq<Byte>)
    ensures |r| == n && forall i :: 0 <= i < n ==> r[i] == 0
  {
    seq(n, _ => 0)
  }

  /** The scanlines that the raw bytes stand for: each a filter type and the filtered bytes. */
  predicate Decodes(raw: seq<Byte>, rows: seq<seq<Byte>>, previous: seq<Byte>, channels: nat)
    requires channels > 0
  {
    if rows == [] then raw == []
    else
      && |raw| > |previous| && raw[0] <= 4
      && Reconstructs(raw[0], raw[1..1 + |previous|], rows[0], previous, channels)
      && Decodes(raw[1 + |previous|..], rows[1..], rows[0], channels)
  }

  /** What the encoder writes for these scanlines with a chosen filter type for each. */
  function Encode(rows: seq<seq<Byte>>, filters: seq<Byte>, previous: seq<Byte>, channels: nat): seq<Byte>
    requires |rows| == |filters| && channels > 0 && forall i :: 0 <= i < |rows| ==> |rows[i]| == |previous|
  {
    if rows == [] then []
    else [filters[0]] + FilterLine(filters[0], rows[0], previous, channels) + Encode(rows[1..], filters[1..], rows[0], channels)
  }

  function Flatten(rows: seq<seq<Byte>>): seq<Byte> {
    if rows == [] then [] else rows[0] + Flatten(rows[1..])
  }

  function Last(rows: seq<seq<Byte>>, previous: seq<Byte>): seq<Byte> {
    if rows == [] then previous else rows[|rows| - 1]
  }

  lemma {:induction false} FlattenSnoc(rows: seq<seq<Byte>>, row: seq<Byte>)
    ensures Flatten(rows + [row]) == Flatten(rows) + row
  {
    if rows == [] {
      assert rows + [row] == [row];
    } else {
      FlattenSnoc(rows[1..], row);
      assert (rows + [row])[1..] == rows[1..] + [row];
    }
  }

  lemma {:induction false} DecodesCons(filter: Byte, filtered: seq<Byte>, rest: seq<Byte>, row: seq<Byte>, rows: seq<seq<Byte>>,
                                       previous: seq<Byte>, channels: nat)
    requires channels > 0 && |filtered| == |previous|
    ensures Decodes([filter] + filtered + rest, [row] + rows, previous, channels) <==>
              filter <= 4 && Reconstructs(filter, filtered, row, previous, channels) && Decodes(rest, rows, row, channels)
  {
    hide Reconstructs;
    var raw := [filter] + filtered + rest;
    assert raw[0] == filter && raw[1..1 + |previous|] == filtered && raw[1 + |previous|..] == rest;
    assert ([row] + rows)[1..] == rows;
  }

  lemma {:induction false} DecodesParts(raw: seq<Byte>, rows: seq<seq<Byte>>, previous: seq<Byte>, channels: nat)
    requires channels > 0 && Decodes(raw, rows, previous, channels)
    ensures rows == [] ==> raw == []
    ensures rows != [] ==> |raw| > |previous| && |rows[0]| == |previous|
                           && raw == [raw[0]] + raw[1..1 + |previous|] + raw[1 + |previous|..]
  {
    if rows != [] { SameLength(raw[0], raw[1..1 + |previous|], rows[0], previous, channels); }
  }

  lemma {:induction false} NothingDecodes(previous: seq<Byte>, channels: nat)
    requires channels > 0
    ensures Decodes([], [], previous, channels)
  {
  }

  /** One more scanline extends what has been decoded. */
  lemma {:induction false} DecodesSnoc(raw: seq<Byte>, rows: seq<seq<Byte>>, previous: seq<Byte>, channels: nat,
                                       filter: Byte, filtered: seq<Byte>, row: seq<Byte>)
    requires channels > 0 && filter <= 4 && |filtered| == |Last(rows, previous)| == |previous|
    requires Decodes(raw, rows, previous, channels) && Reconstructs(filter, filtered, row, Last(rows, previous), channels)
    ensures Decodes(raw + ([filter] + filtered), rows + [row], previous, channels)
  {
    hide Reconstructs, Decodes;
    DecodesParts(raw, rows, previous, channels);
    if rows == [] {
      NothingDecodes(row, channels);
      DecodesCons(filter, filtered, [], row, [], previous, channels);
      assert raw + ([filter] + filtered) == [filter] + filtered + [] && rows + [row] == [row] + [];
    } else {
      var n := 1 + |previous|;
      var more := raw[n..] + ([filter] + filtered);
      assert rows == [rows[0]] + rows[1..];
      DecodesCons(raw[0], raw[1..n], raw[n..], rows[0], rows[1..], previous, channels);
      DecodesSnoc(raw[n..], rows[1..], rows[0], channels, filter, filtered, row);
      DecodesCons(raw[0], raw[1..n], more, rows[0], rows[1..] + [row], previous, channels);
      assert raw + ([filter] + filtered) == [raw[0]] + raw[1..n] + more;
      assert rows + [row] == [rows[0]] + (rows[1..] + [row]);
    }
  }

  lemma {:induction false} SameLength(filter: nat, filtered: seq<Byte>, line: seq<Byte>, previous: seq<Byte>, channels: nat)
    requires |filtered| == |previous| && channels > 0 && Reconstructs(filter, filtered, line, previous, channels)
    ensures |line| == |previous|
  {
  }

  /** Scanline starts: whether the first `n` scanlines have a known filter type. */
  predicate KnownFilters(raw: seq<Byte>, n: nat, stride: nat) {
    n == 0 || (|raw| > stride && raw[0] <= 4 && KnownFilters(raw[1 + stride..], n - 1, stride))
  }

  /** `filter` is the first scanline's unknown filter type. */
  ghost predicate FirstUnknown(raw: seq<Byte>, height: nat, stride: nat, filter: Byte) {
    exists k: nat :: k < height && KnownFilters(raw, k, stride) && 0 <= k * (1 + stride) < |raw| && raw[k * (1 + stride)] == filter > 4
  }

  lemma {:induction false} KnownFiltersSnoc(raw: seq<Byte>, n: nat, stride: nat)
    requires |raw| >= (n + 1) * (1 + stride)
    ensures 0 <= n * (1 + stride) < |raw|
    ensures KnownFilters(raw, n + 1, stride) <==> KnownFilters(raw, n, stride) && raw[n * (1 + stride)] <= 4
  {
    Rows(n, stride);
    if n > 0 {
      Rows(n - 1, stride);
      KnownFiltersSnoc(raw[1 + stride..], n - 1, stride);
      assert raw[1 + stride..][(n - 1) * (1 + stride)] == raw[n * (1 + stride)];
    }
  }

  lemma {:induction false} Rows(n: nat, stride: nat)
    ensures (n + 1) * (1 + stride) == n * (1 + stride) + 1 + stride
    ensures n * (1 + stride) >= 0
  {
  }

  lemma {:induction false} KnownFiltersPrefix(raw: seq<Byte>, n: nat, m: nat, stride: nat)
    requires n <= m && KnownFilters(raw, m, stride)
    ensures KnownFilters(raw, n, stride)
  {
    if n > 0 { KnownFiltersPrefix(raw[1 + stride..], n - 1, m - 1, stride); }
  }

  /** Decodes the decompressed image data: fails on a bad header, a wrong size or an unknown filter type, and
      otherwise yields the scanlines the data stands for, one after the other. */
  method DecodePixels(header: Option<Header>, raw: seq<Byte>) returns (r: Result<seq<Byte>, DecodeError>, ghost rows: seq<seq<Byte>>)
    ensures HeaderFault(header).Some? ==> r == Err(HeaderFault(header).value)
    ensures HeaderFault(header).None? ==>
              var h := header.value;
              var channels := PNG_CHANNELS[h.colorType];
              var stride := h.width * channels;
              && (r == Err(BadSize) <==> |raw| != h.height * (1 + stride))
              && (r.Ok? <==> |raw| == h.height * (1 + stride) && KnownFilters(raw, h.height, stride))
              && (r.Err? && r.error.BadFilter? ==> FirstUnknown(raw, h.height, stride, r.error.filter))
              && (r.Ok? ==> |rows| == h.height && Decodes(raw, rows, Zeros(stride), channels) && r.value == Flatten(rows))
  {
    hide Decodes, Reconstructs, KnownFilters, Flatten, FirstUnknown;
    rows := [];
    if header.None? { return Err(MissingHeader), rows; }
    var h := header.value;
    if h.width <= 0 || h.height <= 0 || h.bitDepth != 8 { return Err(BadDimensions), rows; }
    if h.colorType !in PNG_CHANNELS || h.compression != 0 || h.filtering != 0 || h.interlace != 0 { return Err(BadEncoding), rows; }
    var channels := PNG_CHANNELS[h.colorType];
    assert channels > 0;
    var stride := h.width * channels;
    if |raw| != h.height * (1 + stride) { return Err(BadSize), rows; }
    r, rows := DecodeRows(raw, h.height, stride, channels);
  }

  method DecodeRows(raw: seq<Byte>, height: nat, stride: nat, channels: nat) returns (r: Result<seq<Byte>, DecodeError>, ghost rows: seq<seq<Byte>>)
    requires channels > 0 && |raw| == height * (1 + stride)
    ensures r.Err? ==> r.error.BadFilter? && FirstUnknown(raw, height, stride, r.error.filter)
    ensures r.Ok? <==> KnownFilters(raw, height, stride)
    ensures r.Ok? ==> |rows| == height && Decodes(raw, rows, Zeros(stride), channels) && r.value == Flatten(rows)
  {
    hide Decodes, Reconstructs, KnownFilters, Flatten;
    rows := [];
    var pixels: seq<Byte> := [];
    var previous := new Byte[stride](_ => 0);
    var offset := 0;
    var row := 0;
    assert previous[..] == Zeros(stride);
    Empty(raw, stride, channels);
    while row < height
      invariant 0 <= row <= height && offset == row * (1 + stride) <= |raw|
      invariant |rows| == row && previous.Length == stride && previous[..] == Last(rows, Zeros(stride))
      invariant KnownFilters(raw, row, stride)
      invariant Decodes(raw[..offset], rows, Zeros(stride), channels) && pixels == Flatten(rows)
    {
      RowFits(row, height, stride);
      KnownFiltersSnoc(raw, row, stride);
      var filter := raw[offset];
      var line := new Byte[stride](i requires 0 <= i < stride && offset + 1 + stride <= |raw| => raw[offset + 1 + i]);
      ghost var filtered := line[..];
      assert filtered == raw[offset + 1..offset + 1 + stride];
      var ok := UnfilterLine(filter, line, previous, channels);
      if !ok {
        NotKnown(raw, row, height, stride);
        return Err(BadFilter(filter)), rows;
      }
      DecodesSnoc(raw[..offset], rows, Zeros(stride), channels, filter, filtered, line[..]);
      assert raw[..offset + 1 + stride] == raw[..offset] + ([filter] + filtered);
      FlattenSnoc(rows, line[..]);
      offset := offset + 1 + stride;
      pixels := pixels + line[..];
      rows := rows + [line[..]];
      previous := line;
      row := row + 1;
    }
    assert raw[..offset] == raw;
    r := Ok(pixels);
  }

  lemma {:induction false} Empty(raw: seq<Byte>, stride: nat, channels: nat)
    requires channels > 0
    ensures KnownFilters(raw, 0, stride) && Decodes(raw[..0], [], Zeros(stride), channels) && Flatten([]) == []
  {
  }

  lemma {:induction false} RowFits(row: nat, height: nat, stride: nat)
    requires row < height
    ensures row * (1 + stride) + 1 + stride == (row + 1) * (1 + stride) <= height * (1 + stride)
  {
    assert height * (1 + stride) - (row + 1) * (1 + stride) == (height - row - 1) * (1 + stride);
  }

  lemma {:induction false} NotKnown(raw: seq<Byte>, row: nat, height: nat, stride: nat)
    requires row < height && !KnownFilters(raw, row + 1, stride)
    ensures !KnownFilters(raw, height, stride)
  {
    if KnownFilters(raw, height, stride) { KnownFiltersPrefix(raw, row + 1, height, stride); }
  }

  // ---------------------------------------------------------------- round trip

  /** For every image and every choice of filter types, decoding what the encoder wrote gives the image back, and
      nothing else. */
  lemma {:induction false} DecodeInvertsEncode(rows: seq<seq<Byte>>, filters: seq<Byte>, previous: seq<Byte>, channels: nat, decoded: seq<seq<Byte>>)
    requires |rows| == |filters| == |decoded| && channels > 0
    requires forall i :: 0 <= i < |rows| ==> |rows[i]| == |previous| && filters[i] <= 4
    ensures Decodes(Encode(rows, filters, previous, channels), decoded, previous, channels) <==> decoded == rows
  {
    hide Reconstructs, FilterLine;
    if rows != [] {
      var raw, n := Encode(rows, filters, previous, channels), 1 + |previous|;
      var first := FilterLine(filters[0], rows[0], previous, channels);
      assert |first| == |previous| by { FilteredLength(filters[0], rows[0], previous, channels); }
      assert raw[0] == filters[0] && raw[1..n] == first && raw[n..] == Encode(rows[1..], filters[1..], rows[0], channels);
      OnlyReconstruction(filters[0], rows[0], previous, channels, decoded[0]);
      assert decoded == [decoded[0]] + decoded[1..] && rows == [rows[0]] + rows[1..];
      if decoded[0] == rows[0] {
        DecodeInvertsEncode(rows[1..], filters[1..], rows[0], channels, decoded[1..]);
      }
    }
  }

  /** The encoder's output has the size and the filter types that the decoder asks for. */
  lemma {:induction false} EncoderAccepted(rows: seq<seq<Byte>>, filters: seq<Byte>, previous: seq<Byte>, channels: nat)
    requires |rows| == |filters| && channels > 0
    requires forall i :: 0 <= i < |rows| ==> |rows[i]| == |previous| && filters[i] <= 4
    ensures |Encode(rows, filters, previous, channels)| == |rows| * (1 + |previous|)
    ensures KnownFilters(Encode(rows, filters, previous, channels), |rows|, |previous|)
  {
    hide FilterLine;
    if rows != [] {
      var raw, rest := Encode(rows, filters, previous, channels), Encode(rows[1..], filters[1..], rows[0], channels);
      FilteredLength(filters[0], rows[0], previous, channels);
      EncoderAccepted(rows[1..], filters[1..], rows[0], channels);
      Rows(|rows| - 1, |previous|);
      assert raw[0] == filters[0] && raw[1 + |previous|..] == rest;
    }
  }

  /** Byte `c` of scanline `y` lies at its place in the pixel data. */
  lemma {:induction false} FlattenAt(rows: seq<seq<Byte>>, stride: nat, y: nat, c: nat)
    requires y < |rows| && c < stride && forall i :: 0 <= i < |rows| ==> |rows[i]| == stride
    ensures |Flatten(rows)| == |rows| * stride
    ensures 0 <= y * stride + c < |rows| * stride && Flatten(rows)[y * stride + c] == rows[y][c]
  {
    var n := |rows|;
    assert n * stride == stride + (n - 1) * stride && y * stride == (if y > 0 then stride + (y - 1) * stride else 0);
    if n == 1 {
      assert rows[1..] == [];
    } else {
      FlattenAt(rows[1..], stride, if y > 0 then y - 1 else 0, c);
    }
  }

  /** End to end: whatever the encoder writes for an image is decoded to that image. */
  method RoundTrip(rows: seq<seq<Byte>>, filters: seq<Byte>, stride: nat, channels: nat) returns (r: Result<seq<Byte>, DecodeError>)
    requires |rows| == |filters| && channels > 0
    requires forall i :: 0 <= i < |rows| ==> |rows[i]| == stride && filters[i] <= 4
    ensures r == Ok(Flatten(rows))
  {
    hide Encode, Decodes, KnownFilters, Flatten;
    EncoderAccepted(rows, filters, Zeros(stride), channels);
    ghost var decoded;
    r, decoded := DecodeRows(Encode(rows, filters, Zeros(stride), channels), |rows|, stride, channels);
    DecodeInvertsEncode(rows, filters, Zeros(stride), channels, decoded);
  }

  lemma {:induction false} FilteredLength(filter: nat, line: seq<Byte>, previous: seq<Byte>, channels: nat)
    requires |line| == |previous| && channels > 0
    ensures |FilterLine(filter, line, previous, channels)| == |line|
  {
  }

  lemma {:induction false} OnlyReconstruction(filter: nat, line: seq<Byte>, previous: seq<Byte>, channels: nat, decoded: seq<Byte>)
    requires |line| == |previous| && channels > 0
    ensures Reconstructs(filter, FilterLine(filter, line, previous, channels), decoded, previous, channels) <==> decoded == line
  {
    hide Predict;
    var filtered := FilterLine(filter, line, previous, channels);
    FilterInverse(filter, line, previous, channels, filtered);
    if Reconstructs(filter, filtered, decoded, previous, channels) {
      ReconstructionUnique(filter, filtered, line, decoded, previous, channels, |line|);
      assert line[..|line|] == line && decoded[..|line|] == decoded;
    }
  }

  function FiltersOf(raw: seq<Byte>, n: nat, stride: nat): seq<Byte>
    requires KnownFilters(raw, n, stride)
  {
    if n == 0 then [] else [raw[0]] + FiltersOf(raw[1 + stride..], n - 1, stride)
  }

  /** Encoding the decoded scanlines with the filter types found in the data restores the data. */
  lemma {:induction false} EncodeInvertsDecode(raw: seq<Byte>, rows: seq<seq<Byte>>, previous: seq<Byte>, channels: nat)
    requires channels > 0 && Decodes(raw, rows, previous, channels)
    ensures KnownFilters(raw, |rows|, |previous|)
    ensures |FiltersOf(raw, |rows|, |previous|)| == |rows|
    ensures forall i :: 0 <= i < |rows| ==> |rows[i]| == |previous|
    ensures Encode(rows, FiltersOf(raw, |rows|, |previous|), previous, channels) == raw
  {
    hide Reconstructs, FilterLine;
    if rows != [] {
      var n := 1 + |previous|;
      SameLength(raw[0], raw[1..n], rows[0], previous, channels);
      EncodeInvertsDecode(raw[n..], rows[1..], rows[0], channels);
      FilterInverse(raw[0], rows[0], previous, channels, raw[1..n]);
      assert raw == [raw[0]] + raw[1..n] + raw[n..];
      assert forall i :: 0 < i < |rows| ==> rows[i] == rows[1..][i - 1];
      assert ([raw[0]] + FiltersOf(raw[n..], |rows| - 1, |previous|))[1..] == FiltersOf(raw[n..], |rows| - 1, |previous|);
    }
  }
}
