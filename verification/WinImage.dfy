/** Images on the Windows clipboard (pkg/clipboard/windows/image.go): pixels top-down and RGBA on this side, a
    bitmap bottom-up and BGRA on the other. The global memory block is an array, with the size of the header in
    front of the raster. */
module WinImage {
  import opened Machine

  /** A colour as `RGBA()` gives it: premultiplied, 16 bits a channel. */
  datatype Color = Color(r: Uint16, g: Uint16, b: Uint16, a: Uint16)

  /** The fields of the bitmap header that are read back. */
  datatype Header = Header(size: nat, width: Int32, height: Int32, bitCount: Uint16)

  const HEADER_SIZE := 124

  type Dimension = n: int | 0 <= n < 0x8000_0000

  /** `uint8(v >> 8)` */
  function HighByte(v: Uint16): Byte {
    v / 0x100
  }

  /** An 8-bit channel as `RGBA()` widens it. */
  function Widened(v: Byte): Uint16 {
    v * 0x101
  }

  lemma NarrowedAgain(v: Byte)
    ensures HighByte(Widened(v)) == v
  {
  }

  /** The size of a raster of four bytes a pixel. */
  function RasterBytes(w: int, h: int): nat {
    if w <= 0 || h <= 0 then 0 else 4 * (w * h)
  }

  /** The offset of channel `c` of the pixel in column `x` and row `y`, when rows are `w` pixels wide. */
  function Offset(w: int, x: int, y: int, c: int): int {
    4 * (y * w + x) + c
  }

  function ColumnOf(w: int, k: int): int
    requires w > 0
  {
    k / 4 % w
  }

  function RowOf(w: int, k: int): int
    requires w > 0
  {
    k / 4 / w
  }

  lemma OffsetOf(w: int, h: int, x: int, y: int, c: int)
    requires 0 <= x < w && 0 <= y < h && 0 <= c < 4
    ensures 0 <= Offset(w, x, y, c) < RasterBytes(w, h)
    ensures ColumnOf(w, Offset(w, x, y, c)) == x && RowOf(w, Offset(w, x, y, c)) == y && Offset(w, x, y, c) % 4 == c
  {
    var p := y * w + x;
    assert Offset(w, x, y, c) / 4 == p;
    DivideRow(w, x, y);
    RowFits(w, h, y);
  }

  lemma RowFits(w: int, h: int, y: int)
    requires 0 <= w && 0 <= y < h
    ensures y * w + w <= h * w
  {
    assert (h - 1 - y) * w >= 0;
    assert (h - 1 - y) * w == h * w - w - y * w;
  }

  lemma DivideRow(w: int, x: int, y: int)
    requires 0 <= x < w
    ensures (y * w + x) / w == y && (y * w + x) % w == x
  {
    var p := y * w + x;
    var q := p / w;
    assert p == w * q + p % w;
    assert w * (y + 1) == y * w + w;
    ProductsCompare(w, q, y + 1);
    assert w * (q + 1) == w * q + w;
    ProductsCompare(w, y, q + 1);
  }

  lemma OffsetSplits(w: int, h: int, k: int)
    requires 0 < w && 0 <= k < RasterBytes(w, h)
    ensures 0 <= ColumnOf(w, k) < w && 0 <= RowOf(w, k) < h
    ensures k == Offset(w, ColumnOf(w, k), RowOf(w, k), k % 4)
  {
    var p := k / 4;
    assert p == w * (p / w) + p % w;
    ProductsCompare(w, p / w, h);
  }

  lemma ProductsCompare(w: int, a: int, b: int)
    requires 0 < w && w * a < w * b
    ensures a < b
  {
  }

  /** Where the byte at `k` of an image stands in the bitmap: the row counted from the other end, red and blue
      exchanged. */
  function Moved(w: int, h: int, k: int): int
    requires w > 0
  {
    var c := k % 4;
    Offset(w, ColumnOf(w, k), h - 1 - RowOf(w, k), if c == 0 then 2 else if c == 2 then 0 else c)
  }

  /** Moving stays in bounds, and moving twice is not moving: each of the two index maps is the inverse of the
      other. */
  lemma MovedTwice(w: int, h: int, k: int)
    requires 0 < w && 0 <= k < RasterBytes(w, h)
    ensures 0 <= Moved(w, h, k) < RasterBytes(w, h) && Moved(w, h, Moved(w, h, k)) == k
  {
    hide Offset, ColumnOf, RowOf;
    OffsetSplits(w, h, k);
    var x, y, c := ColumnOf(w, k), RowOf(w, k), k % 4;
    var d := if c == 0 then 2 else if c == 2 then 0 else c;
    OffsetOf(w, h, x, h - 1 - y, d);
  }

  lemma MovedOffset(w: int, h: int, x: int, y: int, c: int)
    requires 0 <= x < w && 0 <= y < h && 0 <= c < 4
    ensures Moved(w, h, Offset(w, x, y, c))
         == Offset(w, x, h - 1 - y, if c == 0 then 2 else if c == 2 then 0 else c)
  {
    OffsetOf(w, h, x, y, c);
  }

  /** The bytes of a raster, moved. */
  ghost function Flipped(w: int, h: int, s: Bytes): (r: Bytes)
    requires 0 <= w && |s| == RasterBytes(w, h)
    ensures |r| == |s|
  {
    if w == 0 then s else
    assert forall k :: 0 <= k < |s| ==> 0 <= Moved(w, h, k) < |s| by { AllMoved(w, h); }
    seq(|s|, k requires 0 <= k < |s| && 0 <= Moved(w, h, k) < |s| => s[Moved(w, h, k)])
  }

  lemma AllMoved(w: int, h: int)
    requires 0 < w
    ensures forall k :: 0 <= k < RasterBytes(w, h) ==>
      0 <= Moved(w, h, k) < RasterBytes(w, h) && Moved(w, h, Moved(w, h, k)) == k
  {
    forall k | 0 <= k < RasterBytes(w, h)
      ensures 0 <= Moved(w, h, k) < RasterBytes(w, h) && Moved(w, h, Moved(w, h, k)) == k
    {
      MovedTwice(w, h, k);
    }
  }

  lemma FlippedTwice(w: int, h: int, s: Bytes)
    requires 0 <= w && |s| == RasterBytes(w, h)
    ensures Flipped(w, h, Flipped(w, h, s)) == s
  {
    if w > 0 {
      AllMoved(w, h);
      hide Moved;
    }
  }

  // ---------------------------------------------------------------- the code

  function Channel(color: Color, c: int): Byte {
    if c == 0 then HighByte(color.r)
    else if c == 1 then HighByte(color.g)
    else if c == 2 then HighByte(color.b)
    else HighByte(color.a)
  }

  /** The bytes of an image, row by row from the top. */
  ghost function TopDown(at: (int, int) -> Color, w: int, h: int): (r: Bytes)
    requires 0 <= w && 0 <= h
    ensures |r| == RasterBytes(w, h)
  {
    if w == 0 then [] else
    seq<Byte>(RasterBytes(w, h), k => Channel(at(ColumnOf(w, k), RowOf(w, k)), k % 4))
  }

  /** The offset of the first pixel of row `y`. */
  function RowStart(w: int, y: int): int {
    4 * (y * w)
  }

  /** Where a pixel's channels are, and what is found there in a flipped raster. */
  lemma FlippedPixel(w: int, h: int, s: Bytes, x: int, y: int)
    requires 0 <= x < w && 0 <= y < h && |s| == RasterBytes(w, h)
    ensures var i, j := RowStart(w, y) + 4 * x, RowStart(w, h - 1 - y) + 4 * x;
      0 <= i && i + 4 <= |s| && 0 <= j && j + 4 <= |s|
      && Flipped(w, h, s)[i..i + 4] == [s[j + 2], s[j + 1], s[j], s[j + 3]]
  {
    hide Moved;
    forall c: int | 0 <= c < 4
      ensures 0 <= Offset(w, x, y, c) < RasterBytes(w, h) && 0 <= Offset(w, x, h - 1 - y, c) < RasterBytes(w, h)
    {
      OffsetOf(w, h, x, y, c);
      OffsetOf(w, h, x, h - 1 - y, c);
    }
    assert 0 <= Offset(w, x, y, 0) && Offset(w, x, y, 3) < RasterBytes(w, h);
    assert 0 <= Offset(w, x, h - 1 - y, 0) && Offset(w, x, h - 1 - y, 3) < RasterBytes(w, h);
    MovedOffset(w, h, x, y, 0);
    MovedOffset(w, h, x, y, 1);
    MovedOffset(w, h, x, y, 2);
    MovedOffset(w, h, x, y, 3);
  }

  lemma TopDownPixel(at: (int, int) -> Color, w: int, h: int, x: int, y: int)
    requires 0 <= x < w && 0 <= y < h
    ensures 0 <= 4 * (y * w + x) && 4 * (y * w + x) + 4 <= RasterBytes(w, h)
    ensures TopDown(at, w, h)[4 * (y * w + x)..4 * (y * w + x) + 4]
         == [Channel(at(x, y), 0), Channel(at(x, y), 1), Channel(at(x, y), 2), Channel(at(x, y), 3)]
  {
    forall c: int | 0 <= c < 4
      ensures 0 <= Offset(w, x, y, c) < RasterBytes(w, h)
        && TopDown(at, w, h)[Offset(w, x, y, c)] == Channel(at(x, y), c)
    {
      OffsetOf(w, h, x, y, c);
    }
    assert 0 <= Offset(w, x, y, 0) && Offset(w, x, y, 3) < RasterBytes(w, h);
  }

  /** A pixel of the raster `writeImage` writes. */
  lemma RasterPixel(at: (int, int) -> Color, w: int, h: int, x: int, y: int)
    requires 0 <= x < w && 0 <= y < h
    ensures 0 <= 4 * (y * w + x) && 4 * (y * w + x) + 4 <= RasterBytes(w, h)
    ensures var color := at(x, h - 1 - y);
      Flipped(w, h, TopDown(at, w, h))[4 * (y * w + x)..4 * (y * w + x) + 4]
      == [color.b / 0x100, color.g / 0x100, color.r / 0x100, color.a / 0x100]
  {
    hide Flipped, TopDown;
    var top := TopDown(at, w, h);
    FlippedPixel(w, h, top, x, y);
    TopDownPixel(at, w, h, x, h - 1 - y);
    var j := 4 * ((h - 1 - y) * w + x);
    var pixel := top[j..j + 4];
    assert top[j] == pixel[0] && top[j + 1] == pixel[1] && top[j + 2] == pixel[2] && top[j + 3] == pixel[3];
  }

  lemma NextRow(w: int, y: int)
    ensures (y + 1) * w == y * w + w
  {
  }

  lemma OneMorePixel(cells: Bytes, raster: Bytes, n: nat)
    requires n + 4 <= |raster| && |cells| == |raster|
    requires cells[..n] == raster[..n] && cells[n..n + 4] == raster[n..n + 4]
    ensures cells[..n + 4] == raster[..n + 4]
  {
    assert cells[..n + 4] == cells[..n] + cells[n..n + 4];
    assert raster[..n + 4] == raster[..n] + raster[n..n + 4];
  }

  /** The raster that `writeImage` puts on the clipboard, behind a header. */
  method WriteImage(at: (int, int) -> Color, w: Dimension, h: Dimension) returns (info: Header, dst: array<Byte>)
    ensures info == Header(HEADER_SIZE, w, h, 32)
    ensures info.size == 124 && fresh(dst) && dst.Length == 124 + RasterBytes(w, h)
    ensures dst[HEADER_SIZE..] == Flipped(w, h, TopDown(at, w, h))
  {
    hide Flipped, TopDown;
    ghost var raster := Flipped(w, h, TopDown(at, w, h));
    info := Header(HEADER_SIZE, w, h, 32);
    dst := new Byte[HEADER_SIZE + RasterBytes(w, h)];
    var offset := HEADER_SIZE;
    ghost var n := 0;
    for y := 0 to h
      invariant n == 4 * (y * w) && 0 <= n <= |raster|
      invariant dst[offset..][..n] == raster[..n]
    {
      for x := 0 to w
        invariant n == 4 * (y * w + x) && 0 <= n <= |raster|
        invariant dst[offset..][..n] == raster[..n]
      {
        RasterPixel(at, w, h, x, y);
        WritePixel(dst, offset, at(x, h - 1 - y), 4 * (y * w + x), raster);
        n := n + 4;
      }
      NextRow(w, y);
    }
    assert n == |raster|;
    assert dst[offset..][..n] == dst[offset..] && raster[..n] == raster;
  }

  /** The body of the loops. */
  method WritePixel(dst: array<Byte>, offset: nat, color: Color, i: nat, ghost raster: Bytes)
    requires offset + |raster| == dst.Length && i + 4 <= |raster|
    requires dst[offset..][..i] == raster[..i]
    requires raster[i..i + 4] == [HighByte(color.b), HighByte(color.g), HighByte(color.r), HighByte(color.a)]
    modifies dst
    ensures dst[offset..][..i + 4] == raster[..i + 4]
  {
    ghost var before := dst[offset..][..i];
    var idx := offset + i;
    dst[idx + 2] := HighByte(color.r);
    dst[idx + 1] := HighByte(color.g);
    dst[idx] := HighByte(color.b);
    dst[idx + 3] := HighByte(color.a);
    assert dst[offset..][..i] == before;
    assert dst[offset..][i..i + 4] == [dst[idx], dst[idx + 1], dst[idx + 2], dst[idx + 3]];
    OneMorePixel(dst[offset..], raster, i);
  }

  lemma Rows(w: int, h: int, y: int)
    requires 0 <= w && 0 <= y < h
    ensures 0 <= RowStart(w, y) && RowStart(w, y) + 4 * w == RowStart(w, y + 1) <= RasterBytes(w, h)
  {
    NextRow(w, y);
    assert y * w >= 0 && (h - 1 - y) * w >= 0;
    assert (h - 1 - y) * w == h * w - (y + 1) * w;
  }

  /** The bytes of the image that `readImage` makes of a block, or none if its pixels are not of 32 bits. */
  method ReadImage(info: Header, mem: array<Byte>) returns (pix: array?<Byte>)
    requires 0 <= info.width && 0 <= info.height
    requires info.size + RasterBytes(info.width, info.height) <= mem.Length
    ensures pix == null <==> info.bitCount != 32
    ensures pix != null ==> fresh(pix)
    ensures pix != null ==>
      pix[..] == Flipped(info.width, info.height, mem[info.size..info.size + RasterBytes(info.width, info.height)])
  {
    if info.bitCount != 32 {
      return null;
    }
    var w: int, h: int := info.width, info.height;
    var raster := mem[info.size..info.size + RasterBytes(w, h)];
    pix := new Byte[RasterBytes(w, h)];
    ReadRaster(raster, pix, w, h);
  }

  /** The loops. */
  method ReadRaster(raster: Bytes, pix: array<Byte>, w: int, h: int)
    requires 0 <= w && 0 <= h && |raster| == pix.Length == RasterBytes(w, h)
    modifies pix
    ensures pix[..] == Flipped(w, h, raster)
  {
    hide Flipped, RasterBytes, RowStart, Done;
    ghost var image := Flipped(w, h, raster);
    NoRows(w, h);
    DoneAll(pix[..], image);
    for y := 0 to h
      invariant Done(pix[..], image, RowStart(w, h - y), |image|)
    {
      Rows(w, h, h - 1 - y);
      ReadRow(raster, pix, w, h, y, image);
    }
    DoneAll(pix[..], image);
  }

  /** The inner loop: rows are filled from the last one up. */
  method ReadRow(raster: Bytes, pix: array<Byte>, w: int, h: int, y: int, ghost image: Bytes)
    requires 0 <= w && 0 <= y < h && |raster| == pix.Length == RasterBytes(w, h)
    requires image == Flipped(w, h, raster)
    requires Done(pix[..], image, RowStart(w, h - 1 - y) + 4 * w, |image|)
    modifies pix
    ensures Done(pix[..], image, RowStart(w, h - 1 - y), |image|)
  {
    hide *;
    ghost var base := RowStart(w, h - 1 - y);
    Rows(w, h, h - 1 - y);
    DoneNothing(pix[..], image, base);
    for x := 0 to w
      invariant Done(pix[..], image, base, base + 4 * x)
      invariant Done(pix[..], image, base + 4 * w, |image|)
    {
      ReadPixel(raster, pix, w, h, x, y, image);
    }
    AgreeOn(pix[..], image, base, base + 4 * w, |image|);
  }

  /** Two rasters agree from `i` up to `j`. */
  ghost predicate Done(s: Bytes, t: Bytes, i: int, j: int) {
    0 <= i <= j <= |s| == |t| && forall k :: i <= k < j ==> s[k] == t[k]
  }

  lemma DoneNothing(s: Bytes, t: Bytes, i: int)
    requires 0 <= i <= |s| == |t|
    ensures Done(s, t, i, i)
  {
  }

  lemma DoneAll(s: Bytes, t: Bytes)
    requires |s| == |t|
    ensures Done(s, t, |t|, |t|)
    ensures Done(s, t, 0, |t|) ==> s == t
  {
  }

  lemma AgreeOn(s: Bytes, t: Bytes, i: int, j: int, k: int)
    requires Done(s, t, i, j) && Done(s, t, j, k)
    ensures Done(s, t, i, k)
  {
  }

  lemma StillDone(s: Bytes, s': Bytes, t: Bytes, i: int, j: int, from: int, to: int)
    requires Done(s, t, i, j) && |s'| == |s| && 0 <= from <= to <= |s|
    requires s'[..from] == s[..from] && s'[to..] == s[to..] && (j <= from || to <= i)
    ensures Done(s', t, i, j)
  {
    forall k | i <= k < j ensures s'[k] == s[k] {
      if j <= from {
        assert s'[k] == s'[..from][k];
      } else {
        assert s'[k] == s'[to..][k - to];
      }
    }
  }

  lemma NoRows(w: int, h: int)
    requires 0 <= w && 0 <= h
    ensures RowStart(w, 0) == 0 && RowStart(w, h) == RasterBytes(w, h)
  {
  }

  /** The body of the loops. */
  method ReadPixel(raster: Bytes, pix: array<Byte>, w: int, h: int, x: int, y: int, ghost image: Bytes)
    requires 0 <= x < w && 0 <= y < h && |raster| == pix.Length == RasterBytes(w, h)
    requires image == Flipped(w, h, raster)
    requires Done(pix[..], image, RowStart(w, h - 1 - y), RowStart(w, h - 1 - y) + 4 * x)
    requires Done(pix[..], image, RowStart(w, h - 1 - y) + 4 * w, |image|)
    modifies pix
    ensures Done(pix[..], image, RowStart(w, h - 1 - y), RowStart(w, h - 1 - y) + 4 * (x + 1))
    ensures Done(pix[..], image, RowStart(w, h - 1 - y) + 4 * w, |image|)
  {
    hide *;
    PixelSource(raster, w, h, x, y);
    ghost var before, base := pix[..], RowStart(w, h - 1 - y);
    var idx := PixelOffset(w, x, y);
    var pixOffset := StrideOffset(w, h, x, y);
    SetPixel(pix, pixOffset, raster[idx + 2], raster[idx + 1], raster[idx], raster[idx + 3]);
    StillDone(before, pix[..], image, base, pixOffset, pixOffset, pixOffset + 4);
    StillDone(before, pix[..], image, base + 4 * w, |image|, pixOffset, pixOffset + 4);
    PixelDone(pix[..], image, pixOffset);
    AgreeOn(pix[..], image, base, pixOffset, pixOffset + 4);
  }

  /** `4 * (y*stride + x)` */
  function PixelOffset(w: int, x: int, y: int): (idx: int)
    ensures idx == RowStart(w, y) + 4 * x
  {
    4 * (y * w + x)
  }

  /** `yhat*img.Stride + x*4`, in the row as far from the other end. */
  function StrideOffset(w: int, h: int, x: int, y: int): (pixOffset: int)
    ensures pixOffset == RowStart(w, h - 1 - y) + 4 * x
  {
    var stride := 4 * w;
    var yhat := h - 1 - y;
    assert yhat * stride == 4 * (yhat * w);
    yhat * stride + x * 4
  }

  lemma PixelSource(raster: Bytes, w: int, h: int, x: int, y: int)
    requires 0 <= x < w && 0 <= y < h && |raster| == RasterBytes(w, h)
    ensures var i, j := RowStart(w, h - 1 - y) + 4 * x, RowStart(w, y) + 4 * x;
      0 <= i && i + 4 <= |raster| && 0 <= j && j + 4 <= |raster| && 0 <= RowStart(w, h - 1 - y)
      && Flipped(w, h, raster)[i..i + 4] == [raster[j + 2], raster[j + 1], raster[j], raster[j + 3]]
  {
    hide *;
    Rows(w, h, h - 1 - y);
    FlippedPixel(w, h, raster, x, h - 1 - y);
    assert h - 1 - (h - 1 - y) == y;
  }

  lemma PixelDone(s: Bytes, t: Bytes, i: int)
    requires 0 <= i && i + 4 <= |s| == |t| && s[i..i + 4] == t[i..i + 4]
    ensures Done(s, t, i, i + 4)
  {
    forall k | i <= k < i + 4 ensures s[k] == t[k] {
      assert s[k] == s[i..i + 4][k - i];
    }
  }

  method SetPixel(pix: array<Byte>, i: nat, r: Byte, g: Byte, b: Byte, a: Byte)
    requires i + 4 <= pix.Length
    modifies pix
    ensures pix[..][i..i + 4] == [r, g, b, a]
    ensures pix[..][..i] == old(pix[..])[..i] && pix[..][i + 4..] == old(pix[..])[i + 4..]
  {
    pix[i] := r;
    pix[i + 1] := g;
    pix[i + 2] := b;
    pix[i + 3] := a;
  }

  /** The colour of a pixel of premultiplied 8-bit channels. */
  function WidenedAt(v: Bytes, w: int): (int, int) -> Color {
    (x, y) =>
      var i := Offset(w, x, y, 0);
      if 0 <= i && i + 3 < |v| then Color(Widened(v[i]), Widened(v[i + 1]), Widened(v[i + 2]), Widened(v[i + 3]))
      else Color(0, 0, 0, 0)
  }

  lemma WidenedByte(v: Bytes, w: int, h: int, k: int)
    requires 0 < w && |v| == RasterBytes(w, h) && 0 <= k < |v|
    ensures Channel(WidenedAt(v, w)(ColumnOf(w, k), RowOf(w, k)), k % 4) == v[k]
  {
    hide ColumnOf, RowOf, RasterBytes, HighByte, Widened;
    OffsetSplits(w, h, k);
    OffsetOf(w, h, ColumnOf(w, k), RowOf(w, k), 3);
    NarrowedAgain(v[k]);
    assert Offset(w, ColumnOf(w, k), RowOf(w, k), 0) == k - k % 4;
  }

  /** An image of premultiplied 8-bit channels comes down to its channels. */
  lemma WidenedImage(v: Bytes, w: int, h: int)
    requires 0 <= w && 0 <= h && |v| == RasterBytes(w, h)
    ensures TopDown(WidenedAt(v, w), w, h) == v
  {
    assert w == 0 ==> v == [];
    hide RasterBytes, Channel, ColumnOf, RowOf, WidenedAt;
    forall k | 0 <= k < |v| ensures TopDown(WidenedAt(v, w), w, h)[k] == v[k] {
      WidenedByte(v, w, h, k);
    }
  }

  /** An image of premultiplied 8-bit channels that is written and read again is the same, byte for byte. */
  lemma ImageComesBack(v: Bytes, w: int, h: int)
    requires 0 <= w && 0 <= h && |v| == RasterBytes(w, h)
    ensures Flipped(w, h, Flipped(w, h, TopDown(WidenedAt(v, w), w, h))) == v
  {
    WidenedImage(v, w, h);
    FlippedTwice(w, h, v);
  }
}
