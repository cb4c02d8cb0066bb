/** The NV21 encoder of the instrumented tests
    (androidTest .../utils/TestUtils.java): integer RGB to YUV with the
    ITU-R BT.601 8-bit studio-range approximation, a full Y plane followed
    by interleaved V/U samples taken at every other pixel of every other
    row. */
module Nv21Encoding {
  import opened JavaSemantics

  /** Java's `x >> 8` on an int: an arithmetic shift, i.e. division by 256
      rounded toward minus infinity, also for negative x. */
  function Shr8(x: int): (r: int)
    ensures 256 * r <= x < 256 * r + 256
  {
    x / 256
  }

  /** `(argb & 0xff0000) >> 16`, `(argb & 0xff00) >> 8` and `argb & 0xff`
      on a Java int (two's complement, so negative values keep their low
      bits). */
  function Red(argb: int): (r: int)
    ensures 0 <= r < 256
  {
    (argb / 0x1_0000) % 0x100
  }

  function Green(argb: int): (g: int)
    ensures 0 <= g < 256
  {
    (argb / 0x100) % 0x100
  }

  function Blue(argb: int): (b: int)
    ensures 0 <= b < 256
  {
    argb % 0x100
  }

  /** The int Android stores for a colour with these 8-bit channels: the
      32-bit pattern aaaaaaaa rrrrrrrr gggggggg bbbbbbbb read as signed. */
  function PackArgb(a: int, r: int, g: int, b: int): (x: int)
    requires 0 <= a < 256 && 0 <= r < 256 && 0 <= g < 256 && 0 <= b < 256
    ensures -0x8000_0000 <= x < 0x8000_0000
    ensures (x - (a * 0x100_0000 + r * 0x1_0000 + g * 0x100 + b)) % 0x1_0000_0000 == 0
  {
    var u := a * 0x100_0000 + r * 0x1_0000 + g * 0x100 + b;
    if u < 0x8000_0000 then u else u - 0x1_0000_0000
  }

  lemma DivDecompose256(q: int, rem: int)
    requires 0 <= rem < 0x100
    ensures (q * 0x100 + rem) / 0x100 == q && (q * 0x100 + rem) % 0x100 == rem
  {
  }

  lemma DivDecompose65536(q: int, rem: int)
    requires 0 <= rem < 0x1_0000
    ensures (q * 0x1_0000 + rem) / 0x1_0000 == q
  {
  }

  /** Unpacking a packed colour gives back its red, green and blue bytes. */
  lemma UnpackPacked(a: int, r: int, g: int, b: int)
    requires 0 <= a < 256 && 0 <= r < 256 && 0 <= g < 256 && 0 <= b < 256
    ensures Red(PackArgb(a, r, g, b)) == r
    ensures Green(PackArgb(a, r, g, b)) == g
    ensures Blue(PackArgb(a, r, g, b)) == b
  {
    var x := PackArgb(a, r, g, b);
    var top := if a < 128 then a else a - 256;
    assert x == top * 0x100_0000 + r * 0x1_0000 + g * 0x100 + b;
    DivDecompose65536(top * 0x100 + r, g * 0x100 + b);
    DivDecompose256(top, r);
    DivDecompose256(top * 0x1_0000 + r * 0x100 + g, b);
    DivDecompose256(top * 0x100 + r, g);
  }

  /** The three integer conversions. */
  function Luma(r: int, g: int, b: int): int
  {
    Shr8(66 * r + 129 * g + 25 * b + 128) + 16
  }

  function ChromaU(r: int, g: int, b: int): int
  {
    Shr8(-38 * r - 74 * g + 112 * b + 128) + 128
  }

  function ChromaV(r: int, g: int, b: int): int
  {
    Shr8(112 * r - 94 * g - 18 * b + 128) + 128
  }

  /** `(v < 0) ? 0 : ((v > 255) ? 255 : v)`. */
  function Clamp(v: int): (c: int)
    ensures 0 <= c <= 255
    ensures 0 <= v <= 255 ==> c == v
    ensures v < 0 ==> c == 0
    ensures v > 255 ==> c == 255
  {
    if v < 0 then 0 else if v > 255 then 255 else v
  }

  /** The bytes written for one pixel. */
  function YByte(px: int): int8
  {
    ToByte(Clamp(Luma(Red(px), Green(px), Blue(px))))
  }

  function UByte(px: int): int8
  {
    ToByte(Clamp(ChromaU(Red(px), Green(px), Blue(px))))
  }

  function VByte(px: int): int8
  {
    ToByte(Clamp(ChromaV(Red(px), Green(px), Blue(px))))
  }

  /** Y stays in the studio range [16, 235] for 8-bit inputs, so its clamp
      never changes it. */
  lemma LumaRange(r: int, g: int, b: int)
    requires 0 <= r < 256 && 0 <= g < 256 && 0 <= b < 256
    ensures 16 <= Luma(r, g, b) <= 235
    ensures Clamp(Luma(r, g, b)) == Luma(r, g, b)
  {
  }

  /** U and V stay in [16, 240] for 8-bit inputs, also when the sum under
      the shift is negative. */
  lemma ChromaRange(r: int, g: int, b: int)
    requires 0 <= r < 256 && 0 <= g < 256 && 0 <= b < 256
    ensures 16 <= ChromaU(r, g, b) <= 240 && 16 <= ChromaV(r, g, b) <= 240
    ensures Clamp(ChromaU(r, g, b)) == ChromaU(r, g, b) && Clamp(ChromaV(r, g, b)) == ChromaV(r, g, b)
  {
  }

  /** A grey pixel carries no colour: both chroma samples are 128. */
  lemma GreyChroma(v: int)
    requires 0 <= v < 256
    ensures ChromaU(v, v, v) == 128 && ChromaV(v, v, v) == 128
  {
  }

  /** ceil(n / 2): the number of even indices below n. */
  function Half(n: nat): nat
  {
    (n + 1) / 2
  }

  /** a copies of b added up: multiplication, written so that the loop
      proofs below reason about one added row at a time. */
  function Product(a: nat, b: nat): nat
  {
    if a == 0 then 0 else Product(a - 1, b) + b
  }

  lemma {:induction false} ProductIsMul(a: nat, b: nat)
    ensures Product(a, b) == a * b
  {
    if a > 0 {
      ProductIsMul(a - 1, b);
    }
  }

  lemma {:induction false} ProductMonotone(a: nat, c: nat, b: nat)
    requires a <= c
    ensures Product(a, b) <= Product(c, b)
  {
    if a < c {
      ProductMonotone(a, c - 1, b);
    }
  }

  lemma MulMonotone(a: nat, b: nat, c: nat)
    requires b <= c
    ensures a * b <= a * c
  {
  }

  /** The bytes of the interleaved chroma plane: two per even row and even
      column. */
  function ChromaBytes(width: nat, height: nat): nat
  {
    2 * Product(Half(height), Half(width))
  }

  /** The bytes encodeYUV420SP writes for a width x height frame. */
  function RequiredYuvSize(width: nat, height: nat): nat
  {
    width * height + ChromaBytes(width, height)
  }

  /** The pixel count width * height, as height rows of width pixels. */
  function PixelCount(width: nat, height: nat): nat
  {
    Product(height, width)
  }

  /** Rows 0..j of a frame end inside the Y plane. */
  lemma RowEndInBound(j: nat, width: nat, height: nat)
    requires j < height
    ensures Product(j, width) + width <= PixelCount(width, height)
  {
    ProductMonotone(j + 1, height, width);
  }

  /** The row-major index of pixel (i, j). */
  function Flat(width: nat, height: nat, j: nat, i: nat): (k: nat)
    requires j < height && i < width
    ensures k < PixelCount(width, height)
  {
    RowEndInBound(j, width, height);
    Product(j, width) + i
  }

  /** The chroma pair of an even pixel of an even row j < rows lies below
      the pairs of every later even row. */
  lemma ChromaSlotBound(width: nat, rows: nat, j: nat, i: nat)
    requires j < rows && j % 2 == 0 && i < width && i % 2 == 0
    ensures 2 * (Product(j / 2, Half(width)) + i / 2) + 2 <= ChromaBytes(width, rows)
  {
    assert i / 2 + 1 <= Half(width);
    ProductMonotone(j / 2 + 1, Half(rows), Half(width));
  }

  /** Where, after the Y plane, the V byte of pixel (i, j) goes; U
      follows it. */
  function ChromaPos(width: nat, height: nat, j: nat, i: nat): (p: nat)
    requires j < height && j % 2 == 0 && i < width && i % 2 == 0
    ensures p % 2 == 0 && p + 2 <= ChromaBytes(width, height)
  {
    ChromaSlotBound(width, height, j, i);
    2 * (Product(j / 2, Half(width)) + i / 2)
  }

  /** Pair s of the chroma plane is the sample SlotCol(s, cw) of chroma
      row SlotRow(s, cw) when each row holds cw samples: quotient and
      remainder, by repeated subtraction of a row. */
  function SlotRow(s: nat, cw: nat): nat
    requires cw > 0
    decreases s
  {
    if s < cw then 0 else 1 + SlotRow(s - cw, cw)
  }

  function SlotCol(s: nat, cw: nat): (c: nat)
    requires cw > 0
    ensures c < cw
    decreases s
  {
    if s < cw then s else SlotCol(s - cw, cw)
  }

  lemma {:induction false} SlotSplit(s: nat, cw: nat)
    requires cw > 0
    ensures Product(SlotRow(s, cw), cw) + SlotCol(s, cw) == s
  {
    if s >= cw {
      SlotSplit(s - cw, cw);
    }
  }

  lemma {:induction false} SlotOf(r: nat, c: nat, cw: nat)
    requires c < cw
    ensures SlotRow(Product(r, cw) + c, cw) == r && SlotCol(Product(r, cw) + c, cw) == c
  {
    if r > 0 {
      SlotOf(r - 1, c, cw);
      assert Product(r, cw) + c - cw == Product(r - 1, cw) + c;
    }
  }

  lemma {:induction false} SlotRowBound(s: nat, cw: nat, n: nat)
    requires cw > 0 && s < Product(n, cw)
    ensures SlotRow(s, cw) < n
  {
    if s >= cw {
      SlotRowBound(s - cw, cw, n - 1);
    }
  }

  /** The pixel of chroma byte p lies inside the frame. */
  lemma ChromaSlotDecode(width: nat, height: nat, p: nat)
    requires p < ChromaBytes(width, height)
    ensures Half(width) > 0
    ensures 2 * SlotRow(p / 2, Half(width)) < height && 2 * SlotCol(p / 2, Half(width)) < width
  {
    ProductIsMul(Half(height), Half(width));
    assert Half(width) > 0;
    SlotRowBound(p / 2, Half(width), Half(height));
  }

  /** The row of the pixel whose chroma byte p is. */
  function ChromaRow(width: nat, height: nat, p: nat): (j: nat)
    requires p < ChromaBytes(width, height)
    ensures j < height && j % 2 == 0
  {
    ChromaSlotDecode(width, height, p);
    2 * SlotRow(p / 2, Half(width))
  }

  /** The column of the pixel whose chroma byte p is. */
  function ChromaCol(width: nat, height: nat, p: nat): (i: nat)
    requires p < ChromaBytes(width, height)
    ensures i < width && i % 2 == 0
  {
    ChromaSlotDecode(width, height, p);
    2 * SlotCol(p / 2, Half(width))
  }

  /** The pair at the position of an even pixel decodes to that pixel. */
  lemma ChromaPosDecodes(width: nat, height: nat, j: nat, i: nat)
    requires j < height && j % 2 == 0 && i < width && i % 2 == 0
    ensures ChromaRow(width, height, ChromaPos(width, height, j, i)) == j
    ensures ChromaCol(width, height, ChromaPos(width, height, j, i)) == i
    ensures ChromaRow(width, height, ChromaPos(width, height, j, i) + 1) == j
    ensures ChromaCol(width, height, ChromaPos(width, height, j, i) + 1) == i
  {
    var p := ChromaPos(width, height, j, i);
    assert p / 2 == (p + 1) / 2 == Product(j / 2, Half(width)) + i / 2;
    SlotOf(j / 2, i / 2, Half(width));
  }

  /** Every chroma byte sits at the position of the pixel it decodes to:
      the samples fill the chroma plane without a gap. */
  lemma ChromaDecodeEncodes(width: nat, height: nat, p: nat)
    requires p < ChromaBytes(width, height)
    ensures ChromaPos(width, height, ChromaRow(width, height, p), ChromaCol(width, height, p)) + p % 2 == p
  {
    ChromaSlotDecode(width, height, p);
    SlotSplit(p / 2, Half(width));
  }

  /** The pixel whose sample chroma byte p is. */
  function ChromaSource(width: nat, height: nat, p: nat): (k: nat)
    requires p < ChromaBytes(width, height)
    ensures k < PixelCount(width, height)
  {
    Flat(width, height, ChromaRow(width, height, p), ChromaCol(width, height, p))
  }

  /** Byte p of the chroma plane of an NV21 frame: V (even p) or U (odd p)
      of its pixel. */
  function ChromaByte(argb: seq<int>, width: nat, height: nat, p: nat): int8
    requires |argb| >= width * height && p < ChromaBytes(width, height)
  {
    ProductIsMul(height, width);
    var k := ChromaSource(width, height, p);
    if p % 2 == 0 then VByte(argb[k]) else UByte(argb[k])
  }

  /** The chroma bytes of the even pixel (i, j): what encodeYUV420SP
      writes for it. */
  lemma ChromaOfEvenPixel(argb: seq<int>, width: nat, height: nat, j: nat, i: nat)
    requires |argb| >= width * height
    requires j < height && j % 2 == 0 && i < width && i % 2 == 0
    ensures Flat(width, height, j, i) < |argb|
    ensures ChromaByte(argb, width, height, ChromaPos(width, height, j, i)) == VByte(argb[Flat(width, height, j, i)])
    ensures ChromaByte(argb, width, height, ChromaPos(width, height, j, i) + 1) == UByte(argb[Flat(width, height, j, i)])
  {
    ProductIsMul(height, width);
    ChromaPosDecodes(width, height, j, i);
  }

  /** On an even row the flattened index has the parity of the column. */
  lemma {:induction false} EvenRowParity(j: nat, width: nat, i: nat)
    requires j % 2 == 0
    ensures (Product(j, width) + i) % 2 == i % 2
  {
    if j >= 2 {
      EvenRowParity(j - 2, width, i);
      assert Product(j, width) == Product(j - 2, width) + 2 * width;
    }
  }

  lemma HalfOfEven(i: nat)
    requires i % 2 == 0
    ensures 2 * Half(i) == i
  {
  }

  lemma HalfMonotone(a: nat, b: nat)
    requires a <= b
    ensures Half(a) <= Half(b)
  {
  }

  lemma HalfStep(i: nat)
    ensures Half(i + 1) == Half(i) + (if i % 2 == 0 then 1 else 0)
  {
  }

  /** The chroma bytes of the rows below j + 1. */
  lemma ChromaBytesStep(width: nat, j: nat)
    ensures ChromaBytes(width, j + 1) == ChromaBytes(width, j) + (if j % 2 == 0 then 2 * Half(width) else 0)
  {
    HalfStep(j);
  }

  /** The next chroma write of an even row goes to the slot of its pixel. */
  lemma ChromaWriteSlot(width: nat, height: nat, j: nat, i: nat)
    requires j < height && j % 2 == 0 && i < width && i % 2 == 0
    ensures ChromaPos(width, height, j, i) == ChromaBytes(width, j) + 2 * Half(i)
  {
    assert Half(j) == j / 2 && Half(i) == i / 2;
  }

  lemma ChromaBytesMonotone(width: nat, j: nat, height: nat)
    requires j <= height
    ensures ChromaBytes(width, j) <= ChromaBytes(width, height)
  {
    ProductMonotone(Half(j), Half(height), Half(width));
  }

  /** luma holds the Y byte of every pixel, in pixel order. */
  ghost predicate IsLumaPlane(pixels: seq<int>, luma: seq<int8>)
  {
    |luma| == |pixels| && forall k :: 0 <= k < |pixels| ==> luma[k] == YByte(pixels[k])
  }

  /** chroma is as long as the chroma plane and holds the V and U bytes of
      every even pixel of every even row at that pixel's position. */
  ghost predicate PairsInPlace(pixels: seq<int>, chroma: seq<int8>, width: nat, height: nat)
  {
    PixelCount(width, height) <= |pixels| && |chroma| == ChromaBytes(width, height) &&
    forall jj: nat, ii: nat :: jj < height && jj % 2 == 0 && ii < width && ii % 2 == 0 ==>
      chroma[ChromaPos(width, height, jj, ii)] == VByte(pixels[Flat(width, height, jj, ii)]) &&
      chroma[ChromaPos(width, height, jj, ii) + 1] == UByte(pixels[Flat(width, height, jj, ii)])
  }

  /** The pairs of the even pixels fill the chroma plane: a plane holding
      every pair in place holds ChromaByte at every position. */
  lemma PairsDetermineChroma(pixels: seq<int>, chroma: seq<int8>, width: nat, height: nat, p: nat)
    requires |pixels| >= width * height && PairsInPlace(pixels, chroma, width, height)
    requires p < |chroma|
    ensures chroma[p] == ChromaByte(pixels, width, height, p)
  {
    var j := ChromaRow(width, height, p);
    var i := ChromaCol(width, height, p);
    ChromaDecodeEncodes(width, height, p);
    assert chroma[ChromaPos(width, height, j, i)] == VByte(pixels[Flat(width, height, j, i)]);
  }

  /** The two planes encodeYUV420SP is to write for the frame `pixels`. */
  ghost method Planes(pixels: seq<int>, width: nat, height: nat) returns (luma: seq<int8>, chroma: seq<int8>)
    requires |pixels| >= width * height
    ensures IsLumaPlane(pixels, luma)
    ensures PairsInPlace(pixels, chroma, width, height)
  {
    ProductIsMul(height, width);
    luma := seq(|pixels|, k requires 0 <= k < |pixels| => YByte(pixels[k]));
    chroma := seq(ChromaBytes(width, height),
                  p requires 0 <= p < ChromaBytes(width, height) => ChromaByte(pixels, width, height, p));
    forall jj: nat, ii: nat | jj < height && jj % 2 == 0 && ii < width && ii % 2 == 0
      ensures chroma[ChromaPos(width, height, jj, ii)] == VByte(pixels[Flat(width, height, jj, ii)])
      ensures chroma[ChromaPos(width, height, jj, ii) + 1] == UByte(pixels[Flat(width, height, jj, ii)])
    {
      ChromaOfEvenPixel(pixels, width, height, jj, ii);
    }
  }

  /** A write below lo leaves s[lo..hi] and s[hi..] alone; one at or
      above hi leaves s[..hi] alone. */
  lemma WriteOutside(s: seq<int8>, k: nat, v: int8, lo: nat, hi: nat)
    requires k < |s| && lo <= hi <= |s|
    ensures k < lo ==> s[k := v][lo..hi] == s[lo..hi] && s[k := v][hi..] == s[hi..]
    ensures hi <= k ==> s[k := v][..hi] == s[..hi]
  {
  }

  /** Writing t[y] at s[y] extends a prefix agreement by one. */
  lemma ExtendPrefix(s: seq<int8>, t: seq<int8>, y: nat)
    requires y < |s| && y < |t| && s[..y] == t[..y]
    ensures s[y := t[y]][..y + 1] == t[..y + 1]
  {
    assert s[y := t[y]][..y + 1] == s[..y] + [t[y]];
    assert t[..y + 1] == t[..y] + [t[y]];
  }

  /** Writing t[c] and t[c + 1] at s[lo + c] and s[lo + c + 1] extends an
      agreement of s[lo..lo + c] with t[..c] by two and keeps the tail. */
  lemma ExtendSlice(s: seq<int8>, orig: seq<int8>, t: seq<int8>, lo: nat, c: nat)
    requires lo + c + 2 <= |s| == |orig| && c + 2 <= |t|
    requires s[lo..lo + c] == t[..c] && s[lo + c..] == orig[lo + c..]
    ensures s[lo + c := t[c]][lo + c + 1 := t[c + 1]][lo..lo + c + 2] == t[..c + 2]
    ensures s[lo + c := t[c]][lo + c + 1 := t[c + 1]][lo + c + 2..] == orig[lo + c + 2..]
  {
    var u := s[lo + c := t[c]][lo + c + 1 := t[c + 1]];
    assert u[lo..lo + c + 2] == s[lo..lo + c] + [t[c], t[c + 1]];
    assert t[..c + 2] == t[..c] + [t[c], t[c + 1]];
    assert u[lo + c + 2..] == s[lo + c..][2..];
    assert orig[lo + c + 2..] == orig[lo + c..][2..];
  }

  /** encodeYUV420SP: the Y byte of every pixel in row-major order, then
      the chroma plane, and nothing past them. */
  method EncodeYuv420sp(yuv: array<int8>, argb: array<int>, width: int, height: int)
    requires width >= 0 && height >= 0
    requires argb.Length >= width * height
    requires yuv.Length >= RequiredYuvSize(width, height)
    modifies yuv
    ensures forall k :: 0 <= k < width * height ==> yuv[k] == YByte(argb[k])
    ensures forall p :: 0 <= p < ChromaBytes(width, height) ==>
              yuv[width * height + p] == ChromaByte(argb[..], width, height, p)
    ensures forall k :: RequiredYuvSize(width, height) <= k < yuv.Length ==> yuv[k] == old(yuv[k])
  {
    ghost var pixels := argb[..];
    ghost var orig := yuv[..];
    ghost var luma, chroma := Planes(pixels, width, height);
    ProductIsMul(height, width);
    var frameSize := width * height;
    var yIndex := 0;
    var uvIndex := frameSize;
    var index := 0;
    var j := 0;
    while j < height
      invariant 0 <= j <= height
      invariant index == Product(j, width) && yIndex == index && yIndex <= frameSize
      invariant uvIndex == frameSize + ChromaBytes(width, j) && ChromaBytes(width, j) <= |chroma|
      invariant yuv[..yIndex] == luma[..yIndex]
      invariant yuv[frameSize..uvIndex] == chroma[..uvIndex - frameSize]
      invariant yuv[uvIndex..] == orig[uvIndex..]
    {
      RowEndInBound(j, width, height);
      ChromaBytesStep(width, j);
      ChromaBytesMonotone(width, j + 1, height);
      yIndex, uvIndex := EncodeRow(yuv, argb, pixels, orig, luma, chroma, width, height, frameSize,
                                   j, yIndex, uvIndex);
      index := yIndex;
      j := j + 1;
    }
    ghost var encoded := yuv[..];
    BufferEncodes(encoded, orig, pixels, luma, chroma, width, height, frameSize);
    assert argb[..] == pixels;
    forall p | 0 <= p < ChromaBytes(width, height)
      ensures yuv[width * height + p] == ChromaByte(argb[..], width, height, p)
    {
      assert yuv[width * height + p] == encoded[width * height + p] == ChromaByte(pixels, width, height, p);
    }
  }

  /** A buffer holding the luma plane, then the chroma plane, then what was
      there before, is the NV21 encoding of the pixels. */
  lemma BufferEncodes(s: seq<int8>, orig: seq<int8>, pixels: seq<int>, luma: seq<int8>, chroma: seq<int8>,
                      width: nat, height: nat, frameSize: nat)
    requires frameSize == PixelCount(width, height) && |pixels| >= width * height
    requires IsLumaPlane(pixels, luma) && PairsInPlace(pixels, chroma, width, height)
    requires frameSize + ChromaBytes(width, height) <= |s| == |orig|
    requires s[..frameSize] == luma[..frameSize]
    requires s[frameSize..frameSize + |chroma|] == chroma[..]
    requires s[frameSize + |chroma|..] == orig[frameSize + |chroma|..]
    ensures forall k :: 0 <= k < frameSize ==> s[k] == YByte(pixels[k])
    ensures forall p :: 0 <= p < ChromaBytes(width, height) ==>
              s[frameSize + p] == ChromaByte(pixels, width, height, p)
    ensures forall k :: frameSize + ChromaBytes(width, height) <= k < |s| ==> s[k] == orig[k]
  {
    LumaInBuffer(s, pixels, luma, frameSize);
    ChromaInBuffer(s, pixels, chroma, width, height, frameSize);
    TailInBuffer(s, orig, frameSize + |chroma|);
  }

  /** A buffer starting with the luma plane holds the Y byte of each pixel. */
  lemma LumaInBuffer(s: seq<int8>, pixels: seq<int>, luma: seq<int8>, frameSize: nat)
    requires frameSize <= |pixels| && frameSize <= |s| && IsLumaPlane(pixels, luma)
    requires s[..frameSize] == luma[..frameSize]
    ensures forall k :: 0 <= k < frameSize ==> s[k] == YByte(pixels[k])
  {
    forall k | 0 <= k < frameSize
      ensures s[k] == YByte(pixels[k])
    {
      assert s[k] == s[..frameSize][k];
    }
  }

  /** A buffer holding a plane of pairs in place at frameSize holds
      ChromaByte at every position of the chroma plane. */
  lemma ChromaInBuffer(s: seq<int8>, pixels: seq<int>, chroma: seq<int8>, width: nat, height: nat, frameSize: nat)
    requires |pixels| >= width * height && PairsInPlace(pixels, chroma, width, height)
    requires frameSize + |chroma| <= |s| && s[frameSize..frameSize + |chroma|] == chroma[..]
    ensures forall p :: 0 <= p < ChromaBytes(width, height) ==>
              s[frameSize + p] == ChromaByte(pixels, width, height, p)
  {
    forall p | 0 <= p < ChromaBytes(width, height)
      ensures s[frameSize + p] == ChromaByte(pixels, width, height, p)
    {
      PairsDetermineChroma(pixels, chroma, width, height, p);
      assert s[frameSize + p] == s[frameSize..frameSize + |chroma|][p];
    }
  }

  /** A buffer whose suffix from `from` is the old one's is unchanged there. */
  lemma TailInBuffer(s: seq<int8>, orig: seq<int8>, from: nat)
    requires from <= |s| == |orig| && s[from..] == orig[from..]
    ensures forall k :: from <= k < |s| ==> s[k] == orig[k]
  {
    forall k | from <= k < |s|
      ensures s[k] == orig[k]
    {
      assert s[k] == s[from..][k - from];
    }
  }

  /** Row j of encodeYUV420SP, entered with the counters where the rows
      before it left them; `orig` is the buffer before the encoder ran,
      `luma` and `chroma` the planes it is to hold. */
  method EncodeRow(yuv: array<int8>, argb: array<int>, ghost pixels: seq<int>, ghost orig: seq<int8>,
                   ghost luma: seq<int8>, ghost chroma: seq<int8>,
                   width: nat, height: nat, frameSize: nat, j: nat, yIndex0: nat, uvIndex0: nat)
      returns (yIndex: nat, uvIndex: nat)
    requires pixels == argb[..] && |orig| == yuv.Length
    requires j < height && frameSize == PixelCount(width, height)
    requires IsLumaPlane(pixels, luma) && PairsInPlace(pixels, chroma, width, height)
    requires yIndex0 == Product(j, width) && yIndex0 + width <= frameSize
    requires uvIndex0 == frameSize + ChromaBytes(width, j) && frameSize + |chroma| <= yuv.Length
    requires ChromaBytes(width, j) + (if j % 2 == 0 then 2 * Half(width) else 0) <= |chroma|
    requires yuv[..yIndex0] == luma[..yIndex0]
    requires yuv[frameSize..uvIndex0] == chroma[..uvIndex0 - frameSize]
    requires yuv[uvIndex0..] == orig[uvIndex0..]
    modifies yuv
    ensures yIndex == yIndex0 + width
    ensures uvIndex == uvIndex0 + (if j % 2 == 0 then 2 * Half(width) else 0)
    ensures yuv[..yIndex] == luma[..yIndex]
    ensures yuv[frameSize..uvIndex] == chroma[..uvIndex - frameSize]
    ensures yuv[uvIndex..] == orig[uvIndex..]
  {
    yIndex := yIndex0;
    uvIndex := uvIndex0;
    var index := yIndex0;
    var i := 0;
    while i < width
      invariant 0 <= i <= width
      invariant index == yIndex0 + i && yIndex == index
      invariant uvIndex == uvIndex0 + (if j % 2 == 0 then 2 * Half(i) else 0)
      invariant uvIndex <= frameSize + |chroma|
      invariant yuv[..yIndex] == luma[..yIndex]
      invariant yuv[frameSize..uvIndex] == chroma[..uvIndex - frameSize]
      invariant yuv[uvIndex..] == orig[uvIndex..]
    {
      HalfStep(i);
      HalfMonotone(i + 1, width);
      if j % 2 == 0 {
        EvenRowParity(j, width, i);
        assert uvIndex == frameSize + ChromaBytes(width, j) + 2 * Half(i);
      }
      assert index == Product(j, width) + i && index < frameSize;
      yIndex, uvIndex := EncodePixel(yuv, argb, pixels, orig, luma, chroma, width, height, frameSize,
                                     j, i, index, uvIndex);
      index := index + 1;
      i := i + 1;
    }
  }

  /** One pass of the inner loop of encodeYUV420SP: the Y byte of pixel
      `index`, then its V and U bytes if row and index are even. */
  method EncodePixel(yuv: array<int8>, argb: array<int>, ghost pixels: seq<int>, ghost orig: seq<int8>,
                     ghost luma: seq<int8>, ghost chroma: seq<int8>,
                     width: nat, height: nat, frameSize: nat, j: nat, i: nat, index: nat, uvIndex0: nat)
      returns (yIndex: nat, uvIndex: nat)
    requires pixels == argb[..] && |orig| == yuv.Length
    requires j < height && i < width && frameSize == PixelCount(width, height)
    requires IsLumaPlane(pixels, luma) && PairsInPlace(pixels, chroma, width, height)
    requires index == Product(j, width) + i && index < frameSize <= uvIndex0
    requires j % 2 == 0 ==> uvIndex0 == frameSize + ChromaBytes(width, j) + 2 * Half(i)
    requires frameSize + |chroma| <= yuv.Length && uvIndex0 - frameSize <= |chroma|
    requires j % 2 == 0 && index % 2 == 0 ==> uvIndex0 + 2 <= frameSize + |chroma|
    requires yuv[..index] == luma[..index]
    requires yuv[frameSize..uvIndex0] == chroma[..uvIndex0 - frameSize]
    requires yuv[uvIndex0..] == orig[uvIndex0..]
    modifies yuv
    ensures yIndex == index + 1
    ensures uvIndex == uvIndex0 + (if j % 2 == 0 && index % 2 == 0 then 2 else 0)
    ensures yuv[..yIndex] == luma[..yIndex]
    ensures yuv[frameSize..uvIndex] == chroma[..uvIndex - frameSize]
    ensures yuv[uvIndex..] == orig[uvIndex..]
  {
    var px := argb[index];
    StoreLuma(yuv, luma, chroma, orig, frameSize, uvIndex0, index, YByte(px));
    yIndex := index + 1;
    uvIndex := uvIndex0;
    if j % 2 == 0 && index % 2 == 0 {
      EvenRowParity(j, width, i);
      HalfOfEven(i);
      ChromaWriteSlot(width, height, j, i);
      assert uvIndex - frameSize == ChromaPos(width, height, j, i);
      assert index == Flat(width, height, j, i);
      assert px == pixels[index];
      assert chroma[uvIndex - frameSize] == VByte(px) && chroma[uvIndex - frameSize + 1] == UByte(px);
      StoreChroma(yuv, luma, chroma, orig, frameSize, yIndex, uvIndex, VByte(px), UByte(px));
      uvIndex := uvIndex + 2;
    }
  }

  /** `yuv420sp[yIndex++] = y`, with y the next byte of the Y plane. */
  method StoreLuma(yuv: array<int8>, ghost luma: seq<int8>, ghost chroma: seq<int8>, ghost orig: seq<int8>,
                   frameSize: nat, uvIndex: nat, yIndex: nat, y: int8)
    requires yIndex < frameSize <= uvIndex <= yuv.Length == |orig|
    requires yIndex < |luma| && uvIndex - frameSize <= |chroma| && y == luma[yIndex]
    requires yuv[..yIndex] == luma[..yIndex]
    requires yuv[frameSize..uvIndex] == chroma[..uvIndex - frameSize]
    requires yuv[uvIndex..] == orig[uvIndex..]
    modifies yuv
    ensures yuv[..yIndex + 1] == luma[..yIndex + 1]
    ensures yuv[frameSize..uvIndex] == chroma[..uvIndex - frameSize]
    ensures yuv[uvIndex..] == orig[uvIndex..]
  {
    ghost var before := yuv[..];
    yuv[yIndex] := y;
    assert yuv[..] == before[yIndex := y];
    ExtendPrefix(before, luma, yIndex);
    WriteOutside(before, yIndex, y, frameSize, uvIndex);
  }

  /** `yuv420sp[uvIndex++] = v; yuv420sp[uvIndex++] = u`, with v and u the
      next two bytes of the chroma plane. */
  method StoreChroma(yuv: array<int8>, ghost luma: seq<int8>, ghost chroma: seq<int8>, ghost orig: seq<int8>,
                     frameSize: nat, yIndex: nat, uvIndex: nat, v: int8, u: int8)
    requires yIndex <= frameSize <= uvIndex && uvIndex + 2 <= yuv.Length == |orig|
    requires yIndex <= |luma| && uvIndex + 2 - frameSize <= |chroma|
    requires v == chroma[uvIndex - frameSize] && u == chroma[uvIndex - frameSize + 1]
    requires yuv[..yIndex] == luma[..yIndex]
    requires yuv[frameSize..uvIndex] == chroma[..uvIndex - frameSize]
    requires yuv[uvIndex..] == orig[uvIndex..]
    modifies yuv
    ensures yuv[..yIndex] == luma[..yIndex]
    ensures yuv[frameSize..uvIndex + 2] == chroma[..uvIndex + 2 - frameSize]
    ensures yuv[uvIndex + 2..] == orig[uvIndex + 2..]
  {
    ghost var mid := yuv[..];
    yuv[uvIndex] := v;
    yuv[uvIndex + 1] := u;
    assert yuv[..] == mid[uvIndex := v][uvIndex + 1 := u];
    ExtendSlice(mid, orig, chroma, frameSize, uvIndex - frameSize);
    WriteOutside(mid, uvIndex, v, 0, yIndex);
    WriteOutside(mid[uvIndex := v], uvIndex + 1, u, 0, yIndex);
  }

  /** getYuvBytes as written: the buffer holds three halves of a pixel
      count. */
  function YuvBufferAsWritten(width: nat, height: nat): nat
  {
    width * height * 3 / 2
  }

  /** For even dimensions the buffer of getYuvBytes is exactly what the
      encoder writes. */
  lemma EvenFrameFillsBuffer(width: nat, height: nat)
    requires width % 2 == 0 && height % 2 == 0
    ensures YuvBufferAsWritten(width, height) == RequiredYuvSize(width, height)
    ensures ChromaBytes(width, height) == width * height / 2
  {
    ProductIsMul(Half(height), Half(width));
    var a := width / 2;
    var b := height / 2;
    assert Half(width) == a && Half(height) == b;
    assert width * height == 4 * (a * b);
    assert width * height * 3 == 2 * (6 * (a * b));
  }

  /** For an odd width or height the buffer of getYuvBytes is shorter than
      what the encoder writes, so the last chroma write leaves the array. */
  lemma AsWrittenBufferTooSmall(width: nat, height: nat)
    requires width >= 1 && height >= 1 && (width % 2 == 1 || height % 2 == 1)
    ensures YuvBufferAsWritten(width, height) < RequiredYuvSize(width, height)
  {
    ProductIsMul(Half(height), Half(width));
    RoundedUpCover(width, height);
    HalfOfFrameBelow(width * height, Half(height) * Half(width));
  }

  /** Rounding an odd side up makes the 2 x 2 blocks cover more than the
      frame. */
  lemma RoundedUpCover(width: nat, height: nat)
    requires width >= 1 && height >= 1 && (width % 2 == 1 || height % 2 == 1)
    ensures width * height < 4 * (Half(height) * Half(width))
  {
    var a := 2 * Half(width);
    var b := 2 * Half(height);
    assert a >= width && b >= height && (a > width || b > height);
    assert 4 * (Half(height) * Half(width)) == a * b;
    MulMonotone(height, width, a);
    MulMonotone(a, height, b);
    if a > width {
      MulMonotone(height, width + 1, a);
    } else {
      MulMonotone(a, height + 1, b);
    }
  }

  lemma HalfOfFrameBelow(pixels: nat, blocks: nat)
    requires pixels < 4 * blocks
    ensures pixels * 3 / 2 < pixels + 2 * blocks
  {
  }

  /** The 1 x 1 frame: getYuvBytes allocates one byte, the encoder writes
      three. */
  lemma SinglePixelOverflows()
    ensures YuvBufferAsWritten(1, 1) == 1 && RequiredYuvSize(1, 1) == 3
  {
  }

  /** getYuvBytes with the buffer sized by what the encoder writes; the
      rotated bitmap's pixels come in as `argb`. */
  method GetYuvBytes(argb: seq<int>, width: nat, height: nat) returns (yuv: array<int8>)
    requires |argb| == width * height
    ensures fresh(yuv) && yuv.Length == RequiredYuvSize(width, height)
    ensures forall k :: 0 <= k < width * height ==> yuv[k] == YByte(argb[k])
    ensures forall p :: 0 <= p < ChromaBytes(width, height) ==>
              yuv[width * height + p] == ChromaByte(argb, width, height, p)
  {
    var pixels := new int[width * height](k requires 0 <= k < width * height => argb[k]);
    yuv := new int8[RequiredYuvSize(width, height)](_ => 0);
    EncodeYuv420sp(yuv, pixels, width, height);
    assert pixels[..] == argb;
  }
}
