/**
 Render360TiledOffset2D: where a texel of an uncompressed Xenos texture lies, as an index in
 units of one block. 32-bit words are naturals that wrap explicitly; a mask of neighbouring bits
 is written with / and %.
 */
module TiledTexture {
  import opened Options

  const WORD := 0x1_0000_0000
  const MAX_EXTENT := 8192

  function Wrap(v: nat): nat {
    v % WORD
  }

  /** v << n, before any wrapping, for the shifts by log2 of the unit size. */
  function Times(v: nat, n: nat): nat
    requires n <= 4
  {
    if n == 0 then v else if n == 1 then 2 * v else if n == 2 then 4 * v else if n == 3 then 8 * v else 16 * v
  }

  /** v >> n. */
  function Over(v: nat, n: nat): nat
    requires n <= 4
  {
    if n == 0 then v else if n == 1 then v / 2 else if n == 2 then v / 4 else if n == 3 then v / 8 else v / 16
  }

  /** 32x32 tiles in a row of the texture. */
  function TilesAcross(pitch: nat): nat {
    (pitch + 31) / 32
  }

  function TileIndex(x: nat, y: nat, pitch: nat): nat {
    x / 32 + y / 32 * TilesAcross(pitch)
  }

  /** (x & 7) + ((y & 0xE) << 2). */
  function Micro(x: nat, y: nat): nat {
    x % 8 + y / 2 % 8 * 8
  }

  /** Bit 4 is made room for and holds the low bit of y. */
  function Inner(macro: nat, micro: nat, y: nat): nat {
    macro + micro / 16 * 32 + micro % 16 + y % 2 * 16
  }

  /** The bank and pipe bits: three more bits of x and y go between the bits of the offset. */
  function Outer(offset: nat, x: nat, y: nat): nat {
    offset / 512 * 4096 + y / 16 % 2 * 2048 + offset / 64 % 8 * 256 + (y / 8 % 2 * 2 + x / 8) % 4 * 64 + offset % 64
  }

  /** The byte offset of a texel in the texture, given the index of its tile. */
  function ByteOffset(tile: nat, x: nat, y: nat, log2: nat): nat
    requires log2 <= 4
  {
    Outer(Inner(Times(tile, log2) * 128, Times(Micro(x, y), log2), y), x, y)
  }

  /** The function as written: None is UINT32_MAX, and every sum and product wraps. */
  function TiledOffset2D(x: nat, y: nat, pitch: nat, log2: nat): Option<nat> {
    if pitch == 0 || pitch > MAX_EXTENT || x >= pitch || log2 > 4 then None
    else
      var macro := Wrap(Times(Wrap(TileIndex(x, y, pitch)), log2) * 128);
      var offset := Wrap(Inner(macro, Times(Micro(x, y), log2), y));
      Some(Over(Wrap(Outer(offset, x, y)), log2))
  }

  lemma Multiple(d: int, k: int)
    requires d != 0 && k > 0
    ensures d * k >= k || d * k + k <= 0
  {
    if d > 0 {
      assert (d - 1) * k >= 0;
    } else {
      assert (-d - 1) * k >= 0;
    }
  }

  /** Quotient and remainder, by what they must add up to. */
  lemma Euclid(n: nat, k: nat, q: nat, r: nat)
    requires n == q * k + r && r < k
    ensures n / k == q && n % k == r
  {
    var d := n / k - q;
    assert n == n / k * k + n % k;
    assert d * k == n / k * k - q * k;
    if d != 0 {
      Multiple(d, k);
    }
  }

  // ---- below 8192 nothing wraps ----

  lemma ProductBound(b: nat, w: nat)
    requires b <= 255 && w <= 256
    ensures b * w <= 255 * 256
  {
    assert b * (256 - w) >= 0;
    assert b * w == b * 256 - b * (256 - w);
  }

  lemma TileIndexBound(x: nat, y: nat, pitch: nat)
    requires x < pitch <= MAX_EXTENT && y < MAX_EXTENT
    ensures x / 32 < TilesAcross(pitch) <= 256
    ensures TileIndex(x, y, pitch) < 0x1_0000
  {
    ProductBound(y / 32, TilesAcross(pitch));
  }

  lemma OffsetBound(tile: nat, x: nat, y: nat, log2: nat)
    requires log2 <= 4 && tile < 0x1_0000
    ensures Times(tile, log2) * 128 < WORD
    ensures Inner(Times(tile, log2) * 128, Times(Micro(x, y), log2), y) < 0x800_0000 + 0x1000
    ensures ByteOffset(tile, x, y, log2) < WORD
  {
    var micro := Times(Micro(x, y), log2);
    assert Micro(x, y) < 64;
    assert micro < 1024;
    var offset := Inner(Times(tile, log2) * 128, micro, y);
    assert offset / 512 <= 0x800_0000 / 512 + 8;
  }

  lemma NothingWraps(x: nat, y: nat, pitch: nat, log2: nat)
    requires x < pitch <= MAX_EXTENT && y < MAX_EXTENT && log2 <= 4
    ensures TiledOffset2D(x, y, pitch, log2) == Some(Over(ByteOffset(TileIndex(x, y, pitch), x, y, log2), log2))
  {
    hide TileIndex, Outer, Inner, Times, Micro, Over;
    TileIndexBound(x, y, pitch);
    OffsetBound(TileIndex(x, y, pitch), x, y, log2);
  }

  // ---- the bits can be read back ----

  /** The three fields of an outer sum. */
  lemma OuterFields(offset: nat, x: nat, y: nat)
    ensures var s := Outer(offset, x, y);
            && InnerOf(s) == offset
            && s / 2048 % 2 == y / 16 % 2
            && s / 64 % 4 == (y / 8 % 2 * 2 + x / 8) % 4
  {
    var a, b, c, d, e := offset / 512, y / 16 % 2, offset / 64 % 8, (y / 8 % 2 * 2 + x / 8) % 4, offset % 64;
    OuterDigits(a, b, c, d, e);
    OffsetDigits(offset);
  }

  lemma OffsetDigits(offset: nat)
    ensures offset == offset / 512 * 512 + offset / 64 % 8 * 64 + offset % 64
  {
    var q := offset / 64;
    Euclid(offset, 512, q / 8, q % 8 * 64 + offset % 64);
  }

  lemma OuterDigits(a: nat, b: nat, c: nat, d: nat, e: nat)
    requires b < 2 && c < 8 && d < 4 && e < 64
    ensures var s := a * 4096 + b * 2048 + c * 256 + d * 64 + e;
            s / 4096 == a && s / 2048 % 2 == b && s / 256 % 8 == c && s / 64 % 4 == d && s % 64 == e
  {
    var s := a * 4096 + b * 2048 + c * 256 + d * 64 + e;
    Euclid(s, 4096, a, b * 2048 + c * 256 + d * 64 + e);
    Euclid(s, 2048, a * 2 + b, c * 256 + d * 64 + e);
    Euclid(s, 256, a * 16 + b * 8 + c, d * 64 + e);
    Euclid(s, 64, a * 64 + b * 32 + c * 4 + d, e);
    Euclid(a * 2 + b, 2, a, b);
    Euclid(a * 16 + b * 8 + c, 8, a * 2 + b, c);
    Euclid(a * 64 + b * 32 + c * 4 + d, 4, a * 16 + b * 8 + c, d);
  }

  /** The tile, the micro offset and the low bit of y from the inner sum. */
  lemma InnerFields(tile: nat, micro: nat, y: nat, log2: nat)
    requires log2 <= 4 && micro < Times(64, log2)
    ensures var o := Inner(Times(tile, log2) * 128, micro, y);
            && Over(o / 128, log2) == tile
            && var low := o - Times(tile, log2) * 128;
            && low < Times(128, log2)
            && low / 32 * 16 + low % 16 == micro && low / 16 % 2 == y % 2
  {
    var a, b, c := micro / 16, y % 2, micro % 16;
    var low := a * 32 + b * 16 + c;
    Euclid(low, 32, a, b * 16 + c);
    Euclid(low, 16, a * 2 + b, c);
    Euclid(a * 2 + b, 2, a, b);
  }

  // ---- the inverse ----

  /** A texel by its tile and its place in the tile. */
  datatype Texel = Texel(tile: nat, x: nat, y: nat)

  /** The offset before the bank and pipe bits went in. */
  function InnerOf(s: nat): nat {
    s / 4096 * 512 + s / 256 % 8 * 64 + s % 64
  }

  /** The coordinates in a tile, from the six micro bits, the low bit of y and the two outer fields. */
  function Coordinates(tile: nat, micro: nat, y0: nat, pipe: nat, bank: nat): Texel {
    Texel(tile, micro % 8 + (pipe + 2 * (micro / 32 % 2)) % 4 * 8, y0 + micro / 8 % 8 * 2 + bank * 16)
  }

  function Untile(index: nat, log2: nat): Texel
    requires log2 <= 4
  {
    var s := Times(index, log2);
    var offset := InnerOf(s);
    var tile := Over(offset / 128, log2);
    var low := if offset >= Times(tile, log2) * 128 then offset - Times(tile, log2) * 128 else 0;
    Coordinates(tile, Over(low / 32 * 16 + low % 16, log2), low / 16 % 2, s / 64 % 4, s / 2048 % 2)
  }

  lemma OverTimes(v: nat, log2: nat)
    requires log2 <= 4
    ensures Over(Times(v, log2), log2) == v
  {
  }

  lemma OuterLow(offset: nat, x: nat, y: nat)
    ensures Outer(offset, x, y) % 16 == offset % 16
  {
    var q, e := offset / 16, offset % 16;
    Euclid(offset, 64, q / 4, q % 4 * 16 + e);
    var high := offset / 512 * 256 + y / 16 % 2 * 128 + offset / 64 % 8 * 16 + (y / 8 % 2 * 2 + x / 8) % 4 * 4 + q % 4;
    Euclid(high * 16 + e, 16, high, e);
  }

  lemma InnerLow(m: nat, micro: nat, y: nat)
    ensures Inner(m * 128, micro, y) % 16 == micro % 16
  {
    var high := m * 8 + micro / 16 * 2 + y % 2;
    Euclid(high * 16 + micro % 16, 16, high, micro % 16);
  }

  lemma ShiftedLow(v: nat, s: nat, log2: nat)
    requires log2 <= 4 && s % 16 == Times(v, log2) % 16
    ensures Times(Over(s, log2), log2) == s
  {
    var d := s / 16 - Times(v, log2) / 16;
    assert s == Times(v, log2) + 16 * d;
    if log2 == 1 {
      Euclid(s, 2, v + 8 * d, 0);
    } else if log2 == 2 {
      Euclid(s, 4, v + 4 * d, 0);
    } else if log2 == 3 {
      Euclid(s, 8, v + 2 * d, 0);
    } else if log2 == 4 {
      Euclid(s, 16, v + d, 0);
    }
  }

  /** The final right shift drops no set bit. */
  lemma ShiftLosesNothing(tile: nat, x: nat, y: nat, log2: nat)
    requires log2 <= 4
    ensures Times(Over(ByteOffset(tile, x, y, log2), log2), log2) == ByteOffset(tile, x, y, log2)
  {
    hide Outer, Inner, Micro, Times, Over;
    var micro := Times(Micro(x, y), log2);
    OuterLow(Inner(Times(tile, log2) * 128, micro, y), x, y);
    InnerLow(Times(tile, log2), micro, y);
    ShiftedLow(Micro(x, y), ByteOffset(tile, x, y, log2), log2);
  }

  lemma MicroFields(x: nat, y: nat)
    ensures Micro(x, y) < 64 && Micro(x, y) % 8 == x % 8 && Micro(x, y) / 8 == y / 2 % 8
  {
  }

  lemma XBits(x: nat, k: nat)
    requires k < 2
    ensures x % 32 == x % 8 + ((k * 2 + x / 8) % 4 + 2 * k) % 4 * 8
  {
    var p := x / 8;
    Euclid(x, 32, p / 4, p % 4 * 8 + x % 8);
    var r := (k * 2 + p) % 4;
    Euclid(r + 2 * k, 4, p / 4 + k - (k * 2 + p) / 4, p % 4);
  }

  lemma HalfBits(h: nat)
    ensures h % 8 / 4 == h / 4 % 2
    ensures h % 16 == h % 8 + h / 8 % 2 * 8
  {
    var q, r := h / 8, h % 8;
    Euclid(h, 4, q * 2 + r / 4, r % 4);
    Euclid(h / 4, 2, q, r / 4);
    Euclid(h, 16, q / 2, q % 2 * 8 + r);
  }

  lemma YBits(y: nat)
    ensures y / 2 % 8 / 4 == y / 8 % 2
    ensures y % 32 == y % 2 + y / 2 % 8 * 2 + y / 16 % 2 * 16
  {
    var h, b := y / 2, y % 2;
    HalfBits(h);
    Euclid(y, 8, h / 4, h % 4 * 2 + b);
    Euclid(y, 16, h / 8, h % 8 * 2 + b);
    Euclid(y, 32, h / 16, h % 16 * 2 + b);
  }

  lemma CoordinatesOfFields(tile: nat, x: nat, y: nat)
    ensures Coordinates(tile, Micro(x, y), y % 2, (y / 8 % 2 * 2 + x / 8) % 4, y / 16 % 2) == Texel(tile, x % 32, y % 32)
  {
    hide Micro;
    MicroFields(x, y);
    YBits(y);
    BankOfMicro(Micro(x, y));
    XBits(x, y / 8 % 2);
  }

  /** Every texel is found again from its index: its tile and its place in the tile. */
  lemma UntileTile(tile: nat, x: nat, y: nat, log2: nat)
    requires log2 <= 4
    ensures Untile(Over(ByteOffset(tile, x, y, log2), log2), log2) == Texel(tile, x % 32, y % 32)
  {
    hide Outer, Inner, Micro, Times, Over, Coordinates;
    ShiftLosesNothing(tile, x, y, log2);
    MicroFields(x, y);
    var micro := Times(Micro(x, y), log2);
    assert micro < Times(64, log2) by { TimesGrows(Micro(x, y), 64, log2); }
    OuterFields(Inner(Times(tile, log2) * 128, micro, y), x, y);
    InnerFields(tile, micro, y, log2);
    OverTimes(Micro(x, y), log2);
    CoordinatesOfFields(tile, x, y);
  }

  lemma TimesGrows(a: nat, b: nat, log2: nat)
    requires a < b && log2 <= 4
    ensures Times(a, log2) < Times(b, log2)
  {
  }

  // ---- the promises ----

  lemma RowBefore(b: nat, k: nat, w: nat)
    ensures (b + 1 + k) * w == b * w + w + k * w && k * w >= 0
  {
  }

  lemma RowsAreApart(a: nat, b: nat, c: nat, d: nat, w: nat)
    requires a < w && c < w && a + b * w == c + d * w
    ensures a == c && b == d
  {
    if b < d {
      RowBefore(b, d - b - 1, w);
    } else if d < b {
      RowBefore(d, b - d - 1, w);
    }
  }

  /** No two texels of a texture share an index, for every pitch and unit size. */
  lemma TiledOffsetIsInjective(x: nat, y: nat, x': nat, y': nat, pitch: nat, log2: nat)
    requires x < pitch <= MAX_EXTENT && x' < pitch && y < MAX_EXTENT && y' < MAX_EXTENT && log2 <= 4
    ensures TiledOffset2D(x, y, pitch, log2) == TiledOffset2D(x', y', pitch, log2) ==> x == x' && y == y'
  {
    hide Untile, ByteOffset, Over, TiledOffset2D;
    NothingWraps(x, y, pitch, log2);
    NothingWraps(x', y', pitch, log2);
    UntileTile(TileIndex(x, y, pitch), x, y, log2);
    UntileTile(TileIndex(x', y', pitch), x', y', log2);
    if TileIndex(x, y, pitch) == TileIndex(x', y', pitch) {
      RowsAreApart(x / 32, y / 32, x' / 32, y' / 32, TilesAcross(pitch));
    }
  }

  lemma OuterRange(offset: nat, x: nat, y: nat)
    ensures offset / 512 * 4096 <= Outer(offset, x, y) < offset / 512 * 4096 + 4096
  {
  }

  lemma InnerRange(m: nat, micro: nat, y: nat, log2: nat)
    requires log2 <= 4 && micro < Times(64, log2)
    ensures m * 128 <= Inner(m * 128, micro, y) < m * 128 + Times(128, log2)
  {
    assert micro / 16 * 32 + micro % 16 + 16 < micro / 16 * 32 + 32;
  }

  /** An offset in a tile's part, scaled: 512 bytes of offset are 4096 bytes of texture. */
  lemma ScaledRange(tile: nat, offset: nat, s: nat, log2: nat)
    requires 2 <= log2 <= 4
    requires Times(tile, log2) * 128 <= offset < Times(tile, log2) * 128 + Times(128, log2)
    requires offset / 512 * 4096 <= s < offset / 512 * 4096 + 4096
    ensures Times(1024 * tile, log2) <= s < Times(1024 * tile + 1024, log2)
  {
    var q := offset / 512;
    if log2 == 2 {
      assert q == tile;
    } else if log2 == 3 {
      assert 2 * tile <= q < 2 * tile + 2;
    } else {
      assert 4 * tile <= q < 4 * tile + 4;
    }
  }

  lemma OverRange(a: nat, s: nat, b: nat, log2: nat)
    requires log2 <= 4 && Times(a, log2) <= s < Times(b, log2)
    ensures a <= Over(s, log2) < b
  {
  }

  /** From 4-byte units on, the texels of a tile have indices in the tile's own 1024. */
  lemma TileIsContiguous(tile: nat, x: nat, y: nat, log2: nat)
    requires 2 <= log2 <= 4
    ensures var index := Over(ByteOffset(tile, x, y, log2), log2);
            1024 * tile <= index < 1024 * tile + 1024
  {
    hide Outer, Inner, Micro, Times, Over;
    var micro := Times(Micro(x, y), log2);
    MicroFields(x, y);
    TimesGrows(Micro(x, y), 64, log2);
    var offset := Inner(Times(tile, log2) * 128, micro, y);
    InnerRange(Times(tile, log2), micro, y, log2);
    OuterRange(offset, x, y);
    ScaledRange(tile, offset, ByteOffset(tile, x, y, log2), log2);
    OverRange(1024 * tile, ByteOffset(tile, x, y, log2), 1024 * tile + 1024, log2);
  }

  // ---- every index is some texel's ----

  /** The binary digits of a byte offset, in the groups the outer sum makes. */
  lemma SplitBytes(s: nat)
    ensures s == s / 4096 * 4096 + s / 2048 % 2 * 2048 + s / 256 % 8 * 256 + s / 64 % 4 * 64 + s % 64
  {
    var q, e := s / 64, s % 64;
    var r, d := q / 4, q % 4;
    Euclid(s, 256, r, d * 64 + e);
    Euclid(s, 2048, r / 8, r % 8 * 256 + d * 64 + e);
    Euclid(s, 4096, r / 16, r % 16 * 256 + d * 64 + e);
    HalfBits(r);
  }

  lemma InnerOfDigits(s: nat)
    ensures InnerOf(s) / 512 == s / 4096 && InnerOf(s) / 64 % 8 == s / 256 % 8 && InnerOf(s) % 64 == s % 64
  {
    var a, c, e := s / 4096, s / 256 % 8, s % 64;
    Euclid(InnerOf(s), 64, a * 8 + c, e);
    Euclid(InnerOf(s), 512, a, c * 64 + e);
    Euclid(a * 8 + c, 8, a, c);
  }

  lemma OuterRebuilt(s: nat, x: nat, y: nat)
    requires y / 16 % 2 == s / 2048 % 2 && (y / 8 % 2 * 2 + x / 8) % 4 == s / 64 % 4
    ensures Outer(InnerOf(s), x, y) == s
  {
    hide InnerOf;
    InnerOfDigits(s);
    SplitBytes(s);
  }

  /** The six bits and the low bit of y make the low part of an offset again. */
  lemma LowRebuilt(low: nat)
    ensures var m := low / 32 * 16 + low % 16;
            m / 16 * 32 + m % 16 + low / 16 % 2 * 16 == low
  {
    var h, e := low / 16, low % 16;
    Euclid(low, 32, h / 2, h % 2 * 16 + e);
    Euclid(low / 32 * 16 + e, 16, low / 32, e);
  }

  lemma CoordinateX(micro: nat, pipe: nat)
    requires micro < 64 && pipe < 4
    ensures var x := micro % 8 + (pipe + 2 * (micro / 32 % 2)) % 4 * 8;
            x < 32 && x % 8 == micro % 8 && (micro / 32 * 2 + x / 8) % 4 == pipe
  {
    var k := (pipe + 2 * (micro / 32 % 2)) % 4;
    Euclid(k * 8 + micro % 8, 8, k, micro % 8);
    PipeBack(pipe, micro / 32);
  }

  lemma CoordinateY(m: nat, y0: nat, bank: nat)
    requires m < 8 && y0 < 2 && bank < 2
    ensures var y := y0 + m * 2 + bank * 16;
            y < 32 && y % 2 == y0 && y / 2 % 8 == m && y / 8 % 2 == m / 4 && y / 16 == bank
  {
    var y := y0 + m * 2 + bank * 16;
    Euclid(y, 2, m + bank * 8, y0);
    Euclid(y, 8, m / 4 + bank * 2, m % 4 * 2 + y0);
    Euclid(y, 16, bank, m * 2 + y0);
    Euclid(y / 2, 8, bank, m);
    Euclid(m / 4 + bank * 2, 2, bank, m / 4);
  }

  lemma MicroBack(x: nat, y: nat, micro: nat)
    requires x % 8 == micro % 8 && y / 2 % 8 == micro / 8
    ensures Micro(x, y) == micro
  {
  }

  lemma BankOfMicro(micro: nat)
    requires micro < 64
    ensures micro / 8 < 8 && micro / 8 / 4 == micro / 32 && micro / 32 % 2 == micro / 32
  {
  }

  lemma CoordinateFields(tile: nat, micro: nat, y0: nat, pipe: nat, bank: nat)
    requires micro < 64 && y0 < 2 && pipe < 4 && bank < 2
    ensures var t := Coordinates(tile, micro, y0, pipe, bank);
            && t.x < 32 && t.y < 32 && Micro(t.x, t.y) == micro && t.y % 2 == y0
            && t.y / 16 % 2 == bank && (t.y / 8 % 2 * 2 + t.x / 8) % 4 == pipe
  {
    hide Micro;
    BankOfMicro(micro);
    CoordinateX(micro, pipe);
    CoordinateY(micro / 8, y0, bank);
    var t := Coordinates(tile, micro, y0, pipe, bank);
    MicroBack(t.x, t.y, micro);
  }

  lemma PipeBack(pipe: nat, k: nat)
    requires pipe < 4 && k < 2
    ensures (k * 2 + (pipe + 2 * k) % 4) % 4 == pipe
  {
  }

  /** The parts Untile takes an index apart into. */
  lemma UntileParts(s: nat, v: nat, log2: nat)
    requires log2 <= 4 && s == Times(v, log2)
    ensures var offset := InnerOf(s);
            var tile := Over(offset / 128, log2);
            && Times(tile, log2) * 128 <= offset < Times(tile, log2) * 128 + Times(128, log2)
            && var low := offset - Times(tile, log2) * 128;
            && var m := low / 32 * 16 + low % 16;
            && Over(m, log2) < 64 && Times(Over(m, log2), log2) == m
  {
    hide InnerOf, Times, Over;
    var offset := InnerOf(s);
    InnerOfDigits(s);
    var tile := Over(offset / 128, log2);
    OffsetInTile(offset, log2);
    var k := Times(tile, log2);
    var low := offset - k * 128;
    var m := low / 32 * 16 + low % 16;
    SameLowBits(s, offset, k);
    Euclid(m, 16, low / 32, low % 16);
    ShiftedLow(v, m, log2);
    MicroRange(low, log2);
  }

  lemma SameLowBits(s: nat, offset: nat, k: nat)
    requires offset % 64 == s % 64 && k * 128 <= offset
    ensures (offset - k * 128) % 16 == s % 16
  {
    var a, b, r := offset / 64, s / 64, s % 64;
    Euclid(offset, 16, a * 4 + r / 16, r % 16);
    Euclid(s, 16, b * 4 + r / 16, r % 16);
    Euclid(offset - k * 128, 16, offset / 16 - k * 8, offset % 16);
  }

  lemma OffsetInTile(offset: nat, log2: nat)
    requires log2 <= 4
    ensures var tile := Over(offset / 128, log2);
            Times(tile, log2) * 128 <= offset < Times(tile, log2) * 128 + Times(128, log2)
  {
  }

  lemma MicroRange(low: nat, log2: nat)
    requires log2 <= 4 && low < Times(128, log2)
    ensures Over(low / 32 * 16 + low % 16, log2) < 64
  {
    var m := low / 32 * 16 + low % 16;
    assert low / 32 < Times(4, log2);
    assert m < Times(64, log2);
  }

  /** And back: the texel an index is taken apart into has that index. So tiles and indices match one to one. */
  lemma TileUntile(index: nat, log2: nat)
    requires log2 <= 4
    ensures var t := Untile(index, log2);
            t.x < 32 && t.y < 32 && Over(ByteOffset(t.tile, t.x, t.y, log2), log2) == index
  {
    hide Outer, Inner, Micro, Coordinates, Times, Over, InnerOf;
    var s := Times(index, log2);
    UntileParts(s, index, log2);
    var offset := InnerOf(s);
    var tile := Over(offset / 128, log2);
    var low := offset - Times(tile, log2) * 128;
    var micro := Over(low / 32 * 16 + low % 16, log2);
    CoordinateFields(tile, micro, low / 16 % 2, s / 64 % 4, s / 2048 % 2);
    var t := Untile(index, log2);
    assert t == Coordinates(tile, micro, low / 16 % 2, s / 64 % 4, s / 2048 % 2);
    assert Inner(Times(tile, log2) * 128, Times(micro, log2), t.y) == offset by {
      InnerRebuilt(Times(tile, log2) * 128, low, t.y);
    }
    OuterRebuilt(s, t.x, t.y);
    assert t.tile == tile by { CoordinatesTile(tile, micro, low / 16 % 2, s / 64 % 4, s / 2048 % 2); }
    OverTimes(index, log2);
  }

  lemma CoordinatesTile(tile: nat, micro: nat, y0: nat, pipe: nat, bank: nat)
    ensures Coordinates(tile, micro, y0, pipe, bank).tile == tile
  {
  }

  lemma InnerRebuilt(macro: nat, low: nat, y: nat)
    requires y % 2 == low / 16 % 2
    ensures Inner(macro, low / 32 * 16 + low % 16, y) == macro + low
  {
    LowRebuilt(low);
  }

  /** From 4-byte units on, tile t holds exactly the indices 1024 t to 1024 t + 1023. */
  lemma TileHoldsItsIndices(index: nat, tile: nat, log2: nat)
    requires 2 <= log2 <= 4
    ensures 1024 * tile <= index < 1024 * tile + 1024 <==>
            exists x, y :: x < 32 && y < 32 && index == Over(ByteOffset(tile, x, y, log2), log2)
  {
    hide Untile, ByteOffset, Over;
    var t := Untile(index, log2);
    TileUntile(index, log2);
    TileIsContiguous(t.tile, t.x, t.y, log2);
    if x, y :| x < 32 && y < 32 && index == Over(ByteOffset(tile, x, y, log2), log2) {
      TileIsContiguous(tile, x, y, log2);
    }
  }
}
