/**
 Render360TiledOffset2D in the operators it is written with, on 32-bit words: masks, shifts, and sums
 and products that wrap. It is the function TiledTexture.dfy states with quotients and remainders.
 */
module TiledOffsetBits {
  import opened Options
  import opened TiledTexture

  // ---- 32-bit words ----

  /** a & b, from the lowest bit up. */
  function And(a: nat, b: nat): nat {
    if a == 0 || b == 0 then 0
    else
      var (p, q) := (a / 2, b / 2);
      (if a == 2 * p + 1 && b == 2 * q + 1 then 1 else 0) + 2 * And(p, q)
  }

  /** ~a. */
  function Not(a: nat): nat
    requires a < WORD
  {
    WORD - 1 - a
  }

  function Power(n: nat): (p: nat)
    ensures p > 0
  {
    if n == 0 then 1 else 2 * Power(n - 1)
  }

  /** v << n. */
  function Shl(v: nat, n: nat): nat {
    Wrap(v * Power(n))
  }

  /** v >> n. */
  function Shr(v: nat, n: nat): nat {
    if n == 0 then v else Shr(v / 2, n - 1)
  }

  function Add(a: nat, b: nat): nat {
    Wrap(a + b)
  }

  function Mul(a: nat, b: nat): nat {
    Wrap(a * b)
  }

  // ---- as it is written ----

  function MacroBits(x: nat, y: nat, pitch: nat, log2: nat): nat {
    var alignedWidth := And(Add(pitch, 31), Not(31));
    Shl(Add(Shr(x, 5), Mul(Shr(y, 5), Shr(alignedWidth, 5))), log2 + 7)
  }

  function MicroBits(x: nat, y: nat, log2: nat): nat {
    Shl(Add(And(x, 7), Shl(And(y, 0xE), 2)), log2)
  }

  function OffsetBits(macro: nat, micro: nat, y: nat): nat {
    Add(Add(Add(macro, Shl(And(micro, Not(0xF)), 1)), And(micro, 0xF)), Shl(And(y, 1), 4))
  }

  function SpreadBits(offset: nat, x: nat, y: nat): nat {
    Add(Add(Add(Add(Shl(And(offset, Not(0x1FF)), 3), Shl(And(y, 16), 7)),
                Shl(And(offset, 0x1C0), 2)),
            Shl(And(Add(Shr(And(y, 8), 2), Shr(x, 3)), 3), 6)),
        And(offset, 0x3F))
  }

  function TiledOffsetAsWritten(x: nat, y: nat, pitch: nat, log2: nat): Option<nat> {
    if pitch == 0 || pitch > MAX_EXTENT || x >= pitch || log2 > 4 then None
    else
      var offset := OffsetBits(MacroBits(x, y, pitch, log2), MicroBits(x, y, log2), y);
      Some(Shr(SpreadBits(offset, x, y), log2))
  }

  // ---- masks and shifts ----

  lemma HalfOf(h: nat, bit: nat)
    requires bit <= 1
    ensures (2 * h + bit) / 2 == h
  {
  }

  lemma AndZero(v: nat)
    ensures And(v, 0) == 0 && And(0, v) == 0
  {
  }

  /** The lowest bit of a word and of a mask. */
  lemma AndStep(h: nat, bit: nat, m: nat, c: nat)
    requires bit <= 1 && c <= 1
    ensures And(2 * h + bit, 2 * m + c) == (if bit == 1 && c == 1 then 1 else 0) + 2 * And(h, m)
  {
    HalfOf(h, bit);
    HalfOf(m, c);
    AndZero(h);
    AndZero(m);
    var a, b := 2 * h + bit, 2 * m + c;
    assert a / 2 == h && b / 2 == m;
  }

  lemma Doubled(a: nat, b: nat)
    ensures a * (2 * b) == 2 * (a * b)
  {
  }

  /** A mask of the n lowest bits keeps the remainder. */
  lemma {:induction false} AndLow(q: nat, r: nat, n: nat)
    requires r < Power(n)
    ensures And(q * Power(n) + r, Power(n) - 1) == r
  {
    hide And;
    if n == 0 {
      AndZero(q);
    } else {
      var h, half := r / 2, Power(n - 1);
      Doubled(q, half);
      AndStep(q * half + h, r - 2 * h, half - 1, 1);
      AndLow(q, h, n - 1);
    }
  }

  /** A mask that starts at bit n looks at the quotient. */
  lemma {:induction false} AndFrom(q: nat, r: nat, m: nat, n: nat)
    requires r < Power(n)
    ensures And(q * Power(n) + r, m * Power(n)) == And(q, m) * Power(n)
  {
    hide And;
    if n > 0 {
      var h, half := r / 2, Power(n - 1);
      var rest := And(q, m);
      Doubled(q, half);
      Doubled(m, half);
      Doubled(rest, half);
      AndStep(q * half + h, r - 2 * h, m * half, 0);
      AndFrom(q, h, m, n - 1);
    }
  }

  lemma {:induction false} ShrQuotient(q: nat, r: nat, n: nat)
    requires r < Power(n)
    ensures Shr(q * Power(n) + r, n) == q
  {
    if n > 0 {
      var h, half := r / 2, Power(n - 1);
      Doubled(q, half);
      HalfOf(q * half + h, r - 2 * h);
      ShrQuotient(q, h, n - 1);
    }
  }

  lemma Powers()
    ensures Power(1) == 2 && Power(2) == 4 && Power(3) == 8 && Power(4) == 16 && Power(5) == 32 && Power(6) == 64
    ensures Power(7) == 128 && Power(8) == 256 && Power(9) == 512 && Power(10) == 1024 && Power(11) == 2048
    ensures Power(23) == 0x80_0000 && Power(27) == 0x800_0000 && Power(28) == 0x1000_0000
  {
    assert Power(9) == 512 && Power(16) == 0x1_0000 && Power(23) == 0x80_0000;
  }

  /** The masks of the function that keep low bits. */
  lemma LowMasks(v: nat)
    ensures And(v, 1) == v % 2 && And(v, 3) == v % 4 && And(v, 7) == v % 8 && And(v, 0xF) == v % 16 && And(v, 0x3F) == v % 64
  {
    hide And;
    Powers();
    AndLow(v / 2, v % 2, 1);
    AndLow(v / 4, v % 4, 2);
    AndLow(v / 8, v % 8, 3);
    AndLow(v / 16, v % 16, 4);
    AndLow(v / 64, v % 64, 6);
  }

  /** Those that keep bits in the middle. */
  lemma MiddleMasks(v: nat)
    ensures And(v, 0xE) == v / 2 % 8 * 2 && And(v, 8) == v / 8 % 2 * 8 && And(v, 16) == v / 16 % 2 * 16
    ensures And(v, 0x1C0) == v / 64 % 8 * 64
  {
    hide And;
    Powers();
    AndFrom(v / 2, v % 2, 7, 1);
    LowMasks(v / 2);
    AndFrom(v / 8, v % 8, 1, 3);
    LowMasks(v / 8);
    AndFrom(v / 16, v % 16, 1, 4);
    LowMasks(v / 16);
    AndFrom(v / 64, v % 64, 7, 6);
    LowMasks(v / 64);
  }

  /** Those that clear low bits of a word. */
  lemma HighMasks(v: nat)
    requires v < WORD
    ensures And(v, Not(0xF)) == v / 16 * 16 && And(v, Not(31)) == v / 32 * 32 && And(v, Not(0x1FF)) == v / 512 * 512
  {
    hide And;
    Powers();
    AndFrom(v / 16, v % 16, 0xFFF_FFFF, 4);
    AndLow(0, v / 16, 28);
    AndFrom(v / 32, v % 32, 0x7FF_FFFF, 5);
    AndLow(0, v / 32, 27);
    AndFrom(v / 512, v % 512, 0x7F_FFFF, 9);
    AndLow(0, v / 512, 23);
  }

  lemma Shifts(v: nat)
    ensures Shr(v, 2) == v / 4 && Shr(v, 3) == v / 8 && Shr(v, 5) == v / 32
    ensures Shl(v, 1) == Wrap(2 * v) && Shl(v, 2) == Wrap(4 * v) && Shl(v, 3) == Wrap(8 * v) && Shl(v, 4) == Wrap(16 * v)
    ensures Shl(v, 6) == Wrap(64 * v) && Shl(v, 7) == Wrap(128 * v)
  {
    hide Shr;
    Powers();
    ShrQuotient(v / 4, v % 4, 2);
    ShrQuotient(v / 8, v % 8, 3);
    ShrQuotient(v / 32, v % 32, 5);
  }

  /** Shifts by the unit size. */
  lemma UnitShifts(v: nat, log2: nat)
    requires log2 <= 4
    ensures Shl(v, log2) == Wrap(Times(v, log2)) && Shl(v, log2 + 7) == Wrap(Times(v, log2) * 128)
    ensures Shr(v, log2) == Over(v, log2)
  {
    hide Shr, Wrap;
    Powers();
    match log2 {
      case 0 => ShrQuotient(v, 0, 0);
      case 1 => ShrQuotient(v / 2, v % 2, 1);
      case 2 => ShrQuotient(v / 4, v % 4, 2);
      case 3 => ShrQuotient(v / 8, v % 8, 3);
      case _ => ShrQuotient(v / 16, v % 16, 4);
    }
  }

  // ---- the function as written ----

  lemma WrapAdds(a: nat, b: nat)
    ensures Wrap(Wrap(a) + b) == Wrap(a + b) && Wrap(a + Wrap(b)) == Wrap(a + b)
  {
  }

  lemma WrapKeeps(v: nat)
    ensures v < WORD ==> Wrap(v) == v
  {
  }

  lemma AlignedWidth(pitch: nat)
    requires pitch <= MAX_EXTENT
    ensures Shr(And(Add(pitch, 31), Not(31)), 5) == TilesAcross(pitch)
  {
    hide And, Shr, Wrap;
    WrapKeeps(pitch + 31);
    HighMasks(pitch + 31);
    Shifts((pitch + 31) / 32 * 32);
  }

  lemma MacroAsWritten(x: nat, y: nat, pitch: nat, log2: nat)
    requires pitch <= MAX_EXTENT && log2 <= 4
    ensures MacroBits(x, y, pitch, log2) == Wrap(Times(Wrap(TileIndex(x, y, pitch)), log2) * 128)
  {
    hide And, Shr, Times, Shl, Power, Wrap, TilesAcross;
    AlignedWidth(pitch);
    Shifts(x);
    Shifts(y);
    var across := TilesAcross(pitch);
    WrapAdds(x / 32, y / 32 * across);
    UnitShifts(Wrap(TileIndex(x, y, pitch)), log2);
  }

  lemma MicroBound(low: nat, high: nat, log2: nat)
    requires low < 8 && high < 8 && log2 <= 4
    ensures Times(low + high * 8, log2) < 1024
  {
  }

  lemma MicroAsWritten(x: nat, y: nat, log2: nat)
    requires log2 <= 4
    ensures MicroBits(x, y, log2) == Times(Micro(x, y), log2) < 1024
  {
    hide And, Shr, Shl, Power, Wrap, Times;
    var low, high := x % 8, y / 2 % 8;
    LowMasks(x);
    MiddleMasks(y);
    Shifts(high * 2);
    WrapKeeps(8 * high);
    WrapKeeps(low + 8 * high);
    UnitShifts(low + high * 8, log2);
    MicroBound(low, high, log2);
    WrapKeeps(Times(low + high * 8, log2));
  }

  lemma WrapSum4(a: nat, b: nat, c: nat, d: nat)
    ensures Add(Add(Add(a, b), c), d) == Wrap(a + b + c + d)
  {
    hide Wrap;
    WrapAdds(a + b, c);
    WrapAdds(a + b + c, d);
  }

  lemma WrapSum5(a: nat, b: nat, c: nat, d: nat, e: nat)
    ensures Add(Add(Add(Add(Wrap(a), b), c), d), e) == Wrap(a + b + c + d + e)
  {
    hide Wrap;
    WrapAdds(a, b);
    WrapAdds(a + b, c);
    WrapAdds(a + b + c, d);
    WrapAdds(a + b + c + d, e);
  }

  lemma OffsetAsWritten(macro: nat, micro: nat, y: nat)
    requires micro < 1024
    ensures OffsetBits(macro, micro, y) == Wrap(Inner(macro, micro, y))
  {
    hide And, Shr, Shl, Power, Wrap, Add, Not;
    var high, low, odd := micro / 16 * 16, micro % 16, y % 2;
    HighMasks(micro);
    LowMasks(micro);
    LowMasks(y);
    Shifts(high);
    Shifts(odd);
    WrapKeeps(2 * high);
    WrapKeeps(16 * odd);
    WrapSum4(macro, 2 * high, low, 16 * odd);
  }

  lemma PipeAsWritten(x: nat, y: nat)
    requires x < WORD
    ensures Shl(And(Add(Shr(And(y, 8), 2), Shr(x, 3)), 3), 6) == (y / 8 % 2 * 2 + x / 8) % 4 * 64
  {
    hide And, Shr, Shl, Power, Wrap, Not;
    MiddleMasks(y);
    var bank := y / 8 % 2 * 8;
    Shifts(bank);
    Shifts(x);
    var pipe := bank / 4 + x / 8;
    assert bank / 4 == y / 8 % 2 * 2;
    WrapKeeps(pipe);
    LowMasks(pipe);
    var two := pipe % 4;
    Shifts(two);
    WrapKeeps(64 * two);
  }

  lemma SpreadAsWritten(offset: nat, x: nat, y: nat)
    requires offset < WORD && x < WORD
    ensures SpreadBits(offset, x, y) == Wrap(Outer(offset, x, y))
  {
    hide And, Shr, Shl, Power, Wrap, Add, Not;
    HighMasks(offset);
    MiddleMasks(y);
    MiddleMasks(offset);
    LowMasks(offset);
    PipeAsWritten(x, y);
    var high, bit, middle, low := offset / 512, y / 16 % 2, offset / 64 % 8, offset % 64;
    var pipe := (y / 8 % 2 * 2 + x / 8) % 4;
    Shifts(high * 512);
    Shifts(bit * 16);
    Shifts(middle * 64);
    WrapKeeps(bit * 2048);
    WrapKeeps(middle * 256);
    WrapSum5(high * 4096, bit * 2048, middle * 256, pipe * 64, low);
  }

  /** Bit operations and wrapping included, it is the function whose indices are distinct. */
  lemma TiledOffsetIsAsWritten(x: nat, y: nat, pitch: nat, log2: nat)
    requires x < WORD && y < WORD
    ensures TiledOffsetAsWritten(x, y, pitch, log2) == TiledOffset2D(x, y, pitch, log2)
  {
    hide MacroBits, MicroBits, OffsetBits, SpreadBits, TileIndex, Inner, Outer, Shr, Over;
    if pitch != 0 && pitch <= MAX_EXTENT && x < pitch && log2 <= 4 {
      var macro, micro := MacroBits(x, y, pitch, log2), MicroBits(x, y, log2);
      MacroAsWritten(x, y, pitch, log2);
      MicroAsWritten(x, y, log2);
      OffsetAsWritten(macro, micro, y);
      var offset := OffsetBits(macro, micro, y);
      SpreadAsWritten(offset, x, y);
      UnitShifts(SpreadBits(offset, x, y), log2);
    }
  }
}
