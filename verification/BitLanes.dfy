/**
 CNTLZ and ROTATE_LEFT on the two lanes that run them: the correctness executor, for integers of 8 to
 64 bits in a 64-bit word, and the generated WebAssembly, which has 32- and 64-bit instructions only.
 A word is its bits, the lowest first.
 */
module BitLanes {
  type Word = s: seq<bool> | |s| == 64 witness Zero()

  function Zero(): seq<bool> {
    seq(64, i => false)
  }

  predicate IsWidth(n: nat) {
    n == 8 || n == 16 || n == 32 || n == 64
  }

  /** The value is an integer of so many bits. */
  predicate Fits(v: Word, width: nat) {
    forall i :: width <= i < 64 ==> !v[i]
  }

  /** The bits of the Wasm instruction that serves a width. */
  function LaneWidth(width: nat): nat {
    if width == 64 then 64 else 32
  }

  // ---- leading zeros ----

  /** The width highest bits start with n zeros, and no more. */
  ghost predicate IsCount(v: Word, width: nat, n: nat)
    requires width <= 64
  {
    && n <= width
    && (forall i :: width - n <= i < width ==> !v[i])
    && (n < width ==> v[width - 1 - n])
  }

  lemma CountIsUnique(v: Word, width: nat, a: nat, b: nat)
    requires width <= 64 && IsCount(v, width, a) && IsCount(v, width, b)
    ensures a == b
  {
  }

  /** The executor's loop, from the highest bit of the width down. */
  method CountLeadingZeros(v: Word, width: nat) returns (leading: nat)
    requires IsWidth(width)
    ensures IsCount(v, width, leading)
  {
    leading := 0;
    var bit := width;
    while bit > 0
      invariant 0 <= bit <= width && leading == width - bit
      invariant forall i :: bit <= i < width ==> !v[i]
    {
      if v[bit - 1] {
        break;
      }
      leading := leading + 1;
      bit := bit - 1;
    }
  }

  /**
   The lowering: clz of the lane's own width (section 4.3.2 of the WebAssembly Core Specification
   1.0), less the bits the lane has more. It is the executor's count, and fits the result's 8 bits.
   */
  lemma LoweredCountAgrees(v: Word, width: nat, clz: nat)
    requires IsWidth(width) && Fits(v, width) && IsCount(v, LaneWidth(width), clz)
    ensures clz >= LaneWidth(width) - width && IsCount(v, width, clz - (LaneWidth(width) - width))
    ensures clz - (LaneWidth(width) - width) < 256
  {
  }

  // ---- rotation ----

  function Shl(v: Word, n: nat): (r: Word)
    ensures forall i :: 0 <= i < 64 ==> r[i] == (i >= n && v[i - n])
  {
    seq(64, i requires 0 <= i < 64 => i >= n && v[i - n])
  }

  function Shr(v: Word, n: nat): (r: Word)
    ensures forall i :: 0 <= i < 64 ==> r[i] == (i + n < 64 && v[i + n])
  {
    seq(64, i requires 0 <= i < 64 => i + n < 64 && v[i + n])
  }

  function Or(a: Word, b: Word): (r: Word)
    ensures forall i :: 0 <= i < 64 ==> r[i] == (a[i] || b[i])
  {
    seq(64, i requires 0 <= i < 64 => a[i] || b[i])
  }

  /** The width's mask. */
  function Keep(v: Word, width: nat): (r: Word)
    ensures forall i :: 0 <= i < 64 ==> r[i] == (i < width && v[i])
  {
    seq(64, i requires 0 <= i < 64 => i < width && v[i])
  }

  /** The shift amount: the count's bits below the width. */
  function Shift(count: nat, width: nat): (s: nat)
    requires IsWidth(width)
    ensures s < width
  {
    if width == 8 then count % 8 else if width == 16 then count % 16 else if width == 32 then count % 32 else count % 64
  }

  /** ROTATE_LEFT as the executor computes it. */
  function Rotate(v: Word, count: nat, width: nat): Word
    requires IsWidth(width)
  {
    var shift, value := Shift(count, width), Keep(v, width);
    if shift == 0 then value else Keep(Or(Shl(value, shift), Shr(value, width - shift)), width)
  }

  /** Where bit i of a rotated integer comes from. */
  function From(i: nat, shift: nat, width: nat): nat
    requires i < width && shift < width
  {
    if i >= shift then i - shift else i + width - shift
  }

  /** Where bit j of the integer goes. */
  function Onto(j: nat, shift: nat, width: nat): (i: nat)
    requires j < width && shift < width
    ensures i < width
  {
    if j + shift < width then j + shift else j + shift - width
  }

  /** It turns the integer's own bits round: bit i comes from as many places below, around the width. */
  lemma RotatedBits(v: Word, count: nat, width: nat)
    requires IsWidth(width)
    ensures Fits(Rotate(v, count, width), width)
    ensures forall i :: 0 <= i < width ==> Rotate(v, count, width)[i] == v[From(i, Shift(count, width), width)]
  {
  }

  /** A remainder, by what quotient and remainder add up to. */
  lemma RemainderIs(n: nat, width: nat, q: nat, r: nat)
    requires IsWidth(width) && n == width * q + r && r < width
    ensures Shift(n, width) == r
  {
    match width {
      case 8 => Remainder8(q, r);
      case 16 => Remainder16(q, r);
      case 32 => Remainder32(q, r);
      case _ => Remainder64(q, r);
    }
  }

  lemma Remainder8(q: nat, r: nat)
    requires r < 8
    ensures (8 * q + r) % 8 == r
  {
  }

  lemma Remainder16(q: nat, r: nat)
    requires r < 16
    ensures (16 * q + r) % 16 == r
  {
  }

  lemma Remainder32(q: nat, r: nat)
    requires r < 32
    ensures (32 * q + r) % 32 == r
  {
  }

  lemma Remainder64(q: nat, r: nat)
    requires r < 64
    ensures (64 * q + r) % 64 == r
  {
  }

  lemma ShiftOf(n: nat, width: nat) returns (q: nat)
    requires IsWidth(width)
    ensures n == width * q + Shift(n, width)
  {
    q := if width == 8 then n / 8 else if width == 16 then n / 16 else if width == 32 then n / 32 else n / 64;
  }

  lemma ShiftAdds(a: nat, b: nat, width: nat)
    requires IsWidth(width)
    ensures var s, t := Shift(a, width), Shift(b, width);
            Shift(a + b, width) == if s + t < width then s + t else s + t - width
  {
    hide Shift;
    var p := ShiftOf(a, width);
    var q := ShiftOf(b, width);
    var s, t := Shift(a, width), Shift(b, width);
    if s + t < width {
      RemainderIs(a + b, width, p + q, s + t);
    } else {
      RemainderIs(a + b, width, p + q + 1, s + t - width);
    }
  }

  /** Rotating twice is rotating by the sum, so by whole widths is not rotating, and every rotation can be undone. */
  lemma RotationsCompose(v: Word, a: nat, b: nat, width: nat)
    requires IsWidth(width)
    ensures Rotate(Rotate(v, a, width), b, width) == Rotate(v, a + b, width)
    ensures Rotate(v, width, width) == Keep(v, width)
  {
    hide Rotate, Shift;
    var once := Rotate(v, a, width);
    RotatedBits(v, a, width);
    RotatedBits(once, b, width);
    RotatedBits(v, a + b, width);
    ShiftAdds(a, b, width);
    RotatedBits(v, width, width);
    assert Shift(width, width) == 0 by { WholeTurn(width); }
  }

  lemma WholeTurn(width: nat)
    requires IsWidth(width)
    ensures Shift(width, width) == 0
  {
  }

  /** i32.rotl and i64.rotl, and the mask the generator puts behind the result. */
  function LaneRotate(v: Word, count: nat, width: nat): Word
    requires IsWidth(width)
  {
    Keep(Rotate(v, count, LaneWidth(width)), width)
  }

  /** When the generated code for a narrow integer is right: the bits that would go round are all zero. */
  predicate NothingGoesRound(v: Word, count: nat, width: nat)
    requires IsWidth(width)
  {
    var lane := Shift(count, LaneWidth(width));
    var s := Shift(count, width);
    if lane < width then forall i :: width - s <= i < width ==> !v[i]
    else if lane >= 32 - width && s > 0 then forall i :: 0 <= i < width - s ==> !v[i]
    else Fits(v, 0)
  }

  /** Both lanes agree on 32- and 64-bit integers, whatever the count. */
  lemma WideLanesAgree(v: Word, count: nat, width: nat)
    requires IsWidth(width) && width >= 32
    ensures LaneRotate(v, count, width) == Rotate(v, count, width)
  {
    RotatedBits(v, count, width);
  }

  /** The JIT's code for a narrow integer, which shifts by the width's own amount. */
  function JitRotate(v: Word, count: nat, width: nat): Word
    requires IsWidth(width)
  {
    Keep(Or(Shl(v, Shift(count, width)), Shr(v, width - Shift(count, width))), width)
  }

  lemma JitAgrees(v: Word, count: nat, width: nat)
    requires IsWidth(width) && Fits(v, width)
    ensures JitRotate(v, count, width) == Rotate(v, count, width)
  {
    hide Shift;
    RotatedBits(v, count, width);
  }

  lemma Remainders(q: nat, r: nat)
    ensures r < 8 ==> (8 * q + r) % 8 == r
    ensures r < 16 ==> (16 * q + r) % 16 == r
  {
  }

  /** The lane's shift amount and the width's own differ by whole widths. */
  lemma LaneShift(count: nat, width: nat)
    requires width == 8 || width == 16
    ensures var lane, s := Shift(count, 32), Shift(count, width);
            if lane < width then lane == s
            else if lane >= 32 - width then lane == 32 - width + s
            else true
  {
    var q, lane := count / 32, Shift(count, 32);
    assert count == 32 * q + lane;
    Remainders(4 * q, lane);
    Remainders(2 * q, lane);
    if lane >= 16 {
      Remainders(2 * q + 1, lane - 16);
    }
    if lane >= 24 {
      Remainders(4 * q + 3, lane - 24);
    }
  }

  /** What the generated code gives: bits of the integer as far as they are in reach, zeros else. */
  lemma LaneBits(v: Word, count: nat, width: nat, i: nat)
    requires (width == 8 || width == 16) && Fits(v, width) && i < width
    ensures var lane := Shift(count, 32);
            LaneRotate(v, count, width)[i] == v[From(i, lane, 32)]
  {
    hide Rotate;
    RotatedBits(v, count, 32);
  }

  lemma SameIff(a: Word, b: Word, width: nat)
    requires width <= 64 && Fits(a, width) && Fits(b, width)
    ensures a == b <==> forall i :: 0 <= i < width ==> a[i] == b[i]
  {
    if forall i :: 0 <= i < width ==> a[i] == b[i] {
      assert forall i :: 0 <= i < 64 ==> a[i] == b[i];
    }
  }

  lemma NarrowBits(v: Word, lane: nat, s: nat, width: nat)
    requires (width == 8 || width == 16) && Fits(v, width) && lane < 32 && s < width
    requires if lane < width then lane == s else if lane >= 32 - width then lane == 32 - width + s else true
    ensures (forall i :: 0 <= i < width ==> v[From(i, lane, 32)] == v[From(i, s, width)])
            <==> if lane < width then forall i :: width - s <= i < width ==> !v[i]
                 else if lane >= 32 - width && s > 0 then forall i :: 0 <= i < width - s ==> !v[i]
                 else Fits(v, 0)
  {
    if forall i :: 0 <= i < width ==> v[From(i, lane, 32)] == v[From(i, s, width)] {
      forall j | 0 <= j < width
        ensures v[From(Onto(j, s, width), lane, 32)] == v[j]
      {
        assert From(Onto(j, s, width), s, width) == j;
      }
      forall j | 0 <= j < width && (if lane < width then j >= width - s else s == 0 || lane < 32 - width || j < width - s)
        ensures !v[j]
      {
        assert From(Onto(j, s, width), lane, 32) >= width;
      }
    }
  }

  /** On 8 and 16 bits they agree exactly when nothing goes round. */
  lemma NarrowLanesAgreeIff(v: Word, count: nat, width: nat)
    requires (width == 8 || width == 16) && Fits(v, width)
    ensures LaneRotate(v, count, width) == Rotate(v, count, width) <==> NothingGoesRound(v, count, width)
  {
    hide Rotate, LaneRotate, Shift;
    var a, b := LaneRotate(v, count, width), Rotate(v, count, width);
    RotatedBits(v, count, width);
    LaneFits(v, count, width);
    SameIff(a, b, width);
    forall i | 0 <= i < width
      ensures a[i] == v[From(i, Shift(count, 32), 32)]
    {
      LaneBits(v, count, width, i);
    }
    LaneShift(count, width);
    NarrowBits(v, Shift(count, 32), Shift(count, width), width);
  }

  lemma LaneFits(v: Word, count: nat, width: nat)
    requires IsWidth(width)
    ensures Fits(LaneRotate(v, count, width), width)
  {
    hide Rotate;
  }

  /** The byte 0x81 rotated by one: 0x03 in the executor, 0x02 in the generated code. */
  lemma ByteGoesRound(v: Word)
    requires forall i :: 0 <= i < 64 ==> v[i] == (i == 0 || i == 7)
    ensures forall i :: 0 <= i < 64 ==> Rotate(v, 1, 8)[i] == (i == 0 || i == 1)
    ensures forall i :: 0 <= i < 64 ==> LaneRotate(v, 1, 8)[i] == (i == 1)
  {
    RotatedBits(v, 1, 8);
    RotatedBits(v, 1, 32);
    hide Rotate;
  }
}
