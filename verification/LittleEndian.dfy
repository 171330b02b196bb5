/**
 Little-endian words in a byte memory: the meaning of the i32/i64 load and store
 instructions (section 4.4.4, Memory Instructions, of the WebAssembly Core Specification 1.0).
 */
module LittleEndian {
  type byte = x: int | 0 <= x < 256

  /** The number of values an n-byte word can hold. */
  function Capacity(n: nat): (r: nat)
    ensures r >= 1
  {
    if n == 0 then 1 else 256 * Capacity(n - 1)
  }

  function Encode(v: nat, n: nat): (s: seq<byte>)
    ensures |s| == n
  {
    if n == 0 then [] else [v % 256] + Encode(v / 256, n - 1)
  }

  function Decode(s: seq<byte>): (v: nat)
    ensures v < Capacity(|s|)
  {
    if s == [] then 0 else s[0] + 256 * Decode(s[1..])
  }

  function Load(mem: seq<byte>, at: nat, n: nat): (v: nat)
    requires at + n <= |mem|
    ensures v < Capacity(n)
  {
    Decode(mem[at..at + n])
  }

  function Store(mem: seq<byte>, at: nat, n: nat, v: nat): (r: seq<byte>)
    requires at + n <= |mem|
    ensures |r| == |mem|
    ensures forall i :: 0 <= i < |mem| && !(at <= i < at + n) ==> r[i] == mem[i]
  {
    mem[..at] + Encode(v, n) + mem[at + n..]
  }

  /** What n bytes keep of a value: its remainder modulo 256 to the n. */
  function LowBytes(v: nat, n: nat): (r: nat)
    ensures r < Capacity(n)
  {
    if n == 0 then 0 else v % 256 + 256 * LowBytes(v / 256, n - 1)
  }

  lemma {:induction false} DecodeEncode(v: nat, n: nat)
    ensures Decode(Encode(v, n)) == LowBytes(v, n)
  {
    if n > 0 {
      DecodeEncode(v / 256, n - 1);
      assert Encode(v, n)[1..] == Encode(v / 256, n - 1);
    }
  }

  lemma {:induction false} FitsInBytes(v: nat, n: nat)
    requires v < Capacity(n)
    ensures LowBytes(v, n) == v
  {
    if n > 0 {
      FitsInBytes(v / 256, n - 1);
    }
  }

  lemma CapacityOfWord()
    ensures Capacity(4) == 0x1_0000_0000
  {
    assert Capacity(1) == 256;
    assert Capacity(2) == 65536;
    assert Capacity(3) == 0x100_0000;
  }

  /** A word that fits is read back as it was written. */
  lemma LoadStored(mem: seq<byte>, at: nat, n: nat, v: nat)
    requires at + n <= |mem| && v < Capacity(n)
    ensures Load(Store(mem, at, n, v), at, n) == v
  {
    assert Store(mem, at, n, v)[at..at + n] == Encode(v, n);
    DecodeEncode(v, n);
    FitsInBytes(v, n);
  }

  /** Bytes that two memories share read back alike. */
  lemma LoadUnchanged(a: seq<byte>, b: seq<byte>, at: nat, n: nat)
    requires at + n <= |a| && |a| == |b|
    requires forall i :: at <= i < at + n ==> a[i] == b[i]
    ensures Load(a, at, n) == Load(b, at, n)
  {
    assert a[at..at + n] == b[at..at + n];
  }
}
