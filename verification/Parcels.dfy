/**
 A binder parcel as bytes with a read cursor. Integers take four bytes, low byte first; a string is its length
 followed, unless empty, by its bytes, a NUL and padding to a multiple of four. Reads that run off the end
 give 0 or the empty string, as the library does.
 */
module Parcels {

  type Byte = b: int | 0 <= b < 0x100
  type Int32 = i: int | -0x8000_0000 <= i < 0x8000_0000
  type String8 = s: seq<Byte> | |s| < 0x7FFF_FFFF witness []

  /** An interface descriptor. */
  type Token = s: String8 | s != [] witness [0]

  const UNKNOWN_TRANSACTION: Int32 := -74
  const PERMISSION_DENIED: Int32 := -1

  /** The low k bytes of u, lowest first. */
  function LowBytes(u: nat, k: nat): (b: seq<Byte>)
    ensures |b| == k
  {
    if k == 0 then [] else [u % 0x100] + LowBytes(u / 0x100, k - 1)
  }

  function Number(b: seq<Byte>): nat {
    if b == [] then 0 else b[0] as nat + 0x100 * Number(b[1..])
  }

  function Range(k: nat): nat {
    if k == 0 then 1 else 0x100 * Range(k - 1)
  }

  lemma {:induction false} NumberOfLowBytes(u: nat, k: nat)
    requires u < Range(k)
    ensures Number(LowBytes(u, k)) == u
  {
    if k > 0 {
      NumberOfLowBytes(u / 0x100, k - 1);
      assert LowBytes(u, k)[1..] == LowBytes(u / 0x100, k - 1);
    }
  }

  lemma {:induction false} LowBytesOfNumber(b: seq<Byte>)
    ensures LowBytes(Number(b), |b|) == b && Number(b) < Range(|b|)
  {
    if b != [] {
      LowBytesOfNumber(b[1..]);
      assert Number(b) % 0x100 == b[0] as nat && Number(b) / 0x100 == Number(b[1..]);
    }
  }

  lemma {:induction false} RangeOfFour()
    ensures Range(4) == 0x1_0000_0000
  {
    assert Range(2) == 0x1_0000;
  }

  function EncodeInt(i: Int32): (b: seq<Byte>)
    ensures |b| == 4
  {
    LowBytes(if i < 0 then i + 0x1_0000_0000 else i, 4)
  }

  function DecodeInt(b: seq<Byte>): Int32
    requires |b| == 4
  {
    LowBytesOfNumber(b);
    RangeOfFour();
    if Number(b) >= 0x8000_0000 then Number(b) - 0x1_0000_0000 else Number(b)
  }

  lemma {:induction false} IntRoundTrip(i: Int32)
    ensures DecodeInt(EncodeInt(i)) == i
  {
    RangeOfFour();
    NumberOfLowBytes(if i < 0 then i + 0x1_0000_0000 else i, 4);
  }

  lemma {:induction false} BytesRoundTrip(b: seq<Byte>)
    requires |b| == 4
    ensures EncodeInt(DecodeInt(b)) == b
  {
    LowBytesOfNumber(b);
    RangeOfFour();
  }

  function Padded(n: nat): (m: nat)
    ensures n <= m < n + 4 && m % 4 == 0
  {
    (n + 3) / 4 * 4
  }

  function Zeros(n: nat): (z: seq<Byte>)
    ensures |z| == n
  {
    seq(n, i => 0)
  }

  function EncodeString(s: String8): seq<Byte> {
    EncodeInt(|s|) + if s == [] then [] else s + Zeros(Padded(|s| + 1) - |s|)
  }

  /** Four bytes, low byte first, in two's complement. */
  lemma {:induction false} IntLayout(i: Int32)
    ensures var b := EncodeInt(i);
            b[0] as int + 0x100 * (b[1] as int) + 0x1_0000 * (b[2] as int) + 0x100_0000 * (b[3] as int) ==
            if i < 0 then i + 0x1_0000_0000 else i
  {
    var u := if i < 0 then i + 0x1_0000_0000 else i;
    RangeOfFour();
    NumberOfLowBytes(u, 4);
    NumberOfFour(EncodeInt(i));
  }

  lemma {:induction false} NumberOfFour(b: seq<Byte>)
    requires |b| == 4
    ensures Number(b) == b[0] as int + 0x100 * (b[1] as int) + 0x1_0000 * (b[2] as int) + 0x100_0000 * (b[3] as int)
  {
    assert Number(b[3..]) == b[3] as nat + 0x100 * Number(b[3..][1..]);
    assert b[2..][1..] == b[3..] && b[1..][1..] == b[2..] && b[3..][1..] == [];
    assert Number(b[2..]) == b[2] as nat + 0x100 * Number(b[3..]);
    assert Number(b[1..]) == b[1] as nat + 0x100 * Number(b[2..]);
  }

  /** Length, bytes, and one to four zeros up to a multiple of four; an empty string is its length alone. */
  lemma {:induction false} StringLayout(s: String8)
    ensures var e, n := EncodeString(s), |s|;
            && |e| % 4 == 0 && |e| >= 4 && e[..4] == EncodeInt(n)
            && (n == 0 ==> |e| == 4)
            && (n > 0 ==>
                  4 + n < |e| <= 4 + n + 4 && e[4..4 + n] == s && forall i :: 4 + n <= i < |e| ==> e[i] == 0)
  {
  }

  /** Read an integer of d at position p: the value and the new position. */
  function TakeInt(d: seq<Byte>, p: nat): (r: (Int32, nat))
    ensures p <= r.1 && (p <= |d| ==> r.1 <= |d|)
  {
    if p + 4 <= |d| then (DecodeInt(d[p..p + 4]), p + 4) else (0, p)
  }

  function TakeString(d: seq<Byte>, p: nat): (r: (String8, nat))
    ensures p <= r.1 && (p <= |d| ==> r.1 <= |d|)
  {
    var (n, q) := TakeInt(d, p);
    if 0 < n < 0x7FFF_FFFF && q + Padded(n + 1) <= |d| then (d[q..q + n], q + Padded(n + 1)) else ([], q)
  }

  /** What was written at a position is what is read there, and the cursor ends right after it. */
  lemma {:induction false} IntAt(before: seq<Byte>, i: Int32, after: seq<Byte>)
    ensures TakeInt(before + EncodeInt(i) + after, |before|) == (i, |before| + 4)
  {
    var d := before + EncodeInt(i) + after;
    assert d[|before|..|before| + 4] == EncodeInt(i);
    IntRoundTrip(i);
  }

  lemma {:induction false} StringAt(before: seq<Byte>, s: String8, after: seq<Byte>)
    ensures TakeString(before + EncodeString(s) + after, |before|) == (s, |before| + |EncodeString(s)|)
  {
    var d := before + EncodeString(s) + after;
    var rest := if s == [] then [] else s + Zeros(Padded(|s| + 1) - |s|);
    assert d == before + EncodeInt(|s|) + (rest + after);
    IntAt(before, |s|, rest + after);
    var q := |before| + 4;
    if s != [] {
      assert d[q..q + |s|] == s;
    }
  }

  /** The last thing in a parcel is read to the parcel's end. */
  lemma {:induction false} LastString(before: seq<Byte>, s: String8)
    ensures TakeString(before + EncodeString(s), |before|) == (s, |before + EncodeString(s)|)
  {
    StringAt(before, s, []);
    assert before + EncodeString(s) + [] == before + EncodeString(s);
  }

  lemma {:induction false} LastInt(before: seq<Byte>, i: Int32)
    ensures TakeInt(before + EncodeInt(i), |before|) == (i, |before + EncodeInt(i)|)
  {
    IntAt(before, i, []);
    assert before + EncodeInt(i) + [] == before + EncodeInt(i);
  }

  class Parcel {
    var data: seq<Byte>
    var pos: nat

    constructor ()
      ensures data == [] && pos == 0
    {
      data, pos := [], 0;
    }

    method WriteInt32(i: Int32)
      modifies this`data
      ensures data == old(data) + EncodeInt(i)
    {
      data := data + EncodeInt(i);
    }

    method WriteString8(s: String8)
      modifies this`data
      ensures data == old(data) + EncodeString(s)
    {
      data := data + EncodeString(s);
    }

    method ReadInt32() returns (i: Int32)
      modifies this`pos
      ensures (i, pos) == TakeInt(data, old(pos))
    {
      i := 0;
      if pos + 4 <= |data| {
        i := DecodeInt(data[pos..pos + 4]);
        pos := pos + 4;
      }
    }

    method ReadString8() returns (s: String8)
      modifies this`pos
      ensures (s, pos) == TakeString(data, old(pos))
    {
      var size := ReadInt32();
      s := [];
      if 0 < size < 0x7FFF_FFFF && pos + Padded(size + 1) <= |data| {
        s := data[pos..pos + size];
        pos := pos + Padded(size + 1);
      }
    }
  }
}
