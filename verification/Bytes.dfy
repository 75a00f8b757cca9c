/** Little-endian byte packing: the LD_WORD/LD_DWORD/ST_WORD/ST_DWORD macros of ff.h,
    and the 512-byte sector they work on. */
module Bytes {

  type byte = b: int | 0 <= b < 0x100
  type word = w: int | 0 <= w < 0x1_0000
  type dword = d: int | 0 <= d < 0x1_0000_0000

  type Sector = s: seq<byte> | |s| == 512 witness Zeros(512)

  function Zeros(n: nat): (z: seq<byte>)
    ensures |z| == n && forall i :: 0 <= i < n ==> z[i] == 0
  {
    seq(n, _ => 0)
  }

  function LdWord(s: seq<byte>, p: nat): word
    requires p + 1 < |s|
  {
    (s[p] as int) + 0x100 * (s[p + 1] as int)
  }

  function LdDword(s: seq<byte>, p: nat): dword
    requires p + 3 < |s|
  {
    (s[p] as int) + 0x100 * (s[p + 1] as int) + 0x1_0000 * (s[p + 2] as int) + 0x100_0000 * (s[p + 3] as int)
  }

  /** The bytes of a 32-bit value, low one first. */
  function Byte0(v: nat): byte { v % 0x100 }

  function Byte1(v: nat): byte { v / 0x100 % 0x100 }

  function Byte2(v: nat): byte { v / 0x1_0000 % 0x100 }

  function Byte3(v: nat): byte { v / 0x100_0000 % 0x100 }

  function StWord(s: seq<byte>, p: nat, v: nat): (r: seq<byte>)
    requires p + 1 < |s|
    ensures |r| == |s|
  {
    s[p := Byte0(v)][p + 1 := Byte1(v)]
  }

  function StDword(s: seq<byte>, p: nat, v: nat): (r: seq<byte>)
    requires p + 3 < |s|
    ensures |r| == |s|
  {
    s[p := Byte0(v)][p + 1 := Byte1(v)][p + 2 := Byte2(v)][p + 3 := Byte3(v)]
  }

  /** Storing and loading a 16-bit field keeps the value modulo 2^16 and touches two bytes. */
  lemma StLdWord(s: seq<byte>, p: nat, v: nat)
    requires p + 1 < |s|
    ensures LdWord(StWord(s, p, v), p) == v % 0x1_0000
    ensures forall i :: 0 <= i < |s| && i != p && i != p + 1 ==> StWord(s, p, v)[i] == s[i]
  {
    WordParts(v);
  }

  /** Storing and loading a 32-bit field keeps the value modulo 2^32 and touches four bytes. */
  lemma StLdDword(s: seq<byte>, p: nat, v: nat)
    requires p + 3 < |s|
    ensures LdDword(StDword(s, p, v), p) == v % 0x1_0000_0000
    ensures forall i :: 0 <= i < |s| && !(p <= i < p + 4) ==> StDword(s, p, v)[i] == s[i]
  {
    DwordDigits(v);
  }

  lemma DwordDigits(v: nat)
    ensures v % 0x1_0000_0000
         == v % 0x100 + 0x100 * (v / 0x100 % 0x100) + 0x1_0000 * (v / 0x1_0000 % 0x100) +
           0x100_0000 * (v / 0x100_0000 % 0x100)
  {
    WordParts(v);
    WordParts(v / 0x1_0000);
    DwordParts(v);
  }

  lemma WordParts(v: nat)
    ensures v % 0x1_0000 == v % 0x100 + 0x100 * (v / 0x100 % 0x100)
  {
  }

  lemma DwordParts(v: nat)
    ensures v % 0x1_0000_0000 == v % 0x1_0000 + 0x1_0000 * (v / 0x1_0000 % 0x1_0000)
    ensures v / 0x1_0000 / 0x100 == v / 0x100_0000
  {
    var h, l := v / 0x1_0000, v % 0x1_0000;
    UpperPart(v, h / 0x1_0000, 0x1_0000 * (h % 0x1_0000) + l);
    UpperByte(v, h / 0x100, 0x1_0000 * (h % 0x100) + l);
  }

  lemma UpperPart(v: nat, q: nat, r: nat)
    requires v == 0x1_0000_0000 * q + r && r < 0x1_0000_0000
    ensures v % 0x1_0000_0000 == r
  {
  }

  lemma UpperByte(v: nat, q: nat, r: nat)
    requires v == 0x100_0000 * q + r && r < 0x100_0000
    ensures v / 0x100_0000 == q
  {
  }

  /** `s` holds `v` at `p`, as a 16- or a 32-bit field. */
  predicate HasWord(s: seq<byte>, p: nat, v: nat)
  {
    p + 1 < |s| && s[p] == Byte0(v) && s[p + 1] == Byte1(v)
  }

  predicate HasDword(s: seq<byte>, p: nat, v: nat)
  {
    p + 3 < |s| && s[p] == Byte0(v) && s[p + 1] == Byte1(v) && s[p + 2] == Byte2(v) && s[p + 3] == Byte3(v)
  }

  lemma HasWordLoads(s: seq<byte>, p: nat, v: nat)
    requires HasWord(s, p, v)
    ensures LdWord(s, p) == v % 0x1_0000
  {
    WordParts(v);
  }

  lemma HasDwordLoads(s: seq<byte>, p: nat, v: nat)
    requires HasDword(s, p, v)
    ensures LdDword(s, p) == v % 0x1_0000_0000
  {
    DwordDigits(v);
  }

  /** `s` with the bytes from `at` on replaced by `t`: a mem_cpy into a buffer. */
  function Splice(s: seq<byte>, at: nat, t: seq<byte>): (r: seq<byte>)
    requires at + |t| <= |s|
    ensures |r| == |s|
    ensures forall i :: 0 <= i < |s| ==> r[i] == if at <= i < at + |t| then t[i - at] else s[i]
  {
    seq(|s|, i requires 0 <= i < |s| => if at <= i < at + |t| then t[i - at] else s[i])
  }

  // ----- the same stores in place, as the macros do them on fs->win -----

  method PutWord(a: array<byte>, p: nat, v: nat)
    requires p + 1 < a.Length
    modifies a
    ensures a[..] == StWord(old(a[..]), p, v)
  {
    a[p] := v % 0x100;
    a[p + 1] := v / 0x100 % 0x100;
  }

  method PutDword(a: array<byte>, p: nat, v: nat)
    requires p + 3 < a.Length
    modifies a
    ensures a[..] == StDword(old(a[..]), p, v)
  {
    a[p] := v % 0x100;
    a[p + 1] := v / 0x100 % 0x100;
    a[p + 2] := v / 0x1_0000 % 0x100;
    a[p + 3] := v / 0x100_0000 % 0x100;
  }

  /** mem_set and mem_cpy on a whole buffer. */
  method Fill(a: array<byte>, b: byte)
    modifies a
    ensures forall i :: 0 <= i < a.Length ==> a[i] == b
  {
    for n := 0 to a.Length
      invariant forall i :: 0 <= i < n ==> a[i] == b
    {
      a[n] := b;
    }
  }

  method Copy(a: array<byte>, at: nat, t: seq<byte>)
    requires at + |t| <= a.Length
    modifies a
    ensures a[..] == Splice(old(a[..]), at, t)
  {
    for n := 0 to |t|
      invariant forall i :: 0 <= i < a.Length ==> a[i] == if at <= i < at + n then t[i - at] else old(a[i])
    {
      a[at + n] := t[n];
    }
  }
}
