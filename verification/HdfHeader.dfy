/** The header of an HDF image (hdf_write_header of image_file.c): the factorisation of a sector count into
    cylinders, heads and sectors, and the header bytes that carry it. */
module HdfHeader {
  import opened Bytes

  datatype Chs = Chs(cylinders: nat, heads: nat, sectors: nat)

  /** The values that stand for a disk too large to describe. */
  const LARGE := Chs(16383, 16, 63)
  const LARGE_SECTORS: nat := 16383 * 16 * 63

  /** `d` is the largest divisor of `n` that is at most `max`. */
  ghost predicate LargestDivisor(n: nat, max: nat, d: nat)
  {
    1 <= d <= max && n % d == 0 && forall k :: d < k <= max ==> n % k != 0
  }

  /** The factorisation the header aims at. */
  ghost predicate Factors(n: nat, c: Chs)
  {
    && LargestDivisor(n, 16, c.heads) && LargestDivisor(n / c.heads, 63, c.sectors)
    && c.cylinders == n / c.heads / c.sectors
  }

  /** What the header says of a disk of `n` sectors. */
  ghost predicate Describes(n: nat, c: Chs)
  {
    if n >= LARGE_SECTORS then c == LARGE
    else exists f :: Factors(n, f) && c == if f.cylinders > 16384 then LARGE else f
  }

  /** The count-down loops of hdf_write_header. */
  method FindDivisor(n: nat, max: nat) returns (d: nat)
    requires 1 <= max
    ensures LargestDivisor(n, max, d)
  {
    d := max;
    while d > 1
      invariant 1 <= d <= max && forall k :: d < k <= max ==> n % k != 0
    {
      if n % d == 0 { break; }
      d := d - 1;
    }
    assert n % 1 == 0;
  }

  method Factorise(n: nat) returns (c: Chs)
    ensures Describes(n, c)
  {
    if n >= LARGE_SECTORS { return LARGE; }
    var heads := FindDivisor(n, 16);
    var perHead := n / heads;
    var sectors := FindDivisor(perHead, 63);
    c := Chs(perHead / sectors, heads, sectors);
    assert Factors(n, c);
    if c.cylinders > 16384 { c := LARGE; }
  }

  /** A factorisation is exact, and there is only one. */
  lemma FactorsExact(n: nat, c: Chs)
    requires Factors(n, c)
    ensures c.cylinders * c.heads * c.sectors == n
    ensures forall f :: Factors(n, f) ==> f == c
  {
    var q := n / c.heads;
    assert n == q * c.heads;
    assert q == c.cylinders * c.sectors;
    assert c.cylinders * c.heads * c.sectors == q * c.heads by {
      assert c.cylinders * c.heads * c.sectors == c.cylinders * c.sectors * c.heads;
    }
    forall f | Factors(n, f) ensures f == c {
      assert !(f.heads < c.heads) && !(c.heads < f.heads);
      assert !(f.sectors < c.sectors) && !(c.sectors < f.sectors);
    }
  }

  /** Either the large-disk values, or at most 16384 cylinders, 1 to 16 heads and 1 to 63 sectors whose product
      is exactly the sector count; and the answer is determined by the count. */
  lemma DescribesExactly(n: nat, c: Chs)
    requires Describes(n, c)
    ensures c == Chs(16383, 16, 63) || c.cylinders * c.heads * c.sectors == n
    ensures n >= 16514064 ==> c == Chs(16383, 16, 63)
    ensures c.cylinders <= 16384 && 1 <= c.heads <= 16 && 1 <= c.sectors <= 63
    ensures forall e :: Describes(n, e) ==> e == c
  {
    if n < LARGE_SECTORS {
      var f :| Factors(n, f) && c == if f.cylinders > 16384 then LARGE else f;
      FactorsExact(n, f);
    }
  }

  // ----- the bytes -----

  const PREAMBLE: seq<byte> := [0x52, 0x53, 0x2D, 0x49, 0x44, 0x45, 0x1A, 0x11, 0x00, 0x16, 0x02]
  const IDENTITY: nat := 0x16

  /** "Created by hdfmonkey" padded with blanks, each pair of characters swapped. */
  const MODEL_NUMBER: seq<byte> := [
    0x72, 0x43, 0x61, 0x65, 0x65, 0x74, 0x20, 0x64, 0x79, 0x62, 0x68, 0x20, 0x66, 0x64, 0x6F, 0x6D,
    0x6B, 0x6E, 0x79, 0x65, 0x20, 0x20, 0x20, 0x20, 0x20, 0x20, 0x20, 0x20, 0x20, 0x20, 0x20, 0x20,
    0x20, 0x20, 0x20, 0x20, 0x20, 0x20, 0x20, 0x20]

  const CREATED_BY: string := "Created by hdfmonkey                    "

  /** What the constants of the header spell: the signature and the version, and the model number with the characters of
      each pair swapped. */
  lemma SignatureSpells()
    ensures forall k :: 0 <= k < 6 ==> PREAMBLE[k] as char == "RS-IDE"[k]
    ensures PREAMBLE[6..] == [0x1A, 0x11, 0x00, 0x16, 0x02]
  {
    var s := "RS-IDE";
    assert PREAMBLE[6..] == [0x1A, 0x11, 0x00, 0x16, 0x02];
  }

  lemma ModelSpells(k: nat)
    requires k < 20
    ensures |CREATED_BY| == |MODEL_NUMBER| == 40
    ensures MODEL_NUMBER[2 * k] as char == CREATED_BY[2 * k + 1] && MODEL_NUMBER[2 * k + 1] as char == CREATED_BY[2 * k]
  {
  }

  /** The geometry a reader of the header finds. */
  function ReadChs(h: seq<byte>): Chs
    requires |h| == 0x216
  {
    Chs(LdWord(h, IDENTITY + 2), LdWord(h, IDENTITY + 6), LdWord(h, IDENTITY + 12))
  }

  /** Where that is: in words 1, 3 and 6 of the identity block, which begins at 0x16. */
  lemma GeometryWords(h: seq<byte>)
    requires |h| == 0x216
    ensures ReadChs(h).cylinders == h[0x18] as int + 0x100 * h[0x19] as int
    ensures ReadChs(h).heads == h[0x1C] as int + 0x100 * h[0x1D] as int
    ensures ReadChs(h).sectors == h[0x22] as int + 0x100 * h[0x23] as int
  {
  }

  /** The header, filled in place. A reader finds the geometry, the low 32 bits of the sector count and the offset
      of the data, and every byte not given a meaning is zero. */
  method WriteHeader(n: nat) returns (h: seq<byte>)
    ensures |h| == 0x216
    ensures Describes(n, ReadChs(h)) && LdDword(h, IDENTITY + 120) == n % 0x1_0000_0000
    ensures h[..11] == PREAMBLE && LdWord(h, 9) == |h|
    ensures h[IDENTITY + 54..IDENTITY + 94] == MODEL_NUMBER && h[IDENTITY + 99] == 0x02
    ensures forall i :: 11 <= i < |h| && !Meaningful(i - IDENTITY) ==> h[i] == 0
  {
    var c := Factorise(n);
    DescribesExactly(n, c);
    h := FieldBytes(PREAMBLE, MODEL_NUMBER, c, Byte0(n), Byte1(n), Byte2(n), Byte3(n));
    DwordDigits(n);
    assert ReadChs(h) == c;
    assert h[..11] == PREAMBLE;
    assert h[IDENTITY + 54..IDENTITY + 94] == MODEL_NUMBER;
  }

  /** The offsets in the identity block that carry something. */
  predicate Meaningful(k: int)
  {
    k in {2, 3, 6, 12, 99} || 54 <= k < 94 || 120 <= k < 124
  }

  method FieldBytes(preamble: seq<byte>, model: seq<byte>, c: Chs, n0: byte, n1: byte, n2: byte, n3: byte)
    returns (h: seq<byte>)
    requires |preamble| == 11 && |model| == 40
    requires c.cylinders <= 16384 && c.heads <= 16 && c.sectors <= 63
    ensures |h| == 0x216
    ensures forall i :: 0 <= i < 11 ==> h[i] == preamble[i]
    ensures h[IDENTITY + 2] == c.cylinders % 0x100 && h[IDENTITY + 3] == c.cylinders / 0x100
    ensures h[IDENTITY + 6] == c.heads && h[IDENTITY + 12] == c.sectors && h[IDENTITY + 99] == 0x02
    ensures forall i :: 0 <= i < 40 ==> h[IDENTITY + 54 + i] == model[i]
    ensures h[IDENTITY + 120] == n0 && h[IDENTITY + 121] == n1 && h[IDENTITY + 122] == n2 && h[IDENTITY + 123] == n3
    ensures forall i :: 11 <= i < |h| && !Meaningful(i - IDENTITY) ==> h[i] == 0
  {
    var header := new byte[0x216](_ => 0);
    Copy(header, 0, preamble);
    header[IDENTITY + 2] := c.cylinders % 0x100;
    header[IDENTITY + 3] := c.cylinders / 0x100;
    header[IDENTITY + 6] := c.heads;
    header[IDENTITY + 12] := c.sectors;
    Copy(header, IDENTITY + 54, model);
    header[IDENTITY + 99] := 0x02;
    header[IDENTITY + 120] := n0;
    header[IDENTITY + 121] := n1;
    header[IDENTITY + 122] := n2;
    header[IDENTITY + 123] := n3;
    h := header[..];
  }
}
