/** Long file names in directory entries: fit_lfn, pick_lfn and cmp_lfn of ff.c, and the round trip and the
    comparison they give over a whole name. */
module Lfn {
  import opened Bytes

  type Entry = e: seq<byte> | |e| == 32 witness Zeros(32)

  const MAX_LFN: nat := 255
  const AM_LFN: byte := 0x0F

  /** Offset of the `s`-th character of an entry (the table LfnOfs). */
  function Slot(s: nat): nat
  {
    if s < 5 then 1 + 2 * s else if s < 11 then 14 + 2 * (s - 5) else 28 + 2 * (s - 11)
  }

  function CharIn(e: Entry, s: nat): word
    requires s < 13
  {
    LdWord(e, Slot(s))
  }

  // ----- names and buffers -----

  /** A name that entries can carry. */
  predicate LfnName(name: seq<word>)
  {
    |name| <= MAX_LFN && forall i :: 0 <= i < |name| ==> name[i] != 0 && name[i] != 0xFFFF
  }

  /** The LFN buffer holds `name` and its terminator; what lies behind is left over from earlier names. */
  predicate Holds(buf: seq<word>, name: seq<word>)
  {
    |name| < |buf| == MAX_LFN + 1 && buf[|name|] == 0 && forall i :: 0 <= i < |name| ==> buf[i] == name[i]
  }

  /** The character at `i` as entries store it: the name, its terminator, then padding. */
  function CharOf(name: seq<word>, i: nat): word
  {
    if i < |name| then name[i] else if i == |name| then 0 else 0xFFFF
  }

  /** How many entries a name takes. */
  function Segments(name: seq<word>): nat { (|name| + 12) / 13 }

  function From(ord: nat): int { (ord - 1) * 13 }

  /** `e` carries the `ord`-th segment of `name`, the last segment being marked. */
  ghost predicate IsPiece(e: Entry, name: seq<word>, ord: nat, sum: byte)
  {
    && 1 <= ord <= Segments(name) && Segments(name) <= 20
    && (e[0] as int) == (if ord == Segments(name) then 0x40 + ord else ord)
    && e[11] == AM_LFN && e[12] == 0 && e[13] == sum && LdWord(e, 26) == 0
    && forall s :: 0 <= s < 13 ==> CharIn(e, s) == CharOf(name, From(ord) + s)
  }

  lemma LastSegment(name: seq<word>, ord: nat)
    requires 1 <= ord <= Segments(name)
    ensures From(ord) < |name| && (ord == Segments(name) <==> From(ord) + 13 >= |name|)
  {
  }

  lemma StoreChar(e: Entry, s: nat, w: word)
    requires s < 13
    ensures CharIn(StWord(e, Slot(s), w), s) == w
    ensures forall k :: 0 <= k < 13 && k != s ==> CharIn(StWord(e, Slot(s), w), k) == CharIn(e, k)
    ensures var r := StWord(e, Slot(s), w);
      r[0] == e[0] && r[11] == e[11] && r[12] == e[12] && r[13] == e[13] && r[26] == e[26] && r[27] == e[27]
  {
    StLdWord(e, Slot(s), w);
  }

  // ----- fit_lfn -----

  method FitLfn(lfnbuf: seq<word>, dir: Entry, ord: nat, sum: byte, ghost name: seq<word>) returns (e: Entry)
    requires LfnName(name) && Holds(lfnbuf, name) && 1 <= ord <= Segments(name)
    ensures IsPiece(e, name, ord, sum)
  {
    LastSegment(name, ord);
    e := dir[13 := sum][11 := AM_LFN][12 := 0][26 := 0][27 := 0];
    var i, s, wc: word := (ord - 1) * 13, 0, 0;
    while s < 13
      invariant 0 <= s <= 13 && 0 <= i <= MAX_LFN + 1
      invariant wc == 0xFFFF <==> From(ord) + s > |name|
      invariant i == if From(ord) + s > |name| then |name| + 1 else From(ord) + s
      invariant e[11] == AM_LFN && e[12] == 0 && e[13] == sum && e[26] == e[27] == 0
      invariant forall k :: 0 <= k < s ==> CharIn(e, k) == CharOf(name, From(ord) + k)
    {
      if wc != 0xFFFF {
        wc := lfnbuf[i];
        i := i + 1;
      }
      StoreChar(e, s, wc);
      e := StWord(e, Slot(s), wc);
      if wc == 0 { wc := 0xFFFF; }
      s := s + 1;
    }
    var mark := if wc == 0xFFFF then true else lfnbuf[i] == 0;
    assert mark <==> ord == Segments(name);
    ghost var e0 := e;
    e := e[0 := if mark then 0x40 + ord else ord];
    forall k | 0 <= k < 13 ensures CharIn(e, k) == CharIn(e0, k) {}
  }

  /** Every segment has an entry that carries it. */
  lemma PieceExists(name: seq<word>, ord: nat, sum: byte) returns (e: Entry)
    requires 1 <= ord <= Segments(name) <= 20
    ensures IsPiece(e, name, ord, sum)
  {
    e := Zeros(32)[0 := if ord == Segments(name) then 0x40 + ord else ord][11 := AM_LFN][13 := sum];
    var s := 0;
    while s < 13
      invariant 0 <= s <= 13 && (e[0] as int) == (if ord == Segments(name) then 0x40 + ord else ord)
      invariant e[11] == AM_LFN && e[12] == 0 && e[13] == sum && e[26] == e[27] == 0
      invariant forall k :: 0 <= k < s ==> CharIn(e, k) == CharOf(name, From(ord) + k)
    {
      StoreChar(e, s, CharOf(name, From(ord) + s));
      e := StWord(e, Slot(s), CharOf(name, From(ord) + s));
      s := s + 1;
    }
  }

  /** The loop of dir_register that stores a name, last segment first. */
  method StoreName(lfnbuf: seq<word>, sum: byte, ghost name: seq<word>) returns (es: seq<Entry>)
    requires LfnName(name) && name != [] && Holds(lfnbuf, name)
    ensures NameEntries(es, name, sum)
  {
    var ne := 0;
    while lfnbuf[ne] != 0
      invariant 0 <= ne <= |name|
      decreases |name| - ne
    {
      ne := ne + 1;
    }
    ne := (ne + 25) / 13;
    ne := ne - 1;
    es := [];
    while ne > 0
      invariant 0 <= ne <= Segments(name) && |es| == Segments(name) - ne
      invariant forall k :: 0 <= k < |es| ==> IsPiece(es[k], name, Segments(name) - k, sum)
    {
      var e := FitLfn(lfnbuf, Zeros(32), ne, sum, name);
      es := es + [e];
      ne := ne - 1;
    }
  }

  /** `es` are the entries of `name`, last segment first. */
  ghost predicate NameEntries(es: seq<Entry>, name: seq<word>, sum: byte)
  {
    |es| == Segments(name) && forall k :: 0 <= k < |es| ==> IsPiece(es[k], name, |es| - k, sum)
  }

  // ----- pick_lfn -----

  /** Where the terminator goes: behind the name, or one further when the last entry holds one itself. */
  function End(name: seq<word>): nat { if |name| % 13 == 0 then |name| else |name| + 1 }

  /** What picking the segment `ord` of `name` leaves in the buffer. */
  function Picked(buf: seq<word>, name: seq<word>, ord: nat): (r: seq<word>)
    requires 1 <= ord
    ensures |r| == |buf|
  {
    seq(|buf|, i requires 0 <= i < |buf| => if From(ord) <= i < From(ord) + 13 && i <= |name| then CharOf(name, i)
                                             else if ord == Segments(name) && i == End(name) then 0 else buf[i])
  }

  method PickLfn(lfnbuf: array<word>, dir: Entry, ghost name: seq<word>, ghost ord: nat, ghost sum: byte)
    returns (ok: bool)
    requires lfnbuf.Length == MAX_LFN + 1 && LfnName(name) && IsPiece(dir, name, ord, sum)
    modifies lfnbuf
    ensures ok <==> (ord == Segments(name) ==> |name| <= 253)
    ensures ok ==> lfnbuf[..] == Picked(old(lfnbuf[..]), name, ord)
  {
    LastSegment(name, ord);
    var i := (dir[0] as int % 0x40 - 1) * 13;
    var s, wc: word := 0, 1;
    while s < 13
      invariant 0 <= s <= 13 && From(ord) + s <= 260
      invariant wc == 0 <==> From(ord) + s > |name|
      invariant i == if From(ord) + s > |name| then |name| + 1 else From(ord) + s
      invariant i <= MAX_LFN
      invariant forall k :: 0 <= k < lfnbuf.Length ==>
                  lfnbuf[k] == if From(ord) <= k < i then CharOf(name, k) else old(lfnbuf[k])
    {
      var uc := CharIn(dir, s);
      assert uc == CharOf(name, From(ord) + s);
      if wc != 0 {
        if i >= MAX_LFN {
          assert |name| == 255 && ord == 20;
          return false;
        }
        wc := uc;
        lfnbuf[i] := wc;
        i := i + 1;
      } else if uc != 0xFFFF {
        return false;
      }
      s := s + 1;
    }
    if dir[0] as int / 0x40 % 2 == 1 {
      assert ord == Segments(name);
      if i >= MAX_LFN { return false; }
      lfnbuf[i] := 0;
    }
    ok := true;
    assert lfnbuf[..] == Picked(old(lfnbuf[..]), name, ord);
  }

  /** Picking a segment puts its characters in place, and keeps those of the segments behind it. */
  lemma PickedSo(buf: seq<word>, name: seq<word>, ord: nat)
    requires |buf| == MAX_LFN + 1 && 1 <= ord <= Segments(name) && |name| <= 253
    requires ord < Segments(name) ==> forall i :: 0 <= i <= |name| && ord * 13 <= i ==> buf[i] == CharOf(name, i)
    ensures forall i :: 0 <= i <= |name| && From(ord) <= i ==> Picked(buf, name, ord)[i] == CharOf(name, i)
  {
  }

  // ----- cmp_lfn -----

  /** A case fold: only the terminator folds to it. */
  ghost predicate IsFold(up: word -> word)
  {
    up(0) == 0 && forall c: word :: c != 0 ==> up(c) != 0
  }

  /** The names are equal after case folding. */
  ghost predicate SameFolded(up: word -> word, a: seq<word>, b: seq<word>)
  {
    |a| == |b| && forall i :: 0 <= i < |a| ==> up(a[i]) == up(b[i])
  }

  /** What cmp_lfn compares at position `i`. */
  ghost predicate SameAt(up: word -> word, buf: seq<word>, name: seq<word>, i: nat)
    requires |buf| == MAX_LFN + 1
  {
    i > |name| || (i < MAX_LFN && up(CharOf(name, i)) == up(buf[i]))
  }

  /** The segment is accepted. */
  ghost predicate Accepts(up: word -> word, buf: seq<word>, name: seq<word>, ord: nat)
    requires |buf| == MAX_LFN + 1 && 1 <= ord
  {
    && (forall i :: From(ord) <= i < From(ord) + 13 ==> SameAt(up, buf, name, i))
    && (From(ord) + 13 == |name| <= MAX_LFN ==> buf[|name|] == 0)
  }

  method CmpLfn(up: word -> word, lfnbuf: seq<word>, dir: Entry, ghost name: seq<word>, ghost ord: nat, ghost sum: byte)
    returns (ok: bool)
    requires |lfnbuf| == MAX_LFN + 1 && LfnName(name) && IsPiece(dir, name, ord, sum) && IsFold(up)
    ensures ok <==> Accepts(up, lfnbuf, name, ord)
  {
    LastSegment(name, ord);
    var i := (dir[0] as int % 0x40 + dir[0] as int / 0x80 * 0x80 - 1) * 13;
    var s, wc: word := 0, 1;
    while s < 13
      invariant 0 <= s <= 13
      invariant wc == 0 <==> From(ord) + s > |name|
      invariant i == if From(ord) + s > |name| then |name| + 1 else From(ord) + s
      invariant i <= MAX_LFN
      invariant forall k :: From(ord) <= k < From(ord) + s ==> SameAt(up, lfnbuf, name, k)
    {
      var uc := CharIn(dir, s);
      assert uc == CharOf(name, From(ord) + s);
      if wc != 0 {
        wc := up(uc);
        if i >= MAX_LFN || wc != up(lfnbuf[i]) {
          assert !SameAt(up, lfnbuf, name, From(ord) + s);
          return false;
        }
        i := i + 1;
      } else if uc != 0xFFFF {
        return false;
      }
      s := s + 1;
    }
    if dir[0] as int / 0x40 % 2 == 1 && wc != 0 && lfnbuf[i] != 0 { return false; }
    ok := true;
  }

  /** For every stored name of up to 254 characters, all its entries are accepted exactly when the name looked
      for is equal to it after case folding, whatever the buffer holds behind that name. */
  lemma AllAccept(up: word -> word, buf: seq<word>, query: seq<word>, name: seq<word>)
    requires IsFold(up) && Holds(buf, query) && LfnName(query) && LfnName(name) && 1 <= |name| <= 254
    ensures (forall ord :: 1 <= ord <= Segments(name) ==> Accepts(up, buf, name, ord)) <==> SameFolded(up, query, name)
  {
    if forall ord :: 1 <= ord <= Segments(name) ==> Accepts(up, buf, name, ord) {
      AcceptedIsSame(up, buf, query, name);
    }
    if SameFolded(up, query, name) {
      forall ord | 1 <= ord <= Segments(name) ensures Accepts(up, buf, name, ord) {
        SameIsAccepted(up, buf, query, name, ord);
      }
    }
  }

  lemma AcceptedIsSame(up: word -> word, buf: seq<word>, query: seq<word>, name: seq<word>)
    requires IsFold(up) && Holds(buf, query) && LfnName(query) && LfnName(name) && 1 <= |name| <= 254
    requires forall ord :: 1 <= ord <= Segments(name) ==> Accepts(up, buf, name, ord)
    ensures SameFolded(up, query, name)
  {
    forall i | 0 <= i < |name| ensures SameAt(up, buf, name, i) { assert Accepts(up, buf, name, i / 13 + 1); }
    assert |query| < |name| ==> SameAt(up, buf, name, |query|);
    assert Accepts(up, buf, name, Segments(name));
    if |name| % 13 != 0 { assert SameAt(up, buf, name, |name|); }
    assert buf[|name|] == 0;
    forall i | 0 <= i < |name| ensures up(query[i]) == up(name[i]) {
      assert SameAt(up, buf, name, i) && buf[i] == query[i];
    }
  }

  lemma SameIsAccepted(up: word -> word, buf: seq<word>, query: seq<word>, name: seq<word>, ord: nat)
    requires Holds(buf, query) && 1 <= |name| <= 254 && SameFolded(up, query, name) && 1 <= ord
    ensures Accepts(up, buf, name, ord)
  {
    forall i | From(ord) <= i < From(ord) + 13 ensures SameAt(up, buf, name, i) {
      if i < |name| { assert buf[i] == query[i]; }
    }
  }

  /** A stored name of 255 characters is never found by its long name: the comparison of its terminator is out of
      the buffer's bounds. */
  lemma LongestIsNeverAccepted(up: word -> word, buf: seq<word>, name: seq<word>)
    requires |buf| == MAX_LFN + 1 && |name| == 255
    ensures Segments(name) == 20 && !Accepts(up, buf, name, 20)
  {
    assert !SameAt(up, buf, name, 255);
  }

  // ----- sum_sfn -----

  /** One step of the checksum: rotate right, add. */
  function SumStep(sum: byte, b: byte): byte
  {
    (sum / 2 + sum as int % 2 * 128 + b as int) % 0x100
  }

  function SumOf(s: seq<byte>): byte
  {
    if s == [] then 0 else SumStep(SumOf(s[..|s| - 1]), s[|s| - 1])
  }

  lemma ShiftDropsBits(sum: byte, b: byte)
    ensures (sum as int / 2 + sum as int * 128 + b as int) % 0x100 == SumStep(sum, b) as int
  {
    var h, r := sum as int / 2, sum as int % 2;
    assert sum as int == 2 * h + r;
    ByteWraps(h + 128 * r + b as int, h);
  }

  lemma ByteWraps(x: nat, k: nat)
    ensures (x + 0x100 * k) % 0x100 == x % 0x100
  {
  }

  method SumSfn(dir: seq<byte>) returns (sum: byte)
    requires 11 <= |dir|
    ensures sum == SumOf(dir[..11])
  {
    sum := 0;
    var n := 11;
    hide SumStep;
    assert dir[..0] == [];
    while n > 0
      invariant 0 <= n <= 11 && sum == SumOf(dir[..11 - n])
    {
      assert dir[..12 - n][..11 - n] == dir[..11 - n];
      ShiftDropsBits(sum, dir[11 - n]);
      sum := (sum as int / 2 + sum as int * 128 + dir[11 - n] as int) % 0x100;
      n := n - 1;
    }
  }
}
