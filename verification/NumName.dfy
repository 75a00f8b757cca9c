/** Numbered short names: gen_numname of ff.c. */
module NumName {
  import opened Bytes
  import opened ShortName

  const TILDE: byte := 0x7E

  /** The decimal digits of a number. */
  function Digits(n: nat): (d: seq<byte>)
    ensures |d| > 0 && forall k :: 0 <= k < |d| ==> 0x30 <= d[k] <= 0x39
  {
    (if n < 10 then [] else Digits(n / 10)) + [0x30 + n % 10]
  }

  lemma {:induction false} DigitsInjective(a: nat, b: nat)
    requires Digits(a) == Digits(b)
    ensures a == b
  {
    var da, db := Digits(a), Digits(b);
    assert da[|da| - 1] == 0x30 + a % 10 && db[|db| - 1] == 0x30 + b % 10;
    if a >= 10 && b >= 10 {
      assert da[..|da| - 1] == Digits(a / 10) && db[..|db| - 1] == Digits(b / 10);
      DigitsInjective(a / 10, b / 10);
    }
  }

  /** The number that decimal digits stand for. */
  function Value(d: seq<byte>): int
  {
    if d == [] then 0 else 10 * Value(d[..|d| - 1]) + d[|d| - 1] as int - 0x30
  }

  /** The digits of a number are its decimal form, without leading zeros. */
  lemma {:induction false} DigitsValue(n: nat)
    ensures Value(Digits(n)) == n && (n > 0 ==> Digits(n)[0] != 0x30)
  {
    var d := Digits(n);
    if n < 10 {
      assert d == [0x30 + n];
      assert Value(d[..0]) == 0;
    } else {
      DigitsValue(n / 10);
      assert d[..|d| - 1] == Digits(n / 10) && d[0] == Digits(n / 10)[0];
    }
  }

  lemma {:induction false} DigitsShort(n: nat, m: nat)
    requires n < Pow10(m) && 1 <= m
    ensures |Digits(n)| <= m
  {
    if n >= 10 { DigitsShort(n / 10, m - 1); }
  }

  function Pow10(m: nat): nat { if m == 0 then 1 else 10 * Pow10(m - 1) }

  lemma WordDigits(n: word)
    ensures |Digits(n)| <= 5
  {
    assert Pow10(5) == 100000 by {
      assert Pow10(1) == 10;
      assert Pow10(2) == 100;
      assert Pow10(3) == 1000;
      assert Pow10(4) == 10000;
    }
    DigitsShort(n, 5);
  }

  /** How much of the body stays: up to the first blank, and `limit` characters at most. */
  function Keep(src: seq<byte>, j: nat, limit: nat): (r: nat)
    requires j <= limit <= |src|
    ensures j <= r <= limit && (r < limit ==> src[r] == BLANK) && forall k :: j <= k < r ==> src[k] != BLANK
    decreases limit - j
  {
    if j < limit && src[j] != BLANK then Keep(src, j + 1, limit) else j
  }

  /** A prefix of the body, a tilde, the number, blanks up to 8 characters, and the extension. */
  function Numbered(src: seq<byte>, n: nat): (r: seq<byte>)
    requires |src| == 11 && |Digits(n)| <= 7
    ensures |r| == 11
  {
    var d := Digits(n);
    var j := Keep(src, 0, 7 - |d|);
    src[..j] + [TILDE] + d + Blanks(7 - j - |d|) + src[8..]
  }

  /** Different numbers give different names, whatever the body. */
  lemma NumberedInjective(src: seq<byte>, a: nat, b: nat)
    requires |src| == 11 && |Digits(a)| <= 7 && |Digits(b)| <= 7 && Numbered(src, a) == Numbered(src, b)
    ensures a == b
  {
    hide Numbered, Digits, Keep;
    var r, ja, jb := Numbered(src, a), Keep(src, 0, 7 - |Digits(a)|), Keep(src, 0, 7 - |Digits(b)|);
    NumberedAt(src, a);
    NumberedAt(src, b);
    assert ja == jb by {
      assert r[ja] == TILDE && r[jb] == TILDE;
    }
    var la, lb := |Digits(a)|, |Digits(b)|;
    var firstBlank := r[if la < lb then ja + 1 + la else ja + 1 + lb];
    assert la == lb;
    assert r[ja + 1..ja + 1 + la] == Digits(a);
    DigitsInjective(a, b);
  }

  lemma NumberedAt(src: seq<byte>, n: nat)
    requires |src| == 11 && |Digits(n)| <= 7
    ensures var r, j, l := Numbered(src, n), Keep(src, 0, 7 - |Digits(n)|), |Digits(n)|;
      && r[j] == TILDE && r[j + 1..j + 1 + l] == Digits(n)
      && (forall k :: j < k < j + 1 + l ==> 0x30 <= r[k] <= 0x39) && (forall k :: j + 1 + l <= k < 8 ==> r[k] == BLANK)
      && r[..j] == src[..j] && r[8..] == src[8..]
  {
    hide Digits, Keep, Blanks;
    var r, j, l := Numbered(src, n), Keep(src, 0, 7 - |Digits(n)|), |Digits(n)|;
    forall k | j < k < j + 1 + l ensures r[k] == Digits(n)[k - j - 1] {}
  }

  /** The hash that replaces the sequence number after five collisions, in WORD arithmetic. */
  function Hashed(num: word, lfn: seq<word>): word
    decreases |lfn|
  {
    if lfn == [] then num
    else Hashed((num as int / 2 + num as int * 0x8000 + lfn[0] as int) % 0x1_0000, lfn[1..])
  }

  /** The number that a sequence number stands for. */
  function NumberOf(num: word, lfn: seq<word>): word { if num > 5 then Hashed(num, lfn) else num }

  /** The short name that gen_numname makes of the body `src` with sequence number `n`. */
  function NumberedWith(src: seq<byte>, name: seq<word>, n: word): (r: seq<byte>)
    requires |src| == 11
    ensures |r| == 11 && |Digits(NumberOf(n, name))| <= 5
  {
    WordDigits(NumberOf(n, name));
    Numbered(src, NumberOf(n, name))
  }

  /** `r` is the body of `src`, cut after `j` characters, a tilde, the digits `d`, blanks, and the extension of `src`.
      The cut is at the first blank, or where tilde and digits just fit into 8 characters. */
  ghost predicate TildeForm(src: seq<byte>, r: seq<byte>, j: nat, d: seq<byte>)
  {
    && |src| == |r| == 11 && j + 1 + |d| <= 8
    && (forall k :: 0 <= k < j ==> r[k] == src[k] != BLANK) && (j + 1 + |d| == 8 || src[j] == BLANK)
    && r[j] == 0x7E && r[j + 1..j + 1 + |d|] == d
    && (forall k :: j + 1 + |d| <= k < 8 ==> r[k] == BLANK) && r[8..] == src[8..]
  }

  ghost predicate TildeNumber(src: seq<byte>, r: seq<byte>, j: nat, n: word)
    requires n < 10
  {
    TildeForm(src, r, j, [0x30 + n])
  }

  lemma NumberedIs(src: seq<byte>, n: nat) returns (j: nat)
    requires |src| == 11 && |Digits(n)| <= 7
    ensures TildeForm(src, Numbered(src, n), j, Digits(n))
  {
    hide Digits, Keep, Blanks;
    j := Keep(src, 0, 7 - |Digits(n)|);
    NumberedAt(src, n);
    var r := Numbered(src, n);
    assert forall k :: 0 <= k < j ==> r[k] == r[..j][k] && src[k] == src[..j][k];
  }

  /** The sequence numbers 1 to 5 give the names "~1" to "~5". */
  lemma SequenceNumber(src: seq<byte>, name: seq<word>, n: word) returns (j: nat)
    requires |src| == 11 && 1 <= n <= 5
    ensures TildeNumber(src, NumberedWith(src, name, n), j, n)
  {
    hide Numbered;
    assert Digits(n) == [0x30 + n];
    j := NumberedIs(src, n);
  }

  lemma SequenceDistinct(src: seq<byte>, name: seq<word>, a: word, b: word)
    requires |src| == 11 && 1 <= a < b <= 5
    ensures NumberedWith(src, name, a) != NumberedWith(src, name, b)
  {
    hide Numbered;
    assert Digits(a) == [0x30 + a] && Digits(b) == [0x30 + b];
    if NumberedWith(src, name, a) == NumberedWith(src, name, b) { NumberedInjective(src, a, b); }
  }

  /** One step of the hash on 16 bits: the number turned right by one bit, plus the character. */
  predicate HashStep(num: word, c: word, next: word)
  {
    next as int == (num as int / 2 + (if num as int % 2 == 1 then 0x8000 else 0) + c as int) % 0x1_0000
  }

  /** `steps` are the values of the hash from `num` on, one for each character of the name. */
  ghost predicate HashRun(num: word, lfn: seq<word>, steps: seq<word>)
  {
    |steps| == |lfn| + 1 && steps[0] == num && forall i :: 0 <= i < |lfn| ==> HashStep(steps[i], lfn[i], steps[i + 1])
  }

  lemma RotateIs(num: word, c: word)
    ensures (num as int / 2 + num as int * 0x8000 + c as int) % 0x1_0000 ==
            (num as int / 2 + (if num as int % 2 == 1 then 0x8000 else 0) + c as int) % 0x1_0000
  {
    var h, r := num as int / 2, num as int % 2;
    assert num as int * 0x8000 == h * 0x1_0000 + r * 0x8000;
    WordWraps(h + r * 0x8000 + c as int, h);
  }

  lemma WordWraps(x: nat, k: nat)
    ensures (x + k * 0x1_0000) % 0x1_0000 == x % 0x1_0000
  {
  }

  /** From the sixth number on the digits have the hash of number and name as their decimal value. */
  lemma {:induction false} HashedSteps(num: word, lfn: seq<word>) returns (steps: seq<word>)
    ensures HashRun(num, lfn, steps) && steps[|lfn|] == Hashed(num, lfn)
    decreases |lfn|
  {
    if lfn == [] {
      steps := [num];
    } else {
      RotateIs(num, lfn[0]);
      var next: word := (num as int / 2 + num as int * 0x8000 + lfn[0] as int) % 0x1_0000;
      var rest := HashedSteps(next, lfn[1..]);
      steps := [num] + rest;
      forall i | 0 <= i < |lfn| ensures HashStep(steps[i], lfn[i], steps[i + 1]) {
        if i > 0 { assert HashStep(rest[i - 1], lfn[1..][i - 1], rest[i]); }
      }
    }
  }

  lemma HashNumberGiven(src: seq<byte>, name: seq<word>, n: word) returns (j: nat, d: seq<byte>, steps: seq<word>)
    requires |src| == 11 && n > 5
    ensures TildeForm(src, NumberedWith(src, name, n), j, d)
    ensures HashRun(n, name, steps) && Value(d) == steps[|name|] as int
    ensures (forall k :: 0 <= k < |d| ==> 0x30 <= d[k] <= 0x39) && d != [] && (d[0] == 0x30 ==> d == [0x30])
  {
    hide Numbered, Digits, Value, Hashed, HashStep, TildeForm;
    steps := HashedSteps(n, name);
    var h := NumberOf(n, name);
    WordDigits(h);
    DigitsValue(h);
    NoDigits();
    d := Digits(h);
    j := NumberedIs(src, h);
  }

  lemma NoDigits()
    ensures Digits(0) == [0x30]
  {
  }

  /** What gen_numname makes of sequence number `n`: itself up to 5, and the hash after that. */
  ghost predicate Given(src: seq<byte>, name: seq<word>, n: word, r: seq<byte>)
  {
    && (1 <= n <= 5 ==> exists j :: TildeNumber(src, r, j, n))
    && (n > 5 ==> exists j, d, steps ::
          TildeForm(src, r, j, d) && HashRun(n, name, steps) && Value(d) == steps[|name|] as int &&
          (forall k :: 0 <= k < |d| ==> 0x30 <= d[k] <= 0x39) && d != [] && (d[0] == 0x30 ==> d == [0x30]))
  }

  lemma NumberGiven(src: seq<byte>, name: seq<word>, n: word)
    requires |src| == 11
    ensures Given(src, name, n, NumberedWith(src, name, n))
  {
    hide NumberedWith, TildeForm, HashRun, Value;
    if 1 <= n <= 5 { var j := SequenceNumber(src, name, n); }
    if n > 5 { var j, d, steps := HashNumberGiven(src, name, n); }
  }

  /** Body and digits determine the form. */
  lemma TildeOnce(src: seq<byte>, r: seq<byte>, j: nat, r': seq<byte>, j': nat, d: seq<byte>)
    requires TildeForm(src, r, j, d) && TildeForm(src, r', j', d)
    ensures r == r' && j == j'
  {
    assert j == j';
    forall k | 0 <= k < 8 ensures r[k] == r'[k] {
      if j < k <= j + |d| {
        assert r[j + 1..j + 1 + |d|][k - j - 1] == r[k] && r'[j + 1..j + 1 + |d|][k - j - 1] == r'[k];
      }
    }
    assert r == r[..8] + r[8..] && r' == r'[..8] + r'[8..];
  }

  method HashNumber(seqNum: word, lfn: seq<word>) returns (num: word)
    ensures num == Hashed(seqNum, lfn)
  {
    num := seqNum;
    var p := 0;
    assert lfn[0..] == lfn;
    while p < |lfn|
      invariant 0 <= p <= |lfn| && Hashed(num, lfn[p..]) == Hashed(seqNum, lfn)
    {
      assert lfn[p..][1..] == lfn[p + 1..];
      num := (num as int / 2 + num as int * 0x8000 + lfn[p] as int) % 0x1_0000;
      p := p + 1;
    }
  }

  /** gen_numname. */
  method GenNumName(src: seq<byte>, lfn: seq<word>, seqNum: word) returns (dst: seq<byte>)
    requires |src| == 11 && lfn != []
    ensures dst == NumberedWith(src, lfn, seqNum) && Given(src, lfn, seqNum, dst)
  {
    hide Digits, Blanks, Hashed, Keep, Given;
    NumberGiven(src, lfn, seqNum);
    var num: word := seqNum;
    if num > 5 { num := HashNumber(num, lfn); }
    WordDigits(num);
    var ns := ToDigits(num);
    var i := 7 - |ns|;
    var j := EndOfBody(src, i);
    dst := Append(src, [TILDE] + ns, j);
    assert src[..j] + [TILDE] + ns == src[..j] + ([TILDE] + ns);
  }

  method EndOfBody(src: seq<byte>, limit: nat) returns (j: nat)
    requires limit <= |src|
    ensures j == Keep(src, 0, limit)
  {
    j := 0;
    while j < limit && src[j] != BLANK
      invariant 0 <= j <= limit && Keep(src, j, limit) == Keep(src, 0, limit)
    {
      j := j + 1;
    }
  }

  /** The itoa loop, from the last digit on. */
  method ToDigits(n: word) returns (ns: seq<byte>)
    ensures ns == Digits(n)
  {
    var num := n;
    ns := [];
    while true
      invariant Digits(num) + ns == Digits(n)
      decreases num
    {
      ns := [0x30 + num % 10] + ns;
      if num < 10 {
        assert Digits(num) == [0x30 + num % 10];
        return;
      }
      assert Digits(num / 10) + ns == Digits(num) + ns[1..];
      num := num / 10;
    }
  }

  /** The loop that appends the number: `ns`, then blanks, up to 8 characters. */
  method Append(src: seq<byte>, ns: seq<byte>, at: nat) returns (dst: seq<byte>)
    requires |src| == 11 && ns != [] && at + |ns| <= 8
    ensures dst == src[..at] + ns + Blanks(8 - at - |ns|) + src[8..]
  {
    dst := src;
    var j, i := at, 0;
    while j < 8
      invariant at <= j <= 8 && |dst| == 11 && i == if j - at <= |ns| then j - at else |ns|
      invariant forall k :: 0 <= k < 11 ==>
        dst[k] == if at <= k < j then (if k < at + |ns| then ns[k - at] else BLANK) else src[k]
    {
      var c := BLANK;
      if i < |ns| {
        c := ns[i];
        i := i + 1;
      }
      dst := dst[j := c];
      j := j + 1;
    }
  }
}
