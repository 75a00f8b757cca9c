/** Short names: create_name and get_fileinfo of ff.c, on ASCII names. */
module ShortName {
  import opened Bytes
  import opened Results
  import Lfn

  const BLANK: byte := 0x20
  const DOT: byte := 0x2E

  predicate IsUpper(c: nat) { 0x41 <= c <= 0x5A }

  predicate IsLower(c: nat) { 0x61 <= c <= 0x7A }

  function Upper(c: word): word { if IsLower(c) then c - 0x20 else c }

  /** The characters that no long name may hold, and those that a short name replaces. */
  const ILLEGAL: seq<word> := [0x22, 0x2A, 0x3A, 0x3C, 0x3E, 0x3F, 0x7C, 0x7F]
  const REPLACED: seq<word> := [0x2B, 0x2C, 0x3B, 0x3D, 0x5B, 0x5D]

  predicate Illegal(c: word) { c in ILLEGAL }

  predicate Replaced(c: word) { c in REPLACED }

  /** The character of a short name for one of a long name. */
  function ShortOf(c: word): byte
    requires c < 0x80
  {
    if Replaced(c) then 0x5F else Upper(c)
  }

  predicate Trailing(c: word) { c == 0x20 || c == 0x2E }

  predicate Ascii(s: seq<word>) { forall i :: 0 <= i < |s| ==> s[i] < 0x80 }

  /** What create_name leaves in dj->lfn: the characters of a long name, neither ending in a blank or a dot. */
  predicate Proper(name: seq<word>)
  {
    && 1 <= |name| <= Lfn.MAX_LFN && !Trailing(name[|name| - 1])
    && forall i :: 0 <= i < |name| ==> 0x20 <= name[i] < 0x80 && !Illegal(name[i]) && name[i] != 0x2F && name[i] != 0x5C
  }

  // ----- the directory form of a name -----

  /** The name in directory form: 8 + 3 characters and the flags of the status byte. */
  datatype Form = Form(fn: seq<byte>, loss: bool, lfn: bool, body: bool, ext: bool)

  /** Where the conversion stands: `i` characters written, in the body (ni = 8) or the extension (ni = 11), with the
      cases of the letters seen in each. */
  datatype Scan = Scan(fn: seq<byte>, i: nat, ni: nat, loss: bool, bodyUp: bool, bodyLow: bool, up: bool, low: bool)
  {
    predicate Ok() { |fn| == 11 && (ni == 8 || ni == 11) && i <= ni }

    /** One more character in its place. */
    function Put(w: word): (s: Scan)
      requires Ok() && i < ni && w < 0x80
      ensures s.Ok() && s.i == i + 1 && s.ni == ni && s.loss == (loss || Replaced(w))
    {
      this.(fn := fn[i := ShortOf(w)], i := i + 1, loss := loss || Replaced(w), up := up || IsUpper(w),
          low := low || IsLower(w))
    }

    /** The step into the extension section. */
    function Enter(lossy: bool): (s: Scan)
      requires Ok()
      ensures s.Ok() && s.loss == (loss || lossy)
    {
      this.(i := 8, ni := 11, loss := loss || lossy, bodyUp := up, bodyLow := low, up := false, low := false)
    }

    function Finish(): Form
      requires Ok()
    {
      var bu, bl := if ni == 8 then up else bodyUp, if ni == 8 then low else bodyLow;
      var eu, el := ni == 11 && up, ni == 11 && low;
      var needed := loss || (bu && bl) || (eu && el);
      Form(if fn[0] == 0xE5 then fn[0 := 0x05] else fn, loss, needed, !needed && bl && !bu, !needed && el && !eu)
    }
  }

  function Blanks(n: nat): (s: seq<byte>)
    ensures |s| == n && forall i :: 0 <= i < n ==> s[i] == BLANK
  {
    seq(n, _ => BLANK)
  }

  /** The first character that is no blank or dot. */
  function Leading(name: seq<word>, si: nat): (r: nat)
    requires si <= |name|
    ensures si <= r <= |name| && (forall k :: si <= k < r ==> Trailing(name[k])) && (r < |name| ==> !Trailing(name[r]))
    decreases |name| - si
  {
    if si < |name| && Trailing(name[si]) then Leading(name, si + 1) else si
  }

  /** The position behind the last dot among the first `di` characters, 0 if there is none. */
  function LastDot(name: seq<word>, di: nat): (r: nat)
    requires di <= |name|
    ensures r <= di && (r > 0 ==> name[r - 1] == 0x2E) && forall k :: r <= k < di ==> name[k] != 0x2E
  {
    if di > 0 && name[di - 1] != 0x2E then LastDot(name, di - 1) else di
  }

  /** One pass of the conversion: it ends, or goes on from a later position. */
  datatype Move = Stop(s: Scan) | Go(si: nat, s: Scan)

  function Step(name: seq<word>, di: nat, si: nat, s: Scan): (m: Move)
    requires Ascii(name) && di <= |name| && si < |name| && s.Ok()
    ensures m.s.Ok() && (m.Go? ==> si < m.si <= |name|)
  {
    if name[si] == 0x20 || (name[si] == 0x2E && si + 1 != di) then Go(si + 1, s.(loss := true))
    else if s.i >= s.ni || si + 1 == di then
      if s.ni == 11 || si + 1 > di then Stop(s.(loss := true)) else Go(di, s.Enter(si + 1 != di))
    else Go(si + 1, s.Put(name[si]))
  }

  /** The conversion from position `si` on. */
  function Fill(name: seq<word>, di: nat, si: nat, s: Scan): (r: Scan)
    requires Ascii(name) && di <= |name| && si <= |name| && s.Ok()
    ensures r.Ok()
    decreases |name| - si
  {
    if si == |name| then s
    else match Step(name, di, si, s)
      case Stop(t) => t
      case Go(n, t) => Fill(name, di, n, t)
  }

  function Start(name: seq<word>): Scan
  {
    Scan(Blanks(11), 0, 8, Leading(name, 0) > 0, false, false, false, false)
  }

  /** The directory form of a long name. */
  function FormOf(name: seq<word>): (f: Form)
    requires Ascii(name)
    ensures |f.fn| == 11
  {
    Fill(name, LastDot(name, |name|), Leading(name, 0), Start(name)).Finish()
  }

  // ----- what the form keeps of a name -----

  /** Equal after case folding. */
  ghost predicate SameName(a: seq<word>, b: seq<word>)
  {
    |a| == |b| && forall i :: 0 <= i < |a| ==> Upper(a[i]) == Upper(b[i])
  }

  ghost predicate SameShort(s: Scan, t: Scan)
  {
    s.fn == t.fn && s.i == t.i && s.ni == t.ni && s.loss == t.loss
  }

  lemma FoldKeeps(c: word, d: word)
    requires Upper(c) == Upper(d)
    ensures (c == 0x20) == (d == 0x20) && (c == 0x2E) == (d == 0x2E) && Replaced(c) == Replaced(d)
    ensures c < 0x80 && d < 0x80 ==> ShortOf(c) == ShortOf(d)
  {
  }

  lemma PutFolds(c: word, d: word, s: Scan, t: Scan)
    requires Upper(c) == Upper(d) && c < 0x80 && d < 0x80 && s.Ok() && t.Ok() && s.i < s.ni && SameShort(s, t)
    ensures SameShort(s.Put(c), t.Put(d))
  {
    hide Replaced, Upper, ShortOf;
    FoldKeeps(c, d);
  }

  lemma StepFolds(a: seq<word>, b: seq<word>, di: nat, si: nat, s: Scan, t: Scan)
    requires Ascii(a) && Ascii(b) && SameName(a, b) && di <= |a| && si < |a| && s.Ok() && t.Ok() && SameShort(s, t)
    ensures var m, n := Step(a, di, si, s), Step(b, di, si, t);
      m.Go? == n.Go? && (m.Go? ==> m.si == n.si) && SameShort(m.s, n.s)
  {
    hide Replaced, Upper, Scan.Put, ShortOf;
    assert Upper(a[si]) == Upper(b[si]);
    FoldKeeps(a[si], b[si]);
    if a[si] == 0x20 || (a[si] == 0x2E && si + 1 != di) {
    } else if s.i >= s.ni || si + 1 == di {
    } else {
      PutFolds(a[si], b[si], s, t);
    }
  }

  lemma {:induction false} FillFolds(a: seq<word>, b: seq<word>, di: nat, si: nat, s: Scan, t: Scan)
    requires Ascii(a) && Ascii(b) && SameName(a, b) && di <= |a| && si <= |a| && s.Ok() && t.Ok() && SameShort(s, t)
    ensures SameShort(Fill(a, di, si, s), Fill(b, di, si, t))
    decreases |a| - si
  {
    hide Step, SameShort;
    if si < |a| {
      StepFolds(a, b, di, si, s, t);
      var m, n := Step(a, di, si, s), Step(b, di, si, t);
      if m.Go? { FillFolds(a, b, di, m.si, m.s, n.s); }
    }
  }

  lemma {:induction false} SameDots(a: seq<word>, b: seq<word>, n: nat, m: nat)
    requires SameName(a, b) && n <= |a| && m <= |a|
    ensures Leading(a, n) == Leading(b, n) && LastDot(a, m) == LastDot(b, m)
    decreases |a| - n + m
  {
    if n < |a| {
      assert Upper(a[n]) == Upper(b[n]);
      SameDots(a, b, n + 1, m);
    } else if m > 0 {
      assert Upper(a[m - 1]) == Upper(b[m - 1]);
      SameDots(a, b, n, m - 1);
    }
  }

  /** Names that differ only in case have the same short form, and lose the same. */
  lemma FormFolds(a: seq<word>, b: seq<word>)
    requires Ascii(a) && Ascii(b) && SameName(a, b)
    ensures FormOf(a).fn == FormOf(b).fn && FormOf(a).loss == FormOf(b).loss
  {
    SameDots(a, b, 0, |a|);
    FillFolds(a, b, LastDot(a, |a|), Leading(a, 0), Start(a), Start(b));
  }

  /** A character of a short name: no control, blank, dot, small letter or replaced character. */
  predicate ShortChar(c: byte)
  {
    0x20 < c < 0x80 && c != DOT && !IsLower(c) && !Replaced(c)
  }

  ghost predicate ShortSoFar(s: Scan)
  {
    && s.Ok() && (forall k :: 0 <= k < 11 ==> s.fn[k] == BLANK || ShortChar(s.fn[k]))
    && (s.i > 0 ==> s.fn[0] != BLANK)
  }

  /** What lets the conversion go on: something is written, or the next character will be. */
  predicate Underway(name: seq<word>, di: nat, si: nat, s: Scan)
  {
    && Ascii(name) && (forall k :: 0 <= k < |name| ==> 0x20 <= name[k])
    && di <= |name| && (di > 0 ==> name[di - 1] == 0x2E) && si <= |name|
    && (s.i > 0 || (si < |name| && !Trailing(name[si])))
  }

  lemma PutIsShort(w: word, s: Scan)
    requires 0x20 < w < 0x80 && w != 0x2E && ShortSoFar(s) && s.i < s.ni
    ensures ShortSoFar(s.Put(w))
  {
    ShortOfIsShort(w);
    hide Replaced, ShortOf, ShortChar;
  }

  lemma ShortOfIsShort(w: word)
    requires 0x20 < w < 0x80 && w != 0x2E
    ensures ShortChar(ShortOf(w)) && ShortOf(w) != BLANK
  {
  }

  lemma StepIsShort(name: seq<word>, di: nat, si: nat, s: Scan)
    requires Underway(name, di, si, s) && ShortSoFar(s) && si < |name|
    ensures var m := Step(name, di, si, s); ShortSoFar(m.s) && m.s.i > 0 && (m.Go? ==> Underway(name, di, m.si, m.s))
  {
    hide Scan.Put, ShortChar;
    if s.i < s.ni && name[si] != 0x20 && name[si] != 0x2E { PutIsShort(name[si], s); }
  }

  lemma {:induction false} FillIsShort(name: seq<word>, di: nat, si: nat, s: Scan)
    requires Underway(name, di, si, s) && ShortSoFar(s)
    ensures ShortSoFar(Fill(name, di, si, s)) && Fill(name, di, si, s).i > 0
    decreases |name| - si
  {
    hide Step;
    if si < |name| {
      StepIsShort(name, di, si, s);
      var m := Step(name, di, si, s);
      if m.Go? { FillIsShort(name, di, m.si, m.s); }
    }
  }

  /** The short form of a name is a short name: it starts with neither a free mark nor a dot. */
  lemma FormIsShort(name: seq<word>)
    requires Proper(name)
    ensures forall k :: 0 <= k < 11 ==> FormOf(name).fn[k] == BLANK || ShortChar(FormOf(name).fn[k])
    ensures ShortChar(FormOf(name).fn[0])
  {
    var l := Leading(name, 0);
    assert l < |name| by { assert !Trailing(name[|name| - 1]); }
    assert name[l] == 0x2E ==> Trailing(name[l]);
    FillIsShort(name, LastDot(name, |name|), l, Start(name));
  }

  // ----- printing a short name -----

  /** A part of a short name as get_fileinfo prints it, up to the first blank. */
  function PrintPart(s: seq<byte>, low: bool, body: bool): seq<word>
  {
    if s == [] || s[0] == BLANK then [] else
    var c := if body && s[0] == 0x05 then 0xE5 else s[0];
    [if low && IsUpper(c) then c + 0x20 else c] + PrintPart(s[1..], low, body)
  }

  /** The name get_fileinfo prints for a short name and its case flags. */
  function Print(fn: seq<byte>, low: bool, extLow: bool): seq<word>
    requires |fn| == 11
  {
    PrintPart(fn[..8], low, true) + if fn[8] != BLANK then [0x2E] + PrintPart(fn[8..], extLow, false) else []
  }

  /** The NT byte of a directory entry for a form. */
  function NtFlags(f: Form): byte { (if f.body then 0x08 else 0) + (if f.ext then 0x10 else 0) }

  /** The name get_fileinfo prints for a short entry. */
  function PrintEntry(dir: seq<byte>): seq<word>
    requires |dir| == 32
  {
    Print(dir[..11], dir[12] as int / 0x08 % 2 == 1, dir[12] as int / 0x10 % 2 == 1)
  }

  method PrintName(dir: seq<byte>) returns (p: seq<word>)
    requires |dir| == 32
    ensures p == PrintEntry(dir)
  {
    var low, extLow := dir[12] as int / 0x08 % 2 == 1, dir[12] as int / 0x10 % 2 == 1;
    p := PrintBytes(dir, 0, 8, low, true);
    if dir[8] != BLANK {
      var q := PrintBytes(dir, 8, 11, extLow, false);
      p := p + [0x2E] + q;
    }
    assert dir[..11][..8] == dir[0..8] && dir[..11][8..] == dir[8..11];
  }

  /** The two copying loops of get_fileinfo. */
  lemma JoinOne(p: seq<word>, c: word, rest: seq<word>)
    ensures p + ([c] + rest) == p + [c] + rest
  {
  }

  method PrintBytes(dir: seq<byte>, from: nat, to: nat, low: bool, body: bool) returns (p: seq<word>)
    requires from <= to <= |dir|
    ensures p == PrintPart(dir[from..to], low, body)
  {
    hide PrintPart;
    p := [];
    var i := from;
    while i < to
      invariant from <= i <= to && p + PrintPart(dir[i..to], low, body) == PrintPart(dir[from..to], low, body)
    {
      var c := dir[i];
      PrintHead(dir[i..to], low, body);
      if c == BLANK { break; }
      if body && c == 0x05 { c := 0xE5; }
      if low && IsUpper(c) { c := c + 0x20; }
      assert dir[i..to][1..] == dir[i + 1..to];
      JoinOne(p, c, PrintPart(dir[i + 1..to], low, body));
      p := p + [c];
      i := i + 1;
    }
    PrintEmpty(low, body);
    assert dir[to..to] == [];
    assert p + [] == p;
  }

  lemma PrintHead(s: seq<byte>, low: bool, body: bool)
    requires s != []
    ensures PrintPart(s, low, body) == if s[0] == BLANK then [] else
      var c := if body && s[0] == 0x05 then 0xE5 else s[0];
      [if low && IsUpper(c) then c + 0x20 else c] + PrintPart(s[1..], low, body)
  {
  }

  lemma PrintEmpty(low: bool, body: bool)
    ensures PrintPart([], low, body) == []
  {
  }

  // ----- the round trip -----

  predicate HasUpper(s: seq<word>) { exists k :: 0 <= k < |s| && IsUpper(s[k]) }

  predicate HasLower(s: seq<word>) { exists k :: 0 <= k < |s| && IsLower(s[k]) }

  /** A character that goes into a short name as it is, but for its case. */
  predicate Plain(c: word) { 0x20 < c < 0x80 && c != 0x2E && !Replaced(c) }

  /** `part` stands in capitals at `at`, padded with blanks up to `end`. */
  ghost predicate Copied(fn: seq<byte>, at: nat, part: seq<word>, end: nat)
  {
    && at + |part| <= end <= |fn|
    && (forall k :: 0 <= k < |part| ==> Plain(part[k]) && fn[at + k] == Upper(part[k]))
    && (forall k :: at + |part| <= k < end ==> fn[k] == BLANK)
  }

  /** Body and extension of a name whose last dot ends at `di`; a name without a dot is all body. */
  function BodyOf(name: seq<word>, di: nat): seq<word>
    requires di <= |name|
  {
    if di == 0 then name else name[..di - 1]
  }

  function ExtOf(name: seq<word>, di: nat): seq<word>
    requires di <= |name|
  {
    if di == 0 then [] else name[di..]
  }

  /** As long as nothing is lost: the first `si` characters are in place. */
  ghost predicate Faithful(name: seq<word>, di: nat, si: nat, s: Scan)
  {
    && s.Ok() && si <= |name| && di <= |name|
    && if s.ni == 8 then
         && s.i == si && (di == 0 || si < di)
         && Copied(s.fn, 0, name[..si], 8) && Copied(s.fn, 8, [], 11)
         && s.up == HasUpper(name[..si]) && s.low == HasLower(name[..si])
       else
         && 1 <= di <= si && s.i == 8 + si - di
         && Copied(s.fn, 0, name[..di - 1], 8) && Copied(s.fn, 8, name[di..si], 11)
         && s.bodyUp == HasUpper(name[..di - 1]) && s.bodyLow == HasLower(name[..di - 1])
         && s.up == HasUpper(name[di..si]) && s.low == HasLower(name[di..si])
  }

  lemma CaseGrows(s: seq<word>, c: word)
    ensures HasUpper(s + [c]) == (HasUpper(s) || IsUpper(c)) && HasLower(s + [c]) == (HasLower(s) || IsLower(c))
  {
    var t := s + [c];
    assert t[|s|] == c;
    if HasUpper(s) {
      var k :| 0 <= k < |s| && IsUpper(s[k]);
      assert IsUpper(t[k]);
    }
    if HasLower(s) {
      var k :| 0 <= k < |s| && IsLower(s[k]);
      assert IsLower(t[k]);
    }
  }

  lemma CopyGrows(fn: seq<byte>, at: nat, part: seq<word>, end: nat, c: word)
    requires Copied(fn, at, part, end) && Plain(c) && at + |part| < end
    ensures Copied(fn[at + |part| := Upper(c)], at, part + [c], end)
  {
  }

  lemma CopyElsewhere(fn: seq<byte>, at: nat, part: seq<word>, end: nat, i: nat, b: byte)
    requires Copied(fn, at, part, end) && i < |fn| && !(at <= i < end)
    ensures Copied(fn[i := b], at, part, end)
  {
  }

  lemma BodyFaithful(name: seq<word>, di: nat, si: nat, s: Scan)
    requires Faithful(name, di, si, s) && s.ni == 8 && si < |name| && s.i < 8 && si + 1 != di && Plain(name[si])
    ensures Faithful(name, di, si + 1, s.Put(name[si]))
  {
    hide Copied, HasUpper, HasLower, Replaced;
    var c := name[si];
    assert name[..si + 1] == name[..si] + [c];
    CaseGrows(name[..si], c);
    CopyGrows(s.fn, 0, name[..si], 8, c);
    CopyElsewhere(s.fn, 8, [], 11, si, Upper(c));
  }

  lemma ExtFaithful(name: seq<word>, di: nat, si: nat, s: Scan)
    requires Faithful(name, di, si, s) && s.ni == 11 && si < |name| && s.i < 11 && Plain(name[si])
    ensures Faithful(name, di, si + 1, s.Put(name[si]))
  {
    hide Copied, HasUpper, HasLower, Replaced;
    var c := name[si];
    assert name[di..si + 1] == name[di..si] + [c];
    CaseGrows(name[di..si], c);
    CopyGrows(s.fn, 8, name[di..si], 11, c);
    CopyElsewhere(s.fn, 0, name[..di - 1], 8, s.i, Upper(c));
  }

  lemma EnterFaithful(name: seq<word>, di: nat, si: nat, s: Scan)
    requires Faithful(name, di, si, s) && s.ni == 8 && si + 1 == di
    ensures Faithful(name, di, di, s.Enter(false))
  {
    hide Copied, HasUpper, HasLower;
    assert name[di..di] == [];
    assert name[..di - 1] == name[..si];
    EmptyCase();
  }

  lemma StepFaithful(name: seq<word>, di: nat, si: nat, s: Scan)
    requires Ascii(name) && (forall k :: 0 <= k < |name| ==> 0x20 <= name[k]) && di == LastDot(name, |name|)
    requires si < |name| && s.Ok() && !s.loss && Faithful(name, di, si, s)
    ensures var m := Step(name, di, si, s);
      !m.s.loss ==> m.Go? && Faithful(name, di, m.si, m.s)
  {
    hide LastDot, HasUpper, HasLower, Scan.Put, Scan.Enter, Copied;
    var c := name[si];
    if c == 0x20 || (c == 0x2E && si + 1 != di) {
    } else if s.i >= s.ni || si + 1 == di {
      assert s.ni == 8 ==> di == 0 || si < di;
      assert s.ni == 11 || s.ni == 8;
      if s.ni == 8 && si + 1 == di {
        hide Faithful;
        EnterFaithful(name, di, si, s);
      }
    } else if !Replaced(c) {
      assert s.ni == 11 || s.ni == 8;
      hide Faithful, Replaced;
      if s.ni == 8 { BodyFaithful(name, di, si, s); } else { ExtFaithful(name, di, si, s); }
    }
  }

  lemma EmptyCase()
    ensures !HasUpper([]) && !HasLower([])
  {
  }

  lemma {:induction false} FillFaithful(name: seq<word>, di: nat, si: nat, s: Scan)
    requires Ascii(name) && (forall k :: 0 <= k < |name| ==> 0x20 <= name[k]) && di == LastDot(name, |name|)
    requires si <= |name| && s.Ok() && (!s.loss ==> Faithful(name, di, si, s))
    ensures var r := Fill(name, di, si, s); !r.loss ==> Faithful(name, di, |name|, r)
    decreases |name| - si
  {
    hide Step, Faithful;
    if s.loss {
      LossStays(name, di, si, s);
    } else if si < |name| {
      StepFaithful(name, di, si, s);
      var m := Step(name, di, si, s);
      if m.Go? { FillFaithful(name, di, m.si, m.s); }
    }
  }

  lemma {:induction false} LossStays(name: seq<word>, di: nat, si: nat, s: Scan)
    requires Ascii(name) && di <= |name| && si <= |name| && s.Ok() && s.loss
    ensures Fill(name, di, si, s).loss
    decreases |name| - si
  {
    if si < |name| {
      var m := Step(name, di, si, s);
      if m.Go? { LossStays(name, di, m.si, m.s); }
    }
  }

  /** A copied part without mixed case prints as it was. */
  lemma {:induction false} PrintCopied(fn: seq<byte>, at: nat, part: seq<word>, end: nat, body: bool)
    requires Copied(fn, at, part, end) && !(HasUpper(part) && HasLower(part))
    ensures PrintPart(fn[at..end], HasLower(part), body) == part
    decreases |part|
  {
    PrintAs(fn, at, part, end, HasLower(part), body);
  }

  lemma {:induction false} PrintAs(fn: seq<byte>, at: nat, part: seq<word>, end: nat, low: bool, body: bool)
    requires Copied(fn, at, part, end) && (low ==> !HasUpper(part)) && (HasLower(part) ==> low)
    ensures PrintPart(fn[at..end], low, body) == part
    decreases |part|
  {
    if part != [] {
      assert fn[at..end][1..] == fn[at + 1..end];
      assert part[0] == part[0] && Plain(part[0]) && fn[at] == Upper(part[0]);
      assert IsUpper(part[0]) ==> HasUpper(part);
      assert IsLower(part[0]) ==> HasLower(part);
      CaseGrowsFront(part);
      PrintAs(fn, at + 1, part[1..], end, low, body);
      assert part == [part[0]] + part[1..];
    }
  }

  lemma CaseGrowsFront(s: seq<word>)
    requires s != []
    ensures HasUpper(s[1..]) ==> HasUpper(s)
    ensures HasLower(s[1..]) ==> HasLower(s)
  {
    if HasUpper(s[1..]) {
      var k :| 0 <= k < |s[1..]| && IsUpper(s[1..][k]);
      assert IsUpper(s[k + 1]);
    }
    if HasLower(s[1..]) {
      var k :| 0 <= k < |s[1..]| && IsLower(s[1..][k]);
      assert IsLower(s[k + 1]);
    }
  }

  lemma StartFaithful(name: seq<word>)
    requires Leading(name, 0) == 0
    ensures Faithful(name, LastDot(name, |name|), 0, Start(name))
  {
    assert name[..0] == [];
    assert Start(name).fn[8..11] == Blanks(3);
  }

  /** A name with a dot has something behind it, since it does not end in one. */
  lemma ExtPresent(name: seq<word>, di: nat, fn: seq<byte>)
    requires Proper(name) && di == LastDot(name, |name|) && 1 <= di && Copied(fn, 8, name[di..], 11)
    ensures fn[8] != BLANK
  {
    assert di < |name|;
    assert Plain(name[di..][0]) && fn[8 + 0] == Upper(name[di..][0]);
  }

  lemma BlankExt(fn: seq<byte>)
    requires Copied(fn, 8, [], 11)
    ensures fn[8] == BLANK
  {
  }

  /** A name whose short form loses something gets a long entry. */
  lemma LossNeedsLong(name: seq<word>)
    requires Ascii(name)
    ensures FormOf(name).loss ==> FormOf(name).lfn
  {
    hide Fill;
  }

  /** A form without an extension prints as the body. */
  lemma PrintBody(name: seq<word>, fn: seq<byte>)
    requires |fn| == 11 && Copied(fn, 0, name, 8) && !(HasUpper(name) && HasLower(name)) && fn[8] == BLANK
    ensures forall ext :: Print(fn, HasLower(name), ext) == name
  {
    hide Copied, HasUpper, HasLower, PrintPart;
    PrintCopied(fn, 0, name, 8, true);
    assert fn[0..8] == fn[..8];
  }

  /** A form with an extension prints as both, with the dot between them. */
  lemma PrintBoth(name: seq<word>, di: nat, fn: seq<byte>)
    requires |fn| == 11 && 1 <= di <= |name| && name[di - 1] == 0x2E && fn[8] != BLANK
    requires Copied(fn, 0, name[..di - 1], 8) && !(HasUpper(name[..di - 1]) && HasLower(name[..di - 1]))
    requires Copied(fn, 8, name[di..], 11) && !(HasUpper(name[di..]) && HasLower(name[di..]))
    ensures Print(fn, HasLower(name[..di - 1]), HasLower(name[di..])) == name
  {
    hide Copied, HasUpper, HasLower, PrintPart;
    PrintCopied(fn, 0, name[..di - 1], 8, true);
    PrintCopied(fn, 8, name[di..], 11, false);
    assert fn[0..8] == fn[..8] && fn[8..11] == fn[8..];
    assert name == name[..di - 1] + [name[di - 1]] + name[di..];
  }

  /** Parse and print: a name that needs no long entry is printed back, character for character, from its short
      form and case flags. */
  lemma PrintParsed(name: seq<word>)
    requires Proper(name) && !FormOf(name).lfn
    ensures Print(FormOf(name).fn, FormOf(name).body, FormOf(name).ext) == name
  {
    hide Fill, Replaced, Copied, HasUpper, HasLower, Print;
    var di := LastDot(name, |name|);
    var l := Leading(name, 0);
    var r := Fill(name, di, l, Start(name));
    if l > 0 { LossStays(name, di, l, Start(name)); }
    if l == 0 { StartFaithful(name); }
    FillFaithful(name, di, l, Start(name));
    FormIsShort(name);
    var f := FormOf(name);
    assert f.fn == r.fn;
    assert name[..|name|] == name;
    if r.ni == 8 {
      BlankExt(f.fn);
      PrintBody(name, f.fn);
    } else {
      ExtPresent(name, di, f.fn);
      PrintBoth(name, di, f.fn);
    }
  }

  // ----- what the form is, and when it loses something -----

  /** A name that fits the short form but for case: up to 8 characters, and up to 3 behind a single dot. */
  predicate Fits83(name: seq<word>)
  {
    var di := LastDot(name, |name|);
    && 1 <= |BodyOf(name, di)| <= 8 && |ExtOf(name, di)| <= 3
    && forall k :: 0 <= k < |name| && k != di - 1 ==> Plain(name[k])
  }

  lemma StepFits(name: seq<word>, di: nat, si: nat, s: Scan)
    requires Ascii(name) && Fits83(name) && di == LastDot(name, |name|)
    requires si < |name| && !s.loss && Faithful(name, di, si, s)
    ensures !Step(name, di, si, s).s.loss
  {
    hide Copied, Replaced;
    assert si != di - 1 ==> Plain(name[si]);
  }

  lemma {:induction false} FillFits(name: seq<word>, di: nat, si: nat, s: Scan)
    requires Ascii(name) && (forall k :: 0 <= k < |name| ==> 0x20 <= name[k]) && Fits83(name)
    requires di == LastDot(name, |name|)
    requires si <= |name| && s.Ok() && !s.loss && Faithful(name, di, si, s)
    ensures !Fill(name, di, si, s).loss
    decreases |name| - si
  {
    hide Step, Faithful, Fits83;
    if si < |name| {
      StepFits(name, di, si, s);
      StepFaithful(name, di, si, s);
      var m := Step(name, di, si, s);
      FillFits(name, di, m.si, m.s);
    }
  }

  /** A name of more than twelve characters never fits. */
  lemma LongIsLossy(name: seq<word>)
    requires Proper(name) && |name| > 12
    ensures FormOf(name).loss
  {
    hide FormOf, Plain;
    LossExactly(name);
  }

  /** A numbered name is called for exactly when the name does not fit the short form. */
  lemma LossExactly(name: seq<word>)
    requires Proper(name)
    ensures FormOf(name).loss <==> !Fits83(name)
  {
    var di, l := LastDot(name, |name|), Leading(name, 0);
    if Fits83(name) {
      assert BodyOf(name, di) != [];
      assert Plain(name[0]);
      StartFaithful(name);
      FillFits(name, di, 0, Start(name));
    }
    if !FormOf(name).loss { LosslessFits(name); }
  }

  lemma LosslessFits(name: seq<word>)
    requires Proper(name) && !FormOf(name).loss
    ensures Fits83(name)
  {
    var di, l := LastDot(name, |name|), Leading(name, 0);
    hide Fill, Replaced, HasUpper, HasLower;
    if l > 0 { LossStays(name, di, l, Start(name)); }
    if l == 0 { StartFaithful(name); }
    FillFaithful(name, di, l, Start(name));
    var r := Fill(name, di, l, Start(name));
    if r.ni == 8 {
      forall k | 0 <= k < |name| ensures Plain(name[k]) { assert Plain(name[..|name|][k]); }
    } else {
      assert di - 1 != 0 by { assert l == 0; }
      forall k | 0 <= k < |name| && k != di - 1 ensures Plain(name[k]) {
        if k < di { assert Plain(name[..di - 1][k]); } else { assert Plain(name[di..|name|][k - di]); }
      }
    }
  }

  /** The characters that a part of a name contributes. */
  function Kept(s: seq<word>): seq<byte>
    requires Ascii(s)
  {
    if s == [] then [] else
    Kept(s[..|s| - 1]) + if Trailing(s[|s| - 1]) then [] else [ShortOf(s[|s| - 1])]
  }

  /** The first `n` of them, padded with blanks. */
  function Field(s: seq<byte>, n: nat): (r: seq<byte>)
    ensures |r| == n
  {
    if |s| >= n then s[..n] else s + Blanks(n - |s|)
  }

  /** The short form of a name: the first 8 characters kept of what stands before its last dot, and the first 3 of
      what stands behind it. Dots among the leading ones do not count. */
  function ShortForm(name: seq<word>): seq<byte>
    requires Ascii(name)
  {
    var di, l := LastDot(name, |name|), Leading(name, 0);
    if di <= l then Field(Kept(name[l..]), 8) + Blanks(3)
    else Field(Kept(name[l..di - 1]), 8) + Field(Kept(name[di..]), 3)
  }

  lemma KeptSnoc(name: seq<word>, a: nat, b: nat)
    requires Ascii(name) && a <= b < |name|
    ensures Kept(name[a..b + 1]) == Kept(name[a..b]) + if Trailing(name[b]) then [] else [ShortOf(name[b])]
  {
    assert name[a..b + 1][..b - a] == name[a..b];
  }

  lemma {:induction false} KeptPrefix(name: seq<word>, a: nat, b: nat, c: nat)
    requires Ascii(name) && a <= b <= c <= |name|
    ensures Kept(name[a..b]) <= Kept(name[a..c])
  {
    if b < c {
      KeptPrefix(name, a, b, c - 1);
      KeptSnoc(name, a, c - 1);
    }
  }

  /** How far the conversion has come, whether or not something was lost. */
  ghost predicate Written(name: seq<word>, l: nat, di: nat, si: nat, s: Scan)
  {
    && s.Ok() && Ascii(name) && l <= si <= |name| && di <= |name|
    && if s.ni == 8 then
         && (di <= l || si < di) && |Kept(name[l..si])| == s.i
         && s.fn == Kept(name[l..si]) + Blanks(11 - s.i)
       else
         && l < di <= si && |Kept(name[di..si])| == s.i - 8
         && s.fn == Field(Kept(name[l..di - 1]), 8) + Kept(name[di..si]) + Blanks(11 - s.i)
  }

  lemma PutWritten(k: seq<byte>, n: nat, b: byte)
    requires |k| + n == 11 && n > 0
    ensures (k + Blanks(n))[|k| := b] == (k + [b]) + Blanks(n - 1)
  {
  }

  lemma FieldOfBlanks(k: seq<byte>)
    requires |k| <= 8
    ensures k + Blanks(11 - |k|) == Field(k, 8) + Blanks(3)
  {
  }

  lemma FieldOfPrefix(k: seq<byte>, m: seq<byte>, n: nat)
    requires k <= m && |k| >= n
    ensures Field(k, n) == Field(m, n)
  {
  }

  lemma SkipWritten(name: seq<word>, l: nat, di: nat, si: nat, s: Scan)
    requires Written(name, l, di, si, s) && si < |name| && Trailing(name[si]) && si + 1 != di
    ensures Written(name, l, di, si + 1, s.(loss := true))
  {
    hide Kept, Field;
    if s.ni == 8 { KeptSnoc(name, l, si); } else { KeptSnoc(name, di, si); }
  }

  lemma BodyWritten(name: seq<word>, l: nat, di: nat, si: nat, s: Scan)
    requires Written(name, l, di, si, s) && si < |name| && !Trailing(name[si]) && s.ni == 8 && s.i < 8 && si + 1 != di
    ensures Written(name, l, di, si + 1, s.Put(name[si]))
  {
    hide Kept, Field, Replaced, ShortOf, Upper;
    KeptSnoc(name, l, si);
    PutWritten(Kept(name[l..si]), 11 - s.i, ShortOf(name[si]));
  }

  lemma ExtWritten(name: seq<word>, l: nat, di: nat, si: nat, s: Scan)
    requires Written(name, l, di, si, s) && si < |name| && !Trailing(name[si]) && s.ni == 11 && s.i < 11
    ensures Written(name, l, di, si + 1, s.Put(name[si]))
  {
    hide Kept, Field, Replaced, ShortOf, Upper;
    var h, k, c := Field(Kept(name[l..di - 1]), 8), Kept(name[di..si]), ShortOf(name[si]);
    KeptSnoc(name, di, si);
    PutWritten(h + k, 11 - s.i, c);
    assert h + (k + [c]) == (h + k) + [c];
  }

  lemma StepKinds(name: seq<word>, di: nat, si: nat, s: Scan)
    requires Ascii(name) && di <= |name| && si < |name| && s.Ok()
    ensures var m, c := Step(name, di, si, s), name[si];
      if c == 0x20 || (c == 0x2E && si + 1 != di) then m == Go(si + 1, s.(loss := true)) && Trailing(c)
      else if s.i >= s.ni || si + 1 == di then
        m == if s.ni == 11 || si + 1 > di then Stop(s.(loss := true)) else Go(di, s.Enter(si + 1 != di))
      else m == Go(si + 1, s.Put(c)) && !Trailing(c)
  {
    hide Scan.Put, Scan.Enter;
  }

  lemma StepWritten(name: seq<word>, l: nat, di: nat, si: nat, s: Scan)
    requires Written(name, l, di, si, s) && si < |name| && (di > 0 ==> name[di - 1] == 0x2E)
    ensures var m := Step(name, di, si, s);
      if m.Go? then Written(name, l, di, m.si, m.s) else Ended(name, l, di, m.s.fn)
  {
    WrittenBounds(name, l, di, si, s);
    StepKinds(name, di, si, s);
    hide Step, Written, Ended, Ascii, Trailing, Scan.Put, Scan.Enter, Scan.Ok;
    var c := name[si];
    if c == 0x20 || (c == 0x2E && si + 1 != di) {
      SkipWritten(name, l, di, si, s);
    } else if s.i >= s.ni || si + 1 == di {
      if s.ni == 11 { StopWritten(name, l, di, si, s); } else { EnterWritten(name, l, di, si, s); }
    } else {
      if s.ni == 8 { BodyWritten(name, l, di, si, s); } else { ExtWritten(name, l, di, si, s); }
    }
  }

  /** The conversion is over: `fn` is the short form for these positions. */
  ghost predicate Ended(name: seq<word>, l: nat, di: nat, fn: seq<byte>)
  {
    && Ascii(name) && l <= |name| && di <= |name|
    && fn == if di <= l then Field(Kept(name[l..]), 8) + Blanks(3)
             else Field(Kept(name[l..di - 1]), 8) + Field(Kept(name[di..]), 3)
  }

  lemma StopWritten(name: seq<word>, l: nat, di: nat, si: nat, s: Scan)
    requires Written(name, l, di, si, s) && s.ni == 11 && s.i == 11
    ensures Ended(name, l, di, s.fn)
  {
    KeptPrefix(name, di, si, |name|);
    assert name[di..|name|] == name[di..];
    FieldOfPrefix(Kept(name[di..si]), Kept(name[di..]), 3);
  }

  lemma EnterWritten(name: seq<word>, l: nat, di: nat, si: nat, s: Scan)
    requires Written(name, l, di, si, s) && s.ni == 8 && (s.i == 8 || si + 1 == di) && si < |name|
    ensures if si + 1 > di then Ended(name, l, di, s.fn) else Written(name, l, di, di, s.Enter(si + 1 != di))
  {
    hide Kept, Field;
    FieldOfBlanks(Kept(name[l..si]));
    if si + 1 > di {
      KeptPrefix(name, l, si, |name|);
      assert name[l..|name|] == name[l..];
      FieldOfPrefix(Kept(name[l..si]), Kept(name[l..]), 8);
    } else {
      KeptPrefix(name, l, si, di - 1);
      if s.i == 8 { FieldOfPrefix(Kept(name[l..si]), Kept(name[l..di - 1]), 8); }
      KeptNothing();
      assert name[di..di] == [];
    }
  }

  lemma KeptNothing()
    ensures Kept([]) == []
  {
  }

  lemma {:induction false} FillWritten(name: seq<word>, l: nat, di: nat, si: nat, s: Scan)
    requires Written(name, l, di, si, s) && di == LastDot(name, |name|) && l == Leading(name, 0)
    ensures Fill(name, di, si, s).fn == ShortForm(name)
    decreases |name| - si
  {
    if si < |name| {
      hide Step, Written, Kept, Field, Leading, LastDot, Blanks;
      StepWritten(name, l, di, si, s);
      WrittenBounds(name, l, di, si, s);
      var m := Step(name, di, si, s);
      if m.Go? { FillWritten(name, l, di, m.si, m.s); }
    } else {
      EndWritten(name, l, di, s);
    }
  }

  lemma WrittenBounds(name: seq<word>, l: nat, di: nat, si: nat, s: Scan)
    requires Written(name, l, di, si, s)
    ensures s.Ok() && Ascii(name) && l <= si && di <= |name| && (s.ni == 11 ==> l < di <= si)
  {
  }

  lemma EndWritten(name: seq<word>, l: nat, di: nat, s: Scan)
    requires Written(name, l, di, |name|, s) && l == Leading(name, 0) && di == LastDot(name, |name|)
    ensures s.fn == ShortForm(name)
  {
    hide Kept, Leading, LastDot, Blanks, Field;
    assert name[l..|name|] == name[l..];
    assert name[di..|name|] == name[di..];
    if s.ni == 8 {
      FieldOfBlanks(Kept(name[l..]));
    } else {
      FieldOfExt(Field(Kept(name[l..di - 1]), 8), Kept(name[di..]));
    }
  }

  lemma FieldOfExt(body: seq<byte>, k: seq<byte>)
    requires |k| <= 3
    ensures body + k + Blanks(3 - |k|) == body + Field(k, 3)
  {
  }

  lemma StartWritten(name: seq<word>)
    requires Ascii(name)
    ensures Written(name, Leading(name, 0), LastDot(name, |name|), Leading(name, 0), Start(name))
  {
    hide Kept, Blanks, LastDot, Leading;
    var l := Leading(name, 0);
    KeptNothing();
    assert Kept(name[l..l]) == [] by { assert name[l..l] == []; }
    assert Blanks(11) == [] + Blanks(11);
  }

  lemma ShortFormAscii(name: seq<word>)
    requires Ascii(name)
    ensures |ShortForm(name)| == 11 && ShortForm(name)[0] < 0x80
  {
    hide Kept;
    var di, l := LastDot(name, |name|), Leading(name, 0);
    if di <= l { KeptAscii(name[l..]); } else { KeptAscii(name[l..di - 1]); }
  }

  /** The short form of every name, lossy or not. */
  lemma FormIs(name: seq<word>)
    requires Ascii(name)
    ensures FormOf(name).fn == ShortForm(name)
  {
    hide Fill, Written, ShortForm, LastDot, Leading, Blanks;
    var l := Leading(name, 0);
    StartWritten(name);
    FillWritten(name, l, LastDot(name, |name|), l, Start(name));
    ShortFormAscii(name);
  }

  lemma {:induction false} KeptAscii(s: seq<word>)
    requires Ascii(s)
    ensures forall k :: 0 <= k < |Kept(s)| ==> Kept(s)[k] < 0x80
  {
    if s != [] { KeptAscii(s[..|s| - 1]); }
  }

  // ----- create_name -----

  function CharAt(path: seq<word>, i: nat): word { if i < |path| then path[i] else 0 }

  predicate EndsSegment(w: word) { w < 0x20 || w == 0x2F || w == 0x5C }

  /** Where the segment that starts at `si` ends. */
  function SegmentEnd(path: seq<word>, si: nat): (r: nat)
    requires si <= |path|
    ensures si <= r <= |path| && EndsSegment(CharAt(path, r))
    ensures forall k :: si <= k < r ==> !EndsSegment(path[k])
    decreases |path| - si
  {
    if EndsSegment(CharAt(path, si)) then si else SegmentEnd(path, si + 1)
  }

  /** Without the blanks and dots at its end. */
  function Stripped(s: seq<word>): (r: seq<word>)
    ensures r <= s && (r != [] ==> !Trailing(r[|r| - 1]))
  {
    if s != [] && Trailing(s[|s| - 1]) then Stripped(s[..|s| - 1]) else s
  }

  /** A segment that makes a name. */
  predicate Acceptable(seg: seq<word>)
  {
    |seg| <= Lfn.MAX_LFN && (forall k :: 0 <= k < |seg| ==> !Illegal(seg[k])) && Stripped(seg) != []
  }

  lemma SegmentChars(path: seq<word>, from: nat, to: nat)
    requires from <= to <= |path|
    ensures (forall k :: 0 <= k < to - from ==> !Illegal(path[from..to][k])) <==>
      (forall k :: from <= k < to ==> !Illegal(path[k]))
  {
    hide Illegal;
    var seg := path[from..to];
    if forall k :: 0 <= k < |seg| ==> !Illegal(seg[k]) {
      forall k | from <= k < to ensures !Illegal(path[k]) { assert seg[k - from] == path[k]; }
    }
  }

  /** The first loop of create_name: the characters of the segment. */
  method CopySegment(path: seq<word>, start: nat) returns (ok: bool, lfn: seq<word>, next: nat)
    requires Ascii(path) && start <= |path|
    ensures ok <==> (SegmentEnd(path, start) - start <= Lfn.MAX_LFN &&
      forall k :: start <= k < SegmentEnd(path, start) ==> !Illegal(path[k]))
    ensures ok ==> lfn == path[start..SegmentEnd(path, start)] && next == SegmentEnd(path, start) + 1
  {
    hide Illegal;
    lfn := [];
    var si := start;
    while true
      invariant start <= si <= |path| && SegmentEnd(path, si) == SegmentEnd(path, start)
      invariant lfn == path[start..si] && |lfn| <= Lfn.MAX_LFN && forall k :: start <= k < si ==> !Illegal(path[k])
      decreases |path| - si
    {
      var w := CharAt(path, si);
      si := si + 1;
      if EndsSegment(w) { break; }
      if |lfn| >= Lfn.MAX_LFN { return false, lfn, 0; }
      if Illegal(w) { return false, lfn, 0; }
      lfn := lfn + [w];
    }
    ok, next := true, si;
  }

  method StripName(lfn0: seq<word>) returns (lfn: seq<word>)
    ensures lfn == Stripped(lfn0)
  {
    lfn := lfn0;
    while lfn != []
      invariant Stripped(lfn) == Stripped(lfn0)
    {
      var w := lfn[|lfn| - 1];
      if w != 0x20 && w != 0x2E { break; }
      lfn := lfn[..|lfn| - 1];
    }
  }

  /** The second part of create_name: the directory form. */
  method MakeForm(lfn: seq<word>) returns (f: Form)
    requires Ascii(lfn)
    ensures f == FormOf(lfn)
  {
    hide Step;
    var si := 0;
    while si < |lfn| && (lfn[si] == 0x20 || lfn[si] == 0x2E)
      invariant si <= |lfn| && Leading(lfn, si) == Leading(lfn, 0)
    {
      si := si + 1;
    }
    var di := |lfn|;
    while di > 0 && lfn[di - 1] != 0x2E
      invariant 0 <= di <= |lfn| && LastDot(lfn, di) == LastDot(lfn, |lfn|)
    {
      di := di - 1;
    }
    var s := Scan(Blanks(11), 0, 8, si > 0, false, false, false, false);
    while si < |lfn|
      invariant si <= |lfn| && s.Ok()
      invariant Fill(lfn, di, si, s) == Fill(lfn, LastDot(lfn, |lfn|), Leading(lfn, 0), Start(lfn))
      invariant di == LastDot(lfn, |lfn|)
      decreases |lfn| - si
    {
      var m := Step(lfn, di, si, s);
      s := m.s;
      if m.Stop? { break; }
      si := m.si;
    }
    f := s.Finish();
  }

  /** create_name on an ASCII path: rejects exactly the unacceptable segments, and else gives the name, its
      directory form, and whether it is the last segment. */
  method CreateName(path: seq<word>, start: nat) returns (res: FResult, name: seq<word>, f: Form, last: bool, next: nat)
    requires Ascii(path) && start <= |path|
    ensures res == if Acceptable(path[start..SegmentEnd(path, start)]) then Ok else InvalidName
    ensures res == Ok ==>
      && name == Stripped(path[start..SegmentEnd(path, start)]) && Proper(name) && f == FormOf(name)
      && next == SegmentEnd(path, start) + 1 && (last <==> CharAt(path, next - 1) < 0x20)
  {
    hide Illegal, SegmentEnd;
    f := Form([], false, false, false, false);
    last, next := false, 0;
    var ok, lfn, n := CopySegment(path, start);
    SegmentChars(path, start, SegmentEnd(path, start));
    if !ok {
      return InvalidName, [], f, last, next;
    }
    next := n;
    last := CharAt(path, next - 1) < 0x20;
    name := StripName(lfn);
    if name == [] { return InvalidName, name, f, last, next; }
    f := MakeForm(name);
    res := Ok;
  }
}
