/** Percent-encoding (section 2.1 of RFC 3986), into a buffer and in place. */
module UrlCodec {
  import opened Rows

  type Byte = c: char | c as int < 256 witness ' '

  const NUL: Byte := 0 as char

  predicate Alphanumeric(c: Byte) {
    '0' <= c <= '9' || 'a' <= c <= 'z' || 'A' <= c <= 'Z'
  }

  /** Bytes that stand for themselves. */
  predicate Safe(c: Byte) {
    Alphanumeric(c) || c in "._-$,;~()"
  }

  function HexDigit(d: nat): Byte
    requires d < 16
  {
    if d < 10 then '0' + d as char else 'a' + (d - 10) as char
  }

  predicate IsHex(c: Byte) {
    '0' <= c <= '9' || 'a' <= c <= 'f' || 'A' <= c <= 'F'
  }

  function HexValue(c: Byte): (v: nat)
    requires IsHex(c)
    ensures v < 16
  {
    if c <= '9' then c as int - '0' as int
    else if c <= 'F' then c as int - 'A' as int + 10
    else c as int - 'a' as int + 10
  }

  function EncodeByte(c: Byte): (e: seq<Byte>)
    ensures |e| == if Safe(c) then 1 else 3
  {
    if Safe(c) then [c] else ['%', HexDigit(c as int / 16), HexDigit(c as int % 16)]
  }

  function Encode(s: seq<Byte>): (e: seq<Byte>)
    ensures |s| <= |e| <= 3 * |s|
  {
    if s == [] then [] else EncodeByte(s[0]) + Encode(s[1..])
  }

  /** A percent sign and two hexadecimal digits. */
  predicate Escape(s: seq<Byte>) {
    |s| >= 3 && s[0] == '%' && IsHex(s[1]) && IsHex(s[2])
  }

  /** At most `room` bytes of what a text stands for. */
  function Decode(s: seq<Byte>, room: nat, form: bool): (d: seq<Byte>)
    ensures |d| <= room && |d| <= |s|
  {
    if s == [] || room == 0 then []
    else if Escape(s) then [(16 * HexValue(s[1]) + HexValue(s[2])) as char] + Decode(s[3..], room - 1, form)
    else [if form && s[0] == '+' then ' ' else s[0]] + Decode(s[1..], room - 1, form)
  }

  /** The same for a text of `n` bytes with more memory behind it: an escape that
      the end of the text cuts off takes its digits from what lies there. */
  function DecodeIn(s: seq<Byte>, n: nat, room: nat, form: bool): (d: seq<Byte>)
    requires n <= |s|
    ensures |d| <= room && |d| <= n
  {
    if n == 0 || room == 0 then []
    else [HeadByte(s, form)] + DecodeIn(s[HeadLength(s)..], Less(n, HeadLength(s)), room - 1, form)
  }

  function Less(n: nat, k: nat): nat {
    if k < n then n - k else 0
  }

  /** The byte that stands at the head of a text, and how much of the text that takes. */
  function HeadByte(s: seq<Byte>, form: bool): Byte
    requires s != []
  {
    if Escape(s) then (16 * HexValue(s[1]) + HexValue(s[2])) as char else if form && s[0] == '+' then ' ' else s[0]
  }

  function HeadLength(s: seq<Byte>): (n: nat)
    requires s != []
    ensures 1 <= n <= |s|
  {
    if Escape(s) then 3 else 1
  }

  /** Behind a terminator or a separator nothing is taken. */
  lemma {:induction false} DecodeWithin(s: seq<Byte>, n: nat, room: nat, form: bool)
    requires n <= |s| && (n < |s| ==> !IsHex(s[n]))
    ensures DecodeIn(s, n, room, form) == Decode(s[..n], room, form)
    decreases n
  {
    if n > 0 && room > 0 {
      var rest, k := DecodeInOne(s, n, room, form);
      HeadWithin(s, n, form);
      DecodeOne(s[..n], room, form);
      DecodeWithin(rest, n - k, room - 1, form);
    }
  }

  lemma DecodeInOne(s: seq<Byte>, n: nat, room: nat, form: bool) returns (rest: seq<Byte>, k: nat)
    requires 0 < n <= |s| && room > 0
    ensures k == HeadLength(s) && rest == s[k..] && Less(n, k) <= |rest|
    ensures DecodeIn(s, n, room, form) == [HeadByte(s, form)] + DecodeIn(rest, Less(n, k), room - 1, form)
  {
    k := HeadLength(s);
    rest := s[k..];
  }

  lemma DecodeOne(s: seq<Byte>, room: nat, form: bool)
    requires s != [] && room > 0
    ensures Decode(s, room, form) == [HeadByte(s, form)] + Decode(s[HeadLength(s)..], room - 1, form)
  {
  }

  lemma HeadWithin(s: seq<Byte>, n: nat, form: bool)
    requires 0 < n <= |s| && (n < |s| ==> !IsHex(s[n]))
    ensures HeadByte(s[..n], form) == HeadByte(s, form) && HeadLength(s[..n]) == HeadLength(s) <= n
    ensures s[..n][HeadLength(s)..] == s[HeadLength(s)..][..n - HeadLength(s)]
    ensures n < |s| ==> s[HeadLength(s)..][n - HeadLength(s)] == s[n]
  {
    assert Escape(s) <==> Escape(s[..n]);
  }

  /** At the end of the text "%4" a digit behind it makes an escape of it. */
  lemma CutEscape(d: Byte)
    requires IsHex(d)
    ensures DecodeIn(['%', '4', d], 2, 3, false) == [(64 + HexValue(d)) as char]
    ensures Decode(['%', '4'], 3, false) == ['%', '4']
  {
    assert Escape(['%', '4', d]);
    assert ['%', '4'][1..] == ['4'] && ['4'][1..] == [];
  }

  /** Whatever the source and the rest of the memory, the source is decoded as if
      it ended there exactly if the byte behind it is no hexadecimal digit. */
  lemma WithinExactly(b: Byte)
    ensures (forall src: seq<Byte>, behind: seq<Byte>, room: nat, form: bool ::
      DecodeIn(src + [b] + behind, |src|, room, form) == Decode(src, room, form)) <==> !IsHex(b)
  {
    if IsHex(b) {
      CutEscape(b);
      var src: seq<Byte>, nothing: seq<Byte> := ['%', '4'], [];
      assert src + [b] + nothing == ['%', '4', b];
      assert DecodeIn(src + [b] + nothing, |src|, 3, false) != Decode(src, 3, false);
    } else {
      forall src: seq<Byte>, behind: seq<Byte>, room: nat, form: bool
        ensures DecodeIn(src + [b] + behind, |src|, room, form) == Decode(src, room, form)
      {
        var memory := src + [b] + behind;
        assert memory[..|src|] == src;
        DecodeWithin(memory, |src|, room, form);
      }
    }
  }

  // ----- what is written and read, byte by byte -----

  const LOWER: string := "0123456789abcdef"
  const UPPER: string := "0123456789ABCDEF"

  lemma DigitMeans(i: nat, c: Byte)
    requires i < 16 && (c == LOWER[i] || c == UPPER[i])
    ensures IsHex(c) && HexValue(c) == i
  {
  }

  lemma DigitSpelled(c: Byte)
    ensures IsHex(c) ==> c in LOWER + UPPER
  {
    if IsHex(c) {
      var i := if c <= '9' then c as int - '0' as int
               else if c >= 'a' then c as int - 'a' as int + 10 else c as int - 'A' as int + 26;
      assert (LOWER + UPPER)[i] == c;
    }
  }

  /** A percent sign and two hexadecimal digits, each in either case, are the byte
      that the digits spell (section 2.1 of RFC 3986). */
  lemma EscapeMeans(i: nat, j: nat, h: Byte, l: Byte, more: seq<Byte>, room: nat, form: bool)
    requires i < 16 && j < 16 && (h == LOWER[i] || h == UPPER[i]) && (l == LOWER[j] || l == UPPER[j]) && room > 0
    ensures Decode(['%', h, l] + more, room, form) == [(16 * i + j) as char] + Decode(more, room - 1, form)
  {
    var s := ['%', h, l] + more;
    DigitMeans(i, h);
    DigitMeans(j, l);
    assert s[0] == '%' && s[1] == h && s[2] == l && s[3..] == more;
  }

  /** Any other byte stands for itself, but for a plus sign in form data, which is
      a blank; a percent sign does so where no two digits follow. */
  lemma PlainMeans(c: Byte, more: seq<Byte>, room: nat, form: bool)
    requires room > 0
    requires c == '%' && |more| >= 2 ==> !(more[0] in LOWER + UPPER && more[1] in LOWER + UPPER)
    ensures Decode([c] + more, room, form) == [if c == '+' && form then ' ' else c] + Decode(more, room - 1, form)
  {
    var s := [c] + more;
    assert s[1..] == more && s[0] == c;
    if c == '%' && |more| >= 2 {
      assert s[1] == more[0] && s[2] == more[1];
      DigitSpelled(more[0]);
      DigitSpelled(more[1]);
    }
  }

  /** By their codes: the digits and letters, hyphen, point, underscore and tilde,
      which section 2.3 of RFC 3986 never reserves, and five that it does. */
  predicate LeftAlone(code: int) {
    || 0x30 <= code <= 0x39 || 0x41 <= code <= 0x5A || 0x61 <= code <= 0x7A
    || code in {0x2D, 0x2E, 0x5F, 0x7E} || code in {0x24, 0x28, 0x29, 0x2C, 0x3B}
  }

  lemma SafeExactly(c: Byte)
    ensures Safe(c) <==> LeftAlone(c as int)
  {
  }

  /** All others are written as a percent sign and the two digits of their value. */
  lemma EncodeMeans(c: Byte, more: seq<Byte>)
    ensures var code := c as int;
      Encode([c] + more) == (if LeftAlone(code) then [c] else ['%', LOWER[code / 16], LOWER[code % 16]]) + Encode(more)
  {
    SafeExactly(c);
    assert ([c] + more)[1..] == more && ([c] + more)[0] == c;
    assert HexDigit(c as int / 16) == LOWER[c as int / 16] && HexDigit(c as int % 16) == LOWER[c as int % 16];
  }

  // ----- there and back -----

  lemma HexBack(d: nat)
    requires d < 16
    ensures IsHex(HexDigit(d)) && HexValue(HexDigit(d)) == d
  {
  }

  lemma ByteBack(c: Byte, more: seq<Byte>, room: nat, form: bool)
    requires room > 0
    ensures Decode(EncodeByte(c) + more, room, form) == [c] + Decode(more, room - 1, form)
  {
    var e := EncodeByte(c);
    if Safe(c) {
      assert (e + more)[1..] == more;
    } else {
      HexBack(c as int / 16);
      HexBack(c as int % 16);
      assert (e + more)[3..] == more;
      assert Escape(e + more);
    }
  }

  /** As much of a text as there is room for. */
  function Clip(s: seq<Byte>, room: nat): seq<Byte> {
    if room < |s| then s[..room] else s
  }

  /** Decoding what was encoded gives it back, as far as there is room, whether
      it is taken for form data or not. */
  lemma {:induction false} DecodeEncode(s: seq<Byte>, room: nat, form: bool)
    ensures Decode(Encode(s), room, form) == Clip(s, room)
  {
    if s != [] && room > 0 {
      DecodeEncode(s[1..], room - 1, form);
      ByteBack(s[0], Encode(s[1..]), room, form);
      ClipFirst(s, room);
    }
  }

  lemma ClipFirst(s: seq<Byte>, room: nat)
    requires s != [] && room > 0
    ensures Clip(s, room) == [s[0]] + Clip(s[1..], room - 1)
  {
  }

  // ----- encoding into a buffer -----

  lemma {:induction false} EncodeNoNul(s: seq<Byte>)
    requires NUL !in s
    ensures NUL !in Encode(s)
  {
    if s != [] {
      EncodeNoNul(s[1..]);
    }
  }

  method PutByte(dst: array<Byte>, at: nat, c: Byte)
    requires at < dst.Length
    modifies dst
    ensures dst[..at + 1] == old(dst[..at]) + [c]
    ensures forall k :: at < k < dst.Length ==> dst[k] == old(dst[k])
  {
    dst[at] := c;
  }

  method PutEscape(dst: array<Byte>, at: nat, c: Byte)
    requires at + 2 < dst.Length && !Safe(c)
    modifies dst
    ensures dst[..at + 3] == old(dst[..at]) + EncodeByte(c)
  {
    PutByte(dst, at, '%');
    PutByte(dst, at + 1, HexDigit(c as int / 16));
    PutByte(dst, at + 2, HexDigit(c as int % 16));
  }

  /** One byte of the source; what stands before it stays as it is. */
  method EncodeStep(c: Byte, dst: array<Byte>, j: nat, end: nat, ghost done: seq<Byte>)
    returns (next: nat, ghost fits: bool)
    requires j < end == dst.Length - 1 && |done| <= j && dst[..|done|] == done
    modifies dst
    ensures j < next <= end && dst[..|done|] == done && fits == (j + |EncodeByte(c)| <= end)
    ensures next == if fits then j + |EncodeByte(c)| else j + 1
    ensures fits && |done| == j ==> dst[..next] == done + EncodeByte(c)
  {
    fits := j + |EncodeByte(c)| <= end;
    if Safe(c) {
      PutByte(dst, j, c);
      next := j + 1;
    } else if j + 2 < end {
      PutEscape(dst, j, c);
      next := j + 3;
    } else {
      next := j + 1;
    }
    assert |done| <= j ==> dst[..next][..|done|] == dst[..|done|];
  }

  /** The front of a buffer encodes as much of a text as there is room for. */
  ghost predicate Front(buffer: seq<Byte>, src: seq<Byte>, room: nat) {
    forall k :: 0 <= k <= |src| && |Encode(src[..k])| <= room ==> Encode(src[..k]) <= buffer
  }

  /** The buffer encodes as much of the source as it has room for, and so is the
      whole encoding exactly when there is room for that. A byte whose escape does
      not fit is passed over, and its place in the buffer with it. */
  method UrlEncode(src: seq<Byte>, dst: array<Byte>)
    requires NUL !in src && dst.Length > 0
    modifies dst
    ensures Front(dst[..], src, dst.Length - 1)
    ensures UpTo(dst[..], NUL) == Encode(src) <==> |Encode(src)| < dst.Length
  {
    var rest, j, end := src, 0, dst.Length - 1;
    ghost var n, m, done: seq<Byte> := 0, 0, [];
    while rest != [] && j < end
      invariant m <= n <= |src| && rest == src[n..] && |done| <= j <= end
      invariant done == Encode(src[..m]) && dst[..|done|] == done
      invariant if m == n then j == |done| else |Encode(src[..m + 1])| > end
      decreases |rest|
    {
      EncodeNext(src, n);
      ghost var fits;
      j, fits := EncodeStep(rest[0], dst, j, end, done);
      if m == n && fits {
        m, done := m + 1, done + EncodeByte(src[n]);
      }
      rest, n := rest[1..], n + 1;
    }
    dst[j] := NUL;
    assert done <= dst[..];
    NoRoomForMore(src, m, n, j, end);
    FrontOf(dst[..], src, m, end);
    WholeOrNot(dst[..], src, end, j);
  }

  lemma NoRoomForMore(src: seq<Byte>, m: nat, n: nat, j: nat, end: nat)
    requires m <= n <= |src| && (n == |src| || j == end) && |Encode(src[..m])| <= j <= end
    requires if m == n then j == |Encode(src[..m])| else |Encode(src[..m + 1])| > end
    ensures m < |src| ==> |Encode(src[..m + 1])| > end
    ensures |Encode(src)| <= end ==> j == |Encode(src)|
  {
    assert src[..|src|] == src;
    if m < |src| {
      EncodeNext(src, m);
      EncodePrefix(src, m + 1, |src|);
    }
  }

  lemma {:induction false} EncodeJoin(a: seq<Byte>, b: seq<Byte>)
    ensures Encode(a + b) == Encode(a) + Encode(b)
  {
    if a == [] {
      assert a + b == b;
    } else {
      assert (a + b)[1..] == a[1..] + b && (a + b)[0] == a[0];
      EncodeJoin(a[1..], b);
      Reassociate(EncodeByte(a[0]), Encode(a[1..]), Encode(b));
    }
  }

  lemma EncodeNext(src: seq<Byte>, n: nat)
    requires n < |src|
    ensures Encode(src[..n + 1]) == Encode(src[..n]) + EncodeByte(src[n])
  {
    assert src[..n + 1] == src[..n] + [src[n]];
    EncodeJoin(src[..n], [src[n]]);
    assert [src[n]][1..] == [] && EncodeByte(src[n]) + [] == EncodeByte(src[n]);
  }

  lemma EncodePrefix(src: seq<Byte>, k: nat, m: nat)
    requires k <= m <= |src|
    ensures Encode(src[..k]) <= Encode(src[..m])
  {
    assert src[..m] == src[..k] + src[k..m];
    EncodeJoin(src[..k], src[k..m]);
  }

  /** What is right up to `m`, and has no room for more, is right as far as there
      is room. */
  lemma FrontOf(buffer: seq<Byte>, src: seq<Byte>, m: nat, room: nat)
    requires m <= |src| && Encode(src[..m]) <= buffer
    requires m < |src| ==> |Encode(src[..m + 1])| > room
    ensures Front(buffer, src, room)
  {
    forall k | 0 <= k <= |src| && |Encode(src[..k])| <= room ensures Encode(src[..k]) <= buffer {
      if k <= m {
        EncodePrefix(src, k, m);
      } else {
        EncodePrefix(src, m + 1, k);
      }
    }
  }

  lemma WholeOrNot(buffer: seq<Byte>, src: seq<Byte>, room: nat, j: nat)
    requires NUL !in src && Front(buffer, src, room) && j <= room < |buffer| && buffer[j] == NUL
    requires |Encode(src)| <= room ==> j == |Encode(src)|
    ensures UpTo(buffer, NUL) == Encode(src) <==> |Encode(src)| <= room
  {
    EncodeNoNul(src);
    UpToEnds(buffer, NUL, j);
    assert src[..|src|] == src;
  }

  // ----- decoding, in place or not -----

  /** What a text stands for begins with `done` and goes on with what stands at `i`. */
  ghost predicate PartWay(done: seq<Byte>, memory: seq<Byte>, i: nat, n: nat, room: nat, form: bool)
    requires n <= |memory|
  {
    && i <= |memory| && |done| <= room
    && done + DecodeIn(memory[i..], Less(n, i), room - |done|, form) == DecodeIn(memory, n, room, form)
  }

  lemma PartWayStart(nothing: seq<Byte>, memory: seq<Byte>, n: nat, room: nat, form: bool)
    requires nothing == [] && n <= |memory|
    ensures PartWay(nothing, memory, 0, n, room, form)
  {
    assert memory[0..] == memory;
  }

  lemma PartWayOn(done: seq<Byte>, memory: seq<Byte>, i: nat, n: nat, room: nat, form: bool) returns (longer: seq<Byte>)
    requires n <= |memory| && PartWay(done, memory, i, n, room, form) && i < n && |done| < room
    ensures longer == done + [HeadByte(memory[i..], form)]
    ensures PartWay(longer, memory, i + HeadLength(memory[i..]), n, room, form)
  {
    var s := memory[i..];
    var k := HeadLength(s);
    var rest := DecodeIn(s[k..], Less(n - i, k), room - |done| - 1, form);
    longer := done + [HeadByte(s, form)];
    assert s[k..] == memory[i + k..] && Less(n - i, k) == Less(n, i + k) && Less(n, i) == n - i;
    assert DecodeIn(s, n - i, room - |done|, form) == [HeadByte(s, form)] + rest;
    Reassociate(done, [HeadByte(s, form)], rest);
  }

  lemma PartWayDone(done: seq<Byte>, memory: seq<Byte>, i: nat, n: nat, room: nat, form: bool)
    requires n <= |memory| && PartWay(done, memory, i, n, room, form) && (i >= n || |done| == room)
    ensures done == DecodeIn(memory, n, room, form)
  {
  }

  /** Decodes what stands at `i` to the place `j`, which is not beyond it. */
  method DecodeStep(src: array<Byte>, srcLen: nat, dst: array<Byte>, i: nat, j: nat, form: bool, ghost s: seq<Byte>)
    returns (next: nat)
    requires j <= i < srcLen < src.Length && j < dst.Length && (IsHex(src[srcLen]) ==> srcLen + 1 < src.Length)
    requires |s| == src.Length - i && forall k :: i <= k < src.Length ==> src[k] == s[k - i]
    modifies dst
    ensures next == i + HeadLength(s) && forall k :: next <= k < src.Length ==> src[k] == old(src[k])
    ensures dst[..j + 1] == old(dst[..j]) + [HeadByte(s, form)]
  {
    if src[i] == '%' && IsHex(src[i + 1]) && IsHex(src[i + 2]) {
      next := i + 3;
      PutByte(dst, j, (16 * HexValue(src[i + 1]) + HexValue(src[i + 2])) as char);
    } else if form && src[i] == '+' {
      next := i + 1;
      PutByte(dst, j, ' ');
    } else {
      next := i + 1;
      PutByte(dst, j, src[i]);
    }
  }

  /** One turn of the loop: the byte written is the next one of what the text stands for. */
  method DecodeTurn(src: array<Byte>, srcLen: nat, dst: array<Byte>, i: nat, j: nat, form: bool,
                    ghost before: seq<Byte>, ghost done: seq<Byte>, ghost room: nat)
    returns (next: nat, ghost longer: seq<Byte>)
    requires j <= i < srcLen < src.Length == |before| && j < dst.Length
    requires IsHex(src[srcLen]) ==> srcLen + 1 < src.Length
    requires forall k :: i <= k < src.Length ==> src[k] == before[k]
    requires done == dst[..j] && j < room && PartWay(done, before, i, srcLen, room, form)
    modifies dst
    ensures i < next && forall k :: next <= k < src.Length ==> src[k] == before[k]
    ensures longer == dst[..j + 1] && PartWay(longer, before, next, srcLen, room, form)
  {
    ghost var rest := before[i..];
    longer := PartWayOn(done, before, i, srcLen, room, form);
    next := DecodeStep(src, srcLen, dst, i, j, form, rest);
  }

  method Terminate(dst: array<Byte>, at: nat, ghost done: seq<Byte>)
    requires at < dst.Length && dst[..at] == done
    modifies dst
    ensures dst[..at] == done && dst[at] == NUL
  {
    dst[at] := NUL;
  }

  lemma Behind(memory: seq<Byte>, text: seq<Byte>, n: nat, room: nat, form: bool)
    requires n < |memory| && text == memory[..n]
    ensures !IsHex(memory[n]) ==> DecodeIn(memory, n, room, form) == Decode(text, room, form)
  {
    if !IsHex(memory[n]) {
      DecodeWithin(memory, n, room, form);
    }
  }

  /** The loop, which leaves a place for the terminator. */
  method DecodeAll(src: array<Byte>, srcLen: nat, dst: array<Byte>, form: bool, ghost before: seq<Byte>)
    returns (j: nat, ghost done: seq<Byte>)
    requires srcLen < src.Length && (IsHex(src[srcLen]) ==> srcLen + 1 < src.Length) && dst.Length > 0
    requires before == src[..]
    modifies dst
    ensures j < dst.Length && dst[..j] == done && done == DecodeIn(before, srcLen, dst.Length - 1, form)
  {
    var i := 0;
    j := 0;
    done := [];
    ghost var room := dst.Length - 1;
    PartWayStart(done, before, srcLen, room, form);
    while i < srcLen && j < dst.Length - 1
      invariant j <= i <= src.Length && j <= dst.Length - 1
      invariant forall k :: i <= k < src.Length ==> src[k] == before[k]
      invariant done == dst[..j] && PartWay(done, before, i, srcLen, room, form)
    {
      i, done := DecodeTurn(src, srcLen, dst, i, j, form, before, done, room);
      j := j + 1;
    }
    PartWayDone(done, before, i, srcLen, room, form);
  }

  /** Reads up to two bytes behind the source, the second only if the first is a
      hexadecimal digit. The source may be the destination itself: what is
      written never reaches what is still to be read, so the result is the same. */
  method UrlDecode(src: array<Byte>, srcLen: nat, dst: array<Byte>, form: bool) returns (j: nat)
    requires srcLen < src.Length && (IsHex(src[srcLen]) ==> srcLen + 1 < src.Length) && dst.Length > 0
    modifies dst
    ensures j < dst.Length && dst[..j] == DecodeIn(old(src[..]), srcLen, dst.Length - 1, form) && dst[j] == NUL
    ensures !old(IsHex(src[srcLen])) ==> dst[..j] == Decode(old(src[..srcLen]), dst.Length - 1, form)
  {
    ghost var before, text, room := src[..], src[..srcLen], dst.Length - 1;
    Behind(before, text, srcLen, room, form);
    ghost var done;
    j, done := DecodeAll(src, srcLen, dst, form, before);
    Terminate(dst, j, done);
  }
}
