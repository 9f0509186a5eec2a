/** JavaScript's `encodeURIComponent` and `decodeURIComponent` (section 19.2.6
    of ECMAScript 2024): every character outside the unreserved set is written
    as the percent-escaped bytes of its UTF-8 encoding, with upper-case hex
    digits. Characters are Unicode scalar values, so the lone-surrogate error of
    `encodeURIComponent` cannot arise. */
module UriEncoding {
  import opened Wrappers

  /** The characters `encodeURIComponent` leaves alone. */
  predicate Unreserved(c: char)
  {
    ('A' <= c <= 'Z') || ('a' <= c <= 'z') || ('0' <= c <= '9') ||
    c == '-' || c == '_' || c == '.' || c == '!' || c == '~' ||
    c == '*' || c == '\'' || c == '(' || c == ')'
  }

  function HexDigit(n: nat): (c: char)
    requires n < 16
    ensures Unreserved(c) && HexValue(c) == Some(n)
  {
    if n < 10 then ('0' as int + n) as char else ('A' as int + n - 10) as char
  }

  /** The value of a hex digit of either case. */
  function HexValue(c: char): (r: Option<nat>)
    ensures r.Some? ==> r.value < 16
  {
    if '0' <= c <= '9' then Some(c as int - '0' as int)
    else if 'A' <= c <= 'F' then Some(c as int - 'A' as int + 10)
    else if 'a' <= c <= 'f' then Some(c as int - 'a' as int + 10)
    else None
  }

  /** Every character is unreserved or `%`: the alphabet of an encoding. */
  predicate Escaped(s: string)
  {
    forall i :: 0 <= i < |s| ==> Unreserved(s[i]) || s[i] == '%'
  }

  lemma EscapedConcat(a: string, b: string)
    requires Escaped(a) && Escaped(b)
    ensures Escaped(a + b)
  {
    forall i | 0 <= i < |a + b| ensures Unreserved((a + b)[i]) || (a + b)[i] == '%' {
      if i < |a| { assert (a + b)[i] == a[i]; } else { assert (a + b)[i] == b[i - |a|]; }
    }
  }

  /** `%XY` for one byte. */
  function PercentByte(b: nat): (r: string)
    requires b < 256
    ensures |r| == 3 && r[0] == '%'
  {
    ['%', HexDigit(b / 16), HexDigit(b % 16)]
  }

  lemma PercentByteEscaped(b: nat)
    requires b < 256
    ensures Escaped(PercentByte(b))
  {
  }

  /** The UTF-8 encoding of a code point: a lead byte followed by
      continuation bytes `0x80 + x` carrying six bits each. */
  function Utf8(cp: nat): (bs: seq<nat>)
    requires cp < 0x11_0000
    ensures 1 <= |bs| <= 4 && forall i :: 0 <= i < |bs| ==> bs[i] < 256
  {
    if cp < 0x80 then [cp]
    else if cp < 0x800 then [0xC0 + cp / 64, 0x80 + cp % 64]
    else if cp < 0x1_0000 then [0xE0 + cp / 4096, 0x80 + (cp / 64) % 64, 0x80 + cp % 64]
    else [0xF0 + cp / 262144, 0x80 + (cp / 4096) % 64, 0x80 + (cp / 64) % 64, 0x80 + cp % 64]
  }

  /** Each byte written as `%XY`. */
  function PercentBytes(bs: seq<nat>): (r: string)
    requires forall i :: 0 <= i < |bs| ==> bs[i] < 256
    ensures Escaped(r)
  {
    if bs == [] then ""
    else
      PercentByteEscaped(bs[0]);
      EscapedConcat(PercentByte(bs[0]), PercentBytes(bs[1..]));
      PercentByte(bs[0]) + PercentBytes(bs[1..])
  }

  function EncodeChar(c: char): (r: string)
    ensures Escaped(r)
  {
    if Unreserved(c) then [c] else PercentBytes(Utf8(c as int))
  }

  /** `encodeURIComponent(s)`: its output consists of unreserved characters and
      `%` only, so it never holds a separator such as `/`, `&`, `=` or `,`. */
  function Encode(s: string): (r: string)
    ensures Escaped(r)
  {
    if s == [] then ""
    else
      EscapedConcat(EncodeChar(s[0]), Encode(s[1..]));
      EncodeChar(s[0]) + Encode(s[1..])
  }

  /** Reads one `%XY` escape at the front of `s`. */
  function ReadByte(s: string): (r: Option<(nat, string)>)
    ensures r.Some? ==> r.value.0 < 256 && |r.value.1| == |s| - 3
  {
    if |s| >= 3 && s[0] == '%' && HexValue(s[1]).Some? && HexValue(s[2]).Some? then
      Some((HexValue(s[1]).value * 16 + HexValue(s[2]).value, s[3..]))
    else None
  }

  /** Reads `k` escaped continuation bytes (`10xxxxxx`), shifting their low six
      bits into `acc`. */
  function ReadContinuations(s: string, k: nat, acc: nat): (r: Option<(nat, string)>)
    ensures r.Some? ==> |r.value.1| == |s| - 3 * k
    decreases k
  {
    if k == 0 then Some((acc, s))
    else
      match ReadByte(s)
      case None => None
      case Some((b, rest)) =>
        if 0x80 <= b < 0xC0 then ReadContinuations(rest, k - 1, acc * 64 + (b - 0x80)) else None
  }

  /** The length of the UTF-8 sequence a lead byte announces, 0 if none. */
  function SequenceLength(b: nat): nat
  {
    if b < 0x80 then 1
    else if 0xC0 <= b < 0xE0 then 2
    else if 0xE0 <= b < 0xF0 then 3
    else if 0xF0 <= b < 0xF8 then 4
    else 0
  }

  /** The payload bits of a lead byte of a sequence of length `n`. */
  function LeadBits(b: nat, n: nat): int
  {
    if n == 1 then b else if n == 2 then b - 0xC0 else if n == 3 then b - 0xE0 else b - 0xF0
  }

  /** The smallest code point a sequence of length `n` may carry (longer forms
      are overlong and rejected). */
  function MinCodePoint(n: nat): nat
  {
    if n == 1 then 0 else if n == 2 then 0x80 else if n == 3 then 0x800 else 0x1_0000
  }

  predicate ScalarValue(cp: int)
  {
    0 <= cp < 0xD800 || 0xE000 <= cp < 0x11_0000
  }

  /** `decodeURIComponent(s)`: `None` where it throws `URIError` (a malformed
      escape or bytes that are not valid UTF-8). */
  function Decode(s: string): (r: Option<string>)
    ensures r.Some? ==> |r.value| <= |s|
    decreases |s|
  {
    if s == [] then Some("")
    else if s[0] != '%' then
      match Decode(s[1..])
      case None => None
      case Some(t) => Some([s[0]] + t)
    else
      match ReadByte(s)
      case None => None
      case Some((b, afterLead)) =>
        var n := SequenceLength(b);
        if n == 0 then None
        else
          match ReadContinuations(afterLead, n - 1, LeadBits(b, n))
          case None => None
          case Some((cp, rest)) =>
            if cp < MinCodePoint(n) || !ScalarValue(cp) then None
            else
              match Decode(rest)
              case None => None
              case Some(t) => Some([cp as char] + t)
  }

  lemma ReadPercentByte(b: nat, rest: string)
    requires b < 256
    ensures ReadByte(PercentByte(b) + rest) == Some((b, rest))
  {
    var s := PercentByte(b) + rest;
    assert s[0] == '%' && s[1] == HexDigit(b / 16) && s[2] == HexDigit(b % 16);
    assert s[3..] == rest;
  }

  /** What decoding should give for a string that starts with `c`. */
  function Prepend(c: char, d: Option<string>): Option<string>
  {
    match d
    case None => None
    case Some(t) => Some([c] + t)
  }

  /** One step of `Decode` on an escaped multi-byte sequence. */
  lemma DecodeSequence(s: string, b: nat, afterLead: string, cp: nat, rest: string)
    requires s != [] && s[0] == '%' && ReadByte(s) == Some((b, afterLead))
    requires SequenceLength(b) > 0
    requires ReadContinuations(afterLead, SequenceLength(b) - 1, LeadBits(b, SequenceLength(b))) == Some((cp, rest))
    requires cp >= MinCodePoint(SequenceLength(b)) && ScalarValue(cp)
    ensures Decode(s) == Prepend(cp as char, Decode(rest))
  {
  }

  /** The value `ReadContinuations` accumulates from continuation bytes. */
  function Accumulate(acc: int, bs: seq<nat>): int
    decreases |bs|
  {
    if bs == [] then acc else Accumulate(acc * 64 + (bs[0] as int - 0x80), bs[1..])
  }

  predicate Continuation(b: nat)
  {
    0x80 <= b < 0xC0
  }

  /** Reading escaped continuation bytes gives back their accumulated value. */
  lemma {:induction false} ReadEscapedContinuations(bs: seq<nat>, rest: string, acc: nat)
    requires forall i :: 0 <= i < |bs| ==> bs[i] < 256 && Continuation(bs[i])
    ensures Accumulate(acc, bs) >= 0
    ensures ReadContinuations(PercentBytes(bs) + rest, |bs|, acc) == Some((Accumulate(acc, bs), rest))
    decreases |bs|
  {
    if bs == [] {
      assert PercentBytes(bs) + rest == rest;
    } else {
      var tail := PercentBytes(bs[1..]) + rest;
      assert PercentBytes(bs) + rest == PercentByte(bs[0]) + tail;
      var next := acc * 64 + (bs[0] - 0x80);
      ReadPercentByte(bs[0], tail);
      assert ReadContinuations(PercentByte(bs[0]) + tail, |bs|, acc)
          == ReadContinuations(tail, |bs| - 1, next);
      ReadEscapedContinuations(bs[1..], rest, next);
      assert Accumulate(acc, bs) == Accumulate(next, bs[1..]);
    }
  }

  lemma DivDiv64(n: nat)
    ensures n / 4096 == (n / 64) / 64 && n / 262144 == (n / 4096) / 64
  {
    var q := n / 64;
    var qq := q / 64;
    assert n == qq * 4096 + (q % 64) * 64 + n % 64;
    var q3 := n / 4096;
    assert n == (q3 / 64) * 262144 + (q3 % 64) * 4096 + n % 4096;
  }

  lemma Accumulate2(acc: int, x: nat, y: nat)
    ensures Accumulate(acc, [0x80 + x, 0x80 + y]) == (acc * 64 + x) * 64 + y
  {
    var a := acc * 64 + x;
    assert [0x80 + x, 0x80 + y][1..] == [0x80 + y];
    assert Accumulate(acc, [0x80 + x, 0x80 + y]) == Accumulate(a, [0x80 + y]);
    assert [0x80 + y][1..] == [];
    assert Accumulate(a, [0x80 + y]) == Accumulate(a * 64 + y, []);
  }

  lemma Accumulate3(acc: int, x: nat, y: nat, z: nat)
    ensures Accumulate(acc, [0x80 + x, 0x80 + y, 0x80 + z]) == ((acc * 64 + x) * 64 + y) * 64 + z
  {
    assert [0x80 + x, 0x80 + y, 0x80 + z][1..] == [0x80 + y, 0x80 + z];
    assert Accumulate(acc, [0x80 + x, 0x80 + y, 0x80 + z]) == Accumulate(acc * 64 + x, [0x80 + y, 0x80 + z]);
    Accumulate2(acc * 64 + x, y, z);
  }

  /** The UTF-8 lead byte announces the right length, and the payload of the
      whole sequence is the code point. */
  lemma Utf8Decodes(cp: nat)
    requires cp < 0x11_0000
    ensures var bs := Utf8(cp);
      && SequenceLength(bs[0]) == |bs|
      && (forall i :: 1 <= i < |bs| ==> Continuation(bs[i]))
      && Accumulate(LeadBits(bs[0], |bs|), bs[1..]) == cp
      && cp >= MinCodePoint(|bs|)
  {
    var bs := Utf8(cp);
    if cp < 0x80 {
    } else if cp < 0x800 {
      assert bs[1..] == [0x80 + cp % 64];
    } else if cp < 0x1_0000 {
      DivDiv64(cp);
      var g2, g1, g0 := cp / 4096, (cp / 64) % 64, cp % 64;
      assert bs[1..] == [0x80 + g1, 0x80 + g0];
      Accumulate2(g2, g1, g0);
    } else {
      DivDiv64(cp);
      var g3, g2, g1, g0 := cp / 262144, (cp / 4096) % 64, (cp / 64) % 64, cp % 64;
      assert bs[1..] == [0x80 + g2, 0x80 + g1, 0x80 + g0];
      Accumulate3(g3, g2, g1, g0);
    }
  }

  /** Decoding an escaped, well-formed UTF-8 sequence yields its code point. */
  lemma DecodeEscapedSequence(bs: seq<nat>, cp: nat, rest: string)
    requires 1 <= |bs| && forall i :: 0 <= i < |bs| ==> bs[i] < 256
    requires SequenceLength(bs[0]) == |bs| && forall i :: 1 <= i < |bs| ==> Continuation(bs[i])
    requires Accumulate(LeadBits(bs[0], |bs|), bs[1..]) == cp
    requires cp >= MinCodePoint(|bs|) && ScalarValue(cp)
    ensures Decode(PercentBytes(bs) + rest) == Prepend(cp as char, Decode(rest))
  {
    var s := PercentBytes(bs) + rest;
    var conts := bs[1..];
    var afterLead := PercentBytes(conts) + rest;
    assert s == PercentByte(bs[0]) + afterLead;
    ReadPercentByte(bs[0], afterLead);
    ReadEscapedContinuations(conts, rest, LeadBits(bs[0], |bs|));
    assert s[0] == '%';
    DecodeSequence(s, bs[0], afterLead, cp, rest);
  }

  /** Decoding undoes the escape of one character, whatever follows it. */
  lemma DecodeEncodeChar(c: char, rest: string)
    ensures Decode(EncodeChar(c) + rest) == Prepend(c, Decode(rest))
  {
    var s := EncodeChar(c) + rest;
    if Unreserved(c) {
      assert s[0] == c && s[1..] == rest;
    } else {
      Utf8Decodes(c as int);
      DecodeEscapedSequence(Utf8(c as int), c as int, rest);
    }
  }

  /** `decodeURIComponent(encodeURIComponent(s)) == s` for every string. */
  lemma {:induction false} DecodeEncode(s: string)
    ensures Decode(Encode(s)) == Some(s)
    decreases |s|
  {
    if s != [] {
      DecodeEncode(s[1..]);
      DecodeEncodeChar(s[0], Encode(s[1..]));
      assert [s[0]] + s[1..] == s;
    }
  }

  /** Text without `%` decodes to itself. */
  lemma {:induction false} DecodePlain(s: string)
    requires '%' !in s
    ensures Decode(s) == Some(s)
    decreases |s|
  {
    if s != [] {
      assert s[0] != '%';
      assert '%' !in s[1..];
      DecodePlain(s[1..]);
      assert [s[0]] + s[1..] == s;
    }
  }

  /** An encoding never holds a character that is neither unreserved nor
      `%`, such as `&`, `=`, `/` or `,`. */
  lemma EscapedExcludes(s: string, c: char)
    requires Escaped(s) && !Unreserved(c) && c != '%'
    ensures c !in s
  {
  }

  /** A string made only of unreserved characters is its own encoding. */
  lemma {:induction false} EncodeUnreserved(s: string)
    requires forall i :: 0 <= i < |s| ==> Unreserved(s[i])
    ensures Encode(s) == s
    decreases |s|
  {
    if s != [] {
      EncodeUnreserved(s[1..]);
      assert [s[0]] + s[1..] == s;
    }
  }
}
