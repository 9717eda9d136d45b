/**
 * `encodeURIComponent`, the default `handlerFriendlyPath` of an ObjectFileStore, which turns
 * a property name into the name of its file or folder. The unreserved characters stay as
 * they are, and every other character becomes the `%XX` escapes of its UTF-8 bytes, in
 * upper-case hexadecimal. `Decode` reads such a name back, as `decodeURIComponent` does, so
 * two property names never share an entry, and no encoded name holds a slash.
 */
module UriComponents {
  import opened Wrappers

  /** The characters `encodeURIComponent` leaves as they are. */
  predicate Unreserved(c: char) {
    || ('A' <= c <= 'Z') || ('a' <= c <= 'z') || ('0' <= c <= '9')
    || c == '-' || c == '_' || c == '.' || c == '!' || c == '~' || c == '*' || c == '\'' || c == '(' || c == ')'
  }

  /** The upper-case hexadecimal digit of `d`. */
  function HexDigit(d: int): (c: char)
    requires 0 <= d < 16
    ensures '0' <= c <= '9' || 'A' <= c <= 'F'
  {
    if d < 10 then ('0' as int + d) as char else ('A' as int + d - 10) as char
  }

  /** The value of a hexadecimal digit of either case. */
  function HexValue(c: char): (r: Option<int>)
    ensures r.Some? ==> 0 <= r.value < 16
  {
    if '0' <= c <= '9' then Some(c as int - '0' as int)
    else if 'A' <= c <= 'F' then Some(c as int - 'A' as int + 10)
    else if 'a' <= c <= 'f' then Some(c as int - 'a' as int + 10)
    else None
  }

  /** A digit reads back as the value it was written for. */
  lemma HexRoundTrip(d: int)
    requires 0 <= d < 16
    ensures HexValue(HexDigit(d)) == Some(d)
  {
  }

  /** The UTF-8 bytes of a character, from one for ASCII up to four beyond U+FFFF. */
  function Utf8(c: char): (r: seq<int>)
    ensures 1 <= |r| <= 4 && (c as int < 0x80 <==> |r| == 1)
    ensures forall i :: 0 <= i < |r| ==> 0 <= r[i] < 256
  {
    var v := c as int;
    if v < 0x80 then [v]
    else if v < 0x800 then [0xC0 + v / 64, 0x80 + v % 64]
    else if v < 0x10000 then [0xE0 + v / 4096, 0x80 + v / 64 % 64, 0x80 + v % 64]
    else [0xF0 + v / 0x40000, 0x80 + v / 4096 % 64, 0x80 + v / 64 % 64, 0x80 + v % 64]
  }

  /** The escape `%XX` of one byte. */
  function Escape(b: int): (r: string)
    requires 0 <= b < 256
    ensures |r| == 3 && r[0] == '%'
  {
    ['%', HexDigit(b / 16), HexDigit(b % 16)]
  }

  /** The escapes of a sequence of bytes, one after the other. */
  function Escaped(bytes: seq<int>): (r: string)
    requires forall i :: 0 <= i < |bytes| ==> 0 <= bytes[i] < 256
    ensures |r| == 3 * |bytes|
  {
    if bytes == [] then [] else Escape(bytes[0]) + Escaped(bytes[1..])
  }

  /** Escapes hold only `%` and hexadecimal digits. */
  lemma {:induction false} EscapedSafe(bytes: seq<int>)
    requires forall i :: 0 <= i < |bytes| ==> 0 <= bytes[i] < 256
    ensures forall i :: 0 <= i < |Escaped(bytes)| ==> Unreserved(Escaped(bytes)[i]) || Escaped(bytes)[i] == '%'
  {
    if bytes != [] {
      EscapedSafe(bytes[1..]);
      var e := Escape(bytes[0]);
      assert Unreserved(e[1]) && Unreserved(e[2]);
    }
  }

  /** One character of `encodeURIComponent`'s output: itself when unreserved, else its escaped UTF-8. */
  function EncodeChar(c: char): (r: string)
    ensures |r| >= 1
    ensures forall i :: 0 <= i < |r| ==> Unreserved(r[i]) || r[i] == '%'
  {
    if Unreserved(c) then [c] else EscapedSafe(Utf8(c)); Escaped(Utf8(c))
  }

  /**
   * `encodeURIComponent(s)`. The result holds only unreserved characters and `%`, so in
   * particular no `/` and no `\`.
   */
  function Encode(s: string): (r: string)
    ensures forall i :: 0 <= i < |r| ==> Unreserved(r[i]) || r[i] == '%'
    ensures |r| >= |s|
  {
    if s == [] then [] else EncodeChar(s[0]) + Encode(s[1..])
  }

  /** The byte escaped at `k` in `t`, if `%` and two hexadecimal digits stand there. */
  function ByteAt(t: string, k: nat): (r: Option<int>)
    ensures r.Some? ==> k + 3 <= |t| && t[k] == '%' && 0 <= r.value < 256
  {
    if k + 3 <= |t| && t[k] == '%' && HexValue(t[k + 1]).Some? && HexValue(t[k + 2]).Some?
    then Some(HexValue(t[k + 1]).value * 16 + HexValue(t[k + 2]).value)
    else None
  }

  /** The six payload bits of a continuation byte `10xxxxxx` escaped at `k` in `t`. */
  function ContinuationAt(t: string, k: nat): (r: Option<int>)
    ensures r.Some? ==> k + 3 <= |t| && 0 <= r.value < 64
  {
    var b := ByteAt(t, k);
    if b.Some? && 0x80 <= b.value < 0xC0 then Some(b.value - 0x80) else None
  }

  /** A Unicode scalar value: a code point that is not a surrogate. */
  predicate IsScalar(v: int) {
    0 <= v < 0xD800 || 0xE000 <= v < 0x110000
  }

  /**
   * The first character `decodeURIComponent` reads from `t`, and how many characters of `t`
   * it took: a character other than `%` as it is, else a UTF-8 sequence of one to four
   * escaped bytes, in its shortest form. Anything else is malformed.
   */
  function DecodeChar(t: string): (r: Option<(char, nat)>)
    requires |t| > 0
    ensures r.Some? ==> 1 <= r.value.1 <= |t|
  {
    if t[0] != '%' then Some((t[0], 1))
    else
      var b0 := ByteAt(t, 0);
      if b0.None? then None
      else if b0.value < 0x80 then Some((b0.value as char, 3))
      else if b0.value < 0xC0 || 0xF8 <= b0.value then None
      else
        var x1 := ContinuationAt(t, 3);
        if x1.None? then None
        else if b0.value < 0xE0 then
          var v := (b0.value - 0xC0) * 64 + x1.value;
          if 0x80 <= v && IsScalar(v) then Some((v as char, 6)) else None
        else
          var x2 := ContinuationAt(t, 6);
          if x2.None? then None
          else if b0.value < 0xF0 then
            var v := (b0.value - 0xE0) * 4096 + x1.value * 64 + x2.value;
            if 0x800 <= v && IsScalar(v) then Some((v as char, 9)) else None
          else
            var x3 := ContinuationAt(t, 9);
            if x3.None? then None
            else
              var v := (b0.value - 0xF0) * 0x40000 + x1.value * 4096 + x2.value * 64 + x3.value;
              if 0x10000 <= v && IsScalar(v) then Some((v as char, 12)) else None
  }

  /** `decodeURIComponent(t)`: `None` for the malformed input on which it throws `URIError`. */
  function Decode(t: string): (r: Option<string>)
    decreases |t|
  {
    if t == [] then Some([])
    else
      match DecodeChar(t)
      case None => None
      case Some((c, n)) =>
        match Decode(t[n..])
        case None => None
        case Some(rest) => Some([c] + rest)
  }

  /** A character's code splits into the six-bit groups its UTF-8 bytes carry. */
  lemma SixBitGroups(v: int)
    requires 0 <= v
    ensures v == v / 64 * 64 + v % 64
    ensures v == v / 4096 * 4096 + v / 64 % 64 * 64 + v % 64
    ensures v == v / 0x40000 * 0x40000 + v / 4096 % 64 * 4096 + v / 64 % 64 * 64 + v % 64
  {
    var q := v / 64;
    var q2 := q / 64;
    assert v == q * 64 + v % 64;
    assert q == q2 * 64 + q % 64;
    assert v / 4096 == q2;
    var q3 := q2 / 64;
    assert q2 == q3 * 64 + q2 % 64;
    assert v / 0x40000 == q3;
    assert v / 4096 % 64 == q2 % 64;
  }

  /** The six-bit groups of a code point and the values the UTF-8 bytes carrying them take. */
  lemma Groups(v: int)
    requires 0x80 <= v < 0x110000
    ensures 0 <= v / 64 % 64 < 64 && 0 <= v % 64 < 64 && 0 <= v / 4096 % 64 < 64
    ensures v < 0x800 ==> 2 <= v / 64 < 32 && v / 64 * 64 + v % 64 == v
    ensures 0x800 <= v < 0x10000 ==> 0 <= v / 4096 < 16 && v / 4096 * 4096 + v / 64 % 64 * 64 + v % 64 == v
    ensures 0x10000 <= v ==>
      && 0 <= v / 0x40000 < 5
      && v / 0x40000 * 0x40000 + v / 4096 % 64 * 4096 + v / 64 % 64 * 64 + v % 64 == v
  {
    SixBitGroups(v);
  }

  /** The UTF-8 bytes of a character: lead and continuation bytes, whose payloads give back its code. */
  lemma {:induction false} Utf8Bytes(c: char)
    requires 0x80 <= c as int
    ensures var u := Utf8(c);
      && (forall k :: 1 <= k < |u| ==> 0x80 <= u[k] < 0xC0)
      && 2 <= |u| && (|u| >= 3 ==> 0x800 <= c as int) && (|u| == 4 ==> 0x10000 <= c as int)
      && (|u| == 2 ==> 0xC0 <= u[0] < 0xE0 && (u[0] - 0xC0) * 64 + (u[1] - 0x80) == c as int)
      && (|u| == 3 ==> 0xE0 <= u[0] < 0xF0
                       && (u[0] - 0xE0) * 4096 + (u[1] - 0x80) * 64 + (u[2] - 0x80) == c as int)
      && (|u| == 4 ==> 0xF0 <= u[0] < 0xF8
                       && (u[0] - 0xF0) * 0x40000 + (u[1] - 0x80) * 4096 + (u[2] - 0x80) * 64 + (u[3] - 0x80)
                          == c as int)
  {
    Groups(c as int);
  }

  /** The characters of the escape of byte `j` of `u`, in the escapes of `u` followed by anything. */
  lemma {:induction false} EscapedChars(u: seq<int>, rest: string, j: nat)
    requires j < |u| && forall i :: 0 <= i < |u| ==> 0 <= u[i] < 256
    ensures var t := Escaped(u) + rest;
      && 3 * j + 3 <= |t| && t[3 * j] == '%'
      && t[3 * j + 1] == HexDigit(u[j] / 16) && t[3 * j + 2] == HexDigit(u[j] % 16)
  {
    var t := Escaped(u) + rest;
    assert t == Escape(u[0]) + (Escaped(u[1..]) + rest);
    if j > 0 {
      EscapedChars(u[1..], rest, j - 1);
    }
  }

  /** The escape of byte `j` of `u` reads back as that byte. */
  lemma ByteAtEscaped(u: seq<int>, rest: string, j: nat)
    requires j < |u| && forall i :: 0 <= i < |u| ==> 0 <= u[i] < 256
    ensures ByteAt(Escaped(u) + rest, 3 * j) == Some(u[j])
  {
    EscapedChars(u, rest, j);
    HexRoundTrip(u[j] / 16);
    HexRoundTrip(u[j] % 16);
  }

  /** Bytes that form a lead byte followed by continuation bytes. */
  ghost predicate Sequence(u: seq<int>) {
    && (forall i :: 0 <= i < |u| ==> 0 <= u[i] < 256)
    && (forall k :: 1 <= k < |u| ==> 0x80 <= u[k] < 0xC0)
  }

  /** The escaped continuation byte `j` of `u` reads back as its payload. */
  lemma ContinuationEscaped(u: seq<int>, rest: string, j: nat, k: nat)
    requires 1 <= j < |u| && Sequence(u) && k == 3 * j
    ensures ContinuationAt(Escaped(u) + rest, k) == Some(u[j] - 0x80)
  {
    ByteAtEscaped(u, rest, j);
  }

  /** `DecodeChar` of a two-byte UTF-8 sequence escaped at the start of `t`. */
  lemma DecodeTwo(t: string, b0: int, x1: int, c: char)
    requires |t| > 0 && ByteAt(t, 0) == Some(b0) && 0xC0 <= b0 < 0xE0 && ContinuationAt(t, 3) == Some(x1)
    requires (b0 - 0xC0) * 64 + x1 == c as int && 0x80 <= c as int
    ensures DecodeChar(t) == Some((c, 6))
  {
  }

  /** `DecodeChar` of a three-byte UTF-8 sequence escaped at the start of `t`. */
  lemma DecodeThree(t: string, b0: int, x1: int, x2: int, c: char)
    requires |t| > 0 && ByteAt(t, 0) == Some(b0) && 0xE0 <= b0 < 0xF0
    requires ContinuationAt(t, 3) == Some(x1) && ContinuationAt(t, 6) == Some(x2)
    requires (b0 - 0xE0) * 4096 + x1 * 64 + x2 == c as int && 0x800 <= c as int
    ensures DecodeChar(t) == Some((c, 9))
  {
    assert IsScalar(c as int);
  }

  /** `DecodeChar` of a four-byte UTF-8 sequence escaped at the start of `t`. */
  lemma DecodeFour(t: string, b0: int, x1: int, x2: int, x3: int, c: char)
    requires |t| > 0 && ByteAt(t, 0) == Some(b0) && 0xF0 <= b0 < 0xF8
    requires ContinuationAt(t, 3) == Some(x1)
    requires ContinuationAt(t, 6) == Some(x2)
    requires ContinuationAt(t, 9) == Some(x3)
    requires (b0 - 0xF0) * 0x40000 + x1 * 4096 + x2 * 64 + x3 == c as int && 0x10000 <= c as int
    ensures DecodeChar(t) == Some((c, 12))
  {
    assert IsScalar(c as int);
  }

  /** Two escaped bytes of a UTF-8 sequence read back as the character they encode. */
  lemma TwoEscapes(u: seq<int>, rest: string, c: char)
    requires |u| == 2 && Sequence(u) && 0xC0 <= u[0] < 0xE0
    requires (u[0] - 0xC0) * 64 + (u[1] - 0x80) == c as int && 0x80 <= c as int
    ensures DecodeChar(Escaped(u) + rest) == Some((c, 6))
  {
    ByteAtEscaped(u, rest, 0);
    ContinuationEscaped(u, rest, 1, 3);
    DecodeTwo(Escaped(u) + rest, u[0], u[1] - 0x80, c);
  }

  /** Three escaped bytes of a UTF-8 sequence read back as the character they encode. */
  lemma ThreeEscapes(u: seq<int>, rest: string, c: char)
    requires |u| == 3 && Sequence(u) && 0xE0 <= u[0] < 0xF0
    requires (u[0] - 0xE0) * 4096 + (u[1] - 0x80) * 64 + (u[2] - 0x80) == c as int && 0x800 <= c as int
    ensures DecodeChar(Escaped(u) + rest) == Some((c, 9))
  {
    ByteAtEscaped(u, rest, 0);
    ContinuationEscaped(u, rest, 1, 3);
    ContinuationEscaped(u, rest, 2, 6);
    DecodeThree(Escaped(u) + rest, u[0], u[1] - 0x80, u[2] - 0x80, c);
  }

  /** Four escaped bytes of a UTF-8 sequence read back as the character they encode. */
  lemma FourEscapes(u: seq<int>, rest: string, c: char)
    requires |u| == 4 && Sequence(u) && 0xF0 <= u[0] < 0xF8
    requires (u[0] - 0xF0) * 0x40000 + (u[1] - 0x80) * 4096 + (u[2] - 0x80) * 64 + (u[3] - 0x80) == c as int
    requires 0x10000 <= c as int
    ensures DecodeChar(Escaped(u) + rest) == Some((c, 12))
  {
    ByteAtEscaped(u, rest, 0);
    ContinuationEscaped(u, rest, 1, 3);
    ContinuationEscaped(u, rest, 2, 6);
    ContinuationEscaped(u, rest, 3, 9);
    DecodeFour(Escaped(u) + rest, u[0], u[1] - 0x80, u[2] - 0x80, u[3] - 0x80, c);
  }

  /** A character beyond ASCII reads back from the escapes of its UTF-8 bytes. */
  lemma MultiByteRoundTrip(c: char, rest: string)
    requires 0x80 <= c as int
    ensures DecodeChar(Escaped(Utf8(c)) + rest) == Some((c, 3 * |Utf8(c)|))
  {
    var u := Utf8(c);
    Utf8Bytes(c);
    assert Sequence(u);
    if |u| == 2 {
      TwoEscapes(u, rest, c);
    } else if |u| == 3 {
      ThreeEscapes(u, rest, c);
    } else {
      FourEscapes(u, rest, c);
    }
  }

  /** The encoding of one character reads back as that character, whatever follows. */
  lemma EncodeCharRoundTrip(c: char, rest: string)
    ensures DecodeChar(EncodeChar(c) + rest) == Some((c, |EncodeChar(c)|))
  {
    if Unreserved(c) {
    } else if c as int < 0x80 {
      ByteAtEscaped(Utf8(c), rest, 0);
    } else {
      MultiByteRoundTrip(c, rest);
    }
  }

  /** `Decode` of a character followed by the decodable rest. */
  lemma DecodeCons(t: string, c: char, n: nat, r: string)
    requires |t| > 0 && DecodeChar(t) == Some((c, n)) && Decode(t[n..]) == Some(r)
    ensures Decode(t) == Some([c] + r)
  {
  }

  /** `decodeURIComponent(encodeURIComponent(s)) == s` for every string. */
  lemma {:induction false} RoundTrip(s: string)
    ensures Decode(Encode(s)) == Some(s)
  {
    if s != [] {
      var e := EncodeChar(s[0]);
      var t := Encode(s);
      assert t == e + Encode(s[1..]);
      EncodeCharRoundTrip(s[0], Encode(s[1..]));
      assert t[|e|..] == Encode(s[1..]);
      RoundTrip(s[1..]);
      DecodeCons(t, s[0], |e|, s[1..]);
      assert [s[0]] + s[1..] == s;
    }
  }

  /** Distinct property names have distinct encodings, so they never share an entry. */
  lemma EncodeInjective(a: string, b: string)
    ensures Encode(a) == Encode(b) ==> a == b
  {
    RoundTrip(a);
    RoundTrip(b);
  }

  /** A name of unreserved characters only is its own encoding. */
  lemma {:induction false} EncodePlain(s: string)
    requires forall i :: 0 <= i < |s| ==> Unreserved(s[i])
    ensures Encode(s) == s
  {
    if s != [] {
      EncodePlain(s[1..]);
    }
  }
}
