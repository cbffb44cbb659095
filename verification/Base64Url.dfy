/** The base64url codec: `btoa` and `atob` as the HTML standard defines them, and the two functions over them. */
module Base64Url {
  import opened Basics

  function Digit(sextet: int): (c: char)
    requires 0 <= sextet < 64
  {
    if sextet < 26 then 'A' + sextet as char
    else if sextet < 52 then 'a' + (sextet - 26) as char
    else if sextet < 62 then '0' + (sextet - 52) as char
    else if sextet == 62 then '+' else '/'
  }

  function Sextet(c: char): (v: Option<int>)
    ensures v.Some? ==> 0 <= v.value < 64
  {
    if 'A' <= c <= 'Z' then Some((c - 'A') as int)
    else if 'a' <= c <= 'z' then Some((c - 'a') as int + 26)
    else if '0' <= c <= '9' then Some((c - '0') as int + 52)
    else if c == '+' then Some(62)
    else if c == '/' then Some(63)
    else None
  }

  lemma SextetOfDigit(sextet: int)
    requires 0 <= sextet < 64
    ensures Sextet(Digit(sextet)) == Some(sextet)
  {
  }

  /** The digits of `btoa` without padding: three bytes to four digits, a rest of one or two bytes to two or three. */
  function Digits(b: seq<byte>): string
  {
    if |b| == 0 then ""
    else if |b| == 1 then [Digit(b[0] / 4), Digit(b[0] % 4 * 16)]
    else if |b| == 2 then [Digit(b[0] / 4), Digit(b[0] % 4 * 16 + b[1] / 16), Digit(b[1] % 16 * 4)]
    else
      [Digit(b[0] / 4), Digit(b[0] % 4 * 16 + b[1] / 16), Digit(b[1] % 16 * 4 + b[2] / 64), Digit(b[2] % 64)] + Digits(b[3..])
  }

  function Repeat(c: char, n: nat): string
  {
    seq(n, _ => c)
  }

  function Btoa(b: seq<byte>): string
  {
    Digits(b) + Repeat('=', (3 - |b| % 3) % 3)
  }

  function Undigit(s: string): Option<seq<byte>>
  {
    if |s| == 0 then Some([])
    else if |s| == 1 then None
    else
      var p, q := Sextet(s[0]), Sextet(s[1]);
      if p.None? || q.None? then None
      else if |s| == 2 then Some([p.value * 4 + q.value / 16])
      else
        var r := Sextet(s[2]);
        if r.None? then None
        else if |s| == 3 then Some([p.value * 4 + q.value / 16, q.value % 16 * 16 + r.value / 4])
        else
          var t, rest := Sextet(s[3]), Undigit(s[4..]);
          if t.None? || rest.None? then None
          else Some([p.value * 4 + q.value / 16, q.value % 16 * 16 + r.value / 4, r.value % 4 * 64 + t.value] + rest.value)
  }

  predicate IsSpace(c: char)
  {
    c == ' ' || c == '\t' || c == '\n' || c == '\r' || c == '\U{000C}'
  }

  function WithoutSpace(s: string): string
  {
    if s == "" then "" else (if IsSpace(s[0]) then "" else [s[0]]) + WithoutSpace(s[1..])
  }

  function EndsWith(s: string, c: char): bool
  {
    s != "" && s[|s| - 1] == c
  }

  /** Up to two `=` at the end of text whose length is a multiple of four. */
  function Unpadded(s: string): string
  {
    if |s| % 4 != 0 || !EndsWith(s, '=') then s
    else
      var t := s[..|s| - 1];
      if EndsWith(t, '=') then t[..|t| - 1] else t
  }

  /** `atob`: `None` where it throws. Bits left over in a last group are dropped. */
  function Atob(s: string): Option<seq<byte>>
  {
    Undigit(Unpadded(WithoutSpace(s)))
  }

  function Mapped(s: string, f: char -> char): (r: string)
    ensures |r| == |s|
  {
    seq(|s|, i requires 0 <= i < |s| => f(s[i]))
  }

  function ToUrl(c: char): char
  {
    if c == '+' then '-' else if c == '/' then '_' else c
  }

  function FromUrl(c: char): char
  {
    if c == '-' then '+' else if c == '_' then '/' else c
  }

  function StripPadding(s: string): (r: string)
    ensures |r| <= |s|
  {
    if EndsWith(s, '=') then StripPadding(s[..|s| - 1]) else s
  }

  function PadEnd(s: string, length: nat): string
  {
    if |s| >= length then s else s + Repeat('=', length - |s|)
  }

  function Encode(b: seq<byte>): string
  {
    StripPadding(Mapped(Btoa(b), ToUrl))
  }

  function Decode(s: string): Option<seq<byte>>
  {
    Atob(PadEnd(Mapped(s, FromUrl), (|s| + 3) / 4 * 4))
  }

  // ---------------------------------------------------------------------------------------------
  // Round trip
  // ---------------------------------------------------------------------------------------------

  predicate IsBase64(c: char)
  {
    Sextet(c).Some?
  }

  /** The URL-safe alphabet of section 5 of RFC 4648. */
  predicate IsUrlSafe(c: char)
  {
    'A' <= c <= 'Z' || 'a' <= c <= 'z' || '0' <= c <= '9' || c == '-' || c == '_'
  }

  lemma Base64Chars(c: char)
    requires IsBase64(c)
    ensures IsUrlSafe(ToUrl(c)) && FromUrl(ToUrl(c)) == c && ToUrl(c) != '='
    ensures !IsSpace(c) && c != '='
  {
  }

  lemma {:induction false} DigitsAreBase64(b: seq<byte>)
    ensures forall i :: 0 <= i < |Digits(b)| ==> IsBase64(Digits(b)[i])
    ensures |Digits(b)| == (|b| * 4 + 2) / 3
  {
    hide Digit, Sextet;
    forall sextet | 0 <= sextet < 64 ensures IsBase64(Digit(sextet)) {
      SextetOfDigit(sextet);
    }
    if |b| > 2 {
      DigitsAreBase64(b[3..]);
    }
  }

  lemma GroupReadsBack(p: int, q: int, r: int, u: int, rest: string)
    requires 0 <= p < 64 && 0 <= q < 64 && 0 <= r < 64 && 0 <= u < 64 && Undigit(rest).Some?
    ensures Undigit([Digit(p), Digit(q), Digit(r), Digit(u)] + rest) ==
            Some([p * 4 + q / 16, q % 16 * 16 + r / 4, r % 4 * 64 + u] + Undigit(rest).value)
  {
    hide Digit, Sextet;
    SextetOfDigit(p);
    SextetOfDigit(q);
    SextetOfDigit(r);
    SextetOfDigit(u);
    assert ([Digit(p), Digit(q), Digit(r), Digit(u)] + rest)[4..] == rest;
  }

  lemma RestReadsBack(p: int, q: int, r: int)
    requires 0 <= p < 64 && 0 <= q < 64 && 0 <= r < 64
    ensures Undigit([Digit(p), Digit(q)]) == Some([p * 4 + q / 16])
    ensures Undigit([Digit(p), Digit(q), Digit(r)]) == Some([p * 4 + q / 16, q % 16 * 16 + r / 4])
  {
    hide Digit, Sextet;
    SextetOfDigit(p);
    SextetOfDigit(q);
    SextetOfDigit(r);
  }

  lemma OneReadsBack(x: byte)
    ensures Undigit([Digit(x / 4), Digit(x % 4 * 16)]) == Some([x])
  {
    hide Digit, Undigit;
    RestReadsBack(x / 4, x % 4 * 16, 0);
    TwoBytes(x, 0);
  }

  lemma TwoReadBack(x: byte, y: byte)
    ensures Undigit([Digit(x / 4), Digit(x % 4 * 16 + y / 16), Digit(y % 16 * 4)]) == Some([x, y])
  {
    hide Digit, Undigit;
    RestReadsBack(x / 4, x % 4 * 16 + y / 16, y % 16 * 4);
    TwoBytes(x, y);
  }

  lemma ShortReadsBack(b: seq<byte>)
    requires |b| < 3
    ensures Undigit(Digits(b)) == Some(b)
  {
    hide Digit, Undigit;
    if |b| == 0 {
      NoDigits();
      assert b == [];
    } else if |b| == 1 {
      OneReadsBack(b[0]);
      assert b == [b[0]];
    } else {
      TwoReadBack(b[0], b[1]);
      assert b == [b[0], b[1]];
    }
  }

  lemma {:induction false} DigitsReadBack(b: seq<byte>)
    ensures Undigit(Digits(b)) == Some(b)
  {
    hide Digit, Undigit;
    if |b| < 3 {
      ShortReadsBack(b);
    } else {
      DigitsReadBack(b[3..]);
      GroupReadsBack(b[0] / 4, b[0] % 4 * 16 + b[1] / 16, b[1] % 16 * 4 + b[2] / 64, b[2] % 64, Digits(b[3..]));
      ThreeBytes(b[0], b[1], b[2]);
      assert b == [b[0], b[1], b[2]] + b[3..];
    }
  }

  lemma NoDigits()
    ensures Undigit("") == Some([])
  {
  }

  lemma TwoBytes(x: byte, y: byte)
    ensures x / 4 * 4 + (x % 4 * 16 + y / 16) / 16 == x
    ensures (x % 4 * 16 + y / 16) % 16 * 16 + (y % 16 * 4) / 4 == y
  {
  }

  lemma ThreeBytes(x: byte, y: byte, z: byte)
    ensures x / 4 * 4 + (x % 4 * 16 + y / 16) / 16 == x
    ensures (x % 4 * 16 + y / 16) % 16 * 16 + (y % 16 * 4 + z / 64) / 4 == y
    ensures (y % 16 * 4 + z / 64) % 4 * 64 + z % 64 == z
  {
  }

  lemma {:induction false} StripRepeats(s: string, n: nat)
    requires !EndsWith(s, '=')
    ensures StripPadding(s + Repeat('=', n)) == s
  {
    var t := s + Repeat('=', n);
    if n > 0 {
      assert t[..|t| - 1] == s + Repeat('=', n - 1);
      StripRepeats(s, n - 1);
    } else {
      assert t == s;
    }
  }

  lemma {:induction false} NoSpaceToRemove(s: string)
    requires forall i :: 0 <= i < |s| ==> !IsSpace(s[i])
    ensures WithoutSpace(s) == s
  {
    if s != "" {
      NoSpaceToRemove(s[1..]);
      assert s == [s[0]] + s[1..];
    }
  }

  /** The encoding is the digits, in the URL-safe alphabet. */
  lemma EncodeIsDigits(b: seq<byte>)
    ensures Encode(b) == Mapped(Digits(b), ToUrl)
  {
    hide Digits, StripPadding;
    DigitsAreBase64(b);
    var pad := (3 - |b| % 3) % 3;
    var url := Mapped(Digits(b), ToUrl);
    assert Mapped(Btoa(b), ToUrl) == url + Repeat('=', pad);
    if url != "" {
      Base64Chars(Digits(b)[|url| - 1]);
    }
    StripRepeats(url, pad);
  }

  /** Every character of an encoding is of the URL-safe alphabet, so there is no padding, and the length is that of
      unpadded base64. */
  lemma EncodingIsUrlSafe(b: seq<byte>)
    ensures forall i :: 0 <= i < |Encode(b)| ==> IsUrlSafe(Encode(b)[i])
    ensures |Encode(b)| == (|b| * 4 + 2) / 3
  {
    hide Digits, Encode, IsBase64;
    EncodeIsDigits(b);
    DigitsAreBase64(b);
    forall i | 0 <= i < |Encode(b)| ensures IsUrlSafe(Encode(b)[i]) {
      Base64Chars(Digits(b)[i]);
    }
  }

  /** Decoding an encoding gives the bytes back, whatever they are. */
  lemma DecodeOfEncode(b: seq<byte>)
    ensures Decode(Encode(b)) == Some(b)
  {
    hide Digits, Encode, IsBase64, Undigit, WithoutSpace, Unpadded;
    EncodeIsDigits(b);
    DigitsAreBase64(b);
    DigitsReadBack(b);
    var digits := Digits(b);
    var s := Encode(b);
    forall i | 0 <= i < |digits| ensures Mapped(s, FromUrl)[i] == digits[i] {
      Base64Chars(digits[i]);
    }
    assert Mapped(s, FromUrl) == digits;
    PaddingRestored(|b|);
    assert PadEnd(digits, (|s| + 3) / 4 * 4) == Btoa(b);
    BtoaHasNoSpace(b);
    NoSpaceToRemove(Btoa(b));
    UnpadsToDigits(b);
  }

  lemma BtoaHasNoSpace(b: seq<byte>)
    ensures forall i :: 0 <= i < |Btoa(b)| ==> !IsSpace(Btoa(b)[i])
  {
    hide Digits, IsBase64;
    DigitsAreBase64(b);
    forall i | 0 <= i < |Digits(b)| ensures !IsSpace(Digits(b)[i]) {
      Base64Chars(Digits(b)[i]);
    }
  }

  lemma PaddingRestored(n: nat)
    ensures var d := (n * 4 + 2) / 3; (d + 3) / 4 * 4 == d + (3 - n % 3) % 3
  {
    var q, r := n / 3, n % 3;
    assert n == 3 * q + r;
    assert (n * 4 + 2) / 3 == 4 * q + (r * 4 + 2) / 3;
  }

  lemma UnpadsToDigits(b: seq<byte>)
    ensures Unpadded(Btoa(b)) == Digits(b)
  {
    hide Digits, IsBase64, Unpadded, Repeat;
    DigitsAreBase64(b);
    PaddingRestored(|b|);
    var d := Digits(b);
    if d != "" {
      Base64Chars(d[|d| - 1]);
    }
    UnpadRepeats(d, (3 - |b| % 3) % 3);
  }

  lemma UnpadRepeats(d: string, pad: nat)
    requires !EndsWith(d, '=') && pad <= 2 && (|d| + pad) % 4 == 0
    ensures Unpadded(d + Repeat('=', pad)) == d
  {
    var s := d + Repeat('=', pad);
    assert pad > 0 ==> s[..|s| - 1] == d + Repeat('=', pad - 1);
    assert pad == 1 ==> s[..|s| - 1] == d;
    assert pad == 2 ==> s[..|s| - 1][..|s| - 2] == d;
    assert pad == 0 ==> s == d;
  }

  /** Different bytes have different encodings. */
  lemma EncodingTellsApart(b: seq<byte>, c: seq<byte>)
    requires Encode(b) == Encode(c)
    ensures b == c
  {
    DecodeOfEncode(b);
    DecodeOfEncode(c);
  }

  // ---------------------------------------------------------------------------------------------
  // The functions of the source
  // ---------------------------------------------------------------------------------------------

  /** Text of one character for each byte. */
  function Binary(b: seq<byte>): (s: string)
    ensures |s| == |b|
  {
    seq(|b|, i requires 0 <= i < |b| => b[i] as char)
  }

  method EncodeBase64Url(bytes: array<byte>) returns (text: string)
    ensures text == Encode(bytes[..])
  {
    var binary := "";
    for i := 0 to bytes.Length
      invariant binary == Binary(bytes[..i])
    {
      binary := binary + [bytes[i] as char];
    }
    assert bytes[..bytes.Length] == bytes[..];
    var encoded := Btoa(Bytes(binary));
    assert Bytes(binary) == bytes[..];
    text := StripPadding(Mapped(encoded, ToUrl));
  }

  /** The bytes of text whose characters are all below 256. */
  function Bytes(s: string): (b: seq<byte>)
    requires forall i :: 0 <= i < |s| ==> s[i] as int < 256
    ensures |b| == |s|
  {
    seq(|s|, i requires 0 <= i < |s| => s[i] as int)
  }

  /** `None` where the text is not base64 and decoding throws. */
  method DecodeBase64Url(text: string) returns (decoded: Option<array<byte>>)
    ensures decoded.None? <==> Decode(text).None?
    ensures decoded.Some? ==> fresh(decoded.value) && Decode(text) == Some(decoded.value[..])
  {
    hide Undigit, WithoutSpace, Unpadded;
    var value := Atob(PadEnd(Mapped(text, FromUrl), (|text| + 3) / 4 * 4));
    if value.None? {
      return None;
    }
    var binary := Binary(value.value);
    var bytes := new byte[|binary|];
    for index := 0 to |binary|
      invariant forall i :: 0 <= i < index ==> bytes[i] == value.value[i]
    {
      bytes[index] := binary[index] as int;
    }
    assert bytes[..] == value.value;
    decoded := Some(bytes);
  }
}
