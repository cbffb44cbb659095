/** The codec against sections 4 and 5 of RFC 4648: each character of an encoding stands for six bits of the bytes. */
module Base64Bits {
  import opened Basics
  import opened Base64Url

  /** The code of the character for a number below 64, in table 2 of RFC 4648: upper case, lower case, digits, `-`, `_`. */
  function Code(n: int): int
  {
    if n <= 25 then 65 + n
    else if n <= 51 then 97 + (n - 26)
    else if n <= 61 then 48 + (n - 52)
    else if n == 62 then 45 else 95
  }

  /** Bit `i` of a byte, the most significant first. */
  function ByteBit(x: byte, i: nat): (bit: int)
    requires i < 8
    ensures 0 <= bit <= 1
  {
    match i
    case 0 => x / 128
    case 1 => x / 64 % 2
    case 2 => x / 32 % 2
    case 3 => x / 16 % 2
    case 4 => x / 8 % 2
    case 5 => x / 4 % 2
    case 6 => x / 2 % 2
    case _ => x % 2
  }

  /** Bit `k` of the bytes one after the other; zero after their end. */
  function Bit(b: seq<byte>, k: nat): (bit: int)
    ensures 0 <= bit <= 1
  {
    if k / 8 < |b| then ByteBit(b[k / 8], k % 8) else 0
  }

  /** The six bits from bit `k` on, as a number. */
  function Six(b: seq<byte>, k: nat): (n: int)
    ensures 0 <= n < 64
  {
    32 * Bit(b, k) + 16 * Bit(b, k + 1) + 8 * Bit(b, k + 2) + 4 * Bit(b, k + 3) + 2 * Bit(b, k + 4) + Bit(b, k + 5)
  }

  lemma UrlDigit(sextet: int)
    requires 0 <= sextet < 64
    ensures ToUrl(Digit(sextet)) as int == Code(sextet)
  {
  }

  lemma ByteIsBits(x: byte)
    ensures x / 4 == 32 * ByteBit(x, 0) + 16 * ByteBit(x, 1) + 8 * ByteBit(x, 2) + 4 * ByteBit(x, 3) + 2 * ByteBit(x, 4) + ByteBit(x, 5)
    ensures x / 16 == 8 * ByteBit(x, 0) + 4 * ByteBit(x, 1) + 2 * ByteBit(x, 2) + ByteBit(x, 3)
    ensures x / 64 == 2 * ByteBit(x, 0) + ByteBit(x, 1)
    ensures x % 4 == 2 * ByteBit(x, 6) + ByteBit(x, 7)
    ensures x % 16 == 8 * ByteBit(x, 4) + 4 * ByteBit(x, 5) + 2 * ByteBit(x, 6) + ByteBit(x, 7)
    ensures x % 64 == 32 * ByteBit(x, 2) + 16 * ByteBit(x, 3) + 8 * ByteBit(x, 4) + 4 * ByteBit(x, 5) + 2 * ByteBit(x, 6) + ByteBit(x, 7)
  {
    var h1 := x / 2;
    var h2 := h1 / 2;
    var h3 := h2 / 2;
    var h4 := h3 / 2;
    var h5 := h4 / 2;
    var h6 := h5 / 2;
    var h7 := h6 / 2;
    assert x / 4 == h2 && x / 8 == h3 && x / 16 == h4 && x / 32 == h5 && x / 64 == h6 && x / 128 == h7;
    HalvesAdd(x);
    HalvesAdd(h1);
    HalvesAdd(h2);
    HalvesAdd(h3);
    HalvesAdd(h4);
    HalvesAdd(h5);
    HalvesAdd(h6);
    assert x % 4 == x - 4 * h2 && x % 16 == x - 16 * h4 && x % 64 == x - 64 * h6;
  }

  lemma HalvesAdd(n: int)
    ensures n == 2 * (n / 2) + n % 2
  {
  }

  function ByteAt(b: seq<byte>, i: nat): byte
  {
    if i < |b| then b[i] else 0
  }

  lemma GroupIsBits(b: seq<byte>)
    ensures Six(b, 0) == ByteAt(b, 0) / 4
    ensures Six(b, 6) == ByteAt(b, 0) % 4 * 16 + ByteAt(b, 1) / 16
    ensures Six(b, 12) == ByteAt(b, 1) % 16 * 4 + ByteAt(b, 2) / 64
    ensures Six(b, 18) == ByteAt(b, 2) % 64
  {
    hide ByteBit;
    ByteIsBits(ByteAt(b, 0));
    ByteIsBits(ByteAt(b, 1));
    ByteIsBits(ByteAt(b, 2));
  }

  lemma BitsOfTail(b: seq<byte>, k: nat)
    requires |b| >= 3
    ensures Bit(b[3..], k) == Bit(b, k + 24)
  {
    hide ByteBit;
    assert (k + 24) / 8 == k / 8 + 3 && (k + 24) % 8 == k % 8;
  }

  lemma {:induction false} DigitIsSix(b: seq<byte>, j: nat)
    requires j < |Digits(b)|
    ensures Digits(b)[j] == Digit(Six(b, 6 * j))
    decreases |b|
  {
    hide Digit, Six, Bit, ByteBit;
    GroupIsBits(b);
    if |b| >= 3 && j >= 4 {
      DigitIsSix(b[3..], j - 4);
      SixOfTail(b, 6 * (j - 4));
      assert 6 * (j - 4) + 24 == 6 * j;
    }
  }

  lemma SixOfTail(b: seq<byte>, k: nat)
    requires |b| >= 3
    ensures Six(b[3..], k) == Six(b, k + 24)
  {
    hide Bit;
    BitsOfTail(b, k);
    BitsOfTail(b, k + 1);
    BitsOfTail(b, k + 2);
    BitsOfTail(b, k + 3);
    BitsOfTail(b, k + 4);
    BitsOfTail(b, k + 5);
  }

  /** Character `j` of an encoding is the one RFC 4648 assigns to bits `6j` to `6j + 5`, and there is a character for every
      six bits begun. */
  lemma EncodesBits(b: seq<byte>)
    ensures |Encode(b)| == (8 * |b| + 5) / 6
    ensures forall j :: 0 <= j < |Encode(b)| ==> Encode(b)[j] as int == Code(Six(b, 6 * j))
  {
    hide Encode, Six, ByteBit, Digit;
    EncodeIsDigits(b);
    EncodingIsUrlSafe(b);
    forall j | 0 <= j < |Encode(b)| ensures Encode(b)[j] as int == Code(Six(b, 6 * j)) {
      DigitIsSix(b, j);
      UrlDigit(Six(b, 6 * j));
    }
  }

  // ---------------------------------------------------------------------------------------------
  // Decoding
  // ---------------------------------------------------------------------------------------------

  /** Digits decode exactly when all are of the alphabet and no single one is left over. */
  lemma {:induction false} UndigitExactly(u: string)
    ensures Undigit(u).Some? <==> |u| % 4 != 1 && forall i :: 0 <= i < |u| ==> IsBase64(u[i])
    ensures Undigit(u).Some? ==> |Undigit(u).value| == |u| * 3 / 4
  {
    hide Sextet;
    if |u| >= 4 {
      var rest := u[4..];
      UndigitExactly(rest);
      assert forall i :: 4 <= i < |u| ==> u[i] == rest[i - 4];
      assert |u| * 3 / 4 == 3 + |rest| * 3 / 4;
      assert (forall i :: 0 <= i < |u| ==> IsBase64(u[i])) ==> forall i :: 0 <= i < |rest| ==> IsBase64(rest[i]) by {
        assert forall i :: 0 <= i < |rest| ==> rest[i] == u[i + 4];
      }
    }
  }

  lemma GroupBack(p: int, q: int, r: int, t: int)
    requires 0 <= p < 64 && 0 <= q < 64 && 0 <= r < 64 && 0 <= t < 64
    ensures (p * 4 + q / 16) / 4 == p
    ensures (p * 4 + q / 16) % 4 * 16 + (q % 16 * 16 + r / 4) / 16 == q
    ensures (q % 16 * 16 + r / 4) % 16 * 4 + (r % 4 * 64 + t) / 64 == r
    ensures (r % 4 * 64 + t) % 64 == t
  {
  }

  /** Each decoded bit is that of the digit it was read from. */
  lemma {:induction false} DecodedSix(u: string, j: nat)
    requires Undigit(u).Some? && 6 * j + 6 <= 8 * |Undigit(u).value|
    ensures j < |u| && Sextet(u[j]) == Some(Six(Undigit(u).value, 6 * j))
    decreases |u|
  {
    hide Sextet, Six, Bit, ByteBit;
    var b := Undigit(u).value;
    UndigitExactly(u);
    GroupIsBits(b);
    if |u| < 4 {
      ShortGroup(u, j);
    } else {
      var p, q, r, t := Sextet(u[0]).value, Sextet(u[1]).value, Sextet(u[2]).value, Sextet(u[3]).value;
      GroupBack(p, q, r, t);
      assert b[3..] == Undigit(u[4..]).value;
      if j >= 4 {
        DecodedSix(u[4..], j - 4);
        SixOfTail(b, 6 * (j - 4));
        assert 6 * (j - 4) + 24 == 6 * j;
      }
    }
  }

  lemma ShortGroup(u: string, j: nat)
    requires Undigit(u).Some? && |u| < 4 && 6 * j + 6 <= 8 * |Undigit(u).value|
    ensures j < |u| && Sextet(u[j]) == Some(Six(Undigit(u).value, 6 * j))
  {
    hide Sextet, Six, Bit, ByteBit;
    var b := Undigit(u).value;
    GroupIsBits(b);
    if |u| == 2 {
      GroupBack(Sextet(u[0]).value, Sextet(u[1]).value, 0, 0);
    } else if |u| == 3 {
      GroupBack(Sextet(u[0]).value, Sextet(u[1]).value, Sextet(u[2]).value, 0);
    }
  }

  lemma UrlChar(c: char)
    requires IsUrlSafe(c)
    ensures IsBase64(FromUrl(c)) && !IsSpace(FromUrl(c)) && FromUrl(c) != '='
    ensures c as int == Code(Sextet(FromUrl(c)).value)
  {
  }

  /** Text of the URL-safe alphabet reaches the digits as it is. */
  lemma TextIsDigits(s: string)
    requires forall i :: 0 <= i < |s| ==> IsUrlSafe(s[i])
    ensures |s| % 4 != 1 ==> Decode(s) == Undigit(Mapped(s, FromUrl))
    ensures |s| % 4 == 1 ==> Decode(s) == None
  {
    hide Undigit, IsBase64, IsUrlSafe, FromUrl, WithoutSpace;
    var u := Mapped(s, FromUrl);
    forall i | 0 <= i < |u| ensures IsBase64(u[i]) && !IsSpace(u[i]) && u[i] != '=' {
      UrlChar(s[i]);
    }
    var length := (|s| + 3) / 4 * 4;
    var padded := PadEnd(u, length);
    var pad := length - |s|;
    assert pad == (4 - |s| % 4) % 4;
    assert padded == u + Repeat('=', pad);
    NoSpaceToRemove(padded);
    PaddedIs(u, pad, padded);
    UndigitExactly(Unpadded(padded));
    if |s| % 4 == 1 {
      assert Unpadded(padded)[|s|] == '=';
      assert !IsBase64('=') by { EqualsIsNoDigit(); }
    }
  }

  lemma EqualsIsNoDigit()
    ensures !IsBase64('=')
  {
  }

  lemma PaddedIs(u: string, pad: nat, padded: string)
    requires padded == u + Repeat('=', pad) && (|u| + pad) % 4 == 0 && pad < 4
    requires forall i :: 0 <= i < |u| ==> u[i] != '='
    ensures pad <= 2 ==> Unpadded(padded) == u
    ensures pad == 3 ==> Unpadded(padded) == u + "="
  {
    if pad == 0 {
      assert padded == u;
    } else if pad == 1 {
      assert padded[..|padded| - 1] == u;
    } else {
      var t := padded[..|padded| - 1];
      assert t == u + Repeat('=', pad - 1);
      assert t[..|t| - 1] == u + Repeat('=', pad - 2);
      if pad == 2 {
        assert t[..|t| - 1] == u;
      }
    }
  }

  /** Text of the URL-safe alphabet decodes unless its length is one more than a multiple of four, to a byte for every
      eight bits of it; each character stands for its six bits of the bytes, apart from bits left over at the end. */
  lemma DecodesBits(s: string)
    requires forall i :: 0 <= i < |s| ==> IsUrlSafe(s[i])
    ensures Decode(s).Some? <==> |s| % 4 != 1
    ensures Decode(s).Some? ==>
      var b := Decode(s).value;
      && |b| == 6 * |s| / 8
      && forall j: nat :: 6 * j + 6 <= 8 * |b| ==> j < |s| && s[j] as int == Code(Six(b, 6 * j))
  {
    hide Undigit, Decode, Six, Sextet, IsUrlSafe, FromUrl, Code;
    var u := Mapped(s, FromUrl);
    TextIsDigits(s);
    forall i | 0 <= i < |u| ensures IsBase64(u[i]) {
      UrlChar(s[i]);
    }
    UndigitExactly(u);
    if |s| % 4 != 1 {
      var b := Undigit(u).value;
      forall j: nat | 6 * j + 6 <= 8 * |b| ensures j < |s| && s[j] as int == Code(Six(b, 6 * j)) {
        DecodedSix(u, j);
        UrlChar(s[j]);
      }
    }
  }
}
