/** The UTF-8 form of a string (section 3 of RFC 3629), with a strict decoder. */
module Utf8 {
  import opened Sequences

  type Byte = x: int | 0 <= x < 256

  predicate Scalar(n: int) {
    0 <= n < 0xD800 || 0xE000 <= n < 0x110000
  }

  function EncodeScalar(n: nat): (bs: seq<Byte>)
    requires n < 0x110000
    ensures 1 <= |bs| <= 4
  {
    if n < 0x80 then [n]
    else if n < 0x800 then [0xC0 + n / 64, 0x80 + n % 64]
    else if n < 0x10000 then [0xE0 + n / 64 / 64, 0x80 + n / 64 % 64, 0x80 + n % 64]
    else [0xF0 + n / 64 / 64 / 64, 0x80 + n / 64 / 64 % 64, 0x80 + n / 64 % 64, 0x80 + n % 64]
  }

  function EncodeChar(c: char): seq<Byte> {
    EncodeScalar(c as int)
  }

  function Encode(s: string): seq<Byte> {
    if s == "" then [] else EncodeChar(s[0]) + Encode(s[1..])
  }

  predicate Continues(b: Byte) {
    0x80 <= b < 0xC0
  }

  /** The first scalar and the number of bytes it takes. Overlong forms, surrogates and numbers past 0x10FFFF
      are malformed. */
  function DecodeScalar(bs: seq<Byte>): (r: Option<(int, nat)>)
    ensures r.Some? ==> Scalar(r.value.0) && 0 < r.value.1 <= |bs|
  {
    if bs == [] then None
    else if bs[0] < 0x80 then Some((bs[0], 1))
    else if bs[0] < 0xC0 then None
    else if bs[0] < 0xE0 then
      if |bs| < 2 || !Continues(bs[1]) then None
      else
        var n := (bs[0] as int - 0xC0) * 64 + (bs[1] as int - 0x80);
        if n < 0x80 then None else Some((n, 2))
    else if bs[0] < 0xF0 then
      if |bs| < 3 || !Continues(bs[1]) || !Continues(bs[2]) then None
      else
        var n := ((bs[0] as int - 0xE0) * 64 + (bs[1] as int - 0x80)) * 64 + (bs[2] as int - 0x80);
        if n < 0x800 || 0xD800 <= n < 0xE000 then None else Some((n, 3))
    else
      if |bs| < 4 || !Continues(bs[1]) || !Continues(bs[2]) || !Continues(bs[3]) then None
      else
        var n := (((bs[0] as int - 0xF0) * 64 + (bs[1] as int - 0x80)) * 64 + (bs[2] as int - 0x80)) * 64
                 + (bs[3] as int - 0x80);
        if n < 0x10000 || n > 0x10FFFF then None else Some((n, 4))
  }

  function Decode(bs: seq<Byte>): Option<string> {
    if bs == [] then Some("")
    else
      var first := DecodeScalar(bs);
      if first.None? then None
      else
        var rest := Decode(bs[first.value.1..]);
        if rest.None? then None else Some([first.value.0 as char] + rest.value)
  }

  /** Joining a quotient and a remainder, and taking them apart again. */
  lemma SixBitDigits(q: int, r: int)
    requires 0 <= r < 64
    ensures (q * 64 + r) / 64 == q && (q * 64 + r) % 64 == r
  {
  }

  lemma EncodedScalarDecodes(n: nat, rest: seq<Byte>)
    requires Scalar(n)
    ensures DecodeScalar(EncodeScalar(n) + rest) == Some((n, |EncodeScalar(n)|))
  {
  }

  lemma TwoBytesEncode(a: Byte, b: Byte)
    requires 0xC0 <= a < 0xE0 && Continues(b) && (a - 0xC0) * 64 + (b - 0x80) >= 0x80
    ensures EncodeScalar((a - 0xC0) * 64 + (b - 0x80)) == [a, b]
  {
    SixBitDigits(a - 0xC0, b - 0x80);
  }

  lemma ThreeBytesEncode(a: Byte, b: Byte, c: Byte, q: nat)
    requires 0xE0 <= a < 0xF0 && Continues(b) && Continues(c)
    requires q == (a - 0xE0) * 64 + (b - 0x80) && q * 64 + (c - 0x80) >= 0x800
    ensures EncodeScalar(q * 64 + (c - 0x80)) == [a, b, c]
  {
    SixBitDigits(a - 0xE0, b - 0x80);
    SixBitDigits(q, c - 0x80);
  }

  lemma FourBytesEncode(a: Byte, b: Byte, c: Byte, d: Byte, p: nat, q: nat)
    requires 0xF0 <= a && Continues(b) && Continues(c) && Continues(d)
    requires p == (a - 0xF0) * 64 + (b - 0x80) && q == p * 64 + (c - 0x80)
    requires 0x10000 <= q * 64 + (d - 0x80) < 0x110000
    ensures EncodeScalar(q * 64 + (d - 0x80)) == [a, b, c, d]
  {
    SixBitDigits(a - 0xF0, b - 0x80);
    SixBitDigits(p, c - 0x80);
    SixBitDigits(q, d - 0x80);
  }

  lemma DecodedScalarEncodes(bs: seq<Byte>)
    requires DecodeScalar(bs).Some?
    ensures var (n, size) := DecodeScalar(bs).value;
      EncodeScalar(n) == bs[..size]
  {
    var size := DecodeScalar(bs).value.1;
    if size == 2 {
      TwoBytesEncode(bs[0], bs[1]);
    } else if size == 3 {
      ThreeBytesEncode(bs[0], bs[1], bs[2], (bs[0] as int - 0xE0) * 64 + (bs[1] as int - 0x80));
    } else if size == 4 {
      var p := (bs[0] as int - 0xF0) * 64 + (bs[1] as int - 0x80);
      FourBytesEncode(bs[0], bs[1], bs[2], bs[3], p, p * 64 + (bs[2] as int - 0x80));
    }
  }

  lemma CharIsScalar(c: char)
    ensures Scalar(c as int) && c as int as char == c
  {
  }

  lemma {:induction false} EncodedDecodes(s: string)
    ensures Decode(Encode(s)) == Some(s)
  {
    if s != "" {
      var e, rest := EncodeChar(s[0]), Encode(s[1..]);
      EncodedDecodes(s[1..]);
      CharIsScalar(s[0]);
      EncodedScalarDecodes(s[0] as int, rest);
      assert (e + rest)[|e|..] == rest;
      assert s == [s[0]] + s[1..];
    }
  }

  lemma EncodeCons(c: char, rest: string)
    ensures Encode([c] + rest) == EncodeChar(c) + Encode(rest)
  {
    assert ([c] + rest)[1..] == rest;
  }

  lemma FirstEncodes(bs: seq<Byte>)
    requires DecodeScalar(bs).Some?
    ensures var (n, size) := DecodeScalar(bs).value; EncodeChar(n as char) == bs[..size]
  {
    DecodedScalarEncodes(bs);
  }

  /** Decoding the first scalar and then the rest. */
  lemma DecodedCons(bs: seq<Byte>) returns (c: char, size: nat)
    requires bs != [] && Decode(bs).Some?
    ensures 0 < size <= |bs| && EncodeChar(c) == bs[..size]
    ensures Decode(bs[size..]).Some? && Decode(bs).value == [c] + Decode(bs[size..]).value
  {
    c, size := DecodeScalar(bs).value.0 as char, DecodeScalar(bs).value.1;
    FirstEncodes(bs);
  }

  /** The decoder takes nothing but what the encoder gives. */
  lemma {:induction false} DecodedEncodes(bs: seq<Byte>)
    requires Decode(bs).Some?
    ensures Encode(Decode(bs).value) == bs
  {
    if bs != [] {
      var c, size := DecodedCons(bs);
      DecodedEncodes(bs[size..]);
      EncodeCons(c, Decode(bs[size..]).value);
      assert bs == bs[..size] + bs[size..];
    }
  }

  /** What starts with the encoding of a string is only ever the encoding of a string that starts with it. */
  lemma {:induction false} PrefixesAgree(x: string, y: string)
    ensures Encode(x) <= Encode(y) <==> x <= y
  {
    if x != "" && y != "" {
      if x[0] == y[0] {
        PrefixesAgree(x[1..], y[1..]);
        Behind(EncodeChar(x[0]), Encode(x[1..]), Encode(y[1..]));
        Behind([x[0]], x[1..], y[1..]);
        assert x == [x[0]] + x[1..] && y == [y[0]] + y[1..];
      } else {
        HeadsAgree(x, y);
      }
    }
  }

  lemma HeadOfPrefix<T>(head: seq<T>, tail: seq<T>, whole: seq<T>)
    requires head + tail <= whole
    ensures whole == head + whole[|head|..]
  {
    assert whole[..|head|] == (head + tail)[..|head|] == head;
  }

  lemma SameScalar(m: nat, n: nat, p: seq<Byte>, q: seq<Byte>)
    requires Scalar(m) && Scalar(n) && EncodeScalar(m) + p == EncodeScalar(n) + q
    ensures m == n
  {
    EncodedScalarDecodes(m, p);
    EncodedScalarDecodes(n, q);
  }

  lemma HeadsAgree(x: string, y: string)
    requires x != "" && y != ""
    ensures Encode(x) <= Encode(y) ==> x[0] == y[0]
  {
    if Encode(x) <= Encode(y) {
      var head := EncodeChar(x[0]);
      HeadOfPrefix(head, Encode(x[1..]), Encode(y));
      CharIsScalar(x[0]);
      CharIsScalar(y[0]);
      SameScalar(x[0] as int, y[0] as int, Encode(y)[|head|..], Encode(y[1..]));
    }
  }
}
