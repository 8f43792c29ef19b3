/** UTF-8 as Rust's `String::from_utf8` accepts it: the shortest encoding of
    each scalar value, no surrogates, nothing above U+10FFFF. Bytes are
    integers in [0, 256). */
module Utf8 {
  import opened Wrappers

  newtype byte = x: int | 0 <= x < 256

  predicate IsScalar(n: int) {
    0 <= n < 0xD800 || 0xE000 <= n < 0x11_0000
  }

  predicate IsContinuation(b: byte) {
    0x80 <= b < 0xC0
  }

  /** The bytes of one scalar value. */
  function EncodeChar(c: char): (bs: seq<byte>)
    ensures 1 <= |bs| <= 4
    ensures (c as int < 0x80) <==> |bs| == 1
  {
    var n := c as int;
    if n < 0x80 then [n as byte]
    else if n < 0x800 then [(0xC0 + n / 64) as byte, (0x80 + n % 64) as byte]
    else if n < 0x1_0000 then
      [(0xE0 + n / 4096) as byte, (0x80 + (n / 64) % 64) as byte, (0x80 + n % 64) as byte]
    else
      [(0xF0 + n / 262144) as byte, (0x80 + (n / 4096) % 64) as byte,
       (0x80 + (n / 64) % 64) as byte, (0x80 + n % 64) as byte]
  }

  function Encode(s: string): seq<byte> {
    if |s| == 0 then [] else EncodeChar(s[0]) + Encode(s[1..])
  }

  /** The first scalar value of `bs` and the number of bytes it takes, or
      `None` when `bs` does not start with a well-formed sequence. */
  function DecodeFirst(bs: seq<byte>): (r: Option<(char, nat)>)
    requires |bs| > 0
    ensures r.Some? ==> 1 <= r.value.1 <= |bs|
  {
    var b0 := bs[0] as int;
    if b0 < 0x80 then Some((b0 as char, 1))
    else if 0xC2 <= b0 < 0xE0 then
      if |bs| < 2 || !IsContinuation(bs[1]) then None
      else Some((((b0 - 0xC0) * 64 + (bs[1] as int - 0x80)) as char, 2))
    else if 0xE0 <= b0 < 0xF0 then
      if |bs| < 3 || !IsContinuation(bs[1]) || !IsContinuation(bs[2]) then None
      else
        var n := (b0 - 0xE0) * 4096 + (bs[1] as int - 0x80) * 64 + (bs[2] as int - 0x80);
        if n < 0x800 || 0xD800 <= n < 0xE000 then None else Some((n as char, 3))
    else if 0xF0 <= b0 < 0xF5 then
      if |bs| < 4 || !IsContinuation(bs[1]) || !IsContinuation(bs[2]) || !IsContinuation(bs[3]) then None
      else
        var n := (b0 - 0xF0) * 262144 + (bs[1] as int - 0x80) * 4096 + (bs[2] as int - 0x80) * 64 + (bs[3] as int - 0x80);
        if n < 0x1_0000 || n >= 0x11_0000 then None else Some((n as char, 4))
    else None
  }

  /** `String::from_utf8`: the whole input must decode. */
  function Decode(bs: seq<byte>): Option<string>
    decreases |bs|
  {
    if |bs| == 0 then Some([])
    else
      var first :- DecodeFirst(bs);
      var rest :- Decode(bs[first.1..]);
      Some([first.0] + rest)
  }

  /** Each scalar value's encoding decodes back to it, whatever follows. */
  lemma DecodeFirstEncodeChar(c: char, rest: seq<byte>)
    ensures DecodeFirst(EncodeChar(c) + rest) == Some((c, |EncodeChar(c)|))
  {
    var n := c as int;
    if n < 0x80 {
    } else if n < 0x800 {
      DecodeTwo(c, rest);
    } else if n < 0x1_0000 {
      DecodeThree(c, rest);
    } else {
      DecodeFour(c, rest);
    }
  }

  lemma DecodeTwo(c: char, rest: seq<byte>)
    requires 0x80 <= c as int < 0x800
    ensures DecodeFirst(EncodeChar(c) + rest) == Some((c, 2))
  {
    var n := c as int;
    var bs := EncodeChar(c) + rest;
    assert bs[0] as int == 0xC0 + n / 64 && bs[1] as int == 0x80 + n % 64;
    assert (n / 64) * 64 + n % 64 == n;
  }

  /** The three six-bit-or-less groups of a value below 0x1_0000. */
  lemma Groups3(n: nat)
    ensures (n / 4096) * 4096 + ((n / 64) % 64) * 64 + n % 64 == n
  {
    assert (n / 64) / 64 == n / 4096;
    assert (n / 64) == ((n / 64) / 64) * 64 + (n / 64) % 64;
    assert n == (n / 64) * 64 + n % 64;
  }

  lemma DecodeThree(c: char, rest: seq<byte>)
    requires 0x800 <= c as int < 0x1_0000
    ensures DecodeFirst(EncodeChar(c) + rest) == Some((c, 3))
  {
    var n := c as int;
    var bs := EncodeChar(c) + rest;
    var a, b, d := n / 4096, (n / 64) % 64, n % 64;
    assert bs[0] as int == 0xE0 + a && bs[1] as int == 0x80 + b && bs[2] as int == 0x80 + d;
    Groups3(n);
  }

  /** The four groups of a value of at least 0x1_0000. */
  lemma Groups4(n: nat)
    ensures (n / 262144) * 262144 + ((n / 4096) % 64) * 4096 + ((n / 64) % 64) * 64 + n % 64 == n
  {
    var a, b, e, d := n / 262144, (n / 4096) % 64, (n / 64) % 64, n % 64;
    assert (n / 4096) / 64 == a;
    assert (n / 64) / 64 == n / 4096;
    assert n / 4096 == a * 64 + b;
    assert n / 64 == (n / 4096) * 64 + e;
    assert n == (n / 64) * 64 + d;
  }

  lemma DecodeFour(c: char, rest: seq<byte>)
    requires 0x1_0000 <= c as int
    ensures DecodeFirst(EncodeChar(c) + rest) == Some((c, 4))
  {
    var n := c as int;
    var bs := EncodeChar(c) + rest;
    var a, b, e, d := n / 262144, (n / 4096) % 64, (n / 64) % 64, n % 64;
    assert bs[0] as int == 0xF0 + a && bs[1] as int == 0x80 + b && bs[2] as int == 0x80 + e && bs[3] as int == 0x80 + d;
    Groups4(n);
  }

  /** Decoding undoes encoding. */
  lemma {:induction false} DecodeEncode(s: string)
    ensures Decode(Encode(s)) == Some(s)
    decreases |s|
  {
    if |s| > 0 {
      var bs := Encode(s);
      DecodeFirstEncodeChar(s[0], Encode(s[1..]));
      assert bs[|EncodeChar(s[0])|..] == Encode(s[1..]);
      DecodeEncode(s[1..]);
      assert s == [s[0]] + s[1..];
    }
  }

  /** Bytes below 0x80 decode one by one. */
  lemma {:induction false} DecodeAscii(bs: seq<byte>)
    requires forall i :: 0 <= i < |bs| ==> bs[i] < 0x80
    ensures Decode(bs).Some? && |Decode(bs).value| == |bs|
    ensures forall i :: 0 <= i < |bs| ==> Decode(bs).value[i] as int == bs[i] as int
    decreases |bs|
  {
    if |bs| > 0 {
      DecodeAscii(bs[1..]);
      var r := Decode(bs).value;
      assert r == [bs[0] as int as char] + Decode(bs[1..]).value;
      forall i | 1 <= i < |bs| ensures r[i] as int == bs[i] as int {
        assert r[i] == Decode(bs[1..]).value[i - 1];
      }
    }
  }
}
