/** UTF-8, as `str.encode("utf-8")` and the strict `bytes.decode("utf-8")` do it. */
module Utf8 {
  import opened Wrappers

  type Byte = x: int | 0 <= x < 256

  function EncodeChar(c: char): seq<Byte> {
    var n := c as int;
    if n < 0x80 then [n]
    else if n < 0x800 then [0xC0 + n / 64, 0x80 + n % 64]
    else if n < 0x10000 then [0xE0 + n / 4096, 0x80 + n / 64 % 64, 0x80 + n % 64]
    else [0xF0 + n / 262144, 0x80 + n / 4096 % 64, 0x80 + n / 64 % 64, 0x80 + n % 64]
  }

  function Encode(s: string): seq<Byte> {
    if s == "" then [] else EncodeChar(s[0]) + Encode(s[1..])
  }

  predicate Follows(x: int) { 0x80 <= x < 0xC0 }

  /** The first code point of a byte string and the number of its bytes, if well formed. */
  function First(b: seq<int>): (r: Option<(char, nat)>)
    requires b != []
    ensures r.Some? ==> 1 <= r.value.1 <= |b|
  {
    var x := b[0];
    if 0 <= x < 0x80 then Some((x as char, 1))
    else if 0xC2 <= x < 0xE0 && |b| >= 2 && Follows(b[1]) then
      Some((((x - 0xC0) * 64 + (b[1] - 0x80)) as char, 2))
    else if 0xE0 <= x < 0xF0 && |b| >= 3 && Follows(b[1]) && Follows(b[2]) then
      var n := (x - 0xE0) * 4096 + (b[1] - 0x80) * 64 + (b[2] - 0x80);
      if n >= 0x800 && !(0xD800 <= n < 0xE000) then Some((n as char, 3)) else None
    else if 0xF0 <= x < 0xF5 && |b| >= 4 && Follows(b[1]) && Follows(b[2]) && Follows(b[3]) then
      var n := (x - 0xF0) * 262144 + (b[1] - 0x80) * 4096 + (b[2] - 0x80) * 64 + (b[3] - 0x80);
      if 0x10000 <= n < 0x110000 then Some((n as char, 4)) else None
    else None
  }

  function Decode(b: seq<int>): (r: Option<string>)
    ensures r.Some? ==> |r.value| <= |b|
  {
    if b == [] then Some("")
    else
      var f := First(b);
      if f.None? then None
      else
        var rest := Decode(b[f.value.1..]);
        if rest.None? then None else Some([f.value.0] + rest.value)
  }

  lemma Digits(n: int)
    requires 0 <= n < 0x110000
    ensures n < 0x800 ==> (n / 64) * 64 + n % 64 == n && n / 64 < 32
    ensures n < 0x10000 ==> (n / 4096) * 4096 + (n / 64 % 64) * 64 + n % 64 == n && n / 4096 < 16
    ensures (n / 262144) * 262144 + (n / 4096 % 64) * 4096 + (n / 64 % 64) * 64 + n % 64 == n && n / 262144 < 5
  {
    assert n / 64 == n / 4096 * 64 + n / 64 % 64;
    assert n / 4096 == n / 262144 * 64 + n / 4096 % 64;
  }

  lemma FirstOfTwo(n: int, b: seq<int>)
    requires 0x80 <= n < 0x800 && |b| >= 2 && b[0] == 0xC0 + n / 64 && b[1] == 0x80 + n % 64
    ensures First(b) == Some((n as char, 2))
  {
    Digits(n);
  }

  lemma FirstOfThree(n: int, b: seq<int>)
    requires 0x800 <= n < 0x10000 && !(0xD800 <= n < 0xE000)
    requires |b| >= 3 && b[0] == 0xE0 + n / 4096 && b[1] == 0x80 + n / 64 % 64 && b[2] == 0x80 + n % 64
    ensures First(b) == Some((n as char, 3))
  {
    Digits(n);
  }

  lemma FirstOfFour(n: int, b: seq<int>)
    requires 0x10000 <= n < 0x110000 && |b| >= 4 && b[0] == 0xF0 + n / 262144
    requires b[1] == 0x80 + n / 4096 % 64 && b[2] == 0x80 + n / 64 % 64 && b[3] == 0x80 + n % 64
    ensures First(b) == Some((n as char, 4))
  {
    Digits(n);
  }

  lemma FirstOfEncoded(c: char, rest: seq<int>)
    ensures First(EncodeChar(c) + rest) == Some((c, |EncodeChar(c)|))
  {
    var n, b := c as int, EncodeChar(c) + rest;
    if n >= 0x10000 {
      FirstOfFour(n, b);
    } else if n >= 0x800 {
      FirstOfThree(n, b);
    } else if n >= 0x80 {
      FirstOfTwo(n, b);
    }
  }

  lemma {:induction false} RoundTrip(s: string)
    ensures Decode(Encode(s)) == Some(s)
  {
    if s != "" {
      var h, t := EncodeChar(s[0]), Encode(s[1..]);
      FirstOfEncoded(s[0], t);
      assert (h + t)[|h|..] == t;
      RoundTrip(s[1..]);
      assert s == [s[0]] + s[1..];
    }
  }
}
