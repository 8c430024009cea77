/** The URL-safe alphabet of section 5 of RFC 4648, with the lenient decoder of Python's `base64`:
    characters outside the alphabet are skipped and decoding ends at a complete padding. */
module Base64Url {
  import opened Wrappers
  import opened Utf8

  /** A position of an encoded text: a symbol value, the padding sign, or a character to be skipped. */
  const Pad := 64
  const Junk := 65

  type Digit = n: int | 0 <= n <= 64

  // ----- Characters

  function Symbol(n: Digit): char {
    if n < 26 then 'A' + n as char
    else if n < 52 then 'a' + (n - 26) as char
    else if n < 62 then '0' + (n - 52) as char
    else if n == 62 then '-'
    else if n == 63 then '_'
    else '='
  }

  /** The standard alphabet's `+` and `/` are accepted as well. */
  function ValueOf(c: char): int {
    if 'A' <= c <= 'Z' then c as int - 'A' as int
    else if 'a' <= c <= 'z' then c as int - 'a' as int + 26
    else if '0' <= c <= '9' then c as int - '0' as int + 52
    else if c == '-' || c == '+' then 62
    else if c == '_' || c == '/' then 63
    else if c == '=' then Pad
    else Junk
  }

  function Text(d: seq<Digit>): string { seq(|d|, i requires 0 <= i < |d| => Symbol(d[i])) }

  function Values(s: string): seq<int> { seq(|s|, i requires 0 <= i < |s| => ValueOf(s[i])) }

  lemma SymbolValue(n: Digit)
    ensures ValueOf(Symbol(n)) == n && Symbol(n) as int < 128
  {
  }

  lemma ValuesOfText(d: seq<Digit>)
    ensures Values(Text(d)) == d && Ascii(Text(d))
  {
    forall i | 0 <= i < |d| ensures Values(Text(d))[i] == d[i] && Text(d)[i] as int < 128 {
      SymbolValue(d[i]);
    }
  }

  predicate Ascii(s: string) { forall i :: 0 <= i < |s| ==> s[i] as int < 128 }

  // ----- Encoding

  function Encode64(b: seq<Byte>): seq<Digit> {
    if b == [] then []
    else if |b| == 1 then [b[0] / 4, b[0] % 4 * 16, Pad, Pad]
    else if |b| == 2 then [b[0] / 4, b[0] % 4 * 16 + b[1] / 16, b[1] % 16 * 4, Pad]
    else [b[0] / 4, b[0] % 4 * 16 + b[1] / 16, b[1] % 16 * 4 + b[2] / 64, b[2] % 64] + Encode64(b[3..])
  }

  function EncodeText(b: seq<Byte>): string { Text(Encode64(b)) }

  // ----- Decoding

  function Emit(x: int, rest: Option<seq<int>>): Option<seq<int>> {
    if rest.None? then None else Some([x] + rest.value)
  }

  /** The scanner: `quad` symbols of the current group seen, their unused bits in `left`, `pads` signs of
      padding just before. */
  function Scan(d: seq<int>, quad: int, left: int, pads: int): (r: Option<seq<int>>)
    requires 0 <= quad < 4
    ensures r.Some? ==> 4 * |r.value| <= 3 * |d| + (if quad == 0 then 0 else 4 - quad)
  {
    if d == [] then (if quad == 0 then Some([]) else None)
    else
      var n, rest := d[0], d[1..];
      if n == Pad then
        if quad >= 2 && quad + pads + 1 >= 4 then Some([]) else Scan(rest, quad, left, if quad >= 2 then pads + 1 else pads)
      else if n == Junk then Scan(rest, quad, left, pads)
      else if quad == 0 then Scan(rest, 1, n, 0)
      else if quad == 1 then Emit(left * 4 + n / 16, Scan(rest, 2, n % 16, 0))
      else if quad == 2 then Emit(left * 16 + n / 4, Scan(rest, 3, n % 4, 0))
      else Emit(left * 64 + n, Scan(rest, 0, 0, 0))
  }

  /** Only ASCII text is accepted at all. */
  function DecodeText(s: string): (r: Option<seq<int>>)
    ensures r.Some? ==> 4 * |r.value| <= 3 * |s|
  {
    if Ascii(s) then Scan(Values(s), 0, 0, 0) else None
  }

  // ----- Decoding an encoding

  lemma ScanStep(n: int, d: seq<int>, quad: int, left: int)
    requires 0 <= n < 64 && 0 <= quad < 4
    ensures Scan([n] + d, quad, left, 0) ==
              if quad == 0 then Scan(d, 1, n, 0)
              else if quad == 1 then Emit(left * 4 + n / 16, Scan(d, 2, n % 16, 0))
              else if quad == 2 then Emit(left * 16 + n / 4, Scan(d, 3, n % 4, 0))
              else Emit(left * 64 + n, Scan(d, 0, 0, 0))
  {
    assert ([n] + d)[1..] == d;
  }

  /** The bits of three bytes, cut in four. */
  lemma Regroup(a: Byte, b: Byte, c: Byte)
    ensures var n0, n1, n2, n3 := a / 4, a % 4 * 16 + b / 16, b % 16 * 4 + c / 64, c % 64;
            && 0 <= n0 < 64 && 0 <= n1 < 64 && 0 <= n2 < 64 && 0 <= n3 < 64
            && n0 * 4 + n1 / 16 == a && n1 % 16 * 16 + n2 / 4 == b && n2 % 4 * 64 + n3 == c
  {
  }

  lemma ScanGroup(n0: int, n1: int, n2: int, n3: int, d: seq<int>)
    requires 0 <= n0 < 64 && 0 <= n1 < 64 && 0 <= n2 < 64 && 0 <= n3 < 64
    ensures Scan([n0, n1, n2, n3] + d, 0, 0, 0) == Emit(n0 * 4 + n1 / 16, Emit(n1 % 16 * 16 + n2 / 4, Emit(n2 % 4 * 64 + n3, Scan(d, 0, 0, 0))))
  {
    ScanStep(n3, d, 3, n2 % 4);
    ScanStep(n2, [n3] + d, 2, n1 % 16);
    ScanStep(n1, [n2] + ([n3] + d), 1, n0);
    ScanStep(n0, [n1] + ([n2] + ([n3] + d)), 0, 0);
    assert [n0, n1, n2, n3] + d == [n0] + ([n1] + ([n2] + ([n3] + d)));
  }

  lemma ScanTwo(n0: int, n1: int, n2: int)
    requires 0 <= n0 < 64 && 0 <= n1 < 64 && 0 <= n2 < 64
    ensures Scan([n0, n1, n2, Pad], 0, 0, 0) == Emit(n0 * 4 + n1 / 16, Emit(n1 % 16 * 16 + n2 / 4, Some([])))
  {
    assert Scan([Pad], 3, n2 % 4, 0) == Some([]);
    ScanStep(n2, [Pad], 2, n1 % 16);
    ScanStep(n1, [n2] + [Pad], 1, n0);
    ScanStep(n0, [n1] + ([n2] + [Pad]), 0, 0);
    assert [n0, n1, n2, Pad] == [n0] + ([n1] + ([n2] + [Pad]));
  }

  lemma ScanOne(n0: int, n1: int)
    requires 0 <= n0 < 64 && 0 <= n1 < 64
    ensures Scan([n0, n1, Pad, Pad], 0, 0, 0) == Emit(n0 * 4 + n1 / 16, Some([]))
  {
    assert [Pad, Pad][1..] == [Pad];
    assert Scan([Pad], 2, n1 % 16, 1) == Some([]);
    assert Scan([Pad, Pad], 2, n1 % 16, 0) == Some([]);
    ScanStep(n1, [Pad, Pad], 1, n0);
    ScanStep(n0, [n1] + [Pad, Pad], 0, 0);
    assert [n0, n1, Pad, Pad] == [n0] + ([n1] + [Pad, Pad]);
  }

  lemma OneByte(a: Byte)
    ensures Scan([a / 4, a % 4 * 16, Pad, Pad], 0, 0, 0) == Some([a])
  {
    Regroup(a, 0, 0);
    ScanOne(a / 4, a % 4 * 16);
    assert [a] + [] == [a];
  }

  lemma TwoBytes(a: Byte, b: Byte)
    ensures Scan([a / 4, a % 4 * 16 + b / 16, b % 16 * 4, Pad], 0, 0, 0) == Some([a, b])
  {
    Regroup(a, b, 0);
    ScanTwo(a / 4, a % 4 * 16 + b / 16, b % 16 * 4);
    assert [a] + ([b] + []) == [a, b];
  }

  lemma ThreeBytes(a: Byte, b: Byte, c: Byte, d: seq<int>, r: seq<int>)
    requires Scan(d, 0, 0, 0) == Some(r)
    ensures Scan([a / 4, a % 4 * 16 + b / 16, b % 16 * 4 + c / 64, c % 64] + d, 0, 0, 0) == Some([a, b, c] + r)
  {
    Regroup(a, b, c);
    GroupIs(a / 4, a % 4 * 16 + b / 16, b % 16 * 4 + c / 64, c % 64, a, b, c, d, r);
  }

  lemma GroupIs(n0: int, n1: int, n2: int, n3: int, a: Byte, b: Byte, c: Byte, d: seq<int>, r: seq<int>)
    requires 0 <= n0 < 64 && 0 <= n1 < 64 && 0 <= n2 < 64 && 0 <= n3 < 64
    requires n0 * 4 + n1 / 16 == a && n1 % 16 * 16 + n2 / 4 == b && n2 % 4 * 64 + n3 == c
    requires Scan(d, 0, 0, 0) == Some(r)
    ensures Scan([n0, n1, n2, n3] + d, 0, 0, 0) == Some([a, b, c] + r)
  {
    ScanGroup(n0, n1, n2, n3, d);
    assert [a] + ([b] + ([c] + r)) == [a, b, c] + r;
  }

  lemma {:induction false} ScanInvertsEncode(b: seq<Byte>)
    ensures Scan(Encode64(b), 0, 0, 0) == Some(b)
  {
    if |b| == 1 {
      OneByte(b[0]);
      assert b == [b[0]];
    } else if |b| == 2 {
      TwoBytes(b[0], b[1]);
      assert b == [b[0], b[1]];
    } else if |b| > 2 {
      ScanInvertsEncode(b[3..]);
      ThreeBytes(b[0], b[1], b[2], Encode64(b[3..]), b[3..]);
      assert b == [b[0], b[1], b[2]] + b[3..];
    }
  }

  lemma RoundTrip(b: seq<Byte>)
    ensures DecodeText(EncodeText(b)) == Some(b)
  {
    ValuesOfText(Encode64(b));
    ScanInvertsEncode(b);
  }

  // ----- Stripping the padding and putting it back

  function Stripped(s: string): string {
    if s != "" && s[|s| - 1] == '=' then Stripped(s[..|s| - 1]) else s
  }

  function Padded(s: string): string {
    match |s| % 4
    case 0 => s
    case 1 => s + "==="
    case 2 => s + "=="
    case _ => s + "="
  }

  /** An encoding is a run of symbols followed by no, one or two signs of padding that complete it to fours. */
  lemma {:induction false} EncodingShape(b: seq<Byte>) returns (k: nat)
    ensures k <= |Encode64(b)| <= k + 2 && |Encode64(b)| % 4 == 0
    ensures forall i :: 0 <= i < k ==> Encode64(b)[i] != Pad
    ensures forall i :: k <= i < |Encode64(b)| ==> Encode64(b)[i] == Pad
  {
    if b == [] {
      k := 0;
    } else if |b| == 1 {
      k := 2;
    } else if |b| == 2 {
      k := 3;
    } else {
      var j := EncodingShape(b[3..]);
      k := j + 4;
      var g := [b[0] / 4, b[0] % 4 * 16 + b[1] / 16, b[1] % 16 * 4 + b[2] / 64, b[2] % 64];
      assert Encode64(b) == g + Encode64(b[3..]);
      assert forall i :: 4 <= i < |Encode64(b)| ==> Encode64(b)[i] == Encode64(b[3..])[i - 4];
    }
  }

  lemma StripPadded(t: string)
    requires (t == "" || t[|t| - 1] != '=') && |t| % 4 != 1
    ensures Stripped(Padded(t)) == t
  {
    if |t| % 4 == 3 {
      assert (t + "=")[..|t|] == t;
    } else if |t| % 4 == 2 {
      assert (t + "==")[..|t| + 1] == t + "=" && (t + "=")[..|t|] == t;
      assert Stripped(t + "=") == t;
    }
  }

  lemma SymbolIsPad(n: Digit)
    ensures Symbol(n) == '=' <==> n == Pad
  {
    SymbolValue(n);
  }

  lemma PaddingRoundTrip(b: seq<Byte>)
    ensures Padded(Stripped(EncodeText(b))) == EncodeText(b)
  {
    var k := EncodingShape(b);
    var s := EncodeText(b);
    var t := s[..k];
    forall i | 0 <= i < |s| ensures s[i] == '=' <==> i >= k {
      SymbolIsPad(Encode64(b)[i]);
    }
    assert s == Padded(t);
    StripPadded(t);
  }
}
