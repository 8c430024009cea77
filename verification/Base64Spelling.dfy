/** Why the spelled-out separators `_dot_` and `_hash_` can never be part of a base64 encoding of UTF-8 text:
    at each of the four alignments the bits they stand for break the byte sequence. */
module Base64Spelling {
  import opened Wrappers
  import opened Utf8
  import opened Base64Url

  // ----- Byte sequences that are not UTF-8

  /** Position `i` cannot occur in UTF-8: an impossible byte, a continuation after a one-byte character, or a
      leading byte with no continuation. */
  predicate BreaksAt(b: seq<int>, i: nat)
    requires i < |b|
  {
    || b[i] >= 0xF5
    || (b[i] < 0x80 && i + 1 < |b| && Follows(b[i + 1]))
    || (b[i] >= 0xC0 && (i + 1 == |b| || !Follows(b[i + 1])))
  }

  lemma {:induction false} DecodedBreaksNowhere(b: seq<int>, i: nat)
    requires Decode(b).Some? && i < |b|
    ensures !BreaksAt(b, i) && !Follows(b[0])
    decreases |b|
  {
    var n := First(b).value.1;
    var rest := b[n..];
    if n <= i {
      DecodedBreaksNowhere(rest, i - n);
    } else if rest != [] {
      DecodedBreaksNowhere(rest, 0);
      assert rest[0] == b[n];
    }
  }

  // ----- The scanner

  /** The next byte, when some bits are waiting. */
  lemma {:induction false} NextByte(d: seq<int>, quad: int, left: int, pads: int)
    requires 1 <= quad < 4 && Scan(d, quad, left, pads).Some? && forall i :: 0 <= i < |d| ==> d[i] >= 0
    ensures var r := Scan(d, quad, left, pads).value;
            (quad == 1 ==> r != [] && r[0] >= left * 4) && (quad == 3 ==> r == [] || r[0] >= left * 64)
  {
    if d != [] && (d[0] == Pad || d[0] == Junk) {
      var pads' := if d[0] == Pad && quad >= 2 then pads + 1 else pads;
      if !(d[0] == Pad && quad >= 2 && quad + pads + 1 >= 4) {
        NextByte(d[1..], quad, left, pads');
      }
    }
  }

  function ByteFrom(quad: int, left: int, n: int): int {
    if quad == 1 then left * 4 + n / 16 else if quad == 2 then left * 16 + n / 4 else left * 64 + n
  }

  function BitsFrom(quad: int, n: int): int {
    if quad == 0 then n else if quad == 1 then n % 16 else if quad == 2 then n % 4 else 0
  }

  function NextQuad(quad: int): int {
    if quad == 3 then 0 else quad + 1
  }

  /** One symbol, whatever padding came just before it. */
  lemma ScanSymbol(d: seq<int>, quad: int, left: int, pads: int)
    requires d != [] && d[0] != Pad && d[0] != Junk && 0 <= quad < 4
    ensures Scan(d, quad, left, pads) ==
              if quad == 0 then Scan(d[1..], 1, d[0], 0)
              else Emit(ByteFrom(quad, left, d[0]), Scan(d[1..], NextQuad(quad), BitsFrom(quad, d[0]), 0))
  {
  }

  /** One character that is no symbol: the scanner stops or goes on as it was. */
  lemma ScanOther(d: seq<int>, quad: int, left: int, pads: int) returns (pads': int)
    requires d != [] && (d[0] == Pad || d[0] == Junk) && 0 <= quad < 4
    ensures Scan(d, quad, left, pads) == Some([]) || Scan(d, quad, left, pads) == Scan(d[1..], quad, left, pads')
  {
    pads' := if d[0] == Pad && quad >= 2 then pads + 1 else pads;
  }

  /** The result of a scan over `pre + w`: stopped within `pre`, or some bytes and then a scan of `w`. */
  ghost predicate Reaches(r: seq<int>, pre: seq<int>, w: seq<int>, stopped: bool, x: seq<int>, q: int, l: int) {
    if stopped then |r| <= |pre| else 0 <= q < 4 && Scan(w, q, l, 0).Some? && r == x + Scan(w, q, l, 0).value
  }

  lemma ReachesMore(r: seq<int>, pre: seq<int>, w: seq<int>, stopped: bool, x: seq<int>, q: int, l: int, byte: seq<int>)
    requires pre != [] && Reaches(r, pre[1..], w, stopped, x, q, l) && |byte| <= 1
    ensures Reaches(byte + r, pre, w, stopped, byte + x, q, l)
  {
  }

  lemma {:induction false} ScanReaches(pre: seq<int>, w: seq<int>, quad: int, left: int, pads: int)
    returns (stopped: bool, x: seq<int>, q: int, l: int)
    requires 0 <= quad < 4 && w != [] && 0 <= w[0] < 64 && Scan(pre + w, quad, left, pads).Some?
    ensures Reaches(Scan(pre + w, quad, left, pads).value, pre, w, stopped, x, q, l)
  {
    var d := pre + w;
    if pre == [] {
      assert d == w;
      ScanSymbol(w, quad, left, pads);
      ScanSymbol(w, quad, left, 0);
      return false, [], quad, left;
    }
    assert d[1..] == pre[1..] + w;
    var byte: seq<int> := [];
    if d[0] == Pad || d[0] == Junk {
      var pads' := ScanOther(d, quad, left, pads);
      if Scan(d, quad, left, pads) == Some([]) {
        return true, [], 0, 0;
      }
      stopped, x, q, l := ScanReaches(pre[1..], w, quad, left, pads');
      ReachesMore(Scan(d[1..], quad, left, pads').value, pre, w, stopped, x, q, l, byte);
    } else {
      ScanSymbol(d, quad, left, pads);
      byte := if quad == 0 then [] else [ByteFrom(quad, left, d[0])];
      stopped, x, q, l := ScanReaches(pre[1..], w, NextQuad(quad), BitsFrom(quad, d[0]), 0);
      ReachesMore(Scan(d[1..], NextQuad(quad), BitsFrom(quad, d[0]), 0).value, pre, w, stopped, x, q, l, byte);
    }
    x := byte + x;
    assert [] + Scan(d, quad, left, pads).value == Scan(d, quad, left, pads).value;
  }

  // ----- The two words

  function Dot(rest: seq<int>): seq<int> { [63] + ([29] + ([40] + ([45] + ([63] + rest)))) }

  function Hash(rest: seq<int>): seq<int> { [63] + ([33] + ([26] + ([44] + ([33] + ([63] + rest))))) }

  predicate Natural(d: seq<int>) { forall i :: 0 <= i < |d| ==> d[i] >= 0 }

  lemma DotBreaks(rest: seq<int>, quad: int, left: int) returns (i: nat)
    requires 0 <= quad < 4 && Natural(rest) && Scan(Dot(rest), quad, left, 0).Some?
    ensures i < |Scan(Dot(rest), quad, left, 0).value| && BreaksAt(Scan(Dot(rest), quad, left, 0).value, i)
  {
    var d5 := rest;
    var d4 := [63] + d5;
    var d3 := [45] + d4;
    var d2 := [40] + d3;
    var d1 := [29] + d2;
    ScanStep(63, d1, quad, left);
    if quad == 0 {
      ScanStep(29, d2, 1, 63);
      i := 0;
    } else if quad == 1 {
      ScanStep(29, d2, 2, 15);
      i := 1;
    } else if quad == 2 {
      ScanStep(29, d2, 3, 3);
      ScanStep(40, d3, 0, 0);
      ScanStep(45, d4, 1, 40);
      ScanStep(63, d5, 2, 13);
      NextByte(d5, 3, 3, 0);
      i := 3;
    } else {
      ScanStep(29, d2, 0, 0);
      ScanStep(40, d3, 1, 29);
      ScanStep(45, d4, 2, 8);
      i := 1;
    }
  }

  lemma HashBreaksLast(rest: seq<int>, left: int)
    requires Natural(rest) && Scan(Hash(rest), 3, left, 0).Some?
    ensures |Scan(Hash(rest), 3, left, 0).value| > 4 && BreaksAt(Scan(Hash(rest), 3, left, 0).value, 4)
  {
    var d5 := [63] + rest;
    var d4 := [33] + d5;
    var d3 := [44] + d4;
    var d2 := [26] + d3;
    ScanStep(63, [33] + d2, 3, left);
    ScanStep(33, d2, 0, 0);
    ScanStep(26, d3, 1, 33);
    ScanStep(44, d4, 2, 10);
    ScanStep(33, d5, 3, 0);
    ScanStep(63, rest, 0, 0);
    NextByte(rest, 1, 63, 0);
    assert Scan(Hash(rest), 3, left, 0).value == [left * 64 + 63] + ([133] + ([171] + ([33] + Scan(rest, 1, 63, 0).value)));
  }

  lemma HashBreaks(rest: seq<int>, quad: int, left: int) returns (i: nat)
    requires 0 <= quad < 4 && Natural(rest) && Scan(Hash(rest), quad, left, 0).Some?
    ensures i < |Scan(Hash(rest), quad, left, 0).value| && BreaksAt(Scan(Hash(rest), quad, left, 0).value, i)
  {
    var d4 := [33] + ([63] + rest);
    var d3 := [44] + d4;
    var d2 := [26] + d3;
    if quad == 3 {
      HashBreaksLast(rest, left);
      return 4;
    }
    ScanStep(63, [33] + d2, quad, left);
    if quad == 0 {
      ScanStep(33, d2, 1, 63);
      i := 0;
    } else if quad == 1 {
      ScanStep(33, d2, 2, 15);
      i := 1;
    } else {
      ScanStep(33, d2, 3, 3);
      ScanStep(26, d3, 0, 0);
      ScanStep(44, d4, 1, 26);
      i := 1;
    }
  }

  /** Right after the prefix the leading underscore is gone; the word still breaks the text. */
  lemma HeadBreaks(rest: seq<int>)
    requires Natural(rest)
    ensures var r := Scan([29] + ([40] + ([45] + rest)), 0, 0, 0);
            r.Some? ==> |r.value| >= 2 && BreaksAt(r.value, 0)
    ensures var r := Scan([33] + ([26] + rest), 0, 0, 0);
            r.Some? ==> r.value != [] && Follows(r.value[0])
  {
    ScanStep(29, [40] + ([45] + rest), 0, 0);
    ScanStep(40, [45] + rest, 1, 29);
    ScanStep(45, rest, 2, 8);
    ScanStep(33, [26] + rest, 0, 0);
    ScanStep(26, rest, 1, 33);
  }

  /** Bytes that contain a break after any prefix do not decode. */
  lemma PrefixedBreak(x: seq<int>, t: seq<int>, i: nat)
    requires i < |t| && BreaksAt(t, i)
    ensures Decode(x + t).None?
  {
    var b := x + t;
    assert b[|x| + i] == t[i];
    assert i + 1 < |t| ==> b[|x| + i + 1] == t[i + 1];
    assert BreaksAt(b, |x| + i);
    if Decode(b).Some? {
      DecodedBreaksNowhere(b, |x| + i);
    }
  }
}
