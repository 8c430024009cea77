/** Text with the surrounding white space removed. */
module Whitespace {
  predicate IsSpace(c: char) {
    var n := c as int;
    9 <= n <= 13 || 28 <= n <= 32 || n == 0x85 || n == 0xA0 || n == 0x1680 || 0x2000 <= n <= 0x200A ||
    n == 0x2028 || n == 0x2029 || n == 0x202F || n == 0x205F || n == 0x3000
  }

  predicate Trimmed(s: string) {
    s != [] ==> !IsSpace(s[0]) && !IsSpace(s[|s| - 1])
  }

  function LeftStrip(s: string): (r: string)
    ensures r != [] ==> !IsSpace(r[0])
  {
    if s != [] && IsSpace(s[0]) then LeftStrip(s[1..]) else s
  }

  function RightStrip(s: string): (r: string)
    ensures r != [] ==> !IsSpace(r[|r| - 1])
    ensures r <= s
  {
    if s != [] && IsSpace(s[|s| - 1]) then RightStrip(s[..|s| - 1]) else s
  }

  /** `s.strip()` */
  function Strip(s: string): (r: string)
    ensures Trimmed(r)
    ensures Trimmed(s) ==> r == s
  {
    RightStrip(LeftStrip(s))
  }

  predicate AllSpace(s: string) {
    forall i :: 0 <= i < |s| ==> IsSpace(s[i])
  }

  lemma {:induction false} LeftStripCuts(s: string) returns (i: nat)
    ensures i <= |s| && LeftStrip(s) == s[i..] && AllSpace(s[..i])
  {
    i := 0;
    if s != [] && IsSpace(s[0]) {
      var j := LeftStripCuts(s[1..]);
      i := j + 1;
      assert s[..i] == [s[0]] + s[1..][..j];
    }
  }

  lemma {:induction false} RightStripCuts(s: string)
    ensures AllSpace(s[|RightStrip(s)|..])
  {
    if s != [] && IsSpace(s[|s| - 1]) {
      var before := s[..|s| - 1];
      RightStripCuts(before);
      assert s[|RightStrip(s)|..] == before[|RightStrip(s)|..] + [s[|s| - 1]];
    }
  }

  /** Only outer white space is taken away. */
  lemma StripCuts(s: string) returns (i: nat, j: nat)
    ensures i <= j <= |s| && Strip(s) == s[i..j] && AllSpace(s[..i]) && AllSpace(s[j..])
  {
    i := LeftStripCuts(s);
    RightStripCuts(s[i..]);
    j := i + |Strip(s)|;
    assert s[j..] == s[i..][|Strip(s)|..];
    assert s[i..j] == s[i..][..|Strip(s)|];
  }
}
