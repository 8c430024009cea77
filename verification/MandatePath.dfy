/** Mandate paths as document-id segments: separators are spelled out, and a path whose spelling would be
    too long is base64-encoded instead. */
module MandatePath {
  import opened Wrappers
  import Utf8
  import opened Base64Url
  import opened Base64Spelling

  // ----- The source's own operations

  predicate Starts(s: string, pat: string) { |pat| <= |s| && s[..|pat|] == pat }

  /** `str.replace`: leftmost occurrences, not overlapping. */
  function Replace(s: string, pat: string, rep: string): string
    requires pat != ""
  {
    if s == "" then ""
    else if Starts(s, pat) then rep + Replace(s[|pat|..], pat, rep)
    else [s[0]] + Replace(s[1..], pat, rep)
  }

  function Spelled(path: string): string {
    Replace(Replace(Replace(path, "/", "_"), ".", "_dot_"), "#", "_hash_")
  }

  const MaxLength := 1000

  function EncodePath(path: string): string {
    if path == "" then "unknown"
    else if |Spelled(path)| > MaxLength then "b64_" + Stripped(EncodeText(Utf8.Encode(path)))
    else Spelled(path)
  }

  function Base64Path(encoded: string): string {
    var bytes := DecodeText(Padded(encoded));
    var path := if bytes.None? then None else Utf8.Decode(bytes.value);
    if path.None? then "b64_" + encoded else path.value
  }

  function Unspelled(encoded: string): string {
    Replace(Replace(Replace(encoded, "_dot_", "."), "_hash_", "#"), "_", "/")
  }

  function DecodePath(encoded: string): string {
    if encoded == "" || encoded == "unknown" then ""
    else if Starts(encoded, "b64_") then Base64Path(encoded[4..])
    else Unspelled(encoded)
  }

  // ----- The long branch

  /** A path that is too long to spell out always comes back. */
  lemma LongPathsComeBack(path: string)
    requires |Spelled(path)| > MaxLength
    ensures DecodePath(EncodePath(path)) == path
  {
    var bytes := Utf8.Encode(path);
    var text := Stripped(EncodeText(bytes));
    PaddingRoundTrip(bytes);
    Base64Url.RoundTrip(bytes);
    Utf8.RoundTrip(path);
    assert Base64Path(text) == path;
    var e := "b64_" + text;
    assert e[..4] == "b64_" && e[4..] == text;
    assert e[0] != "unknown"[0];
    assert path != "" by {
      assert Spelled("") == "";
    }
  }

  // ----- Spelling, character by character

  function Code(c: char): string {
    if c == '/' then "_" else if c == '.' then "_dot_" else if c == '#' then "_hash_" else [c]
  }

  function Codes(p: string): string { if p == "" then "" else Code(p[0]) + Codes(p[1..]) }

  lemma {:induction false} ReplaceConcat(a: string, b: string, c: char, rep: string)
    ensures Replace(a + b, [c], rep) == Replace(a, [c], rep) + Replace(b, [c], rep)
  {
    if a == "" {
      assert a + b == b;
    } else {
      var s := a + b;
      assert s[..1] == a[..1] && s[1..] == a[1..] + b;
      assert Starts(s, [c]) <==> Starts(a, [c]);
      ReplaceConcat(a[1..], b, c, rep);
      var h := if Starts(a, [c]) then rep else [a[0]];
      assert h + (Replace(a[1..], [c], rep) + Replace(b, [c], rep)) == (h + Replace(a[1..], [c], rep)) + Replace(b, [c], rep);
    }
  }

  lemma ReplaceOne(x: char, c: char, rep: string)
    ensures Replace([x], [c], rep) == if x == c then rep else [x]
  {
    assert [x][..1] == [x] && [x][1..] == "";
    assert Replace("", [c], rep) == "";
  }

  lemma SpelledOne(x: char)
    ensures Spelled([x]) == Code(x)
  {
    ReplaceOne(x, '/', "_");
    ReplaceOne('_', '.', "_dot_");
    ReplaceOne('_', '#', "_hash_");
    ReplaceOne(x, '.', "_dot_");
    ReplaceOne(x, '#', "_hash_");
    if x == '.' {
      ReplaceAway("_dot_", '#', "_hash_");
    }
  }

  lemma {:induction false} ReplaceAway(s: string, c: char, rep: string)
    requires c !in s
    ensures Replace(s, [c], rep) == s
  {
    if s != "" {
      assert s[..1] == [s[0]];
      ReplaceAway(s[1..], c, rep);
      assert s == [s[0]] + s[1..];
    }
  }

  lemma {:induction false} SpelledIsCodes(p: string)
    ensures Spelled(p) == Codes(p)
  {
    if p != "" {
      var h, t := [p[0]], p[1..];
      assert p == h + t;
      ReplaceConcat(h, t, '/', "_");
      var h1, t1 := Replace(h, "/", "_"), Replace(t, "/", "_");
      ReplaceConcat(h1, t1, '.', "_dot_");
      ReplaceConcat(Replace(h1, ".", "_dot_"), Replace(t1, ".", "_dot_"), '#', "_hash_");
      SpelledOne(p[0]);
      SpelledIsCodes(t);
    }
  }

  // ----- Reading back, stage by stage

  predicate DotAt(s: string) { |s| >= 5 && s[0] == '_' && s[1] == 'd' && s[2] == 'o' && s[3] == 't' && s[4] == '_' }

  predicate HashAt(s: string) {
    |s| >= 6 && s[0] == '_' && s[1] == 'h' && s[2] == 'a' && s[3] == 's' && s[4] == 'h' && s[5] == '_'
  }

  /** Each stage turns the string into one character per turn. */
  function Dots(s: string): string {
    if s == "" then "" else if DotAt(s) then ['.'] + Dots(s[5..]) else [s[0]] + Dots(s[1..])
  }

  function Hashes(s: string): string {
    if s == "" then "" else if HashAt(s) then ['#'] + Hashes(s[6..]) else [s[0]] + Hashes(s[1..])
  }

  function Slashes(s: string): string {
    seq(|s|, i requires 0 <= i < |s| => if s[i] == '_' then '/' else s[i])
  }

  lemma {:induction false} DotsIsReplace(s: string)
    ensures Replace(s, "_dot_", ".") == Dots(s)
  {
    if s != "" {
      assert Starts(s, "_dot_") <==> DotAt(s) by {
        if DotAt(s) {
          assert s[..5] == "_dot_";
        }
        if Starts(s, "_dot_") {
          assert s[0] == s[..5][0] && s[1] == s[..5][1] && s[2] == s[..5][2] && s[3] == s[..5][3] && s[4] == s[..5][4];
        }
      }
      if DotAt(s) {
        DotsIsReplace(s[5..]);
      } else {
        DotsIsReplace(s[1..]);
      }
    }
  }

  lemma {:induction false} HashesIsReplace(s: string)
    ensures Replace(s, "_hash_", "#") == Hashes(s)
  {
    if s != "" {
      assert Starts(s, "_hash_") <==> HashAt(s) by {
        if HashAt(s) {
          assert s[..6] == "_hash_";
        }
        if Starts(s, "_hash_") {
          assert s[0] == s[..6][0] && s[1] == s[..6][1] && s[2] == s[..6][2] && s[3] == s[..6][3] && s[4] == s[..6][4] && s[5] == s[..6][5];
        }
      }
      if HashAt(s) {
        HashesIsReplace(s[6..]);
      } else {
        HashesIsReplace(s[1..]);
      }
    }
  }

  lemma {:induction false} SlashesIsReplace(s: string)
    ensures Replace(s, "_", "/") == Slashes(s)
  {
    if s != "" {
      assert s[..1] == [s[0]];
      SlashesIsReplace(s[1..]);
      assert Slashes(s) == [if s[0] == '_' then '/' else s[0]] + Slashes(s[1..]);
    }
  }

  lemma UnspelledIsStages(s: string)
    ensures Unspelled(s) == Slashes(Hashes(Dots(s)))
  {
    DotsIsReplace(s);
    HashesIsReplace(Dots(s));
    SlashesIsReplace(Hashes(Dots(s)));
  }

  // ----- Which paths come back

  predicate Separator(c: char) { c == '/' || c == '.' || c == '#' }

  /** A token that reads like a spelled-out separator: "dot" after "/" or "#" and before any separator,
      or "hash" after "/" and before "/" or "#". */
  predicate Confusing(p: string) {
    || (|p| >= 5 && (p[0] == '/' || p[0] == '#') && p[1] == 'd' && p[2] == 'o' && p[3] == 't' && Separator(p[4]))
    || (|p| >= 6 && p[0] == '/' && p[1] == 'h' && p[2] == 'a' && p[3] == 's' && p[4] == 'h' && (p[5] == '/' || p[5] == '#'))
  }

  ghost predicate Clean(p: string) { '_' !in p && forall i :: 0 <= i < |p| ==> !Confusing(p[i..]) }

  lemma CleanTail(p: string)
    requires Clean(p) && p != ""
    ensures Clean(p[1..]) && !Confusing(p)
  {
    assert p[0..] == p;
    forall i | 0 <= i < |p[1..]| ensures !Confusing(p[1..][i..]) {
      assert p[1..][i..] == p[i + 1..];
    }
  }

  // The spelling after the first stage of reading back, and after the second.

  function CodesNoDot(p: string): string { if p == "" then "" else (if p[0] == '.' then "." else Code(p[0])) + CodesNoDot(p[1..]) }

  function CodesSlash(p: string): string { if p == "" then "" else (if p[0] == '/' then "_" else [p[0]]) + CodesSlash(p[1..]) }

  lemma CodesPlain(p: string)
    requires p != "" && !Separator(p[0])
    ensures Codes(p) == [p[0]] + Codes(p[1..]) && CodesNoDot(p) == [p[0]] + CodesNoDot(p[1..])
  {
  }

  lemma CodesSeparator(p: string)
    requires p != "" && Separator(p[0])
    ensures Codes(p) != "" && Codes(p)[0] == '_'
    ensures p[0] != '.' ==> CodesNoDot(p) != "" && CodesNoDot(p)[0] == '_'
    ensures p[0] == '.' ==> CodesNoDot(p) != "" && CodesNoDot(p)[0] == '.'
  {
  }

  /** The first character of a spelling tells the first character of the path. */
  lemma HeadOfCodes(p: string, c: char)
    requires '_' !in p && Codes(p) != "" && Codes(p)[0] == c
    ensures p != ""
    ensures c == '_' ==> Separator(p[0])
    ensures c != '_' ==> p[0] == c && !Separator(c) && Codes(p)[1..] == Codes(p[1..])
  {
    assert p != "";
    if Separator(p[0]) {
      CodesSeparator(p);
    } else {
      CodesPlain(p);
      assert ([p[0]] + Codes(p[1..]))[1..] == Codes(p[1..]);
    }
  }

  lemma HeadOfNoDot(p: string, c: char)
    requires '_' !in p && CodesNoDot(p) != "" && CodesNoDot(p)[0] == c
    ensures p != ""
    ensures c == '_' ==> p[0] == '/' || p[0] == '#'
    ensures c != '_' && c != '.' ==> p[0] == c && !Separator(c) && CodesNoDot(p)[1..] == CodesNoDot(p[1..])
  {
    assert p != "";
    if Separator(p[0]) {
      CodesSeparator(p);
    } else {
      CodesPlain(p);
      assert ([p[0]] + CodesNoDot(p[1..]))[1..] == CodesNoDot(p[1..]);
    }
  }

  /** "dot_" at the front of a spelling is the token "dot" and a separator. */
  lemma DotInCodes(p: string)
    requires '_' !in p && |Codes(p)| >= 4 && Codes(p)[0] == 'd' && Codes(p)[1] == 'o' && Codes(p)[2] == 't' && Codes(p)[3] == '_'
    ensures |p| >= 4 && p[0] == 'd' && p[1] == 'o' && p[2] == 't' && Separator(p[3])
  {
    HeadOfCodes(p, 'd');
    HeadOfCodes(p[1..], 'o');
    HeadOfCodes(p[1..][1..], 't');
    HeadOfCodes(p[1..][1..][1..], '_');
  }

  /** "hash_" at the front, once dots are back, is the token "hash" and "/" or "#". */
  lemma HashInNoDot(p: string)
    requires '_' !in p && |CodesNoDot(p)| >= 5 && CodesNoDot(p)[0] == 'h' && CodesNoDot(p)[1] == 'a' && CodesNoDot(p)[2] == 's'
    requires CodesNoDot(p)[3] == 'h' && CodesNoDot(p)[4] == '_'
    ensures |p| >= 5 && p[0] == 'h' && p[1] == 'a' && p[2] == 's' && p[3] == 'h' && (p[4] == '/' || p[4] == '#')
  {
    HeadOfNoDot(p, 'h');
    HeadOfNoDot(p[1..], 'a');
    HeadOfNoDot(p[1..][1..], 's');
    HeadOfNoDot(p[1..][1..][1..], 'h');
    HeadOfNoDot(p[1..][1..][1..][1..], '_');
  }

  lemma DotsSkip(c: char, s: string)
    requires !DotAt([c] + s)
    ensures Dots([c] + s) == [c] + Dots(s)
  {
    assert ([c] + s)[1..] == s;
  }

  lemma HashesSkip(c: char, s: string)
    requires !HashAt([c] + s)
    ensures Hashes([c] + s) == [c] + Hashes(s)
  {
    assert ([c] + s)[1..] == s;
  }

  lemma DotsPastHash(s: string)
    requires !DotAt(['_'] + s)
    ensures Dots("_hash_" + s) == "_hash_" + Dots(s)
  {
    var tail := ['_'] + s;
    DotsSkip('_', s);
    DotsSkip('h', tail);
    DotsSkip('s', ['h'] + tail);
    DotsSkip('a', ['s'] + (['h'] + tail));
    DotsSkip('h', ['a'] + (['s'] + (['h'] + tail)));
    DotsSkip('_', ['h'] + (['a'] + (['s'] + (['h'] + tail))));
    assert "_hash_" + s == ['_'] + (['h'] + (['a'] + (['s'] + (['h'] + tail))));
    assert "_hash_" + Dots(s) == ['_'] + (['h'] + (['a'] + (['s'] + (['h'] + (['_'] + Dots(s))))));
  }

  lemma {:induction false} DotsUndoDots(p: string)
    requires Clean(p)
    ensures Dots(Codes(p)) == CodesNoDot(p)
  {
    if p != "" {
      var c, t := p[0], p[1..];
      var s := Codes(t);
      CleanTail(p);
      DotsUndoDots(t);
      if c == '.' {
        assert ("_dot_" + s)[5..] == s;
      } else {
        if DotAt(['_'] + s) && (c == '/' || c == '#') {
          assert s == (['_'] + s)[1..];
          DotInCodes(t);
        }
        if c == '#' {
          DotsPastHash(s);
        } else {
          DotsSkip(if c == '/' then '_' else c, s);
        }
      }
    }
  }

  lemma {:induction false} HashesUndoHashes(p: string)
    requires Clean(p)
    ensures Hashes(CodesNoDot(p)) == CodesSlash(p)
  {
    if p != "" {
      var c, t := p[0], p[1..];
      var s := CodesNoDot(t);
      CleanTail(p);
      HashesUndoHashes(t);
      if c == '#' {
        assert ("_hash_" + s)[6..] == s;
      } else {
        if c == '/' && HashAt(['_'] + s) {
          assert s == (['_'] + s)[1..];
          HashInNoDot(t);
        }
        HashesSkip(if c == '/' then '_' else c, s);
      }
    }
  }

  lemma {:induction false} SlashesUndoSlashes(p: string)
    requires '_' !in p
    ensures Slashes(CodesSlash(p)) == p
  {
    if p != "" {
      SlashesUndoSlashes(p[1..]);
      assert |CodesSlash(p)| == |CodesSlash(p[1..])| + 1;
      assert Slashes(CodesSlash(p)) == [p[0]] + Slashes(CodesSlash(p[1..]));
    }
  }

  lemma CleanComesBack(p: string)
    requires Clean(p)
    ensures Unspelled(Spelled(p)) == p
  {
    SpelledIsCodes(p);
    UnspelledIsStages(Codes(p));
    DotsUndoDots(p);
    HashesUndoHashes(p);
    SlashesUndoSlashes(p);
  }

  // ----- Nothing else comes back: what is read back is always clean

  predicate Plain(s: string) { '/' !in s && '.' !in s && '#' !in s }

  lemma {:induction false} CodesArePlain(p: string)
    ensures Plain(Codes(p))
  {
    if p != "" {
      CodesArePlain(p[1..]);
    }
  }

  lemma DotsHead(s: string, c: char)
    requires Plain(s) && Dots(s) != "" && Dots(s)[0] == c
    ensures s != "" && Plain(s[1..])
    ensures c == '.' ==> DotAt(s)
    ensures c != '.' ==> s[0] == c && !DotAt(s) && Dots(s)[1..] == Dots(s[1..])
  {
    if DotAt(s) {
      assert Dots(s) == ['.'] + Dots(s[5..]);
    } else {
      assert Dots(s) == [s[0]] + Dots(s[1..]);
    }
  }

  lemma HashesHead(t: string, c: char)
    requires '#' !in t && Hashes(t) != "" && Hashes(t)[0] == c
    ensures t != "" && '#' !in t[1..]
    ensures c == '#' ==> HashAt(t) && Hashes(t)[1..] == Hashes(t[6..]) && '#' !in t[6..]
    ensures c != '#' ==> t[0] == c && !HashAt(t) && Hashes(t)[1..] == Hashes(t[1..])
  {
    if HashAt(t) {
      assert Hashes(t) == ['#'] + Hashes(t[6..]);
    } else {
      assert Hashes(t) == [t[0]] + Hashes(t[1..]);
    }
  }

  predicate DotLike(t: string) { |t| >= 5 && t[0] == '_' && t[1] == 'd' && t[2] == 'o' && t[3] == 't' && (t[4] == '_' || t[4] == '.') }

  lemma NeverDotLike(s: string)
    requires Plain(s)
    ensures !DotLike(Dots(s))
  {
    var t := Dots(s);
    if DotLike(t) {
      var c := t[4];
      DotsHead(s, '_');
      var s1 := s[1..];
      DotsHead(s1, 'd');
      var s2 := s1[1..];
      DotsHead(s2, 'o');
      var s3 := s2[1..];
      DotsHead(s3, 't');
      DotsHead(s3[1..], c);
    }
  }

  /** What follows any character of a stage's output is the stage's output on what follows in its input. */
  lemma {:induction false} DotsSuffix(s: string, k: nat) returns (j: nat)
    requires k <= |Dots(s)|
    ensures j <= |s| && Dots(s)[k..] == Dots(s[j..])
  {
    if k == 0 {
      j := 0;
    } else {
      var n := if DotAt(s) then 5 else 1;
      assert Dots(s)[1..] == Dots(s[n..]);
      j := DotsSuffix(s[n..], k - 1);
      assert Dots(s)[k..] == Dots(s)[1..][k - 1..];
      assert s[n..][j..] == s[n + j..];
      j := j + n;
    }
  }

  lemma {:induction false} HashesSuffix(t: string, k: nat) returns (j: nat)
    requires k <= |Hashes(t)|
    ensures j <= |t| && Hashes(t)[k..] == Hashes(t[j..])
  {
    if k == 0 {
      j := 0;
    } else {
      var n := if HashAt(t) then 6 else 1;
      assert Hashes(t)[1..] == Hashes(t[n..]);
      j := HashesSuffix(t[n..], k - 1);
      assert Hashes(t)[k..] == Hashes(t)[1..][k - 1..];
      assert t[n..][j..] == t[n + j..];
      j := j + n;
    }
  }

  lemma {:induction false} DotsChars(s: string)
    requires Plain(s)
    ensures '/' !in Dots(s) && '#' !in Dots(s)
  {
    if s != "" {
      DotsChars(if DotAt(s) then s[5..] else s[1..]);
    }
  }

  lemma {:induction false} HashesChars(t: string)
    requires '/' !in t
    ensures '/' !in Hashes(t)
  {
    if t != "" {
      HashesChars(if HashAt(t) then t[6..] else t[1..]);
    }
  }

  /** After the second stage, "dot" and a separator spelling come from "dot" and "_" or "." after the first. */
  lemma DotBehindHashes(t: string)
    requires '#' !in t && |Hashes(t)| >= 4 && Hashes(t)[0] == 'd' && Hashes(t)[1] == 'o' && Hashes(t)[2] == 't'
    requires Hashes(t)[3] == '_' || Hashes(t)[3] == '.' || Hashes(t)[3] == '#'
    ensures |t| >= 4 && t[0] == 'd' && t[1] == 'o' && t[2] == 't' && (t[3] == '_' || t[3] == '.')
  {
    var c := Hashes(t)[3];
    HashesHead(t, 'd');
    var t1 := t[1..];
    HashesHead(t1, 'o');
    var t2 := t1[1..];
    HashesHead(t2, 't');
    HashesHead(t2[1..], c);
  }

  lemma HashBehindHashes(t: string)
    requires '#' !in t && |Hashes(t)| >= 5 && Hashes(t)[0] == 'h' && Hashes(t)[1] == 'a' && Hashes(t)[2] == 's' && Hashes(t)[3] == 'h'
    requires Hashes(t)[4] == '_' || Hashes(t)[4] == '#'
    ensures |t| >= 5 && t[0] == 'h' && t[1] == 'a' && t[2] == 's' && t[3] == 'h' && t[4] == '_'
  {
    var c := Hashes(t)[4];
    HashesHead(t, 'h');
    var t1 := t[1..];
    HashesHead(t1, 'a');
    var t2 := t1[1..];
    HashesHead(t2, 's');
    var t3 := t2[1..];
    HashesHead(t3, 'h');
    HashesHead(t3[1..], c);
  }

  /** The spelling of a confusing token, before "_" is turned into "/". */
  predicate ConfusingSpelling(t: string) {
    || (|t| >= 5 && (t[0] == '_' || t[0] == '#') && t[1] == 'd' && t[2] == 'o' && t[3] == 't' && (t[4] == '_' || t[4] == '.' || t[4] == '#'))
    || (|t| >= 6 && t[0] == '_' && t[1] == 'h' && t[2] == 'a' && t[3] == 's' && t[4] == 'h' && (t[5] == '_' || t[5] == '#'))
  }

  lemma NeverConfusing(s: string)
    requires Plain(s)
    ensures !ConfusingSpelling(Hashes(Dots(s)))
  {
    var t := Dots(s);
    var r := Hashes(t);
    DotsChars(s);
    if ConfusingSpelling(r) {
      NeverDotLike(s);
      HashesHead(t, r[0]);
      if r[0] == '#' {
        assert Hashes(t[6..]) == r[1..];
        DotBehindHashes(t[6..]);
        var j := DotsSuffix(s, 5);
        assert DotLike(t[5..]);
        NeverDotLike(s[j..]);
      } else if r[1] == 'd' {
        DotBehindHashes(t[1..]);
      } else {
        HashBehindHashes(t[1..]);
      }
    }
  }

  lemma ConfusingBehindSlashes(r: string)
    requires '/' !in r
    ensures Confusing(Slashes(r)) ==> ConfusingSpelling(r)
  {
    assert forall n :: 0 <= n < |r| ==> r[n] != '/';
  }

  lemma ReadBackIsClean(s: string)
    requires Plain(s)
    ensures Clean(Unspelled(s))
  {
    var t := Dots(s);
    var r := Hashes(t);
    var out := Slashes(r);
    UnspelledIsStages(s);
    DotsChars(s);
    HashesChars(t);
    assert '_' !in out;
    forall i | 0 <= i < |out| ensures !Confusing(out[i..]) {
      var j := HashesSuffix(t, i);
      var l := DotsSuffix(s, j);
      NeverConfusing(s[l..]);
      assert Hashes(Dots(s[l..])) == r[i..];
      assert out[i..] == Slashes(r[i..]);
      ConfusingBehindSlashes(r[i..]);
    }
  }

  // ----- The short branch, exactly

  predicate HasSeparator(p: string) { '/' in p || '.' in p || '#' in p }

  lemma {:induction false} CodesWithout(p: string)
    requires Plain(p)
    ensures Codes(p) == p
  {
    if p != "" {
      CodesWithout(p[1..]);
      assert p == [p[0]] + p[1..];
    }
  }

  lemma {:induction false} CodesWith(p: string)
    requires HasSeparator(p)
    ensures '_' in Codes(p)
  {
    if Separator(p[0]) {
      CodesSeparator(p);
    } else {
      CodesWith(p[1..]);
    }
  }

  lemma {:induction false} CodesLength(p: string)
    ensures |Codes(p)| >= |p|
    ensures '.' !in p && '#' !in p ==> |Codes(p)| == |p|
  {
    if p != "" {
      CodesLength(p[1..]);
    }
  }

  /** A path whose spelling is taken for base64 when read back. */
  predicate LooksBase64(p: string) {
    |p| >= 4 && p[0] == 'b' && p[1] == '6' && p[2] == '4' && (Separator(p[3]) || p[3] == '_')
  }

  lemma StartsBase64(s: string)
    ensures Starts(s, "b64_") <==> |s| >= 4 && s[0] == 'b' && s[1] == '6' && s[2] == '4' && s[3] == '_'
  {
    if Starts(s, "b64_") {
      assert s[0] == s[..4][0] && s[1] == s[..4][1] && s[2] == s[..4][2] && s[3] == s[..4][3];
    }
    if |s| >= 4 && s[0] == 'b' && s[1] == '6' && s[2] == '4' && s[3] == '_' {
      assert s[..4] == "b64_";
    }
  }

  lemma PlainHead(p: string, c: char)
    requires p != "" && c != '_' && !Separator(c)
    ensures Codes(p) != "" && (Codes(p)[0] == c <==> p[0] == c)
    ensures p[0] == c ==> Codes(p)[1..] == Codes(p[1..])
  {
    if Separator(p[0]) {
      CodesSeparator(p);
    } else {
      CodesPlain(p);
    }
  }

  lemma LooksBase64IsStarts(p: string)
    ensures Starts(Codes(p), "b64_") <==> LooksBase64(p)
  {
    StartsBase64(Codes(p));
    var s := Codes(p);
    if p != "" {
      PlainHead(p, 'b');
      if p[0] == 'b' && p[1..] != "" {
        var p1 := p[1..];
        PlainHead(p1, '6');
        if p1[0] == '6' && p1[1..] != "" {
          var p2 := p1[1..];
          PlainHead(p2, '4');
          if p2[0] == '4' {
            var p3 := p2[1..];
            assert s[3..] == Codes(p3);
            if p3 != "" {
              UnderscoreHead(p3);
              assert s[3] == Codes(p3)[0];
            }
          }
        }
      }
    }
  }

  lemma UnderscoreHead(p: string)
    requires p != ""
    ensures Codes(p) != "" && (Codes(p)[0] == '_' <==> Separator(p[0]) || p[0] == '_')
  {
    if Separator(p[0]) {
      CodesSeparator(p);
    } else {
      CodesPlain(p);
    }
  }

  predicate IsBase64(s: string) {
    var bytes := DecodeText(Padded(s));
    bytes.Some? && Utf8.Decode(bytes.value).Some?
  }

  /** Reading base64 shortens: what is read back has fewer characters than the whole segment. */
  lemma Base64Shortens(s: string)
    requires IsBase64(s)
    ensures |Base64Path(s)| < |s| + 4
  {
  }

  lemma NotUnknown(p: string)
    ensures Codes(p) == "unknown" <==> p == "unknown"
  {
    if HasSeparator(p) {
      CodesWith(p);
    } else {
      CodesWithout(p);
    }
  }

  lemma PlainBranch(p: string)
    requires p != "" && |Spelled(p)| <= MaxLength && !LooksBase64(p)
    ensures DecodePath(EncodePath(p)) == p <==> Clean(p) && p != "unknown"
  {
    SpelledIsCodes(p);
    CodesLength(p);
    LooksBase64IsStarts(p);
    NotUnknown(p);
    if p != "unknown" {
      CodesArePlain(p);
      ReadBackIsClean(Codes(p));
      if Clean(p) {
        CleanComesBack(p);
      }
    }
  }

  // ----- Base64 never gives back a path with a spelled-out separator

  lemma {:induction false} CodesConcat(a: string, b: string)
    ensures Codes(a + b) == Codes(a) + Codes(b)
  {
    if a == "" {
      assert a + b == b;
    } else {
      assert (a + b)[1..] == a[1..] + b;
      CodesConcat(a[1..], b);
    }
  }

  predicate SpellsOut(c: char) { c == '.' || c == '#' }

  lemma {:induction false} FirstSpelledOut(p: string) returns (i: nat)
    requires '.' in p || '#' in p
    ensures i < |p| && SpellsOut(p[i]) && forall j :: 0 <= j < i ==> !SpellsOut(p[j])
  {
    if SpellsOut(p[0]) {
      i := 0;
    } else {
      var j := FirstSpelledOut(p[1..]);
      i := j + 1;
    }
  }

  lemma ValuesConcat(a: string, b: string)
    ensures Values(a + b) == Values(a) + Values(b)
  {
  }

  lemma ValuesOfDot(rest: string)
    ensures Values("_dot_" + rest) == Dot(Values(rest)) && Natural(Values(rest))
  {
    ValuesConcat("_dot_", rest);
    assert Values("_dot_") == [63, 29, 40, 45, 63];
  }

  lemma ValuesOfHash(rest: string)
    ensures Values("_hash_" + rest) == Hash(Values(rest)) && Natural(Values(rest))
  {
    ValuesConcat("_hash_", rest);
    assert Values("_hash_") == [63, 33, 26, 44, 33, 63];
  }

  /** Text that goes on with a spelled-out separator decodes to fewer characters than stand before it. */
  lemma DecodesShort(a: string, c: char, rest: string)
    requires SpellsOut(c)
    ensures var r := Scan(Values(a + (Code(c) + rest)), 0, 0, 0);
            r.Some? && Utf8.Decode(r.value).Some? ==> |Utf8.Decode(r.value).value| <= |a|
  {
    var w := Values(Code(c) + rest);
    ValuesConcat(a, Code(c) + rest);
    ValuesOfDot(rest);
    ValuesOfHash(rest);
    var r := Scan(Values(a) + w, 0, 0, 0);
    if r.Some? {
      var stopped, x, q, l := ScanReaches(Values(a), w, 0, 0, 0);
      if !stopped {
        var i: nat;
        if c == '.' {
          i := DotBreaks(Values(rest), q, l);
        } else {
          i := HashBreaks(Values(rest), q, l);
        }
        PrefixedBreak(x, Scan(w, q, l, 0).value, i);
      }
    }
  }

  lemma PaddedAppends(s: string) returns (pad: string)
    ensures Padded(s) == s + pad
  {
    pad := Padded(s)[|s|..];
  }

  /** Bytes whose first position is broken do not decode. */
  lemma FirstBreaks(s: string)
    requires var r := Scan(Values(Padded(s)), 0, 0, 0);
             r.Some? ==> r.value != [] && (BreaksAt(r.value, 0) || Utf8.Follows(r.value[0]))
    ensures !IsBase64(s)
  {
    var r := Scan(Values(Padded(s)), 0, 0, 0);
    if r.Some? && Utf8.Decode(r.value).Some? {
      DecodedBreaksNowhere(r.value, 0);
    }
  }

  lemma DotHeadFails(rest: string)
    ensures !IsBase64("dot" + rest)
  {
    var s := "dot" + rest;
    var pad := PaddedAppends(s);
    assert Padded(s) == "dot" + (rest + pad);
    ValuesConcat("dot", rest + pad);
    var v := Values(rest + pad);
    assert Values("dot") + v == [29] + ([40] + ([45] + v));
    HeadBreaks(v);
    FirstBreaks(s);
  }

  lemma HashHeadFails(rest: string)
    ensures !IsBase64("ha" + rest)
  {
    var s := "ha" + rest;
    var pad := PaddedAppends(s);
    assert Padded(s) == "ha" + (rest + pad);
    ValuesConcat("ha", rest + pad);
    var v := Values(rest + pad);
    assert Values("ha") + v == [33] + ([26] + v);
    HeadBreaks(v);
    FirstBreaks(s);
  }

  lemma HeadFails(c: char, rest: string)
    requires SpellsOut(c)
    ensures !IsBase64(Code(c)[1..] + rest)
  {
    if c == '.' {
      assert Code(c)[1..] + rest == "dot" + ("_" + rest);
      DotHeadFails("_" + rest);
    } else {
      assert Code(c)[1..] + rest == "ha" + ("sh_" + rest);
      HashHeadFails("sh_" + rest);
    }
  }

  lemma CodesSplit(p: string, i: nat)
    requires i < |p|
    ensures Codes(p) == Codes(p[..i]) + (Code(p[i]) + Codes(p[i + 1..]))
  {
    assert p == p[..i] + p[i..];
    CodesConcat(p[..i], p[i..]);
    assert p[i..][1..] == p[i + 1..];
  }

  lemma {:induction false} NothingSpelledOut(a: string)
    requires forall j :: 0 <= j < |a| ==> !SpellsOut(a[j])
    ensures |Codes(a)| == |a|
  {
    if a != "" {
      NothingSpelledOut(a[1..]);
    }
  }

  lemma SplitDecodesShort(s: string, a: string, c: char, rest: string)
    requires SpellsOut(c) && s == a + (Code(c) + rest)
    ensures IsBase64(s) ==> |Base64Path(s)| <= |a|
  {
    var pad := PaddedAppends(s);
    assert Padded(s) == a + (Code(c) + (rest + pad));
    DecodesShort(a, c, rest + pad);
  }

  lemma TailDecodesShort(p: string)
    requires '.' in p || '#' in p
    ensures IsBase64(Codes(p)) ==> |Base64Path(Codes(p))| < |p|
  {
    var i := FirstSpelledOut(p);
    NothingSpelledOut(p[..i]);
    CodesSplit(p, i);
    SplitDecodesShort(Codes(p), Codes(p[..i]), p[i], Codes(p[i + 1..]));
  }

  /** What is read back as base64 is never a path that holds "." or "#". */
  lemma SpelledOutIsLost(p: string)
    requires LooksBase64(p) && ('.' in p || '#' in p)
    ensures |Codes(p)| >= 4 && (IsBase64(Codes(p)[4..]) ==> |Base64Path(Codes(p)[4..])| < |p|)
  {
    var tail := p[4..];
    CodesWithout(p[..3]);
    CodesSplit(p, 3);
    assert Codes(p)[4..] == Code(p[3])[1..] + Codes(tail);
    if SpellsOut(p[3]) {
      HeadFails(p[3], Codes(tail));
    } else {
      assert Code(p[3])[1..] == "";
      assert Codes(p)[4..] == Codes(tail);
      TailDecodesShort(tail);
    }
  }

  lemma Base64Branch(p: string)
    requires |Spelled(p)| <= MaxLength && LooksBase64(p)
    ensures DecodePath(EncodePath(p)) == p <==> !HasSeparator(p) && !IsBase64(p[4..])
  {
    SpelledIsCodes(p);
    CodesLength(p);
    LooksBase64IsStarts(p);
    var e := Codes(p);
    assert DecodePath(EncodePath(p)) == Base64Path(e[4..]) by {
      assert e[0] != "unknown"[0];
    }
    if IsBase64(e[4..]) {
      Base64Shortens(e[4..]);
      if !HasSeparator(p) {
        CodesWithout(p);
      } else if '.' in p || '#' in p {
        SpelledOutIsLost(p);
      }
    } else {
      assert Base64Path(e[4..]) == e;
      if HasSeparator(p) {
        CodesArePlain(p);
      } else {
        CodesWithout(p);
      }
    }
  }

  /** Which short paths come back: those that are not taken for base64, are not "unknown", hold no "_" and
      no confusing token; and, of those taken for base64, the ones without separators that fail to decode. */
  lemma ShortPathsComeBackExactly(p: string)
    requires p != "" && |Spelled(p)| <= MaxLength
    ensures DecodePath(EncodePath(p)) == p <==>
            if LooksBase64(p) then !HasSeparator(p) && !IsBase64(p[4..]) else Clean(p) && p != "unknown"
  {
    if LooksBase64(p) {
      Base64Branch(p);
    } else {
      PlainBranch(p);
    }
  }
}
