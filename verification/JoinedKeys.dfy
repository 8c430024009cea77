/** Keys made of an owner and a part joined by a separator character, and when two owners can meet in one key. */
module JoinedKeys {

  function Join(owner: string, sep: char, part: string): string { owner + [sep] + part }

  /** Some parts of the two owners make the same key. */
  ghost predicate CanMeet(u: string, v: string, sep: char) {
    exists t, w :: t != "" && w != "" && Join(u, sep, t) == Join(v, sep, w)
  }

  /** One owner begins with the other followed by the separator. */
  predicate Nested(u: string, v: string, sep: char) { u + [sep] <= v || v + [sep] <= u }

  /** Within one owner the part decides the key. */
  lemma SameOwner(u: string, sep: char, t: string, w: string)
    ensures Join(u, sep, t) == Join(u, sep, w) <==> t == w
  {
    assert Join(u, sep, t)[|u| + 1..] == t && Join(u, sep, w)[|u| + 1..] == w;
  }

  lemma LongerStartsWithShorter(u: string, t: string, v: string, w: string, sep: char)
    requires Join(u, sep, t) == Join(v, sep, w) && |u| < |v|
    ensures u + [sep] <= v
  {
    var s := Join(u, sep, t);
    assert s[..|u| + 1] == u + [sep] && s[..|v|] == v;
    assert v[..|u| + 1] == s[..|u| + 1];
  }

  lemma SameLength(u: string, t: string, v: string, w: string, sep: char)
    requires Join(u, sep, t) == Join(v, sep, w) && |u| == |v|
    ensures u == v
  {
    assert Join(u, sep, t)[..|u|] == u && Join(v, sep, w)[..|u|] == v;
  }

  lemma NestedMeet(u: string, v: string, sep: char)
    requires u + [sep] <= v
    ensures CanMeet(u, v, sep) && CanMeet(v, u, sep)
  {
    var rest := v[|u| + 1..];
    var t, w := rest + [sep] + "x", "x";
    assert v == u + [sep] + rest;
    assert Join(u, sep, t) == Join(v, sep, w);
  }

  /** Two different owners can meet exactly when they are nested. */
  lemma MeetExactly(u: string, v: string, sep: char)
    requires u != v
    ensures CanMeet(u, v, sep) <==> Nested(u, v, sep)
  {
    if CanMeet(u, v, sep) {
      var t, w :| t != "" && w != "" && Join(u, sep, t) == Join(v, sep, w);
      if |u| < |v| {
        LongerStartsWithShorter(u, t, v, w, sep);
      } else if |v| < |u| {
        LongerStartsWithShorter(v, w, u, t, sep);
      } else {
        SameLength(u, t, v, w, sep);
      }
    }
    if u + [sep] <= v { NestedMeet(u, v, sep); }
    if v + [sep] <= u { NestedMeet(v, u, sep); }
  }

  // ----- Counting separators

  function Count(s: string, sep: char): nat {
    if s == "" then 0 else Count(s[..|s| - 1], sep) + if s[|s| - 1] == sep then 1 else 0
  }

  lemma {:induction false} CountConcat(a: string, b: string, sep: char)
    ensures Count(a + b, sep) == Count(a, sep) + Count(b, sep)
  {
    if b == "" {
      assert a + b == a;
    } else {
      assert (a + b)[..|a + b| - 1] == a + b[..|b| - 1];
      CountConcat(a, b[..|b| - 1], sep);
    }
  }

  lemma {:induction false} CountNone(s: string, sep: char)
    requires sep !in s
    ensures Count(s, sep) == 0
  {
    if s != "" { CountNone(s[..|s| - 1], sep); }
  }

  /** A nested owner holds more separators, so owners with equally many are never nested. */
  lemma EqualCountsAreNotNested(u: string, v: string, sep: char)
    requires Count(u, sep) == Count(v, sep)
    ensures !Nested(u, v, sep)
  {
    if u + [sep] <= v { PrefixCount(u, v, sep); }
    if v + [sep] <= u { PrefixCount(v, u, sep); }
  }

  lemma PrefixCount(u: string, v: string, sep: char)
    requires u + [sep] <= v
    ensures Count(u, sep) < Count(v, sep)
  {
    var rest := v[|u| + 1..];
    assert v == (u + [sep]) + rest;
    CountConcat(u + [sep], rest, sep);
    CountConcat(u, [sep], sep);
    assert [sep][..0] == "";
    assert Count([sep], sep) == 1;
  }

  /** The text before the first separator and the text after it. */
  lemma SplitFirst(x: string, s: string, y: string, t: string, sep: char)
    requires sep !in x && sep !in y && Join(x, sep, s) == Join(y, sep, t)
    ensures x == y && s == t
  {
    var j := Join(x, sep, s);
    assert j[|x|] == sep && j[|y|] == sep;
    assert forall i :: 0 <= i < |x| ==> j[i] == x[i];
    assert forall i :: 0 <= i < |y| ==> j[i] == y[i];
    assert |x| == |y|;
    SameLength(x, s, y, t, sep);
    SameOwner(x, sep, s, t);
  }
}
