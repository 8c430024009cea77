/** The mapping from bucket numbers to candidates and its three-bucket lookup. A candidate is known by
    its position in the list; `filed[i]` is the bucket of candidate `i`, or None when it has no amount. */
module BucketIndex {
  import opened Wrappers

  type Index = map<int, seq<nat>>

  predicate Adjacent(x: int, y: int) { -1 <= x - y <= 1 }

  /** The first `n` candidates filed under `b`, in list order. */
  function Positions(filed: seq<Option<int>>, b: int, n: nat): (r: seq<nat>)
    requires n <= |filed|
    ensures forall i :: i in r <==> 0 <= i < n && filed[i] == Some(b)
  {
    if n == 0 then [] else Positions(filed, b, n - 1) + (if filed[n - 1] == Some(b) then [n - 1] else [])
  }

  ghost predicate Ascending(s: seq<nat>) { forall i, j :: 0 <= i < j < |s| ==> s[i] < s[j] }

  lemma {:induction false} PositionsAscend(filed: seq<Option<int>>, b: int, n: nat)
    requires n <= |filed|
    ensures Ascending(Positions(filed, b, n))
  {
    if n > 0 {
      PositionsAscend(filed, b, n - 1);
      var r := Positions(filed, b, n - 1);
      forall i | 0 <= i < |r| ensures r[i] < n - 1 {
        assert r[i] in r;
      }
    }
  }

  function Filed(index: Index, b: int): seq<nat> { if b in index then index[b] else [] }

  ghost predicate IsIndexUpTo(index: Index, filed: seq<Option<int>>, n: nat)
    requires n <= |filed|
  {
    forall b :: Filed(index, b) == Positions(filed, b, n)
  }

  ghost predicate IsIndexOf(index: Index, filed: seq<Option<int>>) { IsIndexUpTo(index, filed, |filed|) }

  /** `setdefault` on the three buckets around, then append. */
  function FileUnder(index: Index, b: int, n: nat): Index {
    index[b - 1 := Filed(index, b - 1)][b + 1 := Filed(index, b + 1)][b := Filed(index, b) + [n]]
  }

  lemma FiledAfter(index: Index, b: int, n: nat, x: int)
    ensures Filed(FileUnder(index, b, n), x) == Filed(index, x) + if x == b then [n] else []
  {
  }

  lemma FileStep(index: Index, filed: seq<Option<int>>, n: nat)
    requires n < |filed| && IsIndexUpTo(index, filed, n)
    ensures IsIndexUpTo(if filed[n].Some? then FileUnder(index, filed[n].value, n) else index, filed, n + 1)
  {
    var next := if filed[n].Some? then FileUnder(index, filed[n].value, n) else index;
    forall b ensures Filed(next, b) == Positions(filed, b, n + 1) {
      assert Filed(index, b) == Positions(filed, b, n);
      assert Positions(filed, b, n + 1) == Positions(filed, b, n) + (if filed[n] == Some(b) then [n] else []);
      if filed[n].Some? {
        FiledAfter(index, filed[n].value, n, b);
      }
    }
  }

  method BuildIndex(filed: seq<Option<int>>) returns (index: Index)
    ensures IsIndexOf(index, filed)
  {
    index := map[];
    for n := 0 to |filed|
      invariant IsIndexUpTo(index, filed, n)
    {
      FileStep(index, filed, n);
      if filed[n].Some? {
        index := FileUnder(index, filed[n].value, n);
      }
    }
  }

  /** What a lookup returns: the three buckets around `b`, one after the other. */
  function Probe(filed: seq<Option<int>>, b: int): seq<nat> {
    Positions(filed, b - 1, |filed|) + Positions(filed, b, |filed|) + Positions(filed, b + 1, |filed|)
  }

  predicate Within(s: seq<nat>, n: nat) { forall i :: 0 <= i < |s| ==> s[i] < n }

  ghost predicate NoRepeats(s: seq<nat>) { forall i, j :: 0 <= i < j < |s| ==> s[i] != s[j] }

  lemma NoRepeatsConcat(a: seq<nat>, b: seq<nat>)
    requires NoRepeats(a) && NoRepeats(b) && forall x :: x in a ==> x !in b
    ensures NoRepeats(a + b)
  {
    var s := a + b;
    forall i, j | 0 <= i < j < |s| ensures s[i] != s[j] {
      if i < |a| <= j {
        assert s[i] in a && s[j] in b;
      }
    }
  }

  /** The lookup returns each candidate of the three buckets once, and nothing else. */
  lemma ProbeIsExact(filed: seq<Option<int>>, b: int)
    ensures forall i :: i in Probe(filed, b) <==> 0 <= i < |filed| && filed[i].Some? && Adjacent(filed[i].value, b)
    ensures NoRepeats(Probe(filed, b))
  {
    var x, y, z := Positions(filed, b - 1, |filed|), Positions(filed, b, |filed|), Positions(filed, b + 1, |filed|);
    PositionsAscend(filed, b - 1, |filed|);
    PositionsAscend(filed, b, |filed|);
    PositionsAscend(filed, b + 1, |filed|);
    NoRepeatsConcat(x, y);
    NoRepeatsConcat(x + y, z);
  }

  /** Appending the unseen ones of a list that repeats nothing appends all of it. */
  method AppendUnseen(found: seq<nat>, seen: set<nat>, more: seq<nat>) returns (found': seq<nat>, seen': set<nat>)
    requires NoRepeats(found + more) && forall i :: i in seen <==> i in found
    ensures found' == found + more
    ensures forall i :: i in seen' <==> i in found'
  {
    found', seen' := found, seen;
    for n := 0 to |more|
      invariant found' == found + more[..n]
      invariant forall i :: i in seen' <==> i in found'
    {
      assert (found + more)[|found| + n] == more[n];
      assert forall i :: 0 <= i < |found'| ==> found'[i] == (found + more)[i];
      if more[n] !in seen' {
        seen' := seen' + {more[n]};
        found' := found' + [more[n]];
      }
    }
  }

  /** The lookup loop: three buckets, skipping what was already returned. */
  method Lookup(ghost filed: seq<Option<int>>, index: Index, bucket: int) returns (found: seq<nat>)
    requires IsIndexOf(index, filed)
    ensures found == Probe(filed, bucket)
  {
    var seen: set<nat>;
    ProbeIsExact(filed, bucket);
    ghost var x, y, z := Positions(filed, bucket - 1, |filed|), Positions(filed, bucket, |filed|), Positions(filed, bucket + 1, |filed|);
    Prefixes(x, y, z);
    var a, b, c := Filed(index, bucket - 1), Filed(index, bucket), Filed(index, bucket + 1);
    assert a == x && b == y && c == z;
    found, seen := AppendUnseen([], {}, a);
    assert found == [] + x;
    found, seen := AppendUnseen(found, seen, b);
    assert found == [] + x + y;
    found, seen := AppendUnseen(found, seen, c);
    assert [] + x + y + z == x + y + z;
  }

  lemma Prefixes(x: seq<nat>, y: seq<nat>, z: seq<nat>)
    requires NoRepeats(x + y + z)
    ensures NoRepeats([] + x) && NoRepeats([] + x + y) && NoRepeats([] + x + y + z)
  {
    assert [] + x == x;
    assert forall i :: 0 <= i < |x + y| ==> (x + y)[i] == (x + y + z)[i];
    assert forall i :: 0 <= i < |x| ==> x[i] == (x + y + z)[i];
  }
}
