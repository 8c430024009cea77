/** The document ids of the queue, `{encoded mandate}_{batch key}`, and when they keep mandates apart. */
module JobNaming {
  import opened JobQueue
  import opened JobIsolation
  import opened MandatePath
  import opened JoinedKeys

  function DocId(mandate: string, key: string): string { Join(EncodePath(mandate), '_', key) }

  /** Any batch keys at all: generated ones such as "batch_1f2e" hold underscores. */
  ghost function AnyKeys(mandates: iset<string>): Scope<string> {
    Scope(mandates, iset k: string | |k| > 0)
  }

  // ----- Two mandates

  /** The encodings differ and neither begins with the other followed by an underscore. */
  predicate Apart(m: string, n: string) {
    EncodePath(m) != EncodePath(n) && !Nested(EncodePath(m), EncodePath(n), '_')
  }

  /** Some batches of the two mandates share a document id. */
  ghost predicate CanShare(m: string, n: string) { CanMeet(EncodePath(m), EncodePath(n), '_') }

  lemma SharesExactly(m: string, n: string)
    ensures CanShare(m, n) <==> !Apart(m, n)
  {
    if EncodePath(m) == EncodePath(n) {
      assert Join(EncodePath(m), '_', "x") == Join(EncodePath(n), '_', "x");
    } else {
      MeetExactly(EncodePath(m), EncodePath(n), '_');
    }
  }

  // ----- A set of mandates

  ghost predicate AllApart(mandates: iset<string>) {
    forall m, n :: m in mandates && n in mandates && m != n ==> Apart(m, n)
  }

  lemma SeparatesExactly(mandates: iset<string>)
    ensures Separates(DocId, AnyKeys(mandates)) <==> AllApart(mandates)
  {
    if AllApart(mandates) {
      forall m: string, k: string, n: string, l: string
        | m in mandates && n in mandates && k in AnyKeys(mandates).keys && l in AnyKeys(mandates).keys && DocId(m, k) == DocId(n, l)
        ensures m == n
      {
        assert CanShare(m, n);
        SharesExactly(m, n);
      }
    }
    if !AllApart(mandates) {
      var m, n :| m in mandates && n in mandates && m != n && !Apart(m, n);
      SharesExactly(m, n);
      SharedIdsDoNotSeparate(mandates, m, n);
    }
  }

  lemma SharedIdsDoNotSeparate(mandates: iset<string>, m: string, n: string)
    requires m in mandates && n in mandates && m != n && CanShare(m, n)
    ensures !Separates(DocId, AnyKeys(mandates))
  {
    var t, w :| t != "" && w != "" && Join(EncodePath(m), '_', t) == Join(EncodePath(n), '_', w);
    assert DocId(m, t) == DocId(n, w);
  }

  ghost predicate AlwaysOneRuns(mandates: iset<string>) {
    forall run :: Legal(DocId, AnyKeys(mandates), run) ==> OneRuns(After(DocId, run))
  }

  /** For a set of mandate paths and any batch keys, one batch runs per mandate in every run exactly when no
      encoding equals another or begins with another followed by an underscore. */
  lemma QueueIsSafeExactly(mandates: iset<string>)
    ensures AlwaysOneRuns(mandates) <==> AllApart(mandates)
  {
    OneRunsExactly(DocId, AnyKeys(mandates));
    SeparatesExactly(mandates);
  }

  /** Encodings with equally many underscores are apart as soon as they differ. */
  lemma EqualCountsAreApart(m: string, n: string)
    requires Count(EncodePath(m), '_') == Count(EncodePath(n), '_') && EncodePath(m) != EncodePath(n)
    ensures Apart(m, n)
  {
    EqualCountsAreNotNested(EncodePath(m), EncodePath(n), '_');
  }

  // ----- Paths without underscores, dots and hashes, and with equally many slashes

  predicate Slashed(m: string, slashes: nat) {
    m != "" && |m| <= MaxLength && '_' !in m && '.' !in m && '#' !in m && Count(m, '/') == slashes
  }

  lemma {:induction false} CodesOfSlashed(m: string)
    requires '_' !in m && '.' !in m && '#' !in m
    ensures Codes(m) == CodesSlash(m) && |Codes(m)| == |m| && Count(Codes(m), '_') == Count(m, '/')
  {
    if m != "" {
      var h, t := [m[0]], m[1..];
      assert m == h + t;
      CodesOfSlashed(t);
      CountConcat(h, t, '/');
      CountConcat(Code(m[0]), Codes(t), '_');
      assert h[..0] == "" && Code(m[0])[..0] == "";
      assert Count(h, '/') == Count(Code(m[0]), '_');
    }
  }

  lemma SlashedAreApart(m: string, n: string, slashes: nat)
    requires Slashed(m, slashes) && Slashed(n, slashes) && m != n
    ensures Apart(m, n)
  {
    SpelledIsCodes(m);
    SpelledIsCodes(n);
    CodesOfSlashed(m);
    CodesOfSlashed(n);
    SlashesUndoSlashes(m);
    SlashesUndoSlashes(n);
    EqualCountsAreApart(m, n);
  }

  /** With such paths one batch runs per mandate, whatever the keys and the calls. */
  lemma SlashedQueue(slashes: nat)
    ensures AlwaysOneRuns(iset m: string | Slashed(m, slashes))
  {
    var ms := iset m: string | Slashed(m, slashes);
    forall m, n | m in ms && n in ms && m != n ensures Apart(m, n) {
      SlashedAreApart(m, n, slashes);
    }
    QueueIsSafeExactly(ms);
  }

  // ----- The paths of the application

  /** clients/{user}/bo_clients/{client}/mandates/{mandate} */
  function MandateOf(user: string, client: string, mandate: string): string {
    Join("clients", '/', Join(user, '/', Join("bo_clients", '/', Join(client, '/', Join("mandates", '/', mandate)))))
  }

  predicate PlainId(s: string) { '_' !in s && Plain(s) }

  predicate IsMandate(m: string, user: string, client: string, mandate: string) {
    PlainId(user) && PlainId(client) && PlainId(mandate) && m == MandateOf(user, client, mandate) && |m| <= MaxLength
  }

  /** The encoding as a chain of joins. */
  function Chain(user: string, client: string, mandate: string): string {
    Join("clients", '_', Join(user, '_', Join("bo", '_', Join("clients", '_', Join(client, '_', Join("mandates", '_', mandate))))))
  }

  lemma CodesOfJoin(x: string, rest: string)
    requires Plain(x)
    ensures Codes(Join(x, '/', rest)) == Join(x, '_', Codes(rest))
    ensures |Join(x, '/', rest)| == |x| + 1 + |rest| && |Join(x, '_', Codes(rest))| == |x| + 1 + |Codes(rest)|
  {
    assert Join(x, '/', rest) == x + ("/" + rest);
    CodesConcat(x, "/" + rest);
    CodesWithout(x);
    assert ("/" + rest)[1..] == rest;
    assert x + ("_" + Codes(rest)) == Join(x, '_', Codes(rest));
  }

  lemma BoClients(s: string)
    ensures Join("bo_clients", '_', s) == Join("bo", '_', Join("clients", '_', s))
  {
  }

  lemma CodesOfMandate(user: string, client: string, mandate: string)
    requires PlainId(user) && PlainId(client) && PlainId(mandate)
    ensures Codes(MandateOf(user, client, mandate)) == Chain(user, client, mandate)
    ensures |Chain(user, client, mandate)| == |MandateOf(user, client, mandate)|
  {
    var r4 := Join("mandates", '/', mandate);
    var r3 := Join(client, '/', r4);
    var r2 := Join("bo_clients", '/', r3);
    CodesWithout(mandate);
    CodesOfJoin("mandates", mandate);
    CodesOfJoin(client, r4);
    CodesOfJoin("bo_clients", r3);
    BoClients(Codes(r3));
    CodesOfJoin(user, r2);
    CodesOfJoin("clients", Join(user, '/', r2));
  }

  lemma EncodedMandate(m: string, user: string, client: string, mandate: string)
    requires IsMandate(m, user, client, mandate)
    ensures EncodePath(m) == Chain(user, client, mandate)
  {
    CodesOfMandate(user, client, mandate);
    SpelledIsCodes(m);
  }

  lemma CountJoin(x: string, s: string)
    requires '_' !in x
    ensures Count(Join(x, '_', s), '_') == 1 + Count(s, '_')
  {
    CountNone(x, '_');
    CountConcat(x + ['_'], s, '_');
    CountConcat(x, ['_'], '_');
    assert ['_'][..0] == "";
    assert Count(['_'], '_') == 1;
  }

  lemma ChainCount(user: string, client: string, mandate: string)
    requires PlainId(user) && PlainId(client) && PlainId(mandate)
    ensures Count(Chain(user, client, mandate), '_') == 6
  {
    var s5 := Join("mandates", '_', mandate);
    var s4 := Join(client, '_', s5);
    var s3 := Join("clients", '_', s4);
    var s2 := Join("bo", '_', s3);
    var s1 := Join(user, '_', s2);
    CountNone(mandate, '_');
    CountJoin("mandates", mandate);
    CountJoin(client, s5);
    CountJoin("clients", s4);
    CountJoin("bo", s3);
    CountJoin(user, s2);
    CountJoin("clients", s1);
  }

  lemma ChainIsInjective(a: string, b: string, c: string, a': string, b': string, c': string)
    requires PlainId(a) && PlainId(b) && PlainId(c) && PlainId(a') && PlainId(b') && PlainId(c')
    requires Chain(a, b, c) == Chain(a', b', c')
    ensures a == a' && b == b' && c == c'
  {
    var s5, t5 := Join("mandates", '_', c), Join("mandates", '_', c');
    var s4, t4 := Join(b, '_', s5), Join(b', '_', t5);
    var s3, t3 := Join("clients", '_', s4), Join("clients", '_', t4);
    var s2, t2 := Join("bo", '_', s3), Join("bo", '_', t3);
    SplitFirst("clients", Join(a, '_', s2), "clients", Join(a', '_', t2), '_');
    SplitFirst(a, s2, a', t2, '_');
    SplitFirst("bo", s3, "bo", t3, '_');
    SplitFirst("clients", s4, "clients", t4, '_');
    SplitFirst(b, s5, b', t5, '_');
    SplitFirst("mandates", c, "mandates", c', '_');
  }

  ghost predicate InApplication(m: string) { exists user, client, mandate :: IsMandate(m, user, client, mandate) }

  lemma MandatesAreApart(m: string, n: string)
    requires InApplication(m) && InApplication(n) && m != n
    ensures Apart(m, n)
  {
    var a, b, c :| IsMandate(m, a, b, c);
    var a', b', c' :| IsMandate(n, a', b', c');
    EncodedMandate(m, a, b, c);
    EncodedMandate(n, a', b', c');
    ChainCount(a, b, c);
    ChainCount(a', b', c');
    if Chain(a, b, c) == Chain(a', b', c') {
      ChainIsInjective(a, b, c, a', b', c');
    }
    EqualCountsAreApart(m, n);
  }

  /** With the application's mandate paths one batch runs per mandate in every run, whatever the batch keys. */
  lemma MandateQueue()
    ensures AlwaysOneRuns(iset m: string | InApplication(m))
  {
    MandatesSeparate();
    OneRunsExactly(DocId, AnyKeys(iset m: string | InApplication(m)));
  }

  lemma MandatesSeparate()
    ensures Separates(DocId, AnyKeys(iset m: string | InApplication(m)))
  {
    var ms := iset m: string | InApplication(m);
    forall m, n | m in ms && n in ms && m != n ensures Apart(m, n) {
      MandatesAreApart(m, n);
    }
    SeparatesExactly(ms);
  }

  /** And no call on one mandate touches a batch of another. */
  lemma MandateCallsAreIsolated(run: seq<Event<string>>, e: Event<string>)
    requires Legal(DocId, AnyKeys(iset m: string | InApplication(m)), run)
    requires InScope(AnyKeys(iset m: string | InApplication(m)), e) && (e.Stop? ==> e.key != "")
    ensures LeavesOthers(After(DocId, run), Apply(DocId, After(DocId, run), e), e.mandate)
  {
    var u := AnyKeys(iset m: string | InApplication(m));
    MandatesSeparate();
    RunKeepsInv(DocId, u, run);
    CallsLeaveOthers(DocId, u, After(DocId, run), e);
  }

  // ----- Paths that collide

  lemma SlashIsUnderscore()
    ensures EncodePath("a/b") == "a_b" && EncodePath("a_b") == "a_b"
  {
    SpelledIsCodes("a/b");
    SpelledIsCodes("a_b");
    assert "a/b"[1..] == "/b" && "/b"[1..] == "b" && "b"[1..] == "" && "a_b"[1..] == "_b" && "_b"[1..] == "b";
    assert Codes("b") == "b";
    assert Codes("/b") == "_" + "b" && Codes("_b") == "_" + "b";
    assert Codes("a/b") == "a" + "_b" && Codes("a_b") == "a" + "_b";
  }

  /** A stop of job id "b_k" for mandate "a" goes to the batch "k" of mandate "a/b". */
  lemma StopReachesAcross(s: State<string>, jobIds: seq<string>, txIds: seq<string>, scan: string)
    requires DocId("a/b", "k") in s.onProcess && s.onProcess[DocId("a/b", "k")].mandate == "a/b"
    ensures HitsForeign(DocId, s, Stop("a", "b_k", jobIds, txIds, scan))
  {
    SameIds();
    assert |"a"| != |"a/b"|;
  }

  lemma SameIds()
    ensures DocId("a", "b_k") == DocId("a/b", "k")
  {
    SlashIsUnderscore();
    SpelledIsCodes("a");
    assert "a"[1..] == "" && Codes("a") == "a" + "";
    assert EncodePath("a") == "a";
    assert Join("a", '_', "b_k") == "a_b_k" && Join("a_b", '_', "k") == "a_b_k";
  }

  /** Over all paths it fails: "a/b" and "a_b" share their document ids. */
  lemma UnsafePathsCollide()
    ensures !Apart("a/b", "a_b")
    ensures !AlwaysOneRuns(iset m: string | |m| > 0)
  {
    SlashIsUnderscore();
    QueueIsSafeExactly(iset m: string | |m| > 0);
  }
}
