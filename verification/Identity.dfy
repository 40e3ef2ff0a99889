/** Canonical finding identity (codna/findings.py). */
module Identity {
  import opened Sorting
  import opened Wrappers

  datatype Location = Location(uri: string, startLine: Option<int>, startColumn: Option<int>, logical: Option<string>) {
    /** The column is too volatile to be part of an identity. */
    function Key(): LocationKey {
      LocationKey(uri, startLine, logical)
    }
  }

  datatype LocationKey = LocationKey(uri: string, line: Option<int>, logical: Option<string>)

  /** A kind is an enumeration member or an already plain string. */
  datatype Kind = Member(value: string) | Plain(text: string)

  function KindValue(kind: Kind): (text: string)
    ensures kind == Member(text) || kind == Plain(text)
  {
    match kind
    case Member(value) => value
    case Plain(text) => text
  }

  type FlowKey = seq<LocationKey>

  datatype Ident = Ident(ruleId: string, kind: string, primary: Option<LocationKey>, flows: seq<FlowKey>)

  datatype Finding = Finding(ruleId: string, kind: Kind, primary: Option<Location>, codeFlows: seq<seq<Location>>)

  /** Python's order on strings: lexicographic by code point. */
  predicate StringLeq(a: string, b: string) {
    a == [] || (b != [] && (a[0] < b[0] || (a[0] == b[0] && StringLeq(a[1..], b[1..]))))
  }

  function KeyFlow(flow: seq<Location>): FlowKey {
    seq(|flow|, i requires 0 <= i < |flow| => flow[i].Key())
  }

  function KeyFlows(flows: seq<seq<Location>>): seq<FlowKey> {
    seq(|flows|, i requires 0 <= i < |flows| => KeyFlow(flows[i]))
  }

  function PrimaryKey(primary: Option<Location>): Option<LocationKey> {
    if primary.Some? then Some(primary.value.Key()) else None
  }

  /** `serialize` stands for the canonical JSON of one flow, `digest` for the digest of the whole. */
  function CanonicalId(f: Finding, serialize: FlowKey -> string, digest: Ident -> string): string {
    var leq := (a: FlowKey, b: FlowKey) => StringLeq(serialize(a), serialize(b));
    digest(Ident(f.ruleId, KindValue(f.kind), PrimaryKey(f.primary), SortBy(KeyFlows(f.codeFlows), leq)))
  }

  lemma {:induction false} StringLeqTotal(a: string, b: string)
    ensures StringLeq(a, b) || StringLeq(b, a)
    ensures StringLeq(a, b) && StringLeq(b, a) ==> a == b
  {
    if a != [] && b != [] {
      StringLeqTotal(a[1..], b[1..]);
      if a[0] == b[0] && a[1..] == b[1..] {
        assert a == [a[0]] + a[1..] && b == [b[0]] + b[1..];
      }
    }
  }

  lemma {:induction false} StringLeqTransitive(a: string, b: string, c: string)
    requires StringLeq(a, b) && StringLeq(b, c)
    ensures StringLeq(a, c)
  {
    if a != [] && b[0] == c[0] && a[0] == b[0] {
      StringLeqTransitive(a[1..], b[1..], c[1..]);
    }
  }

  lemma SerializedOrderIsTotal(serialize: FlowKey -> string, leq: (FlowKey, FlowKey) -> bool)
    requires forall a, b :: serialize(a) == serialize(b) ==> a == b
    requires forall a, b :: leq(a, b) <==> StringLeq(serialize(a), serialize(b))
    ensures TotalPreorder(leq)
    ensures forall a, b :: leq(a, b) && leq(b, a) ==> a == b
  {
    forall a: FlowKey, b: FlowKey
      ensures leq(a, b) || leq(b, a)
      ensures leq(a, b) && leq(b, a) ==> a == b
    {
      StringLeqTotal(serialize(a), serialize(b));
    }
    forall a: FlowKey, b: FlowKey, c: FlowKey | leq(a, b) && leq(b, c)
      ensures leq(a, c)
    {
      StringLeqTransitive(serialize(a), serialize(b), serialize(c));
    }
  }

  /** Two findings share an id exactly when rule, kind and primary key agree and their flows are the
      same multiset of location-key sequences. */
  lemma SameIdIffSameMeaning(f: Finding, g: Finding, serialize: FlowKey -> string, digest: Ident -> string)
    requires forall a, b :: serialize(a) == serialize(b) ==> a == b
    requires forall a, b :: digest(a) == digest(b) ==> a == b
    ensures CanonicalId(f, serialize, digest) == CanonicalId(g, serialize, digest) <==>
            && f.ruleId == g.ruleId
            && KindValue(f.kind) == KindValue(g.kind)
            && PrimaryKey(f.primary) == PrimaryKey(g.primary)
            && multiset(KeyFlows(f.codeFlows)) == multiset(KeyFlows(g.codeFlows))
  {
    var leq := (a: FlowKey, b: FlowKey) => StringLeq(serialize(a), serialize(b));
    SerializedOrderIsTotal(serialize, leq);
    var a, b := KeyFlows(f.codeFlows), KeyFlows(g.codeFlows);
    SortPermutes(a, leq);
    SortPermutes(b, leq);
    SortSorts(a, leq);
    SortSorts(b, leq);
    if multiset(a) == multiset(b) {
      SortedListingIsUnique(SortBy(a, leq), SortBy(b, leq), leq);
    }
  }

  // ----- the same in the fields of the findings -----

  /** The same place: the column does not count. */
  predicate SamePlace(a: Location, b: Location) {
    a.uri == b.uri && a.startLine == b.startLine && a.logical == b.logical
  }

  predicate SamePrimary(a: Option<Location>, b: Option<Location>) {
    match (a, b)
    case (None, None) => true
    case (Some(x), Some(y)) => SamePlace(x, y)
    case _ => false
  }

  predicate SameFlow(a: seq<Location>, b: seq<Location>) {
    |a| == |b| && forall i :: 0 <= i < |a| ==> SamePlace(a[i], b[i])
  }

  /** Flow by flow along the same places. */
  predicate SameFlows(a: seq<seq<Location>>, b: seq<seq<Location>>) {
    |a| == |b| && forall i :: 0 <= i < |a| ==> SameFlow(a[i], b[i])
  }

  lemma SameFlowIffSameKey(a: seq<Location>, b: seq<Location>)
    ensures KeyFlow(a) == KeyFlow(b) <==> SameFlow(a, b)
  {
    if KeyFlow(a) == KeyFlow(b) {
      assert |a| == |KeyFlow(a)| == |b|;
      forall i | 0 <= i < |a| ensures SamePlace(a[i], b[i]) {
        assert a[i].Key() == KeyFlow(a)[i] == KeyFlow(b)[i] == b[i].Key();
      }
    }
  }

  lemma SameFlowsIffSameKeys(a: seq<seq<Location>>, b: seq<seq<Location>>)
    ensures KeyFlows(a) == KeyFlows(b) <==> SameFlows(a, b)
  {
    if KeyFlows(a) == KeyFlows(b) {
      assert |a| == |KeyFlows(a)| == |b|;
      forall i | 0 <= i < |a| ensures SameFlow(a[i], b[i]) {
        assert KeyFlow(a[i]) == KeyFlows(a)[i] == KeyFlows(b)[i] == KeyFlow(b[i]);
        SameFlowIffSameKey(a[i], b[i]);
      }
    } else if SameFlows(a, b) {
      forall i | 0 <= i < |a| ensures KeyFlow(a[i]) == KeyFlow(b[i]) {
        SameFlowIffSameKey(a[i], b[i]);
      }
    }
  }

  /** Two findings share an id exactly when they carry the same rule and kind, point at the same place
      and their flows can be lined up so that each runs through the same places. One line further is
      another finding; one column further is not. */
  lemma SameIdIffSamePlaces(f: Finding, g: Finding, serialize: FlowKey -> string, digest: Ident -> string)
    requires forall a, b :: serialize(a) == serialize(b) ==> a == b
    requires forall a, b :: digest(a) == digest(b) ==> a == b
    ensures CanonicalId(f, serialize, digest) == CanonicalId(g, serialize, digest) <==>
            && f.ruleId == g.ruleId
            && KindValue(f.kind) == KindValue(g.kind)
            && SamePrimary(f.primary, g.primary)
            && exists p: seq<seq<Location>> :: multiset(p) == multiset(f.codeFlows) && SameFlows(p, g.codeFlows)
  {
    SameIdIffSameMeaning(f, g, serialize, digest);
    FlowsLineUpIff(f.codeFlows, g.codeFlows);
  }

  lemma FlowsLineUpIff(a: seq<seq<Location>>, b: seq<seq<Location>>)
    ensures multiset(KeyFlows(a)) == multiset(KeyFlows(b)) <==>
            exists p: seq<seq<Location>> :: multiset(p) == multiset(a) && SameFlows(p, b)
  {
    var key := (flow: seq<Location>) => KeyFlow(flow);
    assert forall p: seq<seq<Location>> :: KeyFlows(p) == MapSeq(p, key);
    if multiset(KeyFlows(a)) == multiset(KeyFlows(b)) {
      var p := LineUp(a, KeyFlows(b), key);
      SameFlowsIffSameKeys(p, b);
    } else if p: seq<seq<Location>> :| multiset(p) == multiset(a) && SameFlows(p, b) {
      SameFlowsIffSameKeys(p, b);
      MapPermutation(p, a, key);
    }
  }

  /** Reordering flows, moving columns or passing the kind as a plain string never changes the id. */
  lemma VolatileFieldsDoNotMatter(f: Finding, g: Finding, serialize: FlowKey -> string, digest: Ident -> string)
    requires forall a, b :: serialize(a) == serialize(b) ==> a == b
    requires forall a, b :: digest(a) == digest(b) ==> a == b
    requires f.ruleId == g.ruleId && KindValue(f.kind) == KindValue(g.kind)
    requires PrimaryKey(f.primary) == PrimaryKey(g.primary)
    requires exists p: seq<seq<Location>> ::
               multiset(p) == multiset(f.codeFlows) && KeyFlows(p) == KeyFlows(g.codeFlows)
    ensures CanonicalId(f, serialize, digest) == CanonicalId(g, serialize, digest)
  {
    var p: seq<seq<Location>> :| multiset(p) == multiset(f.codeFlows) && KeyFlows(p) == KeyFlows(g.codeFlows);
    var key := (flow: seq<Location>) => KeyFlow(flow);
    assert KeyFlows(p) == MapSeq(p, key) && KeyFlows(f.codeFlows) == MapSeq(f.codeFlows, key);
    MapPermutation(p, f.codeFlows, key);
    SameIdIffSameMeaning(f, g, serialize, digest);
  }
}
