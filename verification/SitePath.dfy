/** In-place activation of install directories on the import search path (codna/memory_install.py).

    `provider(entry)` says whether a path entry holds the package whose import is being steered. */
module SitePath {
  import opened Collections
  import opened Wrappers

  datatype Outcome = AlreadyEffective | Moved(at: nat) | Inserted(at: nat)

  // ----- what the code does to one path -----

  /** The position of the first providing entry, or the length of the path. */
  function ActivationIndex(path: seq<string>, provider: string -> bool): (i: nat)
    ensures i <= |path|
    ensures i < |path| ==> provider(path[i])
    ensures forall j :: 0 <= j < i ==> !provider(path[j])
  {
    if path == [] || provider(path[0]) then 0 else 1 + ActivationIndex(path[1..], provider)
  }

  function PresentAt(path: seq<string>, entry: string): (at: Option<nat>)
    ensures at.None? <==> entry !in path
    ensures at.Some? ==> at.value < |path| && path[at.value] == entry
  {
    if path == [] then None
    else if path[0] == entry then Some(0)
    else
      var rest := PresentAt(path[1..], entry);
      if rest.None? then None else Some(rest.value + 1)
  }

  lemma {:induction false} PresentAtIsFirst(path: seq<string>, entry: string, i: nat)
    requires i < |path| && path[i] == entry && entry !in path[..i]
    ensures PresentAt(path, entry) == Some(i)
  {
    if i > 0 {
      assert path[..i][0] == path[0] && path[1..][..i - 1] == path[..i][1..];
      PresentAtIsFirst(path[1..], entry, i - 1);
    }
  }

  function InsertAt(path: seq<string>, i: nat, entry: string): seq<string>
    requires i <= |path|
  {
    path[..i] + [entry] + path[i..]
  }

  /** Without the first occurrence of an entry. */
  function RemoveFirst(s: seq<string>, x: string): seq<string> {
    if s == [] then [] else if s[0] == x then s[1..] else [s[0]] + RemoveFirst(s[1..], x)
  }

  function Activate(path: seq<string>, entry: string, provider: string -> bool): (seq<string>, Outcome) {
    var index := ActivationIndex(path, provider);
    match PresentAt(path, entry)
    case None => (InsertAt(path, index, entry), Inserted(index))
    case Some(at) =>
      if at <= index then (path, AlreadyEffective) else
        var without := RemoveFirst(path, entry);
        var again := ActivationIndex(without, provider);
        (InsertAt(without, again, entry), Moved(again))
  }

  function ActivateAll(path: seq<string>, entries: seq<string>, provider: string -> bool): seq<string> {
    if entries == [] then path else
      var n := |entries| - 1;
      Activate(ActivateAll(path, entries[..n], provider), entries[n], provider).0
  }

  function Outcomes(path: seq<string>, entries: seq<string>, provider: string -> bool): seq<Outcome> {
    if entries == [] then [] else
      var n := |entries| - 1;
      Outcomes(path, entries[..n], provider)
        + [Activate(ActivateAll(path, entries[..n], provider), entries[n], provider).1]
  }

  lemma {:induction false} RemoveFirstAbsent(s: seq<string>, x: string)
    requires x !in s
    ensures RemoveFirst(s, x) == s
  {
    if s != [] {
      RemoveFirstAbsent(s[1..], x);
    }
  }

  lemma {:induction false} RemoveFirstAt(s: seq<string>, x: string, at: nat)
    requires PresentAt(s, x) == Some(at)
    ensures RemoveFirst(s, x) == s[..at] + s[at + 1..]
  {
    if at > 0 {
      RemoveFirstAt(s[1..], x, at - 1);
      CutTail(s, at);
    }
  }

  lemma CutTail(s: seq<string>, at: nat)
    requires 0 < at < |s|
    ensures [s[0]] + (s[1..][..at - 1] + s[1..][at..]) == s[..at] + s[at + 1..]
  {
  }

  /** The process-wide search path, edited in place. */
  class SearchPath {
    var path: seq<string>

    method FindProvider(provider: string -> bool) returns (index: nat)
      ensures index == ActivationIndex(path, provider)
    {
      index := 0;
      while index < |path| && !provider(path[index])
        invariant index <= |path|
        invariant ActivationIndex(path, provider) == index + ActivationIndex(path[index..], provider)
      {
        assert path[index..][1..] == path[index + 1..];
        index := index + 1;
      }
    }

    method Find(entry: string) returns (at: Option<nat>)
      ensures at == PresentAt(path, entry)
    {
      for i := 0 to |path|
        invariant entry !in path[..i]
      {
        if path[i] == entry {
          PresentAtIsFirst(path, entry, i);
          return Some(i);
        }
      }
      at := None;
    }

    method ActivateOne(entry: string, provider: string -> bool) returns (outcome: Outcome)
      modifies this
      ensures (path, outcome) == Activate(old(path), entry, provider)
    {
      var index := FindProvider(provider);
      var presentAt := Find(entry);
      if presentAt.Some? && presentAt.value <= index {
        return AlreadyEffective;
      }
      if presentAt.Some? {
        RemoveFirstAt(path, entry, presentAt.value);
        path := path[..presentAt.value] + path[presentAt.value + 1..];
        index := FindProvider(provider);
      }
      path := path[..index] + [entry] + path[index..];
      outcome := if presentAt.Some? then Moved(index) else Inserted(index);
    }

    /** The activation loop over the resolved directories. */
    method ActivateSitePackages(entries: seq<string>, provider: string -> bool) returns (activated: seq<Outcome>)
      modifies this
      ensures path == ActivateAll(old(path), entries, provider)
      ensures activated == Outcomes(old(path), entries, provider)
    {
      activated := [];
      for i := 0 to |entries|
        invariant path == ActivateAll(old(path), entries[..i], provider)
        invariant activated == Outcomes(old(path), entries[..i], provider)
      {
        assert entries[..i + 1][..i] == entries[..i];
        var outcome := ActivateOne(entries[i], provider);
        activated := activated + [outcome];
      }
      assert entries[..|entries|] == entries;
    }
  }

  // ----- what one report says -----

  predicate SameEntries(a: seq<string>, b: seq<string>) {
    multiset(a) == multiset(b)
  }

  /** A report of "already effective" means that the entry stood at or ahead of every provider and that
      nothing moved; "inserted" and "moved" give the place the entry now has, with no provider ahead of
      it; the first adds it to a path that lacked it, the second loses and adds nothing. */
  lemma ReportsAreTrue(path: seq<string>, entry: string, provider: string -> bool)
    ensures var (after, outcome) := Activate(path, entry, provider);
            match outcome
            case AlreadyEffective => after == path && StandsEffective(path, entry, provider)
            case Inserted(at) => entry !in path && IsPlacedAt(after, entry, at, provider) && Gains(path, after, entry)
            case Moved(at) =>
              IsShadowed(path, entry, provider) && IsPlacedAt(after, entry, at, provider) && SameEntries(after, path)
  {
    FirstPresence(path, entry);
    match PresentAt(path, entry)
    case None =>
      InsertCounts(path, ActivationIndex(path, provider), entry);
      PlacedAtCut(path, ActivationIndex(path, provider), entry, provider);
    case Some(at) =>
      if at > ActivationIndex(path, provider) {
        MoveIsTrue(path, entry, at, provider);
      }
  }

  lemma MoveIsTrue(path: seq<string>, entry: string, at: nat, provider: string -> bool)
    requires PresentAt(path, entry) == Some(at)
    ensures var without := RemoveFirst(path, entry);
            var again := ActivationIndex(without, provider);
            && IsPlacedAt(InsertAt(without, again, entry), entry, again, provider)
            && SameEntries(InsertAt(without, again, entry), path)
  {
    var without := RemoveFirst(path, entry);
    var again := ActivationIndex(without, provider);
    InsertCounts(without, again, entry);
    PlacedAtCut(without, again, entry, provider);
    RemovalCounts(path, entry);
  }

  lemma PlacedAtCut(s: seq<string>, i: nat, entry: string, provider: string -> bool)
    requires i == ActivationIndex(s, provider)
    ensures IsPlacedAt(InsertAt(s, i, entry), entry, i, provider)
  {
    InsertCounts(s, i, entry);
  }

  lemma {:induction false} RemovalCounts(s: seq<string>, x: string)
    requires x in s
    ensures multiset(RemoveFirst(s, x)) + multiset{x} == multiset(s)
  {
    assert s == [s[0]] + s[1..];
    if s[0] != x {
      RemovalCounts(s[1..], x);
    }
  }

  /** The entry is on the path and nothing ahead of it provides. */
  predicate StandsEffective(path: seq<string>, entry: string, provider: string -> bool) {
    exists i: nat :: i < |path| && path[i] == entry && NoneProvides(path[..i], provider)
  }

  /** The entry is on the path, behind a provider that is not it. */
  predicate IsShadowed(path: seq<string>, entry: string, provider: string -> bool) {
    exists i: nat, j: nat :: j < i < |path| && provider(path[j]) && path[i] == entry && entry !in path[..i]
  }

  predicate Gains(before: seq<string>, after: seq<string>, entry: string) {
    multiset(after) == multiset(before) + multiset{entry}
  }

  predicate NoneProvides(s: seq<string>, provider: string -> bool) {
    forall j :: 0 <= j < |s| ==> !provider(s[j])
  }

  predicate IsPlacedAt(s: seq<string>, entry: string, at: nat, provider: string -> bool) {
    at < |s| && s[at] == entry && NoneProvides(s[..at], provider)
  }

  lemma InsertCounts(s: seq<string>, i: nat, entry: string)
    requires i <= |s|
    ensures multiset(InsertAt(s, i, entry)) == multiset(s) + multiset{entry}
    ensures InsertAt(s, i, entry)[..i] == s[..i] && InsertAt(s, i, entry)[i] == entry
  {
    assert s == s[..i] + s[i..];
  }

  lemma {:induction false} FirstPresence(s: seq<string>, entry: string)
    ensures var at := PresentAt(s, entry); at.Some? ==> entry !in s[..at.value]
  {
    var at := PresentAt(s, entry);
    if at.Some? && at.value > 0 {
      FirstPresence(s[1..], entry);
      assert s[..at.value] == [s[0]] + s[1..][..at.value - 1];
    }
  }

  // ----- the closed form -----

  /** `s` without the first occurrence of each member of `xs`. */
  function Strip(s: seq<string>, xs: set<string>): seq<string> {
    if s == [] then []
    else if s[0] in xs then Strip(s[1..], xs - {s[0]})
    else [s[0]] + Strip(s[1..], xs)
  }

  /** The providing candidates, the one asked for last first. */
  function Front(entries: seq<string>, provider: string -> bool): seq<string> {
    if entries == [] then [] else
      var n := |entries| - 1;
      var before := Front(entries[..n], provider);
      if provider(entries[n]) then [entries[n]] + RemoveFirst(before, entries[n]) else before
  }

  /** The entries ahead of the first provider, once the other candidates have joined them. */
  function Joined(ahead: seq<string>, entries: seq<string>, provider: string -> bool): seq<string> {
    if entries == [] then ahead else
      var n := |entries| - 1;
      var before := Joined(ahead, entries[..n], provider);
      if provider(entries[n]) || entries[n] in before then before else before + [entries[n]]
  }

  /** The candidates taken out of the part behind the cut: the providing ones and those that joined. */
  function Pulled(ahead: seq<string>, entries: seq<string>, provider: string -> bool): set<string> {
    if entries == [] then {} else
      var n := |entries| - 1;
      var before := Pulled(ahead, entries[..n], provider);
      if provider(entries[n]) || entries[n] !in Joined(ahead, entries[..n], provider)
      then before + {entries[n]} else before
  }

  /** Where everything ends up: the entries ahead of the first provider and the candidates that joined
      them, then the providing candidates, then the rest without the entries that were pulled forward. */
  function Activated(path: seq<string>, entries: seq<string>, provider: string -> bool): seq<string> {
    var i := ActivationIndex(path, provider);
    Joined(path[..i], entries, provider) +
      (Front(entries, provider) + Strip(path[i..], Pulled(path[..i], entries, provider)))
  }

  /** `path` cut at its first provider. */
  predicate CutsAt(ahead: seq<string>, rest: seq<string>, provider: string -> bool) {
    (forall x :: x in ahead ==> !provider(x)) && (rest == [] || provider(rest[0]))
  }

  lemma {:induction false} CutIndex(ahead: seq<string>, rest: seq<string>, provider: string -> bool)
    requires CutsAt(ahead, rest, provider)
    ensures ActivationIndex(ahead + rest, provider) == |ahead|
  {
    if ahead == [] {
      assert ahead + rest == rest;
    } else {
      assert ahead[0] in ahead;
      assert (ahead + rest)[1..] == ahead[1..] + rest;
      CutIndex(ahead[1..], rest, provider);
    }
  }

  lemma {:induction false} PresentAtBehind(a: seq<string>, b: seq<string>, x: string)
    requires x !in a
    ensures PresentAt(a + b, x) == if x in b then Some(|a| + PresentAt(b, x).value) else None
  {
    if a == [] {
      assert a + b == b;
    } else {
      assert (a + b)[1..] == a[1..] + b;
      PresentAtBehind(a[1..], b, x);
    }
  }

  lemma {:induction false} PresentAhead(ahead: seq<string>, rest: seq<string>, entry: string)
    requires entry in ahead
    ensures PresentAt(ahead + rest, entry).Some? && PresentAt(ahead + rest, entry).value < |ahead|
  {
    if ahead[0] != entry {
      assert (ahead + rest)[1..] == ahead[1..] + rest;
      PresentAhead(ahead[1..], rest, entry);
    }
  }

  /** Taking an entry out from behind the first provider does not move the cut. */
  lemma RemoveBehindCut(ahead: seq<string>, rest: seq<string>, entry: string, provider: string -> bool)
    requires CutsAt(ahead, rest, provider)
    requires rest != [] && rest[0] != entry
    ensures ActivationIndex(ahead + RemoveFirst(rest, entry), provider) == |ahead|
  {
    assert RemoveFirst(rest, entry)[0] == rest[0];
    CutIndex(ahead, RemoveFirst(rest, entry), provider);
  }

  lemma InsertAtCut(ahead: seq<string>, rest: seq<string>, entry: string)
    ensures InsertAt(ahead + rest, |ahead|, entry) == ahead + ([entry] + rest) == (ahead + [entry]) + rest
  {
  }

  /** One activation, seen from the cut. */
  lemma ActivateAtCut(ahead: seq<string>, rest: seq<string>, entry: string, provider: string -> bool)
    requires CutsAt(ahead, rest, provider)
    ensures Activate(ahead + rest, entry, provider).0 ==
            if provider(entry) then ahead + ([entry] + RemoveFirst(rest, entry))
            else if entry in ahead then ahead + rest
            else (ahead + [entry]) + RemoveFirst(rest, entry)
    ensures provider(entry) ==> CutsAt(ahead, [entry] + RemoveFirst(rest, entry), provider)
    ensures !provider(entry) && entry !in ahead ==> CutsAt(ahead + [entry], RemoveFirst(rest, entry), provider)
  {
    CutIndex(ahead, rest, provider);
    if entry in ahead {
      PresentAhead(ahead, rest, entry);
    } else {
      PresentAtBehind(ahead, rest, entry);
      if entry !in rest {
        RemoveFirstAbsent(rest, entry);
      }
      InsertAtCut(ahead, RemoveFirst(rest, entry), entry);
      if entry in rest && rest[0] != entry {
        ActivateFromBehind(ahead, rest, entry, provider);
      } else if entry in rest {
        assert [entry] + rest[1..] == rest;
      }
    }
  }

  lemma ActivateFromBehind(ahead: seq<string>, rest: seq<string>, entry: string, provider: string -> bool)
    requires CutsAt(ahead, rest, provider)
    requires entry !in ahead && entry in rest && rest[0] != entry
    ensures Activate(ahead + rest, entry, provider).0 == InsertAt(ahead + RemoveFirst(rest, entry), |ahead|, entry)
  {
    CutIndex(ahead, rest, provider);
    PresentAtBehind(ahead, rest, entry);
    RemoveFirstBehind(ahead, rest, entry);
    RemoveBehindCut(ahead, rest, entry, provider);
  }

  lemma {:induction false} StripNone(s: seq<string>, xs: set<string>)
    requires forall x :: x in xs ==> x !in s
    ensures Strip(s, xs) == s
  {
    if s != [] {
      StripNone(s[1..], xs);
    }
  }

  lemma {:induction false} StripOneMore(s: seq<string>, xs: set<string>, x: string)
    requires x !in xs
    ensures RemoveFirst(Strip(s, xs), x) == Strip(s, xs + {x})
  {
    if s != [] {
      if s[0] in xs {
        assert xs + {x} - {s[0]} == xs - {s[0]} + {x};
        StripOneMore(s[1..], xs - {s[0]}, x);
      } else if s[0] == x {
        assert xs + {x} - {x} == xs;
      } else {
        StripOneMore(s[1..], xs, x);
      }
    }
  }

  lemma {:induction false} RemoveFirstBehind(a: seq<string>, b: seq<string>, x: string)
    ensures RemoveFirst(a + b, x) == if x in a then RemoveFirst(a, x) + b else a + RemoveFirst(b, x)
  {
    if a == [] {
      assert a + b == b;
    } else {
      assert (a + b)[1..] == a[1..] + b;
      if a[0] != x {
        RemoveFirstBehind(a[1..], b, x);
        Regroup([a[0]], RemoveFirst(a[1..], x), b);
        Regroup([a[0]], a[1..], RemoveFirst(b, x));
        assert [a[0]] + a[1..] == a;
      }
    }
  }

  lemma Regroup(a: seq<string>, b: seq<string>, c: seq<string>)
    ensures a + (b + c) == (a + b) + c
  {
  }

  lemma {:induction false} RemoveFirstMembers(s: seq<string>, x: string)
    requires Distinct(s)
    ensures Distinct(RemoveFirst(s, x))
    ensures forall y :: y in RemoveFirst(s, x) <==> y in s && y != x
  {
    if s != [] {
      DistinctTail(s);
      if s[0] != x {
        RemoveFirstMembers(s[1..], x);
        assert RemoveFirst(s, x)[1..] == RemoveFirst(s[1..], x);
        DistinctTail(RemoveFirst(s, x));
      }
    }
  }

  lemma {:induction false} FrontShape(entries: seq<string>, provider: string -> bool)
    ensures Distinct(Front(entries, provider))
    ensures forall x :: x in Front(entries, provider) <==> x in entries && provider(x)
  {
    if entries != [] {
      var n := |entries| - 1;
      var before := Front(entries[..n], provider);
      FrontShape(entries[..n], provider);
      RemoveFirstMembers(before, entries[n]);
      var front := [entries[n]] + RemoveFirst(before, entries[n]);
      assert front[1..] == RemoveFirst(before, entries[n]);
      DistinctTail(front);
      assert forall x :: x in entries <==> x == entries[n] || x in entries[..n];
    }
  }

  lemma {:induction false} JoinedShape(ahead: seq<string>, entries: seq<string>, provider: string -> bool)
    requires forall x :: x in ahead ==> !provider(x)
    ensures ahead <= Joined(ahead, entries, provider)
    ensures forall x :: x in Joined(ahead, entries, provider) <==> x in ahead || (x in entries && !provider(x))
    ensures forall x :: x in Pulled(ahead, entries, provider) <==> x in entries && x !in ahead
  {
    if entries != [] {
      var n := |entries| - 1;
      JoinedShape(ahead, entries[..n], provider);
      assert forall x :: x in entries <==> x == entries[n] || x in entries[..n];
    }
  }

  /** The closed form is what the activation loop computes, for every path and candidate list. */
  lemma ActivationClosedForm(path: seq<string>, entries: seq<string>, provider: string -> bool)
    ensures ActivateAll(path, entries, provider) == Activated(path, entries, provider)
    ensures ActivationIndex(Activated(path, entries, provider), provider) ==
            |Joined(path[..ActivationIndex(path, provider)], entries, provider)|
  {
    var i := ActivationIndex(path, provider);
    var ahead, rest := path[..i], path[i..];
    assert path == ahead + rest;
    ClosedFormAtCut(ahead, rest, entries, provider);
    CutIndex(Joined(ahead, entries, provider),
             Front(entries, provider) + Strip(rest, Pulled(ahead, entries, provider)), provider);
  }

  /** Pulling a provider to the front of what stands behind the cut. */
  lemma FrontGains(front: seq<string>, rest: seq<string>, pulled: set<string>, x: string)
    requires Distinct(front) && (x in front <==> x in pulled)
    ensures [x] + RemoveFirst(front + Strip(rest, pulled), x)
            == ([x] + RemoveFirst(front, x)) + Strip(rest, pulled + {x})
  {
    RemoveFirstBehind(front, Strip(rest, pulled), x);
    if x in front {
      assert pulled + {x} == pulled;
    } else {
      RemoveFirstAbsent(front, x);
      StripOneMore(rest, pulled, x);
    }
  }

  lemma {:induction false} ClosedFormAtCut(ahead: seq<string>, rest: seq<string>, entries: seq<string>,
                                          provider: string -> bool)
    requires CutsAt(ahead, rest, provider)
    ensures var joined := Joined(ahead, entries, provider);
            var back := Front(entries, provider) + Strip(rest, Pulled(ahead, entries, provider));
            CutsAt(joined, back, provider) && ActivateAll(ahead + rest, entries, provider) == joined + back
  {
    if entries == [] {
      StripNone(rest, {});
      assert [] + rest == rest;
    } else {
      var n := |entries| - 1;
      var x := entries[n];
      var joined, front := Joined(ahead, entries[..n], provider), Front(entries[..n], provider);
      var pulled := Pulled(ahead, entries[..n], provider);
      ClosedFormAtCut(ahead, rest, entries[..n], provider);
      FrontShape(entries[..n], provider);
      JoinedShape(ahead, entries[..n], provider);
      ActivateAtCut(joined, front + Strip(rest, pulled), x, provider);
      if provider(x) {
        FrontGains(front, rest, pulled, x);
      } else if x !in joined {
        RemoveFirstBehind(front, Strip(rest, pulled), x);
        StripOneMore(rest, pulled, x);
      }
    }
  }

  // ----- the theorems -----

  lemma {:induction false} StripPrefix(front: seq<string>, s: seq<string>, xs: set<string>)
    requires Distinct(front) && (forall x :: x in xs <==> x in front)
    ensures Strip(front + s, xs) == s
  {
    if front == [] {
      assert front + s == s;
      StripNone(s, xs);
    } else {
      DistinctTail(front);
      assert (front + s)[1..] == front[1..] + s;
      assert front == [front[0]] + front[1..];
      StripPrefix(front[1..], s, xs - {front[0]});
    }
  }

  lemma {:induction false} JoinedAgain(ahead: seq<string>, entries: seq<string>, provider: string -> bool)
    requires forall x :: x in entries && !provider(x) ==> x in ahead
    ensures Joined(ahead, entries, provider) == ahead
  {
    if entries != [] {
      JoinedAgain(ahead, entries[..|entries| - 1], provider);
    }
  }

  /** Activating twice leaves the path that activating once leaves. */
  lemma ActivationIsIdempotent(path: seq<string>, entries: seq<string>, provider: string -> bool)
    ensures ActivateAll(ActivateAll(path, entries, provider), entries, provider) == ActivateAll(path, entries, provider)
  {
    var i := ActivationIndex(path, provider);
    var ahead := path[..i];
    var joined, front := Joined(ahead, entries, provider), Front(entries, provider);
    var tail := Strip(path[i..], Pulled(ahead, entries, provider));
    var once := ActivateAll(path, entries, provider);
    ActivationClosedForm(path, entries, provider);
    ActivationClosedForm(once, entries, provider);
    JoinedShape(ahead, entries, provider);
    JoinedShape(joined, entries, provider);
    FrontShape(entries, provider);
    assert once[..|joined|] == joined && once[|joined|..] == front + tail;
    JoinedAgain(joined, entries, provider);
    StripPrefix(front, tail, Pulled(joined, entries, provider));
  }

  function Without(s: seq<string>, entries: seq<string>): seq<string> {
    if s == [] then []
    else if s[0] in entries then Without(s[1..], entries)
    else [s[0]] + Without(s[1..], entries)
  }

  lemma {:induction false} WithoutConcat(a: seq<string>, b: seq<string>, entries: seq<string>)
    ensures Without(a + b, entries) == Without(a, entries) + Without(b, entries)
  {
    if a == [] {
      assert a + b == b;
    } else {
      assert (a + b)[1..] == a[1..] + b;
      WithoutConcat(a[1..], b, entries);
    }
  }

  lemma {:induction false} WithoutStrip(s: seq<string>, xs: set<string>, entries: seq<string>)
    requires forall x :: x in xs ==> x in entries
    ensures Without(Strip(s, xs), entries) == Without(s, entries)
  {
    if s != [] {
      if s[0] in xs {
        WithoutStrip(s[1..], xs - {s[0]}, entries);
      } else {
        WithoutStrip(s[1..], xs, entries);
        WithoutConcat([s[0]], Strip(s[1..], xs), entries);
        assert [s[0]][1..] == [];
      }
    }
  }

  lemma {:induction false} WithoutAll(s: seq<string>, entries: seq<string>)
    requires forall x :: x in s ==> x in entries
    ensures Without(s, entries) == []
  {
    if s != [] {
      assert s[0] in s;
      WithoutAll(s[1..], entries);
    }
  }

  lemma {:induction false} WithoutJoined(ahead: seq<string>, entries: seq<string>, all: seq<string>,
                                        provider: string -> bool)
    requires forall x :: x in entries ==> x in all
    ensures Without(Joined(ahead, entries, provider), all) == Without(ahead, all)
  {
    if entries != [] {
      var n := |entries| - 1;
      var before := Joined(ahead, entries[..n], provider);
      WithoutJoined(ahead, entries[..n], all, provider);
      WithoutConcat(before, [entries[n]], all);
      WithoutAll([entries[n]], all);
    }
  }

  lemma OnlyCandidatesMove(ahead: seq<string>, entries: seq<string>, provider: string -> bool)
    requires forall x :: x in ahead ==> !provider(x)
    ensures forall x :: x in Front(entries, provider) || x in Pulled(ahead, entries, provider) ==> x in entries
  {
    FrontShape(entries, provider);
    JoinedShape(ahead, entries, provider);
  }

  /** Entries that are not candidates are never lost, added or reordered. */
  lemma OthersKeepTheirOrder(path: seq<string>, entries: seq<string>, provider: string -> bool)
    ensures Without(ActivateAll(path, entries, provider), entries) == Without(path, entries)
  {
    ActivationClosedForm(path, entries, provider);
    OthersInClosedForm(path, entries, provider);
  }

  lemma OthersInClosedForm(path: seq<string>, entries: seq<string>, provider: string -> bool)
    ensures Without(Activated(path, entries, provider), entries) == Without(path, entries)
  {
    var i := ActivationIndex(path, provider);
    assert path == path[..i] + path[i..];
    OthersAtCut(path[..i], path[i..], entries, provider);
  }

  lemma OthersAtCut(ahead: seq<string>, rest: seq<string>, entries: seq<string>, provider: string -> bool)
    requires forall x :: x in ahead ==> !provider(x)
    ensures Without(Joined(ahead, entries, provider) +
                      (Front(entries, provider) + Strip(rest, Pulled(ahead, entries, provider))), entries)
            == Without(ahead + rest, entries)
  {
    OnlyCandidatesMove(ahead, entries, provider);
    WithoutConcat(ahead, rest, entries);
    WithoutJoined(ahead, entries, entries, provider);
    WithoutPulled(Joined(ahead, entries, provider), Front(entries, provider), rest,
                  Pulled(ahead, entries, provider), entries);
  }

  lemma WithoutPulled(joined: seq<string>, front: seq<string>, rest: seq<string>, pulled: set<string>,
                      entries: seq<string>)
    requires forall x :: x in front || x in pulled ==> x in entries
    ensures Without(joined + (front + Strip(rest, pulled)), entries) == Without(joined, entries) + Without(rest, entries)
  {
    WithoutConcat(joined, front + Strip(rest, pulled), entries);
    WithoutConcat(front, Strip(rest, pulled), entries);
    WithoutAll(front, entries);
    WithoutStrip(rest, pulled, entries);
  }

  /** Which entry wins the import afterwards: the last providing candidate, not the first. Every other
      providing candidate follows it, and every candidate that provides nothing stands ahead of it. */
  lemma LastProvidingCandidateWins(path: seq<string>, entries: seq<string>, provider: string -> bool)
    ensures var r := ActivateAll(path, entries, provider);
            var w := ActivationIndex(r, provider);
            var front := Front(entries, provider);
            && front <= r[w..]
            && (front != [] ==> front[0] == LastProvider(entries, provider))
            && (forall x :: x in entries ==> if provider(x) then x in front else x in r[..w])
  {
    var i := ActivationIndex(path, provider);
    var joined, front := Joined(path[..i], entries, provider), Front(entries, provider);
    var r := ActivateAll(path, entries, provider);
    ActivationClosedForm(path, entries, provider);
    JoinedShape(path[..i], entries, provider);
    FrontShape(entries, provider);
    assert r[..|joined|] == joined;
    assert r[|joined|..] == front + Strip(path[i..], Pulled(path[..i], entries, provider));
    if front != [] {
      FrontHead(entries, provider);
    }
  }

  function LastProvider(entries: seq<string>, provider: string -> bool): string {
    if entries == [] then "" else
      var n := |entries| - 1;
      if provider(entries[n]) then entries[n] else LastProvider(entries[..n], provider)
  }

  lemma {:induction false} FrontHead(entries: seq<string>, provider: string -> bool)
    requires Front(entries, provider) != []
    ensures Front(entries, provider)[0] == LastProvider(entries, provider)
  {
    var n := |entries| - 1;
    if !provider(entries[n]) {
      FrontHead(entries[..n], provider);
    }
  }
}
