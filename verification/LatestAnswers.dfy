/**
 Which answer counts (scripts/inferenceKeys.ts, the end of `buildKeys`): for each participant unit and
 provider, the latest by the form's timestamp, then by row.
 */
module LatestAnswers {
  import opened Basics

  datatype Answer = Answer(row: nat, unit: string, provider: string, key: string, at: Option<int>)

  datatype Slot = Slot(unit: string, provider: string)

  function SlotOf(a: Answer): Slot { Slot(a.unit, a.provider) }

  /// Answers compete when they are one unit's for one provider.
  lemma SlotIsUnitAndProvider(a: Answer, b: Answer)
    ensures SlotOf(a) == SlotOf(b) <==> a.unit == b.unit && a.provider == b.provider
  {}

  function Time(a: Answer): int { if a.at.Some? then a.at.value else 0 }

  /// The comparator's order: by timestamp, then by row.
  predicate NotAfter(a: Answer, b: Answer) { Time(a) < Time(b) || (Time(a) == Time(b) && a.row <= b.row) }

  // ---------------------------------------------------------------- a stable sort

  function Inserted(sorted: seq<Answer>, a: Answer): seq<Answer> {
    if sorted == [] then [a]
    else if NotAfter(a, sorted[0]) then [a] + sorted
    else [sorted[0]] + Inserted(sorted[1..], a)
  }

  /// The library's stable sort, as insertion from the right.
  function Sorted(answers: seq<Answer>): seq<Answer> {
    if answers == [] then [] else Inserted(Sorted(answers[1..]), answers[0])
  }

  ghost predicate InOrder(s: seq<Answer>) { forall i, j :: 0 <= i < j < |s| ==> NotAfter(s[i], s[j]) }

  lemma {:induction false} InsertedKeeps(sorted: seq<Answer>, a: Answer)
    requires InOrder(sorted)
    ensures InOrder(Inserted(sorted, a)) && multiset(Inserted(sorted, a)) == multiset(sorted) + multiset{a}
  {
    if sorted == [] {
    } else if NotAfter(a, sorted[0]) {
    } else {
      var rest := sorted[1..];
      InsertedKeeps(rest, a);
      assert sorted == [sorted[0]] + rest;
      var tail := Inserted(rest, a);
      forall k | 0 <= k < |tail| ensures NotAfter(sorted[0], tail[k]) {
        assert tail[k] in multiset(tail);
        if tail[k] != a { assert tail[k] in rest; }
      }
    }
  }

  lemma {:induction false} SortedSorts(answers: seq<Answer>)
    ensures InOrder(Sorted(answers)) && multiset(Sorted(answers)) == multiset(answers)
  {
    if answers != [] {
      SortedSorts(answers[1..]);
      InsertedKeeps(Sorted(answers[1..]), answers[0]);
      assert answers == [answers[0]] + answers[1..];
    }
  }

  // ---------------------------------------------------------------- the fold

  ghost function Seen(answers: seq<Answer>): set<Answer> { set a <- answers }

  /// `latest` holds exactly the slots answered, each with an answer of its own that none of the others
  /// comes after.
  ghost predicate HoldsLatest(latest: map<Slot, Answer>, answers: set<Answer>) {
    (forall s <- latest :: latest[s] in answers && SlotOf(latest[s]) == s) &&
    (forall a <- answers :: SlotOf(a) in latest && NotAfter(a, latest[SlotOf(a)]))
  }

  /// An answer that was replaced, by row, and the row that replaced it.
  datatype Replaced = Replaced(slot: Slot, row: nat, byRow: nat)

  /// It names two answers of one slot, the later of which replaced the other.
  ghost predicate Replaces(r: Replaced, answers: set<Answer>) {
    exists a <- answers, b <- answers ::
      SlotOf(a) == r.slot == SlotOf(b) && a.row == r.row && b.row == r.byRow && NotAfter(a, b)
  }

  method KeepLatest(answers: seq<Answer>) returns (latest: map<Slot, Answer>, replaced: seq<Replaced>)
    ensures HoldsLatest(latest, Seen(answers))
    ensures |latest| + |replaced| == |answers|
    ensures forall r <- replaced :: Replaces(r, Seen(answers))
  {
    hide HoldsLatest, NotAfter;
    var order := Sorted(answers);
    SortedIsSame(answers);
    latest, replaced := map[], [];
    NothingLatest();
    assert Seen(order[..0]) == {};
    for i := 0 to |order|
      invariant HoldsLatest(latest, Seen(order[..i])) && |latest| + |replaced| == i
      invariant forall r <- replaced :: Replaces(r, Seen(answers))
    {
      var a := order[i];
      SortedSorts(answers);
      OneMore(order, i);
      LatestGrows(latest, Seen(order[..i]), a);
      if SlotOf(a) in latest {
        OneReplaced(latest, Seen(order[..i]), Seen(answers), a);
        replaced := replaced + [Replaced(SlotOf(a), latest[SlotOf(a)].row, a.row)];
      }
      latest := latest[SlotOf(a) := a];
    }
    assert order[..|order|] == order;
  }

  lemma OneReplaced(latest: map<Slot, Answer>, seen: set<Answer>, answers: set<Answer>, a: Answer)
    requires HoldsLatest(latest, seen) && (forall b <- seen :: NotAfter(b, a)) && seen <= answers && a in answers
    requires SlotOf(a) in latest
    ensures Replaces(Replaced(SlotOf(a), latest[SlotOf(a)].row, a.row), answers)
  {
    assert latest[SlotOf(a)] in answers;
  }

  /// Later is by timestamp, no timestamp counting as zero, and by row where those agree; of two rows one is later.
  lemma LaterIsByTimeThenRow(a: Answer, b: Answer, s: int, t: int)
    requires a.at == Some(s) || (a.at.None? && s == 0)
    requires b.at == Some(t) || (b.at.None? && t == 0)
    ensures s < t ==> NotAfter(a, b) && !NotAfter(b, a)
    ensures s == t && a.row < b.row ==> NotAfter(a, b) && !NotAfter(b, a)
  {}

  lemma NothingLatest()
    ensures HoldsLatest(map[], {})
  {}

  lemma SortedIsSame(answers: seq<Answer>)
    ensures |Sorted(answers)| == |answers| && Seen(Sorted(answers)) == Seen(answers)
  {
    SortedSorts(answers);
    assert |multiset(Sorted(answers))| == |multiset(answers)|;
    forall a ensures a in Sorted(answers) <==> a in answers {
      assert a in multiset(Sorted(answers)) <==> a in multiset(answers);
    }
  }

  lemma OneMore(order: seq<Answer>, i: nat)
    requires i < |order| && InOrder(order)
    ensures Seen(order[..i + 1]) == Seen(order[..i]) + {order[i]}
    ensures forall b <- Seen(order[..i]) :: NotAfter(b, order[i])
  {
    assert order[..i + 1] == order[..i] + [order[i]];
  }

  lemma LatestGrows(latest: map<Slot, Answer>, seen: set<Answer>, a: Answer)
    requires HoldsLatest(latest, seen) && forall b <- seen :: NotAfter(b, a)
    ensures HoldsLatest(latest[SlotOf(a) := a], seen + {a})
    ensures |latest[SlotOf(a) := a]| == if SlotOf(a) in latest then |latest| else |latest| + 1
  {
    KeysGrow(latest, SlotOf(a), a);
    NotAfterItself(a);
    hide NotAfter, SlotOf;
  }

  lemma NotAfterItself(a: Answer)
    ensures NotAfter(a, a)
  {}

  lemma KeysGrow<K, V>(m: map<K, V>, k: K, v: V)
    ensures |m[k := v]| == if k in m then |m| else |m| + 1
  {
    assert |m[k := v]| == |m[k := v].Keys| && |m| == |m.Keys|;
    assert m[k := v].Keys == m.Keys + {k};
  }
}
