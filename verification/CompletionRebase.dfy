/**
  Accepting a completion late: edits computed on the document of the request are moved onto the
  document as typed since, and applied together with the completion.
  */
module CompletionRebase {
  import opened Sequences
  import opened TextPosition

  datatype Change = Change(from: int, to: int, insert: Text)

  /** A document object: two of them are the same only if their versions are. */
  datatype Document = Document(version: nat, content: Text)

  // ----- Ordering and validity of an edit set -----

  /** `left.from - right.from || left.to - right.to` is negative. */
  predicate Less(left: Change, right: Change) {
    left.from < right.from || (left.from == right.from && left.to < right.to)
  }

  function Insert(change: Change, sorted: seq<Change>): seq<Change> {
    if sorted == [] || !Less(sorted[0], change) then [change] + sorted
    else [sorted[0]] + Insert(change, sorted[1..])
  }

  /** The stable sort: equal changes keep their order. */
  function Sort(changes: seq<Change>): seq<Change> {
    if changes == [] then [] else Insert(changes[0], Sort(changes[1..]))
  }

  predicate IsRange(length: nat, from: int, to: int) {
    0 <= from <= to <= length
  }

  predicate Ascending(length: nat, ordered: seq<Change>, floor: int) {
    ordered == []
    || (IsRange(length, ordered[0].from, ordered[0].to) && floor <= ordered[0].from
        && Ascending(length, ordered[1..], ordered[0].to))
  }

  predicate AreValidNonOverlapping(length: nat, changes: seq<Change>) {
    Ascending(length, Sort(changes), 0)
  }

  /** The transaction: nothing when the document moved on or the edits overlap, else the ordered edits. */
  function CreateTransaction(
      state: Document, expected: Document, from: int, to: int, insertText: Text, additional: seq<Change>)
    : Option<seq<Change>>
  {
    if state != expected || !IsRange(|state.content|, from, to) then None
    else
      var changes := [Change(from, to, insertText)] + additional;
      var ordered := Sort(changes);
      if AreValidNonOverlapping(|state.content|, ordered) then Some(ordered) else None
  }

  /** The text after simultaneous edits, from offset `at` on. */
  function Apply(doc: Text, ordered: seq<Change>, at: nat): Text
    requires at <= |doc| && Ascending(|doc|, ordered, at)
  {
    if ordered == [] then doc[at..]
    else doc[at..ordered[0].from] + ordered[0].insert + Apply(doc, ordered[1..], ordered[0].to)
  }

  // ----- Rebasing -----

  function Moved(change: Change, replacementFrom: int, delta: int): Change {
    if change.to <= replacementFrom then change
    else change.(from := change.from + delta, to := change.to + delta)
  }

  function MovedAll(changes: seq<Change>, replacementFrom: int, delta: int): seq<Change> {
    if changes == [] then [] else [Moved(changes[0], replacementFrom, delta)] + MovedAll(changes[1..], replacementFrom, delta)
  }

  /** The change stays clear of the replaced text. */
  predicate Clear(change: Change, replacementFrom: int, originalTo: int) {
    change.to <= replacementFrom || change.from >= originalTo
  }

  predicate AllClear(changes: seq<Change>, replacementFrom: int, originalTo: int) {
    forall change <- changes :: Clear(change, replacementFrom, originalTo)
  }

  /** What was typed happened only between `from` and `to`. */
  predicate SameAround(original: Text, replacementFrom: int, originalTo: int, accepted: Text, from: int, to: int) {
    && from == replacementFrom && 0 <= from <= to <= |accepted| && 0 <= originalTo <= |original|
    && from <= |original|
    && accepted[..from] == original[..replacementFrom] && accepted[to..] == original[originalTo..]
  }

  method RebaseCompletionChanges(
      original: Text, replacementFrom: nat, originalTo: nat, accepted: Text, from: int, to: int, changes: seq<Change>)
    returns (rebased: Option<seq<Change>>)
    requires replacementFrom <= |original| && originalTo <= |original|
    ensures rebased
         == if SameAround(original, replacementFrom, originalTo, accepted, from, to)
               && AllClear(changes, replacementFrom, originalTo)
            then Some(MovedAll(changes, replacementFrom, (to - from) - (originalTo - replacementFrom)))
            else None
  {
    if from != replacementFrom || to < from || to > |accepted| {
      return None;
    }
    if accepted[..from] != original[..replacementFrom] {
      return None;
    }
    if accepted[to..] != original[originalTo..] {
      return None;
    }
    assert SameAround(original, replacementFrom, originalTo, accepted, from, to);
    hide MovedAll, AllClear, SameAround;
    var offsetDelta := (to - from) - (originalTo - replacementFrom);
    NothingMoved(changes, replacementFrom, offsetDelta, originalTo);
    var moved: seq<Change> := [];
    for i := 0 to |changes|
      invariant AllClear(changes[..i], replacementFrom, originalTo)
      invariant moved + MovedAll(changes[i..], replacementFrom, offsetDelta) == MovedAll(changes, replacementFrom, offsetDelta)
    {
      var change := changes[i];
      MovedNext(changes, i, moved, replacementFrom, offsetDelta);
      ClearNext(changes, i, replacementFrom, originalTo);
      if change.to <= replacementFrom {
        moved := moved + [change];
      } else if change.from >= originalTo {
        moved := moved + [change.(from := change.from + offsetDelta, to := change.to + offsetDelta)];
      } else {
        return None;
      }
    }
    assert changes[..|changes|] == changes && changes[|changes|..] == [] && moved + [] == moved;
    return Some(moved);
  }

  /** Edits up to the replaced text are as they were, the others moved along with what stands after it. */
  ghost predicate IsMoved(changes: seq<Change>, moved: seq<Change>, replacementFrom: int, longer: int) {
    && |moved| == |changes|
    && forall i :: 0 <= i < |changes| ==>
         var before, after := changes[i], moved[i];
         if before.to <= replacementFrom then after == before
         else after.from == before.from + longer && after.to == before.to + longer && after.insert == before.insert
  }

  lemma {:induction false} MovedAllMoves(changes: seq<Change>, replacementFrom: int, delta: int)
    ensures IsMoved(changes, MovedAll(changes, replacementFrom, delta), replacementFrom, delta)
  {
    if changes != [] {
      MovedAllMoves(changes[1..], replacementFrom, delta);
    }
  }

  /**
    Edits are moved exactly if the document is the same up to the replaced text and after it, and
    each edit ends before that text or starts after it.
    */
  lemma {:induction false} RebasesExactly(
      original: Text, replacementFrom: nat, originalTo: nat, accepted: Text, from: int, to: int, changes: seq<Change>)
    requires replacementFrom <= |original| && originalTo <= |original|
    ensures SameAround(original, replacementFrom, originalTo, accepted, from, to)
       <==> && from == replacementFrom <= to <= |accepted|
            && accepted[..from] == original[..from] && accepted[to..] == original[originalTo..]
    ensures AllClear(changes, replacementFrom, originalTo)
       <==> forall change <- changes :: change.to <= replacementFrom || originalTo <= change.from
    ensures SameAround(original, replacementFrom, originalTo, accepted, from, to) ==>
      var rebased := MovedAll(changes, replacementFrom, (to - from) - (originalTo - replacementFrom));
      IsMoved(changes, rebased, replacementFrom, |accepted| - |original|)
  {
    MovedAllMoves(changes, replacementFrom, (to - from) - (originalTo - replacementFrom));
    if SameAround(original, replacementFrom, originalTo, accepted, from, to) {
      assert |accepted[to..]| == |original[originalTo..]|;
    }
  }

  lemma {:induction false} NothingMoved(changes: seq<Change>, replacementFrom: int, delta: int, originalTo: int)
    ensures MovedAll([], replacementFrom, delta) == [] && changes[0..] == changes
    ensures changes[..0] == [] && AllClear([], replacementFrom, originalTo)
  {
  }

  lemma {:induction false} ClearNext(changes: seq<Change>, i: nat, replacementFrom: int, originalTo: int)
    requires i < |changes| && AllClear(changes[..i], replacementFrom, originalTo)
    ensures AllClear(changes[..i + 1], replacementFrom, originalTo)
       <==> Clear(changes[i], replacementFrom, originalTo)
    ensures AllClear(changes, replacementFrom, originalTo) ==> Clear(changes[i], replacementFrom, originalTo)
  {
    assert changes[..i + 1] == changes[..i] + [changes[i]];
  }

  lemma {:induction false} MovedNext(
      changes: seq<Change>, i: nat, moved: seq<Change>, replacementFrom: int, delta: int)
    requires i < |changes|
    ensures moved + MovedAll(changes[i..], replacementFrom, delta)
         == moved + [Moved(changes[i], replacementFrom, delta)] + MovedAll(changes[i + 1..], replacementFrom, delta)
  {
    assert changes[i..][1..] == changes[i + 1..];
  }

  // ----- Validity does not depend on the order -----

  predicate Disjoint(a: Change, b: Change) {
    a.to <= b.from || b.to <= a.from
  }

  ghost predicate Compatible(length: nat, changes: seq<Change>) {
    changes == []
    || (IsRange(length, changes[0].from, changes[0].to)
        && ClearOf(changes[0], changes[1..]) && Compatible(length, changes[1..]))
  }

  lemma {:induction false} InsertMembers(change: Change, sorted: seq<Change>)
    ensures forall x :: x in Insert(change, sorted) <==> x == change || x in sorted
  {
    if sorted != [] {
      InsertMembers(change, sorted[1..]);
      assert sorted == [sorted[0]] + sorted[1..];
    }
  }

  lemma {:induction false} SortMembers(changes: seq<Change>)
    ensures forall x :: x in Sort(changes) <==> x in changes
  {
    if changes != [] {
      SortMembers(changes[1..]);
      InsertMembers(changes[0], Sort(changes[1..]));
    }
  }

  ghost predicate Sorted(changes: seq<Change>) {
    changes == [] || ((forall other <- changes[1..] :: !Less(other, changes[0])) && Sorted(changes[1..]))
  }

  lemma {:induction false} InsertSorts(change: Change, sorted: seq<Change>)
    requires Sorted(sorted)
    ensures Sorted(Insert(change, sorted))
  {
    if sorted != [] && Less(sorted[0], change) {
      InsertSorts(change, sorted[1..]);
      InsertMembers(change, sorted[1..]);
    } else if sorted != [] {
      assert sorted == [sorted[0]] + sorted[1..];
    }
  }

  lemma {:induction false} SortSorts(changes: seq<Change>)
    ensures Sorted(Sort(changes))
  {
    if changes != [] {
      SortSorts(changes[1..]);
      InsertSorts(changes[0], Sort(changes[1..]));
    }
  }

  predicate ClearOf(change: Change, others: seq<Change>) {
    forall other <- others :: Disjoint(change, other)
  }

  lemma {:induction false} CompatibleCons(length: nat, change: Change, rest: seq<Change>)
    ensures Compatible(length, [change] + rest)
       <==> IsRange(length, change.from, change.to) && ClearOf(change, rest) && Compatible(length, rest)
  {
    assert ([change] + rest)[1..] == rest;
  }

  lemma {:induction false} ClearOfInserted(a: Change, change: Change, sorted: seq<Change>)
    ensures ClearOf(a, Insert(change, sorted)) <==> Disjoint(a, change) && ClearOf(a, sorted)
    ensures ClearOf(a, [change] + sorted) <==> Disjoint(a, change) && ClearOf(a, sorted)
  {
    InsertMembers(change, sorted);
  }

  lemma {:induction false} InsertCompatible(length: nat, change: Change, sorted: seq<Change>)
    ensures Compatible(length, Insert(change, sorted)) <==> Compatible(length, [change] + sorted)
  {
    hide Compatible, ClearOf, Less;
    if sorted != [] && Less(sorted[0], change) {
      var head, rest := sorted[0], sorted[1..];
      assert sorted == [head] + rest;
      InsertCompatible(length, change, rest);
      CompatibleCons(length, head, Insert(change, rest));
      CompatibleCons(length, change, rest);
      CompatibleCons(length, change, sorted);
      CompatibleCons(length, head, rest);
      ClearOfInserted(head, change, rest);
      ClearOfInserted(change, head, rest);
    }
  }

  lemma {:induction false} SortCompatible(length: nat, changes: seq<Change>)
    ensures Compatible(length, Sort(changes)) <==> Compatible(length, changes)
  {
    if changes != [] {
      SortCompatible(length, changes[1..]);
      InsertCompatible(length, changes[0], Sort(changes[1..]));
      SortMembers(changes[1..]);
    }
  }

  lemma {:induction false} AscendingCompatible(length: nat, ordered: seq<Change>, floor: int)
    requires Sorted(ordered)
    ensures Ascending(length, ordered, floor)
       <==> Compatible(length, ordered) && (ordered != [] ==> floor <= ordered[0].from)
    ensures Ascending(length, ordered, floor) ==> forall change <- ordered :: floor <= change.from
  {
    if ordered != [] {
      var rest := ordered[1..];
      AscendingCompatible(length, rest, ordered[0].to);
      assert ordered == [ordered[0]] + rest;
      if rest != [] {
        assert rest[0] in rest;
      }
    }
  }

  /** An edit set is valid exactly when its edits are ranges and pairwise disjoint. */
  lemma {:induction false} ValidIsCompatible(length: nat, changes: seq<Change>)
    ensures AreValidNonOverlapping(length, changes) <==> Compatible(length, changes)
  {
    SortSorts(changes);
    SortCompatible(length, changes);
    AscendingCompatible(length, Sort(changes), 0);
    if changes != [] && Compatible(length, Sort(changes)) {
      assert Sort(changes) != [];
    }
  }

  // ----- When there is a transaction, and which -----

  lemma {:induction false} CompatibleAt(length: nat, changes: seq<Change>)
    ensures Compatible(length, changes) <==> Applicable(length, changes)
  {
    if changes != [] {
      var head, rest := changes[0], changes[1..];
      assert changes == [head] + rest;
      CompatibleAt(length, rest);
      CompatibleCons(length, head, rest);
      hide Compatible, ClearOf, Applicable, IsRange;
      ApplicableCons(length, head, rest);
    }
  }

  lemma {:induction false} ApplicableCons(length: nat, change: Change, rest: seq<Change>)
    ensures Applicable(length, [change] + rest)
       <==> IsRange(length, change.from, change.to) && ClearOf(change, rest) && Applicable(length, rest)
  {
    var changes := [change] + rest;
    assert changes[0] == change && forall i | 0 <= i < |rest| :: rest[i] == changes[i + 1];
    assert Applicable(length, changes) ==> ClearOf(change, rest) by {
      if Applicable(length, changes) {
        forall other <- rest ensures Disjoint(change, other) {
          var k :| 0 <= k < |rest| && rest[k] == other;
          assert changes[k + 1] == other;
        }
      }
    }
    if IsRange(length, change.from, change.to) && ClearOf(change, rest) && Applicable(length, rest) {
      ApplicableFrom(length, change, rest);
    }
  }

  lemma {:induction false} ApplicableFrom(length: nat, change: Change, rest: seq<Change>)
    requires IsRange(length, change.from, change.to) && ClearOf(change, rest) && Applicable(length, rest)
    ensures Applicable(length, [change] + rest)
  {
    var changes := [change] + rest;
    forall i, j | 0 <= i < j < |changes| ensures changes[i].to <= changes[j].from || changes[j].to <= changes[i].from {
      assert changes[j] == rest[j - 1] && rest[j - 1] in rest;
      if i > 0 {
        assert changes[i] == rest[i - 1];
      }
    }
  }

  lemma {:induction false} SortedAt(changes: seq<Change>, i: nat, j: nat)
    requires Sorted(changes) && i < j < |changes|
    ensures changes[i].from < changes[j].from || (changes[i].from == changes[j].from && changes[i].to <= changes[j].to)
  {
    if i > 0 {
      SortedAt(changes[1..], i - 1, j - 1);
    } else {
      assert changes[j] in changes[1..];
    }
  }

  function Replacing(from: int, to: int): Change -> bool {
    (change: Change) => change.from == from && change.to == to
  }

  lemma {:induction false} InsertIsStable(change: Change, sorted: seq<Change>, from: int, to: int)
    ensures Filter(Insert(change, sorted), Replacing(from, to)) == Filter([change] + sorted, Replacing(from, to))
  {
    assert ([change] + sorted)[1..] == sorted;
    if sorted != [] && Less(sorted[0], change) {
      InsertIsStable(change, sorted[1..], from, to);
      var rest := Insert(change, sorted[1..]);
      assert ([sorted[0]] + rest)[1..] == rest;
      assert ([change] + sorted[1..])[1..] == sorted[1..];
    }
  }

  /** Changes of the same text keep their order. */
  lemma {:induction false} SortIsStable(changes: seq<Change>, from: int, to: int)
    ensures Filter(Sort(changes), Replacing(from, to)) == Filter(changes, Replacing(from, to))
    ensures multiset(Sort(changes)) == multiset(changes)
  {
    if changes != [] {
      var rest := Sort(changes[1..]);
      SortIsStable(changes[1..], from, to);
      InsertIsStable(changes[0], rest, from, to);
      InsertKeeps(changes[0], rest);
      assert ([changes[0]] + rest)[1..] == rest;
      assert changes == [changes[0]] + changes[1..];
    }
  }

  lemma {:induction false} InsertKeeps(change: Change, sorted: seq<Change>)
    ensures multiset(Insert(change, sorted)) == multiset(sorted) + multiset{change}
  {
    if sorted != [] && Less(sorted[0], change) {
      InsertKeeps(change, sorted[1..]);
      assert sorted == [sorted[0]] + sorted[1..];
    }
  }

  /** All changes replace text of the document, no two the same. */
  ghost predicate Applicable(length: nat, changes: seq<Change>) {
    && (forall i | 0 <= i < |changes| :: 0 <= changes[i].from <= changes[i].to <= length)
    && forall i, j | 0 <= i < j < |changes| :: changes[i].to <= changes[j].from || changes[j].to <= changes[i].from
  }

  /**
    There is a transaction exactly if the document is the expected one and the completion and the other
    edits replace text of it, no two the same; it holds just these, by start and then end, and those of
    the same place in their order, the completion before the others.
    */
  lemma {:induction false} TransactionExactly(
      state: Document, expected: Document, from: int, to: int, insertText: Text, additional: seq<Change>)
    ensures var changes := [Change(from, to, insertText)] + additional;
      match CreateTransaction(state, expected, from, to, insertText, additional)
      case None => !(state == expected && Applicable(|state.content|, changes))
      case Some(ordered) =>
        && state == expected && Applicable(|state.content|, changes)
        && multiset(ordered) == multiset(changes)
        && (forall i, j | 0 <= i < j < |ordered| ::
              ordered[i].from < ordered[j].from || (ordered[i].from == ordered[j].from && ordered[i].to <= ordered[j].to))
        && forall a, b :: Filter(ordered, Replacing(a, b)) == Filter(changes, Replacing(a, b))
  {
    hide Sort, Ascending, Compatible, Filter, Sorted;
    var length, changes := |state.content|, [Change(from, to, insertText)] + additional;
    var ordered := Sort(changes);
    ValidIsCompatible(length, ordered);
    SortCompatible(length, changes);
    CompatibleAt(length, changes);
    assert changes[0] == Change(from, to, insertText);
    SortSorts(changes);
    forall i, j | 0 <= i < j < |ordered|
      ensures ordered[i].from < ordered[j].from || (ordered[i].from == ordered[j].from && ordered[i].to <= ordered[j].to)
    {
      SortedAt(ordered, i, j);
    }
    forall a, b ensures Filter(ordered, Replacing(a, b)) == Filter(changes, Replacing(a, b)) {
      SortIsStable(changes, a, b);
    }
    SortIsStable(changes, 0, 0);
  }
}
