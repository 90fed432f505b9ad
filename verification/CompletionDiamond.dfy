/**
  The rebase diamond: the rebased edits with the completion do to the accepted document what the
  original edits with the completion do to the document of the request.
  */
module CompletionDiamond {
  import opened TextPosition
  import opened CompletionRebase

  /**
    The two documents agree around the place of the completion. `original[from..originalTo]` is
    what the completion was computed to replace, `accepted[from..to]` what it replaces now.
    */
  datatype Acceptance = Acceptance(original: Text, accepted: Text, from: nat, originalTo: nat, to: nat) {
    predicate Valid() {
      && from <= originalTo <= |original| && from <= to <= |accepted|
      && SameAround(original, from, originalTo, accepted, from, to)
    }

    function Delta(): int {
      (to - from) - (originalTo - from)
    }

    /** The edit set on the document of the request. */
    function Then(insertText: Text, changes: seq<Change>): seq<Change> {
      [Change(from, originalTo, insertText)] + changes
    }

    /** The edit set on the accepted document. */
    function Now(insertText: Text, changes: seq<Change>): seq<Change> {
      [Change(from, to, insertText)] + MovedAll(changes, from, Delta())
    }
  }

  // ----- One edit set is valid exactly when the other is -----

  lemma {:induction false} SameLengths(a: Acceptance)
    requires a.Valid()
    ensures |a.accepted| == |a.original| + a.Delta()
  {
    assert |a.accepted[a.to..]| == |a.original[a.originalTo..]|;
  }

  lemma {:induction false} MovedClearOf(a: Acceptance, change: Change, changes: seq<Change>)
    requires a.Valid() && Clear(change, a.from, a.originalTo) && AllClear(changes, a.from, a.originalTo)
    ensures ClearOf(change, changes)
       <==> ClearOf(Moved(change, a.from, a.Delta()), MovedAll(changes, a.from, a.Delta()))
  {
    if changes != [] {
      var rest, moved := changes[1..], MovedAll(changes, a.from, a.Delta());
      assert changes == [changes[0]] + rest && moved == [moved[0]] + MovedAll(rest, a.from, a.Delta());
      MovedClearOf(a, change, rest);
      ClearOfInserted(change, changes[0], rest);
      ClearOfInserted(Moved(change, a.from, a.Delta()), moved[0], MovedAll(rest, a.from, a.Delta()));
      assert changes[0] in changes;
    }
  }

  lemma {:induction false} MovedCompatible(a: Acceptance, changes: seq<Change>)
    requires a.Valid() && AllClear(changes, a.from, a.originalTo)
    ensures Compatible(|a.original|, changes) <==> Compatible(|a.accepted|, MovedAll(changes, a.from, a.Delta()))
  {
    if changes != [] {
      var rest, moved := changes[1..], MovedAll(changes, a.from, a.Delta());
      assert changes == [changes[0]] + rest && moved[1..] == MovedAll(rest, a.from, a.Delta());
      SameLengths(a);
      MovedCompatible(a, rest);
      MovedClearOf(a, changes[0], rest);
    }
  }

  lemma {:induction false} CompletionIsClear(a: Acceptance, insertText: Text, changes: seq<Change>)
    requires a.Valid()
    ensures ClearOf(Change(a.from, a.originalTo, insertText), changes) <==> AllClear(changes, a.from, a.originalTo)
    ensures AllClear(changes, a.from, a.originalTo) ==>
      ClearOf(Change(a.from, a.to, insertText), MovedAll(changes, a.from, a.Delta()))
  {
    if changes != [] {
      var rest, moved := changes[1..], MovedAll(changes, a.from, a.Delta());
      assert changes == [changes[0]] + rest && moved == [moved[0]] + MovedAll(rest, a.from, a.Delta());
      CompletionIsClear(a, insertText, rest);
      ClearOfInserted(Change(a.from, a.originalTo, insertText), changes[0], rest);
      ClearOfInserted(Change(a.from, a.to, insertText), moved[0], MovedAll(rest, a.from, a.Delta()));
      assert AllClear(changes, a.from, a.originalTo)
        <==> Clear(changes[0], a.from, a.originalTo) && AllClear(rest, a.from, a.originalTo);
    }
  }

  /**
    The edit set is valid on the document of the request exactly when it can be rebased and the
    rebased set is valid on the accepted document.
    */
  lemma {:induction false} ValidThenAsNow(a: Acceptance, insertText: Text, changes: seq<Change>)
    requires a.Valid()
    ensures AreValidNonOverlapping(|a.original|, a.Then(insertText, changes))
       <==> AllClear(changes, a.from, a.originalTo)
            && AreValidNonOverlapping(|a.accepted|, a.Now(insertText, changes))
  {
    hide AreValidNonOverlapping, ClearOf, AllClear, MovedAll, Compatible;
    var moved := MovedAll(changes, a.from, a.Delta());
    ValidIsCompatible(|a.original|, a.Then(insertText, changes));
    ValidIsCompatible(|a.accepted|, a.Now(insertText, changes));
    CompatibleCons(|a.original|, Change(a.from, a.originalTo, insertText), changes);
    CompatibleCons(|a.accepted|, Change(a.from, a.to, insertText), moved);
    CompletionIsClear(a, insertText, changes);
    if AllClear(changes, a.from, a.originalTo) {
      MovedCompatible(a, changes);
    }
  }

  // ----- Sorted edit sets split at the completion -----

  function Lefts(changes: seq<Change>, at: int): seq<Change> {
    if changes == [] then []
    else (if changes[0].to <= at then [changes[0]] else []) + Lefts(changes[1..], at)
  }

  /** The edits beyond `at`, shifted. */
  function Rights(changes: seq<Change>, at: int, delta: int): seq<Change> {
    if changes == [] then []
    else (if changes[0].to <= at then [] else [Moved(changes[0], at, delta)]) + Rights(changes[1..], at, delta)
  }

  lemma {:induction false} InsertBefore(change: Change, a: seq<Change>, b: seq<Change>)
    requires b == [] || !Less(b[0], change)
    ensures Insert(change, a + b) == Insert(change, a) + b
  {
    if a == [] {
      assert a + b == b;
    } else {
      assert (a + b)[1..] == a[1..] + b;
      if Less(a[0], change) {
        InsertBefore(change, a[1..], b);
      }
    }
  }

  lemma {:induction false} InsertAfter(change: Change, a: seq<Change>, b: seq<Change>)
    requires forall x <- a :: Less(x, change)
    ensures Insert(change, a + b) == a + Insert(change, b)
  {
    if a == [] {
      assert a + b == b;
    } else {
      hide Less;
      assert a[0] in a && forall x <- a[1..] :: x in a;
      assert (a + b)[1..] == a[1..] + b && a == [a[0]] + a[1..] && (a + b)[0] == a[0];
      InsertAfter(change, a[1..], b);
    }
  }

  /** Every left edit sorts strictly before every shifted right one. */
  ghost predicate Apart(changes: seq<Change>, at: int, delta: int) {
    forall left <- Lefts(changes, at), right <- Rights(changes, at, delta) :: Less(left, right)
  }

  lemma {:induction false} ApartRest(changes: seq<Change>, at: int, delta: int)
    requires changes != [] && Apart(changes, at, delta)
    ensures Apart(changes[1..], at, delta)
    ensures if changes[0].to <= at then
              && Lefts(changes, at) == [changes[0]] + Lefts(changes[1..], at)
              && Rights(changes, at, delta) == Rights(changes[1..], at, delta)
              && forall right <- Rights(changes[1..], at, delta) :: !Less(right, changes[0])
            else
              && Lefts(changes, at) == Lefts(changes[1..], at)
              && Rights(changes, at, delta) == [Moved(changes[0], at, delta)] + Rights(changes[1..], at, delta)
              && forall left <- Lefts(changes[1..], at) :: Less(left, Moved(changes[0], at, delta))
  {
    var lefts, rights := Lefts(changes[1..], at), Rights(changes[1..], at, delta);
    if changes[0].to <= at {
      assert Lefts(changes, at) == [changes[0]] + lefts && Rights(changes, at, delta) == rights;
      assert changes[0] in Lefts(changes, at);
    } else {
      var moved := Moved(changes[0], at, delta);
      assert Lefts(changes, at) == lefts && Rights(changes, at, delta) == [moved] + rights;
      assert moved in Rights(changes, at, delta);
    }
  }

  /** If left and right edits stay apart, sorting them is sorting each side. */
  lemma {:induction false} SortSplits(changes: seq<Change>, at: int, delta: int)
    requires Apart(changes, at, delta)
    ensures Sort(MovedAll(changes, at, delta)) == Sort(Lefts(changes, at)) + Sort(Rights(changes, at, delta))
  {
    hide Apart, Less, Lefts, Rights;
    if changes == [] {
      NoSides(at, delta);
    } else {
      var head, rest := changes[0], changes[1..];
      var lefts, rights := Lefts(rest, at), Rights(rest, at, delta);
      ApartRest(changes, at, delta);
      SortSplits(rest, at, delta);
      SortMembers(lefts);
      SortMembers(rights);
      assert MovedAll(changes, at, delta)[1..] == MovedAll(rest, at, delta);
      if head.to <= at {
        assert Sort(rights) == [] || Sort(rights)[0] in rights;
        InsertBefore(head, Sort(lefts), Sort(rights));
        assert ([head] + lefts)[1..] == lefts;
      } else {
        var moved := Moved(head, at, delta);
        InsertAfter(moved, Sort(lefts), Sort(rights));
        assert ([moved] + rights)[1..] == rights;
      }
    }
  }

  lemma {:induction false} NoSides(at: int, delta: int)
    ensures Lefts([], at) == [] && Rights([], at, delta) == []
  {
  }

  /** The completion sorts after every left edit and not after any right one. */
  lemma {:induction false} CompletionSplits(changes: seq<Change>, at: int, delta: int, completion: Change)
    requires Apart(changes, at, delta)
    requires forall left <- Lefts(changes, at) :: Less(left, completion)
    requires forall right <- Rights(changes, at, delta) :: !Less(right, completion)
    ensures Sort([completion] + MovedAll(changes, at, delta))
         == Sort(Lefts(changes, at)) + [completion] + Sort(Rights(changes, at, delta))
  {
    hide Less, Apart;
    var lefts, rights := Sort(Lefts(changes, at)), Sort(Rights(changes, at, delta));
    SortSplits(changes, at, delta);
    SortMembers(Lefts(changes, at));
    SortMembers(Rights(changes, at, delta));
    assert ([completion] + MovedAll(changes, at, delta))[1..] == MovedAll(changes, at, delta);
    InsertAfter(completion, lefts, rights);
    assert Insert(completion, rights) == [completion] + rights by {
      assert rights == [] || rights[0] in rights;
    }
  }

  function Shifted(changes: seq<Change>, delta: int): seq<Change> {
    if changes == [] then []
    else [changes[0].(from := changes[0].from + delta, to := changes[0].to + delta)] + Shifted(changes[1..], delta)
  }

  lemma {:induction false} InsertShifted(change: Change, sorted: seq<Change>, delta: int)
    ensures Insert(change.(from := change.from + delta, to := change.to + delta), Shifted(sorted, delta))
         == Shifted(Insert(change, sorted), delta)
  {
    if sorted != [] {
      InsertShifted(change, sorted[1..], delta);
      var shifted := Shifted(sorted, delta);
      assert shifted[1..] == Shifted(sorted[1..], delta);
      assert ([change] + sorted)[1..] == sorted;
      assert ([sorted[0]] + Insert(change, sorted[1..]))[1..] == Insert(change, sorted[1..]);
    } else {
      assert [change][1..] == [];
    }
  }

  /** Shifting all edits alike commutes with sorting them. */
  lemma {:induction false} SortShifted(changes: seq<Change>, at: int, delta: int)
    ensures Sort(Rights(changes, at, delta)) == Shifted(Sort(Rights(changes, at, 0)), delta)
  {
    if changes != [] {
      SortShifted(changes[1..], at, delta);
      if changes[0].to > at {
        var rights, shifted := Rights(changes[1..], at, 0), Rights(changes[1..], at, delta);
        assert ([changes[0]] + rights)[1..] == rights;
        assert ([Moved(changes[0], at, delta)] + shifted)[1..] == shifted;
        assert Rights(changes, at, 0) == [changes[0]] + rights;
        InsertShifted(changes[0], Sort(rights), delta);
      } else {
        assert Rights(changes, at, 0) == Rights(changes[1..], at, 0);
        assert Rights(changes, at, delta) == Rights(changes[1..], at, delta);
      }
    }
  }

  // ----- The texts agree -----

  /** Both edit sets are valid and produce the same text. */
  ghost predicate SameText(a: Acceptance, insertText: Text, changes: seq<Change>) {
    var original, accepted := Sort(a.Then(insertText, changes)), Sort(a.Now(insertText, changes));
    && Ascending(|a.original|, original, 0) && Ascending(|a.accepted|, accepted, 0)
    && Apply(a.accepted, accepted, 0) == Apply(a.original, original, 0)
  }

  predicate InsertsAt(change: Change, at: int) {
    change.from == at && change.to == at
  }

  predicate SameEmptiness(a: Acceptance) {
    a.to == a.from <==> a.originalTo == a.from
  }

  /** No edit is an insertion exactly where the completion starts. */
  predicate NoTie(a: Acceptance, changes: seq<Change>) {
    forall change <- changes :: !InsertsAt(change, a.from)
  }

  lemma {:induction false} ShiftedHead(head: Change, rest: seq<Change>, delta: int)
    ensures Shifted([head] + rest, delta)
         == [head.(from := head.from + delta, to := head.to + delta)] + Shifted(rest, delta)
  {
    assert ([head] + rest)[1..] == rest;
  }

  lemma {:induction false} NothingShifted(a: Acceptance, at: nat)
    requires a.Valid() && a.originalTo <= at <= |a.original|
    ensures 0 <= at + a.Delta() <= |a.accepted|
    ensures Shifted([], a.Delta()) == [] && Ascending(|a.accepted|, [], at + a.Delta())
    ensures Apply(a.accepted, [], at + a.Delta()) == Apply(a.original, [], at)
  {
    SameLengths(a);
    SameSlices(a, at, |a.original|);
  }

  lemma {:induction false} ApplyShifted(a: Acceptance, rights: seq<Change>, at: nat)
    requires a.Valid() && a.originalTo <= at <= |a.original| && Ascending(|a.original|, rights, at)
    requires Ascending(|a.accepted|, Shifted(rights, a.Delta()), at + a.Delta())
    ensures 0 <= at + a.Delta() <= |a.accepted|
    ensures Apply(a.accepted, Shifted(rights, a.Delta()), at + a.Delta()) == Apply(a.original, rights, at)
    decreases |rights|
  {
    hide SameAround, Shifted, Apply, Ascending;
    var d := a.Delta();
    SameLengths(a);
    if rights == [] {
      NothingShifted(a, at);
    } else {
      var head, rest := rights[0], rights[1..];
      var moved := head.(from := head.from + d, to := head.to + d);
      ShiftedHead(head, rest, d);
      assert rights == [head] + rest;
      ApplyHead(a.original, head, rest, at);
      ApplyHead(a.accepted, moved, Shifted(rest, d), at + d);
      SameSlices(a, at, head.from);
      ApplyShifted(a, rest, head.to);
    }
  }

  lemma {:induction false} SameSlices(a: Acceptance, i: nat, j: nat)
    requires a.Valid() && a.originalTo <= i <= j <= |a.original|
    ensures 0 <= i + a.Delta() && j + a.Delta() <= |a.accepted|
    ensures a.original[i..j] == a.accepted[i + a.Delta()..j + a.Delta()]
  {
    SameLengths(a);
    SliceOfSuffix(a.original, a.originalTo, i, j);
    SliceOfSuffix(a.accepted, a.to, i + a.Delta(), j + a.Delta());
  }

  lemma {:induction false} SliceOfSuffix(s: Text, o: nat, i: nat, j: nat)
    requires o <= i <= j <= |s|
    ensures s[o..][i - o..j - o] == s[i..j]
  {
  }

  lemma {:induction false} SliceOfPrefix(s: Text, o: nat, i: nat, j: nat)
    requires i <= j <= o <= |s|
    ensures s[..o][i..j] == s[i..j]
  {
  }

  lemma {:induction false} SamePrefix(a: Acceptance, i: nat, j: nat)
    requires a.Valid() && i <= j <= a.from
    ensures a.original[i..j] == a.accepted[i..j]
  {
    SliceOfPrefix(a.original, a.from, i, j);
    SliceOfPrefix(a.accepted, a.from, i, j);
  }

  lemma {:induction false} ApplyHead(doc: Text, head: Change, rest: seq<Change>, at: nat)
    requires at <= |doc| && Ascending(|doc|, [head] + rest, at)
    ensures at <= head.from <= head.to <= |doc| && Ascending(|doc|, rest, head.to)
    ensures Apply(doc, [head] + rest, at) == doc[at..head.from] + head.insert + Apply(doc, rest, head.to)
  {
    assert ([head] + rest)[1..] == rest && ([head] + rest)[0] == head;
  }

  lemma {:induction false} TextBeforeHead(doc: Text, head: Change, rest: seq<Change>, from: nat, at: nat)
    requires from <= head.from <= head.to <= at <= |doc| && Ascending(at, rest, head.to)
    ensures Ascending(at, [head] + rest, from)
    ensures TextBefore(doc, [head] + rest, from, at)
         == doc[from..head.from] + head.insert + TextBefore(doc, rest, head.to, at)
  {
    assert ([head] + rest)[1..] == rest && ([head] + rest)[0] == head;
  }

  lemma {:induction false} Regroup(a: Text, b: Text, c: Text, d: Text, e: Text)
    ensures a + b + (c + d + e) == (a + b + c) + d + e
  {
  }

  lemma {:induction false} HeadOf(left: Change, rest: seq<Change>, completion: Change, rights: seq<Change>)
    ensures [left] + rest + [completion] + rights == [left] + (rest + [completion] + rights)
  {
  }

  lemma {:induction false} ApplyFromCompletion(a: Acceptance, insertText: Text, rights: seq<Change>, at: nat)
    requires a.Valid() && at <= a.from
    requires Ascending(|a.original|, [Change(a.from, a.originalTo, insertText)] + rights, at)
    requires Ascending(|a.accepted|, [Change(a.from, a.to, insertText)] + Shifted(rights, a.Delta()), at)
    ensures Apply(a.accepted, [Change(a.from, a.to, insertText)] + Shifted(rights, a.Delta()), at)
         == Apply(a.original, [Change(a.from, a.originalTo, insertText)] + rights, at)
  {
    hide Apply, Ascending, Shifted, SameAround;
    ApplyHead(a.original, Change(a.from, a.originalTo, insertText), rights, at);
    ApplyHead(a.accepted, Change(a.from, a.to, insertText), Shifted(rights, a.Delta()), at);
    SamePrefix(a, at, a.from);
    ApplyShifted(a, rights, a.originalTo);
  }

  /** Edits on the left, the completion, edits on the right: the same text from both documents. */
  lemma {:induction false} ApplySplit(a: Acceptance, lefts: seq<Change>, insertText: Text, rights: seq<Change>, at: nat)
    requires a.Valid() && at <= a.from && forall left <- lefts :: left.to <= a.from
    requires Ascending(|a.original|, lefts + [Change(a.from, a.originalTo, insertText)] + rights, at)
    requires Ascending(|a.accepted|, lefts + [Change(a.from, a.to, insertText)] + Shifted(rights, a.Delta()), at)
    ensures Apply(a.accepted, lefts + [Change(a.from, a.to, insertText)] + Shifted(rights, a.Delta()), at)
         == Apply(a.original, lefts + [Change(a.from, a.originalTo, insertText)] + rights, at)
    decreases |lefts|
  {
    var before, after := Change(a.from, a.originalTo, insertText), Change(a.from, a.to, insertText);
    var shifted := Shifted(rights, a.Delta());
    if lefts == [] {
      assert lefts + [before] + rights == [before] + rights;
      assert lefts + [after] + shifted == [after] + shifted;
      ApplyFromCompletion(a, insertText, rights, at);
    } else {
      hide Apply, Ascending, Shifted, SameAround;
      var left, rest := lefts[0], lefts[1..];
      assert lefts == [left] + rest && left in lefts;
      HeadOf(left, rest, before, rights);
      HeadOf(left, rest, after, shifted);
      ApplyHead(a.original, left, rest + [before] + rights, at);
      ApplyHead(a.accepted, left, rest + [after] + shifted, at);
      SamePrefix(a, at, left.from);
      ApplySplit(a, rest, insertText, rights, left.to);
    }
  }

  lemma {:induction false} SideMembers(changes: seq<Change>, at: int, delta: int)
    ensures forall left <- Lefts(changes, at) :: left in changes && left.to <= at
    ensures forall right <- Rights(changes, at, delta) ::
      exists change <- changes :: change.to > at && right == Moved(change, at, delta)
  {
    if changes != [] {
      SideMembers(changes[1..], at, delta);
      assert changes == [changes[0]] + changes[1..];
    }
  }

  lemma {:induction false} CompatibleRanges(length: nat, changes: seq<Change>)
    requires Compatible(length, changes)
    ensures forall change <- changes :: IsRange(length, change.from, change.to)
  {
    if changes != [] {
      CompatibleRanges(length, changes[1..]);
      assert changes == [changes[0]] + changes[1..];
    }
  }

  lemma {:induction false} MovedByNothing(changes: seq<Change>, at: int)
    ensures MovedAll(changes, at, 0) == changes
  {
    if changes != [] {
      MovedByNothing(changes[1..], at);
    }
  }

  /** What validity says about each edit. */
  ghost predicate Placed(a: Acceptance, changes: seq<Change>) {
    forall change <- changes ::
      IsRange(|a.original|, change.from, change.to) && Clear(change, a.from, a.originalTo)
  }

  lemma {:induction false} ValidIsPlaced(a: Acceptance, insertText: Text, changes: seq<Change>)
    requires a.Valid() && AreValidNonOverlapping(|a.original|, a.Then(insertText, changes))
    ensures Placed(a, changes) && AreValidNonOverlapping(|a.accepted|, a.Now(insertText, changes))
  {
    hide AreValidNonOverlapping, Compatible;
    ValidThenAsNow(a, insertText, changes);
    ValidIsCompatible(|a.original|, a.Then(insertText, changes));
    CompatibleRanges(|a.original|, a.Then(insertText, changes));
    assert forall change <- changes :: change in a.Then(insertText, changes);
  }

  /** With no tie at the start of the completion, both sides split around it. */
  lemma {:induction false} SplitsAround(a: Acceptance, insertText: Text, changes: seq<Change>, to: nat, delta: int)
    requires a.Valid() && Placed(a, changes)
    requires (to, delta) == (a.originalTo, 0) || (to, delta) == (a.to, a.Delta())
    requires (a.to > a.from && a.originalTo > a.from) || forall change <- changes :: !InsertsAt(change, a.from)
    ensures Sort([Change(a.from, to, insertText)] + MovedAll(changes, a.from, delta))
         == Sort(Lefts(changes, a.from)) + [Change(a.from, to, insertText)] + Sort(Rights(changes, a.from, delta))
  {
    hide Sort, Lefts, Rights, MovedAll, SameAround;
    var completion := Change(a.from, to, insertText);
    SideMembers(changes, a.from, delta);
    forall left <- Lefts(changes, a.from) ensures left.from <= a.from && Less(left, completion) {
      assert IsRange(|a.original|, left.from, left.to);
    }
    forall left <- Lefts(changes, a.from), right <- Rights(changes, a.from, delta) ensures Less(left, right) {
      assert IsRange(|a.original|, left.from, left.to);
      var change :| change in changes && change.to > a.from && right == Moved(change, a.from, delta);
    }
    forall right <- Rights(changes, a.from, delta) ensures !Less(right, completion) {
      var change :| change in changes && change.to > a.from && right == Moved(change, a.from, delta);
    }
    CompletionSplits(changes, a.from, delta, completion);
  }

  /** The diamond, unless the completion became empty or non-empty and an insertion ties with it. */
  lemma {:induction false} RebaseWithoutTie(a: Acceptance, insertText: Text, changes: seq<Change>)
    requires a.Valid() && AreValidNonOverlapping(|a.original|, a.Then(insertText, changes))
    requires SameEmptiness(a) || NoTie(a, changes)
    ensures SameText(a, insertText, changes)
  {
    hide Sort, Lefts, Rights, Placed, Apply;
    ValidIsPlaced(a, insertText, changes);
    if a.to == a.from && a.originalTo == a.from {
      MovedByNothing(changes, a.from);
      assert a.original == a.original[..a.from] + a.original[a.from..];
      assert a.accepted == a.accepted[..a.from] + a.accepted[a.from..];
    } else {
      SplitsAround(a, insertText, changes, a.originalTo, 0);
      SplitsAround(a, insertText, changes, a.to, a.Delta());
      MovedByNothing(changes, a.from);
      SortShifted(changes, a.from, a.Delta());
      var lefts := Sort(Lefts(changes, a.from));
      SideMembers(changes, a.from, 0);
      SortMembers(Lefts(changes, a.from));
      ApplySplit(a, lefts, insertText, Sort(Rights(changes, a.from, 0)), 0);
    }
  }

  // ----- And only then -----

  function Low(changes: seq<Change>, at: int): seq<Change> {
    if changes == [] then [] else (if changes[0].from < at then [changes[0]] else []) + Low(changes[1..], at)
  }

  function High(changes: seq<Change>, at: int): seq<Change> {
    if changes == [] then [] else (if changes[0].from < at then [] else [changes[0]]) + High(changes[1..], at)
  }

  lemma {:induction false} LowHighMembers(changes: seq<Change>, at: int)
    ensures forall x :: x in Low(changes, at) <==> x in changes && x.from < at
    ensures forall x :: x in High(changes, at) <==> x in changes && x.from >= at
  {
    if changes != [] {
      LowHighMembers(changes[1..], at);
      assert changes == [changes[0]] + changes[1..];
    }
  }

  lemma {:induction false} SortLowHigh(changes: seq<Change>, at: int)
    ensures Sort(changes) == Sort(Low(changes, at)) + Sort(High(changes, at))
  {
    if changes != [] {
      var head, rest := changes[0], changes[1..];
      SortLowHigh(rest, at);
      SortMembers(Low(rest, at));
      SortMembers(High(rest, at));
      LowHighMembers(rest, at);
      var low, high := Sort(Low(rest, at)), Sort(High(rest, at));
      if head.from < at {
        assert high == [] || high[0] in high;
        InsertBefore(head, low, high);
        assert Low(changes, at) == [head] + Low(rest, at) && ([head] + Low(rest, at))[1..] == Low(rest, at);
        assert High(changes, at) == High(rest, at);
      } else {
        InsertAfter(head, low, high);
        assert High(changes, at) == [head] + High(rest, at) && ([head] + High(rest, at))[1..] == High(rest, at);
        assert Low(changes, at) == Low(rest, at);
      }
    }
  }

  /** The text up to `at`, which the low edits and the document before `at` determine. */
  function TextBefore(doc: Text, low: seq<Change>, from: nat, at: nat): Text
    requires from <= at <= |doc| && Ascending(at, low, from)
  {
    if low == [] then doc[from..at]
    else doc[from..low[0].from] + low[0].insert + TextBefore(doc, low[1..], low[0].to, at)
  }

  /** Applying edits of which the first from `at` on is `first`. */
  lemma {:induction false} FirstAtPlace(
      doc: Text, low: seq<Change>, first: Change, rest: seq<Change>, from: nat, at: nat)
    requires first.from == at && Ascending(|doc|, low + ([first] + rest), from)
    requires from <= at <= |doc|
    ensures Ascending(at, low, from)
    ensures 0 <= first.to <= |doc| && Ascending(|doc|, rest, first.to)
    ensures Apply(doc, low + ([first] + rest), from)
         == TextBefore(doc, low, from, at) + first.insert + Apply(doc, rest, first.to)
    decreases |low|
  {
    if low == [] {
      assert low + ([first] + rest) == [first] + rest;
      ApplyHead(doc, first, rest, from);
    } else {
      hide Apply, Ascending, TextBefore;
      var head, tail := low[0], low[1..] + ([first] + rest);
      assert low == [head] + low[1..];
      assert low + ([first] + rest) == [head] + tail;
      ApplyHead(doc, head, tail, from);
      LowEnds(|doc|, low[1..], [first] + rest, head.to, at);
      FirstAtPlace(doc, low[1..], first, rest, head.to, at);
      TextBeforeHead(doc, head, low[1..], from, at);
      Regroup(doc[from..head.from], head.insert, TextBefore(doc, low[1..], head.to, at), first.insert,
              Apply(doc, rest, first.to));
    }
  }

  lemma {:induction false} LowEnds(length: nat, low: seq<Change>, high: seq<Change>, from: int, at: int)
    requires high != [] && high[0].from == at && Ascending(length, low + high, from)
    ensures from <= at
    decreases |low|
  {
    if low == [] {
      assert low + high == high;
    } else {
      assert (low + high)[1..] == low[1..] + high && (low + high)[0] == low[0];
      LowEnds(length, low[1..], high, low[0].to, at);
    }
  }

  lemma {:induction false} SameTextBefore(a: Acceptance, low: seq<Change>, from: nat)
    requires a.Valid() && from <= a.from && Ascending(a.from, low, from)
    ensures TextBefore(a.original, low, from, a.from) == TextBefore(a.accepted, low, from, a.from)
    decreases |low|
  {
    if low == [] {
      SamePrefix(a, from, a.from);
    } else {
      SamePrefix(a, from, low[0].from);
      SameTextBefore(a, low[1..], low[0].to);
    }
  }

  /** An empty completion comes first among the edits from its place on. */
  lemma {:induction false} EmptyCompletionFirst(changes: seq<Change>, completion: Change, at: int)
    requires InsertsAt(completion, at) && forall change <- changes :: change.from <= change.to
    ensures Sort([completion] + changes) == Sort(Low(changes, at)) + ([completion] + Sort(High(changes, at)))
  {
    var all := [completion] + changes;
    assert all[1..] == changes;
    SortLowHigh(changes, at);
    SortMembers(Low(changes, at));
    SortMembers(High(changes, at));
    LowHighMembers(changes, at);
    var low, high := Sort(Low(changes, at)), Sort(High(changes, at));
    assert high == [] || high[0] in high;
    InsertAfter(completion, low, high);
  }

  lemma {:induction false} InsertBehind(completion: Change, high: seq<Change>, at: int, insertion: Change)
    requires completion.from == at < completion.to && InsertsAt(insertion, at)
    requires insertion in high && Sorted(high)
    requires forall change <- high :: at <= change.from <= change.to
    ensures high != [] && InsertsAt(high[0], at)
    ensures Insert(completion, high) == [high[0]] + Insert(completion, high[1..])
  {
    assert high == [high[0]] + high[1..] && high[0] in high;
  }

  /** An insertion at the place of a non-empty completion comes before it. */
  lemma {:induction false} InsertionFirst(changes: seq<Change>, completion: Change, at: int, insertion: Change)
    requires completion.from == at < completion.to && forall change <- changes :: change.from <= change.to
    requires insertion in changes && InsertsAt(insertion, at)
    ensures var high := Sort(High(changes, at));
      && high != [] && high[0] in changes && InsertsAt(high[0], at)
      && Sort([completion] + changes) == Sort(Low(changes, at)) + ([high[0]] + Insert(completion, high[1..]))
  {
    var all := [completion] + changes;
    assert all[1..] == changes && Sort(all) == Insert(completion, Sort(changes));
    var low, high := Sort(Low(changes, at)), Sort(High(changes, at));
    SortLowHigh(changes, at);
    SortMembers(Low(changes, at));
    SortMembers(High(changes, at));
    SortSorts(High(changes, at));
    LowHighMembers(changes, at);
    hide Sort, Low, High, Insert, Sorted;
    InsertBehind(completion, high, at, insertion);
    assert high[0] in high;
    InsertAfter(completion, low, high);
  }

  // ----- Insertions of nothing at the tie change nothing -----

  predicate Idle(change: Change, at: int) {
    InsertsAt(change, at) && change.insert == []
  }

  /** Without the insertions of nothing at `at`. */
  function Active(changes: seq<Change>, at: int): seq<Change> {
    if changes == [] then []
    else if Idle(changes[0], at) then Active(changes[1..], at)
    else [changes[0]] + Active(changes[1..], at)
  }

  lemma {:induction false} ActiveCons(head: Change, rest: seq<Change>, at: int)
    ensures Active([head] + rest, at) == if Idle(head, at) then Active(rest, at) else [head] + Active(rest, at)
  {
    assert ([head] + rest)[1..] == rest;
  }

  lemma {:induction false} ActiveMembers(changes: seq<Change>, at: int)
    ensures forall x :: x in Active(changes, at) <==> x in changes && !Idle(x, at)
  {
    if changes != [] {
      ActiveMembers(changes[1..], at);
      assert changes == [changes[0]] + changes[1..];
    }
  }

  lemma {:induction false} ActiveTwice(changes: seq<Change>, at: int)
    ensures Active(Active(changes, at), at) == Active(changes, at)
  {
    if changes != [] {
      ActiveTwice(changes[1..], at);
      ActiveCons(changes[0], Active(changes[1..], at), at);
    }
  }

  lemma {:induction false} ActiveMoved(changes: seq<Change>, at: int, delta: int)
    ensures Active(MovedAll(Active(changes, at), at, delta), at) == Active(MovedAll(changes, at, delta), at)
  {
    if changes != [] {
      var head, rest := changes[0], changes[1..];
      ActiveMoved(rest, at, delta);
      ActiveCons(Moved(head, at, delta), MovedAll(rest, at, delta), at);
      if Idle(head, at) {
        assert Active(changes, at) == Active(rest, at);
      } else {
        assert ([head] + Active(rest, at))[1..] == Active(rest, at);
        ActiveCons(Moved(head, at, delta), MovedAll(Active(rest, at), at, delta), at);
      }
    }
  }

  lemma {:induction false} InsertSmallest(change: Change, sorted: seq<Change>)
    requires forall x <- sorted :: !Less(x, change)
    ensures Insert(change, sorted) == [change] + sorted
  {
  }

  lemma {:induction false} ActiveInsert(change: Change, sorted: seq<Change>, at: int)
    requires Sorted(sorted)
    ensures Active(Insert(change, sorted), at)
         == if Idle(change, at) then Active(sorted, at) else Insert(change, Active(sorted, at))
  {
    hide Idle;
    ActiveCons(change, sorted, at);
    if sorted != [] && Less(sorted[0], change) {
      var head, rest := sorted[0], sorted[1..];
      ActiveInsert(change, rest, at);
      ActiveCons(head, Insert(change, rest), at);
      assert ([head] + Active(rest, at))[1..] == Active(rest, at);
    } else if !Idle(change, at) {
      ActiveMembers(sorted, at);
      assert sorted != [] ==> sorted == [sorted[0]] + sorted[1..];
      InsertSmallest(change, Active(sorted, at));
    }
  }

  lemma {:induction false} ActiveSort(changes: seq<Change>, at: int)
    ensures Sort(Active(changes, at)) == Active(Sort(changes), at)
  {
    if changes != [] {
      hide Idle, Insert, Sorted, Less;
      ActiveSort(changes[1..], at);
      SortSorts(changes[1..]);
      ActiveInsert(changes[0], Sort(changes[1..]), at);
      assert ([changes[0]] + Active(changes[1..], at))[1..] == Active(changes[1..], at);
    }
  }

  lemma {:induction false} ActiveApply(doc: Text, ordered: seq<Change>, from: nat, at: int)
    requires from <= |doc| && Ascending(|doc|, ordered, from)
    ensures Ascending(|doc|, Active(ordered, at), from)
    ensures Apply(doc, Active(ordered, at), from) == Apply(doc, ordered, from)
    decreases |ordered|
  {
    if ordered != [] {
      var head, rest := ordered[0], ordered[1..];
      assert ordered == [head] + rest;
      ActiveApply(doc, rest, head.to, at);
      ActiveCons(head, rest, at);
      ApplyHead(doc, head, rest, from);
      if Idle(head, at) {
        StartEarlier(doc, Active(rest, at), from, head.to);
      } else {
        assert Active(ordered, at)[0] == head && Active(ordered, at)[1..] == Active(rest, at);
      }
    }
  }

  lemma {:induction false} StartEarlier(doc: Text, ordered: seq<Change>, from: nat, to: nat)
    requires from <= to <= |doc| && Ascending(|doc|, ordered, to)
    ensures Ascending(|doc|, ordered, from)
    ensures Apply(doc, ordered, from) == doc[from..to] + Apply(doc, ordered, to)
  {
    if ordered == [] {
      assert doc[from..] == doc[from..to] + doc[to..];
    } else {
      var head, rest := ordered[0], ordered[1..];
      assert ordered == [head] + rest;
      assert Ascending(|doc|, ordered, from);
      hide Apply, Ascending;
      ApplyHead(doc, head, rest, from);
      ApplyHead(doc, head, rest, to);
      assert doc[from..head.from] == doc[from..to] + doc[to..head.from];
      RegroupSlices(doc[from..to], doc[to..head.from], head.insert, Apply(doc, rest, head.to));
    }
  }

  lemma {:induction false} RegroupSlices(a: Text, b: Text, c: Text, d: Text)
    ensures (a + b) + c + d == a + (b + c + d)
  {
  }

  lemma {:induction false} SameActive(doc: Text, x: seq<Change>, y: seq<Change>, at: int)
    requires Active(x, at) == Active(y, at)
    requires Ascending(|doc|, Sort(x), 0) && Ascending(|doc|, Sort(y), 0)
    ensures Apply(doc, Sort(x), 0) == Apply(doc, Sort(y), 0)
  {
    ActiveSort(x, at);
    ActiveSort(y, at);
    ActiveApply(doc, Sort(x), 0, at);
    ActiveApply(doc, Sort(y), 0, at);
  }

  lemma {:induction false} ActiveCompatible(length: nat, changes: seq<Change>, at: int)
    requires Compatible(length, changes)
    ensures Compatible(length, Active(changes, at))
  {
    if changes != [] {
      ActiveCompatible(length, changes[1..], at);
      ActiveMembers(changes[1..], at);
      CompatibleCons(length, changes[0], Active(changes[1..], at));
    }
  }

  /** Validity does not depend on the text the completion inserts, nor on insertions of nothing. */
  lemma {:induction false} ValidWithout(a: Acceptance, insertText: Text, other: Text, changes: seq<Change>)
    requires a.Valid() && AreValidNonOverlapping(|a.original|, a.Then(insertText, changes))
    ensures AreValidNonOverlapping(|a.original|, a.Then(other, changes))
    ensures AreValidNonOverlapping(|a.original|, a.Then(other, Active(changes, a.from)))
  {
    hide AreValidNonOverlapping, Compatible, ClearOf;
    var active := Active(changes, a.from);
    ValidIsCompatible(|a.original|, a.Then(insertText, changes));
    ValidIsCompatible(|a.original|, a.Then(other, changes));
    ValidIsCompatible(|a.original|, a.Then(other, active));
    CompatibleCons(|a.original|, Change(a.from, a.originalTo, insertText), changes);
    CompatibleCons(|a.original|, Change(a.from, a.originalTo, other), changes);
    CompatibleCons(|a.original|, Change(a.from, a.originalTo, other), active);
    ActiveCompatible(|a.original|, changes, a.from);
    ClearOfActive(Change(a.from, a.originalTo, insertText), Change(a.from, a.originalTo, other), changes, a.from);
  }

  lemma {:induction false} ClearOfActive(before: Change, after: Change, changes: seq<Change>, at: int)
    requires before.from == after.from && before.to == after.to && ClearOf(before, changes)
    ensures ClearOf(after, changes) && ClearOf(after, Active(changes, at))
  {
    ActiveMembers(changes, at);
    assert forall change <- changes :: Disjoint(before, change);
  }

  lemma {:induction false} SameTextWithout(a: Acceptance, insertText: Text, changes: seq<Change>)
    requires a.Valid() && AreValidNonOverlapping(|a.original|, a.Then(insertText, changes))
    ensures AreValidNonOverlapping(|a.original|, a.Then(insertText, Active(changes, a.from)))
    ensures SameText(a, insertText, changes) <==> SameText(a, insertText, Active(changes, a.from))
  {
    hide Apply, Sort, Active, MovedAll, Ascending;
    var at, active := a.from, Active(changes, a.from);
    ValidWithout(a, insertText, insertText, changes);
    ValidThenAsNow(a, insertText, changes);
    ValidThenAsNow(a, insertText, active);
    ActiveTwice(changes, at);
    ActiveMoved(changes, at, a.Delta());
    ActiveCons(Change(at, a.originalTo, insertText), changes, at);
    ActiveCons(Change(at, a.originalTo, insertText), active, at);
    ActiveCons(Change(at, a.to, insertText), MovedAll(changes, at, a.Delta()), at);
    ActiveCons(Change(at, a.to, insertText), MovedAll(active, at, a.Delta()), at);
    SameActive(a.original, a.Then(insertText, changes), a.Then(insertText, active), at);
    SameActive(a.accepted, a.Now(insertText, changes), a.Now(insertText, active), at);
  }

  // ----- The diamond, and exactly when it holds -----

  /**
    What a caller can check: the completion replaces something in both documents or nothing in
    both, or else no edit inserts anything exactly where it starts.
    */
  predicate Agreeing(a: Acceptance, changes: seq<Change>) {
    SameEmptiness(a) || forall change <- changes :: InsertsAt(change, a.from) ==> change.insert == []
  }

  /** The diamond. */
  lemma {:induction false} RebaseDiamond(a: Acceptance, insertText: Text, changes: seq<Change>)
    requires a.Valid() && AreValidNonOverlapping(|a.original|, a.Then(insertText, changes))
    requires Agreeing(a, changes)
    ensures SameText(a, insertText, changes)
  {
    hide SameText, AreValidNonOverlapping;
    SameTextWithout(a, insertText, changes);
    ActiveMembers(changes, a.from);
    RebaseWithoutTie(a, insertText, if SameEmptiness(a) then changes else Active(changes, a.from));
  }

  lemma {:induction false} LowUnmoved(a: Acceptance, changes: seq<Change>)
    requires a.Valid() && Placed(a, changes)
    ensures Low(MovedAll(changes, a.from, a.Delta()), a.from) == Low(changes, a.from)
    ensures forall change <- MovedAll(changes, a.from, a.Delta()) :: change.from <= change.to
    ensures forall change <- MovedAll(changes, a.from, a.Delta()) ::
      a.to > a.from && InsertsAt(change, a.from) ==> change in changes
    ensures a.to > a.from ==>
      forall change <- changes :: InsertsAt(change, a.from) ==> change in MovedAll(changes, a.from, a.Delta())
  {
    if changes != [] {
      var moved := MovedAll(changes, a.from, a.Delta());
      assert changes == [changes[0]] + changes[1..] && changes[0] in changes;
      assert moved == [moved[0]] + MovedAll(changes[1..], a.from, a.Delta());
      LowUnmoved(a, changes[1..]);
    }
  }

  /** Where the completion replaces nothing, its text comes first at its place. */
  lemma {:induction false} EmptySide(doc: Text, insertText: Text, changes: seq<Change>, at: nat)
    returns (behind: Text)
    requires at <= |doc| && Ascending(|doc|, Sort([Change(at, at, insertText)] + changes), 0)
    requires forall change <- changes :: change.from <= change.to
    ensures Ascending(at, Sort(Low(changes, at)), 0)
    ensures Apply(doc, Sort([Change(at, at, insertText)] + changes), 0)
         == TextBefore(doc, Sort(Low(changes, at)), 0, at) + insertText + behind
  {
    hide Apply, TextBefore, Sort, Low, High, Ascending;
    var completion, high := Change(at, at, insertText), Sort(High(changes, at));
    EmptyCompletionFirst(changes, completion, at);
    FirstAtPlace(doc, Sort(Low(changes, at)), completion, high, 0, at);
    behind := Apply(doc, high, at);
  }

  ghost predicate IsFirst(first: Change, changes: seq<Change>, at: int) {
    Sort(High(changes, at)) != [] && first == Sort(High(changes, at))[0]
  }

  lemma {:induction false} FirstInsertion(changes: seq<Change>, at: int, insertion: Change) returns (first: Change)
    requires forall change <- changes :: change.from <= change.to
    requires insertion in changes && InsertsAt(insertion, at)
    ensures IsFirst(first, changes, at) && first in changes && InsertsAt(first, at)
  {
    InsertionFirst(changes, Change(at, at + 1, []), at, insertion);
    first := Sort(High(changes, at))[0];
  }

  /** Where it replaces something, the insertions at its place come first. */
  lemma {:induction false} FullSide(
      doc: Text, completion: Change, changes: seq<Change>, at: nat, insertion: Change)
    returns (first: Change, behind: Text)
    requires completion.from == at < completion.to
    requires at <= |doc| && Ascending(|doc|, Sort([completion] + changes), 0)
    requires forall change <- changes :: change.from <= change.to
    requires insertion in changes && InsertsAt(insertion, at)
    ensures IsFirst(first, changes, at)
    ensures Ascending(at, Sort(Low(changes, at)), 0)
    ensures Apply(doc, Sort([completion] + changes), 0)
         == TextBefore(doc, Sort(Low(changes, at)), 0, at) + first.insert + behind
  {
    hide Apply, TextBefore, Sort, Low, High, Ascending, Insert;
    InsertionFirst(changes, completion, at, insertion);
    var high := Sort(High(changes, at));
    var rest := Insert(completion, high[1..]);
    first := high[0];
    FirstAtPlace(doc, Sort(Low(changes, at)), first, rest, 0, at);
    behind := Apply(doc, rest, first.to);
  }

  lemma {:induction false} DifferentNext(before: Text, x: Text, y: Text, restX: Text, restY: Text)
    requires x != [] && y != [] && x[0] != y[0]
    ensures before + x + restX != before + y + restY
  {
    assert (before + x + restX)[|before|] == x[0];
    assert (before + y + restY)[|before|] == y[0];
  }

  /**
    An insertion of something ties with a completion that became empty, or non-empty: some text of
    the completion comes out differently.
    */
  lemma {:induction false} TieShows(a: Acceptance, changes: seq<Change>, insertion: Change) returns (insertText: Text)
    requires a.Valid() && Placed(a, changes) && !SameEmptiness(a)
    requires insertion in changes && InsertsAt(insertion, a.from)
    requires forall change <- changes :: InsertsAt(change, a.from) ==> change.insert != []
    ensures !SameText(a, insertText, changes)
  {
    hide Sort, Low, High, MovedAll, Ascending, Apply, TextBefore, Placed, SameAround;
    var at, moved := a.from, MovedAll(changes, a.from, a.Delta());
    LowUnmoved(a, changes);
    PlacedRanges(a, changes);
    if a.to > at {
      assert insertion in moved;
      var first := FirstInsertion(moved, at, insertion);
      insertText := [if first.insert[0] == 0 then 1 else 0];
      if SameText(a, insertText, changes) {
        var behindEmpty := EmptySide(a.original, insertText, changes, at);
        var again, behindFull := FullSide(a.accepted, Change(at, a.to, insertText), moved, at, insertion);
        var low := Sort(Low(changes, at));
        SameTextBefore(a, low, 0);
        DifferentNext(TextBefore(a.original, low, 0, at), insertText, first.insert, behindEmpty, behindFull);
      }
    } else {
      var first := FirstInsertion(changes, at, insertion);
      insertText := [if first.insert[0] == 0 then 1 else 0];
      if SameText(a, insertText, changes) {
        var behindEmpty := EmptySide(a.accepted, insertText, moved, at);
        var again, behindFull := FullSide(a.original, Change(at, a.originalTo, insertText), changes, at, insertion);
        var low := Sort(Low(changes, at));
        SameTextBefore(a, low, 0);
        DifferentNext(TextBefore(a.original, low, 0, at), insertText, first.insert, behindEmpty, behindFull);
      }
    }
  }

  lemma {:induction false} PlacedRanges(a: Acceptance, changes: seq<Change>)
    requires Placed(a, changes)
    ensures forall change <- changes :: change.from <= change.to
  {
  }

  /**
    Exactly when the diamond holds for every text of the completion. Whether the edit set is valid
    does not depend on that text.
    */
  lemma {:induction false} DiamondExactly(a: Acceptance, changes: seq<Change>)
    requires a.Valid() && AreValidNonOverlapping(|a.original|, a.Then([], changes))
    ensures (forall insertText: Text :: SameText(a, insertText, changes)) <==> Agreeing(a, changes)
  {
    hide SameText, AreValidNonOverlapping;
    forall insertText: Text | Agreeing(a, changes) ensures SameText(a, insertText, changes) {
      ValidWithout(a, [], insertText, changes);
      RebaseDiamond(a, insertText, changes);
    }
    if !Agreeing(a, changes) {
      var active := Active(changes, a.from);
      ActiveMembers(changes, a.from);
      var insertion :| insertion in changes && InsertsAt(insertion, a.from) && insertion.insert != [];
      ValidWithout(a, [], [], changes);
      ValidIsPlaced(a, [], active);
      var insertText := TieShows(a, active, insertion);
      ValidWithout(a, [], insertText, changes);
      SameTextWithout(a, insertText, changes);
      assert !SameText(a, insertText, changes);
    }
  }
}
