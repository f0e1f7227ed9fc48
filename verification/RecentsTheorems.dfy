/** The stored list against the history of selections. */
module RecentsTheorems {
  import opened Options
  import opened Recents

  // ----- the loop keeps the first of each class

  lemma {:induction false} ExceptAppend(a: Items, b: Items, k: Key)
    ensures Except(a + b, k) == Except(a, k) + Except(b, k)
  {
    if a == [] {
      assert a + b == b;
    } else {
      assert (a + b)[0] == a[0] && (a + b)[1..] == a[1..] + b;
      ExceptAppend(a[1..], b, k);
    }
  }

  lemma {:induction false} ExceptLists(s: Items, k: Key, other: Key)
    ensures Lists(Except(s, k), other) <==> Lists(s, other) && other != k
  {
    if s != [] {
      ExceptLists(s[1..], k, other);
      ListsCons(s[0], s[1..], other);
      assert [s[0]] + s[1..] == s;
      ListsCons(s[0], Except(s[1..], k), other);
    }
  }

  lemma ListsCons(x: Constraint, s: Items, k: Key)
    ensures Lists([x] + s, k) <==> KeyOf(x) == k || Lists(s, k)
  {
    if KeyOf(x) == k {
      assert ([x] + s)[0] == x;
    } else if Lists(s, k) {
      var i :| 0 <= i < |s| && KeyOf(s[i]) == k;
      assert ([x] + s)[i + 1] == s[i];
    }
  }

  lemma {:induction false} DistinctLists(s: Items, k: Key)
    ensures Lists(Distinct(s), k) <==> Lists(s, k)
  {
    if s != [] {
      DistinctLists(s[1..], k);
      ListsCons(s[0], s[1..], k);
      assert [s[0]] + s[1..] == s;
      ExceptLists(Distinct(s[1..]), KeyOf(s[0]), k);
      ListsCons(s[0], Except(Distinct(s[1..]), KeyOf(s[0])), k);
    }
  }

  lemma DuplicateIsListed(s: Items, x: Constraint)
    ensures IsDuplicate(s, x) <==> Lists(s, KeyOf(x))
  {
    forall i | 0 <= i < |s|
      ensures Same(s[i], x) <==> KeyOf(s[i]) == KeyOf(x)
    {
      SameIsKeyEquality(s[i], x);
    }
  }

  /** The reference read from the other end. */
  lemma {:induction false} DistinctSnoc(s: Items, x: Constraint)
    ensures Distinct(s + [x]) == if Lists(s, KeyOf(x)) then Distinct(s) else Distinct(s) + [x]
  {
    if s == [] {
      assert s + [x] == [x];
    } else {
      var k := KeyOf(s[0]);
      assert (s + [x])[0] == s[0] && (s + [x])[1..] == s[1..] + [x];
      DistinctSnoc(s[1..], x);
      ListsCons(s[0], s[1..], KeyOf(x));
      assert [s[0]] + s[1..] == s;
      ExceptAppend(Distinct(s[1..]), [x], k);
      assert Except([x], k) == if KeyOf(x) == k then [] else [x];
    }
  }

  /** The loop computes the reference. */
  lemma {:induction false} DedupedIsDistinct(s: Items)
    ensures Deduped(s) == Distinct(s)
    decreases |s|
  {
    if s != [] {
      var before, x := s[..|s| - 1], s[|s| - 1];
      DedupedIsDistinct(before);
      assert s == before + [x];
      DistinctSnoc(before, x);
      DuplicateIsListed(Distinct(before), x);
      DistinctLists(before, KeyOf(x));
    }
  }

  lemma {:induction false} ExceptKeepsDistinct(s: Items, k: Key)
    requires PairwiseDistinct(s)
    ensures PairwiseDistinct(Except(s, k)) && !Lists(Except(s, k), k)
  {
    ExceptLists(s, k, k);
    if s != [] {
      ExceptKeepsDistinct(s[1..], k);
      if KeyOf(s[0]) != k {
        ExceptLists(s[1..], k, KeyOf(s[0]));
        UnlistedHead(s);
        DistinctCons(s[0], Except(s[1..], k));
      }
    }
  }

  lemma UnlistedHead(s: Items)
    requires s != [] && PairwiseDistinct(s)
    ensures !Lists(s[1..], KeyOf(s[0]))
  {
  }

  lemma DistinctCons(x: Constraint, s: Items)
    requires PairwiseDistinct(s) && !Lists(s, KeyOf(x))
    ensures PairwiseDistinct([x] + s)
  {
  }

  lemma {:induction false} DistinctIsDistinct(s: Items)
    ensures PairwiseDistinct(Distinct(s))
  {
    if s != [] {
      DistinctIsDistinct(s[1..]);
      ExceptKeepsDistinct(Distinct(s[1..]), KeyOf(s[0]));
      DistinctCons(s[0], Except(Distinct(s[1..]), KeyOf(s[0])));
    }
  }

  lemma {:induction false} ExceptOfUnlisted(s: Items, k: Key)
    requires !Lists(s, k)
    ensures Except(s, k) == s
  {
    if s != [] {
      assert [s[0]] + s[1..] == s;
      ListsCons(s[0], s[1..], k);
      ExceptOfUnlisted(s[1..], k);
    }
  }

  lemma {:induction false} DistinctOfDistinct(s: Items)
    requires PairwiseDistinct(s)
    ensures Distinct(s) == s
  {
    if s != [] {
      DistinctOfDistinct(s[1..]);
      UnlistedHead(s);
      ExceptOfUnlisted(s[1..], KeyOf(s[0]));
    }
  }

  // ----- truncating at every step

  lemma TakeCons(x: Constraint, s: Items, n: nat)
    requires n > 0
    ensures Take([x] + s, n) == [x] + Take(s, n - 1)
  {
  }

  /** A list without duplicates loses at most one item to `Except`, so cutting first loses nothing that survives. */
  lemma {:induction false} ExceptOfTake(s: Items, k: Key, n: nat)
    requires PairwiseDistinct(s)
    ensures Take(Except(Take(s, n + 1), k), n) == Take(Except(s, k), n)
    decreases |s|
  {
    if s != [] && n > 0 {
      assert s == [s[0]] + s[1..];
      TakeCons(s[0], s[1..], n + 1);
      assert Take(s, n + 1)[1..] == Take(s[1..], n);
      if KeyOf(s[0]) == k {
        ExceptOfHead(s, n);
      } else {
        ExceptOfTake(s[1..], k, n - 1);
        TakeCons(s[0], Except(s[1..], k), n);
        TakeCons(s[0], Except(Take(s[1..], n), k), n);
      }
    } else if s != [] {
      assert Take(Except(s, k), 0) == [] == Take(Except(Take(s, 1), k), 0);
    }
  }

  lemma ExceptOfHead(s: Items, n: nat)
    requires PairwiseDistinct(s) && s != [] && Take(s, n + 1) == [s[0]] + Take(s[1..], n)
    ensures Take(Except(Take(s, n + 1), KeyOf(s[0])), n) == Take(Except(s, KeyOf(s[0])), n)
  {
    var k := KeyOf(s[0]);
    UnlistedHead(s);
    ExceptOfUnlisted(s[1..], k);
    TakeUnlisted(s[1..], k, n);
    ExceptOfUnlisted(Take(s[1..], n), k);
    assert ([s[0]] + Take(s[1..], n))[1..] == Take(s[1..], n);
  }

  lemma TakeUnlisted(s: Items, k: Key, n: nat)
    requires !Lists(s, k)
    ensures !Lists(Take(s, n), k)
  {
  }

  lemma TakeDistinct(s: Items, n: nat)
    requires PairwiseDistinct(s)
    ensures PairwiseDistinct(Take(s, n))
  {
  }

  /** Inserting into the truncated list is truncating the list of the longer history. */
  lemma InsertExtendsHistory(max: nat, history: Items, recent: Constraint)
    ensures InsertAtZero(max, Take(Distinct(history), max), recent) == Take(Distinct([recent] + history), max)
  {
    var d := Distinct(history);
    var kept := Take(d, max);
    DedupedIsDistinct([recent] + kept);
    DistinctIsDistinct(history);
    TakeDistinct(d, max);
    DistinctOfDistinct(kept);
    assert ([recent] + kept)[1..] == kept && ([recent] + history)[1..] == history;
    if max > 0 {
      TakeCons(recent, Except(kept, KeyOf(recent)), max);
      TakeCons(recent, Except(d, KeyOf(recent)), max);
      ExceptOfTake(d, KeyOf(recent), max - 1);
    }
  }

  /** What was added, the latest first. */
  function Selections(adds: seq<(Constraint, Constraint)>, first: Items, exit: bool): Items
    decreases |adds|
  {
    if adds == [] then first
    else Selections(adds[1..], [if exit then adds[0].1 else adds[0].0] + first, exit)
  }

  function Adds(adds: seq<(Constraint, Constraint)>): seq<Op> {
    if adds == [] then [] else [Add(adds[0].0, adds[0].1)] + Adds(adds[1..])
  }

  ghost predicate Agrees(max: nat, s: Option<Store>, entries: Items, exits: Items) {
    s == Some(Store(true, Take(Distinct(entries), max), Take(Distinct(exits), max)))
  }

  lemma {:induction false} AddsAgree(max: nat, s: Option<Store>, entries: Items, exits: Items, adds: seq<(Constraint, Constraint)>)
    requires Agrees(max, s, entries, exits)
    ensures Agrees(max, Run(max, s, Adds(adds)), Selections(adds, entries, false), Selections(adds, exits, true))
    decreases |adds|
  {
    if adds != [] {
      InsertExtendsHistory(max, entries, adds[0].0);
      InsertExtendsHistory(max, exits, adds[0].1);
      assert Adds(adds)[1..] == Adds(adds[1..]);
      AddsAgree(max, Apply(max, s, Adds(adds)[0]), [adds[0].0] + entries, [adds[0].1] + exits, adds[1..]);
    }
  }

  function First(entry: Option<Constraint>): Items {
    if entry.Some? then [entry.value] else []
  }

  lemma RunStep(max: nat, s: Option<Store>, op: Op, rest: seq<Op>)
    ensures Run(max, s, [op] + rest) == Run(max, Apply(max, s, op), rest)
  {
    assert ([op] + rest)[1..] == rest;
  }

  lemma ZeroLimit(s: Store, a: (Constraint, Constraint), entries: Items, exits: Items)
    requires s.isEnabled
    ensures Agrees(0, Some(Added(0, s, a.0, a.1)), entries, exits)
  {
  }

  /**
   After `enable` and any additions, the stored lists are the first `max` distinct classes of the
   selections, latest first, exactly when the limit is not zero or something was added: `enable`
   alone does not truncate.
   */
  lemma HistoryExactly(
    max: nat, s: Option<Store>, entry: Option<Constraint>, exit: Constraint, adds: seq<(Constraint, Constraint)>)
    ensures Agrees(max, Run(max, s, [Enable(entry, exit)] + Adds(adds)),
                   Selections(adds, First(entry), false), Selections(adds, [exit], true))
       <==> max > 0 || adds != []
  {
    RunStep(max, s, Enable(entry, exit), Adds(adds));
    var enabled := Apply(max, s, Enable(entry, exit));
    assert Distinct([exit]) == [exit] && Distinct(First(entry)) == First(entry);
    if max > 0 {
      AddsAgree(max, enabled, First(entry), [exit], adds);
    } else if adds != [] {
      ZeroLimit(enabled.value, adds[0], [adds[0].0] + First(entry), [adds[0].1] + [exit]);
      assert Adds(adds)[1..] == Adds(adds[1..]);
      AddsAgree(max, Apply(max, enabled, Adds(adds)[0]), [adds[0].0] + First(entry), [adds[0].1] + [exit], adds[1..]);
    }
  }

  // ----- deleting a custom list

  ghost predicate Mentions(c: Constraint, id: int) {
    c.Only? && c.relays.selection.Some? && c.relays.selection.value.listId == id
  }

  ghost predicate NoneMentions(s: Items, id: int) {
    forall i :: 0 <= i < |s| ==> !Mentions(s[i], id)
  }

  lemma {:induction false} ClearedMentionsNone(s: Items, id: int)
    ensures NoneMentions(Cleared(s, id), id)
  {
    if s != [] {
      ClearedMentionsNone(s[1..], id);
    }
  }

  lemma {:induction false} ExceptMembers(s: Items, k: Key)
    ensures forall c :: c in Except(s, k) <==> c in s && KeyOf(c) != k
  {
    if s != [] {
      ExceptMembers(s[1..], k);
      assert s == [s[0]] + s[1..];
    }
  }

  lemma {:induction false} DistinctMembers(s: Items)
    ensures forall c :: c in Distinct(s) ==> c in s
  {
    if s != [] {
      DistinctMembers(s[1..]);
      ExceptMembers(Distinct(s[1..]), KeyOf(s[0]));
    }
  }

  lemma {:induction false} SubsequenceOfLonger(a: Items, b: Items, c: Items)
    requires Subsequence(a, b) && Subsequence(b, c)
    ensures Subsequence(a, c)
    decreases |c|
  {
    if a != [] && c != [] && b != [] {
      if b[0] == c[0] && Subsequence(b[1..], c[1..]) {
        if a[0] == b[0] && Subsequence(a[1..], b[1..]) {
          SubsequenceOfLonger(a[1..], b[1..], c[1..]);
        } else {
          SubsequenceOfLonger(a, b[1..], c[1..]);
        }
      } else {
        SubsequenceOfLonger(a, b, c[1..]);
      }
    }
  }

  lemma {:induction false} ExceptInOrder(s: Items, k: Key)
    ensures Subsequence(Except(s, k), s)
  {
    if s != [] {
      ExceptInOrder(s[1..], k);
    }
  }

  lemma {:induction false} DistinctInOrder(s: Items)
    ensures Subsequence(Distinct(s), s)
  {
    if s != [] {
      DistinctInOrder(s[1..]);
      ExceptInOrder(Distinct(s[1..]), KeyOf(s[0]));
      SubsequenceOfLonger(Except(Distinct(s[1..]), KeyOf(s[0])), Distinct(s[1..]), s[1..]);
    }
  }

  /** An item that a deletion keeps: one with a value that is not the list itself. */
  predicate Stays(c: Constraint, id: int) {
    c.Only? && KeyOf(c) != ListKey(id)
  }

  /** The same locations, and the same selection unless it is of the deleted list. */
  ghost predicate KeptAs(c: Constraint, kept: Constraint, id: int) {
    && c.Only? && kept.Only? && kept.relays.locations == c.relays.locations
    && kept.relays.selection == if Mentions(c, id) then None else c.relays.selection
  }

  /** Items of `s` that stay, in their order, each without the deleted list. */
  ghost predicate KeptInOrder(r: Items, s: Items, id: int) {
    if r == [] then true
    else if s == [] then false
    else (Stays(s[0], id) && KeptAs(s[0], r[0], id) && KeptInOrder(r[1..], s[1..], id)) || KeptInOrder(r, s[1..], id)
  }

  ghost predicate StaysUnder(s: Items, id: int, k: Key) {
    exists i :: 0 <= i < |s| && Stays(s[i], id) && KeyOf(s[i]) == k
  }

  lemma StaysCons(s: Items, id: int, k: Key)
    requires s != []
    ensures StaysUnder(s, id, k) <==> (Stays(s[0], id) && KeyOf(s[0]) == k) || StaysUnder(s[1..], id, k)
  {
    if i :| 0 <= i < |s[1..]| && Stays(s[1..][i], id) && KeyOf(s[1..][i]) == k {
      assert s[i + 1] == s[1..][i];
    }
  }

  /** Clearing keeps every item that stays, and what it stands for. */
  lemma ClearItemExactly(c: Constraint, id: int)
    ensures ClearItem(c, id).Some? <==> Stays(c, id)
    ensures ClearItem(c, id).Some? ==> KeptAs(c, ClearItem(c, id).value, id) && KeyOf(ClearItem(c, id).value) == KeyOf(c)
  {
  }

  lemma {:induction false} ClearedInOrder(s: Items, id: int)
    ensures KeptInOrder(Cleared(s, id), s, id)
  {
    if s != [] {
      ClearedInOrder(s[1..], id);
      ClearItemExactly(s[0], id);
    }
  }

  lemma {:induction false} ClearedLists(s: Items, id: int, k: Key)
    ensures Lists(Cleared(s, id), k) <==> StaysUnder(s, id, k)
  {
    if s != [] {
      ClearedLists(s[1..], id, k);
      StaysCons(s, id, k);
      ClearItemExactly(s[0], id);
      if Stays(s[0], id) {
        ListsCons(ClearItem(s[0], id).value, Cleared(s[1..], id), k);
      }
    }
  }

  lemma {:induction false} SubsequenceKept(r: Items, cleared: Items, s: Items, id: int)
    requires Subsequence(r, cleared) && KeptInOrder(cleared, s, id)
    ensures KeptInOrder(r, s, id)
    decreases |s|
  {
    if r != [] && s != [] && cleared != [] {
      if Stays(s[0], id) && KeptAs(s[0], cleared[0], id) && KeptInOrder(cleared[1..], s[1..], id) {
        if r[0] == cleared[0] && Subsequence(r[1..], cleared[1..]) {
          SubsequenceKept(r[1..], cleared[1..], s[1..], id);
        } else {
          SubsequenceKept(r, cleared[1..], s[1..], id);
        }
      } else {
        SubsequenceKept(r, cleared, s[1..], id);
      }
    }
  }

  lemma {:induction false} TakeInOrder(s: Items, n: nat)
    ensures Subsequence(Take(s, n), s)
  {
    if s != [] {
      if n > 0 {
        TakeInOrder(s[1..], n - 1);
        assert Take(s, n) == [s[0]] + Take(s[1..], n - 1);
      } else {
        assert Take(s, n) == [];
      }
    }
  }

  lemma UpdatedIs(max: nat, recents: Items, id: int)
    ensures Updated(max, recents, id) == Distinct(Take(Cleared(recents, id), max))
    ensures |recents| <= max ==> Updated(max, recents, id) == Distinct(Cleared(recents, id))
  {
    DedupedIsDistinct(Take(Cleared(recents, id), max));
  }

  lemma UpdatedMentionsNone(max: nat, recents: Items, id: int)
    ensures NoneMentions(Updated(max, recents, id), id)
  {
    var cleared := Take(Cleared(recents, id), max);
    UpdatedIs(max, recents, id);
    ClearedMentionsNone(recents, id);
    DistinctMembers(cleared);
    var r := Updated(max, recents, id);
    forall i | 0 <= i < |r|
      ensures !Mentions(r[i], id)
    {
      assert r[i] in cleared;
      var j :| 0 <= j < |cleared| && cleared[j] == r[i];
      assert !Mentions(cleared[j], id);
    }
  }

  /** What a deletion leaves of a list of recents. */
  ghost predicate Keeps(max: nat, recents: Items, r: Items, id: int) {
    && |r| <= max && PairwiseDistinct(r) && NoneMentions(r, id)
    && KeptInOrder(r, recents, id)
    && (|recents| <= max ==> forall k :: Lists(r, k) <==> StaysUnder(recents, id, k))
  }

  lemma UpdatedKeeps(max: nat, recents: Items, id: int)
    ensures Keeps(max, recents, Updated(max, recents, id), id)
  {
    var cleared := Take(Cleared(recents, id), max);
    var r := Updated(max, recents, id);
    UpdatedIs(max, recents, id);
    DistinctIsDistinct(cleared);
    UpdatedMentionsNone(max, recents, id);
    DistinctInOrder(cleared);
    TakeInOrder(Cleared(recents, id), max);
    SubsequenceOfLonger(r, cleared, Cleared(recents, id));
    ClearedInOrder(recents, id);
    SubsequenceKept(r, Cleared(recents, id), recents, id);
    forall k | |recents| <= max
      ensures Lists(r, k) <==> StaysUnder(recents, id, k)
    {
      DistinctLists(cleared, k);
      ClearedLists(recents, id, k);
    }
  }

  /**
   Deleting a custom list, in the entries as in the exits: what remains are items that were there, in
   their order, with the same locations and without a selection of the deleted list; none mentions it and
   no two stand for the same.  Of a list within the limit exactly the items without a value and the list
   itself are lost.
   */
  lemma DeletionKeeps(max: nat, s: Store, id: int)
    ensures var r := Apply(max, Some(s), DeleteCustomList(id));
      r.Some? && r.value.isEnabled && Keeps(max, s.entry, r.value.entry, id) && Keeps(max, s.exit, r.value.exit, id)
  {
    UpdatedKeeps(max, s.entry, id);
    UpdatedKeeps(max, s.exit, id);
  }

  /** Items that never mentioned the list stay as they are, unless they have no value at all. */
  lemma {:induction false} ClearedKeepsOthers(s: Items, id: int)
    requires NoneMentions(s, id) && forall i :: 0 <= i < |s| ==> s[i].Only?
    ensures Cleared(s, id) == s
  {
    if s != [] {
      ClearedKeepsOthers(s[1..], id);
    }
  }

  /** Deleting a list that nothing mentions changes nothing, for a list of items with values. */
  lemma DeletionOfUnmentioned(max: nat, recents: Items, id: int)
    requires PairwiseDistinct(recents) && |recents| <= max
    requires NoneMentions(recents, id) && forall i :: 0 <= i < |recents| ==> recents[i].Only?
    ensures Updated(max, recents, id) == recents
  {
    ClearedKeepsOthers(recents, id);
    DedupedIsDistinct(recents);
    DistinctOfDistinct(recents);
  }

  // ----- every run

  ghost predicate Orderly(max: nat, s: Items) {
    |s| <= (if max == 0 then 1 else max) && PairwiseDistinct(s)
  }

  ghost predicate StoreOrderly(max: nat, s: Option<Store>) {
    s.Some? ==> Orderly(max, s.value.entry) && Orderly(max, s.value.exit) && (!s.value.isEnabled ==> s.value == DISABLED)
  }

  lemma InsertOrderly(max: nat, recents: Items, recent: Constraint)
    ensures Orderly(max, InsertAtZero(max, recents, recent))
  {
    DedupedIsDistinct([recent] + recents);
    DistinctIsDistinct([recent] + recents);
    TakeDistinct(Distinct([recent] + recents), max);
  }

  lemma UpdateOrderly(max: nat, recents: Items, id: int)
    ensures Orderly(max, Updated(max, recents, id))
  {
    var cleared := Take(Cleared(recents, id), max);
    DedupedIsDistinct(cleared);
    DistinctIsDistinct(cleared);
    TakeDistinct(Distinct(cleared), max);
  }

  lemma ApplyOrderly(max: nat, s: Option<Store>, op: Op)
    requires StoreOrderly(max, s)
    ensures StoreOrderly(max, Apply(max, s, op))
  {
    if s.Some? {
      match op
      case Add(entry, exit) =>
        InsertOrderly(max, s.value.entry, entry);
        InsertOrderly(max, s.value.exit, exit);
      case DeleteCustomList(id) =>
        UpdateOrderly(max, s.value.entry, id);
        UpdateOrderly(max, s.value.exit, id);
      case _ =>
    }
  }

  /** Whatever the operations, the lists stay within the limit and without duplicates. */
  lemma {:induction false} RunsOrderly(max: nat, s: Option<Store>, ops: seq<Op>)
    requires StoreOrderly(max, s)
    ensures StoreOrderly(max, Run(max, s, ops))
    decreases |ops|
  {
    if ops != [] {
      ApplyOrderly(max, s, ops[0]);
      RunsOrderly(max, Apply(max, s, ops[0]), ops[1..]);
    }
  }

  /** Deleting a custom list switches a disabled store on; additions then succeed again. */
  lemma DeletionEnables(max: nat, id: int)
    ensures Apply(max, Some(DISABLED), DeleteCustomList(id)) == Some(Store(true, [], []))
  {
  }

  // ----- failing stores

  /** Which operations succeed, and when recents are reported as disabled. */
  lemma OutcomeExactly(max: nat, s: Option<Store>, op: Op, readable: bool, writable: bool)
    ensures Attempt(max, s, op, readable, writable).Success? <==>
      && writable
      && (op.Add? || op.DeleteCustomList? ==> readable && s.Some?)
      && (op.Add? ==> s.value.isEnabled)
    ensures Attempt(max, s, op, readable, writable) == Failed(RecentsDisabled) <==>
      op.Add? && readable && s.Some? && !s.value.isEnabled
  {
  }

  /** An operation with what the store allows at the time. */
  datatype Try = Try(op: Op, readable: bool, writable: bool)

  function Outcomes(max: nat, s: Option<Store>, tries: seq<Try>): Option<Store>
    decreases |tries|
  {
    if tries == [] then s
    else
      var outcome := Attempt(max, s, tries[0].op, tries[0].readable, tries[0].writable);
      Outcomes(max, if outcome.Success? then Some(outcome.store) else s, tries[1..])
  }

  /** The operations that succeed. */
  function Succeeded(max: nat, s: Option<Store>, tries: seq<Try>): seq<Op>
    decreases |tries|
  {
    if tries == [] then []
    else
      var outcome := Attempt(max, s, tries[0].op, tries[0].readable, tries[0].writable);
      if outcome.Success? then [tries[0].op] + Succeeded(max, Some(outcome.store), tries[1..])
      else Succeeded(max, s, tries[1..])
  }

  lemma OutcomeIsApplied(max: nat, s: Option<Store>, t: Try)
    requires Attempt(max, s, t.op, t.readable, t.writable).Success?
    ensures Some(Attempt(max, s, t.op, t.readable, t.writable).store) == Apply(max, s, t.op)
  {
    SuccessIsApplied(max, s, t.op);
    assert Attempt(max, s, t.op, t.readable, t.writable) == Attempt(max, s, t.op, true, true);
  }

  /** Operations that fail, on a store that cannot be read or written, leave no trace: what is stored is what
      the successful ones make, so the laws above hold of those. */
  lemma {:induction false} FailuresLeaveNoTrace(max: nat, s: Option<Store>, tries: seq<Try>)
    ensures Outcomes(max, s, tries) == Run(max, s, Succeeded(max, s, tries))
    decreases |tries|
  {
    if tries != [] {
      var t := tries[0];
      var outcome := Attempt(max, s, t.op, t.readable, t.writable);
      if outcome.Success? {
        OutcomeIsApplied(max, s, t);
        FailuresLeaveNoTrace(max, Some(outcome.store), tries[1..]);
        RunStep(max, s, t.op, Succeeded(max, Some(outcome.store), tries[1..]));
      } else {
        FailuresLeaveNoTrace(max, s, tries[1..]);
      }
    }
  }
}
