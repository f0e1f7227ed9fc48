/** The recent connections of ios/WarrenSettings/RecentConnectionsRepository.swift. */
module Recents {
  import opened Options

  datatype CustomList = CustomList(listId: int, isList: bool)
  datatype Relays = Relays(locations: seq<string>, selection: Option<CustomList>)
  datatype Constraint = Any | Only(relays: Relays) {
    function Value(): Option<Relays> {
      if Any? then None else Some(relays)
    }

    function IsList(): bool {
      Only? && relays.selection.Some? && relays.selection.value.isList
    }

    function Selection(): Option<CustomList> {
      if Only? then relays.selection else None
    }

    function Locations(): Option<seq<string>> {
      if Only? then Some(relays.locations) else None
    }
  }

  type Items = seq<Constraint>

  /** The test of `isDuplicate` on two items. */
  predicate Same(item: Constraint, recent: Constraint) {
    if recent.Selection().Some? && item.Selection().Some? && recent.Selection().value.listId == item.Selection().value.listId then
      (item.IsList() && recent.IsList()) || recent.Value() == item.Value()
    else if recent.Locations() == item.Locations() then !(item.IsList() || recent.IsList())
    else false
  }

  predicate IsDuplicate(current: Items, recent: Constraint) {
    exists i :: 0 <= i < |current| && Same(current[i], recent)
  }

  /** What an item stands for: a whole custom list, or a choice of locations. */
  datatype Key = ListKey(listId: int) | LocationKey(locations: Option<seq<string>>)

  function KeyOf(c: Constraint): Key {
    if c.IsList() then ListKey(c.relays.selection.value.listId) else LocationKey(c.Locations())
  }

  /** Two items are duplicates exactly when they stand for the same, so the test is an equivalence. */
  lemma SameIsKeyEquality(a: Constraint, b: Constraint)
    ensures Same(a, b) <==> KeyOf(a) == KeyOf(b)
  {
  }

  lemma SameIsEquivalence(a: Constraint, b: Constraint, c: Constraint)
    ensures Same(a, a)
    ensures Same(a, b) ==> Same(b, a)
    ensures Same(a, b) && Same(b, c) ==> Same(a, c)
  {
    SameIsKeyEquality(a, b);
    SameIsKeyEquality(b, a);
    SameIsKeyEquality(b, c);
    SameIsKeyEquality(a, c);
  }

  // ----- lists without duplicates

  function Take(s: Items, n: nat): (r: Items)
    ensures |r| == if |s| <= n then |s| else n
  {
    if |s| <= n then s else s[..n]
  }

  /** The loop's form: an item joins unless an earlier one stands for the same. */
  function Deduped(s: Items): (r: Items)
    decreases |s|
  {
    if s == [] then []
    else
      var before := Deduped(s[..|s| - 1]);
      if IsDuplicate(before, s[|s| - 1]) then before else before + [s[|s| - 1]]
  }

  /** The items that do not stand for `k`. */
  function Except(s: Items, k: Key): (r: Items)
    ensures |r| <= |s|
  {
    if s == [] then [] else if KeyOf(s[0]) == k then Except(s[1..], k) else [s[0]] + Except(s[1..], k)
  }

  /** The reference: the first item, then the distinct classes of the rest without its class. */
  function Distinct(s: Items): (r: Items)
    ensures |r| <= |s|
  {
    if s == [] then [] else [s[0]] + Except(Distinct(s[1..]), KeyOf(s[0]))
  }

  ghost predicate PairwiseDistinct(s: Items) {
    forall i, j :: 0 <= i < j < |s| ==> KeyOf(s[i]) != KeyOf(s[j])
  }

  ghost predicate Lists(s: Items, k: Key) {
    exists i :: 0 <= i < |s| && KeyOf(s[i]) == k
  }

  /** A list that keeps the order of another. */
  ghost predicate Subsequence(a: Items, b: Items) {
    if a == [] then true
    else if b == [] then false
    else (a[0] == b[0] && Subsequence(a[1..], b[1..])) || Subsequence(a, b[1..])
  }

  // ----- the operations

  datatype Store = Store(isEnabled: bool, entry: Items, exit: Items)

  function InsertAtZero(max: nat, recents: Items, recent: Constraint): (r: Items) {
    Take(Deduped([recent] + recents), max)
  }

  function ClearItem(c: Constraint, id: int): Option<Constraint> {
    if c.Any? then None
    else if c.relays.selection.None? || c.relays.selection.value.listId != id then Some(c)
    else if c.relays.selection.value.isList then None
    else Some(Only(Relays(c.relays.locations, None)))
  }

  function Cleared(s: Items, id: int): (r: Items)
    ensures |r| <= |s|
  {
    if s == [] then []
    else
      match ClearItem(s[0], id)
      case None => Cleared(s[1..], id)
      case Some(c) => [c] + Cleared(s[1..], id)
  }

  function Updated(max: nat, recents: Items, id: int): Items {
    Take(Deduped(Take(Cleared(recents, id), max)), max)
  }

  function Enabled(entry: Option<Constraint>, exit: Constraint): Store {
    Store(true, if entry.Some? then [entry.value] else [], [exit])
  }

  function Added(max: nat, s: Store, entry: Constraint, exit: Constraint): Store
    requires s.isEnabled
  {
    Store(true, InsertAtZero(max, s.entry, entry), InsertAtZero(max, s.exit, exit))
  }

  function Deleted(max: nat, s: Store, id: int): Store {
    Store(true, Updated(max, s.entry, id), Updated(max, s.exit, id))
  }

  const DISABLED: Store := Store(false, [], [])

  // ----- runs

  datatype Op =
    | Enable(entry: Option<Constraint>, exit: Constraint)
    | Disable
    | Add(newEntry: Constraint, newExit: Constraint)
    | DeleteCustomList(id: int)

  /** One operation whose store calls succeed: nothing is stored before the first write. */
  function Apply(max: nat, s: Option<Store>, op: Op): Option<Store> {
    match op
    case Enable(entry, exit) => Some(Enabled(entry, exit))
    case Disable => Some(DISABLED)
    case Add(entry, exit) => if s.Some? && s.value.isEnabled then Some(Added(max, s.value, entry, exit)) else s
    case DeleteCustomList(id) => if s.Some? then Some(Deleted(max, s.value, id)) else s
  }

  function Run(max: nat, s: Option<Store>, ops: seq<Op>): Option<Store>
    decreases |ops|
  {
    if ops == [] then s else Run(max, Apply(max, s, ops[0]), ops[1..])
  }

  // ----- the repository

  datatype Failure = RecentsDisabled | StoreFailed
  datatype Outcome = Success(store: Store) | Failed(failure: Failure)

  /** What an operation announces, given whether the store can be read and written. */
  function Attempt(max: nat, s: Option<Store>, op: Op, readable: bool, writable: bool): Outcome {
    if (op.Add? || op.DeleteCustomList?) && (!readable || s.None?) then Failed(StoreFailed)
    else if op.Add? && !s.value.isEnabled then Failed(RecentsDisabled)
    else if !writable then Failed(StoreFailed)
    else Success(Apply(max, s, op).value)
  }

  /** An operation changes the store exactly when it announces success, and then to what it announces. */
  lemma SuccessIsApplied(max: nat, s: Option<Store>, op: Op)
    ensures Apply(max, s, op) ==
      match Attempt(max, s, op, true, true)
      case Success(value) => Some(value)
      case Failed(_) => s
  {
  }

  class RecentConnectionsRepository {
    const maxLimit: nat
    var store: Option<Store>
    var published: seq<Outcome>

    constructor (maxLimit: nat)
      ensures this.maxLimit == maxLimit && store == None && published == []
    {
      this.maxLimit := maxLimit;
      store := None;
      published := [];
    }

    /** Stores and announces, or announces the failure. */
    method Write(value: Store, writable: bool)
      modifies this
      ensures store == (if writable then Some(value) else old(store))
      ensures published == old(published) + [if writable then Success(value) else Failed(StoreFailed)]
    {
      if writable {
        store := Some(value);
        published := published + [Success(value)];
      } else {
        published := published + [Failed(StoreFailed)];
      }
    }

    /** The operation's effect, and the one outcome it announces. */
    ghost predicate Follows(before: Option<Store>, said: seq<Outcome>, op: Op, readable: bool, writable: bool)
      reads this
    {
      var outcome := Attempt(maxLimit, before, op, readable, writable);
      && store == (if outcome.Success? then Some(outcome.store) else before)
      && published == said + [outcome]
    }

    method DisableRecents(writable: bool)
      modifies this
      ensures Follows(old(store), old(published), Disable, true, writable)
    {
      Write(Store(false, [], []), writable);
    }

    method EnableRecents(entry: Option<Constraint>, exit: Constraint, writable: bool)
      modifies this
      ensures Follows(old(store), old(published), Enable(entry, exit), true, writable)
    {
      Write(Store(true, if entry.Some? then [entry.value] else [], [exit]), writable);
    }

    method DropDuplicates(recents: Items) returns (result: Items)
      ensures result == Deduped(recents)
    {
      result := [];
      for i := 0 to |recents|
        invariant result == Deduped(recents[..i])
      {
        assert recents[..i + 1][..i] == recents[..i];
        if !IsDuplicate(result, recents[i]) {
          result := result + [recents[i]];
        }
      }
      assert recents[..|recents|] == recents;
    }

    method InsertFirst(recents: Items, recent: Constraint) returns (r: Items)
      ensures r == InsertAtZero(maxLimit, recents, recent)
    {
      var all := [recent] + recents;
      var result := [recent];
      assert all[..1] == [recent] && all[..1][..0] == [];
      for i := 0 to |recents|
        invariant result == Deduped(all[..i + 1])
      {
        assert all[..i + 2][..i + 1] == all[..i + 1] && all[i + 1] == recents[i];
        if !IsDuplicate(result, recents[i]) {
          result := result + [recents[i]];
        }
      }
      assert all[..|recents| + 1] == all;
      r := Take(result, maxLimit);
    }

    method AddRecent(entry: Constraint, exit: Constraint, readable: bool, writable: bool)
      modifies this
      ensures Follows(old(store), old(published), Add(entry, exit), readable, writable)
    {
      if !readable || store.None? {
        published := published + [Failed(StoreFailed)];
        return;
      }
      var current := store.value;
      if !current.isEnabled {
        published := published + [Failed(RecentsDisabled)];
        return;
      }
      var entries := InsertFirst(current.entry, entry);
      var exits := InsertFirst(current.exit, exit);
      Write(Store(true, entries, exits), writable);
    }

    method Update(recents: Items, id: int) returns (r: Items)
      ensures r == Updated(maxLimit, recents, id)
    {
      var cleared := Take(Cleared(recents, id), maxLimit);
      var deduped := DropDuplicates(cleared);
      r := Take(deduped, maxLimit);
    }

    method DeleteList(id: int, readable: bool, writable: bool)
      modifies this
      ensures Follows(old(store), old(published), DeleteCustomList(id), readable, writable)
    {
      if !readable || store.None? {
        published := published + [Failed(StoreFailed)];
        return;
      }
      var entries := Update(store.value.entry, id);
      var exits := Update(store.value.exit, id);
      Write(Store(true, entries, exits), writable);
    }
  }
}
