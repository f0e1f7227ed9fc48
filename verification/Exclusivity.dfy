/**
 The exclusivity manager (ios/Operations/AsyncOperationQueue.swift): per category, the operations
 that were added and not yet removed, in order of arrival.
 */
module Exclusivity {
  import opened Lifecycle

  type Lists = map<string, seq<OpId>>

  function Categories(conditions: seq<Condition>): set<string> {
    set condition | condition in conditions && condition.MutuallyExclusive? :: condition.category
  }

  function Queued(lists: Lists, category: string): seq<OpId> {
    if category in lists then lists[category] else []
  }

  /** The operations a newcomer is made to depend on. */
  function Tails(lists: Lists, categories: set<string>): set<OpId> {
    set category | category in categories && Queued(lists, category) != [] ::
      Queued(lists, category)[|Queued(lists, category)| - 1]
  }

  function Added(lists: Lists, id: OpId, categories: set<string>): Lists {
    map category | category in lists.Keys + categories ::
      if category in categories then Queued(lists, category) + [id] else lists[category]
  }

  /** `ids` without the first occurrence of `id`. */
  function Without(ids: seq<OpId>, id: OpId): seq<OpId> {
    if ids == [] then []
    else if ids[0] == id then ids[1..]
    else [ids[0]] + Without(ids[1..], id)
  }

  function Removed(lists: Lists, id: OpId, categories: set<string>): Lists {
    map category | category in lists && (category in categories ==> Without(lists[category], id) != []) ::
      if category in categories then Without(lists[category], id) else lists[category]
  }

  lemma WithoutAt(ids: seq<OpId>, id: OpId, k: nat)
    requires k < |ids| && ids[k] == id && id !in ids[..k]
    ensures Without(ids, id) == ids[..k] + ids[k + 1..]
  {
    if k > 0 {
      assert ids[1..][..k - 1] == ids[..k][1..];
      WithoutAt(ids[1..], id, k - 1);
    }
  }

  lemma WithoutAbsent(ids: seq<OpId>, id: OpId)
    requires id !in ids
    ensures Without(ids, id) == ids
  {
  }

  function Last(ids: seq<OpId>): set<OpId> {
    if ids == [] then {} else {ids[|ids| - 1]}
  }

  lemma AddedElsewhere(lists: Lists, id: OpId, done: set<string>, category: string)
    requires category !in done
    ensures Queued(Added(lists, id, done), category) == Queued(lists, category)
  {
  }

  lemma AddedStep(lists: Lists, id: OpId, done: set<string>, category: string)
    requires category !in done
    ensures Added(lists, id, done)[category := Queued(lists, category) + [id]] == Added(lists, id, done + {category})
  {
  }

  lemma TailsStep(lists: Lists, done: set<string>, category: string)
    ensures Tails(lists, done) + Last(Queued(lists, category)) == Tails(lists, done + {category})
  {
  }

  /** One finish callback for each category. */
  function Callbacks(id: OpId, categories: set<string>): set<(OpId, string)> {
    set category | category in categories :: (id, category)
  }

  lemma CallbacksStep(id: OpId, done: set<string>, category: string)
    ensures Callbacks(id, done) + {(id, category)} == Callbacks(id, done + {category})
  {
  }

  class ExclusivityManager {
    var operationsByCategory: Lists

    /** The finish callbacks attached so far, by the category in whose round each was attached; each
        removes its operation from all its categories. */
    var callbacks: set<(OpId, string)>

    constructor ()
      ensures operationsByCategory == map[] && callbacks == {}
    {
      operationsByCategory := map[];
      callbacks := {};
    }

    /** Queues `id` behind every operation of its categories, attaches one finish callback per category,
        and returns the dependencies added to it. */
    method AddOperation(id: OpId, categories: set<string>) returns (edges: set<OpId>)
      modifies this
      ensures operationsByCategory == Added(old(operationsByCategory), id, categories)
      ensures edges == Tails(old(operationsByCategory), categories)
      ensures callbacks == old(callbacks) + Callbacks(id, categories)
    {
      ghost var before, said, done: set<string> := operationsByCategory, callbacks, {};
      edges := {};
      var remaining := categories;
      while remaining != {}
        invariant done + remaining == categories && done !! remaining
        invariant operationsByCategory == Added(before, id, done)
        invariant edges == Tails(before, done)
        invariant callbacks == said + Callbacks(id, done)
        decreases remaining
      {
        var category :| category in remaining;
        AddedElsewhere(before, id, done, category);
        AddedStep(before, id, done, category);
        TailsStep(before, done, category);
        var operations := QueueBehind(id, category);
        edges := edges + Last(operations);
        CallbacksStep(id, done, category);
        callbacks := callbacks + {(id, category)};
        done, remaining := done + {category}, remaining - {category};
      }
      assert done == categories;
    }

    /** Appends `id` to the list of one category and returns the list as it was. */
    method QueueBehind(id: OpId, category: string) returns (operations: seq<OpId>)
      modifies this`operationsByCategory
      ensures operations == Queued(old(operationsByCategory), category)
      ensures operationsByCategory == old(operationsByCategory)[category := operations + [id]]
    {
      operations := if category in operationsByCategory then operationsByCategory[category] else [];
      operationsByCategory := operationsByCategory[category := operations + [id]];
    }

    /** The finish callback: takes `id` out of its categories; a second call changes nothing. */
    method RemoveOperation(id: OpId, categories: set<string>)
      modifies this
      ensures operationsByCategory == Removed(old(operationsByCategory), id, categories)
      ensures callbacks == old(callbacks)
    {
      ghost var before := operationsByCategory;
      var remaining := categories;
      while remaining != {}
        invariant remaining <= categories
        invariant operationsByCategory == Removed(before, id, categories - remaining)
        invariant callbacks == old(callbacks)
        decreases remaining
      {
        var category :| category in remaining;
        remaining := remaining - {category};
        assert categories - remaining == (categories - remaining - {category}) + {category};
        if category in operationsByCategory {
          var operations := RemoveFirst(operationsByCategory[category], id);
          if operations == [] {
            operationsByCategory := operationsByCategory - {category};
          } else {
            operationsByCategory := operationsByCategory[category := operations];
          }
        }
      }
      assert categories - remaining == categories;
    }

    static method RemoveFirst(ids: seq<OpId>, id: OpId) returns (rest: seq<OpId>)
      ensures rest == Without(ids, id)
    {
      var k := 0;
      while k < |ids| && ids[k] != id
        invariant 0 <= k <= |ids|
        invariant id !in ids[..k]
      {
        k := k + 1;
      }
      if k < |ids| {
        WithoutAt(ids, id, k);
        rest := ids[..k] + ids[k + 1..];
      } else {
        assert ids[..k] == ids;
        WithoutAbsent(ids, id);
        rest := ids;
      }
    }
  }
}
