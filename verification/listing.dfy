/**
 * The rows `getGadgets` reads: every gadget, or those of one status, ordered
 * by `createdAt` descending. The order among gadgets created at the same
 * instant is the database's choice and is left open here.
 */
module Listing {
  import opened Wrappers
  import opened GadgetModel

  /** The filter `WHERE g.status = $1`, or no filter. */
  predicate Selected(g: Gadget, filter: Option<Status>) {
    filter.None? || g.status == filter.value
  }

  /** The ids of the gadgets the query selects. */
  function SelectedIds(store: Store, filter: Option<Status>): (ids: set<Id>)
    ensures ids <= store.Keys
    ensures filter.None? ==> ids == store.Keys
  {
    set id | id in store && Selected(store[id], filter)
  }

  lemma InSelectedIds(store: Store, filter: Option<Status>, id: Id)
    ensures id in SelectedIds(store, filter) <==> id in store && Selected(store[id], filter)
  {
  }

  /**
   * The four status filters split the stored gadgets: no gadget is selected
   * by two of them, and together they select every gadget.
   */
  lemma StatusFiltersPartition(store: Store)
    ensures forall s1: Status, s2: Status :: s1 != s2 ==> SelectedIds(store, Some(s1)) !! SelectedIds(store, Some(s2))
    ensures SelectedIds(store, Some(Available)) + SelectedIds(store, Some(Deployed))
          + SelectedIds(store, Some(Destroyed)) + SelectedIds(store, Some(Decommissioned)) == store.Keys
  {
    forall s1: Status, s2: Status | s1 != s2
      ensures SelectedIds(store, Some(s1)) !! SelectedIds(store, Some(s2))
    {
      forall id | id in SelectedIds(store, Some(s1))
        ensures id !in SelectedIds(store, Some(s2))
      {
        assert store[id].status == s1;
      }
    }
    var all := SelectedIds(store, Some(Available)) + SelectedIds(store, Some(Deployed))
             + SelectedIds(store, Some(Destroyed)) + SelectedIds(store, Some(Decommissioned));
    forall id | id in store
      ensures id in all
    {
      assert id in SelectedIds(store, Some(store[id].status));
    }
  }

  /** `ORDER BY g."createdAt" DESC` */
  ghost predicate NewestFirst(store: Store, order: seq<Id>) {
    forall i, j :: 0 <= i < j < |order| && order[i] in store && order[j] in store ==>
      store[order[i]].createdAt >= store[order[j]].createdAt
  }

  ghost predicate Distinct(order: seq<Id>) {
    forall i, j :: 0 <= i < j < |order| ==> order[i] != order[j]
  }

  /** Every nonempty set of stored gadgets has a newest member. */
  lemma {:induction false} NewestExists(store: Store, ids: set<Id>)
    requires ids != {} && ids <= store.Keys
    ensures exists id :: id in ids && forall o :: o in ids ==> store[o].createdAt <= store[id].createdAt
    decreases ids
  {
    var x :| x in ids;
    var rest := ids - {x};
    if rest == {} {
      assert ids == {x};
    } else {
      NewestExists(store, rest);
      var m :| m in rest && forall o :: o in rest ==> store[o].createdAt <= store[m].createdAt;
      if store[x].createdAt <= store[m].createdAt {
        assert forall o :: o in ids ==> store[o].createdAt <= store[m].createdAt;
      } else {
        assert forall o :: o in ids ==> store[o].createdAt <= store[x].createdAt;
      }
    }
  }

  /**
   * The ids of `ids`, each once, newest first: repeatedly takes a newest
   * remaining gadget.
   */
  method OrderNewestFirst(store: Store, ids: set<Id>) returns (order: seq<Id>)
    requires ids <= store.Keys
    ensures forall id :: id in order <==> id in ids
    ensures Distinct(order)
    ensures |order| == |ids|
    ensures NewestFirst(store, order)
  {
    order := [];
    var remaining := ids;
    while remaining != {}
      invariant remaining <= ids
      invariant forall i :: 0 <= i < |order| ==> order[i] in store
      invariant forall id :: id in order <==> id in ids && id !in remaining
      invariant Distinct(order)
      invariant |order| + |remaining| == |ids|
      invariant NewestFirst(store, order)
      invariant forall i, o :: 0 <= i < |order| && o in remaining ==> store[o].createdAt <= store[order[i]].createdAt
      decreases remaining
    {
      NewestExists(store, remaining);
      var newest :| newest in remaining && forall o :: o in remaining ==> store[o].createdAt <= store[newest].createdAt;
      AppendNewest(store, order, newest, remaining);
      order := order + [newest];
      remaining := remaining - {newest};
    }
  }

  /** Appending a newest remaining gadget keeps the order newest first and ahead of what still remains. */
  lemma AppendNewest(store: Store, order: seq<Id>, newest: Id, remaining: set<Id>)
    requires remaining <= store.Keys && newest in remaining
    requires forall i :: 0 <= i < |order| ==> order[i] in store
    requires forall o :: o in remaining ==> store[o].createdAt <= store[newest].createdAt
    requires NewestFirst(store, order)
    requires forall i, o :: 0 <= i < |order| && o in remaining ==> store[o].createdAt <= store[order[i]].createdAt
    ensures NewestFirst(store, order + [newest])
    ensures forall i, o :: 0 <= i < |order + [newest]| && o in remaining - {newest} ==>
      store[o].createdAt <= store[(order + [newest])[i]].createdAt
  {
    var next := order + [newest];
    assert forall i :: 0 <= i < |order| ==> next[i] == order[i];
  }
}
