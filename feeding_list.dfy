/**
 * The feeding list (src/components/FeedingList.tsx): the selected child's
 * entries, the bottle/breast tab filter, the most-recent-first order, and
 * the confirmed delete.
 */
module FeedingList {
  import opened Types
  import opened Seqs
  import opened Utils
  import opened AppContext

  /** The list's tabs: all feedings, or only one feeding type. */
  datatype TypeFilter = AllFeedings | OnlyType(feedingType: FeedingType)

  /** An entry belongs to the selected child; with no child selected, none does. */
  function BelongsTo(selected: Option<Child>): FeedingEntry -> bool {
    if selected.Some? then (e: FeedingEntry) => e.childId == selected.value.id
    else (e: FeedingEntry) => false
  }

  function OfType(t: FeedingType): FeedingEntry -> bool {
    (e: FeedingEntry) => e.feedingType == t
  }

  function ChildEntries(entries: seq<FeedingEntry>, selected: Option<Child>): seq<FeedingEntry> {
    Filter(entries, BelongsTo(selected))
  }

  function TypeFiltered(entries: seq<FeedingEntry>, f: TypeFilter): seq<FeedingEntry> {
    if f.AllFeedings? then entries else Filter(entries, OfType(f.feedingType))
  }

  /** What the list shows: the child's entries, filtered by the tab, newest first. */
  function Displayed(s: AppState, f: TypeFilter): seq<FeedingEntry> {
    SortByRecency(TypeFiltered(ChildEntries(s.feedingEntries, s.selectedChild), f))
  }

  /**
   * The child's entries are exactly the entries with its id, in store order;
   * with no child selected there are none.
   */
  lemma ChildEntriesExactly(entries: seq<FeedingEntry>, selected: Option<Child>)
    ensures var r := ChildEntries(entries, selected);
      && (selected.None? ==> r == [])
      && (selected.Some? ==>
            (forall i :: 0 <= i < |r| ==> r[i].childId == selected.value.id)
            && (forall i :: 0 <= i < |entries| && entries[i].childId == selected.value.id ==> entries[i] in r)
            && (forall x: FeedingEntry :: multiset(r)[x] == if x.childId == selected.value.id then multiset(entries)[x] else 0))
      && Subsequence(r, entries)
  {
    var r := ChildEntries(entries, selected);
    FilterIsSubsequence(entries, BelongsTo(selected));
    if selected.None? {
      FilterDropsAll(entries, BelongsTo(selected));
    } else {
      FilterCounts(entries, BelongsTo(selected));
      forall x: FeedingEntry
        ensures multiset(r)[x] == if x.childId == selected.value.id then multiset(entries)[x] else 0
      {
        assert BelongsTo(selected)(x) == (x.childId == selected.value.id);
      }
      forall i | 0 <= i < |r|
        ensures r[i].childId == selected.value.id
      {
        assert BelongsTo(selected)(r[i]);
      }
      forall i | 0 <= i < |entries| && entries[i].childId == selected.value.id
        ensures entries[i] in r
      {
        assert BelongsTo(selected)(entries[i]);
      }
    }
  }

  /** The "all" tab changes nothing; a type tab keeps exactly that type, in order. */
  lemma TypeFilterExactly(entries: seq<FeedingEntry>, f: TypeFilter)
    ensures var r := TypeFiltered(entries, f);
      && (f.AllFeedings? ==> r == entries)
      && (f.OnlyType? ==>
            (forall i :: 0 <= i < |r| ==> r[i].feedingType == f.feedingType)
            && (forall i :: 0 <= i < |entries| && entries[i].feedingType == f.feedingType ==> entries[i] in r)
            && (forall x: FeedingEntry :: multiset(r)[x] == if x.feedingType == f.feedingType then multiset(entries)[x] else 0)
            && Subsequence(r, entries))
  {
    if f.OnlyType? {
      var r := TypeFiltered(entries, f);
      FilterIsSubsequence(entries, OfType(f.feedingType));
      FilterCounts(entries, OfType(f.feedingType));
      forall x: FeedingEntry
        ensures multiset(r)[x] == if x.feedingType == f.feedingType then multiset(entries)[x] else 0
      {
        assert OfType(f.feedingType)(x) == (x.feedingType == f.feedingType);
      }
      forall i | 0 <= i < |r|
        ensures r[i].feedingType == f.feedingType
      {
        assert OfType(f.feedingType)(r[i]);
      }
      forall i | 0 <= i < |entries| && entries[i].feedingType == f.feedingType
        ensures entries[i] in r
      {
        assert OfType(f.feedingType)(entries[i]);
      }
    }
  }

  /**
   * The shown list holds the filtered entries, each as often as before,
   * newest first, with entries of equal moment in their store order.
   */
  lemma DisplayedIsSortedView(s: AppState, f: TypeFilter)
    ensures var shown, filtered := Displayed(s, f), TypeFiltered(ChildEntries(s.feedingEntries, s.selectedChild), f);
      && multiset(shown) == multiset(filtered)
      && MostRecentFirst(shown)
      && forall k :: WithMoment(shown, k) == WithMoment(filtered, k)
  {
    var filtered := TypeFiltered(ChildEntries(s.feedingEntries, s.selectedChild), f);
    SortPermutes(filtered);
    SortOrders(filtered);
    forall k
      ensures WithMoment(Displayed(s, f), k) == WithMoment(filtered, k)
    {
      SortIsStable(filtered, k);
    }
  }

  /** The list never shows more than the child's entries, nor those more than the store holds. */
  lemma DisplayCounts(s: AppState, f: TypeFilter)
    ensures |Displayed(s, f)| <= |ChildEntries(s.feedingEntries, s.selectedChild)| <= |s.feedingEntries|
  {
    var filtered := TypeFiltered(ChildEntries(s.feedingEntries, s.selectedChild), f);
    SortPermutes(filtered);
    assert |multiset(Displayed(s, f))| == |multiset(filtered)|;
  }

  /** A shown entry is an entry of the store. */
  lemma ShownIsStored(s: AppState, f: TypeFilter, x: FeedingEntry)
    requires x in Displayed(s, f)
    ensures x in s.feedingEntries
  {
    var child := ChildEntries(s.feedingEntries, s.selectedChild);
    var filtered := TypeFiltered(child, f);
    SortPermutes(filtered);
    assert x in multiset(filtered);
    assert x in child;
  }

  /** The trash button: DELETE_FEEDING_ENTRY for that entry's id, only when confirmed. */
  function HandleDelete(entryId: Id, confirmed: bool): (r: Option<Action>)
    ensures r.Some? <==> confirmed
    ensures r.Some? ==> r.value.DeleteFeedingEntry? && r.value.entryId == entryId
  {
    if confirmed then Some(DeleteFeedingEntry(entryId)) else None
  }

  /** After a confirmed delete, the entry is gone from the list under every tab. */
  lemma DeletedEntryLeavesList(s: AppState, f: TypeFilter, g: TypeFilter, e: FeedingEntry)
    requires e in Displayed(s, f)
    ensures e !in Displayed(Reduce(s, HandleDelete(e.id, true).value), g)
  {
    var r := Reduce(s, HandleDelete(e.id, true).value);
    DeleteRemovesId(s, e.id);
    if e in Displayed(r, g) {
      ShownIsStored(r, g, e);
      assert false;
    }
  }
}
