/**
 * The child profile dialog (src/components/ChildProfile.tsx): saving the
 * edited name and birth date, inviting another parent and removing a
 * parent's access. Every handler builds an UPDATE_CHILD payload from the
 * child it is given.
 *
 * The dialog is opened with a child record (`target`) that it keeps while it
 * is open. `DialogSave`, `DialogInvite` and `DialogRemove` work on the
 * store's current version of that child (`CurrentChild`). The handlers as
 * written work on `target` itself, which the store has changed meanwhile.
 * `StaleDialogDropsInvite` shows what that loses.
 */
module ChildProfile {
  import opened Types
  import opened Seqs
  import opened AppContext

  /** The edit tab's buffer: the name and the birth date as day text. */
  datatype ProfileForm = ProfileForm(name: string, dateOfBirth: string)

  /** The edit tab opens on the child's name and the day text of its birth date. */
  function InitialProfileForm(child: Child, showDay: Date -> string): (f: ProfileForm)
    ensures f.name == child.name && f.dateOfBirth == showDay(child.dateOfBirth)
  {
    ProfileForm(child.name, showDay(child.dateOfBirth))
  }

  /** Saving the edit tab: only the name and the birth date change. */
  function SaveProfile(child: Child, f: ProfileForm, parseDay: string -> Date): (a: Action)
    ensures a.UpdateChild?
    ensures a.changed.id == child.id && a.changed.parentIds == child.parentIds
      && a.changed.createdAt == child.createdAt
    ensures a.changed.name == f.name && a.changed.dateOfBirth == parseDay(f.dateOfBirth)
  {
    UpdateChild(child.(name := f.name, dateOfBirth := parseDay(f.dateOfBirth)))
  }

  /**
   * Saving the edit tab as it opened gives back the child itself, when the
   * day text of the birth date reads back as that date.
   */
  lemma UntouchedProfileKeepsChild(child: Child, showDay: Date -> string, parseDay: string -> Date)
    requires parseDay(showDay(child.dateOfBirth)) == child.dateOfBirth
    ensures SaveProfile(child, InitialProfileForm(child, showDay), parseDay) == UpdateChild(child)
  {
  }

  /**
   * Inviting a parent: the fresh id of the invited user is appended to the
   * parents; nothing else changes. The invited user's record itself is not
   * stored anywhere.
   */
  function InviteParent(child: Child, freshId: Id): (a: Action)
    ensures a.UpdateChild? && a.changed.id == child.id
    ensures |a.changed.parentIds| == |child.parentIds| + 1
    ensures a.changed.parentIds[..|child.parentIds|] == child.parentIds
    ensures a.changed.parentIds[|child.parentIds|] == freshId
    ensures a.changed.name == child.name && a.changed.dateOfBirth == child.dateOfBirth
      && a.changed.createdAt == child.createdAt
  {
    UpdateChild(child.(parentIds := child.parentIds + [freshId]))
  }

  function IdIsNot(id: Id): Id -> bool {
    (p: Id) => p != id
  }

  /**
   * Removing a parent: nothing while the child has at most one parent or
   * when the removal is not confirmed; otherwise UPDATE_CHILD with every
   * occurrence of `parentId` filtered out.
   */
  function RemoveParent(child: Child, parentId: Id, confirmed: bool): (r: Option<Action>)
    ensures r.Some? <==> |child.parentIds| > 1 && confirmed
    ensures r.Some? ==> r.value.UpdateChild? && r.value.changed.id == child.id
  {
    if |child.parentIds| <= 1 then None
    else if confirmed then Some(UpdateChild(child.(parentIds := Filter(child.parentIds, IdIsNot(parentId)))))
    else None
  }

  /**
   * A removal that goes through drops every copy of the removed id, keeps
   * every copy of the other parents in their order, and leaves the other
   * fields as they were.
   */
  lemma RemovalPayload(child: Child, parentId: Id)
    requires |child.parentIds| > 1
    ensures var c := RemoveParent(child, parentId, true).value.changed;
      && parentId !in c.parentIds
      && (forall i :: 0 <= i < |child.parentIds| && child.parentIds[i] != parentId
            ==> child.parentIds[i] in c.parentIds)
      && Subsequence(c.parentIds, child.parentIds)
      && (forall p: Id :: multiset(c.parentIds)[p] == if p != parentId then multiset(child.parentIds)[p] else 0)
      && c.name == child.name && c.dateOfBirth == child.dateOfBirth && c.createdAt == child.createdAt
  {
    var ps := Filter(child.parentIds, IdIsNot(parentId));
    FilterIsSubsequence(child.parentIds, IdIsNot(parentId));
    FilterCounts(child.parentIds, IdIsNot(parentId));
    forall p: Id
      ensures multiset(ps)[p] == if p != parentId then multiset(child.parentIds)[p] else 0
    {
      assert IdIsNot(parentId)(p) == (p != parentId);
    }
    forall i | 0 <= i < |child.parentIds| && child.parentIds[i] != parentId
      ensures child.parentIds[i] in ps
    {
      assert IdIsNot(parentId)(child.parentIds[i]);
    }
  }

  predicate Distinct(ids: seq<Id>) {
    forall i, j :: 0 <= i < j < |ids| ==> ids[i] != ids[j]
  }

  /** With distinct parent ids, a removal the guard lets through leaves at least one parent. */
  lemma DistinctRemovalKeepsAParent(child: Child, parentId: Id, confirmed: bool)
    requires Distinct(child.parentIds)
    ensures var r := RemoveParent(child, parentId, confirmed);
      r.Some? ==> |r.value.changed.parentIds| >= 1
  {
    if |child.parentIds| > 1 && confirmed {
      RemovalPayload(child, parentId);
      var c := RemoveParent(child, parentId, confirmed).value.changed;
      var k := if child.parentIds[0] != parentId then 0 else 1;
      assert child.parentIds[k] in c.parentIds;
    }
  }

  /**
   * The guard counts entries, not distinct parents: a child listing the
   * same parent twice loses every parent in one removal.
   */
  lemma DuplicatesDefeatGuard(child: Child)
    requires child.parentIds == ["p", "p"]
    ensures RemoveParent(child, "p", true) == Some(UpdateChild(child.(parentIds := [])))
  {
    var ps := child.parentIds;
    assert ps[1..] == ["p"] && ps[1..][1..] == [];
  }

  /**
   * The parents the dialog offers a remove button for: every parent but the
   * current user, every listed copy, in the order of `parentIds`.
   */
  function RemovableParents(child: Child, currentUser: Option<User>): (r: seq<Id>)
    ensures forall p: Id :: p in r <==> p in child.parentIds && (currentUser.Some? ==> p != currentUser.value.id)
    ensures forall p: Id ::
      multiset(r)[p] == if currentUser.Some? && p == currentUser.value.id then 0 else multiset(child.parentIds)[p]
    ensures Subsequence(r, child.parentIds)
  {
    var keep := NotCurrentUser(currentUser);
    FilterIsSubsequence(child.parentIds, keep);
    FilterCounts(child.parentIds, keep);
    var r := Filter(child.parentIds, keep);
    assert forall p: Id :: keep(p) == !(currentUser.Some? && p == currentUser.value.id);
    assert forall p: Id :: (p in r <==> p in multiset(r)) && (p in child.parentIds <==> p in multiset(child.parentIds));
    r
  }

  /** A parent is not the current user; with nobody signed in, every parent qualifies. */
  function NotCurrentUser(currentUser: Option<User>): Id -> bool {
    if currentUser.Some? then IdIsNot(currentUser.value.id) else (p: Id) => true
  }

  /**
   * The current user is never offered for removal, so a removal from the
   * dialog never takes away the current user's own access.
   */
  lemma OfferedRemovalKeepsCurrentUser(child: Child, u: User, parentId: Id, confirmed: bool)
    requires u.id in child.parentIds
    requires parentId in RemovableParents(child, Some(u))
    ensures u.id !in RemovableParents(child, Some(u))
    ensures var r := RemoveParent(child, parentId, confirmed);
      r.Some? ==> u.id in r.value.changed.parentIds
  {
    if |child.parentIds| > 1 && confirmed {
      RemovalPayload(child, parentId);
      var i :| 0 <= i < |child.parentIds| && child.parentIds[i] == u.id;
    }
  }

  // ---------------------------------------------------------------------
  // The dialog over several actions
  // ---------------------------------------------------------------------

  /**
   * The store's current version of the dialog's child: the child with its id,
   * or the dialog's own record when the store has none.
   */
  function CurrentChild(children: seq<Child>, target: Child): (c: Child)
    ensures c.id == target.id
    ensures c == target || c in children
    ensures (forall i :: 0 <= i < |children| ==> children[i].id != target.id) ==> c == target
    ensures forall k :: 0 <= k < |children| && children[k].id == target.id && UniqueAt(children, k) ==>
      c == children[k]
  {
    if children == [] then target
    else if children[0].id == target.id then children[0]
    else
      var c := CurrentChild(children[1..], target);
      assert forall k :: 1 <= k < |children| && UniqueAt(children, k) ==> UniqueAt(children[1..], k - 1);
      c
  }

  /** No other child has the id of the child at `k`. */
  predicate UniqueAt(children: seq<Child>, k: nat)
    requires k < |children|
  {
    forall j :: 0 <= j < |children| && j != k ==> children[j].id != children[k].id
  }

  /** The corrected save: the form's name and birth day on the store's parents of the child. */
  function DialogSave(s: AppState, target: Child, f: ProfileForm, parseDay: string -> Date): (a: Action)
    ensures a.UpdateChild? && a.changed.id == target.id
    ensures a.changed.parentIds == CurrentChild(s.children, target).parentIds
    ensures a.changed.name == f.name && a.changed.dateOfBirth == parseDay(f.dateOfBirth)
    ensures a.changed.createdAt == CurrentChild(s.children, target).createdAt
  {
    SaveProfile(CurrentChild(s.children, target), f, parseDay)
  }

  /** The corrected invite: the fresh id appended to the parents the store has now. */
  function DialogInvite(s: AppState, target: Child, freshId: Id): (a: Action)
    ensures a.UpdateChild? && a.changed.id == target.id
    ensures a.changed.parentIds == CurrentChild(s.children, target).parentIds + [freshId]
    ensures var c := CurrentChild(s.children, target);
      a.changed.name == c.name && a.changed.dateOfBirth == c.dateOfBirth && a.changed.createdAt == c.createdAt
  {
    InviteParent(CurrentChild(s.children, target), freshId)
  }

  /** The corrected removal: the guard and the filter apply to the parents the store has now. */
  function DialogRemove(s: AppState, target: Child, parentId: Id, confirmed: bool): (r: Option<Action>)
    ensures r.Some? <==> |CurrentChild(s.children, target).parentIds| > 1 && confirmed
    ensures r.Some? ==> r.value.UpdateChild? && r.value.changed.id == target.id
    ensures r.Some? ==> var c, d := CurrentChild(s.children, target), r.value.changed;
      && parentId !in d.parentIds
      && Subsequence(d.parentIds, c.parentIds)
      && (forall p: Id :: multiset(d.parentIds)[p] == if p != parentId then multiset(c.parentIds)[p] else 0)
      && d.name == c.name && d.dateOfBirth == c.dateOfBirth && d.createdAt == c.createdAt
  {
    var c := CurrentChild(s.children, target);
    if |c.parentIds| > 1 then
      RemovalPayload(c, parentId);
      RemoveParent(c, parentId, confirmed)
    else
      RemoveParent(c, parentId, confirmed)
  }

  /** UPDATE_CHILD of a child whose id is unique at `k` changes position `k` only, and keeps it unique. */
  lemma UpdateAt(s: AppState, k: nat, c: Child)
    requires k < |s.children| && UniqueAt(s.children, k) && c.id == s.children[k].id
    ensures var r := Reduce(s, UpdateChild(c)).children;
      |r| == |s.children| && r[k] == c && UniqueAt(r, k)
      && forall j :: 0 <= j < |r| && j != k ==> r[j] == s.children[j]
  {
    UpdateChildReplaces(s, c);
  }

  /**
   * Two invites from one open dialog, built the way the source builds them:
   * both start from the record the dialog was opened with, so the second
   * UPDATE_CHILD overwrites the first and the first invited id is lost.
   */
  lemma StaleDialogDropsInvite(s: AppState, k: nat, f1: Id, f2: Id)
    requires k < |s.children| && UniqueAt(s.children, k)
    requires f1 != f2 && f1 !in s.children[k].parentIds
    ensures var target := s.children[k];
      var s2 := Reduce(Reduce(s, InviteParent(target, f1)), InviteParent(target, f2));
      s2.children[k].parentIds == target.parentIds + [f2] && f1 !in s2.children[k].parentIds
  {
    var target := s.children[k];
    var s1 := Reduce(s, InviteParent(target, f1));
    UpdateAt(s, k, InviteParent(target, f1).changed);
    UpdateAt(s1, k, InviteParent(target, f2).changed);
  }

  /**
   * The same two invites built from the store's current version of the
   * child: both invited ids are kept, in order.
   */
  lemma FreshDialogKeepsBothInvites(s: AppState, k: nat, target: Child, f1: Id, f2: Id)
    requires k < |s.children| && UniqueAt(s.children, k) && s.children[k].id == target.id
    ensures var s2 := Reduce(Reduce(s, DialogInvite(s, target, f1)),
                             DialogInvite(Reduce(s, DialogInvite(s, target, f1)), target, f2));
      s2.children[k].parentIds == s.children[k].parentIds + [f1, f2]
  {
    var a1 := DialogInvite(s, target, f1);
    UpdateAt(s, k, a1.changed);
    var s1 := Reduce(s, a1);
    var a2 := DialogInvite(s1, target, f2);
    UpdateAt(s1, k, a2.changed);
    assert s.children[k].parentIds + [f1] + [f2] == s.children[k].parentIds + [f1, f2];
  }
}
