/**
 * The expressions the dashboard's handlers use to rewrite local state once the
 * store has accepted a change: status rewrites, removals, the selection
 * toggles and the settings toggle.
 */
module LocalUpdates {
  import opened Sequences
  import opened Leads

  // ---------------------------------------------------------------------
  // Status updates (`updateStatus`, `bulkUpdateStatus`)

  /**
   * `subs.map(sub => ids.includes(sub.id) ? { ...sub, status: newStatus } : sub)`.
   * `updateStatus(id, s)` is the case `ids == [id]`.
   */
  function MarkStatus(subs: seq<Submission>, ids: seq<Id>, newStatus: string): (r: seq<Submission>)
    ensures |r| == |subs|
    ensures forall i :: 0 <= i < |subs| ==> SameExceptStatus(subs[i], r[i])
    ensures forall i :: 0 <= i < |subs| && subs[i].id in ids ==> r[i].status == newStatus
    ensures forall i :: 0 <= i < |subs| && subs[i].id !in ids ==> r[i] == subs[i]
  {
    seq(|subs|, i requires 0 <= i < |subs| =>
      if subs[i].id in ids then subs[i].(status := newStatus) else subs[i])
  }

  /** A status rewrite keeps every id in its place. */
  lemma MarkStatusKeepsIds(subs: seq<Submission>, ids: seq<Id>, newStatus: string)
    ensures Ids(MarkStatus(subs, ids, newStatus)) == Ids(subs)
  {
  }

  /** Rewriting to the same status twice is rewriting once. */
  lemma MarkStatusIdempotent(subs: seq<Submission>, ids: seq<Id>, newStatus: string)
    ensures MarkStatus(MarkStatus(subs, ids, newStatus), ids, newStatus) == MarkStatus(subs, ids, newStatus)
  {
    var once := MarkStatus(subs, ids, newStatus);
    var twice := MarkStatus(once, ids, newStatus);
    forall i | 0 <= i < |subs| ensures twice[i] == once[i] {
      assert once[i].id == subs[i].id;
    }
  }

  /** With nothing selected, the rewrite changes nothing. */
  lemma MarkStatusNoIds(subs: seq<Submission>, newStatus: string)
    ensures MarkStatus(subs, [], newStatus) == subs
  {
  }

  // ---------------------------------------------------------------------
  // Removals (`deleteSubmission`, `bulkDelete`)

  /** `subs.filter(sub => !ids.includes(sub.id))`; `deleteSubmission(id)` is the case `ids == [id]`. */
  function RemoveIds(subs: seq<Submission>, ids: seq<Id>): (r: seq<Submission>)
    ensures forall x :: x in r <==> x in subs && x.id !in ids
  {
    var r := Filter(subs, (sub: Submission) => sub.id !in ids);
    assert forall x :: x in r <==> x in multiset(r);
    assert forall x :: x in subs <==> x in multiset(subs);
    r
  }

  /**
   * A removal drops exactly the records whose id is listed, keeps every other
   * record as often as before and keeps their relative order.
   */
  lemma RemoveIdsContents(subs: seq<Submission>, ids: seq<Id>)
    ensures forall x :: multiset(RemoveIds(subs, ids))[x] == if x.id in ids then 0 else multiset(subs)[x]
    ensures forall x :: x in RemoveIds(subs, ids) ==> x.id !in ids
    ensures Subsequence(RemoveIds(subs, ids), subs)
  {
    FilterIsSubsequence(subs, (sub: Submission) => sub.id !in ids);
    forall x | x in RemoveIds(subs, ids) ensures x.id !in ids {
      assert multiset(RemoveIds(subs, ids))[x] > 0;
    }
  }

  /** Removing no ids changes nothing. */
  lemma RemoveNoIds(subs: seq<Submission>)
    ensures RemoveIds(subs, []) == subs
  {
    FilterKeepsAll(subs, (sub: Submission) => sub.id !in []);
  }

  // ---------------------------------------------------------------------
  // Selection (`toggleSelect`, `toggleSelectAll`)

  /** `ids.filter(x => x !== id)`. */
  function Without(ids: seq<Id>, id: Id): (r: seq<Id>)
    ensures forall y :: y in r <==> y in ids && y != id
  {
    var r := Filter(ids, (x: Id) => x != id);
    assert forall y :: y in r <==> y in multiset(r);
    assert forall y :: y in ids <==> y in multiset(ids);
    r
  }

  /**
   * `toggleSelect(id)`: an id already selected is removed wherever it occurs,
   * otherwise it is appended.
   */
  function ToggledSelection(sel: seq<Id>, id: Id): (r: seq<Id>)
    ensures id in r <==> id !in sel
    ensures forall y :: y != id ==> (y in r <==> y in sel)
    ensures id !in sel ==> r == sel + [id]
    ensures id in sel ==> Subsequence(r, sel) && |r| < |sel|
  {
    if id in sel then
      FilterIsSubsequence(sel, (x: Id) => x != id);
      var r := Without(sel, id);
      assert multiset(r)[id] == 0 < multiset(sel)[id];
      assert |r| < |sel| by { FilterShorter(sel, (x: Id) => x != id, id); }
      assert forall y :: y in r <==> y in multiset(r);
      assert forall y :: y in sel <==> y in multiset(sel);
      r
    else sel + [id]
  }

  /** A filter that drops a present value is strictly shorter. */
  lemma {:induction false} FilterShorter(s: seq<Id>, p: Id -> bool, v: Id)
    requires v in s && !p(v)
    ensures |Filter(s, p)| < |s|
    decreases |s|
  {
    if s[0] != v {
      FilterShorter(s[1..], p, v);
    }
  }

  /** Toggling an unselected id twice gives back exactly the original selection. */
  lemma ToggleAbsentTwice(sel: seq<Id>, id: Id)
    requires id !in sel
    ensures ToggledSelection(ToggledSelection(sel, id), id) == sel
  {
    var p := (x: Id) => x != id;
    FilterAppend(sel, [id], p);
    FilterKeepsAll(sel, p);
    assert Filter([id], p) == [];
  }

  /** Toggling keeps a duplicate-free selection duplicate-free. */
  lemma ToggleKeepsNoDuplicates(sel: seq<Id>, id: Id)
    requires NoDuplicates(sel)
    ensures NoDuplicates(ToggledSelection(sel, id))
  {
    if id in sel {
      FilterNoDuplicates(sel, (x: Id) => x != id);
    }
  }

  /**
   * `toggleSelectAll()`: when the selection is as long as the visible list it
   * is cleared, otherwise it becomes the visible ids in list order. Only the
   * lengths are compared, not the ids themselves.
   */
  function SelectAllToggled(sel: seq<Id>, visible: seq<Submission>): (r: seq<Id>)
    ensures |sel| == |visible| ==> r == []
    ensures |sel| != |visible| ==> |r| == |visible| && forall i :: 0 <= i < |r| ==> r[i] == visible[i].id
  {
    if |sel| == |visible| then [] else Ids(visible)
  }

  /** From any selection of another length, toggling all twice clears the selection. */
  lemma SelectAllTwiceClears(sel: seq<Id>, visible: seq<Submission>)
    requires |sel| != |visible|
    ensures SelectAllToggled(SelectAllToggled(sel, visible), visible) == []
  {
  }

  /**
   * Because only lengths are compared, a non-empty selection of ids none of
   * which is visible, as long as the visible list, is cleared rather than
   * replaced by the visible ids.
   */
  lemma SelectAllClearsForeignSelection(sel: seq<Id>, visible: seq<Submission>)
    requires |sel| == |visible| > 0
    requires forall y :: y in sel ==> y !in Ids(visible)
    ensures SelectAllToggled(sel, visible) == []
    ensures SelectAllToggled(sel, visible) != Ids(visible)
  {
  }

  // ---------------------------------------------------------------------
  // Settings (`toggleSetting`)

  /** The settings a fresh dashboard starts with. */
  const DefaultSettings: map<string, bool> := map[
    "showStats" := true,
    "showFilters" := true,
    "compactView" := false,
    "showDate" := true,
    "showService" := true,
    "showMessage" := true,
    "showEmail" := true]

  /**
   * `{ ...settings, [key]: !settings[key] }`. An unknown key reads as
   * `undefined`, whose negation is `true`, so it is added switched on.
   */
  function ToggledSetting(settings: map<string, bool>, key: string): (r: map<string, bool>)
    ensures r.Keys == settings.Keys + {key}
    ensures key in settings ==> r[key] == !settings[key]
    ensures key !in settings ==> r[key]
    ensures forall k :: k in settings && k != key ==> r[k] == settings[k]
  {
    settings[key := !(key in settings && settings[key])]
  }

  /** Flipping a known setting twice restores the settings. */
  lemma ToggleSettingTwice(settings: map<string, bool>, key: string)
    requires key in settings
    ensures ToggledSetting(ToggledSetting(settings, key), key) == settings
  {
  }
}
