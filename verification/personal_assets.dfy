/**
 * The personal-asset screen (`src/app/personal-assets/page.tsx`): the condition
 * picker in an asset's bottom sheet, the "save" guard, and the save handler that
 * writes the new condition back into the list by id.
 */
module PersonalAssets {
  import opened Wrappers
  import opened Text

  /** A row of the `inventaris_orang` table (permanently assigned tools). */
  datatype AssignedAsset = AssignedAsset(id: int, nama: Option<string>, jumlah: int, kondisi: Option<string>,
                                         keterangan: Option<string>, fotoUrl: Option<string>)

  /** The values behind the three pills: "Baik", "Rusak Ringan" and "Rusak Berat". */
  const PillValues: seq<string> := ["baik", "rusak ringan", "rusak"]

  /** `selectedAsset.kondisi?.toLowerCase()`. */
  function CurrentCondition(asset: AssignedAsset): Option<string>
  {
    if asset.kondisi.Some? then Some(Lower(asset.kondisi.value)) else None
  }

  /** A pill is lit when it equals the pending choice, or the current condition when nothing is pending. */
  predicate IsPillSelected(pending: Option<string>, current: Option<string>, value: string)
  {
    (if pending.Some? then pending else current) == Some(value)
  }

  /** The pending choice after clicking `value`: clicking the current condition clears it. */
  function Toggled(current: Option<string>, value: string): Option<string>
  {
    if current == Some(value) then None else Some(value)
  }

  /** The save button is shown only for a pending choice that differs from the current condition. */
  predicate SaveVisible(pending: Option<string>, current: Option<string>)
  {
    pending.Some? && pending.value != "" && Some(pending.value) != current
  }

  /** The record written back after a successful update. */
  function WithCondition(asset: AssignedAsset, kondisi: string): AssignedAsset
  {
    asset.(kondisi := Some(kondisi))
  }

  /** `prev.map(a => a.id === updated.id ? updated : a)`. */
  function ReplaceById(list: seq<AssignedAsset>, updated: AssignedAsset): (r: seq<AssignedAsset>)
    ensures |r| == |list|
    ensures forall i :: 0 <= i < |list| ==> r[i] == if list[i].id == updated.id then updated else list[i]
  {
    if list == [] then []
    else [if list[0].id == updated.id then updated else list[0]] + ReplaceById(list[1..], updated)
  }

  predicate UniqueIds(list: seq<AssignedAsset>)
  {
    forall i, j :: 0 <= i < j < |list| ==> list[i].id != list[j].id
  }

  // ---------------------------------------------------------------- the picker

  /** At most one of the three pills is lit at any time. */
  lemma AtMostOnePillSelected(pending: Option<string>, current: Option<string>)
    ensures forall i, j :: 0 <= i < j < |PillValues| ==>
      !(IsPillSelected(pending, current, PillValues[i]) && IsPillSelected(pending, current, PillValues[j]))
  {
  }

  /** After a click, the clicked pill is the lit one and no other pill is. */
  lemma ClickLightsClickedPill(current: Option<string>, value: string, other: string)
    requires other != value
    ensures IsPillSelected(Toggled(current, value), current, value)
    ensures !IsPillSelected(Toggled(current, value), current, other)
  {
  }

  /** After a click, "save" is offered exactly when the clicked pill is not the current condition. */
  lemma SaveOfferedAfterClick(current: Option<string>, value: string)
    requires value in PillValues
    ensures SaveVisible(Toggled(current, value), current) <==> current != Some(value)
  {
  }

  /** Whenever "save" is offered, the pending pill is the lit one and the current condition is not. */
  lemma SaveVisibleMeansChange(pending: Option<string>, current: Option<string>)
    requires SaveVisible(pending, current)
    ensures IsPillSelected(pending, current, pending.value)
    ensures current.Some? ==> !IsPillSelected(pending, current, current.value)
  {
  }

  lemma LowerKeepsLowercase(s: string)
    requires forall i :: 0 <= i < |s| ==> !('A' <= s[i] <= 'Z')
    ensures Lower(s) == s
  {
  }

  /** Once a pill's value is saved, that pill stays lit with nothing pending and "save" disappears. */
  lemma SavedPillStaysLit(asset: AssignedAsset, value: string)
    requires value in PillValues
    ensures CurrentCondition(WithCondition(asset, value)) == Some(value)
    ensures IsPillSelected(None, CurrentCondition(WithCondition(asset, value)), value)
    ensures !SaveVisible(None, CurrentCondition(WithCondition(asset, value)))
  {
    LowerKeepsLowercase(value);
  }

  // ---------------------------------------------------------------- writing back by id

  /** With unique ids, writing back replaces exactly the element carrying the id. */
  lemma ReplaceByIdUnique(list: seq<AssignedAsset>, updated: AssignedAsset, k: nat)
    requires UniqueIds(list) && k < |list| && list[k].id == updated.id
    ensures ReplaceById(list, updated) == list[k := updated]
  {
    var r := ReplaceById(list, updated);
    forall i | 0 <= i < |list|
      ensures r[i] == list[k := updated][i]
    {
      if i != k {
        assert list[i].id != updated.id by {
          if i < k { assert list[i].id != list[k].id; } else { assert list[k].id != list[i].id; }
        }
      }
    }
  }

  /** A list without the id is left as it is. */
  lemma ReplaceByIdMissing(list: seq<AssignedAsset>, updated: AssignedAsset)
    requires forall i :: 0 <= i < |list| ==> list[i].id != updated.id
    ensures ReplaceById(list, updated) == list
  {
  }

  /** Writing the same record back twice is the same as once. */
  lemma ReplaceByIdIdempotent(list: seq<AssignedAsset>, updated: AssignedAsset)
    ensures ReplaceById(ReplaceById(list, updated), updated) == ReplaceById(list, updated)
  {
  }

  // ---------------------------------------------------------------- the sheet's component state

  /** What the save handler captured when it was clicked: the selected asset and the pending value. */
  datatype SaveRequest = SaveRequest(asset: AssignedAsset, kondisi: string)

  class ConditionSheet {
    var assets: seq<AssignedAsset>
    var selected: Option<AssignedAsset>
    var pending: Option<string>
    var isUpdating: bool

    /** A pending choice exists only while a sheet is open. */
    ghost predicate Valid()
      reads this
    {
      selected.None? ==> pending.None?
    }

    constructor (assets: seq<AssignedAsset>)
      ensures Valid()
      ensures this.assets == assets && selected == None && pending == None && !isUpdating
    {
      this.assets := assets;
      selected := None;
      pending := None;
      isUpdating := false;
    }

    /** Tapping a card opens its sheet. */
    method Open(i: nat)
      requires Valid() && i < |assets|
      modifies this
      ensures Valid()
      ensures selected == Some(old(assets)[i])
      ensures assets == old(assets) && pending == old(pending) && isUpdating == old(isUpdating)
    {
      selected := Some(assets[i]);
    }

    /** `closeModal`: clears the selection and the pending choice. */
    method Close()
      modifies this
      ensures Valid()
      ensures selected == None && pending == None
      ensures assets == old(assets) && isUpdating == old(isUpdating)
    {
      selected := None;
      pending := None;
    }

    /** Clicking a pill; the pills are disabled while an update is in flight. */
    method ClickPill(value: string)
      requires Valid() && selected.Some? && value in PillValues
      modifies this
      ensures Valid()
      ensures assets == old(assets) && selected == old(selected) && isUpdating == old(isUpdating)
      ensures pending == if old(isUpdating) then old(pending) else Toggled(CurrentCondition(old(selected).value), value)
    {
      if !isUpdating {
        var current := CurrentCondition(selected.value);
        pending := if current == Some(value) then None else Some(value);
      }
    }

    /**
     * First half of the save handler: mark the update as in flight and capture
     * the request. The button is disabled while an update is in flight.
     */
    method BeginSave() returns (request: Option<SaveRequest>)
      requires Valid() && selected.Some? && SaveVisible(pending, CurrentCondition(selected.value))
      modifies this
      ensures Valid() && isUpdating
      ensures assets == old(assets) && selected == old(selected) && pending == old(pending)
      ensures request == if old(isUpdating) then None else Some(SaveRequest(old(selected).value, old(pending).value))
    {
      if isUpdating {
        return None;
      }
      isUpdating := true;
      request := Some(SaveRequest(selected.value, pending.value));
    }

    /**
     * Second half: the remote update answered `success`. On success the captured
     * asset, with its new condition, becomes the selection and replaces every list
     * element with its id, and the pending choice is cleared; on failure nothing
     * but the in-flight flag changes.
     */
    method FinishSave(request: SaveRequest, success: bool)
      requires Valid()
      modifies this
      ensures Valid() && !isUpdating
      ensures success ==>
        && selected == Some(WithCondition(request.asset, request.kondisi))
        && assets == ReplaceById(old(assets), WithCondition(request.asset, request.kondisi))
        && pending == None
      ensures !success ==> assets == old(assets) && selected == old(selected) && pending == old(pending)
    {
      if success {
        var updated := WithCondition(request.asset, request.kondisi);
        selected := Some(updated);
        assets := ReplaceById(assets, updated);
        pending := None;
      }
      isUpdating := false;
    }

    /** The whole save handler when nothing else happens while the update is in flight. */
    method Save(success: bool)
      requires Valid() && selected.Some? && SaveVisible(pending, CurrentCondition(selected.value))
      modifies this
      ensures Valid()
      ensures old(isUpdating) ==>
        assets == old(assets) && selected == old(selected) && pending == old(pending) && isUpdating
      ensures !old(isUpdating) && success ==>
        && selected == Some(WithCondition(old(selected).value, old(pending).value))
        && assets == ReplaceById(old(assets), WithCondition(old(selected).value, old(pending).value))
        && pending == None && !isUpdating
      ensures !old(isUpdating) && !success ==>
        assets == old(assets) && selected == old(selected) && pending == old(pending) && !isUpdating
    {
      var request := BeginSave();
      if request.Some? {
        FinishSave(request.value, success);
      }
    }
  }

  /**
   * The save button lives in the open sheet: with no asset selected there is no
   * pending choice, so whatever the current condition, "save" is not offered.
   */
  lemma NoSaveWithoutSelection(sheet: ConditionSheet, current: Option<string>)
    requires sheet.Valid() && sheet.selected.None?
    ensures !SaveVisible(sheet.pending, current)
  {
  }
}
