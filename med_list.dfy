/** The list expressions App.tsx applies to the medication list: lookup by id
    (`find`, App.tsx:147), replace by id and toggle by id (`map`,
    App.tsx:101 and 115), and removal by id (`filter`, App.tsx:109). */
module MedList {
  import opened Types

  /** The ids of a list, in list order. */
  function Ids(meds: seq<Medication>): (ids: seq<string>)
    ensures |ids| == |meds| && forall i :: 0 <= i < |meds| ==> ids[i] == meds[i].id
  {
    seq(|meds|, i requires 0 <= i < |meds| => meds[i].id)
  }

  /** No two entries share an id. */
  predicate UniqueIds(meds: seq<Medication>)
  {
    forall i, j :: 0 <= i < j < |meds| ==> meds[i].id != meds[j].id
  }

  /** `meds.find(m => m.id === id)`, where a null id matches nothing: the first
      entry carrying the id, or nothing when no entry does. */
  function FindById(meds: seq<Medication>, id: Option<string>): (r: Option<Medication>)
    ensures r.None? <==> forall i :: 0 <= i < |meds| ==> Some(meds[i].id) != id
    ensures r.Some? ==> r.value in meds && Some(r.value.id) == id
    ensures forall k :: 0 <= k < |meds| && Some(meds[k].id) == id ==>
      r.Some? && (r.value == meds[k] || exists j :: 0 <= j < k && meds[j] == r.value)
  {
    if meds == [] then None
    else if Some(meds[0].id) == id then Some(meds[0])
    else
      var r := FindById(meds[1..], id);
      assert forall k :: 1 <= k < |meds| ==> meds[k] == meds[1..][k - 1];
      r
  }

  /** `meds.map(m => m.id === updated.id ? updated : m)`. */
  function ReplaceById(meds: seq<Medication>, updated: Medication): (r: seq<Medication>)
    ensures |r| == |meds|
    ensures forall i :: 0 <= i < |meds| ==>
      r[i] == (if meds[i].id == updated.id then updated else meds[i])
  {
    seq(|meds|, i requires 0 <= i < |meds| => if meds[i].id == updated.id then updated else meds[i])
  }

  /** `meds.map(m => m.id === id ? { ...m, active: !m.active } : m)`. */
  function ToggleById(meds: seq<Medication>, id: string): (r: seq<Medication>)
    ensures |r| == |meds|
    ensures forall i :: 0 <= i < |meds| ==>
      r[i] == (if meds[i].id == id then meds[i].(active := !meds[i].active) else meds[i])
  {
    seq(|meds|, i requires 0 <= i < |meds| =>
      if meds[i].id == id then meds[i].(active := !meds[i].active) else meds[i])
  }

  /** `meds.filter(m => m.id !== id)`. */
  function RemoveById(meds: seq<Medication>, id: string): (r: seq<Medication>)
    ensures |r| <= |meds|
    ensures forall m :: m in r <==> m in meds && m.id != id
    ensures (forall i :: 0 <= i < |meds| ==> meds[i].id != id) ==> r == meds
  {
    if meds == [] then []
    else if meds[0].id == id then RemoveById(meds[1..], id)
    else [meds[0]] + RemoveById(meds[1..], id)
  }

  /** Replacing keeps every id where it was, so unique ids stay unique. */
  lemma ReplaceKeepsIds(meds: seq<Medication>, updated: Medication)
    ensures Ids(ReplaceById(meds, updated)) == Ids(meds)
    ensures UniqueIds(meds) ==> UniqueIds(ReplaceById(meds, updated))
  {
  }

  /** With unique ids, replacing the entry at k's id changes that entry and no other. */
  lemma ReplaceIsSingleUpdate(meds: seq<Medication>, updated: Medication, k: nat)
    requires UniqueIds(meds) && k < |meds| && meds[k].id == updated.id
    ensures ReplaceById(meds, updated) == meds[k := updated]
  {
  }

  /** Toggling changes only the `active` flag, so ids stay where they were. */
  lemma ToggleKeepsIds(meds: seq<Medication>, id: string)
    ensures Ids(ToggleById(meds, id)) == Ids(meds)
    ensures forall i :: 0 <= i < |meds| ==>
      ToggleById(meds, id)[i].(active := meds[i].active) == meds[i]
  {
  }

  /** Toggling the same id twice restores the list. */
  lemma ToggleTwice(meds: seq<Medication>, id: string)
    ensures ToggleById(ToggleById(meds, id), id) == meds
  {
    var r := ToggleById(ToggleById(meds, id), id);
    assert forall i :: 0 <= i < |meds| ==> r[i] == meds[i];
  }

  /** Removal keeps the order of what it keeps: filtering a concatenation is
      the concatenation of the filtered parts. */
  lemma {:induction false} RemoveDistributes(a: seq<Medication>, b: seq<Medication>, id: string)
    ensures RemoveById(a + b, id) == RemoveById(a, id) + RemoveById(b, id)
  {
    if a == [] {
      assert a + b == b;
    } else {
      assert (a + b)[1..] == a[1..] + b;
      RemoveDistributes(a[1..], b, id);
    }
  }

  /** With unique ids, removing the id of the entry at k drops that entry and
      keeps every other one, in order. */
  lemma {:induction false} RemoveIsSingleDelete(meds: seq<Medication>, id: string, k: nat)
    requires UniqueIds(meds) && k < |meds| && meds[k].id == id
    ensures RemoveById(meds, id) == meds[..k] + meds[k + 1..]
  {
    var before, after := meds[..k], meds[k + 1..];
    assert meds == before + ([meds[k]] + after);
    RemoveDistributes(before, [meds[k]] + after, id);
    RemoveDistributes([meds[k]], after, id);
    assert RemoveById([meds[k]], id) == RemoveById([], id) == [];
    assert forall i :: 0 <= i < |before| ==> before[i].id != id;
    assert forall i :: 0 <= i < |after| ==> after[i].id != id by {
      forall i | 0 <= i < |after| ensures after[i].id != id {
        assert after[i] == meds[k + 1 + i];
      }
    }
  }

  /** Removing twice removes nothing more. */
  lemma RemoveIdempotent(meds: seq<Medication>, id: string)
    ensures RemoveById(RemoveById(meds, id), id) == RemoveById(meds, id)
  {
  }

  /** After removal nothing carries the id, so a lookup by it finds nothing. */
  lemma RemoveThenFindNothing(meds: seq<Medication>, id: string)
    ensures FindById(RemoveById(meds, id), Some(id)).None?
  {
  }

  /** Appending keeps ids unique exactly when the new id is fresh. */
  lemma AppendKeepsUnique(meds: seq<Medication>, med: Medication)
    ensures UniqueIds(meds + [med]) <==> UniqueIds(meds) && med.id !in Ids(meds)
  {
    var r := meds + [med];
    if UniqueIds(r) {
      assert forall i :: 0 <= i < |meds| ==> r[i] == meds[i];
      assert r[|meds|] == med;
    }
  }
}
