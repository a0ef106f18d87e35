/** The form that edits or deletes a medication (components/EditMedScreen.tsx). */
module EditMedScreen {
  import opened Types
  import opened TimeFormat

  /** `{ ...med, name, dosage, time }`: the record saved, with only the three
      edited fields replaced. */
  function EditedMedication(med: Medication, name: string, dosage: string, time: string): (r: Medication)
    ensures r.id == med.id && r.days == med.days && r.active == med.active && r.icon == med.icon
    ensures r.name == name && r.dosage == dosage && r.time == time
  {
    med.(name := name, dosage := dosage, time := time)
  }

  /** Saving the form as it was opened gives back the medication unchanged. */
  lemma SaveUneditedIsIdentity(med: Medication)
    ensures EditedMedication(med, med.name, med.dosage, med.time) == med
  {
  }

  /** Editing twice is the same as editing once with the last values. */
  lemma LastEditWins(med: Medication, n1: string, d1: string, t1: string, n2: string, d2: string, t2: string)
    ensures EditedMedication(EditedMedication(med, n1, d1, t1), n2, d2, t2) == EditedMedication(med, n2, d2, t2)
  {
  }

  /** The form's state for the medication `med` it was opened on. */
  class EditMedForm {
    const med: Medication
    var name: string
    var dosage: string
    var time: string

    /** A time input holds nothing or a valid `HH:mm`, as long as it started
        from one. */
    ghost predicate Valid()
      reads this
    {
      IsHHmm(med.time) ==> (time == "" || IsHHmm(time))
    }

    /** The fields start as the medication's own name, dosage and time. */
    constructor (med: Medication)
      ensures Valid()
      ensures this.med == med && name == med.name && dosage == med.dosage && time == med.time
    {
      this.med := med;
      name, dosage, time := med.name, med.dosage, med.time;
    }

    method SetName(v: string)
      requires Valid()
      modifies this
      ensures Valid()
      ensures name == v && dosage == old(dosage) && time == old(time)
    {
      name := v;
    }

    method SetDosage(v: string)
      requires Valid()
      modifies this
      ensures Valid()
      ensures dosage == v && name == old(name) && time == old(time)
    {
      dosage := v;
    }

    method SetTime(v: string)
      requires Valid() && (v == "" || IsHHmm(v))
      modifies this
      ensures Valid()
      ensures time == v && name == old(name) && dosage == old(dosage)
    {
      time := v;
    }

    /** `handleSubmit`: blocked by the browser while a required input is
        empty, otherwise the medication with only name, dosage and time
        replaced; a valid time stays valid. */
    method Submit() returns (saved: Option<Medication>)
      requires Valid()
      ensures saved.Some? <==> name != "" && dosage != "" && time != ""
      ensures saved.Some? ==> saved.value == EditedMedication(med, name, dosage, time)
      ensures saved.Some? ==> saved.value.id == med.id && saved.value.active == med.active
      ensures saved.Some? && IsHHmm(med.time) ==> IsHHmm(saved.value.time)
    {
      if name == "" || dosage == "" || time == "" {
        return None;
      }
      saved := Some(EditedMedication(med, name, dosage, time));
    }

    /** `handleDelete`: the id handed to `onDelete`, only when the user
        confirms the prompt; nothing otherwise. */
    method HandleDelete(confirmed: bool) returns (deleted: Option<string>)
      ensures deleted.Some? <==> confirmed
      ensures deleted.Some? ==> deleted.value == med.id
    {
      if confirmed {
        deleted := Some(med.id);
      } else {
        deleted := None;
      }
    }
  }
}
