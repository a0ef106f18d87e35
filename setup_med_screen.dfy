/** The form that creates a medication (components/SetupMedScreen.tsx). */
module SetupMedScreen {
  import opened Types
  import opened TimeFormat

  /** The icon identifiers the picker offers. */
  const Icons: seq<string> := ["fa-pills", "fa-capsules", "fa-vial", "fa-prescription-bottle", "fa-tablets"]

  /** The weekday tags every new medication is scheduled on, Monday first. */
  const AllDays: seq<string> := ["Mon", "Tue", "Wed", "Thu", "Fri", "Sat", "Sun"]

  /** The record `handleSubmit` builds: the form's values, switched on, every
      day of the week. */
  function NewMedication(id: string, name: string, dosage: string, time: string, icon: string): (med: Medication)
    ensures med.active && med.days == AllDays && |med.days| == 7
    ensures med.id == id && med.name == name && med.dosage == dosage && med.time == time && med.icon == icon
  {
    Medication(id, name, dosage, time, AllDays, true, icon)
  }

  /** The form's state: one field per input. */
  class SetupMedForm {
    var name: string
    var dosage: string
    var time: string
    var icon: string

    /** The icon is one the picker offers and the time input holds either
        nothing or a valid `HH:mm` string. */
    ghost predicate Valid()
      reads this
    {
      icon in Icons && (time == "" || IsHHmm(time))
    }

    /** The defaults: empty name and dosage, eight o'clock, the pill icon. */
    constructor ()
      ensures Valid()
      ensures name == "" && dosage == "" && time == "08:00" && icon == "fa-pills"
    {
      name, dosage, time, icon := "", "", "08:00", "fa-pills";
    }

    method SetName(v: string)
      requires Valid()
      modifies this
      ensures Valid()
      ensures name == v && dosage == old(dosage) && time == old(time) && icon == old(icon)
    {
      name := v;
    }

    method SetDosage(v: string)
      requires Valid()
      modifies this
      ensures Valid()
      ensures dosage == v && name == old(name) && time == old(time) && icon == old(icon)
    {
      dosage := v;
    }

    /** A time input only ever holds nothing or a valid `HH:mm` string. */
    method SetTime(v: string)
      requires Valid() && (v == "" || IsHHmm(v))
      modifies this
      ensures Valid()
      ensures time == v && name == old(name) && dosage == old(dosage) && icon == old(icon)
    {
      time := v;
    }

    /** Clicking the k-th icon button. */
    method SetIcon(k: nat)
      requires Valid() && k < |Icons|
      modifies this
      ensures Valid()
      ensures icon == Icons[k] && name == old(name) && dosage == old(dosage) && time == old(time)
    {
      icon := Icons[k];
    }

    /** Submitting the form at clock instant `now`. The browser refuses to
        submit while a required input is empty; otherwise the new
        medication is built from exactly the current field values, with
        `now` in decimal as its id, and its time is a valid `HH:mm`. */
    method Submit(now: nat) returns (r: Option<Medication>)
      requires Valid()
      ensures r.Some? <==> name != "" && dosage != "" && time != ""
      ensures r.Some? ==> r.value == NewMedication(DecimalString(now), name, dosage, time, icon)
      ensures r.Some? ==> IsHHmm(r.value.time) && r.value.icon in Icons && r.value.active
    {
      if name == "" || dosage == "" || time == "" {
        return None;
      }
      r := Some(NewMedication(DecimalString(now), name, dosage, time, icon));
    }
  }
}
