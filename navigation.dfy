/** Which screen the application starts on and what `renderScreen` shows for
    the controller's state (App.tsx:42-44, 128-162). */
module Navigation {
  import opened Types
  import MedList

  /** The start screen: the dashboard once a profile name exists, the profile
      form before that. */
  function InitialScreen(user: UserProfile): (s: AppScreen)
    ensures s == Dashboard <==> user.name != ""
    ensures s == Profile <==> user.name == ""
  {
    if user.name != "" then Dashboard else Profile
  }

  /** What is on screen. Editing and alarm views carry the record they show. */
  datatype View =
    | ProfileView
    | DashboardView
    | SetupMedView
    | EditMedView(med: Medication)
    | HistoryView
    | AlarmView(med: Medication)
    | Blank

  /** `renderScreen()`. Each plain screen shows its own view. The edit view
      shows the first record in the list under the id being edited, and
      falls back to the dashboard when that id is gone; the alarm screen
      shows the alarm target, and nothing is shown only for an alarm without
      a target. */
  function Render(screen: AppScreen, meds: seq<Medication>, editingMedId: Option<string>,
                  activeMedForAlarm: Option<Medication>): (v: View)
    ensures screen == Profile ==> v == ProfileView
    ensures screen == SettingMed ==> v == SetupMedView
    ensures screen == History ==> v == HistoryView
    ensures screen == Alarm && activeMedForAlarm.Some? ==> v == AlarmView(activeMedForAlarm.value)
    ensures v.EditMedView? ==> v.med in meds && Some(v.med.id) == editingMedId
    ensures v.EditMedView? ==> Some(v.med) == MedList.FindById(meds, editingMedId)
    ensures v.EditMedView? <==> screen == EditMed && MedList.FindById(meds, editingMedId).Some?
    ensures v.AlarmView? ==> activeMedForAlarm == Some(v.med)
    ensures v == Blank <==> screen == Alarm && activeMedForAlarm.None?
    ensures v == DashboardView <==>
      screen == Dashboard || (screen == EditMed && MedList.FindById(meds, editingMedId).None?)
  {
    match screen
    case Profile => ProfileView
    case Dashboard => DashboardView
    case SettingMed => SetupMedView
    case EditMed =>
      var medToEdit := MedList.FindById(meds, editingMedId);
      if medToEdit.Some? then EditMedView(medToEdit.value) else DashboardView
    case History => HistoryView
    case Alarm => if activeMedForAlarm.Some? then AlarmView(activeMedForAlarm.value) else Blank
  }

  /** Once a record is removed, no state of the controller renders it for
      editing: content-addressed lookup cannot reach it. */
  lemma RemovedNeverEdited(screen: AppScreen, meds: seq<Medication>, id: string,
                           editingMedId: Option<string>, activeMedForAlarm: Option<Medication>)
    ensures var v := Render(screen, MedList.RemoveById(meds, id), editingMedId, activeMedForAlarm);
      v.EditMedView? ==> v.med.id != id
  {
  }
}
