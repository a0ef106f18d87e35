/** The application controller (App.tsx): the state `App` holds, the timer
    tick, and the handlers the screens call. */
module App {
  import opened Types
  import opened TimeFormat
  import opened MedList
  import opened Scheduler
  import opened Navigation
  import AlarmScreen
  import EditMedScreen
  import ProfileScreen

  class AppState {
    var user: UserProfile
    var meds: seq<Medication>
    var history: seq<HistoryLog>
    var screen: AppScreen
    var activeMedForAlarm: Option<Medication>
    var editingMedId: Option<string>
    /** `lastAlarmRef.current`: the clock string of the minute that last rang. */
    var lastAlarm: Option<string>

    /** The alarm screen always has a target; the target is an active
        medication due at the minute that last rang, and that minute is a
        valid `HH:mm` string. */
    ghost predicate Valid()
      reads this
    {
      (screen == Alarm ==> activeMedForAlarm.Some?)
      && (activeMedForAlarm.Some? ==>
            activeMedForAlarm.value.active && lastAlarm == Some(activeMedForAlarm.value.time))
      && (lastAlarm.Some? ==> IsHHmm(lastAlarm.value))
    }

    /** What `renderScreen` shows now: the alarm exactly when the alarm
        screen has a target, and for editing only a medication of the list. */
    function CurrentView(): (v: View)
      reads this
      ensures v.AlarmView? <==> screen == Alarm && activeMedForAlarm.Some?
      ensures v.AlarmView? ==> Some(v.med) == activeMedForAlarm
      ensures v.EditMedView? ==> v.med in meds && Some(v.med.id) == editingMedId
    {
      Render(screen, meds, editingMedId, activeMedForAlarm)
    }

    /** Start-up: each stored record is used when present, a missing or
        unreadable one gives the blank profile or an empty list; the screen
        follows from whether a profile name exists. */
    constructor (savedUser: Option<UserProfile>, savedMeds: Option<seq<Medication>>,
                 savedHistory: Option<seq<HistoryLog>>)
      ensures Valid()
      ensures user == (if savedUser.Some? then savedUser.value else BlankProfile)
      ensures meds == (if savedMeds.Some? then savedMeds.value else [])
      ensures history == (if savedHistory.Some? then savedHistory.value else [])
      ensures screen == InitialScreen(user)
      ensures activeMedForAlarm == None && editingMedId == None && lastAlarm == None
    {
      var loaded := if savedUser.Some? then savedUser.value else BlankProfile;
      user := loaded;
      meds := if savedMeds.Some? then savedMeds.value else [];
      history := if savedHistory.Some? then savedHistory.value else [];
      screen := InitialScreen(loaded);
      activeMedForAlarm, editingMedId, lastAlarm := None, None, None;
    }

    /** One timer tick at the given hour and minute. When the minute has
        already rung or nothing is due, nothing changes (the marker is kept).
        Otherwise the marker becomes this minute, the first due medication
        becomes the alarm target and the alarm screen opens. */
    method Tick(hours: nat, minutes: nat)
      requires Valid() && hours < 24 && minutes < 60
      modifies this
      ensures Valid()
      ensures var now := FormatHHmm(hours, minutes);
        var e := Evaluate(now, old(meds), old(lastAlarm));
        lastAlarm == NextMarker(now, old(meds), old(lastAlarm))
        && (e.Some? ==> screen == Alarm && activeMedForAlarm == e && lastAlarm == Some(now))
        && (e.None? ==> screen == old(screen) && activeMedForAlarm == old(activeMedForAlarm)
                        && lastAlarm == old(lastAlarm))
      ensures user == old(user) && meds == old(meds) && history == old(history)
      ensures editingMedId == old(editingMedId)
    {
      var currentTime := FormatHHmm(hours, minutes);
      if lastAlarm == Some(currentTime) {
        return;
      }
      var triggerMed := FindTrigger(meds, currentTime);
      if triggerMed.Some? {
        FormatHHmmIsHHmm(hours, minutes);
        lastAlarm := Some(currentTime);
        activeMedForAlarm := triggerMed;
        screen := Alarm;
      }
    }

    /** `addMed`: the new medication goes at the end, every existing entry
        stays as it was, and the dashboard shows. */
    method AddMed(med: Medication)
      requires Valid()
      modifies this
      ensures Valid()
      ensures meds == old(meds) + [med] && screen == Dashboard
      ensures user == old(user) && history == old(history) && activeMedForAlarm == old(activeMedForAlarm)
      ensures editingMedId == old(editingMedId) && lastAlarm == old(lastAlarm)
    {
      meds := meds + [med];
      screen := Dashboard;
    }

    /** `updateMed`: entries with the updated id are replaced, everything else
        keeps its place, and the dashboard shows. */
    method UpdateMed(updated: Medication)
      requires Valid()
      modifies this
      ensures Valid()
      ensures meds == ReplaceById(old(meds), updated) && screen == Dashboard
      ensures Ids(meds) == Ids(old(meds))
      ensures user == old(user) && history == old(history) && activeMedForAlarm == old(activeMedForAlarm)
      ensures editingMedId == old(editingMedId) && lastAlarm == old(lastAlarm)
    {
      ReplaceKeepsIds(meds, updated);
      meds := ReplaceById(meds, updated);
      screen := Dashboard;
    }

    /** `toggleMedStatus`: flips `active` on the entries with the id; the
        screen stays. */
    method ToggleMedStatus(id: string)
      requires Valid()
      modifies this
      ensures Valid()
      ensures meds == ToggleById(old(meds), id) && Ids(meds) == Ids(old(meds))
      ensures screen == old(screen)
      ensures user == old(user) && history == old(history) && activeMedForAlarm == old(activeMedForAlarm)
      ensures editingMedId == old(editingMedId) && lastAlarm == old(lastAlarm)
    {
      ToggleKeepsIds(meds, id);
      meds := ToggleById(meds, id);
    }

    /** `deleteMed`, first part: leave for the dashboard. Nothing is removed
        yet, and no view holds a medication any more. */
    method DeleteMedPhase1()
      requires Valid()
      modifies this
      ensures Valid()
      ensures screen == Dashboard && CurrentView() == DashboardView
      ensures meds == old(meds)
      ensures user == old(user) && history == old(history) && activeMedForAlarm == old(activeMedForAlarm)
      ensures editingMedId == old(editingMedId) && lastAlarm == old(lastAlarm)
    {
      screen := Dashboard;
    }

    /** `deleteMed`, deferred part: drop every entry with the id, keeping the
        rest in order, and forget the edit target. Whatever screen is up at
        that moment stays. */
    method DeleteMedPhase2(id: string)
      requires Valid()
      modifies this
      ensures Valid()
      ensures meds == RemoveById(old(meds), id) && editingMedId == None
      ensures screen == old(screen)
      ensures user == old(user) && history == old(history) && activeMedForAlarm == old(activeMedForAlarm)
      ensures lastAlarm == old(lastAlarm)
    {
      meds := RemoveById(meds, id);
      editingMedId := None;
    }

    /** `deleteMed` with nothing else happening between its two parts. */
    method DeleteMed(id: string)
      requires Valid()
      modifies this
      ensures Valid()
      ensures screen == Dashboard && CurrentView() == DashboardView
      ensures meds == RemoveById(old(meds), id) && FindById(meds, Some(id)).None?
      ensures editingMedId == None
      ensures user == old(user) && history == old(history) && activeMedForAlarm == old(activeMedForAlarm)
      ensures lastAlarm == old(lastAlarm)
    {
      DeleteMedPhase1();
      DeleteMedPhase2(id);
      RemoveThenFindNothing(old(meds), id);
    }

    /** `recordLog`: the log goes in front of the history, the old history
        follows unchanged, and the dashboard shows. */
    method RecordLog(log: HistoryLog)
      requires Valid()
      modifies this
      ensures Valid()
      ensures history == [log] + old(history) && screen == Dashboard
      ensures user == old(user) && meds == old(meds) && activeMedForAlarm == old(activeMedForAlarm)
      ensures editingMedId == old(editingMedId) && lastAlarm == old(lastAlarm)
    {
      history := [log] + history;
      screen := Dashboard;
    }

    /** A button press on the alarm screen and the `onConfirm` it triggers:
        exactly one log, built from the target as it was, goes in front of the
        history; the target is cleared and the dashboard shows. */
    method AcknowledgeAlarm(button: AlarmScreen.Button, idClock: nat, localeTime: string, stampClock: nat)
      returns (log: HistoryLog)
      requires Valid() && CurrentView().AlarmView?
      modifies this
      ensures Valid()
      ensures log == AlarmScreen.Press(old(activeMedForAlarm).value, button, idClock, localeTime, stampClock)
      ensures log.medicationName == old(activeMedForAlarm).value.name
      ensures log.status == AlarmScreen.ButtonStatus(button)
      ensures history == [log] + old(history) && |history| == |old(history)| + 1 && history[1..] == old(history)
      ensures screen == Dashboard && activeMedForAlarm == None
      ensures user == old(user) && meds == old(meds)
      ensures editingMedId == old(editingMedId) && lastAlarm == old(lastAlarm)
    {
      log := AlarmScreen.Press(activeMedForAlarm.value, button, idClock, localeTime, stampClock);
      RecordLog(log);
      activeMedForAlarm := None;
    }

    /** `goToEdit`: remember the id and open the edit screen, which shows the
        first entry with that id or, when there is none, the dashboard. */
    method GoToEdit(id: string)
      requires Valid()
      modifies this
      ensures Valid()
      ensures editingMedId == Some(id) && screen == EditMed
      ensures CurrentView() ==
        if FindById(meds, Some(id)).Some? then EditMedView(FindById(meds, Some(id)).value) else DashboardView
      ensures user == old(user) && meds == old(meds) && history == old(history)
      ensures activeMedForAlarm == old(activeMedForAlarm) && lastAlarm == old(lastAlarm)
    {
      editingMedId := Some(id);
      screen := EditMed;
    }

    /** The plain screen switches the screens' callbacks make: add, history,
        profile, and back or cancel to the dashboard. Only the screen changes;
        in particular cancelling an edit neither saves nor deletes. */
    method Navigate(target: AppScreen)
      requires Valid()
      requires target == Profile || target == SettingMed || target == Dashboard || target == History
      modifies this
      ensures Valid()
      ensures screen == target
      ensures user == old(user) && meds == old(meds) && history == old(history)
      ensures activeMedForAlarm == old(activeMedForAlarm) && editingMedId == old(editingMedId)
      ensures lastAlarm == old(lastAlarm)
    {
      screen := target;
    }

    /** `setUser`, as the profile form calls it. */
    method SetUser(u: UserProfile)
      requires Valid()
      modifies this
      ensures Valid()
      ensures user == u
      ensures screen == old(screen) && meds == old(meds) && history == old(history)
      ensures activeMedForAlarm == old(activeMedForAlarm) && editingMedId == old(editingMedId)
      ensures lastAlarm == old(lastAlarm)
    {
      user := u;
    }

    /** In any reachable state the alarm screen has something to show. */
    lemma AlarmNeverBlank()
      requires Valid()
      ensures CurrentView() != Blank
    {
    }
  }

  /** A profile the forward button accepts opens on the dashboard at the next
      start. */
  lemma ProceedingOpensDashboard(user: UserProfile, isProcessing: bool)
    requires ProfileScreen.CanProceed(user, isProcessing)
    ensures InitialScreen(user) == Dashboard
  {
  }

  /** Saving an edit of the k-th medication of a list with unique ids changes
      that entry only and keeps the ids, so they stay unique. */
  lemma SaveEditChangesOneEntry(meds: seq<Medication>, k: nat, name: string, dosage: string, time: string)
    requires UniqueIds(meds) && k < |meds|
    ensures var edited := EditMedScreen.EditedMedication(meds[k], name, dosage, time);
      ReplaceById(meds, edited) == meds[k := edited]
      && Ids(ReplaceById(meds, edited)) == Ids(meds)
      && UniqueIds(ReplaceById(meds, edited))
  {
  }

  /** Deleting from the edit screen of the k-th medication of a list with
      unique ids removes that entry only. */
  lemma DeleteFromEditRemovesOneEntry(meds: seq<Medication>, k: nat)
    requires UniqueIds(meds) && k < |meds|
    ensures RemoveById(meds, meds[k].id) == meds[..k] + meds[k + 1..]
  {
    RemoveIsSingleDelete(meds, meds[k].id, k);
  }
}
