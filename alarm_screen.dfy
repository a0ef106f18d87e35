/** The acknowledgment the alarm screen produces (components/AlarmScreen.tsx:63-71,
    99-110). Speech, the beep loop and the pulse animation are left out. */
module AlarmScreen {
  import opened Types
  import TimeFormat

  /** The two action buttons of the screen. */
  datatype Button = SkipButton | TakenButton

  /** The outcome each button reports: skip gives `skipped`, the other `taken`. */
  function ButtonStatus(b: Button): (s: Status)
    ensures s == Skipped <==> b == SkipButton
    ensures s == Taken <==> b == TakenButton
  {
    match b
    case SkipButton => Skipped
    case TakenButton => Taken
  }

  /** `handleAction(status)`: the one log handed to `onConfirm`. The clock is
      read twice, `idClock` for the id and `stampClock` for the timestamp;
      `localeTime` is the Thai-locale time string of the moment. The log
      snapshots the medication's name, carries the chosen outcome, and its id
      is the decimal string that reads back as `idClock`. */
  function HandleAction(medication: Medication, status: Status, idClock: nat, localeTime: string, stampClock: nat): (log: HistoryLog)
    ensures log.medicationName == medication.name
    ensures log.status == status
    ensures log.timeTaken == localeTime && log.timestamp == stampClock
    ensures TimeFormat.DecimalValue(log.id) == idClock
  {
    TimeFormat.DecimalRoundTrip(idClock);
    HistoryLog(TimeFormat.DecimalString(idClock), medication.name, localeTime, status, stampClock)
  }

  /** Pressing a button: one log whose outcome is the button's. */
  function Press(medication: Medication, b: Button, idClock: nat, localeTime: string, stampClock: nat): (log: HistoryLog)
    ensures log.status == Skipped <==> b == SkipButton
    ensures log.medicationName == medication.name
  {
    HandleAction(medication, ButtonStatus(b), idClock, localeTime, stampClock)
  }

  /** Logs taken at different instants get different ids. */
  lemma DistinctInstantsDistinctIds(m1: Medication, s1: Status, c1: nat, t1: string, p1: nat,
                                    m2: Medication, s2: Status, c2: nat, t2: string, p2: nat)
    requires c1 != c2
    ensures HandleAction(m1, s1, c1, t1, p1).id != HandleAction(m2, s2, c2, t2, p2).id
  {
  }
}
