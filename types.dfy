/** The domain model: the profile, a scheduled medication, a history entry and
    the closed set of screens the application can show (types.ts). */
module Types {

  /** A value that may be absent: TypeScript's optional field, `T | null`. */
  datatype Option<T> = None | Some(value: T)

  /** The single user profile. Only `profileImage` is optional. */
  datatype UserProfile = UserProfile(
    name: string,
    disease: string,
    birthDate: string,
    profileImage: Option<string>)

  /** The profile a fresh installation starts with. */
  const BlankProfile: UserProfile := UserProfile("", "", "", None)

  /** A scheduled medication. `time` is meant to be an `HH:mm` string and
      `days` holds weekday tags such as "Mon". */
  datatype Medication = Medication(
    id: string,
    name: string,
    dosage: string,
    time: string,
    days: seq<string>,
    active: bool,
    icon: string)

  /** The outcome the user chose when acknowledging an alarm. */
  datatype Status = Taken | Skipped

  /** The string literal a status is stored as. */
  function StatusTag(s: Status): (tag: string)
    ensures tag == "taken" || tag == "skipped"
  {
    match s
    case Taken => "taken"
    case Skipped => "skipped"
  }

  /** One entry of the dose history; `medicationName` is a copy of the name,
      not a reference to the medication. */
  datatype HistoryLog = HistoryLog(
    id: string,
    medicationName: string,
    timeTaken: string,
    status: Status,
    timestamp: int)

  /** The screens of the application. */
  datatype AppScreen = Profile | SettingMed | Dashboard | EditMed | Alarm | History

  /** The string value each enum member carries. */
  function ScreenTag(s: AppScreen): string
  {
    match s
    case Profile => "PROFILE"
    case SettingMed => "SETTING_MED"
    case Dashboard => "DASHBOARD"
    case EditMed => "EDIT_MED"
    case Alarm => "ALARM"
    case History => "HISTORY"
  }

  /** The enum members in declaration order. */
  const AllScreens: seq<AppScreen> := [Profile, SettingMed, Dashboard, EditMed, Alarm, History]

  /** There are exactly six screens: the list names every screen, once each,
      and no two screens share a string value. */
  lemma ScreensAreSix()
    ensures |AllScreens| == 6
    ensures forall s: AppScreen :: s in AllScreens
    ensures forall i, j :: 0 <= i < j < |AllScreens| ==>
      ScreenTag(AllScreens[i]) != ScreenTag(AllScreens[j])
    ensures forall s, t: AppScreen :: ScreenTag(s) == ScreenTag(t) ==> s == t
  {
    forall s: AppScreen ensures s in AllScreens {
      match s
      case Profile => assert AllScreens[0] == s;
      case SettingMed => assert AllScreens[1] == s;
      case Dashboard => assert AllScreens[2] == s;
      case EditMed => assert AllScreens[3] == s;
      case Alarm => assert AllScreens[4] == s;
      case History => assert AllScreens[5] == s;
    }
  }

  /** There are exactly two outcomes, stored as distinct strings. */
  lemma StatusesAreTwo()
    ensures Taken != Skipped
    ensures forall s, t: Status :: StatusTag(s) == StatusTag(t) ==> s == t
  {
  }
}
