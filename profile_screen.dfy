/** The profile form's updates and its forward button
    (components/ProfileScreen.tsx). Image decoding and resizing are left out;
    the encoded image arrives as a string. */
module ProfileScreen {
  import opened Types

  /** `{...user, name: v}` */
  function WithName(user: UserProfile, v: string): (u: UserProfile)
    ensures u.name == v
    ensures u.disease == user.disease && u.birthDate == user.birthDate && u.profileImage == user.profileImage
  {
    user.(name := v)
  }

  /** `{...user, disease: v}` */
  function WithDisease(user: UserProfile, v: string): (u: UserProfile)
    ensures u.disease == v
    ensures u.name == user.name && u.birthDate == user.birthDate && u.profileImage == user.profileImage
  {
    user.(disease := v)
  }

  /** `{...user, birthDate: v}` */
  function WithBirthDate(user: UserProfile, v: string): (u: UserProfile)
    ensures u.birthDate == v
    ensures u.name == user.name && u.disease == user.disease && u.profileImage == user.profileImage
  {
    user.(birthDate := v)
  }

  /** `{ ...user, profileImage: compressedBase64 }` */
  function WithImage(user: UserProfile, image: string): (u: UserProfile)
    ensures u.profileImage == Some(image)
    ensures u.name == user.name && u.disease == user.disease && u.birthDate == user.birthDate
  {
    user.(profileImage := Some(image))
  }

  /** The forward button is enabled: a name, a disease, and no image being
      processed. */
  predicate CanProceed(user: UserProfile, isProcessing: bool): (enabled: bool)
    ensures enabled ==> user.name != "" && user.disease != ""
    ensures isProcessing ==> !enabled
  {
    user.name != "" && user.disease != "" && !isProcessing
  }

  /** Only the name and the disease decide the button: the birth date and the
      image never enable or disable it. */
  lemma ButtonIgnoresOptionalFields(user: UserProfile, isProcessing: bool, date: string, image: string)
    ensures CanProceed(WithBirthDate(user, date), isProcessing) == CanProceed(user, isProcessing)
    ensures CanProceed(WithImage(user, image), isProcessing) == CanProceed(user, isProcessing)
  {
  }

  /** Filling in a name and a disease on any profile enables the button
      exactly when both are non-empty and no image is being processed. */
  lemma FillingEnables(user: UserProfile, name: string, disease: string, isProcessing: bool)
    ensures CanProceed(WithDisease(WithName(user, name), disease), isProcessing)
      <==> name != "" && disease != "" && !isProcessing
  {
  }

  /** Edits of different fields do not interfere: their order is irrelevant. */
  lemma EditsCommute(user: UserProfile, name: string, disease: string, date: string)
    ensures WithName(WithDisease(user, disease), name) == WithDisease(WithName(user, name), disease)
    ensures WithName(WithBirthDate(user, date), name) == WithBirthDate(WithName(user, name), date)
    ensures WithDisease(WithBirthDate(user, date), disease) == WithBirthDate(WithDisease(user, disease), date)
  {
  }
}
