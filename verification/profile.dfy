/** The settings page's submit handler: the sparse profile record it sends,
    holding only the fields the user actually filled in. */
module Profile {
  import opened Optional
  import opened Text
  import opened Dates

  /** The `profileData` object; an absent key is `None`. The type has no
      other keys, so the record never carries anything else. */
  datatype ProfileData = ProfileData(
    name: Option<string>,
    gender: Option<string>,
    birthDate: Option<string>)

  /** The form fields: the name and gender inputs and the picked birth date
      (`null` when none is picked). */
  datatype ProfileForm = ProfileForm(name: string, gender: string, birthDate: Option<DateParts>)

  /** The `name` entry: the trimmed name, when anything is left of it. */
  function NameEntry(name: string): (r: Option<string>)
    ensures r.Some? <==> !AllWs(name)
    ensures r.Some? ==> r.value == Trim(name) && r.value != ""
    ensures r.Some? ==> !IsWs(r.value[0]) && !IsWs(r.value[|r.value| - 1])
  {
    TrimEmptyIffAllWs(name);
    var trimmed := Trim(name);
    if trimmed != "" then Some(trimmed) else None
  }

  /** Builds `profileData` from the form. */
  function BuildProfile(f: ProfileForm): (r: ProfileData)
    ensures r.name.Some? <==> Trim(f.name) != ""
    ensures r.name.Some? ==> r.name.value == Trim(f.name)
    ensures r.gender.Some? <==> f.gender != ""
    ensures r.gender.Some? ==> r.gender.value == f.gender
    ensures r.birthDate.Some? <==> f.birthDate.Some?
    ensures r.birthDate.Some? ==> r.birthDate.value == FormatDate(f.birthDate.value)
  {
    ProfileData(
      NameEntry(f.name),
      if f.gender != "" then Some(f.gender) else None,
      if f.birthDate.Some? then Some(FormatDate(f.birthDate.value)) else None)
  }

  /** The stored birth date reads back as the date that was picked. */
  lemma BirthDateRoundTrip(f: ProfileForm)
    requires f.birthDate.Some? && ValidParts(f.birthDate.value)
    ensures ParseDate(BuildProfile(f).birthDate.value) == f.birthDate
  {
    FormatParseRoundTrip(f.birthDate.value);
  }

  /** Month and day are always the last two two-digit fields of the stored
      string, and they read back as the picked month and day. */
  lemma BirthDateShape(f: ProfileForm)
    requires f.birthDate.Some? && ValidParts(f.birthDate.value)
    ensures var d := f.birthDate.value;
      var s := BuildProfile(f).birthDate.value;
      && AllDigits(s[|s| - 5..|s| - 3]) && DecimalValue(s[|s| - 5..|s| - 3]) == d.month0 + 1
      && AllDigits(s[|s| - 2..]) && DecimalValue(s[|s| - 2..]) == d.day
  {
    FormatDateFields(f.birthDate.value);
  }

  /** Submitting the name the profile already stores changes nothing: a
      stored name is already trimmed. */
  lemma NameStable(f: ProfileForm)
    requires Trim(f.name) != ""
    ensures BuildProfile(f.(name := BuildProfile(f).name.value)).name == BuildProfile(f).name
  {
    TrimIdempotent(f.name);
    TrimEmptyIffAllWs(Trim(f.name));
  }
}
