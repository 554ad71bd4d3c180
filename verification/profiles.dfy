/** The tool profile: five string properties kept in a key/value store.

    The store behind `DataObject.GetString`/`SetValue` is not part of this
    model; it is a `map<string, string>` in which an absent key reads as
    null. Setters never store null, so stored values are plain strings. */
module Profiles {
  import opened Basics

  datatype Property = AdvancedSettings | ConnectionString | InstancesFolder | License | LocalRepository

  /** The store key each property reads and writes. */
  function Key(p: Property): string {
    match p
    case AdvancedSettings => "AdvancedSettings"
    case ConnectionString => "ConnectionString"
    case InstancesFolder => "InstancesFolder"
    case License => "License"
    case LocalRepository => "LocalRepository"
  }

  datatype Profile = Profile(data: map<string, string>)

  /** A newly constructed profile stores nothing. */
  const Empty: Profile := Profile(map[])

  /** Distinct properties never share a key, so writes do not interfere. */
  lemma KeyInjective(p: Property, q: Property)
    ensures Key(p) == Key(q) <==> p == q
  {
    if p != q {
      var a, b := Key(p), Key(q);
      assert a[0] != b[0] || a[1] != b[1] || |a| != |b|;
    }
  }

  /** Property getter: the stored value, or "" when nothing is stored. */
  function Get(profile: Profile, p: Property): (r: string)
    ensures Key(p) in profile.data ==> r == profile.data[Key(p)]
    ensures Key(p) !in profile.data ==> r == ""
  {
    if Key(p) in profile.data then profile.data[Key(p)] else ""
  }

  /** The store write behind a setter, once null has been ruled out. Reading
      the property back gives the value; every other property is unchanged. */
  function Put(profile: Profile, p: Property, value: string): (r: Profile)
    ensures Get(r, p) == value
    ensures forall q :: q != p ==> Get(r, q) == Get(profile, q)
  {
    var r := Profile(profile.data[Key(p) := value]);
    forall q | q != p ensures Get(r, q) == Get(profile, q) {
      KeyInjective(p, q);
    }
    r
  }

  /** Property setter: rejects null; otherwise writes the value. */
  function Set(profile: Profile, p: Property, value: Option<string>): (r: Result<Profile>)
    ensures r.Failure? <==> value.None?
    ensures r.Failure? ==> r.error == ArgumentNull("value")
    ensures r.Success? ==> Get(r.value, p) == value.value
    ensures r.Success? ==> forall q :: q != p ==> Get(r.value, q) == Get(profile, q)
  {
    if value.None? then Failure(ArgumentNull("value")) else Success(Put(profile, p, value.value))
  }

  /** `Clone`: a fresh profile given four of the five properties; the
      advanced settings are not carried over. */
  function Clone(profile: Profile): (r: Profile)
    ensures forall q :: q != AdvancedSettings ==> Get(r, q) == Get(profile, q)
    ensures Get(r, AdvancedSettings) == ""
  {
    var a := Put(Empty, ConnectionString, Get(profile, ConnectionString));
    var b := Put(a, InstancesFolder, Get(profile, InstancesFolder));
    var c := Put(b, License, Get(profile, License));
    Put(c, LocalRepository, Get(profile, LocalRepository))
  }

  /** Cloning a clone gives the same store. */
  lemma CloneIdempotent(profile: Profile)
    ensures Clone(Clone(profile)) == Clone(profile)
  {
  }

  /** A profile with non-empty advanced settings differs from its clone. */
  lemma CloneDropsAdvancedSettings(profile: Profile)
    requires Get(profile, AdvancedSettings) != ""
    ensures Clone(profile) != profile
  {
  }

  /** `Save` always throws. */
  function Save(profile: Profile): (r: Outcome)
    ensures r.Fail? && r.error.NotImplemented?
  {
    Fail(NotImplemented("Not required here"))
  }

  /** `ValidateInstancesFolder`: the folder must be set and must exist. */
  function ValidateInstancesFolder(profile: Profile, directoryExists: string -> bool): (r: Outcome)
    ensures r == Fail(AssertionFailed("The InstancesFolder is null or empty"))
            <==> Get(profile, InstancesFolder) == ""
    ensures r.Pass? <==> Get(profile, InstancesFolder) != "" && directoryExists(Get(profile, InstancesFolder))
  {
    var folder := Get(profile, InstancesFolder);
    if folder == "" then Fail(AssertionFailed("The InstancesFolder is null or empty"))
    else if !directoryExists(folder) then Fail(AssertionFailed("The InstancesFolder does not exist (" + folder + ")"))
    else Pass
  }

  /** `ValidateLicense`: the license path must be set and the file must exist. */
  function ValidateLicense(profile: Profile, fileExists: string -> bool): (r: Outcome)
    ensures r == Fail(AssertionFailed("The license file isn't set")) <==> Get(profile, License) == ""
    ensures r.Pass? <==> Get(profile, License) != "" && fileExists(Get(profile, License))
  {
    var license := Get(profile, License);
    if license == "" then Fail(AssertionFailed("The license file isn't set"))
    else if !fileExists(license) then Fail(AssertionFailed("The license file doesn't exist"))
    else Pass
  }

  /** A clone validates exactly as the original does: both checked
      properties are carried over. */
  lemma ValidateAfterClone(profile: Profile, directoryExists: string -> bool, fileExists: string -> bool)
    ensures ValidateInstancesFolder(Clone(profile), directoryExists) == ValidateInstancesFolder(profile, directoryExists)
    ensures ValidateLicense(Clone(profile), fileExists) == ValidateLicense(profile, fileExists)
  {
  }

  /** Setting the instances folder decides its validation: an empty folder is
      reported as such, and the check passes iff the folder is non-empty and
      exists. */
  lemma ValidateAfterSetInstancesFolder(profile: Profile, v: string, directoryExists: string -> bool)
    ensures Set(profile, InstancesFolder, Some(v)).Success?
    ensures var q := Set(profile, InstancesFolder, Some(v)).value;
            && (ValidateInstancesFolder(q, directoryExists).Pass? <==> v != "" && directoryExists(v))
            && (v == "" ==> ValidateInstancesFolder(q, directoryExists) == Fail(AssertionFailed("The InstancesFolder is null or empty")))
  {
  }

  /** Setting the license path decides its validation in the same way. */
  lemma ValidateAfterSetLicense(profile: Profile, v: string, fileExists: string -> bool)
    ensures Set(profile, License, Some(v)).Success?
    ensures var q := Set(profile, License, Some(v)).value;
            && (ValidateLicense(q, fileExists).Pass? <==> v != "" && fileExists(v))
            && (v == "" ==> ValidateLicense(q, fileExists) == Fail(AssertionFailed("The license file isn't set")))
  {
  }
}
