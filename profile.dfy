/**
 * The profile helper: a life stage from an age, the age from a birth
 * year, and the collection of hobbies typed until the word "stop".
 * Console input arrives as already-read values (the birth year already
 * converted to an integer); printing is replaced by returned values.
 */
module Profile {
  import opened Text

  /** The year the program takes as "now" when it computes an age. */
  const CurrentYear: int := 2025

  const StopWord: string := "stop"

  /** `generate_profile`: a total classification of an integer age into four labels. */
  function GenerateProfile(age: int): (stage: string)
    ensures stage == "Child" <==> 0 <= age <= 12
    ensures stage == "Teenager" <==> 13 <= age <= 19
    ensures stage == "Adult" <==> age >= 20
    ensures stage == "Invalid age" <==> age < 0
  {
    if 0 <= age <= 12 then "Child"
    else if 13 <= age <= 19 then "Teenager"
    else if age >= 20 then "Adult"
    else "Invalid age"
  }

  /** `current_age = 2025 - birth_year`. */
  function AgeFromBirthYear(birthYear: int): int {
    CurrentYear - birthYear
  }

  /** The life stage as a function of the birth year the user typed. */
  lemma StageOfBirthYear(birthYear: int)
    ensures GenerateProfile(AgeFromBirthYear(birthYear)) == "Child" <==> 2013 <= birthYear <= 2025
    ensures GenerateProfile(AgeFromBirthYear(birthYear)) == "Teenager" <==> 2006 <= birthYear <= 2012
    ensures GenerateProfile(AgeFromBirthYear(birthYear)) == "Adult" <==> birthYear <= 2005
    ensures GenerateProfile(AgeFromBirthYear(birthYear)) == "Invalid age" <==> birthYear > 2025
  {
  }

  /** The sentinel test: lower-cased but NOT stripped, so " stop" is a hobby. */
  predicate IsStop(entry: string) {
    Lower(entry) == StopWord
  }

  /** The entries the loop keeps, read from the front: stop at the first
      sentinel, skip entries whose stripped form is empty. */
  function Hobbies(entries: seq<string>): seq<string> {
    if entries == [] || IsStop(entries[0]) then []
    else if Strip(entries[0]) != [] then [entries[0]] + Hobbies(entries[1..])
    else Hobbies(entries[1..])
  }

  /** The position of the first "stop" entry, or the length when there is none. */
  function StopIndex(entries: seq<string>): (k: nat)
    ensures k <= |entries|
    ensures forall j :: 0 <= j < k ==> !IsStop(entries[j])
    ensures k < |entries| ==> IsStop(entries[k])
  {
    if entries == [] || IsStop(entries[0]) then 0
    else 1 + StopIndex(entries[1..])
  }

  /** The entries of `xs` that are not empty or whitespace only, in order, unchanged. */
  function NonBlank(xs: seq<string>): (r: seq<string>)
    ensures |r| <= |xs|
  {
    if xs == [] then []
    else if Strip(xs[0]) != [] then [xs[0]] + NonBlank(xs[1..])
    else NonBlank(xs[1..])
  }

  /** An entry survives the filter exactly when it is in the input and not blank. */
  lemma {:induction false} NonBlankMembers(xs: seq<string>, h: string)
    ensures h in NonBlank(xs) <==> h in xs && Strip(h) != []
  {
    if xs != [] {
      NonBlankMembers(xs[1..], h);
      assert xs == [xs[0]] + xs[1..];
    }
  }

  /**
   * The stored hobbies are exactly the non-blank entries before the first
   * "stop", in input order and with their original text: the "stop" entry
   * and everything after it are dropped.
   */
  lemma {:induction false} HobbiesBeforeStop(entries: seq<string>)
    ensures Hobbies(entries) == NonBlank(entries[..StopIndex(entries)])
  {
    if entries != [] && !IsStop(entries[0]) {
      var rest := entries[1..];
      HobbiesBeforeStop(rest);
      var prefix := entries[..StopIndex(entries)];
      assert StopIndex(entries) == 1 + StopIndex(rest);
      assert prefix[0] == entries[0];
      assert prefix[1..] == rest[..StopIndex(rest)];
      assert NonBlank(prefix) == (if Strip(entries[0]) != [] then [entries[0]] else []) + NonBlank(prefix[1..]);
    }
  }

  /** No stored hobby is blank, none is the sentinel, each was typed by the user. */
  lemma StoredHobby(entries: seq<string>, h: string)
    requires h in Hobbies(entries)
    ensures h in entries && Strip(h) != [] && !IsBlank(h) && !IsStop(h)
  {
    HobbiesBeforeStop(entries);
    var k := StopIndex(entries);
    var before := entries[..k];
    NonBlankMembers(before, h);
    var j :| 0 <= j < k && before[j] == h;
    assert entries[j] == h;
    assert !IsStop(entries[j]);
    StripEmptyIffBlank(h);
  }

  /** The `while True` loop that reads hobbies until "stop" (or the end of input). */
  method CollectHobbies(entries: seq<string>) returns (hobbies: seq<string>)
    ensures hobbies == Hobbies(entries)
  {
    hobbies := [];
    var i := 0;
    while i < |entries|
      invariant 0 <= i <= |entries|
      invariant Hobbies(entries) == hobbies + Hobbies(entries[i..])
    {
      var hobby := entries[i];
      assert entries[i..][1..] == entries[i + 1..];
      if IsStop(hobby) {
        break;
      }
      if Strip(hobby) != [] {
        hobbies := hobbies + [hobby];
      }
      i := i + 1;
    }
  }

  datatype UserProfile = UserProfile(name: string, age: int, stage: string, hobbies: seq<string>)

  /** The hobby part of the printed summary. */
  datatype HobbySection = NoHobbies | FavoriteHobbies(count: nat, items: seq<string>)

  function SummarizeHobbies(hobbies: seq<string>): (section: HobbySection)
    ensures section == NoHobbies <==> hobbies == []
    ensures section.FavoriteHobbies? ==> section.count == |hobbies| > 0 && section.items == hobbies
  {
    if hobbies == [] then NoHobbies else FavoriteHobbies(|hobbies|, hobbies)
  }

  /** `main`: builds the profile and its summary from the values the user typed. */
  method BuildProfile(userName: string, birthYear: int, hobbyEntries: seq<string>)
    returns (profile: UserProfile, section: HobbySection)
    ensures profile.name == userName
    ensures profile.age == CurrentYear - birthYear
    ensures profile.stage == GenerateProfile(profile.age)
    ensures profile.hobbies == NonBlank(hobbyEntries[..StopIndex(hobbyEntries)])
    ensures section == NoHobbies <==> profile.hobbies == []
    ensures section.FavoriteHobbies? ==> section.count == |profile.hobbies| && section.items == profile.hobbies
  {
    var currentAge := AgeFromBirthYear(birthYear);
    var hobbies := CollectHobbies(hobbyEntries);
    HobbiesBeforeStop(hobbyEntries);
    var lifeStage := GenerateProfile(currentAge);
    profile := UserProfile(userName, currentAge, lifeStage, hobbies);
    section := SummarizeHobbies(profile.hobbies);
  }

}
