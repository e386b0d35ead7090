/** The certificate-store location names lw_server_load_sys_cert accepts
    (src/windows/server.c:391-449), compared the way strcasecmp compares them
    in the C locale, and the defaults it applies to empty arguments. */
module CertLocation {
  import opened Wrappers

  /** The CERT_SYSTEM_STORE_* location ids. */
  const CurrentServiceId: int := 0x40000
  const CurrentUserId: int := 0x10000
  const CurrentUserGroupPolicyId: int := 0x70000
  const LocalMachineId: int := 0x20000
  const LocalMachineEnterpriseId: int := 0x90000
  const LocalMachineGroupPolicyId: int := 0x80000
  const ServicesId: int := 0x50000
  const UsersId: int := 0x60000

  /** The location and store used when the caller passes none. */
  const DefaultLocation: string := "CurrentUser"
  const DefaultStore: string := "MY"

  /** tolower in the C locale: only A-Z change. */
  function AsciiLower(c: char): char
  {
    if 'A' <= c <= 'Z' then (c as int + 32) as char else c
  }

  /** strcasecmp (a, b) == 0: equal length, and equal characters once
      both are lowered. */
  predicate SameIgnoringCase(a: string, b: string)
  {
    |a| == |b| && forall i :: 0 <= i < |a| ==> AsciiLower(a[i]) == AsciiLower(b[i])
  }

  /** The chain of compare-and-break at lines 399-449; None stands for
      location_id == -1. */
  function LocationId(location: string): (r: Option<int>)
    ensures r.Some? ==> 0x10000 <= r.value <= 0x90000 && r.value % 0x10000 == 0
  {
    if SameIgnoringCase(location, "CurrentService") then Some(CurrentServiceId)
    else if SameIgnoringCase(location, "CurrentUser") then Some(CurrentUserId)
    else if SameIgnoringCase(location, "CurrentUserGroupPolicy") then Some(CurrentUserGroupPolicyId)
    else if SameIgnoringCase(location, "LocalMachine") then Some(LocalMachineId)
    else if SameIgnoringCase(location, "LocalMachineEnterprise") then Some(LocalMachineEnterpriseId)
    else if SameIgnoringCase(location, "LocalMachineGroupPolicy") then Some(LocalMachineGroupPolicyId)
    else if SameIgnoringCase(location, "Services") then Some(ServicesId)
    else if SameIgnoringCase(location, "Users") then Some(UsersId)
    else None
  }

  /** The table of known locations, as an independent reference. */
  const Locations: seq<(string, int)> := [
    ("CurrentService", CurrentServiceId),
    ("CurrentUser", CurrentUserId),
    ("CurrentUserGroupPolicy", CurrentUserGroupPolicyId),
    ("LocalMachine", LocalMachineId),
    ("LocalMachineEnterprise", LocalMachineEnterpriseId),
    ("LocalMachineGroupPolicy", LocalMachineGroupPolicyId),
    ("Services", ServicesId),
    ("Users", UsersId)
  ]

  /** Lines 391-392: a null or empty location stands for "CurrentUser". */
  function EffectiveLocation(location: Option<string>): (r: string)
    ensures location.Some? && location.value != "" ==> r == location.value
    ensures location.None? || location == Some("") ==> r == DefaultLocation
    ensures r != ""
  {
    if location.None? || location.value == "" then DefaultLocation else location.value
  }

  /** Lines 394-395: a null or empty store name stands for "MY". */
  function EffectiveStore(store: Option<string>): (r: string)
    ensures store.Some? && store.value != "" ==> r == store.value
    ensures r != ""
  {
    if store.None? || store.value == "" then DefaultStore else store.value
  }

  /** No two table names are equal ignoring case, so the order of the
      comparisons does not matter. */
  lemma NamesDiffer(location: string, j: nat, k: nat)
    requires j < |Locations| && k < |Locations| && j != k
    requires SameIgnoringCase(location, Locations[j].0)
    ensures !SameIgnoringCase(location, Locations[k].0)
  {
    var a, b := Locations[j].0, Locations[k].0;
    if |a| == |b| {
      // Only "CurrentUserGroupPolicy" and "LocalMachineEnterprise" share a
      // length; they differ in their first letter.
      assert AsciiLower(a[0]) != AsciiLower(b[0]);
      assert AsciiLower(location[0]) == AsciiLower(a[0]);
    }
  }

  /** The entry the compare-and-break chain stops at, if any: the chain of
      LocationId written over the table, kept only as the bridge that
      proves LocationIdIsTableLookup. */
  function MatchIndex(location: string): (k: Option<nat>)
    ensures k.Some? ==> k.value < |Locations| && SameIgnoringCase(location, Locations[k.value].0)
    ensures k.None? ==> forall j :: 0 <= j < |Locations| ==> !SameIgnoringCase(location, Locations[j].0)
  {
    if SameIgnoringCase(location, Locations[0].0) then Some(0)
    else if SameIgnoringCase(location, Locations[1].0) then Some(1)
    else if SameIgnoringCase(location, Locations[2].0) then Some(2)
    else if SameIgnoringCase(location, Locations[3].0) then Some(3)
    else if SameIgnoringCase(location, Locations[4].0) then Some(4)
    else if SameIgnoringCase(location, Locations[5].0) then Some(5)
    else if SameIgnoringCase(location, Locations[6].0) then Some(6)
    else if SameIgnoringCase(location, Locations[7].0) then Some(7)
    else None
  }

  /** The compare-and-break chain is a case-insensitive lookup in the table:
      a name is known exactly when it matches a table entry, and then it
      maps to that entry's id. */
  lemma LocationIdIsTableLookup(location: string)
    ensures LocationId(location).Some? <==>
            exists k :: 0 <= k < |Locations| && SameIgnoringCase(location, Locations[k].0)
    ensures forall k :: 0 <= k < |Locations| && SameIgnoringCase(location, Locations[k].0) ==>
            LocationId(location) == Some(Locations[k].1)
  {
    var m := MatchIndex(location);
    assert LocationId(location) == if m.Some? then Some(Locations[m.value].1) else None;
    forall k | 0 <= k < |Locations| && SameIgnoringCase(location, Locations[k].0)
      ensures LocationId(location) == Some(Locations[k].1)
    {
      if m.value != k {
        NamesDiffer(location, k, m.value);
      }
    }
  }

  /** Two names equal up to case compare alike against any third. */
  lemma SameIgnoringCaseAgainst(a: string, b: string, t: string)
    requires SameIgnoringCase(a, b)
    ensures SameIgnoringCase(a, t) <==> SameIgnoringCase(b, t)
  {
  }

  /** The lookup ignores case: names equal up to case get the same id. */
  lemma LocationIdIgnoresCase(a: string, b: string)
    requires SameIgnoringCase(a, b)
    ensures LocationId(a) == LocationId(b)
  {
    SameIgnoringCaseAgainst(a, b, "CurrentService");
    SameIgnoringCaseAgainst(a, b, "CurrentUser");
    SameIgnoringCaseAgainst(a, b, "CurrentUserGroupPolicy");
    SameIgnoringCaseAgainst(a, b, "LocalMachine");
    SameIgnoringCaseAgainst(a, b, "LocalMachineEnterprise");
    SameIgnoringCaseAgainst(a, b, "LocalMachineGroupPolicy");
    SameIgnoringCaseAgainst(a, b, "Services");
    SameIgnoringCaseAgainst(a, b, "Users");
  }

  /** Every listed name, written in any case, maps to its own fixed id, and
      ids are distinct. */
  lemma KnownLocations(k: nat, location: string)
    requires k < |Locations|
    requires SameIgnoringCase(location, Locations[k].0)
    ensures LocationId(location) == Some(Locations[k].1)
    ensures forall j :: 0 <= j < |Locations| && j != k ==> Locations[j].1 != Locations[k].1
  {
    LocationIdIsTableLookup(location);
  }

  /** With no store name given the store opened is "MY". */
  lemma DefaultStoreIsMy(store: Option<string>)
    requires store.None? || store == Some("")
    ensures EffectiveStore(store) == "MY"
  {
  }

  /** Case-insensitive equality is an equivalence, as strcasecmp's
      zero result is. */
  lemma SameIgnoringCaseIsEquivalence(a: string, b: string, c: string)
    ensures SameIgnoringCase(a, a)
    ensures SameIgnoringCase(a, b) ==> SameIgnoringCase(b, a)
    ensures SameIgnoringCase(a, b) && SameIgnoringCase(b, c) ==> SameIgnoringCase(a, c)
  {
  }

  /** With no location given the lookup yields CERT_SYSTEM_STORE_CURRENT_USER. */
  lemma DefaultLocationIsCurrentUser(location: Option<string>)
    requires location.None? || location == Some("")
    ensures LocationId(EffectiveLocation(location)) == Some(CurrentUserId)
  {
  }
}
