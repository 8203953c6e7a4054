/** The stored data: profiles and the header actions they carry. */
module Profiles {
  import opened Results

  /** The `action` string of a header: the three values the form's select offers, and
      any other string an imported file may carry. */
  datatype HeaderAction = Add | Modify | Delete | Other(text: UnknownAction)

  /** An action string that is none of the three the compiler acts on. */
  type UnknownAction = s: string | s != "add" && s != "modify" && s != "delete" witness ""


  /** The action a stored `action` string denotes. */
  function ParseAction(s: string): (a: HeaderAction)
    ensures a == Add <==> s == "add"
    ensures a == Modify <==> s == "modify"
    ensures a == Delete <==> s == "delete"
    ensures a.Other? <==> s != "add" && s != "modify" && s != "delete"
    ensures a.Other? ==> a.text == s
  {
    if s == "add" then Add else if s == "modify" then Modify else if s == "delete" then Delete else Other(s)
  }

  /** One header action of a profile; an absent `name` or `value` is the empty string. */
  datatype Header = Header(action: HeaderAction, name: string, value: string)

  /** A stored profile. `createdAt` is the millisecond timestamp taken at creation. */
  datatype Profile = Profile(
    id: string,
    name: string,
    urlPattern: string,
    headers: seq<Header>,
    enabled: bool,
    createdAt: int)

  /** The user-supplied part of a profile: what the form collects and what an import
      entry carries. */
  datatype ProfileData = ProfileData(name: string, urlPattern: string, headers: seq<Header>)

  /** The user data of a stored profile. */
  function DataOf(p: Profile): ProfileData {
    ProfileData(p.name, p.urlPattern, p.headers)
  }

  /** `data.profiles || []`: the stored list, or no profiles when none is stored. */
  function StoredProfiles(stored: Option<seq<Profile>>): seq<Profile> {
    if stored.Some? then stored.value else []
  }

  /** `profile => profile.enabled`. */
  predicate IsEnabled(p: Profile) { p.enabled }

  /** No two profiles of the list share an id. */
  predicate UniqueIds(ps: seq<Profile>) {
    forall i, j :: 0 <= i < j < |ps| ==> ps[i].id != ps[j].id
  }

  /** True when some profile of the list has id `id`. */
  predicate HasId(ps: seq<Profile>, id: string) {
    exists i :: 0 <= i < |ps| && ps[i].id == id
  }

  /** `ps.findIndex(p => p.id === id)`: the position of the first profile with that id,
      or -1 when there is none. `ps.find(...)` is the profile at that position. */
  function FindIndex(ps: seq<Profile>, id: string): (r: int)
    ensures -1 <= r < |ps|
    ensures 0 <= r ==> ps[r].id == id && forall j :: 0 <= j < r ==> ps[j].id != id
    ensures r == -1 <==> !HasId(ps, id)
  {
    if ps == [] then -1
    else if ps[0].id == id then 0
    else
      var k := FindIndex(ps[1..], id);
      assert forall j :: 1 <= j < |ps| ==> ps[j] == ps[1..][j - 1];
      if k < 0 then -1 else k + 1
  }
}
