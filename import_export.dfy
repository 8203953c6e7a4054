/** Moving profiles in and out of the extension as files (popup.js: the checks of
    `handleImportFile`, the selections of `confirmImport` and `confirmExport`). */
module ImportExport {
  import opened Results
  import opened Seqs
  import opened Profiles

  /** One entry of an imported file's `profiles` array. An absent or empty `name` or
      `urlPattern` is the empty string; `headers` is `None` when absent or falsy. */
  datatype ImportEntry = ImportEntry(name: string, urlPattern: string, headers: Option<seq<Header>>)

  /** A parsed import file; `profiles` is `None` when it is absent or not an array. */
  datatype ImportFile = ImportFile(profiles: Option<seq<ImportEntry>>)

  /** The two messages an import file is refused with. */
  datatype ImportError = NotAProfilesArray | InvalidProfile

  /** An entry carries a truthy `name`, `urlPattern` and `headers`. */
  predicate ValidEntry(e: ImportEntry) {
    e.name != "" && e.urlPattern != "" && e.headers.Some?
  }

  /** The user data of an entry (headers count as empty when absent). */
  function EntryData(e: ImportEntry): ProfileData {
    ProfileData(e.name, e.urlPattern, if e.headers.Some? then e.headers.value else [])
  }

  /** The verdict on an import file: refused when `profiles` is not an array or some entry
      lacks a name, URL pattern or headers; otherwise the entries become the pending
      import, in file order. */
  function ValidateImport(file: ImportFile): (r: Result<seq<ProfileData>, ImportError>)
    ensures r == Failure(NotAProfilesArray) <==> file.profiles.None?
    ensures r == Failure(InvalidProfile) <==>
      file.profiles.Some? && exists i :: 0 <= i < |file.profiles.value| && !ValidEntry(file.profiles.value[i])
    ensures r.Success? ==> file.profiles.Some? && |r.value| == |file.profiles.value|
  {
    if file.profiles.None? then Failure(NotAProfilesArray)
    else if forall i :: 0 <= i < |file.profiles.value| ==> ValidEntry(file.profiles.value[i])
    then Success(Map(file.profiles.value, EntryData))
    else Failure(InvalidProfile)
  }

  /** An accepted file yields one pending profile per entry, each with a non-empty name
      and URL pattern and exactly the entry's headers. */
  lemma AcceptedImport(file: ImportFile)
    requires ValidateImport(file).Success?
    ensures file.profiles.Some? && |ValidateImport(file).value| == |file.profiles.value|
    ensures forall k :: 0 <= k < |ValidateImport(file).value| ==>
      var d := ValidateImport(file).value[k];
      d.name == file.profiles.value[k].name != "" && d.urlPattern == file.profiles.value[k].urlPattern != ""
      && Some(d.headers) == file.profiles.value[k].headers
  {
    MapAt(file.profiles.value, EntryData);
  }

  /** The validation loop of `handleImportFile`: stops at the first bad entry. */
  method CheckImport(file: ImportFile) returns (r: Result<seq<ProfileData>, ImportError>)
    ensures r == ValidateImport(file)
  {
    if file.profiles.None? {
      return Failure(NotAProfilesArray);
    }
    var entries := file.profiles.value;
    for i := 0 to |entries|
      invariant forall j :: 0 <= j < i ==> ValidEntry(entries[j])
    {
      var profile := entries[i];
      if profile.name == "" || profile.urlPattern == "" || profile.headers.None? {
        return Failure(InvalidProfile);
      }
    }
    r := Success(Map(entries, EntryData));
  }

  /** `s.filter((_, index) => selected.includes(index))`: the elements whose position is
      selected, in list order. */
  function Picked<T>(s: seq<T>, selected: seq<int>): (r: seq<T>)
    ensures |r| <= |s|
  {
    if s == [] then []
    else Picked(s[..|s| - 1], selected) + (if |s| - 1 in selected then [s[|s| - 1]] else [])
  }

  /** Only whether a position is selected matters: the order of the selection, repeats,
      and positions outside the list do not change the pick. */
  lemma {:induction false} PickedSelectionOrder<T>(s: seq<T>, a: seq<int>, b: seq<int>)
    requires forall i :: 0 <= i < |s| ==> (i in a <==> i in b)
    ensures Picked(s, a) == Picked(s, b)
  {
    if s != [] {
      PickedSelectionOrder(s[..|s| - 1], a, b);
    }
  }

  /** Selecting every position picks the whole list, unchanged and in order. */
  lemma {:induction false} PickedAll<T>(s: seq<T>, selected: seq<int>)
    requires forall i :: 0 <= i < |s| ==> i in selected
    ensures Picked(s, selected) == s
  {
    if s != [] {
      PickedAll(s[..|s| - 1], selected);
    }
  }

  /** The positions below `n` that `selected` ticks, in increasing order. */
  function PickedPositions(n: nat, selected: seq<int>): (r: seq<nat>)
    ensures |r| <= n
  {
    if n == 0 then []
    else PickedPositions(n - 1, selected) + (if n - 1 in selected then [n - 1] else [])
  }

  /** The pick is the subsequence of `s` at the ticked positions: each ticked entry once,
      in list order, and nothing else. */
  lemma {:induction false} PickedAtPositions<T>(s: seq<T>, selected: seq<int>)
    ensures |Picked(s, selected)| == |PickedPositions(|s|, selected)|
    ensures forall k :: 0 <= k < |PickedPositions(|s|, selected)| ==>
      PickedPositions(|s|, selected)[k] < |s| && PickedPositions(|s|, selected)[k] in selected
      && Picked(s, selected)[k] == s[PickedPositions(|s|, selected)[k]]
    ensures forall k, l :: 0 <= k < l < |PickedPositions(|s|, selected)| ==>
      PickedPositions(|s|, selected)[k] < PickedPositions(|s|, selected)[l]
    ensures forall i :: 0 <= i < |s| && i in selected ==> i in PickedPositions(|s|, selected)
  {
    if s != [] {
      var init := s[..|s| - 1];
      PickedAtPositions(init, selected);
      assert forall i :: 0 <= i < |init| ==> init[i] == s[i];
    }
  }

  /** The pick holds exactly the selected elements: each selected one, and nothing that
      is not at a selected position. How often and in which order is stated by
      `PickedAtPositions`. */
  lemma {:induction false} PickedMembers<T>(s: seq<T>, selected: seq<int>)
    ensures forall i :: 0 <= i < |s| && i in selected ==> s[i] in Picked(s, selected)
    ensures forall x :: x in Picked(s, selected) ==> exists i :: 0 <= i < |s| && i in selected && s[i] == x
  {
    if s != [] {
      var init := s[..|s| - 1];
      PickedMembers(init, selected);
      assert forall i :: 0 <= i < |init| ==> init[i] == s[i];
    }
  }

  /** The file `confirmExport` writes. */
  datatype ExportDocument = ExportDocument(version: string, exportDate: string, profiles: seq<Profile>)

  /** The alert shown when no profile is ticked. */
  datatype ExportError = NothingSelected

  /** `currentProfiles.filter(p => selectedIds.includes(p.id))`. */
  function SelectedProfiles(ps: seq<Profile>, selectedIds: seq<string>): (r: seq<Profile>)
    ensures |r| <= |ps|
    ensures forall i :: 0 <= i < |r| ==> r[i].id in selectedIds
  {
    FilterSatisfies(ps, (p: Profile) => p.id in selectedIds);
    Filter(ps, (p: Profile) => p.id in selectedIds)
  }

  /** What `confirmExport` writes for the ticked ids, stamped with `exportDate`. */
  function ExportSelection(ps: seq<Profile>, selectedIds: seq<string>, exportDate: string): (r: Result<ExportDocument, ExportError>)
    ensures r.Failure? <==> selectedIds == []
    ensures r.Success? ==> r.value.version == "1.0" && |r.value.profiles| <= |ps|
  {
    if selectedIds == [] then Failure(NothingSelected)
    else Success(ExportDocument("1.0", exportDate, SelectedProfiles(ps, selectedIds)))
  }

  /** The export keeps exactly the profiles whose id is ticked, in list order, each as
      often as in the list. */
  lemma ExportedProfiles(ps: seq<Profile>, selectedIds: seq<string>)
    ensures forall p :: p in SelectedProfiles(ps, selectedIds) <==> p in ps && p.id in selectedIds
    ensures multiset(SelectedProfiles(ps, selectedIds)) <= multiset(ps)
    ensures forall q :: multiset(SelectedProfiles(ps, selectedIds))[q]
                        == if q.id in selectedIds then multiset(ps)[q] else 0
    ensures (forall i :: 0 <= i < |ps| ==> ps[i].id in selectedIds) ==> SelectedProfiles(ps, selectedIds) == ps
  {
    var f := (p: Profile) => p.id in selectedIds;
    FilterMembers(ps, f);
    forall q ensures multiset(SelectedProfiles(ps, selectedIds))[q]
                     == if q.id in selectedIds then multiset(ps)[q] else 0 {
      FilterCount(ps, f, q);
    }
    if forall i :: 0 <= i < |ps| ==> ps[i].id in selectedIds {
      FilterAll(ps, f);
    }
  }

  /** A profile as it reads back from an exported file: its name, pattern and headers. */
  function AsEntry(p: Profile): ImportEntry {
    ImportEntry(p.name, p.urlPattern, Some(p.headers))
  }

  /** Reading an exported document back as an import file. */
  function AsImportFile(doc: ExportDocument): ImportFile {
    ImportFile(Some(Map(doc.profiles, AsEntry)))
  }

  /** An exported file whose profiles have a name and a URL pattern (as every profile
      saved through the form has) is accepted on import, and yields the exported
      profiles' data in export order. */
  lemma ExportImportRoundTrip(ps: seq<Profile>, selectedIds: seq<string>, exportDate: string)
    requires selectedIds != []
    requires forall i :: 0 <= i < |ps| ==> ps[i].name != "" && ps[i].urlPattern != ""
    ensures ValidateImport(AsImportFile(ExportSelection(ps, selectedIds, exportDate).value))
         == Success(Map(SelectedProfiles(ps, selectedIds), DataOf))
  {
    var exported := SelectedProfiles(ps, selectedIds);
    var entries := Map(exported, AsEntry);
    ExportedProfiles(ps, selectedIds);
    MapAt(exported, AsEntry);
    MapAt(entries, EntryData);
    MapAt(exported, DataOf);
    assert forall i :: 0 <= i < |exported| ==> exported[i] in ps;
    assert forall i :: 0 <= i < |entries| ==> ValidEntry(entries[i]);
    assert Map(entries, EntryData) == Map(exported, DataOf);
  }
}
