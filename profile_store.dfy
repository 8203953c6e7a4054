/** The popup's list of profiles (`currentProfiles` in popup.js) and the operations that
    change it. Ids and timestamps (`generateId()`, `Date.now()`) are parameters. */
module ProfileStore {
  import opened Results
  import opened Seqs
  import opened Text
  import opened Profiles
  import opened ProfileForm
  import opened ImportExport

  /** `{...p, name, urlPattern, headers}`: `p` with its user data replaced. */
  function WithData(p: Profile, d: ProfileData): Profile {
    p.(name := d.name, urlPattern := d.urlPattern, headers := d.headers)
  }

  /** The list after saving the form while editing profile `id`. */
  function Edited(ps: seq<Profile>, id: string, d: ProfileData): seq<Profile> {
    var index := FindIndex(ps, id);
    if index == -1 then ps else ps[index := WithData(ps[index], d)]
  }

  /** The profile a save in create mode appends: enabled from the start. */
  function NewProfile(d: ProfileData, newId: string, now: int): Profile {
    Profile(newId, d.name, d.urlPattern, d.headers, true, now)
  }

  /** `if (editingProfileId)`: an absent or empty id means the form creates a profile. */
  predicate IsEditing(editing: Option<string>) {
    editing.Some? && editing.value != ""
  }

  /** The list after an accepted save. */
  function Saved(ps: seq<Profile>, editing: Option<string>, d: ProfileData, newId: string, now: int): seq<Profile> {
    if IsEditing(editing) then Edited(ps, editing.value, d) else ps + [NewProfile(d, newId, now)]
  }

  /** The list after `toggleProfile(id, enabled)`. */
  function Toggled(ps: seq<Profile>, id: string, enabled: bool): seq<Profile> {
    var index := FindIndex(ps, id);
    if index == -1 then ps else ps[index := ps[index].(enabled := enabled)]
  }

  /** The list after a confirmed `deleteProfile(id)`. */
  function Deleted(ps: seq<Profile>, id: string): seq<Profile> {
    Filter(ps, (p: Profile) => p.id != id)
  }

  /** The copy `cloneProfile` makes of `p`: same pattern and headers, a marked name, a
      fresh id and timestamp, and disabled. */
  function CloneOf(p: Profile, newId: string, now: int): Profile {
    Profile(newId, p.name + " (Copy)", p.urlPattern, p.headers, false, now)
  }

  /** The list after `cloneProfile(id)`. */
  function Cloned(ps: seq<Profile>, id: string, newId: string, now: int): seq<Profile> {
    var index := FindIndex(ps, id);
    if index == -1 then ps else ps + [CloneOf(ps[index], newId, now)]
  }

  /** The imported profiles: the picked entries with fresh ids and timestamps, disabled. */
  function Stamped(picked: seq<ProfileData>, ids: seq<string>, stamps: seq<int>): (r: seq<Profile>)
    requires |ids| == |picked| == |stamps|
    ensures |r| == |picked|
  {
    seq(|picked|, k requires 0 <= k < |picked| =>
      Profile(ids[k], picked[k].name, picked[k].urlPattern, picked[k].headers, false, stamps[k]))
  }

  /** The list after `confirmImport` with the ticked positions `selected` of the pending
      entries; nothing ticked means nothing happens. */
  function Imported(ps: seq<Profile>, pending: seq<ProfileData>, selected: seq<int>,
                    ids: seq<string>, stamps: seq<int>): seq<Profile>
    requires |ids| == |stamps| == |Picked(pending, selected)|
  {
    if selected == [] then ps else ps + Stamped(Picked(pending, selected), ids, stamps)
  }

  /** Editing replaces the name, pattern and headers of the first profile with the id and
      keeps its id, state and timestamp; every other profile stays as it was; an unknown
      id changes nothing. */
  lemma EditFrame(ps: seq<Profile>, id: string, d: ProfileData)
    ensures |Edited(ps, id, d)| == |ps|
    ensures !HasId(ps, id) ==> Edited(ps, id, d) == ps
    ensures forall j :: 0 <= j < |ps| && (ps[j].id != id || exists k :: 0 <= k < j && ps[k].id == id) ==>
      Edited(ps, id, d)[j] == ps[j]
    ensures forall j :: 0 <= j < |ps| ==>
      var q := Edited(ps, id, d)[j];
      q.id == ps[j].id && q.enabled == ps[j].enabled && q.createdAt == ps[j].createdAt
    ensures HasId(ps, id) ==> DataOf(Edited(ps, id, d)[FindIndex(ps, id)]) == d
  {
  }

  /** Creating appends exactly one enabled profile carrying the form's data; everything
      before it stays. */
  lemma CreateFrame(ps: seq<Profile>, d: ProfileData, newId: string, now: int)
    ensures var r := Saved(ps, None, d, newId, now);
      |r| == |ps| + 1 && r[..|ps|] == ps && r[|ps|].enabled && r[|ps|].id == newId
      && DataOf(r[|ps|]) == d && r[|ps|].createdAt == now
  {
  }

  /** Toggling sets the state of the first profile with the id and touches nothing else;
      an unknown id changes nothing. */
  lemma ToggleFrame(ps: seq<Profile>, id: string, enabled: bool)
    ensures |Toggled(ps, id, enabled)| == |ps|
    ensures !HasId(ps, id) ==> Toggled(ps, id, enabled) == ps
    ensures HasId(ps, id) ==>
      var index := FindIndex(ps, id);
      Toggled(ps, id, enabled)[index] == ps[index].(enabled := enabled)
      && forall j :: 0 <= j < |ps| && j != index ==> Toggled(ps, id, enabled)[j] == ps[j]
    ensures Toggled(Toggled(ps, id, enabled), id, enabled) == Toggled(ps, id, enabled)
  {
    var r := Toggled(ps, id, enabled);
    var index := FindIndex(ps, id);
    if index != -1 {
      assert forall j :: 0 <= j <= index ==> r[j].id == ps[j].id;
      assert FindIndex(r, id) == index by {
        assert HasId(r, id) by { assert r[index].id == id; }
      }
    }
  }

  /** Deleting keeps each profile without the id as often as it occurs. Cut anywhere,
      the list loses its profiles with the id from each part separately, so the
      survivors keep their relative order. */
  lemma DeleteKeepsOthers(ps: seq<Profile>, id: string)
    ensures forall q :: multiset(Deleted(ps, id))[q] == if q.id != id then multiset(ps)[q] else 0
    ensures forall k :: 0 <= k <= |ps| ==> Deleted(ps, id) == Deleted(ps[..k], id) + Deleted(ps[k..], id)
  {
    var f := (p: Profile) => p.id != id;
    forall q ensures multiset(Deleted(ps, id))[q] == if q.id != id then multiset(ps)[q] else 0 {
      FilterCount(ps, f, q);
    }
    forall k | 0 <= k <= |ps| ensures Deleted(ps, id) == Deleted(ps[..k], id) + Deleted(ps[k..], id) {
      assert ps == ps[..k] + ps[k..];
      FilterAppend(ps[..k], ps[k..], f);
    }
  }

  /** Deleting removes every profile with the id and keeps the others; the counts and
      the order of those kept are stated by `DeleteKeepsOthers`. */
  lemma DeleteFrame(ps: seq<Profile>, id: string)
    ensures forall p :: p in Deleted(ps, id) <==> p in ps && p.id != id
    ensures !HasId(Deleted(ps, id), id)
    ensures !HasId(ps, id) ==> Deleted(ps, id) == ps
    ensures HasId(ps, id) ==> |Deleted(ps, id)| < |ps|
    ensures Deleted(Deleted(ps, id), id) == Deleted(ps, id)
  {
    var f := (p: Profile) => p.id != id;
    FilterMembers(ps, f);
    FilterIdempotent(ps, f);
    assert !HasId(Deleted(ps, id), id) by {
      FilterSatisfies(ps, f);
    }
    if !HasId(ps, id) {
      assert Deleted(ps, id) == ps by {
        FilterAll(ps, f);
      }
    } else {
      var j :| 0 <= j < |ps| && ps[j].id == id;
      DeletedShorter(ps, id, j);
    }
  }

  /** Deleting a list that holds the id at position `j` removes at least that entry. */
  lemma {:induction false} DeletedShorter(ps: seq<Profile>, id: string, j: nat)
    requires j < |ps| && ps[j].id == id
    ensures |Deleted(ps, id)| < |ps|
  {
    if j > 0 {
      DeletedShorter(ps[1..], id, j - 1);
    }
  }

  /** Cloning appends one disabled copy of the first profile with the id, with the marked
      name and the same pattern and headers; the original and all others stay; an
      unknown id changes nothing. */
  lemma CloneFrame(ps: seq<Profile>, id: string, newId: string, now: int)
    ensures !HasId(ps, id) ==> Cloned(ps, id, newId, now) == ps
    ensures HasId(ps, id) ==>
      var r := Cloned(ps, id, newId, now);
      var original := ps[FindIndex(ps, id)];
      |r| == |ps| + 1 && r[..|ps|] == ps && !r[|ps|].enabled && r[|ps|].id == newId
      && r[|ps|].name == original.name + " (Copy)" && r[|ps|].urlPattern == original.urlPattern
      && r[|ps|].headers == original.headers && r[|ps|].createdAt == now
  {
  }

  /** Importing appends the picked entries after the existing profiles, in pending order,
      each disabled and with the supplied id and timestamp. */
  lemma ImportFrame(ps: seq<Profile>, pending: seq<ProfileData>, selected: seq<int>,
                    ids: seq<string>, stamps: seq<int>)
    requires |ids| == |stamps| == |Picked(pending, selected)|
    ensures selected == [] ==> Imported(ps, pending, selected, ids, stamps) == ps
    ensures selected != [] ==>
      var r := Imported(ps, pending, selected, ids, stamps);
      |r| == |ps| + |ids| && r[..|ps|] == ps
      && forall k :: 0 <= k < |ids| ==>
        !r[|ps| + k].enabled && r[|ps| + k].id == ids[k] && r[|ps| + k].createdAt == stamps[k]
        && DataOf(r[|ps| + k]) == Picked(pending, selected)[k]
  {
  }

  /** Importing every pending entry brings them all in, in file order. */
  lemma ImportAll(ps: seq<Profile>, pending: seq<ProfileData>, selected: seq<int>,
                  ids: seq<string>, stamps: seq<int>)
    requires |ids| == |stamps| == |pending| && |pending| > 0
    requires forall i :: 0 <= i < |pending| ==> i in selected
    ensures |Picked(pending, selected)| == |pending|
    ensures forall k :: 0 <= k < |pending| ==>
      DataOf(Imported(ps, pending, selected, ids, stamps)[|ps| + k]) == pending[k]
  {
    PickedAll(pending, selected);
  }

  /** Exporting profiles and importing the file with every entry ticked brings back each
      exported profile's name, pattern and headers, in export order, under a fresh id and
      timestamp and disabled. */
  lemma ExportImportProfiles(ps: seq<Profile>, selectedIds: seq<string>, exportDate: string,
                             current: seq<Profile>, selected: seq<int>, ids: seq<string>, stamps: seq<int>)
    requires selectedIds != []
    requires forall i :: 0 <= i < |ps| ==> ps[i].name != "" && ps[i].urlPattern != ""
    requires forall i :: 0 <= i < |SelectedProfiles(ps, selectedIds)| ==> i in selected
    requires |ids| == |stamps| == |SelectedProfiles(ps, selectedIds)| > 0
    ensures ValidateImport(AsImportFile(ExportSelection(ps, selectedIds, exportDate).value))
         == Success(Map(SelectedProfiles(ps, selectedIds), DataOf))
    ensures |Picked(Map(SelectedProfiles(ps, selectedIds), DataOf), selected)| == |ids|
    ensures forall k :: 0 <= k < |ids| ==>
      var q := Imported(current, Map(SelectedProfiles(ps, selectedIds), DataOf), selected, ids, stamps)[|current| + k];
      var e := SelectedProfiles(ps, selectedIds)[k];
      q.name == e.name && q.urlPattern == e.urlPattern && q.headers == e.headers
      && q.id == ids[k] && q.createdAt == stamps[k] && !q.enabled
  {
    var exported := SelectedProfiles(ps, selectedIds);
    var pending := Map(exported, DataOf);
    ExportImportRoundTrip(ps, selectedIds, exportDate);
    MapAt(exported, DataOf);
    PickedAll(pending, selected);
    ImportFrame(current, pending, selected, ids, stamps);
  }

  /** Edit, toggle and delete keep ids unique; create, clone and import do when the new
      ids are fresh. */
  lemma UniqueIdsPreserved(ps: seq<Profile>, id: string, d: ProfileData, enabled: bool,
                           newId: string, now: int)
    requires UniqueIds(ps)
    ensures UniqueIds(Edited(ps, id, d))
    ensures UniqueIds(Toggled(ps, id, enabled))
    ensures UniqueIds(Deleted(ps, id))
    ensures !HasId(ps, newId) ==> UniqueIds(Saved(ps, None, d, newId, now))
    ensures !HasId(ps, newId) ==> UniqueIds(Cloned(ps, id, newId, now))
  {
    assert UniqueIds(Edited(ps, id, d)) by {
      EditFrame(ps, id, d);
    }
    assert UniqueIds(Toggled(ps, id, enabled)) by {
      ToggleFrame(ps, id, enabled);
    }
    DeletedUnique(ps, id);
  }

  /** A sublist kept by deletion keeps ids unique. */
  lemma {:induction false} DeletedUnique(ps: seq<Profile>, id: string)
    requires UniqueIds(ps)
    ensures UniqueIds(Deleted(ps, id))
  {
    if ps != [] {
      var tail := ps[1..];
      assert UniqueIds(tail) by {
        assert forall i :: 0 <= i < |tail| ==> tail[i] == ps[i + 1];
      }
      DeletedUnique(tail, id);
      FilterMembers(tail, (p: Profile) => p.id != id);
      assert forall q :: q in Deleted(tail, id) ==> q.id != ps[0].id;
    }
  }

  /** Imported profiles with distinct ids that are new to the list keep ids unique. */
  lemma ImportKeepsUniqueIds(ps: seq<Profile>, pending: seq<ProfileData>, selected: seq<int>,
                             ids: seq<string>, stamps: seq<int>)
    requires |ids| == |stamps| == |Picked(pending, selected)|
    requires UniqueIds(ps)
    requires forall k :: 0 <= k < |ids| ==> !HasId(ps, ids[k])
    requires forall k, l :: 0 <= k < l < |ids| ==> ids[k] != ids[l]
    ensures UniqueIds(Imported(ps, pending, selected, ids, stamps))
  {
    ImportFrame(ps, pending, selected, ids, stamps);
  }

  /** `currentProfiles` together with the operations of the popup that change it. */
  class ProfileList {
    var profiles: seq<Profile>

    /** `loadProfiles`: the stored list, or an empty one. */
    constructor (stored: Option<seq<Profile>>)
      ensures profiles == StoredProfiles(stored)
    {
      profiles := StoredProfiles(stored);
    }

    /** `saveProfile`: checks the form and then edits the profile `editing` names or
        appends a new one; a refused form leaves the list alone and says why. */
    method SaveProfile(editing: Option<string>, nameField: string, patternField: string,
                       rows: seq<HeaderRow>, newId: string, now: int) returns (error: Option<FormError>)
      modifies this
      ensures ValidateForm(nameField, patternField, rows).Failure? ==>
        error == Some(ValidateForm(nameField, patternField, rows).error) && profiles == old(profiles)
      ensures ValidateForm(nameField, patternField, rows).Success? ==>
        error == None && profiles == Saved(old(profiles), editing, ValidateForm(nameField, patternField, rows).value, newId, now)
    {
      var name := Trim(nameField);
      var pattern := Trim(patternField);
      if name == "" {
        return Some(MissingName);
      }
      if pattern == "" {
        return Some(MissingUrlPattern);
      }
      var collected := CollectHeaders(rows);
      if collected.Failure? {
        return Some(collected.error);
      }
      var headers := collected.value;
      if |headers| == 0 {
        return Some(NoHeaders);
      }
      if editing.Some? && editing.value != "" {
        var index := FindIndex(profiles, editing.value);
        if index != -1 {
          profiles := profiles[index := profiles[index].(name := name, urlPattern := pattern, headers := headers)];
        }
      } else {
        profiles := profiles + [Profile(newId, name, pattern, headers, true, now)];
      }
      error := None;
    }

    /** `toggleProfile`. */
    method ToggleProfile(id: string, enabled: bool)
      modifies this
      ensures profiles == Toggled(old(profiles), id, enabled)
    {
      var index := FindIndex(profiles, id);
      if index != -1 {
        profiles := profiles[index := profiles[index].(enabled := enabled)];
      }
    }

    /** `deleteProfile`; `confirmed` is the user's answer to the confirmation dialog. */
    method DeleteProfile(id: string, confirmed: bool)
      modifies this
      ensures profiles == if confirmed then Deleted(old(profiles), id) else old(profiles)
    {
      if !confirmed {
        return;
      }
      profiles := Filter(profiles, (p: Profile) => p.id != id);
    }

    /** `cloneProfile`. */
    method CloneProfile(id: string, newId: string, now: int)
      modifies this
      ensures profiles == Cloned(old(profiles), id, newId, now)
    {
      var index := FindIndex(profiles, id);
      if index == -1 {
        return;
      }
      var profile := profiles[index];
      var clonedProfile := Profile(newId, profile.name + " (Copy)", profile.urlPattern, profile.headers, false, now);
      profiles := profiles + [clonedProfile];
    }

    /** `confirmImport` over the pending entries, with the ticked positions `selected` and
        one fresh id and timestamp per picked entry. */
    method ConfirmImport(pending: seq<ProfileData>, selected: seq<int>, ids: seq<string>, stamps: seq<int>)
      requires |ids| == |stamps| == |Picked(pending, selected)|
      modifies this
      ensures profiles == Imported(old(profiles), pending, selected, ids, stamps)
    {
      if |selected| == 0 {
        return;
      }
      var selectedProfiles := Picked(pending, selected);
      var newProfiles := Stamped(selectedProfiles, ids, stamps);
      profiles := profiles + newProfiles;
    }
  }
}
