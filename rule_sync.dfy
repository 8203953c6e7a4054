/** Reconciliation of the browser's installed dynamic rules with the stored profiles
    (background.js, `updateRules`). */
module RuleSync {
  import opened Results
  import opened Seqs
  import opened Profiles
  import opened RuleCompiler

  /** The argument of `updateDynamicRules`: the ids to remove and the rules to add. */
  datatype UpdateRequest = UpdateRequest(removeRuleIds: seq<int>, addRules: seq<Rule>)

  /** A profile that contributes a rule: enabled, and with something to compile. */
  predicate IsActive(p: Profile) { p.enabled && EmitsRule(p) }

  function RuleId(r: Rule): int { r.id }

  /** `existingRules.map(rule => rule.id)`. */
  function RuleIds(rules: seq<Rule>): seq<int> {
    Map(rules, RuleId)
  }

  /** The installed rules whose id is not listed in `ids`. */
  function Without(rules: seq<Rule>, ids: seq<int>): seq<Rule> {
    if rules == [] then []
    else (if rules[0].id in ids then [] else [rules[0]]) + Without(rules[1..], ids)
  }

  /** The engine's side of `updateDynamicRules`, applied atomically: drop the installed
      rules whose id is listed for removal, then add the new rules. */
  function ApplyUpdate(installed: seq<Rule>, request: UpdateRequest): seq<Rule> {
    Without(installed, request.removeRuleIds) + request.addRules
  }

  /** The rules compiled from a profile list: its enabled profiles, ids counted from 1. */
  function SyncedRules(profiles: seq<Profile>): (r: seq<Rule>)
    ensures |r| == |Filter(profiles, IsActive)| <= |profiles|
  {
    FilterFilter(profiles, IsEnabled, EmitsRule, IsActive);
    CompileRules(Filter(profiles, IsEnabled), 1)
  }

  /** The single update `updateRules` issues: remove every installed id, add the freshly
      compiled rules. */
  function SyncRequest(installed: seq<Rule>, profiles: seq<Profile>): UpdateRequest {
    UpdateRequest(RuleIds(installed), SyncedRules(profiles))
  }

  /** The k-th synchronised rule is the rule of the k-th enabled profile that has a usable
      header, with id k + 1; disabled profiles contribute nothing, whatever their headers. */
  lemma SyncedRulesCharacterised(profiles: seq<Profile>)
    ensures |SyncedRules(profiles)| == |Filter(profiles, IsActive)|
    ensures forall k :: 0 <= k < |SyncedRules(profiles)| ==>
      SyncedRules(profiles)[k] == RuleFor(Filter(profiles, IsActive)[k], k + 1)
    ensures forall k :: 0 <= k < |Filter(profiles, IsActive)| ==> Filter(profiles, IsActive)[k].enabled
  {
    CompiledRulesCharacterised(Filter(profiles, IsEnabled), 1);
    FilterFilter(profiles, IsEnabled, EmitsRule, IsActive);
    FilterSatisfies(profiles, IsActive);
  }

  /** A disabled profile contributes nothing, whatever its headers: the rules are those of
      the list without it. */
  lemma DisabledContributesNothing(before: seq<Profile>, p: Profile, after: seq<Profile>)
    requires !p.enabled
    ensures SyncedRules(before + [p] + after) == SyncedRules(before + after)
  {
    FilterAppend(before + [p], after, IsEnabled);
    FilterAppend(before, [p], IsEnabled);
    FilterAppend(before, after, IsEnabled);
    assert Filter([p], IsEnabled) == [];
    assert Filter(before, IsEnabled) + [] == Filter(before, IsEnabled);
  }

  /** The synchronised ids are exactly 1, 2, ..., N: positive, without gap or repeat. */
  lemma SyncedIds(profiles: seq<Profile>)
    ensures forall k :: 0 <= k < |SyncedRules(profiles)| ==> SyncedRules(profiles)[k].id == k + 1
    ensures forall i, j :: 0 <= i < j < |SyncedRules(profiles)| ==>
      SyncedRules(profiles)[i].id != SyncedRules(profiles)[j].id
  {
    CompiledIds(Filter(profiles, IsEnabled), 1);
  }

  /** Removing every listed id from rules whose ids are all listed leaves nothing. */
  lemma {:induction false} WithoutListed(rules: seq<Rule>, ids: seq<int>)
    requires forall i :: 0 <= i < |rules| ==> rules[i].id in ids
    ensures Without(rules, ids) == []
  {
    if rules != [] {
      assert forall i :: 1 <= i < |rules| ==> rules[1..][i - 1] == rules[i];
      WithoutListed(rules[1..], ids);
    }
  }

  /** The update is a full replace: whatever was installed before, afterwards exactly
      the freshly compiled rules are installed. */
  lemma FullReplace(installed: seq<Rule>, profiles: seq<Profile>)
    ensures ApplyUpdate(installed, SyncRequest(installed, profiles)) == SyncedRules(profiles)
  {
    MapAt(installed, RuleId);
    assert forall i :: 0 <= i < |installed| ==> installed[i].id == RuleIds(installed)[i];
    WithoutListed(installed, RuleIds(installed));
  }

  /** Synchronising twice from the same profiles installs the same rules as once. */
  lemma SyncIdempotent(installed: seq<Rule>, profiles: seq<Profile>)
    ensures var once := ApplyUpdate(installed, SyncRequest(installed, profiles));
      ApplyUpdate(once, SyncRequest(once, profiles)) == once
  {
    var once := ApplyUpdate(installed, SyncRequest(installed, profiles));
    FullReplace(installed, profiles);
    FullReplace(once, profiles);
  }

  /** The browser's dynamic rule set, as far as this extension touches it. */
  class DynamicRules {
    var installed: seq<Rule>

    constructor (initial: seq<Rule>)
      ensures installed == initial
    {
      installed := initial;
    }

    /** `updateRules`: compiles the enabled stored profiles with ids threaded from 1 and
        asks the engine to replace every installed rule by them. `engineAccepts` is the
        engine's verdict on the update; a rejected update is caught and logged, and leaves
        the installed rules as they were. */
    method UpdateRules(stored: Option<seq<Profile>>, engineAccepts: bool) returns (request: UpdateRequest)
      modifies this
      ensures request == SyncRequest(old(installed), StoredProfiles(stored))
      ensures installed == if engineAccepts then SyncedRules(StoredProfiles(stored)) else old(installed)
    {
      var profiles := StoredProfiles(stored);
      var enabledProfiles := Filter(profiles, IsEnabled);
      var existingRuleIds := RuleIds(installed);
      var newRules := [];
      var ruleId := 1;
      for i := 0 to |enabledProfiles|
        invariant newRules == CompileRules(enabledProfiles[..i], 1)
        invariant ruleId == 1 + |newRules|
        invariant installed == old(installed)
      {
        var rules := GenerateRulesForProfile(enabledProfiles[i], ruleId);
        CompileRulesPrefix(enabledProfiles, i, 1);
        newRules := newRules + rules;
        ruleId := ruleId + |rules|;
      }
      assert enabledProfiles[..|enabledProfiles|] == enabledProfiles;
      request := UpdateRequest(existingRuleIds, newRules);
      assert request == SyncRequest(installed, profiles);
      if engineAccepts {
        FullReplace(installed, profiles);
        installed := ApplyUpdate(installed, request);
      }
    }
  }
}
