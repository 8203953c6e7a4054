/** Compilation of profiles into declarativeNetRequest rules (background.js,
    `generateRulesForProfile` and the id-threading loop of `updateRules`). */
module RuleCompiler {
  import opened Results
  import opened Seqs
  import opened Text
  import opened Profiles
  import opened UrlFilter

  /** The `operation` of a header modification: 'set' or 'remove'. */
  datatype HeaderOperation = Set | Remove

  /** One entry of a rule's `requestHeaders`. A 'remove' entry carries no `value`. */
  datatype ModifyHeaderInfo = ModifyHeaderInfo(header: string, operation: HeaderOperation, value: Option<string>)

  datatype RuleAction = RuleAction(actionType: string, requestHeaders: seq<ModifyHeaderInfo>)

  datatype RuleCondition = RuleCondition(urlFilter: string, resourceTypes: seq<string>)

  /** A dynamic rule as handed to the engine. */
  datatype Rule = Rule(id: int, priority: int, action: RuleAction, condition: RuleCondition)

  /** Every resource type the engine knows; each rule applies to all of them. */
  const ResourceTypes: seq<string> := [
    "main_frame", "sub_frame", "stylesheet", "script", "image", "font", "object",
    "xmlhttprequest", "ping", "csp_report", "media", "websocket", "webtransport",
    "webbundle", "other"]

  /** A header that goes into the add group: it has a name and action 'add'. */
  predicate IsAdd(h: Header) { h.name != "" && h.action == Add }

  /** A header that goes into the modify group. */
  predicate IsModify(h: Header) { h.name != "" && h.action == Modify }

  /** A header that goes into the remove group. */
  predicate IsDelete(h: Header) { h.name != "" && h.action == Delete }

  /** A header the compiler keeps: it has a name and one of the three known actions.
      Every other header is skipped. */
  predicate IsKept(h: Header) { h.name != "" && !h.action.Other? }

  /** The position of a kept header's group in the compiled list: add, then modify,
      then delete. */
  function Rank(h: Header): nat {
    match h.action
    case Add => 0
    case Modify => 1
    case _ => 2
  }

  /** The modification a kept header becomes: a 'remove' of the lower-cased name for a
      delete, a 'set' to the header's value (absent counts as empty) otherwise. */
  function Translate(h: Header): ModifyHeaderInfo {
    if h.action == Delete then ModifyHeaderInfo(ToLower(h.name), Remove, None)
    else ModifyHeaderInfo(ToLower(h.name), Set, Some(h.value))
  }

  /** The kept headers, add group first, then modify, then delete. */
  function GroupedHeaders(hs: seq<Header>): seq<Header> {
    Filter(hs, IsAdd) + Filter(hs, IsModify) + Filter(hs, IsDelete)
  }

  /** The combined `requestHeaders` list of a profile's rule. */
  function RequestHeaderMods(hs: seq<Header>): seq<ModifyHeaderInfo> {
    Map(GroupedHeaders(hs), Translate)
  }

  /** True when the profile has something to compile, so that it emits a rule. */
  predicate EmitsRule(p: Profile) {
    RequestHeaderMods(p.headers) != []
  }

  /** The one rule a profile compiles to when it emits one. */
  function RuleFor(p: Profile, id: int): Rule {
    Rule(id, 1, RuleAction("modifyHeaders", RequestHeaderMods(p.headers)),
         RuleCondition(ConvertToUrlFilter(p.urlPattern), ResourceTypes))
  }

  /** The rules `generateRulesForProfile(p, startRuleId)` returns. */
  function ProfileRules(p: Profile, startRuleId: int): seq<Rule> {
    if EmitsRule(p) then [RuleFor(p, startRuleId)] else []
  }

  /** One step of the grouping loop: a header adds at most one entry at the end of the
      group it belongs to. */
  lemma GroupSnoc(hs: seq<Header>, h: Header, f: Header -> bool)
    ensures Map(Filter(hs + [h], f), Translate)
         == Map(Filter(hs, f), Translate) + (if f(h) then [Translate(h)] else [])
  {
    FilterSnoc(hs, h, f);
    MapAppend(Filter(hs, f), if f(h) then [h] else [], Translate);
  }

  /** One step of the grouping loop over `hs`, at position `i`. */
  lemma GroupStep(hs: seq<Header>, i: nat)
    requires i < |hs|
    ensures Map(Filter(hs[..i + 1], IsAdd), Translate)
         == Map(Filter(hs[..i], IsAdd), Translate) + (if IsAdd(hs[i]) then [Translate(hs[i])] else [])
    ensures Map(Filter(hs[..i + 1], IsModify), Translate)
         == Map(Filter(hs[..i], IsModify), Translate) + (if IsModify(hs[i]) then [Translate(hs[i])] else [])
    ensures Map(Filter(hs[..i + 1], IsDelete), Translate)
         == Map(Filter(hs[..i], IsDelete), Translate) + (if IsDelete(hs[i]) then [Translate(hs[i])] else [])
  {
    assert hs[..i + 1] == hs[..i] + [hs[i]];
    GroupSnoc(hs[..i], hs[i], IsAdd);
    GroupSnoc(hs[..i], hs[i], IsModify);
    GroupSnoc(hs[..i], hs[i], IsDelete);
  }

  /** The combined list is the translated add group, then modify group, then delete group. */
  lemma ModsByGroup(hs: seq<Header>)
    ensures RequestHeaderMods(hs) == Map(Filter(hs, IsAdd), Translate)
      + Map(Filter(hs, IsModify), Translate) + Map(Filter(hs, IsDelete), Translate)
  {
    MapAppend(Filter(hs, IsAdd), Filter(hs, IsModify), Translate);
    MapAppend(Filter(hs, IsAdd) + Filter(hs, IsModify), Filter(hs, IsDelete), Translate);
  }

  /** The grouping loop of `generateRulesForProfile`: one pass over the headers that
      skips those without a name, pushes each add, modify and delete header's
      modification onto its group, and ignores unknown actions. */
  method GroupHeaders(headers: seq<Header>)
    returns (addHeaders: seq<ModifyHeaderInfo>, modifyHeaders: seq<ModifyHeaderInfo>, removeHeaders: seq<ModifyHeaderInfo>)
    ensures addHeaders + modifyHeaders + removeHeaders == RequestHeaderMods(headers)
    ensures addHeaders == Map(Filter(headers, IsAdd), Translate)
    ensures modifyHeaders == Map(Filter(headers, IsModify), Translate)
    ensures removeHeaders == Map(Filter(headers, IsDelete), Translate)
  {
    addHeaders, modifyHeaders, removeHeaders := [], [], [];
    for i := 0 to |headers|
      invariant addHeaders == Map(Filter(headers[..i], IsAdd), Translate)
      invariant modifyHeaders == Map(Filter(headers[..i], IsModify), Translate)
      invariant removeHeaders == Map(Filter(headers[..i], IsDelete), Translate)
    {
      var header := headers[i];
      GroupStep(headers, i);
      if header.name == "" {
        continue;
      }
      if header.action == Add {
        addHeaders := addHeaders + [ModifyHeaderInfo(ToLower(header.name), Set, Some(header.value))];
      } else if header.action == Modify {
        modifyHeaders := modifyHeaders + [ModifyHeaderInfo(ToLower(header.name), Set, Some(header.value))];
      } else if header.action == Delete {
        removeHeaders := removeHeaders + [ModifyHeaderInfo(ToLower(header.name), Remove, None)];
      }
    }
    assert headers[..|headers|] == headers;
    ModsByGroup(headers);
  }

  /** `generateRulesForProfile`: a profile without headers yields no rule; otherwise the
      grouped modifications, when there are any, make up one rule with id `startRuleId`. */
  method GenerateRulesForProfile(profile: Profile, startRuleId: int) returns (rules: seq<Rule>)
    ensures rules == ProfileRules(profile, startRuleId)
  {
    rules := [];
    var ruleId := startRuleId;
    if |profile.headers| == 0 {
      return;
    }
    var urlFilter := ConvertToUrlFilter(profile.urlPattern);
    var addHeaders, modifyHeaders, removeHeaders := GroupHeaders(profile.headers);
    var requestHeaderMods := addHeaders + modifyHeaders + removeHeaders;
    if |requestHeaderMods| > 0 {
      rules := rules + [Rule(ruleId, 1, RuleAction("modifyHeaders", requestHeaderMods),
                             RuleCondition(urlFilter, ResourceTypes))];
      ruleId := ruleId + 1;
    }
  }

  /** A profile emits a rule exactly when at least one of its headers has a name and a
      known action; so a profile without headers emits none. */
  lemma EmitsRuleIff(p: Profile, startRuleId: int)
    ensures EmitsRule(p) <==> exists i :: 0 <= i < |p.headers| && IsKept(p.headers[i])
    ensures |ProfileRules(p, startRuleId)| == if EmitsRule(p) then 1 else 0
  {
    FilterEmptyIff(p.headers, IsAdd);
    FilterEmptyIff(p.headers, IsModify);
    FilterEmptyIff(p.headers, IsDelete);
  }

  /** The grouped list holds exactly the kept headers, each as often as in the profile:
      no header is dropped, duplicated or invented by the grouping. */
  lemma GroupedIsPermutation(hs: seq<Header>)
    ensures multiset(GroupedHeaders(hs)) == multiset(Filter(hs, IsKept))
  {
    FilterSplit(hs, IsAdd, IsModify, IsDelete, IsKept);
  }

  /** All add entries precede all modify entries, which precede all delete entries. */
  lemma GroupedIsRankOrdered(hs: seq<Header>)
    ensures forall i, j :: 0 <= i < j < |GroupedHeaders(hs)| ==>
      Rank(GroupedHeaders(hs)[i]) <= Rank(GroupedHeaders(hs)[j])
  {
    var a, m, d := Filter(hs, IsAdd), Filter(hs, IsModify), Filter(hs, IsDelete);
    var g := GroupedHeaders(hs);
    FilterSatisfies(hs, IsAdd);
    FilterSatisfies(hs, IsModify);
    FilterSatisfies(hs, IsDelete);
    forall i | 0 <= i < |g| ensures Rank(g[i]) == if i < |a| then 0 else if i < |a| + |m| then 1 else 2 {
      if i < |a| {
        assert g[i] == a[i] && a[i] in a;
      } else if i < |a| + |m| {
        assert g[i] == m[i - |a|] && m[i - |a|] in m;
      } else {
        assert g[i] == d[i - |a| - |m|] && d[i - |a| - |m|] in d;
      }
    }
  }

  /** Within each group the headers keep the order they have in the profile. */
  lemma GroupedIsStable(hs: seq<Header>)
    ensures Filter(GroupedHeaders(hs), IsAdd) == Filter(hs, IsAdd)
    ensures Filter(GroupedHeaders(hs), IsModify) == Filter(hs, IsModify)
    ensures Filter(GroupedHeaders(hs), IsDelete) == Filter(hs, IsDelete)
  {
    var a, m, d := Filter(hs, IsAdd), Filter(hs, IsModify), Filter(hs, IsDelete);
    assert Filter(a + m + d, IsAdd) == a by {
      FilterAppend(a + m, d, IsAdd);
      FilterAppend(a, m, IsAdd);
      FilterIdempotent(hs, IsAdd);
      FilterExcludes(hs, IsModify, IsAdd);
      FilterExcludes(hs, IsDelete, IsAdd);
    }
    assert Filter(a + m + d, IsModify) == m by {
      FilterAppend(a + m, d, IsModify);
      FilterAppend(a, m, IsModify);
      FilterIdempotent(hs, IsModify);
      FilterExcludes(hs, IsAdd, IsModify);
      FilterExcludes(hs, IsDelete, IsModify);
    }
    assert Filter(a + m + d, IsDelete) == d by {
      FilterAppend(a + m, d, IsDelete);
      FilterAppend(a, m, IsDelete);
      FilterIdempotent(hs, IsDelete);
      FilterExcludes(hs, IsAdd, IsDelete);
      FilterExcludes(hs, IsModify, IsDelete);
    }
  }

  /** Each `requestHeaders` entry comes from the grouped header at its position: the
      lower-cased name, 'remove' without a value exactly for a delete, and otherwise
      'set' to the header's value. */
  lemma RequestHeaderEntries(hs: seq<Header>)
    ensures |RequestHeaderMods(hs)| == |GroupedHeaders(hs)|
    ensures forall k :: 0 <= k < |RequestHeaderMods(hs)| ==>
      var h, m := GroupedHeaders(hs)[k], RequestHeaderMods(hs)[k];
      h.name != "" && m.header == ToLower(h.name)
      && (m.operation == Remove <==> h.action == Delete)
      && (m.operation == Remove ==> m.value == None)
      && (m.operation == Set ==> m.value == Some(h.value) && (h.action == Add || h.action == Modify))
  {
    var a, m, d := Filter(hs, IsAdd), Filter(hs, IsModify), Filter(hs, IsDelete);
    var g := GroupedHeaders(hs);
    MapAt(g, Translate);
    FilterSatisfies(hs, IsAdd);
    FilterSatisfies(hs, IsModify);
    FilterSatisfies(hs, IsDelete);
    forall k | 0 <= k < |g| ensures IsKept(g[k]) {
      if k < |a| {
        assert g[k] == a[k];
      } else if k < |a| + |m| {
        assert g[k] == m[k - |a|];
      } else {
        assert g[k] == d[k - |a| - |m|];
      }
    }
  }

  /** The header list of the example below, with its two headers. */
  function ExampleHeaders(): seq<Header> {
    [Header(Add, "X-Test", "1"), Header(Delete, "Cookie", "")]
  }

  /** The example's add and delete fall into their groups, already in group order. */
  lemma ExampleGrouping()
    ensures GroupedHeaders(ExampleHeaders()) == ExampleHeaders()
  {
    var hs := ExampleHeaders();
    assert hs[1..][1..] == [];
    assert Filter(hs, IsAdd) == [hs[0]];
    assert Filter(hs, IsModify) == [];
    assert Filter(hs, IsDelete) == [hs[1]];
  }

  /** The add of the example becomes a 'set' of the lower-cased name. */
  lemma ExampleAddTranslation()
    ensures Translate(ExampleHeaders()[0]) == ModifyHeaderInfo("x-test", Set, Some("1"))
  {
    MapAt("X-Test", LowerChar);
  }

  /** The delete of the example becomes a 'remove' of the lower-cased name. */
  lemma ExampleDeleteTranslation()
    ensures Translate(ExampleHeaders()[1]) == ModifyHeaderInfo("cookie", Remove, None)
  {
    MapAt("Cookie", LowerChar);
  }

  /** An add of `X-Test: 1` and a delete of `Cookie` compile, lower-cased, to a 'set'
      followed by a 'remove'. */
  lemma RequestHeaderExample()
    ensures RequestHeaderMods(ExampleHeaders())
         == [ModifyHeaderInfo("x-test", Set, Some("1")), ModifyHeaderInfo("cookie", Remove, None)]
  {
    ExampleGrouping();
    ExampleAddTranslation();
    ExampleDeleteTranslation();
    MapAt(ExampleHeaders(), Translate);
  }

  /** A rule a profile emits carries the given id, priority 1, the 'modifyHeaders'
      action with a non-empty list, the translated URL pattern, and all 15 resource
      types. */
  lemma EmittedRuleShape(p: Profile, startRuleId: int)
    ensures forall r :: r in ProfileRules(p, startRuleId) ==>
      r.id == startRuleId && r.priority == 1 && r.action.actionType == "modifyHeaders"
      && r.action.requestHeaders == RequestHeaderMods(p.headers) != []
      && r.condition.urlFilter == ConvertToUrlFilter(p.urlPattern)
      && r.condition.resourceTypes == ResourceTypes && |ResourceTypes| == 15
  {
  }

  /** The id-threading fold of `updateRules`: the rules of the profiles in list order,
      each profile's rule numbered from where the previous ones stopped. */
  function CompileRules(ps: seq<Profile>, startRuleId: int): (r: seq<Rule>)
    ensures |r| == |Filter(ps, EmitsRule)| <= |ps|
  {
    NumberedCharacterised(ps, startRuleId, EmitsRule, RuleFor);
    Numbered(ps, startRuleId, EmitsRule, RuleFor)
  }

  /** Compiling one more profile appends exactly that profile's rules, numbered from
      where the others stopped. */
  lemma CompileRulesSnoc(ps: seq<Profile>, p: Profile, startRuleId: int)
    ensures CompileRules(ps + [p], startRuleId)
         == CompileRules(ps, startRuleId) + ProfileRules(p, startRuleId + |CompileRules(ps, startRuleId)|)
  {
    assert (ps + [p])[..|ps + [p]| - 1] == ps;
  }

  /** `CompileRulesSnoc` for the prefixes a loop over `ps` walks through. */
  lemma CompileRulesPrefix(ps: seq<Profile>, i: nat, startRuleId: int)
    requires i < |ps|
    ensures CompileRules(ps[..i + 1], startRuleId)
         == CompileRules(ps[..i], startRuleId) + ProfileRules(ps[i], startRuleId + |CompileRules(ps[..i], startRuleId)|)
  {
    assert ps[..i + 1] == ps[..i] + [ps[i]];
    CompileRulesSnoc(ps[..i], ps[i], startRuleId);
  }

  /** The k-th compiled rule is the rule of the k-th profile that emits one, with id
      `startRuleId + k`: one rule per emitting profile, in list order, and a profile that
      emits nothing consumes no id. */
  lemma CompiledRulesCharacterised(ps: seq<Profile>, startRuleId: int)
    ensures |CompileRules(ps, startRuleId)| == |Filter(ps, EmitsRule)|
    ensures forall k :: 0 <= k < |CompileRules(ps, startRuleId)| ==>
      CompileRules(ps, startRuleId)[k] == RuleFor(Filter(ps, EmitsRule)[k], startRuleId + k)
  {
    NumberedCharacterised(ps, startRuleId, EmitsRule, RuleFor);
  }

  /** The compiled ids are `startRuleId`, `startRuleId + 1`, ... with no gap and no
      repeat. */
  lemma CompiledIds(ps: seq<Profile>, startRuleId: int)
    ensures forall k :: 0 <= k < |CompileRules(ps, startRuleId)| ==>
      CompileRules(ps, startRuleId)[k].id == startRuleId + k
    ensures forall i, j :: 0 <= i < j < |CompileRules(ps, startRuleId)| ==>
      CompileRules(ps, startRuleId)[i].id != CompileRules(ps, startRuleId)[j].id
  {
    CompiledRulesCharacterised(ps, startRuleId);
  }
}
