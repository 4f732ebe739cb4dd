/** Risk policy: plan classification, the trusted capability registry, and the effective risk of an option. */
module Policy {
  import opened Common

  datatype Risk = Read | SafeWrite | RiskyWrite | Destructive

  /** One registry rule; `matches` stands for its pattern in its mode. */
  datatype Rule = Rule(id: string, risk: Risk, matches: string -> bool)

  datatype RemediationOption = RemediationOption(id: string, description: string, risk: Risk)

  datatype RecoveryPlan = RecoveryPlan(options: seq<RemediationOption>, requiresBusinessInput: bool)

  /** `actions` is the policy section of the configuration; no registry is None. */
  datatype Engine = Engine(actions: map<Risk, string>, registry: Option<seq<Rule>>)

  datatype Verdict = Auto | Approval | Decision | Input | Deny

  function RiskOrder(r: Risk): int {
    match r
    case Read => -1
    case SafeWrite => 0
    case RiskyWrite => 1
    case Destructive => 2
  }

  function Action(e: Engine, r: Risk): string {
    if r in e.actions then e.actions[r] else "DENY"
  }

  function Lookup(rules: seq<Rule>, description: string): Option<Rule> {
    if rules == [] then None
    else if rules[0].matches(description) then Some(rules[0])
    else Lookup(rules[1..], description)
  }

  function LowerChar(c: char): char {
    if 'A' <= c <= 'Z' then 'a' + (c - 'A') else c
  }

  function Lower(s: string): string {
    seq(|s|, i requires 0 <= i < |s| => LowerChar(s[i]))
  }

  predicate OccursAt(s: string, needle: string, i: nat) {
    i + |needle| <= |s| && s[i..i + |needle|] == needle
  }

  predicate Contains(s: string, needle: string) {
    exists i: nat :: i <= |s| && OccursAt(s, needle, i)
  }

  /** Heuristic for operations that no rule matches. */
  function ClassifyOperation(description: string): Risk {
    if description == "" then RiskyWrite
    else if Contains(Lower(description), "patch /admin/") then Destructive
    else if Contains(Lower(description), "patch") then SafeWrite
    else RiskyWrite
  }

  function MatchedRule(e: Engine, description: string): Option<Rule> {
    if e.registry.Some? then Lookup(e.registry.value, description) else None
  }

  function EffectiveRisk(e: Engine, description: string, modelRisk: Risk): Risk {
    var rule := MatchedRule(e, description);
    if rule.Some? then rule.value.risk
    else
      var classified := ClassifyOperation(description);
      if RiskOrder(classified) > RiskOrder(modelRisk) then classified else modelRisk
  }

  function ClassifyPlan(e: Engine, plan: RecoveryPlan): Verdict {
    if plan.requiresBusinessInput then Input
    else if plan.options == [] then Deny
    else if |plan.options| > 1 then Decision
    else
      var action := Action(e, plan.options[0].risk);
      if action == "AUTO" then Auto else if action == "HUMAN_APPROVAL" then Approval else Deny
  }

  /** First match wins: the rule found is the earliest one that matches. */
  lemma {:induction false} FirstMatchWins(rules: seq<Rule>, description: string)
    ensures Lookup(rules, description).None? <==> forall i :: 0 <= i < |rules| ==> !rules[i].matches(description)
    ensures Lookup(rules, description).Some? ==>
      exists i :: 0 <= i < |rules| && rules[i] == Lookup(rules, description).value && rules[i].matches(description)
        && forall j :: 0 <= j < i ==> !rules[j].matches(description)
  {
    if rules != [] && !rules[0].matches(description) {
      FirstMatchWins(rules[1..], description);
      if Lookup(rules[1..], description).Some? {
        var i :| 0 <= i < |rules[1..]| && rules[1..][i] == Lookup(rules, description).value
          && rules[1..][i].matches(description)
          && forall j :: 0 <= j < i ==> !rules[1..][j].matches(description);
        assert rules[i+1] == Lookup(rules, description).value;
        forall j | 0 <= j < i + 1 ensures !rules[j].matches(description) {
          if j > 0 {
            assert rules[1..][j-1] == rules[j];
          }
        }
      } else {
        forall i | 0 <= i < |rules| ensures !rules[i].matches(description) {
          if i > 0 {
            assert rules[1..][i-1] == rules[i];
          }
        }
      }
    }
  }

  /** The label the model supplied can only be raised, except by the registry, which always decides. */
  lemma LabelNeverLowersRisk(e: Engine, description: string, modelRisk: Risk)
    ensures MatchedRule(e, description).Some? ==>
      forall other :: EffectiveRisk(e, description, modelRisk) == EffectiveRisk(e, description, other)
    ensures MatchedRule(e, description).None? ==>
      && RiskOrder(EffectiveRisk(e, description, modelRisk)) >= RiskOrder(modelRisk)
      && EffectiveRisk(e, description, modelRisk) != Read
  {
  }

  const PRODUCTION := map[Read := "AUTO", SafeWrite := "AUTO", RiskyWrite := "HUMAN_APPROVAL", Destructive := "DENY"]

  /**
   Autonomous execution looks at the model's label only. Under the shipped policy, a plan is executed
   autonomously although an approval of the same option would be denied exactly when its label is read or
   safe_write while the registry calls it destructive, or no rule matches and the text names an admin patch.
   */
  lemma AutoOverridesDenialIff(registry: Option<seq<Rule>>, option: RemediationOption)
    ensures var e := Engine(PRODUCTION, registry);
      ClassifyPlan(e, RecoveryPlan([option], false)) == Auto
        && Action(e, EffectiveRisk(e, option.description, option.risk)) == "DENY"
      <==>
      (option.risk == Read || option.risk == SafeWrite) &&
        (match MatchedRule(e, option.description)
         case Some(rule) => rule.risk == Destructive
         case None => option.description != "" && Contains(Lower(option.description), "patch /admin/"))
  {
    hide Contains, Lower, MatchedRule;
  }

  /**
   The same question for approval: under the shipped policy, a plan is executed autonomously although the effective
   risk of its option asks for human approval exactly when its label is read or safe_write while the registry calls
   it risky_write, or no rule matches and the text does not speak of a patch.
   */
  lemma AutoSkipsApprovalIff(registry: Option<seq<Rule>>, option: RemediationOption)
    ensures var e := Engine(PRODUCTION, registry);
      && ClassifyPlan(e, RecoveryPlan([option], false)) == Auto
      && Action(e, EffectiveRisk(e, option.description, option.risk)) == "HUMAN_APPROVAL"
      <==>
      (option.risk == Read || option.risk == SafeWrite) &&
        (match MatchedRule(e, option.description)
         case Some(rule) => rule.risk == RiskyWrite
         case None => !Contains(Lower(option.description), "patch"))
  {
    hide Contains, Lower, MatchedRule;
    AdminPatchIsPatch(Lower(option.description));
    if option.description == "" {
      NoPatchInNothing();
    }
  }

  lemma AdminPatchIsPatch(s: string)
    ensures Contains(s, "patch /admin/") ==> Contains(s, "patch")
  {
    if i: nat :| i <= |s| && OccursAt(s, "patch /admin/", i) {
      assert s[i..i+5] == s[i..i+13][..5];
      assert OccursAt(s, "patch", i);
    }
  }

  lemma NoPatchInNothing()
    ensures !Contains(Lower(""), "patch")
  {
    assert |Lower("")| == 0;
  }

  /** Every verdict on a plan; a risk without an action in the configuration is denied. */
  lemma VerdictIff(e: Engine, plan: RecoveryPlan)
    ensures var single := !plan.requiresBusinessInput && |plan.options| == 1;
      && (ClassifyPlan(e, plan) == Input <==> plan.requiresBusinessInput)
      && (ClassifyPlan(e, plan) == Decision <==> !plan.requiresBusinessInput && |plan.options| >= 2)
      && (ClassifyPlan(e, plan) == Auto <==>
            single && plan.options[0].risk in e.actions && e.actions[plan.options[0].risk] == "AUTO")
      && (ClassifyPlan(e, plan) == Approval <==>
            single && plan.options[0].risk in e.actions && e.actions[plan.options[0].risk] == "HUMAN_APPROVAL")
      && (ClassifyPlan(e, plan) == Deny <==>
            && !plan.requiresBusinessInput
            && (plan.options == [] ||
                (single && (plan.options[0].risk in e.actions ==>
                              e.actions[plan.options[0].risk] != "AUTO"
                              && e.actions[plan.options[0].risk] != "HUMAN_APPROVAL"))))
  {
  }

  /** A risk is denied if the configuration says so or says nothing. */
  lemma DeniedIff(e: Engine, risk: Risk)
    ensures Action(e, risk) == "DENY" <==> (risk in e.actions ==> e.actions[risk] == "DENY")
  {
  }

  /**
   The effective risk in every case: the first matching rule decides; without one, a text that names an admin patch
   is destructive, one that names another patch is at least a safe write, and any other at least a risky write.
   */
  lemma EffectiveRiskIs(e: Engine, description: string, modelRisk: Risk)
    ensures match MatchedRule(e, description)
      case Some(rule) => EffectiveRisk(e, description, modelRisk) == rule.risk
      case None =>
        EffectiveRisk(e, description, modelRisk) ==
          if Contains(Lower(description), "patch /admin/") then Destructive
          else if Contains(Lower(description), "patch") then (if modelRisk == Read then SafeWrite else modelRisk)
          else if modelRisk == Destructive then Destructive else RiskyWrite
  {
    hide Contains, Lower, MatchedRule;
    if description == "" {
      NoPatchInNothing();
      NoAdminPatchInNothing();
    }
  }

  lemma NoAdminPatchInNothing()
    ensures !Contains(Lower(""), "patch /admin/")
  {
    assert |Lower("")| == 0;
  }

  /** A rule is looked up if there is a registry, and then the first one that matches. */
  lemma MatchedRuleIs(e: Engine, description: string)
    ensures MatchedRule(e, description).None? <==>
            e.registry.None? || forall i :: 0 <= i < |e.registry.value| ==> !e.registry.value[i].matches(description)
    ensures MatchedRule(e, description).Some? ==>
      exists i :: 0 <= i < |e.registry.value| && e.registry.value[i] == MatchedRule(e, description).value
        && e.registry.value[i].matches(description)
        && forall j :: 0 <= j < i ==> !e.registry.value[j].matches(description)
  {
    if e.registry.Some? {
      FirstMatchWins(e.registry.value, description);
    }
  }

  /** A text contains another exactly if it is something, the other, and something more. */
  lemma ContainsIff(s: string, needle: string)
    ensures Contains(s, needle) <==> exists before, after :: s == before + needle + after
  {
    if i: nat :| i <= |s| && OccursAt(s, needle, i) {
      assert s == s[..i] + needle + s[i + |needle|..];
    }
    if before, after :| s == before + needle + after {
      assert s[|before|..|before| + |needle|] == needle;
      assert OccursAt(s, needle, |before|);
    }
  }

  /** Lower-casing moves the 26 capital letters to their small ones and nothing else. */
  lemma LowerIs(s: string)
    ensures |Lower(s)| == |s|
    ensures forall i :: 0 <= i < |s| ==>
      Lower(s)[i] as int == s[i] as int + if 65 <= s[i] as int <= 90 then 32 else 0
  {
  }
}
