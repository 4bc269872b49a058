/**
 The policy evaluator: an early-return search through the rules of the attached policies. Whether a pattern matches the
 resource is a parameter; the last lemma fills it with the compiled globs.
 */
module AclEvaluator {
  import opened Prelude
  import opened Glob
  import GlobRules

  const DENY: string := "deny"

  /** Health, backup and admin rules have no pattern; they carry the empty one and match always. */
  datatype Rule = Rule(pattern: string, capabilities: seq<string>)

  datatype Policy = Policy(name: string, kv: seq<Rule>, service: seq<Rule>, health: seq<Rule>, backup: seq<Rule>,
                           admin: seq<Rule>)

  datatype ResourceType = KV | Service | Health | Backup | Admin | Unknown
  datatype Resource = Resource(kind: ResourceType, path: string)

  datatype PolicyError = InvalidPolicy | PolicyExists | PolicyNotFound

  function RulesOf(policy: Policy, kind: ResourceType): seq<Rule> {
    match kind
    case KV => policy.kv
    case Service => policy.service
    case Health => policy.health
    case Backup => policy.backup
    case Admin => policy.admin
    case Unknown => []
  }

  // ---- The verdict ---------------------------------------------------------------------------------------------

  predicate Denies(rule: Rule, hit: string -> bool) {
    hit(rule.pattern) && DENY in rule.capabilities
  }

  predicate Allows(rule: Rule, hit: string -> bool, capability: string) {
    hit(rule.pattern) && capability in rule.capabilities
  }

  ghost predicate HasDeny(rules: seq<Rule>, hit: string -> bool) {
    exists i :: 0 <= i < |rules| && Denies(rules[i], hit)
  }

  ghost predicate GrantedAt(rules: seq<Rule>, hit: string -> bool, capability: string, i: int) {
    && 0 <= i < |rules|
    && Allows(rules[i], hit, capability)
    && forall j :: 0 <= j <= i ==> !Denies(rules[j], hit)
  }

  /** Some matching rule carries the capability, and no matching rule up to and including it denies. */
  ghost predicate Grants(rules: seq<Rule>, hit: string -> bool, capability: string) {
    exists i :: GrantedAt(rules, hit, capability, i)
  }

  function Flatten(lists: seq<seq<Rule>>): seq<Rule> {
    if |lists| == 0 then [] else lists[0] + Flatten(lists[1..])
  }

  /** Searching one list after the other: the second counts only while the first neither grants nor denies. */
  lemma GrantsConcat(a: seq<Rule>, b: seq<Rule>, hit: string -> bool, capability: string)
    ensures Grants(a + b, hit, capability) <==>
            Grants(a, hit, capability) || (!HasDeny(a, hit) && Grants(b, hit, capability))
    ensures HasDeny(a + b, hit) <==> HasDeny(a, hit) || HasDeny(b, hit)
  {
    var rules := a + b;
    assert forall i :: 0 <= i < |a| ==> rules[i] == a[i];
    assert forall i :: 0 <= i < |b| ==> rules[|a| + i] == b[i];
    if HasDeny(a, hit) {
      var i :| 0 <= i < |a| && Denies(a[i], hit);
      assert Denies(rules[i], hit);
    }
    if HasDeny(b, hit) {
      var i :| 0 <= i < |b| && Denies(b[i], hit);
      assert Denies(rules[|a| + i], hit);
    }
    if i :| GrantedAt(a, hit, capability, i) {
      assert GrantedAt(rules, hit, capability, i);
    }
    if !HasDeny(a, hit) && Grants(b, hit, capability) {
      var i :| GrantedAt(b, hit, capability, i);
      forall j | 0 <= j <= |a| + i ensures !Denies(rules[j], hit) {
        if j < |a| {
          assert rules[j] == a[j];
        } else {
          assert rules[j] == b[j - |a|];
        }
      }
      assert GrantedAt(rules, hit, capability, |a| + i);
    }
    if i :| GrantedAt(rules, hit, capability, i) {
      if i < |a| {
        forall j | 0 <= j <= i ensures !Denies(a[j], hit) { assert !Denies(rules[j], hit); }
        assert GrantedAt(a, hit, capability, i);
      } else {
        forall j | 0 <= j < |a| ensures !Denies(a[j], hit) { assert !Denies(rules[j], hit); }
        forall j | 0 <= j <= i - |a| ensures !Denies(b[j], hit) { assert !Denies(rules[|a| + j], hit); }
        assert GrantedAt(b, hit, capability, i - |a|);
      }
    }
  }

  ghost predicate GrantedBy(lists: seq<seq<Rule>>, hit: string -> bool, capability: string, i: int) {
    && 0 <= i < |lists|
    && Grants(lists[i], hit, capability)
    && forall j :: 0 <= j < i ==> !HasDeny(lists[j], hit)
  }

  ghost predicate SomeDenies(lists: seq<seq<Rule>>, hit: string -> bool) {
    exists i :: 0 <= i < |lists| && HasDeny(lists[i], hit)
  }

  ghost predicate SomeGrants(lists: seq<seq<Rule>>, hit: string -> bool, capability: string) {
    exists i :: 0 <= i < |lists| && Grants(lists[i], hit, capability)
  }

  /** Policy by policy: access is given by a policy that grants alone, with no matching deny in any policy before it. */
  lemma {:induction false} GrantedByAPolicy(lists: seq<seq<Rule>>, hit: string -> bool, capability: string)
    ensures Grants(Flatten(lists), hit, capability) <==> exists i :: GrantedBy(lists, hit, capability, i)
    ensures HasDeny(Flatten(lists), hit) <==> SomeDenies(lists, hit)
  {
    if |lists| > 0 {
      var rest := lists[1..];
      GrantedByAPolicy(rest, hit, capability);
      GrantsConcat(lists[0], Flatten(rest), hit, capability);
      if Grants(lists[0], hit, capability) {
        assert GrantedBy(lists, hit, capability, 0);
      }
      if !HasDeny(lists[0], hit) && exists i :: GrantedBy(rest, hit, capability, i) {
        var i :| GrantedBy(rest, hit, capability, i);
        forall j | 0 <= j < i + 1 ensures !HasDeny(lists[j], hit) {
          if j > 0 { assert lists[j] == rest[j - 1]; }
        }
        assert GrantedBy(lists, hit, capability, i + 1);
      }
      if i :| GrantedBy(lists, hit, capability, i) {
        if i > 0 {
          forall j | 0 <= j < i - 1 ensures !HasDeny(rest[j], hit) { assert rest[j] == lists[j + 1]; }
          assert GrantedBy(rest, hit, capability, i - 1);
        }
      }
      if i :| 0 <= i < |rest| && HasDeny(rest[i], hit) {
        assert HasDeny(lists[i + 1], hit);
      }
      if i :| 0 <= i < |lists| && HasDeny(lists[i], hit) {
        if i > 0 { assert HasDeny(rest[i - 1], hit); }
      }
    }
  }

  // ---- The documented rules ------------------------------------------------------------------------------------

  ghost predicate SamePolicies(lists: seq<seq<Rule>>, order: seq<seq<Rule>>) {
    multiset(order) == multiset(lists)
  }

  /** "Any policy allowing the action grants access unless explicitly denied": true when nothing denies. */
  lemma WithoutDenyOneIsEnough(lists: seq<seq<Rule>>, hit: string -> bool, capability: string)
    requires !SomeDenies(lists, hit)
    ensures Grants(Flatten(lists), hit, capability) <==> SomeGrants(lists, hit, capability)
  {
    GrantedByAPolicy(lists, hit, capability);
    if i :| 0 <= i < |lists| && Grants(lists[i], hit, capability) {
      assert GrantedBy(lists, hit, capability, i);
    }
  }

  /** The policies with the one at position `i` moved to the front. */
  lemma MovedFirst(lists: seq<seq<Rule>>, i: int) returns (order: seq<seq<Rule>>)
    requires 0 <= i < |lists|
    ensures SamePolicies(lists, order) && |order| > 0 && order[0] == lists[i]
  {
    assert lists == lists[..i] + [lists[i]] + lists[i + 1..];
    order := [lists[i]] + lists[..i] + lists[i + 1..];
  }

  lemma SameMembers(lists: seq<seq<Rule>>, order: seq<seq<Rule>>, i: int) returns (j: int)
    requires SamePolicies(lists, order) && 0 <= i < |order|
    ensures 0 <= j < |lists| && lists[j] == order[i]
  {
    assert order[i] in multiset(order);
    assert order[i] in lists;
    j :| 0 <= j < |lists| && lists[j] == order[i];
  }

  /** Some order of the attached policies gives access exactly when one of them grants on its own. */
  lemma SomeOrderGrantsIff(lists: seq<seq<Rule>>, hit: string -> bool, capability: string)
    ensures (exists order :: SamePolicies(lists, order) && Grants(Flatten(order), hit, capability))
        <==> SomeGrants(lists, hit, capability)
  {
    if order :| SamePolicies(lists, order) && Grants(Flatten(order), hit, capability) {
      GrantedByAPolicy(order, hit, capability);
      var i :| GrantedBy(order, hit, capability, i);
      var j := SameMembers(lists, order, i);
    }
    if i :| 0 <= i < |lists| && Grants(lists[i], hit, capability) {
      var order := MovedFirst(lists, i);
      GrantedByAPolicy(order, hit, capability);
      assert GrantedBy(order, hit, capability, 0);
    }
  }

  /** "Explicit deny wins", whatever the order of the policies, holds for a token with a matching deny exactly when no
      attached policy grants the action on its own. */
  lemma ExplicitDenyWinsIff(lists: seq<seq<Rule>>, hit: string -> bool, capability: string)
    requires SomeDenies(lists, hit)
    ensures (forall order :: SamePolicies(lists, order) ==> !Grants(Flatten(order), hit, capability))
        <==> !SomeGrants(lists, hit, capability)
  {
    SomeOrderGrantsIff(lists, hit, capability);
  }

  lemma FlattenPair(a: seq<Rule>, b: seq<Rule>)
    ensures Flatten([a, b]) == a + b
  {
    assert [a, b][1..] == [b] && [b][1..] == [];
    assert Flatten([b]) == b + [];
  }

  /** An allowing policy attached before a denying one: the deny is never reached. */
  lemma ExplicitDenyLoses(hit: string -> bool, pattern: string, capability: string)
    requires hit(pattern) && capability != DENY
    ensures var allow := [Rule(pattern, [capability])]; var deny := [Rule(pattern, [DENY])];
            && HasDeny(Flatten([allow, deny]), hit)
            && Grants(Flatten([allow, deny]), hit, capability)
            && !Grants(Flatten([deny, allow]), hit, capability)
  {
    var allow := [Rule(pattern, [capability])];
    var deny := [Rule(pattern, [DENY])];
    FlattenPair(allow, deny);
    FlattenPair(deny, allow);
    assert DENY in deny[0].capabilities && Denies(deny[0], hit);
    assert Denies([allow[0], deny[0]][1], hit) && HasDeny([allow[0], deny[0]], hit);
    assert allow + deny == [allow[0], deny[0]] && deny + allow == [deny[0], allow[0]];
    assert allow[0].capabilities == [capability] && !Denies(allow[0], hit);
    assert GrantedAt([allow[0], deny[0]], hit, capability, 0);
    assert Denies([deny[0], allow[0]][0], hit);
  }

  /** Every order gives access exactly when some policy grants on its own and every policy with a matching deny does. */
  lemma EveryOrderGrantsIff(lists: seq<seq<Rule>>, hit: string -> bool, capability: string)
    ensures (forall order :: SamePolicies(lists, order) ==> Grants(Flatten(order), hit, capability))
        <==> (&& SomeGrants(lists, hit, capability)
              && forall i :: 0 <= i < |lists| && HasDeny(lists[i], hit) ==> Grants(lists[i], hit, capability))
  {
    if forall order :: SamePolicies(lists, order) ==> Grants(Flatten(order), hit, capability) {
      assert SamePolicies(lists, lists);
      SomeOrderGrantsIff(lists, hit, capability);
      forall i | 0 <= i < |lists| && HasDeny(lists[i], hit) ensures Grants(lists[i], hit, capability) {
        var order := MovedFirst(lists, i);
        GrantedByAPolicy(order, hit, capability);
        var k :| GrantedBy(order, hit, capability, k);
        assert k == 0;
      }
    }
    if SomeGrants(lists, hit, capability)
       && forall i :: 0 <= i < |lists| && HasDeny(lists[i], hit) ==> Grants(lists[i], hit, capability)
    {
      forall order | SamePolicies(lists, order) ensures Grants(Flatten(order), hit, capability) {
        var i :| 0 <= i < |lists| && Grants(lists[i], hit, capability);
        var k := SameMembers(order, lists, i);
        forall j | 0 <= j < |order| && HasDeny(order[j], hit) ensures Grants(order[j], hit, capability) {
          var m := SameMembers(lists, order, j);
        }
        FirstDecidingGrants(order, hit, capability, k);
      }
    }
  }

  lemma {:induction false} FirstDecidingGrants(lists: seq<seq<Rule>>, hit: string -> bool, capability: string, k: int)
    requires 0 <= k < |lists| && Grants(lists[k], hit, capability)
    requires forall i :: 0 <= i < |lists| && HasDeny(lists[i], hit) ==> Grants(lists[i], hit, capability)
    ensures Grants(Flatten(lists), hit, capability)
    decreases k
  {
    GrantedByAPolicy(lists, hit, capability);
    if i :| 0 <= i < k && HasDeny(lists[i], hit) {
      FirstDecidingGrants(lists, hit, capability, i);
    } else {
      assert GrantedBy(lists, hit, capability, k);
    }
  }

  /** "The first matching rule determines the outcome", whatever follows it, holds exactly when that rule denies or
      carries the capability; otherwise the search goes on. */
  lemma FirstMatchDecidesIff(first: Rule, hit: string -> bool, capability: string)
    requires hit(first.pattern) && capability != DENY
    ensures (forall rest :: Grants([first] + rest, hit, capability) == Grants([first], hit, capability))
        <==> Denies(first, hit) || Allows(first, hit, capability)
  {
    forall rest ensures Grants([first] + rest, hit, capability) <==>
                        Grants([first], hit, capability)
                        || (!HasDeny([first], hit) && Grants(rest, hit, capability))
    {
      GrantsConcat([first], rest, hit, capability);
    }
    if Denies(first, hit) {
      assert Denies([first][0], hit);
    } else if Allows(first, hit, capability) {
      assert GrantedAt([first], hit, capability, 0);
    } else {
      var later := [Rule(first.pattern, [capability])];
      assert GrantedAt(later, hit, capability, 0);
      assert Grants([first] + later, hit, capability);
      assert !Grants([first], hit, capability);
    }
  }

  /** With plain patterns the evaluator decides as if it matched the globs themselves. */
  lemma PlainPatternsAreGlobs(rules: seq<Rule>, key: string, capability: string)
    requires '\n' !in key
    requires forall i :: 0 <= i < |rules| ==> PlainPattern(rules[i].pattern)
    ensures Grants(rules, CompiledHit(key), capability) <==> Grants(rules, GlobHit(key), capability)
  {
    forall i | 0 <= i < |rules| ensures CompiledHit(key)(rules[i].pattern) == GlobHit(key)(rules[i].pattern) {
      HitsAgree(rules[i].pattern, key);
    }
    SameHitsSameVerdict(rules, CompiledHit(key), GlobHit(key), capability);
  }

  /** The same for service rules, whose patterns need not avoid the placeholder. */
  lemma PlainServicePatternsAreGlobs(rules: seq<Rule>, name: string, capability: string)
    requires '\n' !in name
    requires forall i :: 0 <= i < |rules| ==> PlainServicePattern(rules[i].pattern)
    ensures Grants(rules, CompiledServiceHit(name), capability) <==> Grants(rules, ServiceGlobHit(name), capability)
  {
    forall i | 0 <= i < |rules|
      ensures CompiledServiceHit(name)(rules[i].pattern) == ServiceGlobHit(name)(rules[i].pattern)
    {
      ServiceHitsAgree(rules[i].pattern, name);
    }
    SameHitsSameVerdict(rules, CompiledServiceHit(name), ServiceGlobHit(name), capability);
  }

  lemma ServiceHitsAgree(pattern: string, name: string)
    requires '\n' !in name && PlainServicePattern(pattern)
    ensures CompiledServiceMatches(pattern, name) <==> ServiceGlobMatches(pattern, name)
  {
    GlobRules.ServiceRuleMeaningIff(pattern);
  }

  predicate CompiledServiceMatches(pattern: string, name: string) {
    Accepts(CompileService(pattern), name) == Some(true)
  }

  ghost predicate ServiceGlobMatches(pattern: string, name: string) {
    Denotes(ServiceTokens(pattern), name)
  }

  predicate PlainServicePattern(pattern: string) {
    '\\' !in pattern && '\n' !in pattern && !GlobRules.HasOperator(pattern)
  }

  function CompiledServiceHit(name: string): string -> bool {
    pattern => CompiledServiceMatches(pattern, name)
  }

  ghost function ServiceGlobHit(name: string): string -> bool {
    pattern => ServiceGlobMatches(pattern, name)
  }

  lemma HitsAgree(pattern: string, key: string)
    requires '\n' !in key && PlainPattern(pattern)
    ensures CompiledMatches(pattern, key) <==> GlobMatches(pattern, key)
  {
    GlobRules.KvRuleMeaningIff(pattern);
  }

  predicate CompiledMatches(pattern: string, key: string) {
    Accepts(CompileKV(pattern), key) == Some(true)
  }

  ghost predicate GlobMatches(pattern: string, key: string) {
    Denotes(Tokens(pattern), key)
  }

  predicate PlainPattern(pattern: string) {
    '\\' !in pattern && '\n' !in pattern && !GlobRules.HasOperator(pattern) && !GlobRules.MentionsPlaceholder(pattern)
  }

  function CompiledHit(key: string): string -> bool {
    pattern => CompiledMatches(pattern, key)
  }

  ghost function GlobHit(key: string): string -> bool {
    pattern => GlobMatches(pattern, key)
  }

  lemma SameHitsSameVerdict(rules: seq<Rule>, one: string -> bool, other: string -> bool, capability: string)
    requires forall i :: 0 <= i < |rules| ==> one(rules[i].pattern) == other(rules[i].pattern)
    ensures Grants(rules, one, capability) <==> Grants(rules, other, capability)
  {
    forall i | 0 <= i < |rules|
      ensures Denies(rules[i], one) == Denies(rules[i], other)
      ensures Allows(rules[i], one, capability) == Allows(rules[i], other, capability)
    {}
    forall i ensures GrantedAt(rules, one, capability, i) <==> GrantedAt(rules, other, capability, i) {}
  }

  // ---- The evaluator -------------------------------------------------------------------------------------------

  function Known(policies: map<string, Policy>, names: seq<string>): seq<Policy> {
    if |names| == 0 then []
    else (if names[0] in policies then [policies[names[0]]] else []) + Known(policies, names[1..])
  }

  function ListsOf(attached: seq<Policy>, kind: ResourceType): (lists: seq<seq<Rule>>)
    ensures |lists| == |attached|
    ensures forall i :: 0 <= i < |lists| ==> lists[i] == RulesOf(attached[i], kind)
  {
    seq(|attached|, i requires 0 <= i < |attached| => RulesOf(attached[i], kind))
  }

  /** The known policies of a list, in its order: known names give their policies one by one, unknown names nothing. */
  lemma {:induction false} KnownSplits(policies: map<string, Policy>, a: seq<string>, b: seq<string>)
    ensures Known(policies, a + b) == Known(policies, a) + Known(policies, b)
    ensures (forall name :: name in a ==> name !in policies) ==> Known(policies, a) == []
    ensures (forall name :: name in a ==> name in policies) ==>
              Known(policies, a) == seq(|a|, i requires 0 <= i < |a| && a[i] in policies => policies[a[i]])
  {
    if |a| == 0 {
      assert a + b == b;
    } else {
      KnownSplits(policies, a[1..], b);
      assert a == [a[0]] + a[1..] && a + b == [a[0]] + (a[1..] + b);
      KnownCons(policies, a[0], a[1..]);
      KnownCons(policies, a[0], a[1..] + b);
    }
  }

  // ---- The rules that count, by type of resource ---------------------------------------------------------------

  function KvRules(attached: seq<Policy>): seq<Rule> {
    if |attached| == 0 then [] else attached[0].kv + KvRules(attached[1..])
  }

  function ServiceRules(attached: seq<Policy>): seq<Rule> {
    if |attached| == 0 then [] else attached[0].service + ServiceRules(attached[1..])
  }

  function HealthRules(attached: seq<Policy>): seq<Rule> {
    if |attached| == 0 then [] else attached[0].health + HealthRules(attached[1..])
  }

  function BackupRules(attached: seq<Policy>): seq<Rule> {
    if |attached| == 0 then [] else attached[0].backup + BackupRules(attached[1..])
  }

  function AdminRules(attached: seq<Policy>): seq<Rule> {
    if |attached| == 0 then [] else attached[0].admin + AdminRules(attached[1..])
  }

  lemma {:induction false} EachTypeHasItsRules(attached: seq<Policy>)
    ensures Flatten(ListsOf(attached, KV)) == KvRules(attached)
    ensures Flatten(ListsOf(attached, Service)) == ServiceRules(attached)
    ensures Flatten(ListsOf(attached, Health)) == HealthRules(attached)
    ensures Flatten(ListsOf(attached, Backup)) == BackupRules(attached)
    ensures Flatten(ListsOf(attached, Admin)) == AdminRules(attached)
    ensures Flatten(ListsOf(attached, Unknown)) == []
  {
    if |attached| > 0 {
      EachTypeHasItsRules(attached[1..]);
      forall kind ensures ListsOf(attached, kind) == [RulesOf(attached[0], kind)] + ListsOf(attached[1..], kind) {}
    }
  }

  /** A pattern that always matches: health, backup and admin rules apply to every request of their type. */
  function Always(): string -> bool {
    pattern => true
  }

  function MatchedBy(matches: (string, string) -> bool, path: string): string -> bool {
    pattern => matches(pattern, path)
  }

  /** The policies of a list, later ones replacing earlier ones of the same name. */
  function Loaded(policies: map<string, Policy>, list: seq<Policy>): map<string, Policy> {
    if |list| == 0 then policies
    else
      var last := list[|list| - 1];
      Loaded(policies, list[..|list| - 1])[last.name := last]
  }

  lemma KnownCons(policies: map<string, Policy>, name: string, rest: seq<string>)
    ensures Known(policies, [name] + rest)
         == (if name in policies then [policies[name]] else []) + Known(policies, rest)
  {
    assert ([name] + rest)[1..] == rest;
  }

  lemma {:induction false} KnownAppend(policies: map<string, Policy>, names: seq<string>, name: string)
    ensures Known(policies, names + [name]) ==
            Known(policies, names) + (if name in policies then [policies[name]] else [])
  {
    if |names| > 0 {
      KnownAppend(policies, names[1..], name);
      KnownCons(policies, names[0], names[1..]);
      KnownCons(policies, names[0], names[1..] + [name]);
      assert names == [names[0]] + names[1..] && names + [name] == [names[0]] + (names[1..] + [name]);
    } else {
      KnownCons(policies, name, []);
      assert names + [name] == [name] + [];
    }
  }

  /** Every policy is stored under its own, non-empty name. */
  ghost predicate WellNamed(policies: map<string, Policy>) {
    forall name :: name in policies ==> policies[name].name == name && name != ""
  }

  /** The last policy of the list with that name. */
  predicate IsLastNamed(list: seq<Policy>, name: string, i: int) {
    && 0 <= i < |list| && list[i].name == name
    && forall j :: i < j < |list| ==> list[j].name != name
  }

  /** After loading a list a name has the last policy of the list that carries it. */
  lemma {:induction false} LastLoadedCounts(policies: map<string, Policy>, list: seq<Policy>, name: string, i: int)
    requires IsLastNamed(list, name, i)
    ensures name in Loaded(policies, list) && Loaded(policies, list)[name] == list[i]
  {
    var n := |list| - 1;
    if i < n {
      assert list[n].name != name;
      LastLoadedCounts(policies, list[..n], name, i);
    }
  }

  /** A name that the list does not carry keeps the policy it had. */
  lemma {:induction false} OthersStayLoaded(policies: map<string, Policy>, list: seq<Policy>, name: string)
    requires forall i :: 0 <= i < |list| ==> list[i].name != name
    ensures name in Loaded(policies, list) <==> name in policies
    ensures name in policies ==> Loaded(policies, list)[name] == policies[name]
  {
    if |list| > 0 {
      OthersStayLoaded(policies, list[..|list| - 1], name);
    }
  }

  lemma {:induction false} KnownAreNamed(policies: map<string, Policy>, names: seq<string>, i: nat)
    requires WellNamed(policies) && i < |Known(policies, names)|
    ensures var p := Known(policies, names)[i]; p.name in names && p.name in policies && policies[p.name] == p
  {
    var first := if names[0] in policies then [policies[names[0]]] else [];
    assert Known(policies, names) == first + Known(policies, names[1..]);
    if i >= |first| {
      KnownAreNamed(policies, names[1..], i - |first|);
    }
  }

  /** The list names a stored policy that grants on its own. */
  ghost predicate NamesAGrant(policies: map<string, Policy>, names: seq<string>, kind: ResourceType,
                              hit: string -> bool, capability: string) {
    exists name :: name != "" && name in names && name in policies
                   && policies[name].name == name && Grants(RulesOf(policies[name], kind), hit, capability)
  }

  /** Access is always due to a policy that the list calls by its name. */
  lemma GrantIsNamed(policies: map<string, Policy>, names: seq<string>, kind: ResourceType, hit: string -> bool,
                     capability: string)
    requires WellNamed(policies) && Grants(Flatten(ListsOf(Known(policies, names), kind)), hit, capability)
    ensures NamesAGrant(policies, names, kind, hit, capability)
  {
    var attached := Known(policies, names);
    GrantedByAPolicy(ListsOf(attached, kind), hit, capability);
    var i :| GrantedBy(ListsOf(attached, kind), hit, capability, i);
    KnownAreNamed(policies, names, i);
    assert Grants(RulesOf(policies[attached[i].name], kind), hit, capability);
  }

  class Evaluator {
    const kvMatches: (string, string) -> bool
    const serviceMatches: (string, string) -> bool
    var policies: map<string, Policy>

    /** Every stored policy is under its own, non-empty name. */
    ghost predicate Valid()
      reads this
    {
      WellNamed(policies)
    }

    /** Which patterns match the resource. */
    function Hit(resource: Resource): string -> bool {
      match resource.kind
      case KV => pattern => kvMatches(pattern, resource.path)
      case Service => pattern => serviceMatches(pattern, resource.path)
      case _ => pattern => true
    }

    constructor (kvMatches: (string, string) -> bool, serviceMatches: (string, string) -> bool)
      ensures Valid() && policies == map[]
      ensures this.kvMatches == kvMatches && this.serviceMatches == serviceMatches
    {
      this.kvMatches, this.serviceMatches := kvMatches, serviceMatches;
      policies := map[];
    }

    method AddPolicy(policy: Policy) returns (error: Option<PolicyError>)
      requires Valid()
      modifies this
      ensures Valid()
      ensures error == if policy.name == "" then Some(InvalidPolicy)
                       else if policy.name in old(policies) then Some(PolicyExists) else None
      ensures policies == if error.None? then old(policies)[policy.name := policy] else old(policies)
    {
      if policy.name == "" {
        return Some(InvalidPolicy);
      }
      if policy.name in policies {
        return Some(PolicyExists);
      }
      policies := policies[policy.name := policy];
      return None;
    }

    method UpdatePolicy(policy: Policy) returns (error: Option<PolicyError>)
      requires Valid()
      modifies this
      ensures Valid() && policies.Keys == old(policies).Keys
      ensures error == if policy.name == "" then Some(InvalidPolicy)
                       else if policy.name !in old(policies) then Some(PolicyNotFound) else None
      ensures policies == if error.None? then old(policies)[policy.name := policy] else old(policies)
    {
      if policy.name == "" {
        return Some(InvalidPolicy);
      }
      if policy.name !in policies {
        return Some(PolicyNotFound);
      }
      policies := policies[policy.name := policy];
      return None;
    }

    method DeletePolicy(name: string) returns (error: Option<PolicyError>)
      requires Valid()
      modifies this
      ensures Valid()
      ensures error == if name in old(policies) then None else Some(PolicyNotFound)
      ensures policies == old(policies) - {name}
    {
      if name !in policies {
        return Some(PolicyNotFound);
      }
      policies := policies - {name};
      return None;
    }

    /** Stops at the first policy without a name; the ones before it stay loaded. */
    method LoadPolicies(list: seq<Policy>) returns (error: Option<PolicyError>, loaded: nat)
      requires Valid()
      modifies this
      ensures Valid()
      ensures loaded <= |list| && forall i :: 0 <= i < loaded ==> list[i].name != ""
      ensures error == if loaded == |list| then None else Some(InvalidPolicy)
      ensures loaded < |list| ==> list[loaded].name == ""
      ensures policies == Loaded(old(policies), list[..loaded])
    {
      loaded := 0;
      while loaded < |list|
        invariant loaded <= |list| && forall i :: 0 <= i < loaded ==> list[i].name != ""
        invariant Valid()
        invariant policies == Loaded(old(policies), list[..loaded])
      {
        if list[loaded].name == "" {
          return Some(InvalidPolicy), loaded;
        }
        assert list[..loaded + 1][..loaded] == list[..loaded];
        policies := policies[list[loaded].name := list[loaded]];
        loaded := loaded + 1;
      }
      error := None;
    }

    method HasCapability(rule: Rule, capability: string) returns (found: bool)
      ensures found <==> capability in rule.capabilities
    {
      for i := 0 to |rule.capabilities|
        invariant capability !in rule.capabilities[..i]
      {
        if rule.capabilities[i] == capability {
          return true;
        }
      }
      return false;
    }

    /** The nested search with its early returns. */
    method EvaluateRules(lists: seq<seq<Rule>>, hit: string -> bool, capability: string) returns (allowed: bool)
      ensures allowed <==> Grants(Flatten(lists), hit, capability)
    {
      GrantedByAPolicy(lists, hit, capability);
      for p := 0 to |lists|
        invariant forall j :: 0 <= j < p ==> !HasDeny(lists[j], hit) && !Grants(lists[j], hit, capability)
      {
        var rules := lists[p];
        for r := 0 to |rules|
          invariant forall j :: 0 <= j < r ==> !Denies(rules[j], hit) && !Allows(rules[j], hit, capability)
        {
          if hit(rules[r].pattern) {
            var denied := HasCapability(rules[r], DENY);
            if denied {
              assert Denies(rules[r], hit) && HasDeny(lists[p], hit);
              return false;
            }
            var granted := HasCapability(rules[r], capability);
            if granted {
              assert GrantedAt(lists[p], hit, capability, r);
              assert GrantedBy(lists, hit, capability, p);
              return true;
            }
          }
        }
      }
      return false;
    }

    lemma VerdictByType(attached: seq<Policy>, resource: Resource, capability: string)
      ensures var granted := Grants(Flatten(ListsOf(attached, resource.kind)), Hit(resource), capability);
              match resource.kind
              case KV => granted <==> Grants(KvRules(attached), MatchedBy(kvMatches, resource.path), capability)
              case Service =>
                granted <==> Grants(ServiceRules(attached), MatchedBy(serviceMatches, resource.path), capability)
              case Health => granted <==> Grants(HealthRules(attached), Always(), capability)
              case Backup => granted <==> Grants(BackupRules(attached), Always(), capability)
              case Admin => granted <==> Grants(AdminRules(attached), Always(), capability)
              case Unknown => !granted
    {
      EachTypeHasItsRules(attached);
      var rules := Flatten(ListsOf(attached, resource.kind));
      match resource.kind {
        case KV => SameHitsSameVerdict(rules, Hit(resource), MatchedBy(kvMatches, resource.path), capability);
        case Service => SameHitsSameVerdict(rules, Hit(resource), MatchedBy(serviceMatches, resource.path), capability);
        case Unknown =>
        case _ => SameHitsSameVerdict(rules, Hit(resource), Always(), capability);
      }
    }

    /** Unknown names are skipped; with no policy left, or an unknown type, the answer is no. */
    method Evaluate(names: seq<string>, resource: Resource, capability: string) returns (allowed: bool)
      requires Valid()
      ensures allowed <==>
              Grants(Flatten(ListsOf(Known(policies, names), resource.kind)), Hit(resource), capability)
      ensures allowed ==> NamesAGrant(policies, names, resource.kind, Hit(resource), capability)
      ensures var attached := Known(policies, names);
              match resource.kind
              case KV => allowed <==> Grants(KvRules(attached), MatchedBy(kvMatches, resource.path), capability)
              case Service =>
                allowed <==> Grants(ServiceRules(attached), MatchedBy(serviceMatches, resource.path), capability)
              case Health => allowed <==> Grants(HealthRules(attached), Always(), capability)
              case Backup => allowed <==> Grants(BackupRules(attached), Always(), capability)
              case Admin => allowed <==> Grants(AdminRules(attached), Always(), capability)
              case Unknown => !allowed
    {
      var attached: seq<Policy> := [];
      VerdictByType(Known(policies, names), resource, capability);
      if |names| == 0 {
        return false;
      }
      for i := 0 to |names|
        invariant attached == Known(policies, names[..i])
      {
        assert names[..i + 1] == names[..i] + [names[i]];
        KnownAppend(policies, names[..i], names[i]);
        if names[i] in policies {
          attached := attached + [policies[names[i]]];
        }
      }
      assert names[..|names|] == names;
      if |attached| == 0 {
        return false;
      }
      if resource.kind == Unknown {
        GrantedByAPolicy(ListsOf(attached, Unknown), Hit(resource), capability);
        return false;
      }
      allowed := EvaluateRules(ListsOf(attached, resource.kind), Hit(resource), capability);
      if allowed {
        GrantIsNamed(policies, names, resource.kind, Hit(resource), capability);
      }
    }
  }
}
