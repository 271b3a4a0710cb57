/**
 Merging the organization's and the project's PII configs into one.  The merge is a small linker: it
 renames every custom rule and every reference to one, and must not change what any reference means.

 Python's dictionaries are maps here; `items()` loops visit the keys in an arbitrary order, and an
 absent or falsy "rules", "rule" or "applications" entry is the empty value.
 */
module PiiMerge {
  import opened Wrappers

  type Name = string
  type Selector = string

  /** A rule definition: either not a dictionary at all, or one with a type, the two kinds of reference
      lists the code looks at, and everything else. */
  datatype Rule = Raw(value: string) | Custom(kind: string, rules: seq<Name>, rule: Name, body: string)

  datatype Config = Config(rules: map<Name, Rule>, applications: map<Selector, seq<Name>>)

  datatype Part = Part(prefix: string, config: Option<Config>)

  // ----- renaming

  function Rename(custom: set<Name>, prefix: string, x: Name): Name {
    if x in custom then prefix + x else x
  }

  function RenameAll(custom: set<Name>, prefix: string, xs: seq<Name>): (r: seq<Name>)
    ensures |r| == |xs| && forall i :: 0 <= i < |xs| ==> r[i] == Rename(custom, prefix, xs[i])
  {
    seq(|xs|, i requires 0 <= i < |xs| => Rename(custom, prefix, xs[i]))
  }

  /** `_prefix_rule_references_in_rule` */
  function PrefixReferences(custom: set<Name>, r: Rule, prefix: string): Rule {
    if r.Raw? then r
    else if r.kind == "multiple" && r.rules != [] then r.(rules := RenameAll(custom, prefix, r.rules))
    else if r.kind == "multiple" && r.rule != "" && r.rule in custom then r.(rule := prefix + r.rule)
    else r
  }

  // ----- the merge, part by part

  /** The rules of one part under their new names, for the given subset of them. */
  function RenamedRules(prefix: string, config: Config, names: set<Name>): map<Name, Rule>
    requires names <= config.rules.Keys
  {
    map k | k in set n | n in names :: prefix + n :: PrefixReferences(config.rules.Keys, config.rules[k[|prefix|..]], prefix)
  }

  lemma PeelRule(prefix: string, config: Config, names: set<Name>, name: Name)
    requires names <= config.rules.Keys && name in config.rules
    ensures RenamedRules(prefix, config, names + {name}) ==
            RenamedRules(prefix, config, names)[prefix + name := PrefixReferences(config.rules.Keys, config.rules[name], prefix)]
  {
    assert (prefix + name)[|prefix|..] == name;
  }

  lemma UpdateSum<V>(a: map<Name, V>, b: map<Name, V>, k: Name, v: V)
    ensures (a + b)[k := v] == a + b[k := v]
  {}

  lemma AddOneRule(before: map<Name, Rule>, prefix: string, config: Config, names: set<Name>, name: Name)
    requires names <= config.rules.Keys && name in config.rules
    ensures (before + RenamedRules(prefix, config, names))[prefix + name := PrefixReferences(config.rules.Keys, config.rules[name], prefix)] ==
            before + RenamedRules(prefix, config, names + {name})
  {
    PeelRule(prefix, config, names, name);
    UpdateSum(before, RenamedRules(prefix, config, names), prefix + name, PrefixReferences(config.rules.Keys, config.rules[name], prefix));
  }

  function AddApplications(acc: map<Selector, seq<Name>>, prefix: string, config: Config, selectors: set<Selector>)
    : map<Selector, seq<Name>>
    requires selectors <= config.applications.Keys
  {
    map s | s in acc.Keys + selectors ::
      (if s in acc then acc[s] else []) +
      (if s in selectors then RenameAll(config.rules.Keys, prefix, config.applications[s]) else [])
  }

  lemma PeelSelector(acc: map<Selector, seq<Name>>, prefix: string, config: Config, selectors: set<Selector>, s: Selector)
    requires selectors <= config.applications.Keys && s in config.applications && s !in selectors
    ensures var m := AddApplications(acc, prefix, config, selectors);
            AddApplications(acc, prefix, config, selectors + {s}) ==
            m[s := (if s in m then m[s] else []) + RenameAll(config.rules.Keys, prefix, config.applications[s])]
  {
    var m := AddApplications(acc, prefix, config, selectors);
    var n := AddApplications(acc, prefix, config, selectors + {s});
    assert s in m ==> m[s] == acc[s] + [] == acc[s];
    forall x | x in n && x != s
      ensures x in m && n[x] == m[x]
    {}
  }

  lemma AddNoApplications(acc: map<Selector, seq<Name>>, prefix: string, config: Config)
    ensures AddApplications(acc, prefix, config, {}) == acc
  {
    assert forall s :: s in acc ==> acc[s] + [] == acc[s];
  }

  function Merged(parts: seq<Part>): Config {
    if parts == [] then Config(map[], map[])
    else
      var acc, last := Merged(parts[..|parts| - 1]), parts[|parts| - 1];
      match last.config
      case None => acc
      case Some(c) => Config(acc.rules + RenamedRules(last.prefix, c, c.rules.Keys),
                             AddApplications(acc.applications, last.prefix, c, c.applications.Keys))
  }

  // ----- the code

  /** The loop of `_merge_pii_configs` over one part's rules. */
  method AddRules(before: map<Name, Rule>, prefix: string, config: Config) returns (rules: map<Name, Rule>)
    ensures rules == before + RenamedRules(prefix, config, config.rules.Keys)
  {
    rules := before;
    var names := config.rules.Keys;
    ghost var done: set<Name> := {};
    assert RenamedRules(prefix, config, done) == map[];
    while names != {}
      invariant names + done == config.rules.Keys
      invariant rules == before + RenamedRules(prefix, config, done)
      decreases names
    {
      var name :| name in names;
      AddOneRule(before, prefix, config, done, name);
      rules := rules[prefix + name := PrefixReferences(config.rules.Keys, config.rules[name], prefix)];
      names, done := names - {name}, done + {name};
    }
    assert done == config.rules.Keys;
  }

  /** Its innermost loop: one selector's applications, appended in order. */
  method AppendApplications(had: seq<Name>, custom: set<Name>, prefix: string, applications: seq<Name>)
    returns (list: seq<Name>)
    ensures list == had + RenameAll(custom, prefix, applications)
  {
    list := had;
    for j := 0 to |applications|
      invariant list == had + RenameAll(custom, prefix, applications[..j])
    {
      if applications[j] in custom {
        list := list + [prefix + applications[j]];
      } else {
        list := list + [applications[j]];
      }
    }
    assert applications[..|applications|] == applications;
  }

  /** The loop over one part's selectors. */
  method AddAllApplications(before: map<Selector, seq<Name>>, prefix: string, config: Config)
    returns (applications: map<Selector, seq<Name>>)
    ensures applications == AddApplications(before, prefix, config, config.applications.Keys)
  {
    applications := before;
    var selectors := config.applications.Keys;
    ghost var done: set<Selector> := {};
    AddNoApplications(before, prefix, config);
    while selectors != {}
      invariant selectors !! done && selectors + done == config.applications.Keys
      invariant applications == AddApplications(before, prefix, config, done)
      decreases selectors
    {
      var selector :| selector in selectors;
      var list := if selector in applications then applications[selector] else [];
      list := AppendApplications(list, config.rules.Keys, prefix, config.applications[selector]);
      PeelSelector(before, prefix, config, done, selector);
      applications := applications[selector := list];
      selectors, done := selectors - {selector}, done + {selector};
    }
    assert done == config.applications.Keys;
  }

  /** `_merge_pii_configs` */
  method MergePiiConfigs(parts: seq<Part>) returns (merged: Config)
    ensures merged == Merged(parts)
  {
    merged := Config(map[], map[]);
    for i := 0 to |parts|
      invariant merged == Merged(parts[..i])
    {
      assert parts[..i + 1][..i] == parts[..i];
      if parts[i].config.Some? {
        var config := parts[i].config.value;
        var rules := AddRules(merged.rules, parts[i].prefix, config);
        var applications := AddAllApplications(merged.applications, parts[i].prefix, config);
        merged := Config(rules, applications);
      }
    }
    assert parts[..|parts|] == parts;
  }
}
