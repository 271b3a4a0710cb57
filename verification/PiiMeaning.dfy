/**
 What the merge of `PiiMerge` preserves: names, application order, and what every reference to a rule
 expands to.
 */
module PiiMeaning {
  import opened Wrappers
  import opened PiiMerge

  // ----- names

  predicate Defines(parts: seq<Part>, i: nat, n: Name) {
    i < |parts| && parts[i].config.Some? && n in parts[i].config.value.rules
  }

  ghost predicate NamedBy(parts: seq<Part>, i: nat, n: Name, k: Name) {
    Defines(parts, i, n) && k == parts[i].prefix + n
  }

  ghost predicate IsMergedKey(parts: seq<Part>, k: Name) {
    exists i: nat, n :: NamedBy(parts, i, n, k)
  }

  /** No prefix starts another one. */
  predicate PrefixFree(parts: seq<Part>) {
    forall i, j :: 0 <= i < |parts| && 0 <= j < |parts| && i != j ==> !(parts[i].prefix <= parts[j].prefix)
  }

  /** The prefixes of `get_pii_config`. */
  lemma OrganizationAndProjectArePrefixFree(org: Option<Config>, project: Option<Config>)
    ensures PrefixFree([Part("organization:", org), Part("project:", project)])
  {
    assert "organization:"[0] != "project:"[0];
  }

  lemma Comparable(p: string, n: Name, q: string, m: Name)
    requires p + n == q + m
    ensures p <= q || q <= p
  {
    if |p| <= |q| {
      assert p == (p + n)[..|p|] == (q + m)[..|p|] == q[..|p|];
    } else {
      assert q == (q + m)[..|q|] == (p + n)[..|q|] == p[..|q|];
    }
  }

  lemma NamesComeFromOnePart(parts: seq<Part>, i: nat, n: Name, j: nat, m: Name)
    requires PrefixFree(parts) && Defines(parts, i, n) && Defines(parts, j, m)
    requires parts[i].prefix + n == parts[j].prefix + m
    ensures i == j && n == m
  {
    var p, q := parts[i].prefix, parts[j].prefix;
    Comparable(p, n, q, m);
    assert n == (p + n)[|p|..] && m == (q + m)[|q|..];
  }

  lemma {:induction false} MergedKeys(parts: seq<Part>, k: Name)
    ensures k in Merged(parts).rules <==> IsMergedKey(parts, k)
  {
    if parts != [] {
      var front, last := parts[..|parts| - 1], parts[|parts| - 1];
      MergedKeys(front, k);
      if IsMergedKey(front, k) {
        var i: nat, n :| NamedBy(front, i, n, k);
        assert NamedBy(parts, i, n, k);
      }
      if last.config.Some? && k in RenamedRules(last.prefix, last.config.value, last.config.value.rules.Keys) {
        var n :| n in last.config.value.rules && k == last.prefix + n;
        assert NamedBy(parts, |parts| - 1, n, k);
      }
      if IsMergedKey(parts, k) {
        var i: nat, n :| NamedBy(parts, i, n, k);
        if i < |parts| - 1 {
          assert NamedBy(front, i, n, k);
        } else {
          assert k in RenamedRules(last.prefix, last.config.value, last.config.value.rules.Keys);
        }
      }
    }
  }

  lemma LastPartIsNew(parts: seq<Part>, k: Name)
    requires parts != [] && PrefixFree(parts) && parts[|parts| - 1].config.Some?
    requires k in Merged(parts[..|parts| - 1]).rules
    ensures var last := parts[|parts| - 1]; k !in RenamedRules(last.prefix, last.config.value, last.config.value.rules.Keys)
  {
    var front, last := parts[..|parts| - 1], parts[|parts| - 1];
    MergedKeys(front, k);
    var i: nat, n :| NamedBy(front, i, n, k);
    assert Defines(parts, i, n);
    forall m | m in last.config.value.rules
      ensures k != last.prefix + m
    {
      if k == last.prefix + m {
        NamesComeFromOnePart(parts, i, n, |parts| - 1, m);
      }
    }
  }

  /** The merged definition of a part's rule is that rule with its references renamed, whatever the
      other parts define. */
  lemma {:induction false} MergedRule(parts: seq<Part>, i: nat, n: Name)
    requires PrefixFree(parts) && Defines(parts, i, n)
    ensures var c := parts[i].config.value; var k := parts[i].prefix + n;
            && k in Merged(parts).rules
            && Merged(parts).rules[k] == PrefixReferences(c.rules.Keys, c.rules[n], parts[i].prefix)
  {
    var front, last := parts[..|parts| - 1], parts[|parts| - 1];
    var k := parts[i].prefix + n;
    if i == |parts| - 1 {
      assert k[|last.prefix|..] == n;
      assert k in RenamedRules(last.prefix, last.config.value, last.config.value.rules.Keys);
    } else {
      MergedRule(front, i, n);
      if last.config.Some? {
        LastPartIsNew(parts, k);
      }
    }
  }

  function RuleCount(parts: seq<Part>): nat {
    if parts == [] then 0
    else
      var last := parts[|parts| - 1];
      RuleCount(parts[..|parts| - 1]) + if last.config.Some? then |last.config.value.rules| else 0
  }

  lemma {:induction false} RenamingKeepsCount(prefix: string, names: set<Name>)
    ensures |set n | n in names :: prefix + n| == |names|
  {
    if names != {} {
      var x :| x in names;
      var rest := names - {x};
      RenamingKeepsCount(prefix, rest);
      forall y | y in rest
        ensures prefix + y != prefix + x
      {
        assert (prefix + y)[|prefix|..] == y && (prefix + x)[|prefix|..] == x;
      }
      assert (set n | n in names :: prefix + n) == (set n | n in rest :: prefix + n) + {prefix + x};
    }
  }

  lemma SumSize<V>(a: map<Name, V>, b: map<Name, V>)
    requires a.Keys !! b.Keys
    ensures |a + b| == |a| + |b|
  {
    assert (a + b).Keys == a.Keys + b.Keys;
    assert |a + b| == |(a + b).Keys| && |a| == |a.Keys| && |b| == |b.Keys|;
  }

  lemma {:induction false} MergedCount(parts: seq<Part>)
    requires PrefixFree(parts)
    ensures |Merged(parts).rules| == RuleCount(parts)
  {
    if parts != [] {
      var front, last := parts[..|parts| - 1], parts[|parts| - 1];
      MergedCount(front);
      if last.config.Some? {
        var c := last.config.value;
        var renamed := RenamedRules(last.prefix, c, c.rules.Keys);
        RenamingKeepsCount(last.prefix, c.rules.Keys);
        assert renamed.Keys == set n | n in c.rules.Keys :: last.prefix + n;
        forall k | k in Merged(front).rules
          ensures k !in renamed
        {
          LastPartIsNew(parts, k);
        }
        SumSize(Merged(front).rules, renamed);
        assert |renamed| == |renamed.Keys| && |c.rules| == |c.rules.Keys|;
      }
    }
  }

  /** No rule is lost and no two are confused: merged keys are exactly the renamed names, and there are
      as many of them as rules in all parts together. */
  lemma MergeIsBijective(parts: seq<Part>)
    requires PrefixFree(parts)
    ensures forall k :: k in Merged(parts).rules <==> IsMergedKey(parts, k)
    ensures |Merged(parts).rules| == RuleCount(parts)
  {
    forall k
      ensures k in Merged(parts).rules <==> IsMergedKey(parts, k)
    {
      MergedKeys(parts, k);
    }
    MergedCount(parts);
  }

  // ----- applications

  function AllApplications(parts: seq<Part>, s: Selector): seq<Name> {
    if parts == [] then []
    else
      var last := parts[|parts| - 1];
      AllApplications(parts[..|parts| - 1], s) +
      (match last.config
       case Some(c) => if s in c.applications then RenameAll(c.rules.Keys, last.prefix, c.applications[s]) else []
       case None => [])
  }

  /** Each selector keeps every part's list, renamed, in the order of the parts. */
  lemma {:induction false} MergedApplications(parts: seq<Part>, s: Selector)
    ensures s in Merged(parts).applications <==>
            exists i :: 0 <= i < |parts| && parts[i].config.Some? && s in parts[i].config.value.applications
    ensures s in Merged(parts).applications ==> Merged(parts).applications[s] == AllApplications(parts, s)
    ensures s !in Merged(parts).applications ==> AllApplications(parts, s) == []
  {
    if parts != [] {
      var front, last := parts[..|parts| - 1], parts[|parts| - 1];
      MergedApplications(front, s);
      assert forall i :: 0 <= i < |front| ==> front[i] == parts[i];
      assert forall x: seq<Name> :: [] + x == x;
    }
  }

  lemma FirstPartAppliesFirst(first: Part, second: Part, s: Selector)
    requires first.config.Some? && s in first.config.value.applications
    requires second.config.Some? && s in second.config.value.applications
    ensures var merged := Merged([first, second]);
            && s in merged.applications
            && merged.applications[s] ==
               RenameAll(first.config.value.rules.Keys, first.prefix, first.config.value.applications[s]) +
               RenameAll(second.config.value.rules.Keys, second.prefix, second.config.value.applications[s])
  {
    MergedApplications([first, second], s);
    assert [first, second][..1] == [first] && [first][..0] == [];
    var list := RenameAll(first.config.value.rules.Keys, first.prefix, first.config.value.applications[s]);
    assert AllApplications([first], s) == AllApplications([], s) + list == list;
  }

  /** In the merge Sentry performs, the organization's applications come first. */
  lemma OrganizationAppliesFirst(org: Config, project: Config, s: Selector)
    requires s in org.applications && s in project.applications
    ensures var merged := Merged([Part("organization:", Some(org)), Part("project:", Some(project))]);
            && s in merged.applications
            && merged.applications[s] == RenameAll(org.rules.Keys, "organization:", org.applications[s]) +
                                         RenameAll(project.rules.Keys, "project:", project.applications[s])
  {
    FirstPartAppliesFirst(Part("organization:", Some(org)), Part("project:", Some(project)), s);
  }

  // ----- meaning

  datatype Form = ListOfRules | SingleRule | NoReferences

  /** What a reference stands for, unfolded to some depth: names of custom rules are gone, everything
      else a definition says is kept. */
  datatype Meaning =
    | Cut
    | BuiltIn(name: Name)
    | Defined(form: Form, shape: Rule, members: seq<Meaning>)

  function FormOf(r: Rule): Form {
    if r.Custom? && r.kind == "multiple" && r.rules != [] then ListOfRules
    else if r.Custom? && r.kind == "multiple" && r.rule != "" then SingleRule
    else NoReferences
  }

  function References(r: Rule): seq<Name> {
    match FormOf(r)
    case ListOfRules => r.rules
    case SingleRule => [r.rule]
    case NoReferences => []
  }

  function Shape(r: Rule): Rule {
    match FormOf(r)
    case ListOfRules => r.(rules := [])
    case SingleRule => r.(rule := "")
    case NoReferences => r
  }

  function Expand(rules: map<Name, Rule>, n: Name, depth: nat): Meaning
    decreases depth
  {
    if n !in rules then BuiltIn(n)
    else if depth == 0 then Cut
    else
      var refs := References(rules[n]);
      Defined(FormOf(rules[n]), Shape(rules[n]),
              seq(|refs|, i requires 0 <= i < |refs| => Expand(rules, refs[i], depth - 1)))
  }

  /** Renaming touches a definition's references and nothing else. */
  lemma RenamingKeepsShape(custom: set<Name>, r: Rule, prefix: string)
    ensures var q := PrefixReferences(custom, r, prefix);
            && FormOf(q) == FormOf(r) && Shape(q) == Shape(r)
            && References(q) == RenameAll(custom, prefix, References(r))
  {
    if FormOf(r) == SingleRule && r.rule in custom {
      assert |prefix + r.rule| >= |r.rule| > 0;
    }
  }

  /** No reference of part `i` that is unresolved at home happens to be a merged key. */
  ghost predicate NothingCaptured(parts: seq<Part>, i: nat)
    requires i < |parts| && parts[i].config.Some?
  {
    var rules := parts[i].config.value.rules;
    forall n, x :: n in rules && x in References(rules[n]) && x !in rules ==> !IsMergedKey(parts, x)
  }

  /** `merged` holds every rule of `home`, renamed and with its references renamed. */
  predicate Carries(merged: map<Name, Rule>, home: map<Name, Rule>, prefix: string) {
    forall n :: n in home ==> prefix + n in merged && merged[prefix + n] == PrefixReferences(home.Keys, home[n], prefix)
  }

  lemma SameUnfolding(a: map<Name, Rule>, m: Name, b: map<Name, Rule>, n: Name, depth: nat)
    requires m in a && n in b && depth > 0
    requires FormOf(a[m]) == FormOf(b[n]) && Shape(a[m]) == Shape(b[n])
    requires |References(a[m])| == |References(b[n])|
    requires forall k :: 0 <= k < |References(b[n])| ==>
               Expand(a, References(a[m])[k], depth - 1) == Expand(b, References(b[n])[k], depth - 1)
    ensures Expand(a, m, depth) == Expand(b, n, depth)
  {}

  predicate Uncaptured(merged: map<Name, Rule>, home: map<Name, Rule>) {
    forall m, k :: m in home && 0 <= k < |References(home[m])| ==>
      References(home[m])[k] in home || References(home[m])[k] !in merged
  }

  lemma CarriedReferences(merged: map<Name, Rule>, home: map<Name, Rule>, prefix: string, n: Name)
    requires Carries(merged, home, prefix) && n in home && Uncaptured(merged, home)
    ensures prefix + n in merged
    ensures var q, r := merged[prefix + n], home[n];
            && FormOf(q) == FormOf(r) && Shape(q) == Shape(r)
            && |References(q)| == |References(r)|
            && forall k :: 0 <= k < |References(r)| ==>
                 References(q)[k] == Rename(home.Keys, prefix, References(r)[k]) &&
                 (References(r)[k] in home || References(r)[k] !in merged)
  {
    RenamingKeepsShape(home.Keys, home[n], prefix);
  }

  lemma {:induction false} ExpansionsAgree(merged: map<Name, Rule>, home: map<Name, Rule>, prefix: string, x: Name, depth: nat)
    requires Carries(merged, home, prefix) && Uncaptured(merged, home)
    requires x in home || x !in merged
    ensures Expand(merged, Rename(home.Keys, prefix, x), depth) == Expand(home, x, depth)
    decreases depth
  {
    if x in home && depth > 0 {
      CarriedReferences(merged, home, prefix, x);
      var refs, refs' := References(home[x]), References(merged[prefix + x]);
      forall k | 0 <= k < |refs|
        ensures Expand(merged, refs'[k], depth - 1) == Expand(home, refs[k], depth - 1)
      {
        ExpansionsAgree(merged, home, prefix, refs[k], depth - 1);
      }
      SameUnfolding(merged, prefix + x, home, x, depth);
    }
  }

  lemma MeaningIsPreserved(parts: seq<Part>, i: nat, n: Name, depth: nat)
    requires PrefixFree(parts) && Defines(parts, i, n) && NothingCaptured(parts, i)
    ensures Expand(Merged(parts).rules, parts[i].prefix + n, depth) == Expand(parts[i].config.value.rules, n, depth)
  {
    var home, prefix := parts[i].config.value.rules, parts[i].prefix;
    forall m | m in home
      ensures prefix + m in Merged(parts).rules
      ensures Merged(parts).rules[prefix + m] == PrefixReferences(home.Keys, home[m], prefix)
    {
      MergedRule(parts, i, m);
    }
    MergeIsBijective(parts);
    ExpansionsAgree(Merged(parts).rules, home, prefix, n, depth);
  }

  lemma CaptureChangesMeaning(parts: seq<Part>, i: nat, n: Name, x: Name)
    requires PrefixFree(parts) && Defines(parts, i, n)
    requires x in References(parts[i].config.value.rules[n]) && x !in parts[i].config.value.rules && IsMergedKey(parts, x)
    ensures Expand(Merged(parts).rules, parts[i].prefix + n, 1) != Expand(parts[i].config.value.rules, n, 1)
  {
    var home, prefix, merged := parts[i].config.value.rules, parts[i].prefix, Merged(parts).rules;
    MergedRule(parts, i, n);
    MergedKeys(parts, x);
    RenamingKeepsShape(home.Keys, home[n], prefix);
    var refs := References(home[n]);
    var k :| 0 <= k < |refs| && refs[k] == x;
    assert Expand(home, n, 1).members[k] == BuiltIn(x);
    assert Expand(merged, prefix + n, 1).members[k] == Cut;
  }

  /** The merge preserves what a part's rules expand to, at every depth and through any cycle, exactly
      when none of their unresolved references is a merged key. */
  lemma MergePreservesMeaning(parts: seq<Part>, i: nat)
    requires PrefixFree(parts) && i < |parts| && parts[i].config.Some?
    ensures (forall n, depth: nat :: n in parts[i].config.value.rules ==>
               Expand(Merged(parts).rules, parts[i].prefix + n, depth) == Expand(parts[i].config.value.rules, n, depth))
            <==> NothingCaptured(parts, i)
  {
    var home := parts[i].config.value.rules;
    if NothingCaptured(parts, i) {
      forall n, depth: nat | n in home
        ensures Expand(Merged(parts).rules, parts[i].prefix + n, depth) == Expand(home, n, depth)
      {
        MeaningIsPreserved(parts, i, n, depth);
      }
    } else {
      var n, x :| n in home && x in References(home[n]) && x !in home && IsMergedKey(parts, x);
      CaptureChangesMeaning(parts, i, n, x);
    }
  }

  /** The same for what a selector applies: entry `k` of part `i`'s list keeps its meaning exactly when
      it is a custom rule there or no merged key. */
  lemma ApplicationKeepsMeaning(parts: seq<Part>, i: nat, x: Name)
    requires PrefixFree(parts) && i < |parts| && parts[i].config.Some? && NothingCaptured(parts, i)
    ensures var home := parts[i].config.value.rules;
            (forall depth: nat :: Expand(Merged(parts).rules, Rename(home.Keys, parts[i].prefix, x), depth) == Expand(home, x, depth))
            <==> (x in home || !IsMergedKey(parts, x))
  {
    var home := parts[i].config.value.rules;
    MergedKeys(parts, x);
    if x in home {
      forall depth: nat
        ensures Expand(Merged(parts).rules, parts[i].prefix + x, depth) == Expand(home, x, depth)
      {
        MeaningIsPreserved(parts, i, x, depth);
      }
    } else if IsMergedKey(parts, x) {
      assert Expand(Merged(parts).rules, x, 0) == Cut && Expand(home, x, 0) == BuiltIn(x);
    }
  }

  /** Relay's built-in rules start with '@', the merge's prefixes do not: configs that refer only to
      their own rules and to built-in ones are never captured. */
  lemma BuiltInsAreNeverCaptured(org: Option<Config>, project: Option<Config>, i: nat)
    requires i < 2
    requires var parts := [Part("organization:", org), Part("project:", project)];
             && parts[i].config.Some?
             && var rules := parts[i].config.value.rules;
             forall n, x :: n in rules && x in References(rules[n]) && x !in rules ==> "@" <= x
    ensures NothingCaptured([Part("organization:", org), Part("project:", project)], i)
  {
    var parts := [Part("organization:", org), Part("project:", project)];
    forall x | IsMergedKey(parts, x)
      ensures !("@" <= x)
    {
      var j: nat, m :| NamedBy(parts, j, m, x);
      assert x[0] == (parts[j].prefix + m)[0] == parts[j].prefix[0];
    }
  }

  /** A concrete capture: the organization's rule names the (to it unknown) rule "project:ip", and after
      the merge the project's rule "ip" answers. */
  lemma CaptureExample()
    ensures var org := Config(map["a" := Custom("multiple", ["project:ip"], "", "")], map[]);
            var project := Config(map["ip" := Custom("ip", [], "", "")], map[]);
            var parts := [Part("organization:", Some(org)), Part("project:", Some(project))];
            Expand(Merged(parts).rules, "organization:a", 1) != Expand(org.rules, "a", 1)
  {
    var org := Config(map["a" := Custom("multiple", ["project:ip"], "", "")], map[]);
    var project := Config(map["ip" := Custom("ip", [], "", "")], map[]);
    var parts := [Part("organization:", Some(org)), Part("project:", Some(project))];
    OrganizationAndProjectArePrefixFree(Some(org), Some(project));
    assert NamedBy(parts, 1, "ip", "project:ip");
    assert "project:ip" in References(org.rules["a"]);
    CaptureChangesMeaning(parts, 0, "a", "project:ip");
    assert "organization:" + "a" == "organization:a";
  }
}
