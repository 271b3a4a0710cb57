/**
 The import-tree printer: a depth-first search over the recorded imports, which may be cyclic.  A
 module is expanded the first time it is met; every later meeting prints how often it was met before.

 Besides the counts, the shape of the printout is proved: it is a forest whose roots are the import
 order and in which every expanded module is followed by its imports, sorted and indented by one.
 */
module ImportTree {
  type Name = string
  type Graph = map<Name, set<Name>>

  datatype Line = Opened(depth: nat, name: Name) | Repeated(depth: nat, name: Name, count: nat)

  function Deps(g: Graph, n: Name): set<Name> {
    if n in g then g[n] else {}
  }

  // ----- sorting

  /** Python's order of strings. */
  predicate Less(a: Name, b: Name) {
    b != "" && (a == "" || a[0] < b[0] || (a[0] == b[0] && Less(a[1..], b[1..])))
  }

  lemma {:induction false} LessIsTotal(a: Name, b: Name)
    ensures !Less(a, a)
    ensures a == b || Less(a, b) || Less(b, a)
  {
    if a != "" {
      LessIsTotal(a[1..], if b == "" then b else b[1..]);
      assert b != "" && a[0] == b[0] && a[1..] == b[1..] ==> a == [a[0]] + a[1..] == [b[0]] + b[1..] == b;
    }
  }

  lemma {:induction false} LessIsTransitive(a: Name, b: Name, c: Name)
    requires Less(a, b) && Less(b, c)
    ensures Less(a, c)
  {
    if a != "" && a[0] == b[0] == c[0] {
      LessIsTransitive(a[1..], b[1..], c[1..]);
    }
  }

  /** One string is before another where they first differ, or where it ends. */
  predicate DiffersAt(a: Name, b: Name, k: nat) {
    && k <= |a| && k < |b| && a[..k] == b[..k]
    && (k == |a| || a[k] < b[k])
  }

  lemma {:induction false} LessExactlyWhen(a: Name, b: Name)
    ensures Less(a, b) <==> exists k: nat :: DiffersAt(a, b, k)
  {
    if a == "" || b == "" || a[0] != b[0] {
      assert b != "" && (a == "" || a[0] < b[0]) ==> DiffersAt(a, b, 0);
      forall k: nat | 0 < k <= |a| && k < |b|
        ensures a[..k] != b[..k]
      {
        assert a[..k][0] != b[..k][0];
      }
    } else {
      LessExactlyWhen(a[1..], b[1..]);
      if k: nat :| DiffersAt(a, b, k) {
        assert k > 0 ==> DiffersAt(a[1..], b[1..], k - 1) by {
          assert k > 0 ==> a[..k][1..] == a[1..][..k - 1] && b[..k][1..] == b[1..][..k - 1];
        }
      }
      if k: nat :| DiffersAt(a[1..], b[1..], k) {
        assert a[..k + 1] == [a[0]] + a[1..][..k] && b[..k + 1] == [b[0]] + b[1..][..k];
        assert DiffersAt(a, b, k + 1);
      }
    }
  }

  predicate Ascending(ns: seq<Name>) {
    forall i, j :: 0 <= i < j < |ns| ==> Less(ns[i], ns[j])
  }

  function Elements(ns: seq<Name>): set<Name> {
    set n | n in ns
  }

  /** `ns` is `s`, sorted. */
  predicate Lists(ns: seq<Name>, s: set<Name>) {
    Ascending(ns) && Elements(ns) == s
  }

  function Insert(x: Name, ns: seq<Name>): (r: seq<Name>)
    requires x !in ns && Ascending(ns)
    ensures Ascending(r) && forall n :: n in r <==> n == x || n in ns
  {
    LessIsTotal(x, if ns == [] then x else ns[0]);
    if ns == [] then [x]
    else if Less(x, ns[0]) then
      assert forall j :: 0 < j < |ns| ==> Less(x, ns[j]) by {
        forall j | 0 < j < |ns|
          ensures Less(x, ns[j])
        {
          LessIsTransitive(x, ns[0], ns[j]);
        }
      }
      [x] + ns
    else
      assert forall n :: n in ns <==> n == ns[0] || n in ns[1..];
      assert forall n :: n in ns[1..] ==> Less(ns[0], n);
      var rest := Insert(x, ns[1..]);
      assert forall j :: 0 <= j < |rest| ==> rest[j] in rest;
      [ns[0]] + rest
  }

  /** `sorted` on a set. */
  method Sorted(s: set<Name>) returns (ns: seq<Name>)
    ensures Lists(ns, s)
  {
    ns := [];
    var rest := s;
    assert s - rest == {};
    while rest != {}
      invariant rest <= s && Lists(ns, s - rest)
      decreases rest
    {
      var x :| x in rest;
      assert x !in Elements(ns);
      var longer := Insert(x, ns);
      assert Elements(longer) == Elements(ns) + {x} == s - (rest - {x});
      ns := longer;
      rest := rest - {x};
    }
  }

  // ----- counting

  function Count(seen: map<Name, nat>, n: Name): nat {
    if n in seen then seen[n] else 0
  }

  /** The members of `s` that depend on `n`. */
  function Importers(g: Graph, s: set<Name>, n: Name): set<Name> {
    set m | m in s && n in Deps(g, m)
  }

  function Bit(b: bool): nat {
    if b then 1 else 0
  }

  function LinesOf(out: seq<Line>, n: Name): nat {
    if out == [] then 0 else LinesOf(out[..|out| - 1], n) + Bit(out[|out| - 1].name == n)
  }

  function Occurrences(order: seq<Name>, n: Name): nat {
    if order == [] then 0 else Occurrences(order[..|order| - 1], n) + Bit(order[|order| - 1] == n)
  }

  function ImporterCount(g: Graph, s: set<Name>, n: Name): nat {
    |Importers(g, s, n)|
  }

  lemma ImportersOfNone(g: Graph, n: Name)
    ensures ImporterCount(g, {}, n) == 0
  {
    assert Importers(g, {}, n) == {};
  }

  lemma ImportersOfUnion(g: Graph, a: set<Name>, b: set<Name>, n: Name)
    requires a !! b
    ensures ImporterCount(g, a + b, n) == ImporterCount(g, a, n) + ImporterCount(g, b, n)
  {
    assert Importers(g, a + b, n) == Importers(g, a, n) + Importers(g, b, n);
  }

  lemma ImportersOfOne(g: Graph, m: Name, n: Name)
    ensures ImporterCount(g, {m}, n) == Bit(n in Deps(g, m))
  {
    assert Importers(g, {m}, n) == if n in Deps(g, m) then {m} else {};
  }

  // ----- reachability

  ghost predicate IsPath(g: Graph, p: seq<Name>) {
    p != [] && forall i :: 0 <= i < |p| - 1 ==> p[i + 1] in Deps(g, p[i])
  }

  ghost predicate Reaches(g: Graph, a: Name, b: Name) {
    exists p :: IsPath(g, p) && p[0] == a && p[|p| - 1] == b
  }

  ghost predicate ReachableFrom(g: Graph, roots: seq<Name>, n: Name) {
    exists r :: r in roots && Reaches(g, r, n)
  }

  lemma ReachesSelf(g: Graph, a: Name)
    ensures Reaches(g, a, a)
  {
    assert IsPath(g, [a]);
  }

  lemma ReachesThrough(g: Graph, a: Name, b: Name, c: Name)
    requires b in Deps(g, a) && Reaches(g, b, c)
    ensures Reaches(g, a, c)
  {
    var p :| IsPath(g, p) && p[0] == b && p[|p| - 1] == c;
    assert IsPath(g, [a] + p);
  }

  /** A set that is closed under imports contains everything its members reach. */
  lemma ClosedContains(g: Graph, s: set<Name>, a: Name, b: Name)
    requires a in s && Reaches(g, a, b)
    requires forall m :: m in s ==> Deps(g, m) <= s
    ensures b in s
  {
    var p :| IsPath(g, p) && p[0] == a && p[|p| - 1] == b;
    var i := 0;
    while i < |p| - 1
      invariant 0 <= i < |p| && p[i] in s
    {
      i := i + 1;
    }
  }

  // ----- the printer

  predicate TruthfulAfter(out: seq<Line>, line: Line) {
    match line
    case Opened(_, n) => LinesOf(out, n) == 0
    case Repeated(_, n, c) => c > 0 && c == LinesOf(out, n)
  }

  /** Each printed line tells the truth about the lines before it. */
  ghost predicate Faithful(out: seq<Line>) {
    forall k :: 0 <= k < |out| ==> TruthfulAfter(out[..k], out[k])
  }

  lemma FaithfulExtends(out: seq<Line>, line: Line)
    requires Faithful(out) && TruthfulAfter(out, line)
    ensures Faithful(out + [line])
    ensures forall n {:trigger LinesOf(out + [line], n)} :: LinesOf(out + [line], n) == LinesOf(out, n) + Bit(line.name == n)
  {
    var longer := out + [line];
    assert longer[..|out|] == out;
    forall k | 0 <= k < |out|
      ensures longer[..k] == out[..k] && longer[k] == out[k]
    {}
  }

  /** The counters say how many lines each module has. */
  ghost predicate Agrees(seen: map<Name, nat>, out: seq<Line>) {
    && Faithful(out)
    && (forall n {:trigger LinesOf(out, n)} :: LinesOf(out, n) == Count(seen, n))
    && (forall n :: n in seen ==> seen[n] > 0)
  }

  lemma AgreesExtends(seen: map<Name, nat>, out: seq<Line>, line: Line)
    requires Agrees(seen, out)
    requires if line.Opened? then line.name !in seen else line.name in seen && line.count == seen[line.name]
    ensures Agrees(seen[line.name := Count(seen, line.name) + 1], out + [line])
  {
    assert LinesOf(out, line.name) == Count(seen, line.name);
    FaithfulExtends(out, line);
    forall n
      ensures LinesOf(out + [line], n) == Count(seen[line.name := Count(seen, line.name) + 1], n)
    {
      assert LinesOf(out, n) == Count(seen, n);
    }
  }

  /** What visiting `name` adds to `before`: everything newly expanded is reachable from it and fully
      expanded, and every node gains one visit per newly expanded importer, `name` one more. */
  ghost predicate Visited(g: Graph, before: map<Name, nat>, after: map<Name, nat>, name: Name) {
    var added := after.Keys - before.Keys;
    && before.Keys <= after.Keys
    && name in after
    && (forall m :: m in added ==> Deps(g, m) <= after.Keys && Reaches(g, name, m))
    && (forall n {:trigger Count(after, n)} :: Count(after, n) == Count(before, n) + Bit(n == name) + ImporterCount(g, added, n))
  }

  /** Halfway through expanding `name`: the children in `visited` are done. */
  ghost predicate Expanding(g: Graph, before: map<Name, nat>, now: map<Name, nat>, name: Name, visited: set<Name>) {
    var added := now.Keys - before.Keys - {name};
    && before.Keys + {name} <= now.Keys
    && visited <= now.Keys
    && (forall m :: m in added ==> Deps(g, m) <= now.Keys && Reaches(g, name, m))
    && (forall n {:trigger Count(now, n)} :: Count(now, n) == Count(before, n) + Bit(n == name) + Bit(n in visited) + ImporterCount(g, added, n))
  }

  lemma OneMoreChild(g: Graph, before: map<Name, nat>, now: map<Name, nat>, after: map<Name, nat>, name: Name,
                     visited: set<Name>, child: Name)
    requires name !in before && child !in visited && child in Deps(g, name)
    requires Expanding(g, before, now, name, visited) && Visited(g, now, after, child)
    ensures Expanding(g, before, after, name, visited + {child})
  {
    var a, b := now.Keys - before.Keys - {name}, after.Keys - now.Keys;
    var added := after.Keys - before.Keys - {name};
    assert added == a + b;
    forall n
      ensures Count(after, n) == Count(before, n) + Bit(n == name) + Bit(n in visited + {child}) + ImporterCount(g, added, n)
    {
      ImportersOfUnion(g, a, b, n);
    }
    forall m | m in added
      ensures Deps(g, m) <= after.Keys && Reaches(g, name, m)
    {
      if m in b {
        ReachesThrough(g, name, child, m);
      }
    }
  }

  lemma AllChildrenDone(g: Graph, before: map<Name, nat>, after: map<Name, nat>, name: Name)
    requires name !in before && Expanding(g, before, after, name, Deps(g, name))
    ensures Visited(g, before, after, name)
  {
    var a := after.Keys - before.Keys - {name};
    assert after.Keys - before.Keys == a + {name};
    forall n
      ensures Count(after, n) == Count(before, n) + Bit(n == name) + ImporterCount(g, a + {name}, n)
    {
      ImportersOfUnion(g, a, {name}, n);
      ImportersOfOne(g, name, n);
    }
    ReachesSelf(g, name);
  }

  // ----- the shape of the printout

  datatype Tree = Repeat(name: Name, count: nat) | Expanded(name: Name, children: Forest)

  /** A list of trees, last one outermost. */
  datatype Forest = Nothing | Then(front: Forest, last: Tree)

  /** `out` with a tree, or a list of trees, printed after it. */
  function Printed(out: seq<Line>, t: Tree, depth: nat): seq<Line>
    decreases t, 0
  {
    match t
    case Repeat(name, count) => out + [Repeated(depth, name, count)]
    case Expanded(name, children) => AllPrinted(out + [Opened(depth, name)], children, depth + 1)
  }

  function AllPrinted(out: seq<Line>, f: Forest, depth: nat): seq<Line>
    decreases f, 0
  {
    match f
    case Nothing => out
    case Then(front, last) => Printed(AllPrinted(out, front, depth), last, depth)
  }

  function Roots(f: Forest): seq<Name> {
    match f
    case Nothing => []
    case Then(front, last) => Roots(front) + [last.name]
  }

  /** Every expanded module is followed by its imports, sorted. */
  ghost predicate Follows(g: Graph, t: Tree) {
    t.Expanded? ==> Lists(Roots(t.children), Deps(g, t.name)) && AllFollow(g, t.children)
  }

  ghost predicate AllFollow(g: Graph, f: Forest) {
    f.Then? ==> AllFollow(g, f.front) && Follows(g, f.last)
  }

  /** `out` is a forest printed at depth 0 whose roots are the import order. */
  ghost predicate IsPrintout(g: Graph, order: seq<Name>, out: seq<Line>) {
    exists f :: Roots(f) == order && AllFollow(g, f) && out == AllPrinted([], f, 0)
  }

  lemma VisitedAgain(g: Graph, before: map<Name, nat>, after: map<Name, nat>, name: Name)
    requires name in before && after == before[name := before[name] + 1]
    ensures Visited(g, before, after, name)
  {
    var added := after.Keys - before.Keys;
    assert added == {};
    forall n
      ensures Count(after, n) == Count(before, n) + Bit(n == name) + ImporterCount(g, added, n)
    {
      ImportersOfNone(g, n);
    }
  }

  lemma VisitedFirst(g: Graph, before: map<Name, nat>, after: map<Name, nat>, name: Name)
    requires name !in before && after == before[name := 1]
    ensures Expanding(g, before, after, name, {})
  {
    var added := after.Keys - before.Keys - {name};
    assert added == {};
    forall n
      ensures Count(after, n) == Count(before, n) + Bit(n == name) + Bit(n in {}) + ImporterCount(g, added, n)
    {
      ImportersOfNone(g, n);
    }
  }

  lemma NextChild(children: seq<Name>, i: nat)
    requires i < |children| && Ascending(children)
    ensures children[i] in children && children[i] !in Elements(children[..i])
    ensures children[..i + 1] == children[..i] + [children[i]]
    ensures Elements(children[..i + 1]) == Elements(children[..i]) + {children[i]}
  {
    LessIsTotal(children[i], children[i]);
    assert children[..i + 1] == children[..i] + [children[i]];
  }

  /** After the first `i` roots. */
  ghost predicate RootsDone(g: Graph, order: seq<Name>, i: nat, seen: map<Name, nat>)
    requires i <= |order|
  {
    && (forall m :: m in seen ==> Deps(g, m) <= seen.Keys && ReachableFrom(g, order, m))
    && (forall k :: 0 <= k < i ==> order[k] in seen)
    && (forall n {:trigger Count(seen, n)} :: Count(seen, n) == Occurrences(order[..i], n) + ImporterCount(g, seen.Keys, n))
  }

  lemma NoRootsYet(g: Graph, order: seq<Name>)
    ensures RootsDone(g, order, 0, map[])
  {
    forall n
      ensures ImporterCount(g, {}, n) == 0
    {
      ImportersOfNone(g, n);
    }
  }

  lemma AllRootsDone(g: Graph, order: seq<Name>, seen: map<Name, nat>)
    requires RootsDone(g, order, |order|, seen)
    ensures forall n :: n in seen <==> ReachableFrom(g, order, n)
    ensures forall n :: n in seen ==> seen[n] == Occurrences(order, n) + ImporterCount(g, seen.Keys, n)
  {
    assert order[..|order|] == order;
    forall n | ReachableFrom(g, order, n)
      ensures n in seen
    {
      var r :| r in order && Reaches(g, r, n);
      ClosedContains(g, seen.Keys, r, n);
    }
    assert forall n :: n in seen ==> Count(seen, n) == seen[n];
  }

  lemma OneMoreRoot(g: Graph, order: seq<Name>, i: nat, before: map<Name, nat>, after: map<Name, nat>)
    requires i < |order| && RootsDone(g, order, i, before) && Visited(g, before, after, order[i])
    ensures RootsDone(g, order, i + 1, after)
  {
    var added := after.Keys - before.Keys;
    assert after.Keys == before.Keys + added;
    assert order[..i + 1][..i] == order[..i];
    forall n
      ensures Count(after, n) == Occurrences(order[..i + 1], n) + ImporterCount(g, after.Keys, n)
    {
      ImportersOfUnion(g, before.Keys, added, n);
    }
  }

  predicate ClosedUnder(g: Graph, universe: set<Name>) {
    forall m, n :: m in universe && n in Deps(g, m) ==> n in universe
  }

  class TreeWriter {
    const dependencies: Graph
    ghost const universe: set<Name>
    var seen: map<Name, nat>
    var indentation: nat
    var out: seq<Line>

    ghost predicate Valid()
      reads this
    {
      ClosedUnder(dependencies, universe) && Agrees(seen, out)
    }

    constructor (dependencies: Graph, ghost universe: set<Name>)
      requires ClosedUnder(dependencies, universe)
      ensures Valid() && this.dependencies == dependencies && this.universe == universe
      ensures seen == map[] && indentation == 0 && out == []
    {
      this.dependencies, this.universe := dependencies, universe;
      seen, indentation, out := map[], 0, [];
    }

    method Print(line: Line)
      requires Valid()
      requires if line.Opened? then line.name !in seen else line.name in seen && line.count == seen[line.name]
      modifies this`seen, this`out
      ensures Valid() && out == old(out) + [line]
      ensures seen == old(seen)[line.name := Count(old(seen), line.name) + 1]
    {
      AgreesExtends(seen, out, line);
      seen := seen[line.name := if line.Opened? then 1 else line.count + 1];
      out := out + [line];
    }

    /** `_write_dep`: prints one tree headed by `name` at the current depth; the recursion ends on every
        graph. */
    method WriteDep(name: Name) returns (ghost tree: Tree)
      requires Valid() && name in universe
      modifies this`seen, this`indentation, this`out
      ensures Valid() && indentation == old(indentation)
      ensures Visited(dependencies, old(seen), seen, name)
      ensures tree.name == name && Follows(dependencies, tree) && (tree.Expanded? <==> name !in old(seen))
      ensures out == Printed(old(out), tree, indentation)
      decreases universe - seen.Keys, 0
    {
      ghost var before := seen;
      if name in seen {
        tree := Repeat(name, seen[name]);
        Print(Repeated(indentation, name, seen[name]));
        VisitedAgain(dependencies, before, seen, name);
        return;
      }
      Print(Opened(indentation, name));
      VisitedFirst(dependencies, before, seen, name);
      assert name in universe - before.Keys;
      indentation := indentation + 1;
      ghost var children := WriteChildren(name, before);
      indentation := indentation - 1;
      tree := Expanded(name, children);
      AllChildrenDone(dependencies, before, seen, name);
    }

    /** The loop of `_write_dep` over a module's imports. */
    method WriteChildren(name: Name, ghost before: map<Name, nat>) returns (ghost forest: Forest)
      requires Valid() && name in universe && name !in before && indentation > 0
      requires Expanding(dependencies, before, seen, name, {})
      modifies this`seen, this`indentation, this`out
      ensures Valid() && indentation == old(indentation)
      ensures Expanding(dependencies, before, seen, name, Deps(dependencies, name))
      ensures Lists(Roots(forest), Deps(dependencies, name)) && AllFollow(dependencies, forest)
      ensures out == AllPrinted(old(out), forest, indentation)
      decreases universe - seen.Keys, 1
    {
      var children := Sorted(Deps(dependencies, name));
      forest := Nothing;
      ghost var visited: set<Name> := {};
      for i := 0 to |children|
        invariant Valid() && indentation == old(indentation)
        invariant visited == Elements(children[..i])
        invariant Expanding(dependencies, before, seen, name, visited)
        invariant old(seen).Keys <= seen.Keys
        invariant Roots(forest) == children[..i] && AllFollow(dependencies, forest)
        invariant out == AllPrinted(old(out), forest, indentation)
      {
        var child := children[i];
        NextChild(children, i);
        assert child in Deps(dependencies, name) && child in universe;
        ghost var now := seen;
        ghost var tree := WriteDep(child);
        OneMoreChild(dependencies, before, now, seen, name, visited, child);
        forest, visited := Then(forest, tree), visited + {child};
      }
      assert children[..|children|] == children;
      assert visited == Deps(dependencies, name);
    }

    /** The second loop of `emit_ascii_tree`. */
    method WriteRoots(order: seq<Name>)
      requires Valid() && seen == map[] && indentation == 0 && out == []
      requires forall n :: n in order ==> n in universe
      modifies this`seen, this`indentation, this`out
      ensures Valid() && indentation == 0
      ensures RootsDone(dependencies, order, |order|, seen)
      ensures IsPrintout(dependencies, order, out)
    {
      NoRootsYet(dependencies, order);
      ghost var forest := Nothing;
      for i := 0 to |order|
        invariant Valid() && indentation == 0
        invariant RootsDone(dependencies, order, i, seen)
        invariant Roots(forest) == order[..i] && AllFollow(dependencies, forest)
        invariant out == AllPrinted([], forest, 0)
      {
        ghost var before := seen;
        ghost var tree := WriteDep(order[i]);
        forest := Then(forest, tree);
        assert order[..i + 1] == order[..i] + [order[i]];
        OneMoreRoot(dependencies, order, i, before, seen);
      }
      assert order[..|order|] == order;
    }
  }

  // ----- emit_ascii_tree

  function ImportedBy(observations: set<(Name, Name)>, m: Name): set<Name> {
    set o | o in observations && o.0 == m :: o.1
  }

  /** The recorded imports as a graph. */
  function Recorded(observations: set<(Name, Name)>): Graph {
    var importers := set o | o in observations :: o.0;
    map m | m in importers :: ImportedBy(observations, m)
  }

  lemma DepsOfRecorded(observations: set<(Name, Name)>, m: Name, n: Name)
    ensures n in Deps(Recorded(observations), m) <==> (m, n) in observations
  {
    if (m, n) in observations {
      assert (m, n).0 == m && (m, n).1 == n;
    }
  }

  lemma RecordOne(observations: set<(Name, Name)>, m: Name, n: Name)
    ensures Recorded(observations + {(m, n)}) == Recorded(observations)[m := Deps(Recorded(observations), m) + {n}]
  {
    var a, b := Recorded(observations + {(m, n)}), Recorded(observations)[m := Deps(Recorded(observations), m) + {n}];
    assert (m, n).0 == m && (m, n) in observations + {(m, n)};
    forall k | k in b
      ensures k in a && a[k] == b[k]
    {
      forall x
        ensures x in Deps(a, k) <==> x in b[k]
      {
        DepsOfRecorded(observations + {(m, n)}, k, x);
        DepsOfRecorded(observations, k, x);
      }
    }
  }

  /** The first loop of `emit_ascii_tree`. */
  method CollectDependencies(observations: set<(Name, Name)>) returns (dependencies: Graph)
    ensures dependencies == Recorded(observations)
    ensures forall m, n :: n in Deps(dependencies, m) <==> (m, n) in observations
  {
    dependencies := map[];
    var rest := observations;
    while rest != {}
      invariant rest <= observations
      invariant dependencies == Recorded(observations - rest)
      decreases rest
    {
      var o :| o in rest;
      var (importer, imported) := o;
      var next := observations - (rest - {o});
      assert next == (observations - rest) + {o};
      RecordOne(observations - rest, importer, imported);
      dependencies := dependencies[importer := Deps(dependencies, importer) + {imported}];
      rest := rest - {o};
    }
    assert observations - {} == observations;
    forall m, n
      ensures n in Deps(dependencies, m) <==> (m, n) in observations
    {
      DepsOfRecorded(observations, m, n);
    }
  }

  function Universe(g: Graph, roots: seq<Name>): set<Name> {
    (set r | r in roots) + (set m, n | m in g && n in g[m] :: n)
  }

  /** `emit_ascii_tree`: exactly the modules reachable from the import order are visited, each as often
      as it occurs there plus once per reachable importer, and printed as one block per entry of it. */
  method EmitAsciiTree(observations: set<(Name, Name)>, importOrder: seq<Name>) returns (seen: map<Name, nat>, out: seq<Line>)
    ensures var g := Recorded(observations);
            && (forall n :: n in seen <==> ReachableFrom(g, importOrder, n))
            && (forall n :: n in seen ==> seen[n] == Occurrences(importOrder, n) + ImporterCount(g, seen.Keys, n))
    ensures forall n :: LinesOf(out, n) == Count(seen, n)
    ensures Faithful(out) && IsPrintout(Recorded(observations), importOrder, out)
  {
    var dependencies := CollectDependencies(observations);
    var writer := new TreeWriter(dependencies, Universe(dependencies, importOrder));
    writer.WriteRoots(importOrder);
    seen, out := writer.seen, writer.out;
    AllRootsDone(dependencies, importOrder, seen);
  }

  function OpenedLines(out: seq<Line>, n: Name): nat {
    if out == [] then 0 else OpenedLines(out[..|out| - 1], n) + Bit(out[|out| - 1].Opened? && out[|out| - 1].name == n)
  }

  /** In a truthful printout every module that occurs at all is expanded exactly once. */
  lemma {:induction false} ExpandedOnce(out: seq<Line>, n: Name)
    requires Faithful(out)
    ensures OpenedLines(out, n) == Bit(LinesOf(out, n) > 0)
  {
    if out != [] {
      var front, last := out[..|out| - 1], out[|out| - 1];
      assert forall k :: 0 <= k < |front| ==> front[..k] == out[..k] && front[k] == out[k];
      ExpandedOnce(front, n);
    }
  }

  // ----- nothing else could be printed

  lemma LastIsLargest(a: seq<Name>, n: Name)
    requires Ascending(a) && n in a
    ensures n == a[|a| - 1] || Less(n, a[|a| - 1])
  {}

  lemma FrontLists(a: seq<Name>, s: set<Name>)
    requires Lists(a, s) && a != []
    ensures Lists(a[..|a| - 1], s - {a[|a| - 1]})
  {
    var front, last := a[..|a| - 1], a[|a| - 1];
    assert a == front + [last];
    LessIsTotal(last, last);
  }

  /** There is one way to sort a set. */
  lemma {:induction false} SortingIsUnique(a: seq<Name>, b: seq<Name>, s: set<Name>)
    requires Lists(a, s) && Lists(b, s)
    ensures a == b
    decreases |a|
  {
    assert b != [] ==> b[0] in Elements(b);
    if a != [] {
      assert a[0] in Elements(b);
      var m, n := a[|a| - 1], b[|b| - 1];
      assert m in Elements(b) && n in Elements(a);
      LastIsLargest(a, n);
      LastIsLargest(b, m);
      if m != n {
        LessIsTransitive(m, n, m);
        LessIsTotal(m, m);
      }
      FrontLists(a, s);
      FrontLists(b, s);
      SortingIsUnique(a[..|a| - 1], b[..|b| - 1], s - {m});
    }
  }

  /** Printing only adds lines, and the same lines wherever it happens. */
  lemma {:induction false} PrintingAppends(out: seq<Line>, t: Tree, depth: nat)
    ensures Printed(out, t, depth) == out + Printed([], t, depth)
    ensures |Printed([], t, depth)| > 0 && Printed([], t, depth)[0].name == t.name && Printed([], t, depth)[0].depth == depth
    ensures forall k :: 0 < k < |Printed([], t, depth)| ==> Printed([], t, depth)[k].depth > depth
    decreases t, 1
  {
    if t.Expanded? {
      var line := [Opened(depth, t.name)];
      AllPrintingAppends(out + line, t.children, depth + 1);
      AllPrintingAppends([] + line, t.children, depth + 1);
      assert (out + line) + AllPrinted([], t.children, depth + 1) == out + (line + AllPrinted([], t.children, depth + 1));
    }
  }

  lemma {:induction false} AllPrintingAppends(out: seq<Line>, f: Forest, depth: nat)
    ensures AllPrinted(out, f, depth) == out + AllPrinted([], f, depth)
    ensures forall k :: 0 <= k < |AllPrinted([], f, depth)| ==> AllPrinted([], f, depth)[k].depth >= depth
    decreases f, 0
  {
    if f.Then? {
      AllPrintingAppends(out, f.front, depth);
      PrintingAppends(AllPrinted(out, f.front, depth), f.last, depth);
      PrintingAppends(AllPrinted([], f.front, depth), f.last, depth);
    }
  }

  /** The modules printed at a given depth, in order. */
  function NamesAt(out: seq<Line>, depth: nat): seq<Name> {
    if out == [] then []
    else NamesAt(out[..|out| - 1], depth) + if out[|out| - 1].depth == depth then [out[|out| - 1].name] else []
  }

  lemma {:induction false} NamesAtConcat(a: seq<Line>, b: seq<Line>, depth: nat)
    ensures NamesAt(a + b, depth) == NamesAt(a, depth) + NamesAt(b, depth)
  {
    if b == [] {
      assert a + b == a;
    } else {
      assert (a + b)[..|a + b| - 1] == a + b[..|b| - 1];
      NamesAtConcat(a, b[..|b| - 1], depth);
    }
  }

  lemma {:induction false} NoNamesAbove(out: seq<Line>, depth: nat)
    requires forall k :: 0 <= k < |out| ==> out[k].depth > depth
    ensures NamesAt(out, depth) == []
  {
    if out != [] {
      NoNamesAbove(out[..|out| - 1], depth);
    }
  }

  /** A module is printed at its depth and its imports, in order, at exactly one more. */
  lemma ImportsAreOneDeeper(t: Tree, depth: nat)
    ensures NamesAt(Printed([], t, depth), depth) == [t.name]
    ensures NamesAt(Printed([], t, depth), depth + 1) == if t.Expanded? then Roots(t.children) else []
    decreases t, 1
  {
    if t.Expanded? {
      var line, below := [Opened(depth, t.name)], AllPrinted([], t.children, depth + 1);
      AllPrintingAppends([] + line, t.children, depth + 1);
      assert [] + line == line && line[..0] == [];
      NamesAtConcat(line, below, depth);
      NamesAtConcat(line, below, depth + 1);
      AllPrintingAppends([], t.children, depth + 1);
      NoNamesAbove(below, depth);
      RootsAreAtDepth(t.children, depth + 1);
    } else {
      var line := [Repeated(depth, t.name, t.count)];
      assert [] + line == line && line[..0] == [];
    }
  }

  lemma {:induction false} RootsAreAtDepth(f: Forest, depth: nat)
    ensures NamesAt(AllPrinted([], f, depth), depth) == Roots(f)
    decreases f, 0
  {
    if f.Then? {
      RootsAreAtDepth(f.front, depth);
      PrintingAppends(AllPrinted([], f.front, depth), f.last, depth);
      NamesAtConcat(AllPrinted([], f.front, depth), Printed([], f.last, depth), depth);
      ImportsAreOneDeeper(f.last, depth);
    }
  }

  lemma FaithfulPrefix(a: seq<Line>, b: seq<Line>)
    requires Faithful(a + b)
    ensures Faithful(a)
    ensures b != [] ==> TruthfulAfter(a, b[0])
  {
    assert forall k :: 0 <= k < |a| ==> (a + b)[..k] == a[..k] && (a + b)[k] == a[k];
    assert (a + b)[..|a|] == a;
    assert b != [] ==> (a + b)[|a|] == b[0];
  }

  /** A tree's first line is truthful, so it tells which kind of tree it is. */
  lemma FirstLineIsTruthful(before: seq<Line>, t: Tree, depth: nat)
    requires Faithful(Printed(before, t, depth))
    ensures Faithful(before)
    ensures TruthfulAfter(before, if t.Expanded? then Opened(depth, t.name) else Repeated(depth, t.name, t.count))
  {
    if t.Expanded? {
      var line := Opened(depth, t.name);
      AllPrintingAppends(before + [line], t.children, depth + 1);
      FaithfulPrefix(before + [line], AllPrinted([], t.children, depth + 1));
      FaithfulPrefix(before, [line]);
    } else {
      FaithfulPrefix(before, [Repeated(depth, t.name, t.count)]);
    }
  }

  lemma {:induction false} SameTree(g: Graph, before: seq<Line>, t: Tree, u: Tree, depth: nat)
    requires t.name == u.name && Follows(g, t) && Follows(g, u)
    requires Faithful(Printed(before, t, depth)) && Faithful(Printed(before, u, depth))
    ensures t == u
    decreases t
  {
    FirstLineIsTruthful(before, t, depth);
    FirstLineIsTruthful(before, u, depth);
    if t.Expanded? {
      SortingIsUnique(Roots(t.children), Roots(u.children), Deps(g, t.name));
      SameForest(g, before + [Opened(depth, t.name)], t.children, u.children, depth + 1);
    }
  }

  lemma {:induction false} SameForest(g: Graph, before: seq<Line>, e: Forest, f: Forest, depth: nat)
    requires Roots(e) == Roots(f) && AllFollow(g, e) && AllFollow(g, f)
    requires Faithful(AllPrinted(before, e, depth)) && Faithful(AllPrinted(before, f, depth))
    ensures e == f
    decreases e
  {
    if e.Then? {
      assert Roots(f) == Roots(e.front) + [e.last.name];
      assert Roots(e)[..|Roots(e)| - 1] == Roots(e.front) == Roots(f.front);
      FirstLineIsTruthful(AllPrinted(before, e.front, depth), e.last, depth);
      FirstLineIsTruthful(AllPrinted(before, f.front, depth), f.last, depth);
      SameForest(g, before, e.front, f.front, depth);
      SameTree(g, AllPrinted(before, e.front, depth), e.last, f.last, depth);
    }
  }

  /** The shape and the truthfulness of its lines determine the printout: any two that have both are
      equal, line by line. */
  lemma PrintoutIsDetermined(g: Graph, order: seq<Name>, out: seq<Line>, other: seq<Line>)
    requires IsPrintout(g, order, out) && Faithful(out)
    requires IsPrintout(g, order, other) && Faithful(other)
    ensures out == other
  {
    var e :| Roots(e) == order && AllFollow(g, e) && out == AllPrinted([], e, 0);
    var f :| Roots(f) == order && AllFollow(g, f) && other == AllPrinted([], f, 0);
    SameForest(g, [], e, f, 0);
  }
}
