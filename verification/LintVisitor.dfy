/**
 The flake8 plugin's visitor: a mutable traversal with an error list and a stack of the names bound by
 the enclosing exception handlers.

 A node keeps what the checks look at; `Children` lists its child nodes in field order, which is the
 order `generic_visit` uses.
 */
module LintVisitor {
  import opened Wrappers

  datatype Pos = Pos(line: nat, col: nat)

  datatype Message = S001(attr: string) | S002 | S003 | S004 | S005 | S006 | S007 | S008 | S009 | S010 | S011

  datatype Error = Error(pos: Pos, message: Message)

  datatype Node =
    | ImportFrom(pos: Pos, origin: string, level: nat, names: seq<string>)
    | Import(pos: Pos, names: seq<string>)
    | Attribute(pos: Pos, value: Node, attr: string)
    | Name(pos: Pos, id: string)
    | ExceptHandler(pos: Pos, caught: Option<Node>, name: Option<string>, body: seq<Node>)
    | Raise(pos: Pos, exc: Option<Node>, cause: Option<Node>)
    | Try(pos: Pos, body: seq<Node>, handlers: seq<Node>, orelse: seq<Node>, finalbody: seq<Node>)
    | Call(pos: Pos, func: Node, args: seq<Node>, keywords: seq<Node>)
    | Keyword(pos: Pos, arg: Option<string>, value: Node)
    | Other(children: seq<Node>)

  function AsList(n: Option<Node>): seq<Node> {
    match n
    case Some(x) => [x]
    case None => []
  }

  function Children(n: Node): (r: seq<Node>)
    ensures forall c :: c in r ==> c < n
  {
    match n
    case ImportFrom(_, _, _, _) => []
    case Import(_, _) => []
    case Attribute(_, value, _) => [value]
    case Name(_, _) => []
    case ExceptHandler(_, caught, _, body) => AsList(caught) + body
    case Raise(_, exc, cause) => AsList(exc) + AsList(cause)
    case Try(_, body, handlers, orelse, finalbody) => body + handlers + orelse + finalbody
    case Call(_, func, args, keywords) => [func] + args + keywords
    case Keyword(_, _, value) => [value]
    case Other(children) => children
  }

  // ----- the checks on one node

  predicate OccursAt(s: string, part: string, i: int) {
    0 <= i <= |s| - |part| && s[i..i + |part|] == part
  }

  predicate Contains(s: string, part: string) {
    exists i | 0 <= i <= |s| :: OccursAt(s, part, i)
  }

  /** `s.split(".")[0]` */
  function Root(s: string): string {
    if s == "" || s[0] == '.' then "" else [s[0]] + Root(s[1..])
  }

  function Lower(s: string): string {
    seq(|s|, i requires 0 <= i < |s| => if 'A' <= s[i] <= 'Z' then s[i] - 'A' + 'a' else s[i])
  }

  predicate IsJson(origin: string) {
    Root(origin) == "json" || Root(origin) == "simplejson"
  }

  predicate ImportsTestutils(origin: string, file: string) {
    && !Contains(file, "tests/") && !Contains(file, "fixtures/") && !Contains(file, "sentry/testutils/")
    && Contains(origin, "sentry.testutils")
  }

  /** The elif chain of `visit_ImportFrom`. */
  function ModuleErrors(n: Node, file: string): seq<Error>
    requires n.ImportFrom?
  {
    if IsJson(n.origin) then [Error(n.pos, S003)]
    else if n.origin == "sentry.models" then [Error(n.pos, S005)]
    else if Contains(file, "tests/") && n.origin == "django.utils.encoding" &&
            ("force_bytes" in n.names || "force_str" in n.names) then [Error(n.pos, S006)]
    else if ImportsTestutils(n.origin, file) then [Error(n.pos, S007)]
    else []
  }

  /** `visit_ImportFrom` */
  function ImportFromErrors(n: Node, file: string): seq<Error>
    requires n.ImportFrom?
  {
    if n.origin == "" || n.level != 0 then []
    else
      ModuleErrors(n, file) +
      (if n.origin == "pytz" && exists i :: 0 <= i < |n.names| && Lower(n.names[i]) == "utc"
       then [Error(n.pos, S008)] else [])
  }

  /** `visit_Import` */
  function ImportErrors(pos: Pos, names: seq<string>, file: string): seq<Error> {
    if names == [] then []
    else
      (if IsJson(names[0]) then [Error(pos, S003)]
       else if ImportsTestutils(names[0], file) then [Error(pos, S007)]
       else []) + ImportErrors(pos, names[1..], file)
  }

  /** `visit_Attribute` */
  function AttributeErrors(n: Node): seq<Error>
    requires n.Attribute?
  {
    if n.attr in ["not_called", "called_once", "called_once_with"] then [Error(n.pos, S001(n.attr))]
    else if n.attr in ["assertRaises", "assertRaisesRegex"] then [Error(n.pos, S004)]
    else if n.value.Name? && n.value.id == "pytz" && Lower(n.attr) == "utc" then [Error(n.pos, S008)]
    else []
  }

  /** The raise names the variable of the handler `near`, if there is one and it has a name. */
  predicate Reraises(n: Node, near: Option<Option<string>>) {
    && n.Raise? && n.exc.Some? && n.exc.value.Name?
    && near == Some(Some(n.exc.value.id))
  }

  /** `visit_Try`: the last handler only re-raises. */
  predicate IdleLastHandler(n: Node) {
    && n.Try? && n.handlers != []
    && var last := n.handlers[|n.handlers| - 1];
    && last.ExceptHandler? && |last.body| == 1
    && last.body[0].Raise? && last.body[0].exc == None
  }

  predicate OverridesSettings(func: Node) {
    || (func.Name? && func.id == "override_settings")
    || (func.Attribute? && func.value.Name? && func.value.id == "self" && func.attr == "settings")
  }

  function OptionErrors(keywords: seq<Node>): seq<Error> {
    if keywords == [] then []
    else
      var k := keywords[0];
      (if k.Keyword? && k.arg == Some("SENTRY_OPTIONS") then [Error(k.pos, S011)] else []) + OptionErrors(keywords[1..])
  }

  /** What one node adds, given the nearest enclosing handler (None outside any). */
  function LocalErrors(n: Node, near: Option<Option<string>>, file: string): seq<Error> {
    match n
    case ImportFrom(_, _, _, _) => ImportFromErrors(n, file)
    case Import(pos, names) => ImportErrors(pos, names, file)
    case Attribute(_, _, _) => AttributeErrors(n)
    case Name(pos, id) => if id == "print" then [Error(pos, S002)] else []
    case Raise(pos, _, _) => if Reraises(n, near) then [Error(pos, S009)] else []
    case Try(_, _, _, _, _) =>
      if IdleLastHandler(n) then [Error(n.handlers[|n.handlers| - 1].pos, S010)] else []
    case Call(_, func, _, keywords) => if OverridesSettings(func) then OptionErrors(keywords) else []
    case _ => []
  }

  // ----- the pure traversal

  /** The handler the children of `n` are in. */
  function Inside(n: Node, near: Option<Option<string>>): Option<Option<string>> {
    if n.ExceptHandler? then Some(n.name) else near
  }

  function Errors(n: Node, near: Option<Option<string>>, file: string): seq<Error>
    decreases n, 1
  {
    LocalErrors(n, near, file) + ErrorsFrom(n, 0, Inside(n, near), file)
  }

  /** The errors in the children of `n` from the `k`-th on. */
  function ErrorsFrom(n: Node, k: nat, near: Option<Option<string>>, file: string): seq<Error>
    requires k <= |Children(n)|
    decreases n, 0, |Children(n)| - k
  {
    if k == |Children(n)| then []
    else
      assert Children(n)[k] in Children(n);
      Errors(Children(n)[k], near, file) + ErrorsFrom(n, k + 1, near, file)
  }

  lemma Regroup(a: seq<Error>, b: seq<Error>, c: seq<Error>)
    ensures (a + b) + c == a + (b + c)
  {}

  lemma OneChild(n: Node, k: nat, near: Option<Option<string>>, file: string, before: seq<Error>)
    requires k < |Children(n)|
    ensures (before + Errors(Children(n)[k], near, file)) + ErrorsFrom(n, k + 1, near, file) == before + ErrorsFrom(n, k, near, file)
  {
    Regroup(before, Errors(Children(n)[k], near, file), ErrorsFrom(n, k + 1, near, file));
  }

  /** A handler adds nothing of its own. */
  lemma HandlerErrors(n: Node, near: Option<Option<string>>, file: string)
    requires n.ExceptHandler?
    ensures Errors(n, near, file) == ErrorsFrom(n, 0, Some(n.name), file)
  {}

  // ----- the visitor

  function Top(stack: seq<Option<string>>): Option<Option<string>> {
    if stack == [] then None else Some(stack[|stack| - 1])
  }

  class SentryVisitor {
    var errors: seq<Error>
    var exceptVars: seq<Option<string>>
    const filename: string

    constructor (filename: string)
      ensures errors == [] && exceptVars == [] && this.filename == filename
    {
      this.filename := filename;
      errors, exceptVars := [], [];
    }

    /** `visit_ImportFrom` */
    method CheckImportFrom(n: Node)
      requires n.ImportFrom?
      modifies this`errors
      ensures errors == old(errors) + ImportFromErrors(n, filename)
    {
      if n.origin != "" && n.level == 0 {
        if IsJson(n.origin) {
          errors := errors + [Error(n.pos, S003)];
        } else if n.origin == "sentry.models" {
          errors := errors + [Error(n.pos, S005)];
        } else if Contains(filename, "tests/") && n.origin == "django.utils.encoding" &&
                  ("force_bytes" in n.names || "force_str" in n.names) {
          errors := errors + [Error(n.pos, S006)];
        } else if ImportsTestutils(n.origin, filename) {
          errors := errors + [Error(n.pos, S007)];
        }
        if n.origin == "pytz" && exists i :: 0 <= i < |n.names| && Lower(n.names[i]) == "utc" {
          errors := errors + [Error(n.pos, S008)];
        }
      }
    }

    /** `visit_Attribute` */
    method CheckAttribute(n: Node)
      requires n.Attribute?
      modifies this`errors
      ensures errors == old(errors) + AttributeErrors(n)
    {
      if n.attr in ["not_called", "called_once", "called_once_with"] {
        errors := errors + [Error(n.pos, S001(n.attr))];
      } else if n.attr in ["assertRaises", "assertRaisesRegex"] {
        errors := errors + [Error(n.pos, S004)];
      } else if n.value.Name? && n.value.id == "pytz" && Lower(n.attr) == "utc" {
        errors := errors + [Error(n.pos, S008)];
      }
    }

    /** `visit_Import` */
    method CheckImport(pos: Pos, names: seq<string>)
      modifies this`errors
      ensures errors == old(errors) + ImportErrors(pos, names, filename)
    {
      assert names[0..] == names;
      for i := 0 to |names|
        invariant errors + ImportErrors(pos, names[i..], filename) == old(errors) + ImportErrors(pos, names, filename)
      {
        assert names[i..][1..] == names[i + 1..];
        if IsJson(names[i]) {
          errors := errors + [Error(pos, S003)];
        } else if ImportsTestutils(names[i], filename) {
          errors := errors + [Error(pos, S007)];
        }
      }
    }

    /** The loop of `visit_Call`. */
    method CheckOptions(keywords: seq<Node>)
      modifies this`errors
      ensures errors == old(errors) + OptionErrors(keywords)
    {
      assert keywords[0..] == keywords;
      for i := 0 to |keywords|
        invariant errors + OptionErrors(keywords[i..]) == old(errors) + OptionErrors(keywords)
      {
        assert keywords[i..][1..] == keywords[i + 1..];
        if keywords[i].Keyword? && keywords[i].arg == Some("SENTRY_OPTIONS") {
          errors := errors + [Error(keywords[i].pos, S011)];
        }
      }
    }

    /** What the other `visit_` methods do before `generic_visit`. */
    method Check(n: Node)
      requires !n.ExceptHandler?
      modifies this`errors
      ensures errors == old(errors) + LocalErrors(n, Top(exceptVars), filename)
    {
      match n
      case ImportFrom(_, _, _, _) => CheckImportFrom(n);
      case Import(pos, names) => CheckImport(pos, names);
      case Attribute(_, _, _) => CheckAttribute(n);
      case Name(pos, id) =>
        if id == "print" {
          errors := errors + [Error(pos, S002)];
        }
      case Raise(pos, exc, _) =>
        if exceptVars != [] && exc.Some? && exc.value.Name? && Some(exc.value.id) == exceptVars[|exceptVars| - 1] {
          errors := errors + [Error(pos, S009)];
        }
      case Try(_, _, handlers, _, _) =>
        if IdleLastHandler(n) {
          errors := errors + [Error(handlers[|handlers| - 1].pos, S010)];
        }
      case Call(_, func, _, keywords) =>
        if OverridesSettings(func) {
          CheckOptions(keywords);
        }
      case _ =>
    }

    /** `visit`: appends exactly the errors of the pure traversal and leaves the stack as it was. */
    method Visit(n: Node)
      modifies this`errors, this`exceptVars
      ensures errors == old(errors) + Errors(n, Top(old(exceptVars)), filename)
      ensures exceptVars == old(exceptVars)
      decreases n, 2
    {
      if n.ExceptHandler? {
        VisitExceptHandler(n);
      } else {
        Check(n);
        GenericVisit(n);
        Regroup(old(errors), LocalErrors(n, Top(exceptVars), filename), ErrorsFrom(n, 0, Top(exceptVars), filename));
      }
    }

    /** `visit_ExceptHandler` */
    method VisitExceptHandler(n: Node)
      requires n.ExceptHandler?
      modifies this`errors, this`exceptVars
      ensures errors == old(errors) + Errors(n, Top(old(exceptVars)), filename)
      ensures exceptVars == old(exceptVars)
      decreases n, 1
    {
      exceptVars := exceptVars + [n.name];
      GenericVisit(n);
      exceptVars := exceptVars[..|exceptVars| - 1];
      HandlerErrors(n, Top(exceptVars), filename);
    }

    /** `generic_visit` */
    method GenericVisit(n: Node)
      modifies this`errors, this`exceptVars
      ensures errors == old(errors) + ErrorsFrom(n, 0, Top(old(exceptVars)), filename)
      ensures exceptVars == old(exceptVars)
      decreases n, 0
    {
      var children := Children(n);
      ghost var near := Top(exceptVars);
      ghost var all := errors + ErrorsFrom(n, 0, near, filename);
      for i := 0 to |children|
        invariant exceptVars == old(exceptVars)
        invariant errors + ErrorsFrom(n, i, near, filename) == all
      {
        assert children[i] in children;
        ghost var before := errors;
        Visit(children[i]);
        OneChild(n, i, near, filename, before);
      }
      assert errors + [] == errors;
    }
  }

  // ----- the same errors, path by path

  type Path = seq<nat>

  predicate ValidPath(n: Node, p: Path)
    decreases |p|
  {
    p == [] || (p[0] < |Children(n)| && ValidPath(Children(n)[p[0]], p[1..]))
  }

  function NodeAt(n: Node, p: Path): Node
    requires ValidPath(n, p)
    decreases |p|
  {
    if p == [] then n else NodeAt(Children(n)[p[0]], p[1..])
  }

  lemma {:induction false} PrefixIsValid(n: Node, p: Path)
    requires ValidPath(n, p) && p != []
    ensures ValidPath(n, p[..|p| - 1])
    decreases |p|
  {
    if |p| > 1 {
      PrefixIsValid(Children(n)[p[0]], p[1..]);
      assert p[..|p| - 1][1..] == p[1..][..|p| - 2];
    }
  }

  /** Walking up from a node: the name of the first handler met, `outside` when there is none. */
  function NearestHandler(n: Node, p: Path, outside: Option<Option<string>>): Option<Option<string>>
    requires ValidPath(n, p)
    decreases |p|
  {
    if p == [] then outside
    else
      PrefixIsValid(n, p);
      var up := p[..|p| - 1];
      var parent := NodeAt(n, up);
      if parent.ExceptHandler? then Some(parent.name) else NearestHandler(n, up, outside)
  }

  /** The same seen from one level further down. */
  lemma {:induction false} NearestFromChild(n: Node, k: nat, q: Path, outside: Option<Option<string>>)
    requires k < |Children(n)| && ValidPath(Children(n)[k], q)
    ensures ValidPath(n, [k] + q) && NodeAt(n, [k] + q) == NodeAt(Children(n)[k], q)
    ensures NearestHandler(n, [k] + q, outside) == NearestHandler(Children(n)[k], q, Inside(n, outside))
    decreases |q|
  {
    assert ([k] + q)[1..] == q;
    if q == [] {
      assert ([k] + q)[..0] == [];
    } else {
      var up := q[..|q| - 1];
      PrefixIsValid(Children(n)[k], q);
      NearestFromChild(n, k, up, outside);
      assert ([k] + q)[..|q|] == [k] + up;
    }
  }

  ghost predicate ReportedAt(n: Node, p: Path, near: Option<Option<string>>, file: string, e: Error) {
    ValidPath(n, p) && e in LocalErrors(NodeAt(n, p), NearestHandler(n, p, near), file)
  }

  /** Some node of the tree reports `e`. */
  ghost predicate ReportedIn(n: Node, near: Option<Option<string>>, file: string, e: Error) {
    exists p :: ReportedAt(n, p, near, file, e)
  }

  lemma ReportedBelow(n: Node, k: nat, q: Path, near: Option<Option<string>>, file: string, e: Error)
    requires k < |Children(n)|
    ensures ReportedAt(Children(n)[k], q, Inside(n, near), file, e) <==> ReportedAt(n, [k] + q, near, file, e)
  {
    assert ([k] + q)[1..] == q;
    if ValidPath(Children(n)[k], q) {
      NearestFromChild(n, k, q, near);
    }
  }

  ghost predicate ReportedFrom(n: Node, k: nat, near: Option<Option<string>>, file: string, e: Error) {
    exists i, q :: k <= i < |Children(n)| && ReportedAt(Children(n)[i], q, near, file, e)
  }

  lemma ReportedAbove(n: Node, p: Path, near: Option<Option<string>>, file: string, e: Error)
    requires ReportedAt(n, p, near, file, e)
    ensures e in LocalErrors(n, near, file) || ReportedFrom(n, 0, Inside(n, near), file, e)
  {
    if p != [] {
      assert p == [p[0]] + p[1..];
      ReportedBelow(n, p[0], p[1..], near, file, e);
      assert ReportedAt(Children(n)[p[0]], p[1..], Inside(n, near), file, e);
    }
  }

  /** A node's reports are its own and its children's. */
  lemma ReportedUnfold(n: Node, near: Option<Option<string>>, file: string, e: Error)
    ensures ReportedIn(n, near, file, e) <==>
            e in LocalErrors(n, near, file) || ReportedFrom(n, 0, Inside(n, near), file, e)
  {
    if e in LocalErrors(n, near, file) {
      assert ReportedAt(n, [], near, file, e);
    }
    if ReportedFrom(n, 0, Inside(n, near), file, e) {
      var k, q :| 0 <= k < |Children(n)| && ReportedAt(Children(n)[k], q, Inside(n, near), file, e);
      ReportedBelow(n, k, q, near, file, e);
    }
    if p :| ReportedAt(n, p, near, file, e) {
      ReportedAbove(n, p, near, file, e);
    }
  }

  /** An error belongs to a tree exactly when some node of it reports it, judged by the nearest handler
      above that node. */
  lemma {:induction false} ErrorsAreLocal(n: Node, near: Option<Option<string>>, file: string, e: Error)
    ensures e in Errors(n, near, file) <==> ReportedIn(n, near, file, e)
    decreases n, 1
  {
    ChildErrorsAreLocal(n, 0, Inside(n, near), file, e);
    ReportedUnfold(n, near, file, e);
  }

  lemma ReportedStep(n: Node, k: nat, near: Option<Option<string>>, file: string, e: Error)
    requires k < |Children(n)|
    ensures ReportedFrom(n, k, near, file, e) <==>
            ReportedIn(Children(n)[k], near, file, e) || ReportedFrom(n, k + 1, near, file, e)
  {
    if ReportedFrom(n, k, near, file, e) {
      var i, q :| k <= i < |Children(n)| && ReportedAt(Children(n)[i], q, near, file, e);
      assert i == k || ReportedFrom(n, k + 1, near, file, e);
    }
    if ReportedFrom(n, k + 1, near, file, e) {
      var i, q :| k + 1 <= i < |Children(n)| && ReportedAt(Children(n)[i], q, near, file, e);
      assert k <= i;
    }
  }

  lemma MemberOfOneChild(n: Node, k: nat, near: Option<Option<string>>, file: string, e: Error)
    requires k < |Children(n)|
    ensures e in ErrorsFrom(n, k, near, file) <==>
            e in Errors(Children(n)[k], near, file) || e in ErrorsFrom(n, k + 1, near, file)
  {}

  lemma OneMoreChildIsLocal(n: Node, k: nat, near: Option<Option<string>>, file: string, e: Error)
    requires k < |Children(n)|
    requires e in Errors(Children(n)[k], near, file) <==> ReportedIn(Children(n)[k], near, file, e)
    requires e in ErrorsFrom(n, k + 1, near, file) <==> ReportedFrom(n, k + 1, near, file, e)
    ensures e in ErrorsFrom(n, k, near, file) <==> ReportedFrom(n, k, near, file, e)
  {
    MemberOfOneChild(n, k, near, file, e);
    ReportedStep(n, k, near, file, e);
  }

  lemma {:induction false} ChildErrorsAreLocal(n: Node, k: nat, near: Option<Option<string>>, file: string, e: Error)
    requires k <= |Children(n)|
    ensures e in ErrorsFrom(n, k, near, file) <==> ReportedFrom(n, k, near, file, e)
    decreases n, 0, |Children(n)| - k
  {
    if k < |Children(n)| {
      var child := Children(n)[k];
      assert child in Children(n);
      ErrorsAreLocal(child, near, file, e);
      ChildErrorsAreLocal(n, k + 1, near, file, e);
      OneMoreChildIsLocal(n, k, near, file, e);
    }
  }

  lemma {:induction false} ImportsNeverReraise(at: Pos, names: seq<string>, file: string, pos: Pos)
    ensures Error(pos, S009) !in ImportErrors(at, names, file)
  {
    if names != [] {
      ImportsNeverReraise(at, names[1..], file, pos);
    }
  }

  lemma {:induction false} OptionsNeverReraise(keywords: seq<Node>, pos: Pos)
    ensures Error(pos, S009) !in OptionErrors(keywords)
  {
    if keywords != [] {
      OptionsNeverReraise(keywords[1..], pos);
    }
  }

  lemma {:induction false} OnlyRaisesReportReraise(n: Node, near: Option<Option<string>>, file: string, pos: Pos)
    ensures Error(pos, S009) in LocalErrors(n, near, file) <==> Reraises(n, near) && n.pos == pos
  {
    match n
    case Import(_, names) => ImportsNeverReraise(n.pos, names, file, pos);
    case Call(_, _, _, keywords) => OptionsNeverReraise(keywords, pos);
    case _ =>
  }

  ghost predicate ReraisedAt(tree: Node, p: Path, pos: Pos) {
    && ValidPath(tree, p)
    && var n := NodeAt(tree, p);
    && n.Raise? && n.pos == pos && n.exc.Some? && n.exc.value.Name?
    && NearestHandler(tree, p, None) == Some(Some(n.exc.value.id))
  }

  /** S009 is reported at a position exactly when a raise there names the variable bound by the nearest
      handler around it; a nearer handler without that name silences it. */
  lemma ReraiseIsReportedExactlyWhen(tree: Node, file: string, pos: Pos)
    ensures Error(pos, S009) in Errors(tree, None, file) <==> exists p :: ReraisedAt(tree, p, pos)
  {
    ErrorsAreLocal(tree, None, file, Error(pos, S009));
    forall p
      ensures ReportedAt(tree, p, None, file, Error(pos, S009)) <==> ReraisedAt(tree, p, pos)
    {
      if ValidPath(tree, p) {
        OnlyRaisesReportReraise(NodeAt(tree, p), NearestHandler(tree, p, None), file, pos);
      }
    }
  }
}
