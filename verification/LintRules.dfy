/** What the errors of `LintVisitor` mean: their order, and the eleven rules stated message by message. */
module LintRules {
  import opened Wrappers
  import opened LintVisitor

  // ----- the order of errors

  /** The errors of several trees, one after the other. */
  function AllErrors(ns: seq<Node>, near: Option<Option<string>>, file: string): seq<Error> {
    if ns == [] then [] else Errors(ns[0], near, file) + AllErrors(ns[1..], near, file)
  }

  lemma {:induction false} AllErrorsConcat(a: seq<Node>, b: seq<Node>, near: Option<Option<string>>, file: string)
    ensures AllErrors(a + b, near, file) == AllErrors(a, near, file) + AllErrors(b, near, file)
  {
    if a == [] {
      assert a + b == b;
    } else {
      assert (a + b)[1..] == a[1..] + b;
      AllErrorsConcat(a[1..], b, near, file);
      Regroup(Errors(a[0], near, file), AllErrors(a[1..], near, file), AllErrors(b, near, file));
    }
  }

  lemma {:induction false} ChildrenInOrder(n: Node, k: nat, near: Option<Option<string>>, file: string)
    requires k <= |Children(n)|
    ensures ErrorsFrom(n, k, near, file) == AllErrors(Children(n)[k..], near, file)
    decreases |Children(n)| - k
  {
    if k < |Children(n)| {
      ChildrenInOrder(n, k + 1, near, file);
      assert Children(n)[k..][1..] == Children(n)[k + 1..];
    }
  }

  /** A node's own errors come first, then those of its fields in the order the syntax tree lists them:
      of a try statement the body's, the handlers', the else branch's and the final branch's, all in the
      handler around the statement. */
  lemma TryFieldsInOrder(n: Node, near: Option<Option<string>>, file: string)
    requires n.Try?
    ensures Errors(n, near, file) ==
            LocalErrors(n, near, file) +
            (AllErrors(n.body, near, file) +
             (AllErrors(n.handlers, near, file) + (AllErrors(n.orelse, near, file) + AllErrors(n.finalbody, near, file))))
  {
    var rest := n.orelse + n.finalbody;
    ChildrenInOrder(n, 0, near, file);
    assert Children(n)[0..] == Children(n) == n.body + (n.handlers + rest);
    AllErrorsConcat(n.body, n.handlers + rest, near, file);
    AllErrorsConcat(n.handlers, rest, near, file);
    AllErrorsConcat(n.orelse, n.finalbody, near, file);
  }

  /** Of a call the function's, the arguments' and the keywords'. */
  lemma CallFieldsInOrder(n: Node, near: Option<Option<string>>, file: string)
    requires n.Call?
    ensures Errors(n, near, file) ==
            LocalErrors(n, near, file) +
            (AllErrors([n.func], near, file) + (AllErrors(n.args, near, file) + AllErrors(n.keywords, near, file)))
  {
    ChildrenInOrder(n, 0, near, file);
    assert Children(n)[0..] == Children(n) == [n.func] + (n.args + n.keywords);
    AllErrorsConcat([n.func], n.args + n.keywords, near, file);
    AllErrorsConcat(n.args, n.keywords, near, file);
  }

  /** Of a handler the caught expression's and the body's, both inside the handler. */
  lemma HandlerFieldsInOrder(n: Node, near: Option<Option<string>>, file: string)
    requires n.ExceptHandler?
    ensures Errors(n, near, file) == AllErrors(AsList(n.caught), Some(n.name), file) + AllErrors(n.body, Some(n.name), file)
  {
    HandlerErrors(n, near, file);
    ChildrenInOrder(n, 0, Some(n.name), file);
    assert Children(n)[0..] == Children(n);
    AllErrorsConcat(AsList(n.caught), n.body, Some(n.name), file);
  }

  // ----- every check, message by message

  /** The first dotted part. */
  predicate StartsAt(origin: string, package: string) {
    origin == package || package + "." <= origin
  }

  lemma SamePrefix(s: string, t: string)
    requires s != "" && t != "" && s[0] == t[0]
    ensures t <= s <==> t[1..] <= s[1..]
  {
    if |t| <= |s| {
      assert s[..|t|] == [s[0]] + s[1..][..|t| - 1];
      assert t == [t[0]] + t[1..];
      assert s[..|t|][1..] == s[1..][..|t| - 1];
    }
  }

  lemma {:induction false} RootExactlyWhen(s: string, package: string)
    requires '.' !in package
    ensures Root(s) == package <==> StartsAt(s, package)
    decreases |s|
  {
    if s == "" || s[0] == '.' {
      assert (package + ".")[0] == if package == "" then '.' else package[0];
      assert |package| < |s| ==> s[..|package| + 1][0] == s[0];
    } else {
      assert s == [s[0]] + s[1..];
      if package == "" {
        assert (package + ".")[0] == '.';
      } else {
        assert package == [package[0]] + package[1..];
        assert (package + ".")[1..] == package[1..] + ".";
        RootExactlyWhen(s[1..], package[1..]);
        if s[0] == package[0] {
          SamePrefix(s, package + ".");
        }
      }
    }
  }

  lemma UtcInAnyCase(s: string)
    ensures Lower(s) == "utc" <==>
            |s| == 3 && (s[0] == 'u' || s[0] == 'U') && (s[1] == 't' || s[1] == 'T') && (s[2] == 'c' || s[2] == 'C')
  {
    if Lower(s) == "utc" {
      assert Lower(s)[0] == 'u' && Lower(s)[1] == 't' && Lower(s)[2] == 'c';
    }
  }

  /** `part` stands somewhere in `s`. */
  lemma ContainsExactlyWhen(s: string, part: string)
    ensures Contains(s, part) <==> exists a, b :: s == a + part + b
  {
    if i :| 0 <= i <= |s| && OccursAt(s, part, i) {
      assert s == s[..i] + part + s[i + |part|..];
    }
    if a, b :| s == a + part + b {
      assert s[|a|..|a| + |part|] == part;
      assert OccursAt(s, part, |a|);
    }
  }

  predicate IsTestutils(origin: string) {
    Contains(origin, "sentry.testutils")
  }

  predicate MayNotUseTestutils(file: string) {
    !(Contains(file, "tests/") || Contains(file, "fixtures/") || Contains(file, "sentry/testutils/"))
  }

  predicate FromJson(origin: string) {
    StartsAt(origin, "json") || StartsAt(origin, "simplejson")
  }

  /** What each message means: when it is reported for a node, and where. */
  predicate Violates(n: Node, near: Option<Option<string>>, file: string, e: Error) {
    var absolute := n.ImportFrom? && n.origin != "" && n.level == 0;
    match e.message
    case S001(attr) =>
      n.Attribute? && e.pos == n.pos && n.attr == attr && attr in {"not_called", "called_once", "called_once_with"}
    case S002 => n.Name? && e.pos == n.pos && n.id == "print"
    case S003 =>
      || (absolute && e.pos == n.pos && FromJson(n.origin))
      || (n.Import? && e.pos == n.pos && exists i :: 0 <= i < |n.names| && FromJson(n.names[i]))
    case S004 => n.Attribute? && e.pos == n.pos && n.attr in {"assertRaises", "assertRaisesRegex"}
    case S005 => absolute && e.pos == n.pos && n.origin == "sentry.models"
    case S006 =>
      && absolute && e.pos == n.pos && n.origin == "django.utils.encoding"
      && Contains(file, "tests/") && ("force_bytes" in n.names || "force_str" in n.names)
    case S007 =>
      || (absolute && e.pos == n.pos && !FromJson(n.origin) && IsTestutils(n.origin) && MayNotUseTestutils(file))
      || (n.Import? && e.pos == n.pos &&
          exists i :: 0 <= i < |n.names| && !FromJson(n.names[i]) && IsTestutils(n.names[i]) && MayNotUseTestutils(file))
    case S008 =>
      || (absolute && e.pos == n.pos && n.origin == "pytz" && exists i :: 0 <= i < |n.names| && Lower(n.names[i]) == "utc")
      || (n.Attribute? && e.pos == n.pos && n.value.Name? && n.value.id == "pytz" && Lower(n.attr) == "utc")
    case S009 =>
      n.Raise? && e.pos == n.pos && n.exc.Some? && n.exc.value.Name? && near == Some(Some(n.exc.value.id))
    case S010 =>
      n.Try? && n.handlers != [] && var last := n.handlers[|n.handlers| - 1];
      && last.ExceptHandler? && e.pos == last.pos
      && |last.body| == 1 && last.body[0].Raise? && last.body[0].exc == None
    case S011 =>
      && n.Call?
      && ((n.func.Name? && n.func.id == "override_settings") ||
          (n.func.Attribute? && n.func.value.Name? && n.func.value.id == "self" && n.func.attr == "settings"))
      && exists i :: 0 <= i < |n.keywords| && n.keywords[i].Keyword? && n.keywords[i].arg == Some("SENTRY_OPTIONS") &&
                     e.pos == n.keywords[i].pos
  }

  lemma JsonExactlyWhen(origin: string)
    ensures IsJson(origin) <==> FromJson(origin)
  {
    RootExactlyWhen(origin, "json");
    RootExactlyWhen(origin, "simplejson");
  }

  /** Neither of the two exact module names is a test utility. */
  lemma NoTestutils(file: string)
    ensures !ImportsTestutils("sentry.models", file)
    ensures !ImportsTestutils("django.utils.encoding", file)
    ensures !FromJson("sentry.models") && !FromJson("django.utils.encoding")
  {
    var models, origin, part := "sentry.models", "django.utils.encoding", "sentry.testutils";
    assert models[0] == 's' && models[1] == 'e' && origin[0] == 'd';
    assert ("json" + ".")[0] == 'j' && ("simplejson" + ".")[0] == 's' && ("simplejson" + ".")[1] == 'i';
    forall i | 0 <= i <= |origin| - |part|
      ensures !OccursAt(origin, part, i)
    {
      assert origin[i..i + |part|][0] == origin[i] != 's';
    }
  }

  lemma {:induction false} ImportErrorsExactlyWhen(pos: Pos, names: seq<string>, file: string, e: Error)
    ensures e in ImportErrors(pos, names, file) <==>
            e.pos == pos && (exists i :: 0 <= i < |names| &&
                               ((e.message == S003 && FromJson(names[i])) ||
                                (e.message == S007 && !FromJson(names[i]) && ImportsTestutils(names[i], file))))
  {
    if names != [] {
      JsonExactlyWhen(names[0]);
      ImportErrorsExactlyWhen(pos, names[1..], file, e);
      assert forall i :: 0 < i < |names| ==> names[i] == names[1..][i - 1];
    }
  }

  lemma {:induction false} OptionErrorsExactlyWhen(keywords: seq<Node>, e: Error)
    ensures e in OptionErrors(keywords) <==>
            e.message == S011 && (exists i :: 0 <= i < |keywords| && keywords[i].Keyword? &&
                                    keywords[i].arg == Some("SENTRY_OPTIONS") && e.pos == keywords[i].pos)
  {
    if keywords != [] {
      OptionErrorsExactlyWhen(keywords[1..], e);
      assert forall i :: 0 < i < |keywords| ==> keywords[i] == keywords[1..][i - 1];
    }
  }

  lemma ModuleErrorsExactlyWhen(n: Node, file: string, e: Error)
    requires n.ImportFrom?
    ensures e in ModuleErrors(n, file) <==>
            && e.pos == n.pos
            && (|| (e.message == S003 && FromJson(n.origin))
                || (e.message == S005 && n.origin == "sentry.models")
                || (e.message == S006 && Contains(file, "tests/") && n.origin == "django.utils.encoding" &&
                    ("force_bytes" in n.names || "force_str" in n.names))
                || (e.message == S007 && !FromJson(n.origin) && ImportsTestutils(n.origin, file)))
  {
    JsonExactlyWhen(n.origin);
    NoTestutils(file);
  }

  lemma ImportFromErrorsExactlyWhen(n: Node, near: Option<Option<string>>, file: string, e: Error)
    requires n.ImportFrom?
    ensures e in ImportFromErrors(n, file) <==> Violates(n, near, file, e)
  {
    ModuleErrorsExactlyWhen(n, file, e);
  }

  lemma AttributeErrorsExactlyWhen(n: Node, near: Option<Option<string>>, file: string, e: Error)
    requires n.Attribute?
    ensures e in AttributeErrors(n) <==> Violates(n, near, file, e)
  {
    UtcInAnyCase(n.attr);
  }

  lemma TryErrorsExactlyWhen(n: Node, near: Option<Option<string>>, file: string, e: Error)
    requires n.Try? || n.Raise?
    ensures e in LocalErrors(n, near, file) <==> Violates(n, near, file, e)
  {}

  lemma CallErrorsExactlyWhen(n: Node, near: Option<Option<string>>, file: string, e: Error)
    requires n.Call?
    ensures e in LocalErrors(n, near, file) <==> Violates(n, near, file, e)
  {
    OptionErrorsExactlyWhen(n.keywords, e);
  }

  lemma ModuleImportErrorsExactlyWhen(n: Node, near: Option<Option<string>>, file: string, e: Error)
    requires n.Import?
    ensures e in LocalErrors(n, near, file) <==> Violates(n, near, file, e)
  {
    ImportErrorsExactlyWhen(n.pos, n.names, file, e);
  }

  lemma NameErrorsExactlyWhen(n: Node, near: Option<Option<string>>, file: string, e: Error)
    requires n.Name? || n.ExceptHandler? || n.Keyword? || n.Other?
    ensures e in LocalErrors(n, near, file) <==> Violates(n, near, file, e)
  {}

  lemma LocalErrorsExactlyWhen(n: Node, near: Option<Option<string>>, file: string, e: Error)
    ensures e in LocalErrors(n, near, file) <==> Violates(n, near, file, e)
  {
    match n
    case ImportFrom(_, _, _, _) => ImportFromErrorsExactlyWhen(n, near, file, e);
    case Import(_, _) => ModuleImportErrorsExactlyWhen(n, near, file, e);
    case Attribute(_, _, _) => AttributeErrorsExactlyWhen(n, near, file, e);
    case Try(_, _, _, _, _) => TryErrorsExactlyWhen(n, near, file, e);
    case Raise(_, _, _) => TryErrorsExactlyWhen(n, near, file, e);
    case Call(_, _, _, _) => CallErrorsExactlyWhen(n, near, file, e);
    case _ => NameErrorsExactlyWhen(n, near, file, e);
  }

  ghost predicate ViolatedAt(tree: Node, p: Path, file: string, e: Error) {
    ValidPath(tree, p) && Violates(NodeAt(tree, p), NearestHandler(tree, p, None), file, e)
  }

  /** An error is reported if and only if some node of the tree violates its rule, judged by that node
      and the nearest handler around it. */
  lemma ReportedExactlyWhenViolated(tree: Node, file: string, e: Error)
    ensures e in Errors(tree, None, file) <==> exists p :: ViolatedAt(tree, p, file, e)
  {
    ErrorsAreLocal(tree, None, file, e);
    forall p
      ensures ReportedAt(tree, p, None, file, e) <==> ViolatedAt(tree, p, file, e)
    {
      if ValidPath(tree, p) {
        LocalErrorsExactlyWhen(NodeAt(tree, p), NearestHandler(tree, p, None), file, e);
      }
    }
  }
}
