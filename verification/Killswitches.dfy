/** Killswitch conditions: normalizing what operators typed in, and matching it against an event. */
module Killswitches {
  import opened Wrappers

  datatype Value = Text(text: string) | Number(number: int)

  /** One entry of the option: a bare project id (the legacy format) or a condition. */
  datatype Raw = Legacy(id: int) | Cond(fields: map<string, Option<Value>>)

  type Condition = map<string, Option<string>>

  datatype Invalid = MissingField(index: nat) | UnknownField(index: nat)

  function Digits(n: nat): string {
    if n < 10 then ['0' + n as char] else Digits(n / 10) + ['0' + (n % 10) as char]
  }

  /** `str(v)` */
  function Str(v: Value): string {
    match v
    case Text(s) => s
    case Number(n) => if n < 0 then "-" + Digits(-n) else Digits(n)
  }

  function StrOrNone(v: Option<Value>): Option<string> {
    if v.Some? then Some(Str(v.value)) else None
  }

  /** The legacy format rewritten. */
  function AsCondition(r: Raw): map<string, Option<Value>> {
    match r
    case Legacy(id) => map["project_id" := Some(Text(Str(Number(id))))]
    case Cond(fields) => fields
  }

  function NormalizeOne(known: set<string>, r: Raw): Condition {
    var c := AsCondition(r);
    map k | k in c.Keys + known :: if k in c then StrOrNone(c[k]) else None
  }

  predicate HasAll(known: set<string>, r: Raw) {
    known <= AsCondition(r).Keys
  }

  /** All known fields and no others. */
  predicate Exact(known: set<string>, r: Raw) {
    AsCondition(r).Keys == known
  }

  predicate AllExact(known: set<string>, raw: seq<Raw>) {
    forall i :: 0 <= i < |raw| ==> Exact(known, raw[i])
  }

  /** The error of strict mode: the first entry that is not exact, a missing field before an unknown one. */
  predicate FirstOffender(known: set<string>, raw: seq<Raw>, error: Invalid) {
    && error.index < |raw|
    && AllExact(known, raw[..error.index])
    && !Exact(known, raw[error.index])
    && (error.MissingField? <==> !HasAll(known, raw[error.index]))
  }

  function Normalize(known: set<string>, raw: seq<Raw>): (c: seq<Condition>)
    ensures |c| == |raw| && forall i :: 0 <= i < |raw| ==> c[i] == NormalizeOne(known, raw[i])
  {
    seq(|raw|, i requires 0 <= i < |raw| => NormalizeOne(known, raw[i]))
  }

  /** The dictionary after missing fields were filled in. */
  function Filled(known: set<string>, c: map<string, Option<Value>>): map<string, Option<Value>> {
    map k | k in c.Keys + known :: if k in c then c[k] else None
  }

  lemma FillingTwiceIsFillingOnce(known: set<string>, c: map<string, Option<Value>>)
    ensures Filled(known, Filled(known, c)) == Filled(known, c)
    ensures NormalizeOne(known, Cond(Filled(known, c))) == NormalizeOne(known, Cond(c))
    ensures known <= c.Keys ==> Filled(known, c) == c
  {}

  // ----- the code

  /** A dictionary of the option, shared with whoever holds the option. */
  class Fields {
    var entries: map<string, Option<Value>>

    constructor (entries: map<string, Option<Value>>)
      ensures this.entries == entries
    {
      this.entries := entries;
    }

    /** The first inner loop; false if it raises. */
    method FillMissing(known: set<string>, strict: bool) returns (ok: bool)
      modifies this
      ensures ok <==> !strict || known <= old(entries).Keys
      ensures entries == if strict then old(entries) else Filled(known, old(entries))
    {
      var rest := known;
      while rest != {}
        invariant rest <= known
        invariant strict ==> entries == old(entries) && known - rest <= entries.Keys
        invariant !strict ==> entries == Filled(known - rest, old(entries))
        decreases rest
      {
        var k :| k in rest;
        if k !in entries {
          if strict {
            return false;
          }
          entries := entries[k := None];
        }
        rest := rest - {k};
      }
      assert known - {} == known;
      return true;
    }
  }

  datatype Entry = Id(id: int) | Given(fields: Fields)

  function Dictionaries(option: seq<Entry>): set<Fields> {
    set e | e in option && e.Given? :: e.fields
  }

  function Typed(e: Entry): Raw
    reads if e.Given? then {e.fields} else {}
  {
    match e
    case Id(id) => Legacy(id)
    case Given(fields) => Cond(fields.entries)
  }

  /** What the option holds right now. */
  function AllTyped(option: seq<Entry>): (raw: seq<Raw>)
    reads Dictionaries(option)
    ensures |raw| == |option| && forall i :: 0 <= i < |option| ==> raw[i] == Typed(option[i])
  {
    if option == [] then []
    else
      var front := option[..|option| - 1];
      assert Dictionaries(front) <= Dictionaries(option);
      assert forall i :: 0 <= i < |front| ==> front[i] == option[i];
      AllTyped(front) + [Typed(option[|option| - 1])]
  }

  /** The body of the loop, on the `i`-th entry. */
  method NormalizeEntry(known: set<string>, e: Entry, i: nat, strict: bool) returns (r: Result<Condition, Invalid>)
    modifies if e.Given? then {e.fields} else {}
    ensures r.Ok? <==> !strict || Exact(known, old(Typed(e)))
    ensures r.Ok? ==> r.value == NormalizeOne(known, old(Typed(e)))
    ensures r.Err? ==> r.error == if !HasAll(known, old(Typed(e))) then MissingField(i) else UnknownField(i)
    ensures e.Given? ==> e.fields.entries == if strict then old(e.fields.entries) else Filled(known, old(e.fields.entries))
  {
    var condition;
    if e.Given? {
      condition := e.fields;
    } else {
      condition := new Fields(AsCondition(Legacy(e.id)));
    }
    FillingTwiceIsFillingOnce(known, condition.entries);
    var ok := condition.FillMissing(known, strict);
    if !ok {
      return Err(MissingField(i));
    }
    if strict {
      var unknown := set k | k in condition.entries && k !in known;
      if unknown != {} {
        var u :| u in unknown;
        return Err(UnknownField(i));
      }
      assert forall k :: k in condition.entries && k !in known ==> k in unknown;
    }
    return Ok(map k | k in condition.entries :: StrOrNone(condition.entries[k]));
  }

  /** An entry keeps its meaning when it is filled in, which is why entries may share a dictionary. */
  lemma FillingKeepsMeaning(known: set<string>, before: Raw, now: Raw)
    requires now == before || (before.Cond? && now == Cond(Filled(known, before.fields)))
    ensures NormalizeOne(known, now) == NormalizeOne(known, before)
  {
    if before.Cond? {
      FillingTwiceIsFillingOnce(known, before.fields);
    }
  }

  lemma NextEntry(option: seq<Entry>, i: nat)
    requires i < |option|
    ensures option[i].Given? ==> option[i].fields in Dictionaries(option)
    ensures Dictionaries(option[..i + 1]) == Dictionaries(option[..i]) + if option[i].Given? then {option[i].fields} else {}
  {
    assert option[..i + 1] == option[..i] + [option[i]];
    assert option[i] in option;
  }

  lemma NextCondition(known: set<string>, raw: seq<Raw>, i: nat)
    requires i < |raw|
    ensures Normalize(known, raw[..i + 1]) == Normalize(known, raw[..i]) + [NormalizeOne(known, raw[i])]
    ensures AllExact(known, raw[..i + 1]) <==> AllExact(known, raw[..i]) && Exact(known, raw[i])
  {
    assert raw[..i + 1] == raw[..i] + [raw[i]];
    forall j | 0 <= j < i
      ensures raw[..i + 1][j] == raw[..i][j]
    {}
  }

  /** The loop before its `i`-th round: in non-strict mode the dictionaries met so far are filled in. */
  ghost predicate FilledUpTo(known: set<string>, option: seq<Entry>, i: nat, strict: bool,
                             before: map<Fields, map<string, Option<Value>>>)
    requires i <= |option|
    reads Dictionaries(option)
  {
    forall d :: d in Dictionaries(option) ==>
      && d in before
      && d.entries == if !strict && d in Dictionaries(option[..i]) then Filled(known, before[d]) else before[d]
  }

  /** What the `i`-th entry held at first. */
  function TypedAtFirst(e: Entry, before: map<Fields, map<string, Option<Value>>>): Raw
    requires e.Given? ==> e.fields in before
  {
    match e
    case Id(id) => Legacy(id)
    case Given(fields) => Cond(before[fields])
  }

  /** One round of the loop. */
  method NormalizeNext(known: set<string>, option: seq<Entry>, i: nat, strict: bool,
                       ghost before: map<Fields, map<string, Option<Value>>>)
    returns (r: Result<Condition, Invalid>)
    requires i < |option| && FilledUpTo(known, option, i, strict, before)
    modifies if option[i].Given? then {option[i].fields} else {}
    ensures option[i].Given? ==> option[i].fields in before
    ensures var raw := TypedAtFirst(option[i], before);
            && (r.Ok? <==> !strict || Exact(known, raw))
            && (r.Ok? ==> r.value == NormalizeOne(known, raw))
            && (r.Err? ==> r.error == if !HasAll(known, raw) then MissingField(i) else UnknownField(i))
    ensures FilledUpTo(known, option, i + 1, strict, before)
  {
    var e := option[i];
    NextEntry(option, i);
    if e.Given? {
      FillingTwiceIsFillingOnce(known, before[e.fields]);
    }
    FillingKeepsMeaning(known, TypedAtFirst(e, before), Typed(e));
    r := NormalizeEntry(known, e, i, strict);
  }

  /** `normalize_value`.  Strictly, the first condition without exactly the known fields is an error and
      nothing is changed; otherwise the option's own dictionaries are filled in, entries that share a
      dictionary included. */
  method NormalizeValue(known: set<string>, option: seq<Entry>, strict: bool) returns (r: Result<seq<Condition>, Invalid>)
    modifies Dictionaries(option)
    ensures var raw := old(AllTyped(option));
            if !strict || AllExact(known, raw) then r == Ok(Normalize(known, raw))
            else r.Err? && FirstOffender(known, raw, r.error)
    ensures forall d :: d in Dictionaries(option) ==>
              d.entries == if strict then old(d.entries) else Filled(known, old(d.entries))
  {
    ghost var raw := AllTyped(option);
    ghost var before := map d | d in Dictionaries(option) :: d.entries;
    var rv: seq<Condition> := [];
    assert Dictionaries(option[..0]) == {};
    for i := 0 to |option|
      invariant rv == Normalize(known, raw[..i])
      invariant strict ==> AllExact(known, raw[..i])
      invariant FilledUpTo(known, option, i, strict, before)
    {
      NextEntry(option, i);
      assert raw[i] == TypedAtFirst(option[i], before);
      var condition := NormalizeNext(known, option, i, strict, before);
      if condition.Err? {
        assert FirstOffender(known, raw, condition.error);
        return Err(condition.error);
      }
      rv := rv + [condition.value];
      NextCondition(known, raw, i);
    }
    assert raw[..|raw|] == raw && option[..|option|] == option;
    r := Ok(rv);
  }

  type Context = map<string, Option<Value>>

  predicate FieldMatches(c: Condition, field: string, context: Context)
    requires field in c
  {
    c[field] == None || (field in context && context[field].Some? && Str(context[field].value) == c[field].value)
  }

  predicate AllMatch(c: Condition, context: Context) {
    forall f :: f in c ==> FieldMatches(c, f, context)
  }

  /** The inner loop of `_value_matches`: false if it breaks. */
  method ConditionMatches(c: Condition, context: Context) returns (matched: bool)
    ensures matched <==> AllMatch(c, context)
  {
    var fields := c.Keys;
    while fields != {}
      invariant fields <= c.Keys
      invariant forall f :: f in c.Keys - fields ==> FieldMatches(c, f, context)
      decreases fields
    {
      var field :| field in fields;
      fields := fields - {field};
      var wanted := c[field];
      if wanted.Some? {
        var value := if field in context then context[field] else None;
        if value == None || Str(value.value) != wanted.value {
          assert !FieldMatches(c, field, context);
          return false;
        }
      }
    }
    return true;
  }

  predicate AnyMatches(conditions: seq<Condition>, context: Context) {
    exists i :: 0 <= i < |conditions| && AllMatch(conditions[i], context)
  }

  /** Its outer loop. */
  method SomeConditionMatches(conditions: seq<Condition>, context: Context) returns (matched: bool)
    ensures matched <==> AnyMatches(conditions, context)
  {
    for i := 0 to |conditions|
      invariant forall j :: 0 <= j < i ==> !AllMatch(conditions[j], context)
    {
      matched := ConditionMatches(conditions[i], context);
      if matched {
        return;
      }
    }
    return false;
  }

  /** `_value_matches`: any condition all of whose given fields match. */
  method ValueMatches(known: set<string>, option: seq<Entry>, context: Context) returns (matched: bool)
    modifies Dictionaries(option)
    ensures matched <==> AnyMatches(Normalize(known, old(AllTyped(option))), context)
    ensures forall d :: d in Dictionaries(option) ==> d.entries == Filled(known, old(d.entries))
  {
    var normalized := NormalizeValue(known, option, false);
    matched := SomeConditionMatches(normalized.value, context);
  }

  // ----- what normalizing does not change

  function AsRaw(c: Condition): Raw {
    Cond(map k | k in c :: if c[k].Some? then Some(Text(c[k].value)) else None)
  }

  function AsRaws(cs: seq<Condition>): seq<Raw> {
    seq(|cs|, i requires 0 <= i < |cs| => AsRaw(cs[i]))
  }

  /** Normalizing twice is normalizing once. */
  lemma NormalizeIsIdempotent(known: set<string>, raw: seq<Raw>)
    ensures Normalize(known, AsRaws(Normalize(known, raw))) == Normalize(known, raw)
  {
    var once := Normalize(known, raw);
    forall i | 0 <= i < |raw|
      ensures NormalizeOne(known, AsRaw(once[i])) == once[i]
    {
      assert once[i] == NormalizeOne(known, raw[i]);
    }
  }

  /** What the operator typed, taken at its word: given fields must match, others are wildcards. */
  predicate RawMatches(r: Raw, context: Context) {
    var c := AsCondition(r);
    forall f :: f in c && c[f].Some? ==> f in context && context[f].Some? && Str(context[f].value) == Str(c[f].value)
  }

  /** Filling in missing fields changes no decision, whatever fields the killswitch knows. */
  lemma NormalizingKeepsMatches(known: set<string>, raw: seq<Raw>, context: Context)
    ensures AnyMatches(Normalize(known, raw), context) <==>
            (exists i :: 0 <= i < |raw| && RawMatches(raw[i], context))
  {
    forall i | 0 <= i < |raw|
      ensures AllMatch(Normalize(known, raw)[i], context) <==> RawMatches(raw[i], context)
    {
      var c, n := AsCondition(raw[i]), NormalizeOne(known, raw[i]);
      assert Normalize(known, raw)[i] == n;
      if AllMatch(n, context) {
        assert forall f :: f in c ==> f in n && FieldMatches(n, f, context);
      }
    }
  }

  /** A normalized condition has every known field and every given one, each as text; fields that were
      not given are wildcards. */
  lemma NormalizedFields(known: set<string>, r: Raw, f: string)
    ensures var n, c := NormalizeOne(known, r), AsCondition(r);
            && (f in n <==> f in known || f in c)
            && (f in n ==> (n[f] == None <==> f !in c || c[f] == None))
            && (f in n && n[f].Some? ==> n[f].value == Str(c[f].value))
  {}

  /** What was normalized passes strict validation exactly if no unknown field was given. */
  lemma NormalizedIsExactExactlyWhen(known: set<string>, r: Raw)
    ensures Exact(known, AsRaw(NormalizeOne(known, r))) <==> forall f :: f in AsCondition(r) ==> f in known
  {
    if forall f :: f in AsCondition(r) ==> f in known {
      assert AsRaw(NormalizeOne(known, r)).fields.Keys == known;
    } else {
      var f :| f in AsCondition(r) && f !in known;
      assert f in AsRaw(NormalizeOne(known, r)).fields;
    }
  }

  /** There is one first offender, and what is wrong with it is a missing field if it has one. */
  lemma FirstOffenderIsUnique(known: set<string>, raw: seq<Raw>, e: Invalid, other: Invalid)
    requires FirstOffender(known, raw, e)
    ensures !AllExact(known, raw)
    ensures FirstOffender(known, raw, other) <==> other == e
    ensures e.MissingField? <==> exists f :: f in known && f !in AsCondition(raw[e.index])
    ensures e.UnknownField? ==> exists f :: f in AsCondition(raw[e.index]) && f !in known
  {
    assert forall i: nat, j: nat :: i < j <= |raw| ==> raw[..j][i] == raw[i];
    assert Exact(known, raw[e.index]) <==>
      (forall f :: f in known ==> f in AsCondition(raw[e.index])) && (forall f :: f in AsCondition(raw[e.index]) ==> f in known);
  }

  // ----- ids as text

  function Value10(s: string): int {
    if s == "" then 0 else 10 * Value10(s[..|s| - 1]) + (s[|s| - 1] as int - '0' as int)
  }

  /** Reading the digits back gives the number. */
  lemma {:induction false} DigitsRoundTrip(n: nat)
    ensures Digits(n) != "" && Value10(Digits(n)) == n
    ensures forall i :: 0 <= i < |Digits(n)| ==> '0' <= Digits(n)[i] <= '9'
  {
    if n < 10 {
      assert Digits(n)[..0] == "";
    } else {
      DigitsRoundTrip(n / 10);
      assert Digits(n)[..|Digits(n)| - 1] == Digits(n / 10);
    }
  }

  lemma TextOfNumber(n: int)
    ensures Str(Number(n)) != "" && (Str(Number(n))[0] == '-' <==> n < 0)
    ensures n == if n < 0 then -Value10(Str(Number(n))[1..]) else Value10(Str(Number(n)))
  {
    DigitsRoundTrip(if n < 0 then -n else n);
    assert n < 0 ==> Str(Number(n))[1..] == Digits(-n);
  }

  /** Different numbers are different texts. */
  lemma NumbersStayApart(m: int, n: int)
    ensures Str(Number(m)) == Str(Number(n)) <==> m == n
  {
    TextOfNumber(m);
    TextOfNumber(n);
  }

  /** An id in the legacy format matches exactly the contexts of that project. */
  lemma LegacyMatchesItsProject(id: int, project: int, context: Context)
    requires "project_id" in context && context["project_id"] == Some(Number(project))
    ensures RawMatches(Legacy(id), context) <==> project == id
  {
    NumbersStayApart(project, id);
    assert "project_id" in AsCondition(Legacy(id));
  }
}
