/**
 Feature flags: reading them from dictionaries, writing them back, and rolling them out.  `str` and
 `int` of arbitrary values are parameters of which only the obvious facts are used.
 */
module Flagpole {
  import opened Wrappers

  datatype Value = Null | Boolean(b: bool) | Integer(i: int) | Text(s: string) | List(items: seq<Value>)
                 | Dict(entries: map<string, Value>)

  datatype Operator = In | NotIn | Contains | NotContains | Equals | NotEquals

  datatype Condition = Condition(property: string, value: Value, operator: Operator)

  datatype Segment = Segment(name: string, conditions: seq<Condition>, rollout: Option<int>)

  datatype Feature = Feature(name: string, owner: string, enabled: bool, segments: seq<Segment>, createdAt: Option<string>)

  /** Python's conversions. */
  datatype Python = Python(str: Value -> string, toInt: Value -> Option<int>) {
    ghost predicate Valid() {
      && (forall s :: str(Text(s)) == s)
      && (forall i :: toInt(Integer(i)) == Some(i))
      && toInt(Null) == None
    }
  }

  function Truthy(v: Value): bool {
    match v
    case Null => false
    case Boolean(b) => b
    case Integer(i) => i != 0
    case Text(s) => s != ""
    case List(items) => items != []
    case Dict(entries) => entries != map[]
  }

  function Get(d: map<string, Value>, k: string, default: Value): Value {
    if k in d then d[k] else default
  }

  /** What a `for` loop makes of a value that should be a list of dictionaries: an empty string or
      dictionary passes for an empty list, a non-empty one yields strings, which are not dictionaries. */
  function Iterate(v: Value): Option<seq<Value>> {
    match v
    case List(items) => Some(items)
    case Text(s) => if s == "" then Some([]) else None
    case Dict(entries) => if entries == map[] then Some([]) else None
    case _ => None
  }

  /** A list comprehension over entries that may fail to be read. */
  function ReadList<A>(read: Value -> Option<A>, vs: seq<Value>): (r: Option<seq<A>>)
    ensures r.Some? <==> forall i :: 0 <= i < |vs| ==> read(vs[i]).Some?
    ensures r.Some? ==> |r.value| == |vs| && forall i :: 0 <= i < |vs| ==> r.value[i] == read(vs[i]).value
  {
    if vs == [] then Some([])
    else
      var front, last := ReadList(read, vs[..|vs| - 1]), read(vs[|vs| - 1]);
      assert forall i :: 0 <= i < |vs| - 1 ==> vs[..|vs| - 1][i] == vs[i];
      if front.Some? && last.Some? then Some(front.value + [last.value]) else None
  }

  function WriteList<A>(write: A -> Value, xs: seq<A>): seq<Value> {
    seq(|xs|, i requires 0 <= i < |xs| => write(xs[i]))
  }

  /** A list is read back unless some entry is not. */
  lemma ListRoundTrip<A>(read: Value -> Option<A>, write: A -> Value, xs: seq<A>)
    requires forall x :: read(write(x)) == None || read(write(x)) == Some(x)
    ensures ReadList(read, WriteList(write, xs)) ==
            if forall i :: 0 <= i < |xs| ==> read(write(xs[i])).Some? then Some(xs) else None
  {
    var vs := WriteList(write, xs);
    assert forall i :: 0 <= i < |vs| ==> vs[i] == write(xs[i]);
    if forall i :: 0 <= i < |xs| ==> read(write(xs[i])).Some? {
      assert ReadList(read, vs).value == xs;
    }
  }

  // ----- reading

  function OperatorName(op: Operator): string {
    match op
    case In => "in"
    case NotIn => "not_in"
    case Contains => "contains"
    case NotContains => "not_contains"
    case Equals => "equals"
    case NotEquals => "not_equals"
  }

  function OperatorOf(v: Value): Option<Operator> {
    if v == Text("in") then Some(In)
    else if v == Text("not_in") then Some(NotIn)
    else if v == Text("contains") then Some(Contains)
    else if v == Text("not_contains") then Some(NotContains)
    else if v == Text("equals") then Some(Equals)
    else if v == Text("not_equals") then Some(NotEquals)
    else None
  }

  /** `condition_from_dict`; an unknown operator is a ValueError. */
  function ConditionFromDict(py: Python, v: Value): Option<Condition> {
    if !v.Dict? then None
    else
      match OperatorOf(Get(v.entries, "operator", Text("invalid")))
      case None => None
      case Some(op) => Some(Condition(py.str(Get(v.entries, "property", Null)), Get(v.entries, "value", Null), op))
  }

  /** `Segment.from_dict` */
  function SegmentFromDict(py: Python, v: Value): Option<Segment> {
    if !v.Dict? then None
    else
      var list, rollout := Iterate(Get(v.entries, "conditions", List([]))), py.toInt(Get(v.entries, "rollout", Integer(100)));
      if list == None || rollout == None then None
      else
        match ReadList(c => ConditionFromDict(py, c), list.value)
        case None => None
        case Some(cs) => Some(Segment(py.str(Get(v.entries, "name", Text(""))), cs, rollout))
  }

  /** `from_feature_dictionary`; None is InvalidFeatureFlagConfiguration. */
  function FromFeatureDictionary(py: Python, name: string, d: map<string, Value>): Option<Feature> {
    var segments := Get(d, "segments", Null);
    if !segments.List? then None
    else
      match ReadList(s => SegmentFromDict(py, s), segments.items)
      case None => None
      case Some(ss) => Some(Feature(name, py.str(Get(d, "owner", Text(""))), Truthy(Get(d, "enabled", Boolean(true))), ss,
                                    Some(py.str(Get(d, "created_at", Null)))))
  }

  // ----- writing

  function ConditionDict(c: Condition): Value {
    Dict(map["property" := Text(c.property), "value" := c.value, "operator" := Text(OperatorName(c.operator))])
  }

  function SegmentDict(s: Segment): Value {
    Dict(map["name" := Text(s.name),
             "conditions" := List(WriteList(ConditionDict, s.conditions)),
             "rollout" := if s.rollout.Some? then Integer(s.rollout.value) else Null])
  }

  /** `to_dict`, the entry under the feature's name. */
  function ToDict(f: Feature): map<string, Value> {
    map["owner" := Text(f.owner), "enabled" := Boolean(f.enabled),
        "segments" := List(WriteList(SegmentDict, f.segments)),
        "created_at" := if f.createdAt.Some? then Text(f.createdAt.value) else Null]
  }

  // ----- the round trip

  lemma ConditionRoundTrip(py: Python, c: Condition)
    requires py.Valid()
    ensures ConditionFromDict(py, ConditionDict(c)) == Some(c)
  {
    var entries := ConditionDict(c).entries;
    assert entries["operator"] == Text(OperatorName(c.operator)) && entries["property"] == Text(c.property);
  }

  lemma ConditionsRoundTrip(py: Python, cs: seq<Condition>)
    requires py.Valid()
    ensures ReadList(c => ConditionFromDict(py, c), WriteList(ConditionDict, cs)) == Some(cs)
  {
    forall c
      ensures ConditionFromDict(py, ConditionDict(c)) == Some(c)
    {
      ConditionRoundTrip(py, c);
    }
    ListRoundTrip(c => ConditionFromDict(py, c), ConditionDict, cs);
  }

  lemma SegmentFromParts(py: Python, s: Segment, d: map<string, Value>)
    requires py.Valid()
    requires "name" in d && d["name"] == Text(s.name)
    requires "conditions" in d && d["conditions"] == List(WriteList(ConditionDict, s.conditions))
    requires "rollout" in d && d["rollout"] == if s.rollout.Some? then Integer(s.rollout.value) else Null
    ensures SegmentFromDict(py, Dict(d)) == if s.rollout.Some? then Some(s) else None
  {
    ConditionsRoundTrip(py, s.conditions);
  }

  /** A segment is read back unless its rollout is None, which `int` rejects. */
  lemma SegmentRoundTrip(py: Python, s: Segment)
    requires py.Valid()
    ensures SegmentFromDict(py, SegmentDict(s)) == if s.rollout.Some? then Some(s) else None
  {
    SegmentFromParts(py, s, SegmentDict(s).entries);
  }

  lemma SegmentsRoundTrip(py: Python, ss: seq<Segment>)
    requires py.Valid()
    ensures ReadList(s => SegmentFromDict(py, s), WriteList(SegmentDict, ss)) ==
            if forall i :: 0 <= i < |ss| ==> ss[i].rollout.Some? then Some(ss) else None
  {
    forall s
      ensures SegmentFromDict(py, SegmentDict(s)) == if s.rollout.Some? then Some(s) else None
    {
      SegmentRoundTrip(py, s);
    }
    ListRoundTrip(s => SegmentFromDict(py, s), SegmentDict, ss);
  }

  predicate FullySpecified(f: Feature) {
    f.createdAt.Some? && forall i :: 0 <= i < |f.segments| ==> f.segments[i].rollout.Some?
  }

  lemma FeatureFromParts(py: Python, f: Feature, d: map<string, Value>)
    requires py.Valid()
    requires "owner" in d && d["owner"] == Text(f.owner)
    requires "enabled" in d && d["enabled"] == Boolean(f.enabled)
    requires "segments" in d && d["segments"] == List(WriteList(SegmentDict, f.segments))
    requires "created_at" in d && d["created_at"] == if f.createdAt.Some? then Text(f.createdAt.value) else Null
    ensures FromFeatureDictionary(py, f.name, d) == Some(f) <==> FullySpecified(f)
  {
    SegmentsRoundTrip(py, f.segments);
  }

  /** Writing and reading a feature gives it back exactly when it has a creation date and every segment a
      rollout: a missing date comes back as text, a missing rollout is rejected. */
  lemma RoundTripsExactlyWhen(py: Python, f: Feature)
    requires py.Valid()
    ensures FromFeatureDictionary(py, f.name, ToDict(f)) == Some(f) <==> FullySpecified(f)
  {
    FeatureFromParts(py, f, ToDict(f));
  }

  /** Every feature that was read from a dictionary survives writing and reading. */
  lemma ParsedFeaturesRoundTrip(py: Python, name: string, d: map<string, Value>)
    requires py.Valid() && FromFeatureDictionary(py, name, d).Some?
    ensures var f := FromFeatureDictionary(py, name, d).value;
            FromFeatureDictionary(py, f.name, ToDict(f)) == Some(f)
  {
    var f := FromFeatureDictionary(py, name, d).value;
    RoundTripsExactlyWhen(py, f);
  }

  // ----- rollout

  /** `Segment.in_rollout` */
  predicate InRollout(rollout: Option<int>, id: int) {
    if rollout == Some(0) then false
    else if rollout.Some? && rollout.value < 100 then id % 100 <= rollout.value
    else true
  }

  /** How many of the `n` ids from `first` on are granted. */
  function Granted(rollout: Option<int>, first: int, n: nat): nat {
    if n == 0 then 0 else Granted(rollout, first, n - 1) + if InRollout(rollout, first + n - 1) then 1 else 0
  }

  /** Ids that differ by a multiple of 100 share a bucket. */
  lemma RolloutRepeats(rollout: Option<int>, id: int, k: int)
    ensures InRollout(rollout, id) <==> InRollout(rollout, id + 100 * k)
  {
    assert (id + 100 * k) % 100 == id % 100;
  }

  lemma {:induction false} GrantedCount(r: int, buckets: nat)
    requires buckets <= 100
    ensures Granted(Some(r), 0, buckets) ==
            if r <= 0 then 0 else if r >= 100 || buckets <= r then buckets else r + 1
  {
    if buckets > 0 {
      GrantedCount(r, buckets - 1);
    }
  }

  lemma {:induction false} DropFirst(rollout: Option<int>, first: int, n: nat)
    requires n > 0
    ensures Granted(rollout, first, n) == Granted(rollout, first + 1, n - 1) + if InRollout(rollout, first) then 1 else 0
  {
    if n > 1 {
      DropFirst(rollout, first, n - 1);
    }
  }

  lemma NextWindow(rollout: Option<int>, first: int)
    ensures Granted(rollout, first, 100) == Granted(rollout, first + 1, 100)
  {
    DropFirst(rollout, first, 100);
    RolloutRepeats(rollout, first, 1);
  }

  /** Any hundred consecutive ids are granted as often as the first hundred. */
  lemma {:induction false} WindowsAreAlike(rollout: Option<int>, first: int)
    ensures Granted(rollout, first, 100) == Granted(rollout, 0, 100)
    decreases if first < 0 then -first else first
  {
    if first < 0 {
      NextWindow(rollout, first);
      WindowsAreAlike(rollout, first + 1);
    } else if first > 0 {
      NextWindow(rollout, first - 1);
      WindowsAreAlike(rollout, first - 1);
    }
  }

  /** The rollout is documented as the number of buckets that get the feature.  Among any hundred
      consecutive ids it is at 0 and at 100; every rate between grants one id more. */
  lemma RolloutGrantsItsRateExactlyWhen(r: int, first: int)
    requires 0 <= r <= 100
    ensures Granted(Some(r), first, 100) == r <==> r == 0 || r == 100
    ensures 0 < r < 100 ==> Granted(Some(r), first, 100) == r + 1
  {
    WindowsAreAlike(Some(r), first);
    GrantedCount(r, 100);
  }

  /** Every id is granted exactly without a rollout, or with a rate of 99 or more; none is exactly with a
      rate of 0 or less. */
  lemma GrantsAllOrNoneExactlyWhen(rollout: Option<int>)
    ensures (forall id :: InRollout(rollout, id)) <==> rollout == None || rollout.value >= 99
    ensures (forall id :: !InRollout(rollout, id)) <==> rollout.Some? && rollout.value <= 0
  {
    if rollout.Some? && rollout.value < 99 {
      assert !InRollout(rollout, 99);
    }
    if rollout == None || rollout.value > 0 {
      assert InRollout(rollout, 0);
    }
  }

  // ----- defaults

  /** What counts as false: the empty value of each kind. */
  lemma FalsyExactlyWhen(v: Value)
    ensures !Truthy(v) <==> v in {Null, Boolean(false), Integer(0), Text(""), List([]), Dict(map[])}
  {}

  lemma OperatorsAreNamed(v: Value)
    ensures OperatorOf(v) == None <==>
            v !in {Text("in"), Text("not_in"), Text("contains"), Text("not_contains"), Text("equals"), Text("not_equals")}
    ensures OperatorOf(v).Some? ==> v == Text(OperatorName(OperatorOf(v).value))
    ensures OperatorName(In) == "in" && OperatorName(NotIn) == "not_in"
    ensures OperatorName(Contains) == "contains" && OperatorName(NotContains) == "not_contains"
    ensures OperatorName(Equals) == "equals" && OperatorName(NotEquals) == "not_equals"
  {}

  /** Under which keys everything is written. */
  lemma WrittenKeys(f: Feature, s: Segment, c: Condition)
    ensures ToDict(f).Keys == {"owner", "enabled", "segments", "created_at"}
    ensures SegmentDict(s).entries.Keys == {"name", "conditions", "rollout"}
    ensures ConditionDict(c).entries.Keys == {"property", "value", "operator"}
  {}

  /** A condition without an operator is rejected; one without a value gets None, and one without a
      property the text of None. */
  lemma ConditionDefaults(py: Python, d: map<string, Value>)
    ensures "operator" !in d ==> ConditionFromDict(py, Dict(d)) == None
    ensures "value" !in d ==> ConditionFromDict(py, Dict(d)) == ConditionFromDict(py, Dict(d["value" := Null]))
    ensures "property" !in d ==> ConditionFromDict(py, Dict(d)) == ConditionFromDict(py, Dict(d["property" := Null]))
  {
    OperatorsAreNamed(Text("invalid"));
  }

  /** A segment without a name is called "", one without conditions has none, and one without a rollout
      is rolled out to everybody. */
  lemma SegmentDefaults(py: Python, d: map<string, Value>)
    ensures "name" !in d ==> SegmentFromDict(py, Dict(d)) == SegmentFromDict(py, Dict(d["name" := Text("")]))
    ensures "conditions" !in d ==> SegmentFromDict(py, Dict(d)) == SegmentFromDict(py, Dict(d["conditions" := List([])]))
    ensures "rollout" !in d ==> SegmentFromDict(py, Dict(d)) == SegmentFromDict(py, Dict(d["rollout" := Integer(100)]))
  {}

  /** Conditions may be given as any empty list, text or dictionary; a non-empty text or dictionary, or
      any other value, is rejected. */
  lemma ConditionsMayBeEmpty(py: Python, d: map<string, Value>, v: Value)
    requires !v.List?
    ensures SegmentFromDict(py, Dict(d["conditions" := v])) ==
            if v == Text("") || v == Dict(map[]) then SegmentFromDict(py, Dict(d["conditions" := List([])])) else None
  {}

  /** A feature without segments is rejected; one without an owner has "", one without `enabled` is
      enabled, and one without a date gets the text of None. */
  lemma FeatureDefaults(py: Python, name: string, d: map<string, Value>)
    ensures "segments" !in d ==> FromFeatureDictionary(py, name, d) == None
    ensures "owner" !in d ==> FromFeatureDictionary(py, name, d) == FromFeatureDictionary(py, name, d["owner" := Text("")])
    ensures "enabled" !in d ==> FromFeatureDictionary(py, name, d) == FromFeatureDictionary(py, name, d["enabled" := Boolean(true)])
    ensures "created_at" !in d ==> FromFeatureDictionary(py, name, d) == FromFeatureDictionary(py, name, d["created_at" := Null])
  {}

  // ----- matching

  /** What evaluating a condition, a segment or a feature can come to; a condition raises when the types
      of its value and of the context's property do not fit its operator. */
  datatype Outcome = Yes | No | Raises

  /** The first condition that does not hold decides; none means yes. */
  predicate ConditionDecides(s: Segment, eval: Condition -> Outcome, i: nat) {
    && i < |s.conditions|
    && eval(s.conditions[i]) != Yes
    && forall j :: 0 <= j < i ==> eval(s.conditions[j]) == Yes
  }

  /** `Segment.match` as a function. */
  function SegmentOutcome(conditions: seq<Condition>, eval: Condition -> Outcome): Outcome {
    if conditions == [] then Yes
    else if eval(conditions[0]) != Yes then eval(conditions[0])
    else SegmentOutcome(conditions[1..], eval)
  }

  /** `Segment.match` */
  method MatchSegment(s: Segment, eval: Condition -> Outcome) returns (matched: Outcome)
    ensures matched == SegmentOutcome(s.conditions, eval)
    ensures matched == Yes <==> forall i :: 0 <= i < |s.conditions| ==> eval(s.conditions[i]) == Yes
    ensures matched != Yes ==> exists i: nat :: ConditionDecides(s, eval, i) && matched == eval(s.conditions[i])
  {
    for i := 0 to |s.conditions|
      invariant forall j :: 0 <= j < i ==> eval(s.conditions[j]) == Yes
      invariant SegmentOutcome(s.conditions[i..], eval) == SegmentOutcome(s.conditions, eval)
    {
      assert s.conditions[i..][1..] == s.conditions[i + 1..];
      if eval(s.conditions[i]) != Yes {
        assert ConditionDecides(s, eval, i);
        return eval(s.conditions[i]);
      }
    }
    return Yes;
  }

  /** The segment that decides: the first that is not a plain no. */
  predicate Decides(f: Feature, eval: Condition -> Outcome, i: nat) {
    && i < |f.segments|
    && SegmentOutcome(f.segments[i].conditions, eval) != No
    && forall j :: 0 <= j < i ==> SegmentOutcome(f.segments[j].conditions, eval) == No
  }

  /** `Feature.match`; `eval` is how conditions evaluate in the context, `id` the context's id.  A
      deciding segment that keeps the id out denies the feature whatever follows it, and one that raises
      does so only if no segment before it matched. */
  method Match(f: Feature, eval: Condition -> Outcome, id: int) returns (granted: Outcome)
    ensures granted == Yes <==> f.enabled && exists i: nat ::
              && Decides(f, eval, i)
              && SegmentOutcome(f.segments[i].conditions, eval) == Yes
              && InRollout(f.segments[i].rollout, id)
    ensures granted == Raises <==> f.enabled && exists i: nat ::
              && Decides(f, eval, i)
              && SegmentOutcome(f.segments[i].conditions, eval) == Raises
  {
    if !f.enabled {
      return No;
    }
    for i := 0 to |f.segments|
      invariant forall j :: 0 <= j < i ==> SegmentOutcome(f.segments[j].conditions, eval) == No
    {
      var matched := MatchSegment(f.segments[i], eval);
      if matched != No {
        assert Decides(f, eval, i);
        assert forall j: nat :: Decides(f, eval, j) ==> j == i;
        return if matched == Yes && !InRollout(f.segments[i].rollout, id) then No else matched;
      }
    }
    return No;
  }
}
