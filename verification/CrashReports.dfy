/**
 The limit on stored crash reports per group, the cache in front of its count, and the refunds for
 what the limit drops.  Saving is sequential; every admitted report is saved.
 */
module CrashReports {
  import opened Wrappers

  const STORE_ALL := -1

  datatype Attachment = Attachment(isCrash: bool, size: Option<nat>)

  /** Stored crash reports of one group, and the cached "limit reached at" mark. */
  datatype Group = Group(stored: nat, cache: Option<int>)

  // ----- the decision

  /** `crashreports_exceeded` */
  predicate Exceeded(count: int, max: int) {
    max != STORE_ALL && count >= max
  }

  function Min(a: int, b: int): int { if a < b then a else b }

  function Max(a: int, b: int): int { if a < b then b else a }

  /** `get_stored_crashreports`; the query counts no further than the limit. */
  function StoredReports(g: Group, max: int): int {
    if max == 0 || max == STORE_ALL then max
    else if g.cache.Some? && g.cache.value >= max then g.cache.value
    else Min(g.stored, max)
  }

  predicate AnyCrash(attachments: seq<Attachment>) {
    exists i :: 0 <= i < |attachments| && attachments[i].isCrash
  }

  function StartCount(g: Group, attachments: seq<Attachment>, max: int): int {
    if AnyCrash(attachments) then StoredReports(g, max) else 0
  }

  /** Which attachments stay when `count` crash reports are believed to be stored. */
  function Keeps(attachments: seq<Attachment>, count: int, max: int): (r: seq<bool>)
    ensures |r| == |attachments|
  {
    if attachments == [] then []
    else
      var a := attachments[0];
      if a.isCrash && Exceeded(count, max) then [false] + Keeps(attachments[1..], count, max)
      else [true] + Keeps(attachments[1..], if a.isCrash then count + 1 else count, max)
  }

  function CrashCount(attachments: seq<Attachment>): nat {
    if attachments == [] then 0 else CrashCount(attachments[1..]) + if attachments[0].isCrash then 1 else 0
  }

  /** Every non-crash attachment stays, and of the crash reports the first ones that fit. */
  lemma {:induction false} KeepsTheFirstThatFit(attachments: seq<Attachment>, count: int, max: int, i: nat)
    requires i < |attachments|
    ensures Keeps(attachments, count, max)[i] <==>
            !attachments[i].isCrash || max == STORE_ALL || count + CrashCount(attachments[..i]) < max
  {
    var a := attachments[0];
    var next := if a.isCrash && !Exceeded(count, max) then count + 1 else count;
    if i > 0 {
      KeepsTheFirstThatFit(attachments[1..], next, max, i - 1);
      assert attachments[..i][0] == a && attachments[..i][1..] == attachments[1..][..i - 1];
    }
  }

  // ----- accounting

  function Select(attachments: seq<Attachment>, flags: seq<bool>, which: bool): seq<Attachment>
    requires |flags| == |attachments|
  {
    if attachments == [] then []
    else (if flags[0] == which then [attachments[0]] else []) + Select(attachments[1..], flags[1..], which)
  }

  /** How many of the first `i` flags are `which`. */
  function Rank(flags: seq<bool>, which: bool, i: nat): nat
    requires i <= |flags|
  {
    if i == 0 then 0 else Rank(flags[1..], which, i - 1) + if flags[0] == which then 1 else 0
  }

  /** Selecting keeps the order: a flagged attachment comes after exactly the flagged ones before it, and
      nothing else is selected. */
  lemma {:induction false} SelectKeepsOrder(attachments: seq<Attachment>, flags: seq<bool>, which: bool, i: nat)
    requires |flags| == |attachments| && i < |flags|
    ensures |Select(attachments, flags, which)| == Rank(flags, which, |flags|)
    ensures flags[i] == which ==>
              Rank(flags, which, i) < |Select(attachments, flags, which)| &&
              Select(attachments, flags, which)[Rank(flags, which, i)] == attachments[i]
    decreases |flags|
  {
    if |flags| > 1 {
      SelectKeepsOrder(attachments[1..], flags[1..], which, if i == 0 then 0 else i - 1);
    }
  }

  function Kept(attachments: seq<Attachment>, count: int, max: int): seq<Attachment> {
    Select(attachments, Keeps(attachments, count, max), true)
  }

  function Dropped(attachments: seq<Attachment>, count: int, max: int): seq<Attachment> {
    Select(attachments, Keeps(attachments, count, max), false)
  }

  /** `attachment.size or 1` */
  function Quantity(a: Attachment): nat {
    if a.size.Some? && a.size.value != 0 then a.size.value else 1
  }

  function TotalQuantity(attachments: seq<Attachment>): nat {
    if attachments == [] then 0 else Quantity(attachments[0]) + TotalQuantity(attachments[1..])
  }

  function SizeSum(attachments: seq<Attachment>): nat {
    if attachments == [] then 0
    else SizeSum(attachments[1..]) + if attachments[0].size.Some? then attachments[0].size.value else 0
  }

  function SizelessCount(attachments: seq<Attachment>): nat {
    if attachments == [] then 0
    else SizelessCount(attachments[1..]) + if attachments[0].size == None || attachments[0].size == Some(0) then 1 else 0
  }

  /** Quotas count bytes, and one for each attachment without any. */
  lemma {:induction false} QuantityCountsBytes(attachments: seq<Attachment>)
    ensures TotalQuantity(attachments) == SizeSum(attachments) + SizelessCount(attachments)
  {
    if attachments != [] {
      QuantityCountsBytes(attachments[1..]);
    }
  }

  function Sizes(attachments: seq<Attachment>): seq<Option<nat>> {
    if attachments == [] then [] else [attachments[0].size] + Sizes(attachments[1..])
  }

  function NonCrash(attachments: seq<Attachment>): seq<Attachment> {
    if attachments == [] then []
    else (if attachments[0].isCrash then [] else [attachments[0]]) + NonCrash(attachments[1..])
  }

  /** Each attachment is a crash report or not. */
  lemma {:induction false} CrashOrNot(attachments: seq<Attachment>)
    ensures CrashCount(attachments) + |NonCrash(attachments)| == |attachments|
    ensures forall a :: a in NonCrash(attachments) <==> a in attachments && !a.isCrash
  {
    if attachments != [] {
      CrashOrNot(attachments[1..]);
      assert attachments == [attachments[0]] + attachments[1..];
    }
  }

  lemma {:induction false} SizesAt(attachments: seq<Attachment>)
    ensures |Sizes(attachments)| == |attachments|
    ensures forall i :: 0 <= i < |attachments| ==> Sizes(attachments)[i] == attachments[i].size
  {
    if attachments != [] {
      SizesAt(attachments[1..]);
    }
  }

  lemma Unfold(a: Attachment, rest: seq<Attachment>, count: int, max: int)
    ensures var next := if a.isCrash && !Exceeded(count, max) then count + 1 else count;
            var keep := !(a.isCrash && Exceeded(count, max));
            && Kept([a] + rest, count, max) == (if keep then [a] else []) + Kept(rest, next, max)
            && Dropped([a] + rest, count, max) == (if keep then [] else [a]) + Dropped(rest, next, max)
  {
    var next := if a.isCrash && !Exceeded(count, max) then count + 1 else count;
    assert ([a] + rest)[1..] == rest;
    assert Keeps([a] + rest, count, max)[1..] == Keeps(rest, next, max);
  }

  lemma Prepend(keep: bool, a: Attachment, xs: seq<Attachment>)
    ensures var ys := (if keep then [a] else []) + xs;
            && CrashCount(ys) == CrashCount(xs) + (if keep && a.isCrash then 1 else 0)
            && TotalQuantity(ys) == TotalQuantity(xs) + (if keep then Quantity(a) else 0)
            && NonCrash(ys) == (if keep && !a.isCrash then [a] else []) + NonCrash(xs)
            && multiset(ys) == (if keep then multiset{a} else multiset{}) + multiset(xs)
  {
    if keep {
      assert ([a] + xs)[1..] == xs;
    } else {
      assert [] + xs == xs;
    }
  }

  /** Nothing is lost or invented: kept and dropped attachments together are the input, all that is no
      crash report stays in order, only crash reports are dropped, and the quantities add up. */
  lemma {:induction false} FilterConserves(attachments: seq<Attachment>, count: int, max: int)
    ensures var kept, dropped := Kept(attachments, count, max), Dropped(attachments, count, max);
            && multiset(kept) + multiset(dropped) == multiset(attachments)
            && NonCrash(kept) == NonCrash(attachments) && NonCrash(dropped) == []
            && TotalQuantity(kept) + TotalQuantity(dropped) == TotalQuantity(attachments)
            && CrashCount(kept) + |dropped| == CrashCount(attachments)
  {
    if attachments != [] {
      var a, rest := attachments[0], attachments[1..];
      var next := if a.isCrash && !Exceeded(count, max) then count + 1 else count;
      var keep := !(a.isCrash && Exceeded(count, max));
      FilterConserves(rest, next, max);
      assert attachments == [a] + rest;
      Unfold(a, rest, count, max);
      Prepend(keep, a, Kept(rest, next, max));
      Prepend(!keep, a, Dropped(rest, next, max));
      Prepend(true, a, rest);
    }
  }

  /** The reports kept never push the count past the limit. */
  lemma {:induction false} KeptFits(attachments: seq<Attachment>, count: int, max: int)
    requires max != STORE_ALL
    ensures CrashCount(Kept(attachments, count, max)) <= Max(0, max - count)
    ensures Exceeded(count + CrashCount(Kept(attachments, count, max)), max) <==>
            (count + CrashCount(attachments) >= max)
  {
    if attachments != [] {
      var a, rest := attachments[0], attachments[1..];
      var next := if a.isCrash && !Exceeded(count, max) then count + 1 else count;
      KeptFits(rest, next, max);
      assert Keeps(attachments, count, max)[1..] == Keeps(rest, next, max);
      var kept := Kept(rest, next, max);
      assert ([a] + kept)[1..] == kept && [] + kept == kept;
    }
  }

  // ----- one event

  function AdmittedReports(g: Group, attachments: seq<Attachment>, max: int): nat {
    CrashCount(Kept(attachments, StartCount(g, attachments, max), max))
  }

  /** The group after the event is filtered and everything kept is saved. */
  function AfterEvent(g: Group, attachments: seq<Attachment>, max: int): Group {
    var admitted := AdmittedReports(g, attachments, max);
    Group(g.stored + admitted,
          if Exceeded(StartCount(g, attachments, max) + admitted, max) && admitted > 0 then Some(max) else g.cache)
  }

  lemma {:induction false} Append(xs: seq<Attachment>, a: Attachment)
    ensures CrashCount(xs + [a]) == CrashCount(xs) + if a.isCrash then 1 else 0
    ensures TotalQuantity(xs + [a]) == TotalQuantity(xs) + Quantity(a)
    ensures Sizes(xs + [a]) == Sizes(xs) + [a.size]
  {
    if xs == [] {
      assert [a][1..] == [] && xs + [a] == [a];
    } else {
      assert (xs + [a])[1..] == xs[1..] + [a];
      Append(xs[1..], a);
    }
  }

  /** Dropping the next attachment, given what was `kept` and `dropped` before it. */
  lemma DropNext(kept: seq<Attachment>, dropped: seq<Attachment>, a: Attachment, rest: seq<Attachment>, count: int, max: int)
    requires a.isCrash && Exceeded(count, max)
    ensures kept + Kept([a] + rest, count, max) == kept + Kept(rest, count, max)
    ensures dropped + Dropped([a] + rest, count, max) == (dropped + [a]) + Dropped(rest, count, max)
  {
    Unfold(a, rest, count, max);
    assert [] + Kept(rest, count, max) == Kept(rest, count, max);
  }

  /** Keeping it. */
  lemma KeepNext(kept: seq<Attachment>, dropped: seq<Attachment>, a: Attachment, rest: seq<Attachment>, count: int, max: int)
    requires !(a.isCrash && Exceeded(count, max))
    ensures var next := if a.isCrash then count + 1 else count;
            && kept + Kept([a] + rest, count, max) == (kept + [a]) + Kept(rest, next, max)
            && dropped + Dropped([a] + rest, count, max) == dropped + Dropped(rest, next, max)
  {
    Unfold(a, rest, count, max);
    var next := if a.isCrash then count + 1 else count;
    assert [] + Dropped(rest, next, max) == Dropped(rest, next, max);
  }

  /** The loop of `filter_attachments_for_group`. */
  method Sift(attachments: seq<Attachment>, start: int, max: int)
    returns (filtered: seq<Attachment>, outcomes: seq<Option<nat>>, refund: nat, stripped: bool, stored: int)
    ensures filtered == Kept(attachments, start, max) && stored == start + CrashCount(filtered)
    ensures var dropped := Dropped(attachments, start, max);
            outcomes == Sizes(dropped) && refund == TotalQuantity(dropped) && (stripped <==> dropped != [] && max > 0)
  {
    filtered, outcomes, refund, stripped, stored := [], [], 0, false, start;
    ghost var dropped: seq<Attachment> := [];
    assert attachments[0..] == attachments;
    assert [] + Kept(attachments, start, max) == Kept(attachments, start, max);
    assert [] + Dropped(attachments, start, max) == Dropped(attachments, start, max);
    for i := 0 to |attachments|
      invariant stored == start + CrashCount(filtered)
      invariant filtered + Kept(attachments[i..], stored, max) == Kept(attachments, start, max)
      invariant dropped + Dropped(attachments[i..], stored, max) == Dropped(attachments, start, max)
      invariant outcomes == Sizes(dropped) && refund == TotalQuantity(dropped)
      invariant stripped <==> dropped != [] && max > 0
    {
      var attachment := attachments[i];
      assert attachments[i..] == [attachment] + attachments[i + 1..];
      if attachment.isCrash && Exceeded(stored, max) {
        DropNext(filtered, dropped, attachment, attachments[i + 1..], stored, max);
        Append(dropped, attachment);
        if max > 0 {
          stripped := true;
        }
        outcomes := outcomes + [attachment.size];
        refund := refund + Quantity(attachment);
        dropped := dropped + [attachment];
      } else {
        KeepNext(filtered, dropped, attachment, attachments[i + 1..], stored, max);
        Append(filtered, attachment);
        if attachment.isCrash {
          stored := stored + 1;
        }
        filtered := filtered + [attachment];
      }
    }
    assert attachments[|attachments|..] == [] && filtered + [] == filtered && dropped + [] == dropped;
  }

  predicate CacheIsHonest(g: Group) {
    g.cache.Some? ==> g.cache.value <= g.stored
  }

  lemma {:induction false} NoCrashCount(attachments: seq<Attachment>)
    ensures AnyCrash(attachments) <==> CrashCount(attachments) > 0
  {
    if attachments != [] {
      assert forall i :: 0 <= i < |attachments[1..]| ==> attachments[1..][i] == attachments[i + 1];
      NoCrashCount(attachments[1..]);
    }
  }

  lemma NoCrashNoReports(attachments: seq<Attachment>, count: int, max: int)
    requires !AnyCrash(attachments)
    ensures CrashCount(Kept(attachments, count, max)) == 0
  {
    FilterConserves(attachments, count, max);
    NoCrashCount(attachments);
  }

  /** How many reports are kept: as many as there is room for. */
  lemma {:induction false} KeptCount(attachments: seq<Attachment>, count: int, max: int)
    ensures CrashCount(Kept(attachments, count, max)) ==
            if max == STORE_ALL then CrashCount(attachments) else Min(CrashCount(attachments), Max(0, max - count))
  {
    if attachments != [] {
      var a, rest := attachments[0], attachments[1..];
      var next := if a.isCrash && !Exceeded(count, max) then count + 1 else count;
      KeptCount(rest, next, max);
      assert attachments == [a] + rest;
      Unfold(a, rest, count, max);
      Prepend(!(a.isCrash && Exceeded(count, max)), a, Kept(rest, next, max));
    }
  }

  /** With an honest cache, exactly how many reports are stored afterwards: all of them without a limit,
      otherwise as many as there is room for. */
  lemma EventStoresExactly(g: Group, attachments: seq<Attachment>, max: int)
    requires CacheIsHonest(g) && max >= STORE_ALL
    ensures AfterEvent(g, attachments, max).stored ==
            if max == -1 then g.stored + CrashCount(attachments)
            else if g.stored >= max then g.stored
            else Min(g.stored + CrashCount(attachments), max)
  {
    NoCrashCount(attachments);
    KeptCount(attachments, StartCount(g, attachments, max), max);
  }

  /** With an honest cache, the limit is cached exactly when this event fills it. */
  lemma LimitIsCachedExactlyWhen(g: Group, attachments: seq<Attachment>, max: int)
    requires CacheIsHonest(g) && max >= STORE_ALL
    ensures AfterEvent(g, attachments, max).cache ==
            if 0 < max && g.stored < max <= g.stored + CrashCount(attachments) then Some(max) else g.cache
  {
    NoCrashCount(attachments);
    KeptCount(attachments, StartCount(g, attachments, max), max);
  }

  /** A cached limit decides without the count: at that limit or a lower one every crash report is
      dropped, whatever is stored. */
  lemma CachedLimitDecides(stored: nat, cached: int, attachments: seq<Attachment>, max: int, i: nat)
    requires 0 < max <= cached && i < |attachments|
    ensures Keeps(attachments, StartCount(Group(stored, Some(cached)), attachments, max), max)[i] <==> !attachments[i].isCrash
  {
    KeepsTheFirstThatFit(attachments, StartCount(Group(stored, Some(cached)), attachments, max), max, i);
  }

  class GroupReports {
    var stored: nat
    var cache: Option<int>

    constructor (stored: nat)
      ensures this.stored == stored && cache == None
    {
      this.stored, cache := stored, None;
    }

    function State(): Group
      reads this
    {
      Group(stored, cache)
    }

    /** `filter_attachments_for_group`: `outcomes` are the quantities of the emitted outcomes and
        `stripped` is the event's "stripped_crash" flag. */
    method FilterAttachments(attachments: seq<Attachment>, max: int)
      returns (filtered: seq<Attachment>, outcomes: seq<Option<nat>>, refund: nat, stripped: bool)
      requires max >= STORE_ALL
      modifies this`cache
      ensures var start := StartCount(old(State()), attachments, max);
              var dropped := Dropped(attachments, start, max);
              && filtered == Kept(attachments, start, max)
              && outcomes == Sizes(dropped) && refund == TotalQuantity(dropped)
              && (stripped <==> dropped != [] && max > 0)
      ensures cache == AfterEvent(old(State()), attachments, max).cache
      ensures CacheIsHonest(old(State())) ==>
                cache == if 0 < max && stored < max <= stored + CrashCount(attachments) then Some(max) else old(cache)
    {
      if CacheIsHonest(State()) {
        LimitIsCachedExactlyWhen(State(), attachments, max);
      }
      var cachedReports := if AnyCrash(attachments) then StoredReports(State(), max) else 0;
      var storedReports;
      filtered, outcomes, refund, stripped, storedReports := Sift(attachments, cachedReports, max);
      if Exceeded(storedReports, max) && storedReports > cachedReports {
        cache := Some(max);
      }
    }

    /** The event's way through `filter_attachments_for_group` and `save_attachment`. */
    method ProcessEvent(attachments: seq<Attachment>, max: int) returns (refund: nat)
      requires max >= STORE_ALL
      modifies this
      ensures State() == AfterEvent(old(State()), attachments, max)
      ensures refund == TotalQuantity(Dropped(attachments, StartCount(old(State()), attachments, max), max))
    {
      var filtered, _, r, _ := FilterAttachments(attachments, max);
      refund := r;
      stored := stored + CrashCount(filtered);
    }
  }

  /** The attachment half of `discard_event`: one outcome each, and all of it refunded. */
  method DiscardAttachments(attachments: seq<Attachment>) returns (outcomes: seq<Option<nat>>, refund: nat)
    ensures outcomes == Sizes(attachments) && refund == TotalQuantity(attachments)
    ensures refund == 0 <==> attachments == []
  {
    outcomes, refund := [], 0;
    for i := 0 to |attachments|
      invariant outcomes == Sizes(attachments[..i]) && refund == TotalQuantity(attachments[..i])
      invariant refund >= i
    {
      Append(attachments[..i], attachments[i]);
      assert attachments[..i + 1] == attachments[..i] + [attachments[i]];
      refund := refund + Quantity(attachments[i]);
      outcomes := outcomes + [attachments[i].size];
    }
    assert attachments[..|attachments|] == attachments;
  }

  // ----- the cache agrees with the count

  /** What the limit alone, without a cache, would decide. */
  function KeepsByCount(g: Group, attachments: seq<Attachment>, max: int): seq<bool> {
    Keeps(attachments, g.stored, max)
  }

  function KeepsWithCache(g: Group, attachments: seq<Attachment>, max: int): seq<bool> {
    Keeps(attachments, StartCount(g, attachments, max), max)
  }

  lemma SameWhenEqualRoom(attachments: seq<Attachment>, a: int, b: int, max: int)
    requires a == b || (Exceeded(a, max) && Exceeded(b, max)) || max == STORE_ALL || !AnyCrash(attachments)
    ensures Keeps(attachments, a, max) == Keeps(attachments, b, max)
  {
    forall i | 0 <= i < |attachments|
      ensures Keeps(attachments, a, max)[i] == Keeps(attachments, b, max)[i]
    {
      KeepsTheFirstThatFit(attachments, a, max, i);
      KeepsTheFirstThatFit(attachments, b, max, i);
    }
  }

  lemma {:induction false} FirstCrash(attachments: seq<Attachment>) returns (i: nat)
    requires AnyCrash(attachments)
    ensures i < |attachments| && attachments[i].isCrash && CrashCount(attachments[..i]) == 0
  {
    if attachments[0].isCrash {
      i := 0;
    } else {
      var k :| 0 <= k < |attachments| && attachments[k].isCrash;
      assert attachments[1..][k - 1].isCrash;
      var j := FirstCrash(attachments[1..]);
      i := j + 1;
      assert attachments[..i][1..] == attachments[1..][..i - 1];
    }
  }

  /** For one event the cached decision differs from the plain one exactly when the cache claims a limit
      at least as high as today's that the stored reports do not fill. */
  lemma CacheAgreesExactlyWhen(g: Group, attachments: seq<Attachment>, max: int)
    requires max >= STORE_ALL
    ensures KeepsWithCache(g, attachments, max) == KeepsByCount(g, attachments, max) <==>
            !(AnyCrash(attachments) && max > 0 && g.cache.Some? && g.cache.value >= max > g.stored)
  {
    if AnyCrash(attachments) && max > 0 && g.cache.Some? && g.cache.value >= max > g.stored {
      var i := FirstCrash(attachments);
      KeepsTheFirstThatFit(attachments, g.cache.value, max, i);
      KeepsTheFirstThatFit(attachments, g.stored, max, i);
    } else {
      SameWhenEqualRoom(attachments, StartCount(g, attachments, max), g.stored, max);
    }
  }

  /** An event under the limit of its day; the cache entry timing out; a stored report deleted, which
      also deletes the cache entry. */
  datatype Op = Event(attachments: seq<Attachment>, max: int) | Expire | Delete

  function Apply(g: Group, op: Op): Group {
    match op
    case Event(attachments, max) => AfterEvent(g, attachments, max)
    case Expire => g.(cache := None)
    case Delete => if g.stored == 0 then g else Group(g.stored - 1, None)
  }

  function Run(g: Group, ops: seq<Op>): Group {
    if ops == [] then g else Apply(Run(g, ops[..|ops| - 1]), ops[|ops| - 1])
  }

  lemma EventKeepsCacheHonest(g: Group, attachments: seq<Attachment>, max: int)
    requires CacheIsHonest(g) && max >= STORE_ALL
    ensures CacheIsHonest(AfterEvent(g, attachments, max))
    ensures max != STORE_ALL ==> AfterEvent(g, attachments, max).stored <= Max(g.stored, max)
  {
    if max != STORE_ALL {
      KeptFits(attachments, StartCount(g, attachments, max), max);
      if !AnyCrash(attachments) {
        NoCrashNoReports(attachments, StartCount(g, attachments, max), max);
      }
    }
  }

  predicate LegalOps(ops: seq<Op>) {
    forall i :: 0 <= i < |ops| ==> ops[i].Event? ==> ops[i].max >= STORE_ALL
  }

  lemma {:induction false} RunKeepsCacheHonest(g: Group, ops: seq<Op>)
    requires CacheIsHonest(g) && LegalOps(ops)
    ensures CacheIsHonest(Run(g, ops))
  {
    if ops != [] {
      RunKeepsCacheHonest(g, ops[..|ops| - 1]);
      var last := ops[|ops| - 1];
      if last.Event? {
        EventKeepsCacheHonest(Run(g, ops[..|ops| - 1]), last.attachments, last.max);
      }
    }
  }

  /** Over any history of events with changing limits, expiries and deletions, started without a cache
      entry, the next event is decided as if there were no cache. */
  lemma CacheIsInvisible(stored: nat, ops: seq<Op>, attachments: seq<Attachment>, max: int)
    requires LegalOps(ops) && max >= STORE_ALL
    ensures var g := Run(Group(stored, None), ops);
            KeepsWithCache(g, attachments, max) == KeepsByCount(g, attachments, max)
  {
    var g := Run(Group(stored, None), ops);
    RunKeepsCacheHonest(Group(stored, None), ops);
    CacheAgreesExactlyWhen(g, attachments, max);
  }

  /** A history without any cache: how many reports are stored. */
  function CountAfter(stored: nat, ops: seq<Op>): nat {
    if ops == [] then stored
    else
      var n, last := CountAfter(stored, ops[..|ops| - 1]), ops[|ops| - 1];
      match last
      case Event(attachments, max) =>
        if max == -1 then n + CrashCount(attachments)
        else if n >= max then n
        else Min(n + CrashCount(attachments), max)
      case Expire => n
      case Delete => if n == 0 then 0 else n - 1
  }

  /** Over any history the cached system stores exactly what one without a cache would. */
  lemma {:induction false} CacheRefinesCount(stored: nat, ops: seq<Op>)
    requires LegalOps(ops)
    ensures Run(Group(stored, None), ops).stored == CountAfter(stored, ops)
  {
    if ops != [] {
      var front, last := ops[..|ops| - 1], ops[|ops| - 1];
      CacheRefinesCount(stored, front);
      RunKeepsCacheHonest(Group(stored, None), front);
      if last.Event? {
        EventStoresExactly(Run(Group(stored, None), front), last.attachments, last.max);
      }
    }
  }

  function LargestLimit(ops: seq<Op>): int {
    if ops == [] then 0
    else
      var m, last := LargestLimit(ops[..|ops| - 1]), ops[|ops| - 1];
      if last.Event? then Max(m, last.max) else m
  }

  lemma {:induction false} LargestLimitIsALimit(ops: seq<Op>)
    ensures LargestLimit(ops) >= 0
    ensures forall i :: 0 <= i < |ops| && ops[i].Event? ==> ops[i].max <= LargestLimit(ops)
    ensures LargestLimit(ops) == 0 || exists i :: 0 <= i < |ops| && ops[i].Event? && ops[i].max == LargestLimit(ops)
  {
    if ops != [] {
      var front := ops[..|ops| - 1];
      LargestLimitIsALimit(front);
      assert forall i :: 0 <= i < |front| ==> front[i] == ops[i];
    }
  }

  /** While limits are finite, no more reports are stored than there were at the start or the largest
      limit so far allows. */
  lemma {:induction false} StoredStaysBounded(g: Group, ops: seq<Op>)
    requires CacheIsHonest(g) && LegalOps(ops)
    requires forall i :: 0 <= i < |ops| ==> ops[i].Event? ==> ops[i].max != STORE_ALL
    ensures Run(g, ops).stored <= Max(g.stored, LargestLimit(ops))
  {
    if ops != [] {
      var front, last := ops[..|ops| - 1], ops[|ops| - 1];
      StoredStaysBounded(g, front);
      RunKeepsCacheHonest(g, front);
      if last.Event? {
        EventKeepsCacheHonest(Run(g, front), last.attachments, last.max);
      }
    }
  }
}
