/**
 Reopening a resolved group.  Any number of workers run `_handle_regression` for one group; each
 decides from a stale copy of it, and the conditional UPDATE arbitrates.  Users may change the status
 at any time, but nothing else writes `active_at`.  Times are in microseconds.
 */
module Regression {
  import opened Wrappers

  type WorkerId = nat

  const WINDOW := 5_000_000

  datatype Status = Resolved | Unresolved | Ignored | OtherStatus

  datatype Phase =
    | Idle
    | Decided(date: int)              // passed the checks on its own copy of the group
    | Won(date: int)                  // the update changed the row, activity not written yet
    | Recorded(date: int)             // and the activity is written
    | Crashed(date: int)              // died between the two
    | Quiet                           // no regression: the checks or the update said no

  datatype Group = Group(status: Status, activeAt: Option<int>, lastSeen: int)

  datatype Update = Update(worker: WorkerId, date: int)

  /** `updates` logs the successful updates and `activities` the SET_REGRESSION rows, oldest first. */
  datatype State = State(group: Group, workers: map<WorkerId, Phase>, updates: seq<Update>, activities: seq<Update>)

  datatype Label =
    | Decide(w: WorkerId, eventTime: int, copiedLastSeen: int)
    | Decline(w: WorkerId)
    | CompareAndSet(w: WorkerId)
    | Record(w: WorkerId)
    | Crash(w: WorkerId)
    | SetStatus(status: Status, lastSeen: int)

  function Max(a: int, b: int): int { if a < b then b else a }

  /** The WHERE clause: `exclude(active_at__gte=...)` keeps rows whose `active_at` is null. */
  predicate MayReopen(g: Group, date: int) {
    && (g.status == Resolved || g.status == Unresolved)
    && !(g.activeAt.Some? && g.activeAt.value >= date - WINDOW)
  }

  predicate Next(s: State, l: Label, t: State) {
    match l
    case Decide(w, eventTime, lastSeen) =>
      && w in s.workers && s.workers[w].Idle?
      && t == s.(workers := s.workers[w := Decided(Max(eventTime, lastSeen))])
    case Decline(w) =>
      && w in s.workers && s.workers[w].Idle?
      && t == s.(workers := s.workers[w := Quiet])
    case CompareAndSet(w) =>
      && w in s.workers && s.workers[w].Decided?
      && var date := s.workers[w].date;
      t == if MayReopen(s.group, date)
           then s.(group := Group(Unresolved, Some(date), date),
                   workers := s.workers[w := Won(date)],
                   updates := s.updates + [Update(w, date)])
           else s.(workers := s.workers[w := Quiet])
    case Record(w) =>
      && w in s.workers && s.workers[w].Won?
      && t == s.(workers := s.workers[w := Recorded(s.workers[w].date)],
                 activities := s.activities + [Update(w, s.workers[w].date)])
    case Crash(w) =>
      && w in s.workers && s.workers[w].Won?
      && t == s.(workers := s.workers[w := Crashed(s.workers[w].date)])
    case SetStatus(status, lastSeen) =>
      t == s.(group := s.group.(status := status, lastSeen := lastSeen))
  }

  predicate Init(s: State) {
    && s.updates == [] && s.activities == []
    && forall w :: w in s.workers ==> s.workers[w] == Idle
  }

  ghost predicate IsRun(states: seq<State>, labels: seq<Label>) {
    && |states| == |labels| + 1
    && Init(states[0])
    && forall i {:trigger labels[i]} :: 0 <= i < |labels| ==> Next(states[i], labels[i], states[i + 1])
  }

  predicate HasWon(p: Phase) {
    p.Won? || p.Recorded? || p.Crashed?
  }

  /** `active_at` is the date of the last successful update, or the initial value before any. */
  predicate ClockOk(start: Option<int>, s: State) {
    && s.group.activeAt == (if s.updates == [] then start else Some(s.updates[|s.updates| - 1].date))
    && (forall i, j :: 0 <= i < j < |s.updates| ==> s.updates[j].date - s.updates[i].date > WINDOW)
    && (start.Some? ==> forall i :: 0 <= i < |s.updates| ==> s.updates[i].date - start.value > WINDOW)
  }

  /** Winners and log entries match one to one, recorded winners and activities too. */
  predicate TraceOk(s: State) {
    && (forall i :: 0 <= i < |s.updates| ==>
          var u := s.updates[i]; u.worker in s.workers && HasWon(s.workers[u.worker]) && s.workers[u.worker].date == u.date)
    && (forall w :: w in s.workers && HasWon(s.workers[w]) ==> Update(w, s.workers[w].date) in s.updates)
    && (forall i, j :: 0 <= i < j < |s.updates| ==> s.updates[i].worker != s.updates[j].worker)
    && (forall i :: 0 <= i < |s.activities| ==>
          var u := s.activities[i]; u.worker in s.workers && s.workers[u.worker] == Recorded(u.date))
    && (forall w :: w in s.workers && s.workers[w].Recorded? ==> Update(w, s.workers[w].date) in s.activities)
    && (forall i, j :: 0 <= i < j < |s.activities| ==> s.activities[i].worker != s.activities[j].worker)
  }

  lemma StepKeepsClock(start: Option<int>, s: State, l: Label, t: State)
    requires ClockOk(start, s) && Next(s, l, t)
    ensures ClockOk(start, t)
  {}

  lemma StepKeepsTrace(s: State, l: Label, t: State)
    requires TraceOk(s) && Next(s, l, t)
    ensures TraceOk(t)
  {
    forall w | w in t.workers && HasWon(t.workers[w])
      ensures Update(w, t.workers[w].date) in t.updates
    {
      if !(w in s.workers && HasWon(s.workers[w])) {
        assert t.updates[|s.updates|] == Update(w, t.workers[w].date);
      }
    }
    forall w | w in t.workers && t.workers[w].Recorded?
      ensures Update(w, t.workers[w].date) in t.activities
    {
      if !(w in s.workers && s.workers[w].Recorded?) {
        assert t.activities[|s.activities|] == Update(w, t.workers[w].date);
      }
    }
  }

  lemma {:induction false} RunIsSound(states: seq<State>, labels: seq<Label>, n: nat)
    requires IsRun(states, labels) && n < |states|
    ensures ClockOk(states[0].group.activeAt, states[n]) && TraceOk(states[n])
  {
    if n > 0 {
      RunIsSound(states, labels, n - 1);
      assert Next(states[n - 1], labels[n - 1], states[n]);
      StepKeepsClock(states[0].group.activeAt, states[n - 1], labels[n - 1], states[n]);
      StepKeepsTrace(states[n - 1], labels[n - 1], states[n]);
    }
  }

  /** Successful updates are strictly increasing in date with gaps over five seconds, counted from the
      initial `active_at` too: of all events within one window at most one reopens the group. */
  lemma UpdatesKeepTheirDistance(states: seq<State>, labels: seq<Label>, n: nat, i: nat, j: nat)
    requires IsRun(states, labels) && n < |states| && i < j < |states[n].updates|
    ensures states[n].updates[j].date - states[n].updates[i].date > WINDOW
    ensures states[0].group.activeAt.Some? ==> states[n].updates[i].date - states[0].group.activeAt.value > WINDOW
  {
    RunIsSound(states, labels, n);
  }

  /** Two different winners, pending ones included, never decided on dates within one window. */
  lemma WinnersKeepTheirDistance(states: seq<State>, labels: seq<Label>, n: nat, v: WorkerId, w: WorkerId)
    requires IsRun(states, labels) && n < |states|
    requires v in states[n].workers && w in states[n].workers && v != w
    requires HasWon(states[n].workers[v]) && HasWon(states[n].workers[w])
    ensures var d := states[n].workers[v].date - states[n].workers[w].date; d > WINDOW || -d > WINDOW
  {
    RunIsSound(states, labels, n);
    var s := states[n];
    var i :| 0 <= i < |s.updates| && s.updates[i] == Update(v, s.workers[v].date);
    var j :| 0 <= j < |s.updates| && s.updates[j] == Update(w, s.workers[w].date);
    if i < j {
    } else {
      assert j < i;
    }
  }

  lemma {:induction false} DistinctCounts(us: seq<Update>)
    requires forall i, j :: 0 <= i < j < |us| ==> us[i].worker != us[j].worker
    ensures forall u :: multiset(us)[u] == if u in us then 1 else 0
  {
    if us != [] {
      var front, last := us[..|us| - 1], us[|us| - 1];
      DistinctCounts(front);
      assert us == front + [last];
      assert last !in front;
    }
  }

  /** Once no worker is between its update and its activity (and none died there), activities and
      successful updates are the same set, each without repetition. */
  lemma ActivitiesMatchUpdates(states: seq<State>, labels: seq<Label>, n: nat)
    requires IsRun(states, labels) && n < |states|
    requires forall w :: w in states[n].workers ==> !states[n].workers[w].Won? && !states[n].workers[w].Crashed?
    ensures forall u :: u in states[n].activities <==> u in states[n].updates
    ensures multiset(states[n].activities) == multiset(states[n].updates)
  {
    RunIsSound(states, labels, n);
    var s := states[n];
    forall u | u in s.updates
      ensures u in s.activities
    {
      var i :| 0 <= i < |s.updates| && s.updates[i] == u;
    }
    forall u | u in s.activities
      ensures u in s.updates
    {
      var i :| 0 <= i < |s.activities| && s.activities[i] == u;
    }
    DistinctCounts(s.activities);
    DistinctCounts(s.updates);
  }

  /** While users leave an ignored group alone, no regression reopens it. */
  lemma {:induction false} IgnoredStaysIgnored(states: seq<State>, labels: seq<Label>, m: nat, n: nat)
    requires IsRun(states, labels) && m <= n < |states|
    requires states[m].group.status == Ignored
    requires forall i :: m <= i < n ==> !labels[i].SetStatus?
    ensures states[n].group == states[m].group && states[n].updates == states[m].updates
  {
    if m < n {
      IgnoredStaysIgnored(states, labels, m, n - 1);
      assert Next(states[n - 1], labels[n - 1], states[n]);
    }
  }

  // ----- when a group is reopened

  /** The update reopens the group if and only if its status is Resolved or Unresolved and it was not
      active within the five seconds before the date; it then writes exactly that date. */
  lemma ReopensExactlyWhen(s: State, w: WorkerId, t: State)
    requires w in s.workers && s.workers[w].Decided? && Next(s, CompareAndSet(w), t)
    ensures w in t.workers
    ensures var date := s.workers[w].date;
            && (t.workers[w] == Won(date) <==>
                 && (s.group.status == Resolved || s.group.status == Unresolved)
                 && (s.group.activeAt == None || s.group.activeAt.value < date - 5_000_000))
            && (t.workers[w] != Won(date) ==> t.workers[w] == Quiet && t.group == s.group && t.updates == s.updates)
            && (t.workers[w] == Won(date) ==>
                  t.group == Group(Unresolved, Some(date), date) && t.updates == s.updates + [Update(w, date)])
  {}

  /** A resolved group that was never active is always reopened. */
  lemma ResolvedGroupsAreReopened(s: State, w: WorkerId, t: State)
    requires w in s.workers && s.workers[w].Decided? && Next(s, CompareAndSet(w), t)
    requires s.group.status == Resolved && s.group.activeAt == None
    ensures w in t.workers && t.workers[w] == Won(s.workers[w].date)
    ensures t.group.status == Unresolved && t.group.activeAt == Some(s.workers[w].date)
  {
    ReopensExactlyWhen(s, w, t);
  }

  predicate IsPending(p: Phase) {
    p.Decided? || HasWon(p)
  }

  /** The date a worker decides on is neither before its event nor before what it knew as last seen, and
      it is kept to the end. */
  lemma DatesAreDecidedOnce(s: State, l: Label, t: State, w: WorkerId)
    requires Next(s, l, t) && w in s.workers && w in t.workers && IsPending(t.workers[w])
    ensures IsPending(s.workers[w]) ==> t.workers[w].date == s.workers[w].date
    ensures !IsPending(s.workers[w]) ==>
              && l.Decide? && l.w == w
              && t.workers[w].date >= l.eventTime && t.workers[w].date >= l.copiedLastSeen
              && (t.workers[w].date == l.eventTime || t.workers[w].date == l.copiedLastSeen)
  {}

  /** Every worker can go on, and one that has won writes its activity next unless it dies first. */
  lemma EveryWorkerCanGoOn(s: State, w: WorkerId, eventTime: int, lastSeen: int)
    requires w in s.workers
    ensures s.workers[w].Idle? ==> exists t :: Next(s, Decide(w, eventTime, lastSeen), t)
    ensures s.workers[w].Decided? ==> exists t :: Next(s, CompareAndSet(w), t)
    ensures s.workers[w].Won? ==> exists t :: Next(s, Record(w), t) && t.activities == s.activities + [Update(w, s.workers[w].date)]
  {
    match s.workers[w]
    case Idle =>
      assert Next(s, Decide(w, eventTime, lastSeen), s.(workers := s.workers[w := Decided(Max(eventTime, lastSeen))]));
    case Decided(date) =>
      assert Next(s, CompareAndSet(w),
                  if MayReopen(s.group, date)
                  then s.(group := Group(Unresolved, Some(date), date), workers := s.workers[w := Won(date)],
                          updates := s.updates + [Update(w, date)])
                  else s.(workers := s.workers[w := Quiet]));
    case Won(date) =>
      assert Next(s, Record(w), s.(workers := s.workers[w := Recorded(date)], activities := s.activities + [Update(w, date)]));
    case _ =>
  }
}
