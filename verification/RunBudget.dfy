/** The 24-hour guard of start_run: a count of recent runs, compared with a run limit and a cost budget. */
module RunBudget {
  import opened RealArithmetic
  import opened SetFacts

  type Time = real

  /** The guard's window, in seconds. */
  const DAY: Time := 86400.0

  function Hours(n: nat): Time {
    n as real * 3600.0
  }

  /** max_runs_last_24h, daily_cost_budget_usd and estimated_cost_per_run_usd; 0 switches a limit off. */
  datatype Settings = Settings(maxRuns: int, budget: real, costPerRun: real)

  datatype Run = Run(createdAt: Time, guarded: bool)

  datatype Verdict = Accepted | TooManyRuns | OverBudget

  /** SELECT count(*) ... WHERE created_at >= since. */
  function CountSince(runs: seq<Run>, since: Time): nat {
    if runs == [] then 0
    else CountSince(runs[..|runs| - 1], since) + if runs[|runs| - 1].createdAt >= since then 1 else 0
  }

  function Guard(c: Settings, recent: nat): Verdict {
    if c.maxRuns != 0 && recent >= c.maxRuns then TooManyRuns
    else if c.budget != 0.0 && (recent + 1) as real * c.costPerRun > c.budget then OverBudget
    else Accepted
  }

  /** The runs table, the requests that passed the guard and have not created their run yet, with the time of their
      count, and the present time. */
  datatype Desk = Desk(runs: seq<Run>, inFlight: map<nat, Time>, now: Time)

  const OPENING := Desk([], map[], 0.0)

  /** A request counts and is let through or refused; later it creates its run, unless its brief is unsafe. Other
      requests may do either in between. */
  datatype Event =
    | Counted(request: nat, at: Time)
    | Created(request: nat, at: Time, briefIsSafe: bool)
    | Unguarded(at: Time)

  function Stepped(c: Settings, d: Desk, e: Event): Desk {
    match e
    case Counted(r, at) =>
      if r in d.inFlight || Guard(c, CountSince(d.runs, at - DAY)) != Accepted then d.(now := at)
      else d.(inFlight := d.inFlight[r := at], now := at)
    case Created(r, at, safe) =>
      if r !in d.inFlight then d.(now := at)
      else Desk(d.runs + if safe then [Run(at, true)] else [], d.inFlight - {r}, at)
    case Unguarded(at) => d.(runs := d.runs + [Run(at, false)], now := at)
  }

  function Played(c: Settings, events: seq<Event>): Desk {
    if events == [] then OPENING
    else var k := |events| - 1; Stepped(c, Played(c, events[..k]), events[k])
  }

  class RunStore {
    var runs: seq<Run>
    var inFlight: map<nat, Time>
    ghost var now: Time

    constructor ()
      ensures Value() == OPENING
    {
      runs, inFlight, now := [], map[], 0.0;
    }

    ghost function Value(): Desk
      reads this
    {
      Desk(runs, inFlight, now)
    }

    /** The guard: the clock is read once, the table is counted, and nothing is reserved. */
    method CheckBudget(c: Settings, request: nat, at: Time) returns (v: Verdict)
      requires request !in inFlight
      modifies this
      ensures Value() == Stepped(c, old(Value()), Counted(request, at))
      ensures v == Guard(c, CountSince(old(runs), at - DAY)) && (v == Accepted <==> request in inFlight)
    {
      now := at;
      var recent := CountSince(runs, at - DAY);
      if c.maxRuns != 0 && recent >= c.maxRuns {
        return TooManyRuns;
      }
      var estimated := (recent + 1) as real * c.costPerRun;
      if c.budget != 0.0 && estimated > c.budget {
        return OverBudget;
      }
      inFlight := inFlight[request := at];
      return Accepted;
    }

    /** The rest of the request: created_at is taken when the row is inserted. */
    method CreateRun(c: Settings, request: nat, at: Time, briefIsSafe: bool)
      requires request in inFlight
      modifies this
      ensures Value() == Stepped(c, old(Value()), Created(request, at, briefIsSafe))
    {
      now := at;
      inFlight := inFlight - {request};
      if briefIsSafe {
        runs := runs + [Run(at, true)];
      }
    }

    /** A request that nothing interrupts. */
    method StartRun(c: Settings, request: nat, checkedAt: Time, createdAt: Time, briefIsSafe: bool)
      returns (v: Verdict)
      requires request !in inFlight
      modifies this
      ensures v == Guard(c, CountSince(old(runs), checkedAt - DAY)) && inFlight == old(inFlight)
      ensures runs == old(runs) + if v == Accepted && briefIsSafe then [Run(createdAt, true)] else []
    {
      v := CheckBudget(c, request, checkedAt);
      if v == Accepted {
        CreateRun(c, request, createdAt, briefIsSafe);
      }
    }
  }

  /** The clock never runs backwards, and at most p requests are past the guard at any moment. */
  ghost predicate Overlapping(c: Settings, events: seq<Event>, p: nat) {
    && |Played(c, events).inFlight| <= p
    && (events == [] ||
        (var k := |events| - 1;
         Overlapping(c, events[..k], p) && Played(c, events[..k]).now <= events[k].at))
  }

  /** Guarded runs created in the 24 hours, both ends included, that start at `from`. */
  function GuardedIn(runs: seq<Run>, from: Time): nat {
    if runs == [] then 0
    else
      var r := runs[|runs| - 1];
      GuardedIn(runs[..|runs| - 1], from) + if r.guarded && from <= r.createdAt <= from + Hours(24) then 1 else 0
  }

  /** A number of runs that respects every limit that is switched on. */
  predicate WithinLimits(c: Settings, n: nat) {
    && (c.maxRuns != 0 ==> n == 0 || n <= c.maxRuns)
    && (c.budget != 0.0 ==> n == 0 || n as real * c.costPerRun <= c.budget)
  }

  lemma {:induction false} WindowIsCounted(runs: seq<Run>, from: Time, since: Time)
    requires since <= from
    ensures GuardedIn(runs, from) <= CountSince(runs, since)
  {
    if runs != [] {
      WindowIsCounted(runs[..|runs| - 1], from, since);
    }
  }

  lemma FewerIsWithin(c: Settings, m: nat, n: nat)
    requires c.costPerRun >= 0.0 && m <= n && WithinLimits(c, n)
    ensures WithinLimits(c, m)
  {
    assert (n - m) as real * c.costPerRun >= 0.0;
    assert n as real * c.costPerRun == m as real * c.costPerRun + (n - m) as real * c.costPerRun;
  }

  lemma GuardAllowsOneMore(c: Settings, recent: nat)
    ensures Guard(c, recent) == Accepted <==> WithinLimits(c, recent + 1)
  {
  }

  /** What is left of n when p - 1 is forgiven. */
  function Beyond(n: nat, p: nat): nat {
    if n < p then 0 else n + 1 - p
  }

  /** The requests past the guard whose count fell before the window closed. */
  function Early(inFlight: map<nat, Time>, from: Time): set<nat> {
    set r | r in inFlight && inFlight[r] <= from + Hours(24)
  }

  lemma GuardedSnoc(runs: seq<Run>, r: Run, from: Time)
    ensures GuardedIn(runs + [r], from) ==
            GuardedIn(runs, from) + if r.guarded && from <= r.createdAt <= from + Hours(24) then 1 else 0
    ensures GuardedIn(runs + [], from) == GuardedIn(runs, from)
  {
    assert (runs + [r])[..|runs|] == runs && runs + [] == runs;
  }

  /** Guarded runs in the window, and requests that may still add to them, exceed the limits by less than p. */
  ghost predicate Contained(c: Settings, d: Desk, from: Time, p: nat) {
    && WithinLimits(c, Beyond(GuardedIn(d.runs, from) + |Early(d.inFlight, from)|, p))
    && forall r | r in d.inFlight :: d.inFlight[r] <= d.now
  }

  lemma CountedStaysContained(c: Settings, d: Desk, e: Event, from: Time, p: nat)
    requires e.Counted? && Contained(c, d, from, p) && d.now <= e.at && c.costPerRun >= 0.0
    requires p >= 1 && |Stepped(c, d, e).inFlight| <= p
    ensures Contained(c, Stepped(c, d, e), from, p)
  {
    var t := Stepped(c, d, e);
    if t.inFlight != d.inFlight {
      EarlyAdded(d.inFlight, e.request, e.at, from);
      hide GuardedIn, WithinLimits;
      if e.at <= from + Hours(24) {
        var counted := CountSince(d.runs, e.at - DAY);
        WindowIsCounted(d.runs, from, e.at - DAY);
        GuardAllowsOneMore(c, counted);
        SubsetSize(Early(t.inFlight, from), t.inFlight.Keys);
        FewerIsWithin(c, Beyond(GuardedIn(t.runs, from) + |Early(t.inFlight, from)|, p), counted + 1);
      }
    }
  }

  lemma EarlyRemoved(inFlight: map<nat, Time>, r: nat, from: Time)
    requires r in inFlight
    ensures |Early(inFlight - {r}, from)| == |Early(inFlight, from)| - if inFlight[r] <= from + Hours(24) then 1 else 0
  {
    assert Early(inFlight - {r}, from) == Early(inFlight, from) - {r};
  }

  lemma EarlyAdded(inFlight: map<nat, Time>, r: nat, at: Time, from: Time)
    requires r !in inFlight
    ensures |Early(inFlight[r := at], from)| == |Early(inFlight, from)| + if at <= from + Hours(24) then 1 else 0
  {
    assert Early(inFlight[r := at], from) == Early(inFlight, from) + if at <= from + Hours(24) then {r} else {};
  }

  lemma CreatedStaysContained(c: Settings, d: Desk, e: Event, from: Time, p: nat)
    requires e.Created? && Contained(c, d, from, p) && d.now <= e.at && c.costPerRun >= 0.0 && p >= 1
    ensures Contained(c, Stepped(c, d, e), from, p)
  {
    if e.request in d.inFlight {
      var t := Stepped(c, d, e);
      GuardedSnoc(d.runs, Run(e.at, true), from);
      EarlyRemoved(d.inFlight, e.request, from);
      hide GuardedIn, WithinLimits, Early;
      assert GuardedIn(t.runs, from) + |Early(t.inFlight, from)| <= GuardedIn(d.runs, from) + |Early(d.inFlight, from)|;
      FewerIsWithin(c, Beyond(GuardedIn(t.runs, from) + |Early(t.inFlight, from)|, p),
                    Beyond(GuardedIn(d.runs, from) + |Early(d.inFlight, from)|, p));
    }
  }

  lemma {:induction false} StaysContained(c: Settings, events: seq<Event>, from: Time, p: nat)
    requires Overlapping(c, events, p) && c.costPerRun >= 0.0 && p >= 1
    ensures Contained(c, Played(c, events), from, p)
  {
    if events != [] {
      hide Contained, Stepped;
      var k := |events| - 1;
      var d, e := Played(c, events[..k]), events[k];
      StaysContained(c, events[..k], from, p);
      match e
      case Counted(_, _) => CountedStaysContained(c, d, e, from, p);
      case Created(_, _, _) => CreatedStaysContained(c, d, e, from, p);
      case Unguarded(_) => UnguardedStaysContained(c, d, e, from, p);
    }
  }

  lemma UnguardedStaysContained(c: Settings, d: Desk, e: Event, from: Time, p: nat)
    requires e.Unguarded? && Contained(c, d, from, p) && d.now <= e.at
    ensures Contained(c, Stepped(c, d, e), from, p)
  {
    GuardedSnoc(d.runs, Run(e.at, false), from);
    hide GuardedIn, WithinLimits, Early;
  }

  /** Sliding window: with at most p requests past the guard at a time, every 24-hour window, wherever it starts,
      exceeds the limits by at most p - 1 guarded runs, however many unguarded runs were created in between. */
  lemma SlidingWindow(c: Settings, events: seq<Event>, from: Time, p: nat)
    requires Overlapping(c, events, p) && c.costPerRun >= 0.0 && p >= 1
    ensures WithinLimits(c, Beyond(GuardedIn(Played(c, events).runs, from), p))
  {
    StaysContained(c, events, from, p);
    ContainedIsWithin(c, Played(c, events), from, p);
  }

  lemma ContainedIsWithin(c: Settings, d: Desk, from: Time, p: nat)
    requires Contained(c, d, from, p) && c.costPerRun >= 0.0
    ensures WithinLimits(c, Beyond(GuardedIn(d.runs, from), p))
  {
    hide WithinLimits;
    FewerIsWithin(c, Beyond(GuardedIn(d.runs, from), p), Beyond(GuardedIn(d.runs, from) + |Early(d.inFlight, from)|, p));
  }

  /** The same bound as numbers: min(max_runs, floor(budget / cost)) for serial requests, p - 1 more otherwise. */
  lemma WindowBound(c: Settings, events: seq<Event>, from: Time, p: nat)
    requires Overlapping(c, events, p) && c.costPerRun > 0.0 && c.maxRuns > 0 && c.budget > 0.0 && p >= 1
    ensures GuardedIn(Played(c, events).runs, from) <= c.maxRuns + p - 1
    ensures GuardedIn(Played(c, events).runs, from) <= (c.budget / c.costPerRun).Floor + p - 1
  {
    hide Played, GuardedIn, Overlapping;
    SlidingWindow(c, events, from, p);
    var n := Beyond(GuardedIn(Played(c, events).runs, from), p);
    if n > 0 {
      ProductBelowQuotient(n, c.costPerRun, c.budget);
    } else {
      ProductBelowQuotient(0, c.costPerRun, c.budget);
    }
  }

  // ---- the bound is attained ----

  function SameMoment(n: nat): seq<Run> {
    if n == 0 then [] else SameMoment(n - 1) + [Run(0.0, true)]
  }

  lemma {:induction false} SameMomentCounts(n: nat)
    ensures CountSince(SameMoment(n), 0.0 - DAY) == n && GuardedIn(SameMoment(n), 0.0) == n
  {
    if n > 0 {
      SameMomentCounts(n - 1);
      assert SameMoment(n)[..|SameMoment(n)| - 1] == SameMoment(n - 1);
    }
  }

  /** Requests one after another, then q of them that all count, then r of these that create their run. */
  function OneByOne(n: nat): seq<Event> {
    if n == 0 then [] else OneByOne(n - 1) + [Counted(0, 0.0)] + [Created(0, 0.0, true)]
  }

  function AllCount(n: nat, q: nat): seq<Event> {
    if q == 0 then OneByOne(n) else AllCount(n, q - 1) + [Counted(q - 1, 0.0)]
  }

  function AllCreate(n: nat, q: nat, r: nat): seq<Event> {
    if r == 0 then AllCount(n, q) else AllCreate(n, q, r - 1) + [Created(r - 1, 0.0, true)]
  }

  predicate AtLeast(k: nat, r: nat) {
    k >= r
  }

  function Between(r: nat, q: nat): map<nat, Time> {
    map k: nat | k < q && AtLeast(k, r) :: 0.0
  }

  lemma {:induction false} BetweenSize(r: nat, q: nat)
    requires r <= q
    ensures |Between(r, q)| == q - r
    decreases q - r
  {
    if r == q {
      assert Between(r, q).Keys == {};
    } else {
      BetweenSize(r + 1, q);
      assert Between(r, q).Keys == Between(r + 1, q).Keys + {r};
      assert |Between(r, q)| == |Between(r, q).Keys| && |Between(r + 1, q)| == |Between(r + 1, q).Keys|;
    }
  }

  lemma PlayedSnoc(c: Settings, events: seq<Event>, e: Event, p: nat)
    requires Overlapping(c, events, p) && Played(c, events).now <= e.at
    ensures Played(c, events + [e]) == Stepped(c, Played(c, events), e)
    ensures |Stepped(c, Played(c, events), e).inFlight| <= p ==> Overlapping(c, events + [e], p)
  {
    assert (events + [e])[..|events|] == events;
  }

  lemma Admits(c: Settings, n: nat, m: nat, inFlight: map<nat, Time>, r: nat)
    requires n < m && WithinLimits(c, m) && c.costPerRun >= 0.0 && r !in inFlight
    ensures Stepped(c, Desk(SameMoment(n), inFlight, 0.0), Counted(r, 0.0)) == Desk(SameMoment(n), inFlight[r := 0.0], 0.0)
  {
    SameMomentCounts(n);
    GuardAllowsOneMore(c, n);
    FewerIsWithin(c, n + 1, m);
  }

  lemma Creates(c: Settings, n: nat, inFlight: map<nat, Time>, r: nat)
    requires r in inFlight
    ensures Stepped(c, Desk(SameMoment(n), inFlight, 0.0), Created(r, 0.0, true)) == Desk(SameMoment(n + 1), inFlight - {r}, 0.0)
  {
  }

  lemma NothingYet(c: Settings, p: nat)
    ensures Played(c, []) == Desk(SameMoment(0), map[], 0.0) && Overlapping(c, [], p)
  {
  }

  lemma {:induction false} OneByOneRuns(c: Settings, n: nat, m: nat, p: nat)
    requires n < m && WithinLimits(c, m) && c.costPerRun >= 0.0 && p >= 1
    ensures Played(c, OneByOne(n)) == Desk(SameMoment(n), map[], 0.0) && Overlapping(c, OneByOne(n), p)
  {
    hide Stepped, WithinLimits, SameMoment, Played, Overlapping, GuardedIn, CountSince;
    if n == 0 {
      NothingYet(c, p);
    } else {
      OneByOneRuns(c, n - 1, m, p);
      var none: map<nat, Time>, one: map<nat, Time> := map[], map[0 := 0.0];
      assert none[0 := 0.0] == one && one - {0} == none && |one.Keys| == 1 && |one| == |one.Keys|;
      Admits(c, n - 1, m, none, 0);
      PlayedSnoc(c, OneByOne(n - 1), Counted(0, 0.0), p);
      Creates(c, n - 1, one, 0);
      PlayedSnoc(c, OneByOne(n - 1) + [Counted(0, 0.0)], Created(0, 0.0, true), p);
    }
  }

  lemma {:induction false} AllCountRuns(c: Settings, n: nat, q: nat, m: nat, p: nat)
    requires n < m && WithinLimits(c, m) && c.costPerRun >= 0.0 && p >= 1 && q <= p
    ensures Played(c, AllCount(n, q)) == Desk(SameMoment(n), Between(0, q), 0.0) && Overlapping(c, AllCount(n, q), p)
  {
    hide Stepped, WithinLimits, SameMoment, Played, Overlapping;
    if q == 0 {
      OneByOneRuns(c, n, m, p);
      assert Between(0, 0) == map[];
    } else {
      AllCountRuns(c, n, q - 1, m, p);
      Admits(c, n, m, Between(0, q - 1), q - 1);
      assert Between(0, q - 1)[q - 1 := 0.0] == Between(0, q);
      BetweenSize(0, q);
      PlayedSnoc(c, AllCount(n, q - 1), Counted(q - 1, 0.0), p);
    }
  }

  lemma {:induction false} AllCreateRuns(c: Settings, n: nat, r: nat, m: nat, p: nat)
    requires n < m && WithinLimits(c, m) && c.costPerRun >= 0.0 && p >= 1 && r <= p
    ensures Played(c, AllCreate(n, p, r)) == Desk(SameMoment(n + r), Between(r, p), 0.0)
    ensures Overlapping(c, AllCreate(n, p, r), p)
  {
    hide Stepped, WithinLimits, SameMoment, Played, Overlapping;
    if r == 0 {
      AllCountRuns(c, n, p, m, p);
    } else {
      AllCreateRuns(c, n, r - 1, m, p);
      Creates(c, n + r - 1, Between(r - 1, p), r - 1);
      assert Between(r - 1, p) - {r - 1} == Between(r, p);
      BetweenSize(r, p);
      PlayedSnoc(c, AllCreate(n, p, r - 1), Created(r - 1, 0.0, true), p);
    }
  }

  /** The bound is exact: for any limits that allow m runs, p requests that all count before any of them inserts do
      put m + p - 1 guarded runs into one window. */
  lemma OvershootIsAttained(c: Settings, m: nat, p: nat)
    requires m >= 1 && p >= 1 && WithinLimits(c, m) && c.costPerRun >= 0.0
    ensures Overlapping(c, AllCreate(m - 1, p, p), p)
    ensures GuardedIn(Played(c, AllCreate(m - 1, p, p)).runs, 0.0) == m + p - 1
  {
    hide Played, Overlapping, WithinLimits;
    AllCreateRuns(c, m - 1, p, m, p);
    SameMomentCounts(m - 1 + p);
  }

  /** The guard turns a request away exactly when one more run would not fit into the last 24 hours, and names the run
      limit whenever that one is exceeded. */
  lemma {:induction false} RejectedMeansFull(c: Settings, runs: seq<Run>, now: Time)
    requires forall i | 0 <= i < |runs| :: runs[i].createdAt <= now
    ensures var recent := |set i | 0 <= i < |runs| && now - Hours(24) <= runs[i].createdAt <= now|;
            var v := Guard(c, CountSince(runs, now - DAY));
      && (v != Accepted <==> !WithinLimits(c, recent + 1))
      && (v == TooManyRuns <==> !WithinLimits(c.(budget := 0.0), recent + 1))
  {
    CountIsCardinality(runs, now - DAY);
    var all := set i | 0 <= i < |runs| && now - Hours(24) <= runs[i].createdAt <= now;
    assert all == set i | 0 <= i < |runs| && runs[i].createdAt >= now - DAY;
  }

  // ---- what becomes of requests ----

  /** How many requests have passed the guard. */
  function Passed(c: Settings, events: seq<Event>): nat {
    if events == [] then 0
    else
      var k := |events| - 1;
      var d, e := Played(c, events[..k]), events[k];
      Passed(c, events[..k])
      + if e.Counted? && e.request !in d.inFlight && e.request in Stepped(c, d, e).inFlight then 1 else 0
  }

  /** How many of them were refused later for an unsafe brief. */
  function Unsafe(c: Settings, events: seq<Event>): nat {
    if events == [] then 0
    else
      var k := |events| - 1;
      var d, e := Played(c, events[..k]), events[k];
      Unsafe(c, events[..k]) + if e.Created? && e.request in d.inFlight && !e.briefIsSafe then 1 else 0
  }

  function Guarded(runs: seq<Run>): nat {
    if runs == [] then 0 else Guarded(runs[..|runs| - 1]) + if runs[|runs| - 1].guarded then 1 else 0
  }

  lemma GuardedGrows(runs: seq<Run>, r: Run)
    ensures Guarded(runs + [r]) == Guarded(runs) + (if r.guarded then 1 else 0) && Guarded(runs + []) == Guarded(runs)
  {
    assert (runs + [r])[..|runs|] == runs && runs + [] == runs;
  }

  function Bypasses(events: seq<Event>): nat {
    if events == [] then 0 else Bypasses(events[..|events| - 1]) + if events[|events| - 1].Unguarded? then 1 else 0
  }

  lemma RequestStep(c: Settings, d: Desk, e: Event)
    ensures var t := Stepped(c, d, e);
      Guarded(t.runs) + |t.inFlight| ==
      Guarded(d.runs) + |d.inFlight|
      + (if e.Counted? && e.request !in d.inFlight && e.request in t.inFlight then 1 else 0)
      - (if e.Created? && e.request in d.inFlight && !e.briefIsSafe then 1 else 0)
    ensures var t := Stepped(c, d, e);
      |t.runs| - Guarded(t.runs) == |d.runs| - Guarded(d.runs) + if e.Unguarded? then 1 else 0
  {
    hide Guarded;
    assert d.runs + [] == d.runs;
    match e
    case Counted(r, at) =>
    case Created(r, at, _) =>
      GuardedGrows(d.runs, Run(at, true));
      if r in d.inFlight {
        assert (d.inFlight - {r}).Keys == d.inFlight.Keys - {r};
        assert |d.inFlight| == |d.inFlight.Keys| && |d.inFlight - {r}| == |(d.inFlight - {r}).Keys|;
      }
    case Unguarded(at) =>
      GuardedGrows(d.runs, Run(at, false));
  }

  /** Every request that passed the guard is still on its way, has created exactly one run, or had an unsafe brief and
      created none; every run started past the guard is in the table too. */
  lemma {:induction false} RequestsAreConserved(c: Settings, events: seq<Event>)
    ensures Passed(c, events) == Guarded(Played(c, events).runs) + |Played(c, events).inFlight| + Unsafe(c, events)
    ensures |Played(c, events).runs| == Guarded(Played(c, events).runs) + Bypasses(events)
  {
    if events != [] {
      hide Stepped, Guarded;
      var k := |events| - 1;
      RequestsAreConserved(c, events[..k]);
      RequestStep(c, Played(c, events[..k]), events[k]);
    }
  }

  lemma {:induction false} CountIsCardinality(runs: seq<Run>, since: Time)
    ensures CountSince(runs, since) == |set i | 0 <= i < |runs| && runs[i].createdAt >= since|
  {
    if runs != [] {
      var n := |runs| - 1;
      CountIsCardinality(runs[..n], since);
      var below := set i | 0 <= i < n && runs[..n][i].createdAt >= since;
      assert below == set i | 0 <= i < n && runs[i].createdAt >= since;
      var all := set i | 0 <= i < |runs| && runs[i].createdAt >= since;
      assert all == if runs[n].createdAt >= since then below + {n} else below;
    }
  }
}
