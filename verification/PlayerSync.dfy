/** One player's sync: which links need an Add or a Remove, and the concurrent
    run of those actions, at most ten in flight. */
module PlayerSync {
  import opened RoleStores

  const MAX_IN_FLIGHT: nat := 10

  // ----------------------------------------------------------------- planning

  /** The action one link needs. */
  function ActionFor(k: LinkKey, user: string, qualifies: bool, mirrored: bool): seq<Action> {
    if qualifies && !mirrored then [Add(k, user)]
    else if !qualifies && mirrored then [Remove(k, user)]
    else []
  }

  function Plan(keys: seq<LinkKey>, user: string, qual: set<LinkKey>, mirror: set<Assignment>): seq<Action> {
    if keys == [] then []
    else
      var k := keys[|keys| - 1];
      Plan(keys[..|keys| - 1], user, qual, mirror) + ActionFor(k, user, k in qual, Assignment(k, user) in mirror)
  }

  ghost predicate Distinct<T>(s: seq<T>) {
    forall i, j | 0 <= i < j < |s| :: s[i] != s[j]
  }

  ghost predicate DistinctKeys(actions: seq<Action>) {
    forall i, j | 0 <= i < j < |actions| :: actions[i].key != actions[j].key
  }

  /** The plan acts on a link exactly when mirror and qualification differ, once,
      and in the direction of the qualification. */
  lemma {:induction false} PlanMeaning(keys: seq<LinkKey>, user: string, qual: set<LinkKey>, mirror: set<Assignment>)
    requires Distinct(keys)
    ensures var p := Plan(keys, user, qual, mirror);
      && DistinctKeys(p)
      && (forall a | a in p :: a.key in keys && a.user == user)
      && (forall k | k in keys ::
            ((exists a :: a in p && a.key == k) <==> (k in qual) != (Assignment(k, user) in mirror)))
      && (forall a | a in p :: a.Add? <==> a.key in qual)
      && (forall a | a in p :: a.Add? <==> Assignment(a.key, user) !in mirror)
  {
    if keys != [] {
      var n := |keys| - 1;
      var k, front := keys[n], keys[..n];
      PlanMeaning(front, user, qual, mirror);
      assert k !in front;
      var p, q := Plan(front, user, qual, mirror), ActionFor(k, user, k in qual, Assignment(k, user) in mirror);
      var all := Plan(keys, user, qual, mirror);
      assert all == p + q;
      forall k' | k' in keys
        ensures (exists a :: a in all && a.key == k') <==> (k' in qual) != (Assignment(k', user) in mirror)
      {
        if k' == k {
          if q != [] { assert q[0] in all; }
        } else {
          assert k' in front;
          if a :| a in p && a.key == k' { assert a in all; }
        }
      }
    }
  }

  // -------------------------------------------------------- the concurrent run

  datatype Phase = Waiting | Started | Called | Done

  datatype Config = Config(stores: Stores, phases: seq<Phase>)

  function InFlight(phases: seq<Phase>): nat {
    |set i | 0 <= i < |phases| && (phases[i] == Started || phases[i] == Called)|
  }

  /** Futures start in stream order, at most ten at a time; after that their two
      awaited steps may be taken whenever. */
  predicate Enabled(phases: seq<Phase>, i: nat) {
    && i < |phases|
    && phases[i] != Done
    && (phases[i] == Waiting ==>
          InFlight(phases) < MAX_IN_FLIGHT && forall j | 0 <= j < i :: phases[j] != Waiting)
  }

  function Next(c: Config, actions: seq<Action>, outcomes: seq<Outcome>, i: nat): Config
    requires |actions| == |outcomes| == |c.phases| && Enabled(c.phases, i)
  {
    match c.phases[i]
    case Waiting => c.(phases := c.phases[i := Started])
    case Started => Config(RemoteStep(c.stores, actions[i], outcomes[i].reply), c.phases[i := Called])
    case _ => Config(LocalStep(c.stores, actions[i], outcomes[i]), c.phases[i := Done])
  }

  /** `schedule` says whose step comes next. */
  ghost predicate RunsTo(c: Config, actions: seq<Action>, outcomes: seq<Outcome>, schedule: seq<nat>, end: Config)
    requires |actions| == |outcomes| == |c.phases|
    decreases |schedule|
  {
    if schedule == [] then c == end
    else
      && Enabled(c.phases, schedule[0])
      && RunsTo(Next(c, actions, outcomes, schedule[0]), actions, outcomes, schedule[1..], end)
  }

  function Initial(s: Stores, n: nat): Config {
    Config(s, seq(n, _ => Waiting))
  }

  ghost predicate AllDone(c: Config) {
    forall i | 0 <= i < |c.phases| :: c.phases[i] == Done
  }

  /** One action after another. */
  function Sequential(s: Stores, actions: seq<Action>, outcomes: seq<Outcome>): Stores
    requires |actions| == |outcomes|
  {
    if actions == [] then s
    else
      var n := |actions| - 1;
      BothSteps(Sequential(s, actions[..n], outcomes[..n]), actions[n], outcomes[n])
  }

  /** No schedule gets stuck: until every action is done, some step is enabled. */
  lemma SomeStepIsEnabled(phases: seq<Phase>)
    requires exists i :: 0 <= i < |phases| && phases[i] != Done
    ensures exists i: nat :: Enabled(phases, i)
  {
    if i: nat :| i < |phases| && (phases[i] == Started || phases[i] == Called) {
      assert Enabled(phases, i);
    } else {
      assert (set i | 0 <= i < |phases| && (phases[i] == Started || phases[i] == Called)) == {};
      var i: nat :| i < |phases| && phases[i] != Done;
      var first := FirstWaiting(phases, i);
      assert Enabled(phases, first);
    }
  }

  lemma {:induction false} FirstWaiting(phases: seq<Phase>, i: nat) returns (first: nat)
    requires i < |phases| && phases[i] == Waiting
    ensures first <= i && phases[first] == Waiting && forall j | 0 <= j < first :: phases[j] != Waiting
  {
    if j: nat :| j < i && phases[j] == Waiting { first := FirstWaiting(phases, j); } else { first := i; }
  }

  /** The next waiting action may start exactly while fewer than ten are in flight; a
      started one may go on whenever, a finished one never. */
  lemma StartsExactlyBelowTen(phases: seq<Phase>, i: nat)
    requires i < |phases|
    ensures phases[i] in {Started, Called} ==> Enabled(phases, i)
    ensures phases[i] == Done ==> !Enabled(phases, i)
    ensures phases[i] == Waiting ==> (Enabled(phases, i) <==>
      && |set j | 0 <= j < |phases| && phases[j] in {Started, Called}| < 10
      && forall j | 0 <= j < i :: phases[j] in {Started, Called, Done})
  {
    assert (set j | 0 <= j < |phases| && phases[j] in {Started, Called})
        == (set j | 0 <= j < |phases| && (phases[j] == Started || phases[j] == Called));
  }

  /** A step respects the concurrency limit. */
  lemma StepKeepsLimit(c: Config, actions: seq<Action>, outcomes: seq<Outcome>, i: nat)
    requires |actions| == |outcomes| == |c.phases| && Enabled(c.phases, i)
    requires InFlight(c.phases) <= MAX_IN_FLIGHT
    ensures InFlight(Next(c, actions, outcomes, i).phases) <= MAX_IN_FLIGHT
  {
    var before := set j | 0 <= j < |c.phases| && (c.phases[j] == Started || c.phases[j] == Called);
    var phases := Next(c, actions, outcomes, i).phases;
    var after := set j | 0 <= j < |phases| && (phases[j] == Started || phases[j] == Called);
    assert after == if c.phases[i] == Waiting then before + {i} else if phases[i] == Done then before - {i} else before;
  }

  lemma {:induction false} RunKeepsLimit(c: Config, actions: seq<Action>, outcomes: seq<Outcome>,
                                         schedule: seq<nat>, end: Config)
    requires |actions| == |outcomes| == |c.phases| && RunsTo(c, actions, outcomes, schedule, end)
    requires InFlight(c.phases) <= MAX_IN_FLIGHT
    ensures InFlight(end.phases) <= MAX_IN_FLIGHT
    decreases |schedule|
  {
    if schedule != [] {
      StepKeepsLimit(c, actions, outcomes, schedule[0]);
      RunKeepsLimit(Next(c, actions, outcomes, schedule[0]), actions, outcomes, schedule[1..], end);
    }
  }

  /** In every configuration that any run reaches, at most ten actions are in
      flight. */
  lemma AtMostTenInFlight(s: Stores, actions: seq<Action>, outcomes: seq<Outcome>, schedule: seq<nat>, end: Config)
    requires |actions| == |outcomes|
    requires RunsTo(Initial(s, |actions|), actions, outcomes, schedule, end)
    ensures |set i | 0 <= i < |end.phases| && end.phases[i] in {Started, Called}| <= 10
  {
    assert (set i | 0 <= i < |end.phases| && end.phases[i] in {Started, Called})
        == (set i | 0 <= i < |end.phases| && (end.phases[i] == Started || end.phases[i] == Called));
    var phases := Initial(s, |actions|).phases;
    assert (set i | 0 <= i < |phases| && (phases[i] == Started || phases[i] == Called)) == {};
    RunKeepsLimit(Initial(s, |actions|), actions, outcomes, schedule, end);
  }

  // ------------------------------------------------------------- the foreign key

  /** Every run, finished or not, keeps the mirror on existing links. */
  lemma {:induction false} RunsKeepForeignKey(c: Config, actions: seq<Action>, outcomes: seq<Outcome>,
                                              schedule: seq<nat>, end: Config)
    requires |actions| == |outcomes| == |c.phases| && RunsTo(c, actions, outcomes, schedule, end)
    requires c.stores.Valid()
    ensures end.stores.Valid()
    decreases |schedule|
  {
    if schedule != [] {
      StepsKeepForeignKey(c.stores, actions[schedule[0]], outcomes[schedule[0]]);
      RunsKeepForeignKey(Next(c, actions, outcomes, schedule[0]), actions, outcomes, schedule[1..], end);
    }
  }

  lemma {:induction false} SequentialKeepsForeignKey(s: Stores, actions: seq<Action>, outcomes: seq<Outcome>)
    requires |actions| == |outcomes| && s.Valid()
    ensures Sequential(s, actions, outcomes).Valid()
  {
    if actions != [] {
      var n := |actions| - 1;
      SequentialKeepsForeignKey(s, actions[..n], outcomes[..n]);
      var mid := Sequential(s, actions[..n], outcomes[..n]);
      StepsKeepForeignKey(mid, actions[n], outcomes[n]);
      StepsKeepForeignKey(RemoteStep(mid, actions[n], outcomes[n].reply), actions[n], outcomes[n]);
    }
  }

  // ------------------------------------------------ interleaving independence

  /** A link's part once its action has got as far as `phase`. */
  function PhaseCell(c: Cell, a: Action, o: Outcome, phase: Phase): Cell {
    match phase
    case Waiting => c
    case Started => c
    case Called => RemoteCell(c, a, o.reply)
    case Done => LocalCell(RemoteCell(c, a, o.reply), a, o)
  }

  /** Each action's link depends on that action's progress alone, and links
      without an action are as they were. */
  ghost predicate Tracks(s: Stores, c: Config, actions: seq<Action>, outcomes: seq<Outcome>) {
    && |actions| == |outcomes| == |c.phases|
    && (forall i | 0 <= i < |actions| ::
          CellAt(c.stores, actions[i].key) ==
          PhaseCell(CellAt(s, actions[i].key), actions[i], outcomes[i], c.phases[i]))
    && (forall k | forall i | 0 <= i < |actions| :: actions[i].key != k :: CellAt(c.stores, k) == CellAt(s, k))
  }

  lemma StepTracks(s: Stores, c: Config, actions: seq<Action>, outcomes: seq<Outcome>, i: nat)
    requires DistinctKeys(actions) && Tracks(s, c, actions, outcomes) && Enabled(c.phases, i)
    ensures Tracks(s, Next(c, actions, outcomes, i), actions, outcomes)
  {
    var d := Next(c, actions, outcomes, i);
    forall k ensures k != actions[i].key ==> CellAt(d.stores, k) == CellAt(c.stores, k) {
      RemoteStepIsLocalToItsKey(c.stores, actions[i], outcomes[i].reply, k);
      LocalStepIsLocalToItsKey(c.stores, actions[i], outcomes[i], k);
    }
    RemoteStepIsLocalToItsKey(c.stores, actions[i], outcomes[i].reply, actions[i].key);
    LocalStepIsLocalToItsKey(c.stores, actions[i], outcomes[i], actions[i].key);
    forall j | 0 <= j < |actions|
      ensures CellAt(d.stores, actions[j].key) ==
              PhaseCell(CellAt(s, actions[j].key), actions[j], outcomes[j], d.phases[j])
    {
      if j != i {
        assert actions[j].key != actions[i].key;
      }
    }
  }

  lemma {:induction false} RunTracks(s: Stores, c: Config, actions: seq<Action>, outcomes: seq<Outcome>,
                                     schedule: seq<nat>, end: Config)
    requires DistinctKeys(actions) && Tracks(s, c, actions, outcomes)
    requires RunsTo(c, actions, outcomes, schedule, end)
    ensures Tracks(s, end, actions, outcomes)
    decreases |schedule|
  {
    if schedule != [] {
      StepTracks(s, c, actions, outcomes, schedule[0]);
      RunTracks(s, Next(c, actions, outcomes, schedule[0]), actions, outcomes, schedule[1..], end);
    }
  }

  lemma BothStepsAreLocalToTheirKey(s: Stores, a: Action, o: Outcome, k: LinkKey)
    ensures CellAt(BothSteps(s, a, o), k) ==
            if k == a.key then PhaseCell(CellAt(s, k), a, o, Done) else CellAt(s, k)
  {
    RemoteStepIsLocalToItsKey(s, a, o.reply, k);
    LocalStepIsLocalToItsKey(RemoteStep(s, a, o.reply), a, o, k);
  }

  lemma {:induction false} SequentialCell(s: Stores, actions: seq<Action>, outcomes: seq<Outcome>, k: LinkKey)
    requires |actions| == |outcomes| && DistinctKeys(actions)
    ensures var cell := CellAt(Sequential(s, actions, outcomes), k);
      && (forall i | 0 <= i < |actions| && actions[i].key == k ::
            cell == PhaseCell(CellAt(s, k), actions[i], outcomes[i], Done))
      && ((forall i | 0 <= i < |actions| :: actions[i].key != k) ==> cell == CellAt(s, k))
  {
    if actions != [] {
      var n := |actions| - 1;
      SequentialCell(s, actions[..n], outcomes[..n], k);
      BothStepsAreLocalToTheirKey(Sequential(s, actions[..n], outcomes[..n]), actions[n], outcomes[n], k);
    }
  }

  lemma SequentialCells(s: Stores, actions: seq<Action>, outcomes: seq<Outcome>)
    requires |actions| == |outcomes| && DistinctKeys(actions)
    ensures Tracks(s, Config(Sequential(s, actions, outcomes), seq(|actions|, _ => Done)), actions, outcomes)
  {
    forall k { SequentialCell(s, actions, outcomes, k); }
  }

  lemma TracksDetermines(s: Stores, c: Config, d: Config, actions: seq<Action>, outcomes: seq<Outcome>)
    requires Tracks(s, c, actions, outcomes) && Tracks(s, d, actions, outcomes)
    requires c.phases == d.phases
    ensures c.stores == d.stores
  {
    forall k ensures CellAt(c.stores, k) == CellAt(d.stores, k) {
      if i :| 0 <= i < |actions| && actions[i].key == k {
      } else {
        assert CellAt(c.stores, k) == CellAt(s, k);
        assert CellAt(d.stores, k) == CellAt(s, k);
      }
    }
    CellsDetermineStores(c.stores, d.stores);
  }

  /** Whatever the schedule and whatever each call answers, a finished run leaves
      the stores of the one-after-another run. */
  lemma InterleavingIndependence(s: Stores, actions: seq<Action>, outcomes: seq<Outcome>,
                                 schedule: seq<nat>, end: Config)
    requires |actions| == |outcomes| && DistinctKeys(actions)
    requires RunsTo(Initial(s, |actions|), actions, outcomes, schedule, end)
    requires AllDone(end)
    ensures end.stores == Sequential(s, actions, outcomes)
  {
    RunTracks(s, Initial(s, |actions|), actions, outcomes, schedule, end);
    SequentialCells(s, actions, outcomes);
    var done := Config(Sequential(s, actions, outcomes), seq(|actions|, _ => Done));
    assert end.phases == done.phases;
    TracksDetermines(s, end, done, actions, outcomes);
  }

  // -------------------------------------------------------------- convergence

  predicate Settled(s: Stores, k: LinkKey, user: string, q: bool) {
    (Assignment(k, user) in s.live) == (Assignment(k, user) in s.mirror) == q
  }

  /** Where the mirror says nothing is to be done, the live list is right. */
  predicate Recoverable(s: Stores, k: LinkKey, user: string, q: bool) {
    (Assignment(k, user) in s.mirror) == q ==> (Assignment(k, user) in s.live) == q
  }

  ghost predicate AllRecoverable(s: Stores, keys: seq<LinkKey>, user: string, qual: set<LinkKey>) {
    forall k | k in keys && k in s.links :: Recoverable(s, k, user, k in qual)
  }

  lemma CellMembership(s: Stores, k: LinkKey, u: string)
    ensures Assignment(k, u) in s.live <==> u in CellAt(s, k).live
    ensures Assignment(k, u) in s.mirror <==> u in CellAt(s, k).mirror
    ensures k in s.links <==> CellAt(s, k).link.Some?
  {
    UsersOfMember(s.live, k, u);
    UsersOfMember(s.mirror, k, u);
  }

  /** How far one link has got: it had no action and is as it was, or action `i`
      is its own and in the direction of the qualification. */
  lemma LinkProgress(s: Stores, keys: seq<LinkKey>, user: string, qual: set<LinkKey>, outcomes: seq<Outcome>,
                     c: Config, k: LinkKey)
    returns (i: int)
    requires Distinct(keys) && k in keys
    requires Tracks(s, c, Plan(keys, user, qual, s.mirror), outcomes)
    ensures -1 <= i < |outcomes|
    ensures i == -1 ==> (k in qual) == (user in CellAt(s, k).mirror) && CellAt(c.stores, k) == CellAt(s, k)
    ensures i >= 0 ==>
      && Plan(keys, user, qual, s.mirror)[i].key == k
      && (k in qual) != (user in CellAt(s, k).mirror)
      && CellAt(c.stores, k) == PhaseCell(CellAt(s, k), if k in qual then Add(k, user) else Remove(k, user),
                                          outcomes[i], c.phases[i])
  {
    var actions := Plan(keys, user, qual, s.mirror);
    PlanMeaning(keys, user, qual, s.mirror);
    CellMembership(s, k, user);
    if j :| 0 <= j < |actions| && actions[j].key == k {
      i := j;
      assert actions[j] in actions;
    } else {
      i := -1;
      forall a | a in actions ensures a.key != k {
        var l :| 0 <= l < |actions| && actions[l] == a;
      }
    }
  }

  lemma ProgressIsRecoverable(s: Stores, keys: seq<LinkKey>, user: string, qual: set<LinkKey>,
                              outcomes: seq<Outcome>, c: Config, k: LinkKey)
    requires Distinct(keys) && k in keys && Recoverable(s, k, user, k in qual)
    requires Tracks(s, c, Plan(keys, user, qual, s.mirror), outcomes)
    ensures k in c.stores.links ==> Recoverable(c.stores, k, user, k in qual)
  {
    var i := LinkProgress(s, keys, user, qual, outcomes, c, k);
    CellMembership(s, k, user);
    CellMembership(c.stores, k, user);
  }

  /** However far a run got and however its calls ended, every link it may still
      find later is recoverable. */
  lemma InterruptedRunStaysRecoverable(s: Stores, keys: seq<LinkKey>, user: string, qual: set<LinkKey>,
                                       outcomes: seq<Outcome>, schedule: seq<nat>, end: Config)
    requires Distinct(keys) && AllRecoverable(s, keys, user, qual)
    requires |outcomes| == |Plan(keys, user, qual, s.mirror)|
    requires RunsTo(Initial(s, |outcomes|), Plan(keys, user, qual, s.mirror), outcomes, schedule, end)
    requires forall k | k in keys :: k in s.links
    ensures AllRecoverable(end.stores, keys, user, qual)
  {
    var actions := Plan(keys, user, qual, s.mirror);
    PlanMeaning(keys, user, qual, s.mirror);
    RunTracks(s, Initial(s, |actions|), actions, outcomes, schedule, end);
    forall k | k in keys && k in end.stores.links ensures Recoverable(end.stores, k, user, k in qual) {
      ProgressIsRecoverable(s, keys, user, qual, outcomes, end, k);
    }
  }

  /** A run touches no links but those it acts on, and creates none. */
  lemma RunCreatesNoLinks(s: Stores, actions: seq<Action>, outcomes: seq<Outcome>, c: Config, k: LinkKey)
    requires Tracks(s, c, actions, outcomes)
    ensures k in c.stores.links ==> k in s.links
    ensures (forall a | a in actions :: a.key != k) ==> CellAt(c.stores, k) == CellAt(s, k)
  {
    CellMembership(s, k, "");
    CellMembership(c.stores, k, "");
    if i :| 0 <= i < |actions| && actions[i].key == k {
      assert actions[i] in actions;
    }
  }

  lemma SuccessSettles(s: Stores, keys: seq<LinkKey>, user: string, qual: set<LinkKey>,
                       outcomes: seq<Outcome>, c: Config, k: LinkKey)
    requires Distinct(keys) && k in keys && k in s.links
    requires Tracks(s, c, Plan(keys, user, qual, s.mirror), outcomes)
    requires forall i | 0 <= i < |outcomes| :: outcomes[i] == Outcome(Accepted, true)
    requires AllDone(c)
    ensures Settled(c.stores, k, user, k in qual) <==> Recoverable(s, k, user, k in qual)
  {
    var i := LinkProgress(s, keys, user, qual, outcomes, c, k);
    CellMembership(s, k, user);
    CellMembership(c.stores, k, user);
  }

  /** A complete run whose calls and writes all succeed settles every link of the
      player exactly when each was recoverable before it. */
  lemma SuccessfulRunSettles(s: Stores, keys: seq<LinkKey>, user: string, qual: set<LinkKey>,
                             outcomes: seq<Outcome>, schedule: seq<nat>, end: Config)
    requires Distinct(keys) && forall k | k in keys :: k in s.links
    requires |outcomes| == |Plan(keys, user, qual, s.mirror)|
    requires forall i | 0 <= i < |outcomes| :: outcomes[i] == Outcome(Accepted, true)
    requires RunsTo(Initial(s, |outcomes|), Plan(keys, user, qual, s.mirror), outcomes, schedule, end)
    requires AllDone(end)
    ensures (forall k | k in keys :: Settled(end.stores, k, user, k in qual)) <==> AllRecoverable(s, keys, user, qual)
  {
    var actions := Plan(keys, user, qual, s.mirror);
    PlanMeaning(keys, user, qual, s.mirror);
    RunTracks(s, Initial(s, |actions|), actions, outcomes, schedule, end);
    forall k | k in keys
      ensures Settled(end.stores, k, user, k in qual) <==> Recoverable(s, k, user, k in qual)
    {
      SuccessSettles(s, keys, user, qual, outcomes, end, k);
    }
  }

  /** One attempt: what its calls answer and how far it gets in which order. */
  datatype Attempt = Attempt(outcomes: seq<Outcome>, schedule: seq<nat>)

  /** The links of the player that are still there. */
  function Remaining(keys: seq<LinkKey>, s: Stores): seq<LinkKey> {
    if keys == [] then []
    else
      var n := |keys| - 1;
      Remaining(keys[..n], s) + if keys[n] in s.links then [keys[n]] else []
  }

  lemma {:induction false} RemainingMeaning(keys: seq<LinkKey>, s: Stores)
    ensures forall k :: k in Remaining(keys, s) <==> k in keys && k in s.links
    ensures Distinct(keys) ==> Distinct(Remaining(keys, s))
  {
    if keys != [] {
      RemainingMeaning(keys[..|keys| - 1], s);
    }
  }

  /** A history of attempts, each cut off anywhere, each planned from the mirror
      as it then stands. */
  ghost predicate AttemptsReach(s: Stores, keys: seq<LinkKey>, user: string, qual: set<LinkKey>,
                                attempts: seq<Attempt>, end: Stores)
    decreases |attempts|
  {
    if attempts == [] then s == end
    else
      var here := Remaining(keys, s);
      var actions := Plan(here, user, qual, s.mirror);
      && |attempts[0].outcomes| == |actions|
      && exists c: Config ::
           && RunsTo(Initial(s, |actions|), actions, attempts[0].outcomes, attempts[0].schedule, c)
           && AttemptsReach(c.stores, keys, user, qual, attempts[1..], end)
  }

  lemma {:induction false} AttemptsStayRecoverable(s: Stores, keys: seq<LinkKey>, user: string, qual: set<LinkKey>,
                                                   attempts: seq<Attempt>, end: Stores)
    requires Distinct(keys) && AllRecoverable(s, keys, user, qual)
    requires AttemptsReach(s, keys, user, qual, attempts, end)
    ensures AllRecoverable(end, keys, user, qual)
    decreases |attempts|
  {
    if attempts != [] {
      var here := Remaining(keys, s);
      RemainingMeaning(keys, s);
      var actions := Plan(here, user, qual, s.mirror);
      var c: Config :|
        && RunsTo(Initial(s, |actions|), actions, attempts[0].outcomes, attempts[0].schedule, c)
        && AttemptsReach(c.stores, keys, user, qual, attempts[1..], end);
      InterruptedRunStaysRecoverable(s, here, user, qual, attempts[0].outcomes, attempts[0].schedule, c);
      PlanMeaning(here, user, qual, s.mirror);
      RunTracks(s, Initial(s, |actions|), actions, attempts[0].outcomes, attempts[0].schedule, c);
      forall k | k in keys && k in c.stores.links ensures Recoverable(c.stores, k, user, k in qual) {
        RunCreatesNoLinks(s, actions, attempts[0].outcomes, c, k);
        assert k in here;
      }
      AttemptsStayRecoverable(c.stores, keys, user, qual, attempts[1..], end);
    }
  }

  /** Start with equal stores, interrupt the sync any number of times anywhere,
      let any calls fail or vanish; the first run that succeeds makes live list,
      mirror and qualification coincide on every link the player still has. */
  lemma Convergence(s: Stores, keys: seq<LinkKey>, user: string, qual: set<LinkKey>, attempts: seq<Attempt>,
                    mid: Stores, outcomes: seq<Outcome>, schedule: seq<nat>, end: Config)
    requires Distinct(keys)
    requires forall k | k in keys :: Assignment(k, user) in s.live <==> Assignment(k, user) in s.mirror
    requires AttemptsReach(s, keys, user, qual, attempts, mid)
    requires |outcomes| == |Plan(Remaining(keys, mid), user, qual, mid.mirror)|
    requires forall i | 0 <= i < |outcomes| :: outcomes[i] == Outcome(Accepted, true)
    requires RunsTo(Initial(mid, |outcomes|), Plan(Remaining(keys, mid), user, qual, mid.mirror), outcomes,
                    schedule, end)
    requires AllDone(end)
    ensures forall k | k in keys && k in mid.links :: Settled(end.stores, k, user, k in qual)
  {
    AttemptsStayRecoverable(s, keys, user, qual, attempts, mid);
    RemainingMeaning(keys, mid);
    SuccessfulRunSettles(mid, Remaining(keys, mid), user, qual, outcomes, schedule, end);
  }
}
