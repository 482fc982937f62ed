/** Whole histories of the system: syncs of any players and bulk syncs of any
    links, one after another, each cut off or answered in any way, while the data
    and the configuration change between them. */
module SystemHistory {
  import opened Wrappers
  import opened Conditions
  import opened ConditionSql
  import opened Database
  import opened RoleStores
  import opened PlayerSync
  import opened SyncService
  import opened SyncTheorems

  /** A player's sync, with what its calls answer and how far it gets in which
      order; a bulk sync that pushes `ids`; a link registered or reconfigured; a
      link deleted. */
  datatype Event =
    | PlayerRun(user: string, rows: seq<LinkKey>, outcomes: seq<Outcome>, schedule: seq<nat>)
    | BulkRun(key: LinkKey, ids: seq<string>, replies: Replies, dbOk: bool)
    | Saved(key: LinkKey, conditions: seq<Condition>)
    | Deleted(key: LinkKey)

  // ------------------------------------------------------------------- one event

  /** What a player's sync that wants `wanted` does: `gone` are the links that
      RoleLogic may report as gone. */
  ghost predicate Acts(s: Stores, e: Event, wanted: set<LinkKey>, gone: set<LinkKey>, c: Config)
    requires e.PlayerRun?
  {
    var actions := Plan(e.rows, e.user, wanted, s.mirror);
    && Distinct(e.rows) && (forall k | k in e.rows :: k in s.links)
    && |e.outcomes| == |actions|
    && (forall i | 0 <= i < |actions| && e.outcomes[i].reply == Gone :: actions[i].key in gone)
    && RunsTo(Initial(s, |actions|), actions, e.outcomes, e.schedule, c)
  }

  /** All its calls and writes succeed, and it runs to its end. */
  ghost predicate Succeeds(s: Stores, e: Event, wanted: set<LinkKey>, gone: set<LinkKey>, t: Stores)
    requires e.PlayerRun?
  {
    && (forall i | 0 <= i < |e.outcomes| :: e.outcomes[i] == Outcome(Accepted, true))
    && exists c :: Acts(s, e, wanted, gone, c) && c.stores == t && AllDone(c)
  }

  /** The links among `rows` for which the user qualifies. */
  function QualifiedRows(rows: seq<LinkKey>, user: string, qual: set<Assignment>): set<LinkKey> {
    set k | k in rows && Assignment(k, user) in qual
  }

  /** One event under data by which exactly `qual` qualify. */
  ghost predicate Happens(s: Stores, e: Event, gone: set<LinkKey>, qual: set<Assignment>, t: Stores) {
    match e
    case PlayerRun(user, rows, _, _) =>
      exists c :: Acts(s, e, QualifiedRows(rows, user, qual), gone, c) && c.stores == t
    case BulkRun(k, ids, replies, dbOk) =>
      && k in s.links
      && (forall u :: u in ids <==> Assignment(k, u) in qual)
      && (LinkGone(|ids|, replies) ==> k in gone)
      && t == BulkStores(s, k, ids, replies, dbOk)
    case Saved(k, conditions) => t == s.(links := s.links[k := conditions])
    case Deleted(k) => k in gone && t == DeleteOrphan(s, k, true)
  }

  /** A run on behalf of one user leaves every other user of a link alone, unless
      the link is reported as gone. */
  lemma OtherUsersAreKept(s: Stores, c: Config, actions: seq<Action>, outcomes: seq<Outcome>, k: LinkKey, u: string)
    requires Tracks(s, c, actions, outcomes)
    requires forall i | 0 <= i < |actions| :: actions[i].user != u
    requires forall i | 0 <= i < |actions| && actions[i].key == k :: outcomes[i].reply != Gone
    ensures u in CellAt(c.stores, k).live <==> u in CellAt(s, k).live
    ensures u in CellAt(c.stores, k).mirror <==> u in CellAt(s, k).mirror
  {
    if i :| 0 <= i < |actions| && actions[i].key == k {
      assert CellAt(c.stores, k) == PhaseCell(CellAt(s, k), actions[i], outcomes[i], c.phases[i]);
    } else {
      assert CellAt(c.stores, k) == CellAt(s, k);
    }
  }

  /** Both stores agree on one user of one link. */
  predicate Equal(s: Stores, a: Assignment) {
    a in s.live <==> a in s.mirror
  }

  /** Both stores hold of one user of one link what they held before. */
  predicate Same(s: Stores, t: Stores, a: Assignment) {
    (a in s.live <==> a in t.live) && (a in s.mirror <==> a in t.mirror)
  }

  /** An action took effect in RoleLogic and was not recorded. */
  predicate Parts(s: Stores, t: Stores, a: Assignment, q: bool) {
    Equal(s, a) && (a in t.live) == q && (a in t.mirror) != q
  }

  /** A planned action on its link's part, as far as it got. */
  lemma ActionOnCell(c: Cell, a: Action, o: Outcome, phase: Phase)
    requires a.Add? <==> a.user !in c.mirror
    requires a.Add? ==> c.link.Some?
    requires o.reply != Gone
    ensures var d := PhaseCell(c, a, o, phase);
      var u := a.user;
      || ((u in d.live <==> u in c.live) && (u in d.mirror <==> u in c.mirror))
      || (u in d.live <==> u in d.mirror)
      || ((u in c.live <==> u in c.mirror) && (u in d.live) == a.Add? && (u in d.mirror) != a.Add?)
  {
  }

  /** A player's sync, on that player and one link of its rows that is not gone. */
  lemma OwnStep(s: Stores, e: Event, wanted: set<LinkKey>, gone: set<LinkKey>, c: Config, a: Assignment)
    requires e.PlayerRun? && Acts(s, e, wanted, gone, c) && a.key !in gone
    requires a.user == e.user && a.key in e.rows
    requires Tracks(s, c, Plan(e.rows, e.user, wanted, s.mirror), e.outcomes)
    ensures Same(s, c.stores, a) || Equal(c.stores, a) || Parts(s, c.stores, a, a.key in wanted)
  {
    CellMembership(s, a.key, a.user);
    CellMembership(c.stores, a.key, a.user);
    assert a == Assignment(a.key, a.user);
    var i := LinkProgress(s, e.rows, e.user, wanted, e.outcomes, c, a.key);
    if i >= 0 {
      var action := if a.key in wanted then Add(a.key, a.user) else Remove(a.key, a.user);
      ActionOnCell(CellAt(s, a.key), action, e.outcomes[i], c.phases[i]);
    }
  }

  /** A player's sync, on one user of one link that is not gone. */
  lemma PlayerStep(s: Stores, e: Event, wanted: set<LinkKey>, gone: set<LinkKey>, c: Config, a: Assignment)
    requires e.PlayerRun? && Acts(s, e, wanted, gone, c) && a.key !in gone
    ensures Same(s, c.stores, a) || Equal(c.stores, a)
            || (a.user == e.user && a.key in e.rows && Parts(s, c.stores, a, a.key in wanted))
  {
    var actions := Plan(e.rows, e.user, wanted, s.mirror);
    PlanMeaning(e.rows, e.user, wanted, s.mirror);
    RunTracks(s, Initial(s, |actions|), actions, e.outcomes, e.schedule, c);
    if a.user == e.user && a.key in e.rows {
      OwnStep(s, e, wanted, gone, c, a);
    } else {
      CellMembership(s, a.key, a.user);
      CellMembership(c.stores, a.key, a.user);
      assert a == Assignment(a.key, a.user);
      if a.user != e.user {
        forall i | 0 <= i < |actions| ensures actions[i].user != a.user { assert actions[i] in actions; }
        OtherUsersAreKept(s, c, actions, e.outcomes, a.key, a.user);
      } else {
        assert forall x | x in actions :: x.key != a.key;
        RunCreatesNoLinks(s, actions, e.outcomes, c, a.key);
      }
    }
  }

  /** Any event, on one user of one link that is not gone: it leaves the two
      entries as they were, or equal, or it is what parts them, and then the live
      list is on the side of that event's data. */
  lemma EventStep(s: Stores, e: Event, gone: set<LinkKey>, qual: set<Assignment>, t: Stores, a: Assignment)
    requires Happens(s, e, gone, qual, t) && a.key !in gone
    ensures Same(s, t, a) || Equal(t, a) || Parts(s, t, a, a in qual)
  {
    match e {
      case PlayerRun(user, rows, _, _) =>
        var wanted := QualifiedRows(rows, user, qual);
        var c :| Acts(s, e, wanted, gone, c) && c.stores == t;
        PlayerStep(s, e, wanted, gone, c, a);
        assert a == Assignment(a.key, a.user);
      case BulkRun(k, ids, replies, dbOk) =>
        if a.key == k {
          PushedCell(s, k, ids, replies, dbOk);
        } else {
          OtherLinksAreKept(s, k, ids, replies, dbOk, a.key);
        }
        CellMembership(s, a.key, a.user);
        CellMembership(t, a.key, a.user);
        assert a == Assignment(a.key, a.user);
      case Saved(_, _) =>
      case Deleted(_) =>
    }
  }

  // -------------------------------------------------------------------- histories

  /** `trace` lists the stores between the events, `quals` who qualifies at each. */
  ghost predicate History(trace: seq<Stores>, events: seq<Event>, gone: set<LinkKey>, quals: seq<set<Assignment>>) {
    && |trace| == |events| + 1 && |quals| == |events|
    && forall i | 0 <= i < |events| :: Happens(trace[i], events[i], gone, quals[i], trace[i + 1])
  }

  /** Event `i` parted the two entries, and neither has changed since. */
  ghost predicate LeftUnrecorded(trace: seq<Stores>, quals: seq<set<Assignment>>, i: nat, a: Assignment) {
    && i < |quals| && |trace| == |quals| + 1
    && Parts(trace[i], trace[i + 1], a, a in quals[i])
    && forall j | i + 1 <= j < |trace| :: Same(trace[i + 1], trace[j], a)
  }

  /** What every event of a history does to one user of one link. */
  ghost predicate Moves(trace: seq<Stores>, quals: seq<set<Assignment>>, a: Assignment) {
    && |trace| == |quals| + 1
    && forall i | 0 <= i < |quals| ::
         Same(trace[i], trace[i + 1], a) || Equal(trace[i + 1], a) || Parts(trace[i], trace[i + 1], a, a in quals[i])
  }

  /** What was left unrecorded stays so when the last event changes nothing. */
  lemma StillUnrecorded(trace: seq<Stores>, quals: seq<set<Assignment>>, i: nat, a: Assignment)
    requires |trace| == |quals| + 1 && i < |quals| - 1
    requires LeftUnrecorded(trace[..|quals|], quals[..|quals| - 1], i, a)
    requires Same(trace[|quals| - 1], trace[|quals|], a)
    ensures LeftUnrecorded(trace, quals, i, a)
  {
    var n := |quals|;
    forall j | i + 1 <= j < |trace| ensures Same(trace[i + 1], trace[j], a) {
      if j < n { assert Same(trace[..n][i + 1], trace[..n][j], a); }
      assert Same(trace[..n][i + 1], trace[..n][n - 1], a);
    }
  }

  /** After any history from equal entries, they differ if and only if some action
      was left unrecorded. */
  lemma DriftHasOneCause(trace: seq<Stores>, events: seq<Event>, gone: set<LinkKey>, quals: seq<set<Assignment>>,
                         a: Assignment)
    requires History(trace, events, gone, quals) && Equal(trace[0], a) && a.key !in gone
    ensures !Equal(trace[|events|], a) <==> exists i: nat :: LeftUnrecorded(trace, quals, i, a)
  {
    forall i | 0 <= i < |events|
      ensures Same(trace[i], trace[i + 1], a) || Equal(trace[i + 1], a)
              || Parts(trace[i], trace[i + 1], a, a in quals[i])
    {
      EventStep(trace[i], events[i], gone, quals[i], trace[i + 1], a);
    }
    MovesDrift(trace, quals, a);
  }

  lemma {:induction false} MovesDrift(trace: seq<Stores>, quals: seq<set<Assignment>>, a: Assignment)
    requires Moves(trace, quals, a) && Equal(trace[0], a)
    ensures !Equal(trace[|quals|], a) <==> exists i: nat :: LeftUnrecorded(trace, quals, i, a)
    decreases |quals|
  {
    var n := |quals|;
    if i: nat :| LeftUnrecorded(trace, quals, i, a) { assert Same(trace[i + 1], trace[n], a); }
    if n > 0 && !Equal(trace[n], a) {
      if Equal(trace[n - 1], a) {
        assert LeftUnrecorded(trace, quals, n - 1, a);
      } else {
        MovesDrift(trace[..n], quals[..n - 1], a);
        var i: nat :| LeftUnrecorded(trace[..n], quals[..n - 1], i, a);
        StillUnrecorded(trace, quals, i, a);
      }
    }
  }

  lemma SuccessSettlesExactlyRecoverable(s: Stores, e: Event, wanted: set<LinkKey>, gone: set<LinkKey>, t: Stores,
                                         k: LinkKey)
    requires e.PlayerRun? && k in e.rows && Succeeds(s, e, wanted, gone, t)
    ensures Settled(t, k, e.user, k in wanted) <==> Recoverable(s, k, e.user, k in wanted)
  {
    var c :| Acts(s, e, wanted, gone, c) && c.stores == t && AllDone(c);
    var actions := Plan(e.rows, e.user, wanted, s.mirror);
    PlanMeaning(e.rows, e.user, wanted, s.mirror);
    RunTracks(s, Initial(s, |actions|), actions, e.outcomes, e.schedule, c);
    SuccessSettles(s, e.rows, e.user, wanted, e.outcomes, c, k);
  }

  /** After any history, under any changes of the data: a player's next sync that
      succeeds settles a link if and only if what was left unrecorded on it, if
      anything, went the way the data now say. */
  lemma PlayerSyncSettlesExactlyWhen(trace: seq<Stores>, events: seq<Event>, gone: set<LinkKey>,
                                     quals: seq<set<Assignment>>, next: Event, wanted: set<LinkKey>, t: Stores,
                                     k: LinkKey)
    requires History(trace, events, gone, quals) && next.PlayerRun? && k in next.rows && k !in gone
    requires Equal(trace[0], Assignment(k, next.user))
    requires Succeeds(trace[|events|], next, wanted, gone, t)
    ensures Settled(t, k, next.user, k in wanted) <==>
            forall i: nat | LeftUnrecorded(trace, quals, i, Assignment(k, next.user)) ::
              (Assignment(k, next.user) in quals[i]) == (k in wanted)
  {
    var mid, a := trace[|events|], Assignment(k, next.user);
    SuccessSettlesExactlyRecoverable(mid, next, wanted, gone, t, k);
    DriftHasOneCause(trace, events, gone, quals, a);
    forall i: nat | LeftUnrecorded(trace, quals, i, a)
      ensures (a in mid.live) == (a in quals[i]) && !Equal(mid, a)
    {
      assert Same(trace[i + 1], mid, a);
    }
  }

  /** An Add whose local write fails, run to its end. */
  lemma UnrecordedAdd(k: LinkKey, user: string)
    ensures var s := Stores({}, {}, map[k := []]);
      var t := s.(live := {Assignment(k, user)});
      Acts(s, PlayerRun(user, [k], [Outcome(Accepted, false)], [0, 0, 0]), {k}, {}, Config(t, [Done]))
  {
    var s := Stores({}, {}, map[k := []]);
    var t := s.(live := {Assignment(k, user)});
    var outcomes := [Outcome(Accepted, false)];
    var actions := Plan([k], user, {k}, {});
    assert Plan([k][..0], user, {k}, {}) == [] && actions == [Add(k, user)];
    var c0, c1, c2, c3 := Initial(s, 1), Config(s, [Started]), Config(t, [Called]), Config(t, [Done]);
    assert (set i | 0 <= i < 1 && (c0.phases[i] == Started || c0.phases[i] == Called)) == {};
    assert Next(c0, actions, outcomes, 0) == c1;
    assert Next(c1, actions, outcomes, 0) == c2;
    assert Next(c2, actions, outcomes, 0) == c3;
    assert [0, 0, 0][1..] == [0, 0] && [0, 0][1..] == [0] && [0][1..] == [];
    assert RunsTo(c2, actions, outcomes, [0], c3);
    assert RunsTo(c1, actions, outcomes, [0, 0], c3);
  }

  /** The failing case: an Add is accepted and its local write fails; then the user
      stops qualifying. The next sync plans nothing, succeeds, and leaves the user
      in the live list. */
  lemma ChangedDataStrandsAUser(k: LinkKey, user: string)
    ensures var a := Assignment(k, user);
      var s := Stores({}, {}, map[k := []]);
      var t := s.(live := {a});
      var add := PlayerRun(user, [k], [Outcome(Accepted, false)], [0, 0, 0]);
      && History([s, t], [add], {}, [{a}])
      && Succeeds(t, PlayerRun(user, [k], [], []), {}, {}, t)
      && a in t.live && !Settled(t, k, user, false)
  {
    var t := Stores({Assignment(k, user)}, {}, map[k := []]);
    UnrecordedAdd(k, user);
    assert QualifiedRows([k], user, {Assignment(k, user)}) == {k};
    assert Plan([k][..0], user, {}, {}) == [] && Plan([k], user, {}, {}) == [];
    assert Acts(t, PlayerRun(user, [k], [], []), {}, {}, Initial(t, 0));
  }

  /** A link's next push that succeeds settles every user on it, whatever was before. */
  lemma PushSettles(s: Stores, e: Event, gone: set<LinkKey>, qual: set<Assignment>, t: Stores)
    requires e.BulkRun? && Happens(s, e, gone, qual, t)
    requires ReplaceResult(|e.ids|, e.replies).Ok? && e.dbOk
    ensures forall u :: Settled(t, e.key, u, Assignment(e.key, u) in qual)
  {
    forall u { PushedIsMirrored(s, e.key, e.ids, e.replies, u); }
  }

  // ------------------------------------------------------------- on the same data

  /** Every user is recoverable on every link that is not gone. */
  ghost predicate SystemRecoverable(s: Stores, gone: set<LinkKey>, qual: set<Assignment>) {
    forall k, u | k !in gone :: Recoverable(s, k, u, Assignment(k, u) in qual)
  }

  /** Over every history on the same data, whatever fails, is lost or is cut off:
      nothing that the next sync could not repair. */
  lemma {:induction false} HistoryStaysRecoverable(trace: seq<Stores>, events: seq<Event>, gone: set<LinkKey>,
                                                   quals: seq<set<Assignment>>, qual: set<Assignment>)
    requires History(trace, events, gone, quals) && forall i | 0 <= i < |quals| :: quals[i] == qual
    requires SystemRecoverable(trace[0], gone, qual)
    ensures SystemRecoverable(trace[|events|], gone, qual)
  {
    if events != [] {
      var n := |events| - 1;
      HistoryStaysRecoverable(trace[..n + 1], events[..n], gone, quals[..n], qual);
      forall k, u | k !in gone ensures Recoverable(trace[n + 1], k, u, Assignment(k, u) in qual) {
        assert Recoverable(trace[n], k, u, Assignment(k, u) in qual);
        EventStep(trace[n], events[n], gone, quals[n], trace[n + 1], Assignment(k, u));
      }
    }
  }

  /** So then a player's next sync that succeeds settles that player everywhere. */
  lemma NextSuccessSettles(trace: seq<Stores>, events: seq<Event>, gone: set<LinkKey>, quals: seq<set<Assignment>>,
                           qual: set<Assignment>, next: Event, t: Stores)
    requires History(trace, events, gone, quals) && forall i | 0 <= i < |quals| :: quals[i] == qual
    requires forall a :: Equal(trace[0], a)
    requires next.PlayerRun? && Succeeds(trace[|events|], next, QualifiedRows(next.rows, next.user, qual), gone, t)
    ensures forall k | k in next.rows && k !in gone :: Settled(t, k, next.user, Assignment(k, next.user) in qual)
  {
    var wanted := QualifiedRows(next.rows, next.user, qual);
    forall k | k in next.rows && k !in gone ensures Settled(t, k, next.user, Assignment(k, next.user) in qual) {
      PlayerSyncSettlesExactlyWhen(trace, events, gone, quals, next, wanted, t, k);
    }
  }

  // ----------------------------------------------------------- from the tables

  /** What the syncs read; `members` is the one relation of guild membership. */
  datatype Data = Data(db: Db, members: string -> seq<string>, readable: string -> bool, now: int)

  /** The players who qualify, link by link. */
  ghost function Qualified(d: Data, links: map<LinkKey, seq<Condition>>): set<Assignment> {
    set k, a | k in links && a in d.db.accounts && Qualifies(d, links, k, a.discordId) :: Assignment(k, a.discordId)
  }

  ghost predicate Qualifies(d: Data, links: map<LinkKey, seq<Condition>>, k: LinkKey, user: string) {
    && k in links && user in d.members(k.guild) && PlayerRow(d.db, user).Some?
    && LinkQualifies(d.db, PlayerRow(d.db, user).value, k, links[k], _ => true, d.now)
  }

  /** Where both kinds of sync can be trusted: SQL reads members' rows like the
      interpreter, and the stats of game conditions can be read. */
  ghost predicate Agreeing(d: Data, links: map<LinkKey, seq<Condition>>) {
    && Keyed(d.db)
    && forall k | k in links ::
         && GameStatsReadable(links[k], d.readable)
         && forall u | u in d.members(k.guild) && PlayerRow(d.db, u).Some? ::
              Trusted(links[k], PlayerRow(d.db, u).value, d.now)
  }

  lemma QualifiedMeaning(d: Data, links: map<LinkKey, seq<Condition>>, k: LinkKey, user: string)
    ensures Assignment(k, user) in Qualified(d, links) <==> Qualifies(d, links, k, user)
  {
    if Qualifies(d, links, k, user) { AccountOfFinds(d.db.accounts, user); }
  }

  /** A bulk sync's target is exactly the qualifying members, on all four paths. */
  lemma TargetIsQualified(d: Data, links: map<LinkKey, seq<Condition>>, k: LinkKey, reading: Reads, pg: Rendering)
    requires Agreeing(d, links) && k in links
    requires Target(d.db, k, links[k], reading, Some(d.members(k.guild)), d.now, pg).Ok?
    ensures var ids := Target(d.db, k, links[k], reading, Some(d.members(k.guild)), d.now, pg).value;
      forall u :: u in ids <==> Assignment(k, u) in Qualified(d, links)
  {
    var cs, members := links[k], d.members(k.guild);
    var ids := Target(d.db, k, cs, reading, Some(members), d.now, pg).value;
    forall u ensures u in ids <==> Assignment(k, u) in Qualified(d, links) {
      QualifiedMeaning(d, links, k, u);
      if cs != [] && Registered(d.db, k.guild, cs) && members != [] {
        OnlyCachedMembersAreListed(d.db, cs, members, u, d.now, pg);
        if PlayerRow(d.db, u).Some? && u in members {
          var row := PlayerRow(d.db, u).value;
          PushedIffAccepted(d.db, cs, members, u, d.now, pg);
          BulkDecidesLikeInterpreter(cs, row, StatsFor(d.db, row, cs, _ => true), d.now, pg);
        }
      }
    }
  }

  lemma OnlyCachedMembersAreListed(db: Db, cs: seq<Condition>, members: seq<string>, u: string, now: int, pg: Rendering)
    requires Keyed(db)
    ensures u in Qualifying(db, cs, db.accounts, members, now, pg) ==> u in members && PlayerRow(db, u).Some?
  {
    var at := QualifyingMeaning(db, cs, db.accounts, members, now, pg);
    var q := Qualifying(db, cs, db.accounts, members, now, pg);
    if i :| 0 <= i < |q| && q[i] == u {
      var a := db.accounts[at[i]];
      AccountOfFinds(db.accounts, u);
      var found := AccountOf(db.accounts, u).value;
      var j :| 0 <= j < |db.accounts| && db.accounts[j] == found;
      assert j == at[i];
    }
  }

  /** A player's sync wants exactly the links for which the player qualifies. */
  lemma WantedIsQualified(d: Data, links: map<LinkKey, seq<Condition>>, user: string, rows: seq<LinkKey>)
    requires Agreeing(d, links) && PlayerRow(d.db, user).Some?
    requires forall k | k in rows :: k in links && user in d.members(k.guild)
    ensures PlayerQualifies(d.db, user, links, rows, d.readable, d.now)
         == QualifiedRows(rows, user, Qualified(d, links))
  {
    forall k | k in rows
      ensures k in PlayerQualifies(d.db, user, links, rows, d.readable, d.now)
         <==> Assignment(k, user) in Qualified(d, links)
    {
      QualifiedMeaning(d, links, k, user);
      UnreadableStatsCostTheRole(d.db, PlayerRow(d.db, user).value, links[k], d.readable, d.now);
    }
  }

  /** One event as the sync functions carry it out on the tables. */
  ghost predicate HappensOnTables(s: Stores, e: Event, gone: set<LinkKey>, d: Data, pg: Rendering, t: Stores) {
    match e
    case PlayerRun(user, rows, _, _) =>
      && PlayerRow(d.db, user).Some? && (forall k | k in rows :: user in d.members(k.guild))
      && exists c :: Acts(s, e, PlayerQualifies(d.db, user, s.links, rows, d.readable, d.now), gone, c) && c.stores == t
    case BulkRun(k, ids, replies, dbOk) =>
      && k in s.links
      && (exists reading :: Target(d.db, k, s.links[k], reading, Some(d.members(k.guild)), d.now, pg) == Ok(ids))
      && (LinkGone(|ids|, replies) ==> k in gone)
      && t == BulkStores(s, k, ids, replies, dbOk)
    case _ => Happens(s, e, gone, {}, t)
  }

  /** Both kinds of sync act on the same qualification. */
  lemma TablesGiveOneQualification(s: Stores, e: Event, gone: set<LinkKey>, d: Data, pg: Rendering, t: Stores)
    requires HappensOnTables(s, e, gone, d, pg, t) && Agreeing(d, s.links)
    ensures Happens(s, e, gone, Qualified(d, s.links), t)
  {
    match e {
      case PlayerRun(user, rows, _, _) =>
        WantedIsQualified(d, s.links, user, rows);
      case BulkRun(k, ids, _, _) =>
        var reading :| Target(d.db, k, s.links[k], reading, Some(d.members(k.guild)), d.now, pg) == Ok(ids);
        TargetIsQualified(d, s.links, k, reading, pg);
      case _ =>
    }
  }

  ghost predicate TableHistory(trace: seq<Stores>, events: seq<Event>, gone: set<LinkKey>, data: seq<Data>,
                               pg: Rendering)
  {
    && |trace| == |events| + 1 && |data| == |events|
    && forall i | 0 <= i < |events| ::
         HappensOnTables(trace[i], events[i], gone, data[i], pg, trace[i + 1]) && Agreeing(data[i], trace[i].links)
  }

  ghost function QualificationsOf(trace: seq<Stores>, data: seq<Data>): seq<set<Assignment>>
    requires |trace| == |data| + 1
  {
    seq(|data|, i requires 0 <= i < |data| => Qualified(data[i], trace[i].links))
  }

  /** From the tables as they stand at each event: a player's next sync that
      succeeds makes live list, mirror and decision coincide on a link if and only
      if nothing was left unrecorded there that the tables now contradict. */
  lemma TablesSettleExactlyWhen(trace: seq<Stores>, events: seq<Event>, gone: set<LinkKey>, data: seq<Data>,
                                pg: Rendering, next: Event, d: Data, t: Stores, k: LinkKey)
    requires TableHistory(trace, events, gone, data, pg)
    requires next.PlayerRun? && PlayerRow(d.db, next.user).Some? && k in next.rows && k !in gone
    requires Equal(trace[0], Assignment(k, next.user))
    requires var links := trace[|events|].links;
      Succeeds(trace[|events|], next, PlayerQualifies(d.db, next.user, links, next.rows, d.readable, d.now), gone, t)
    ensures var q := k in PlayerQualifies(d.db, next.user, trace[|events|].links, next.rows, d.readable, d.now);
      Settled(t, k, next.user, q) <==>
      forall i: nat | LeftUnrecorded(trace, QualificationsOf(trace, data), i, Assignment(k, next.user)) ::
        Qualifies(data[i], trace[i].links, k, next.user) == q
  {
    var quals := QualificationsOf(trace, data);
    forall i | 0 <= i < |events| ensures Happens(trace[i], events[i], gone, quals[i], trace[i + 1]) {
      TablesGiveOneQualification(trace[i], events[i], gone, data[i], pg, trace[i + 1]);
    }
    forall i | 0 <= i < |events|
      ensures Assignment(k, next.user) in quals[i] <==> Qualifies(data[i], trace[i].links, k, next.user)
    {
      QualifiedMeaning(data[i], trace[i].links, k, next.user);
    }
    PlayerSyncSettlesExactlyWhen(trace, events, gone, quals, next,
      PlayerQualifies(d.db, next.user, trace[|events|].links, next.rows, d.readable, d.now), t, k);
  }
}
