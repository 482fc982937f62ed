/** What the sync functions guarantee together: atomic replacement, no flapping
    between bulk and per-player syncs, and the effect of an unlink. */
module SyncTheorems {
  import opened Wrappers
  import opened Conditions
  import opened ConditionEval
  import opened ConditionSql
  import opened ConditionAgreement
  import opened Database
  import opened RoleStores
  import opened PlayerSync
  import opened SyncService

  // --------------------------------------------------------- atomic replacement

  lemma ReplacedUsers(s: set<Assignment>, k: LinkKey, ids: seq<string>, k': LinkKey)
    ensures UsersOf(Replaced(s, k, ids), k') == if k == k' then (set u | u in ids) else UsersOf(s, k')
  {
    var r := Replaced(s, k, ids);
    forall u ensures u in UsersOf(r, k') <==> u in (if k == k' then set v | v in ids else UsersOf(s, k')) {
      UsersOfMember(r, k', u);
      UsersOfMember(s, k', u);
      assert Assignment(k', u) in Listed(k, ids) <==> k == k' && u in ids;
    }
  }

  predicate FailedWithoutEffect(n: nat, replies: Replies) {
    ReplaceResult(n, replies).Err? && SwapReply(n, replies) != Some(Lost) && !LinkGone(n, replies)
  }

  lemma OtherLinksAreKept(s: Stores, k: LinkKey, ids: seq<string>, replies: Replies, dbOk: bool, k': LinkKey)
    requires k' != k
    ensures CellAt(BulkStores(s, k, ids, replies, dbOk), k') == CellAt(s, k')
  {
    ReplacedUsers(s.live, k, ids, k');
    ReplacedUsers(s.mirror, k, ids, k');
    UsersOfUpdates(s.live, k, "", k');
    UsersOfUpdates(s.mirror, k, "", k');
  }

  /** Wherever a replacement fails, the live list of the link is whole: the old
      one, the new one, or none because the link itself is gone. No other link is
      touched. A success leaves list and mirror equal to what was pushed, however
      far apart they were; a failure whose swap was not lost changes nothing. */
  lemma BulkReplacementIsAtomic(s: Stores, k: LinkKey, ids: seq<string>, replies: Replies, dbOk: bool)
    ensures var t := BulkStores(s, k, ids, replies, dbOk);
      var before, after := CellAt(s, k), CellAt(t, k);
      var pushed := set u | u in ids;
      && (forall k' | k' != k :: CellAt(t, k') == CellAt(s, k'))
      && (after.live == before.live || after.live == pushed || (after.live == {} && LinkGone(|ids|, replies)))
      && (BulkResult(ids, replies, dbOk).Ok? && ReplaceResult(|ids|, replies).Ok? ==>
            after == Cell(pushed, pushed, before.link))
      && (after.mirror == before.mirror || after.mirror == pushed || (after.mirror == {} && after.link.None?))
      && (FailedWithoutEffect(|ids|, replies) ==> t == s)
  {
    forall k' | k' != k { OtherLinksAreKept(s, k, ids, replies, dbOk, k'); }
    PushedCell(s, k, ids, replies, dbOk);
  }

  // ---------------------------------------------------- when list and mirror drift

  ghost predicate Paired(s: Stores, k: LinkKey) {
    CellAt(s, k).live == CellAt(s, k).mirror
  }

  /** The swap's answer arrived, the rebuild of a swapped list was committed, and
      a gone link was recognised as gone and deleted. */
  predicate KeepsPaired(n: nat, replies: Replies, dbOk: bool) {
    && SwapReply(n, replies) != Some(Lost)
    && (SwapReply(n, replies) == Some(Accepted) ==> dbOk)
    && (LinkGone(n, replies) ==> dbOk && ReplaceResult(n, replies) == Err(RoleLinkNotFound))
  }

  /** The link's part after a bulk replacement, case by case. */
  lemma PushedCell(s: Stores, k: LinkKey, ids: seq<string>, replies: Replies, dbOk: bool)
    ensures var pushed := set u | u in ids;
      var rebuilt := ReplaceResult(|ids|, replies).Ok? && dbOk;
      var deleted := ReplaceResult(|ids|, replies) == Err(RoleLinkNotFound) && dbOk;
      var swapped := SwapReply(|ids|, replies) == Some(Accepted) || SwapReply(|ids|, replies) == Some(Lost);
      var before := CellAt(s, k);
      CellAt(BulkStores(s, k, ids, replies, dbOk), k) == Cell(
        if swapped then pushed else if LinkGone(|ids|, replies) then {} else before.live,
        if rebuilt then pushed else if deleted then {} else before.mirror,
        if deleted then None else before.link)
  {
    ReplacedUsers(s.live, k, ids, k);
    ReplacedUsers(s.mirror, k, ids, k);
    UsersOfUpdates(s.live, k, "", k);
    UsersOfUpdates(s.mirror, k, "", k);
  }

  /** Stores in which the link is there, and list and mirror hold these users. */
  function Holding(k: LinkKey, live: set<string>, mirror: set<string>): Stores {
    Stores(set u | u in live :: Assignment(k, u), set u | u in mirror :: Assignment(k, u), map[k := []])
  }

  lemma HoldingCell(k: LinkKey, live: set<string>, mirror: set<string>)
    ensures Holding(k, live, mirror).Valid() && k in Holding(k, live, mirror).links
    ensures CellAt(Holding(k, live, mirror), k) == Cell(live, mirror, Some([]))
  {
    var s := Holding(k, live, mirror);
    forall u ensures (u in UsersOf(s.live, k) <==> u in live) && (u in UsersOf(s.mirror, k) <==> u in mirror) {
      UsersOfMember(s.live, k, u);
      UsersOfMember(s.mirror, k, u);
    }
  }

  /** A bulk replacement keeps list and mirror equal, from all stores in which
      they are, exactly under `KeepsPaired`. */
  lemma PairedExactlyWhenKept(k: LinkKey, ids: seq<string>, replies: Replies, dbOk: bool)
    ensures KeepsPaired(|ids|, replies, dbOk) <==>
            forall s: Stores | s.Valid() && k in s.links && Paired(s, k) ::
              Paired(BulkStores(s, k, ids, replies, dbOk), k)
  {
    if KeepsPaired(|ids|, replies, dbOk) {
      forall s: Stores | s.Valid() && k in s.links && Paired(s, k)
        ensures Paired(BulkStores(s, k, ids, replies, dbOk), k)
      {
        PushedCell(s, k, ids, replies, dbOk);
      }
    } else {
      var other: set<string> := if ids == [] || LinkGone(|ids|, replies) then {""} else {};
      var s := Holding(k, other, other);
      HoldingCell(k, other, other);
      PushedCell(s, k, ids, replies, dbOk);
      var pushed := set u | u in ids;
      assert if ids == [] then pushed == {} else ids[0] in pushed;
      var after := CellAt(BulkStores(s, k, ids, replies, dbOk), k);
      assert "" in after.mirror || after.mirror == {};
      assert after.live != after.mirror;
    }
  }

  /** The push went through, or the link was recognised as gone, and the local
      write was committed. */
  predicate Repairs(n: nat, replies: Replies, dbOk: bool) {
    dbOk && (ReplaceResult(n, replies).Ok? || ReplaceResult(n, replies) == Err(RoleLinkNotFound))
  }

  /** A bulk replacement makes list and mirror equal, however far apart they were,
      exactly under `Repairs`. */
  lemma DriftIsRepairedExactlyWhen(k: LinkKey, ids: seq<string>, replies: Replies, dbOk: bool)
    ensures Repairs(|ids|, replies, dbOk) <==>
            forall s: Stores | s.Valid() && k in s.links :: Paired(BulkStores(s, k, ids, replies, dbOk), k)
  {
    if Repairs(|ids|, replies, dbOk) {
      forall s: Stores | s.Valid() && k in s.links ensures Paired(BulkStores(s, k, ids, replies, dbOk), k) {
        PushedCell(s, k, ids, replies, dbOk);
      }
    } else {
      var swapped := SwapReply(|ids|, replies) == Some(Accepted) || SwapReply(|ids|, replies) == Some(Lost);
      var stale: set<string> := if swapped && ids != [] then {} else {""};
      var s := Holding(k, {}, stale);
      HoldingCell(k, {}, stale);
      PushedCell(s, k, ids, replies, dbOk);
      var pushed := set u | u in ids;
      assert if ids == [] then pushed == {} else ids[0] in pushed;
      var after := CellAt(BulkStores(s, k, ids, replies, dbOk), k);
      assert "" in after.mirror || after.mirror == {};
      assert after.live != after.mirror;
    }
  }

  /** Every way to drift: the list is the new one, or gone with its link, and the
      mirror and the link row are the old ones. The next push that succeeds
      repairs both. */
  lemma DriftIsRepairedByAPush(s: Stores, k: LinkKey, ids: seq<string>, replies: Replies, dbOk: bool,
                               ids': seq<string>, replies': Replies)
    requires !KeepsPaired(|ids|, replies, dbOk)
    requires ReplaceResult(|ids'|, replies').Ok?
    ensures var t := BulkStores(s, k, ids, replies, dbOk);
      && CellAt(t, k) == CellAt(s, k).(live := if LinkGone(|ids|, replies) then {} else set u | u in ids)
      && CellAt(BulkStores(t, k, ids', replies', true), k)
           == Cell((set u | u in ids'), (set u | u in ids'), CellAt(s, k).link)
  {
    PushedCell(s, k, ids, replies, dbOk);
    PushedCell(BulkStores(s, k, ids, replies, dbOk), k, ids', replies', true);
  }

  /** After a swap that took effect every user is recoverable, whatever became of
      its answer and of the rebuild: a player's sync repairs that player too. */
  lemma TakenSwapIsRecoverable(s: Stores, k: LinkKey, ids: seq<string>, replies: Replies, dbOk: bool, user: string)
    requires SwapReply(|ids|, replies) == Some(Accepted) || SwapReply(|ids|, replies) == Some(Lost)
    ensures Recoverable(BulkStores(s, k, ids, replies, dbOk), k, user, user in ids)
  {
    PushedCell(s, k, ids, replies, dbOk);
    CellMembership(BulkStores(s, k, ids, replies, dbOk), k, user);
  }

  /** The held answer reaches the worker exactly when the swap itself was held. */
  lemma HeldOnlyFromTheSwap(ids: seq<string>, replies: Replies, dbOk: bool)
    ensures BulkResult(ids, replies, dbOk) == Err(RemovalHeld) <==> SwapReply(|ids|, replies) == Some(Held)
  {
  }

  // ------------------------------------------------------------------ no flapping

  lemma {:induction false} AccountOfFinds(accounts: seq<Account>, user: string)
    ensures AccountOf(accounts, user).Some? ==>
              AccountOf(accounts, user).value in accounts && AccountOf(accounts, user).value.discordId == user
    ensures AccountOf(accounts, user).None? ==> forall a | a in accounts :: a.discordId != user
  {
    if accounts != [] { AccountOfFinds(accounts[..|accounts| - 1], user); }
  }

  /** Membership in the pushed list is the bulk decision on the user's account. */
  lemma PushedIffAccepted(db: Db, cs: seq<Condition>, members: seq<string>, user: string, now: int, pg: Rendering)
    requires Keyed(db) && PlayerRow(db, user).Some? && user in members
    ensures var row := PlayerRow(db, user).value;
      user in Qualifying(db, cs, db.accounts, members, now, pg) <==>
      BulkAccepts(cs, row, StatsFor(db, row, cs, _ => true), now, pg)
  {
    var a := AccountOf(db.accounts, user).value;
    AccountOfFinds(db.accounts, user);
    LookupCacheFinds(db.cache, a.robloxUserId);
    var at := QualifyingMeaning(db, cs, db.accounts, members, now, pg);
    assert (set u | u in ReferencedUniverses(cs) && (_ => true)(u)) == NamedUniverses(cs);
  }

  /** After a bulk sync that pushed its list, a per-player sync on the same data
      acts on the link exactly when SQL and the interpreter, with the stats it
      could read, disagree about it. */
  lemma FlapsExactlyOnDisagreement(s: Stores, k: LinkKey, db: Db, members: seq<string>, now: int, pg: Rendering,
                                   replies: Replies, user: string, rows: seq<LinkKey>, readable: string -> bool)
    requires Keyed(db) && k in s.links && s.links[k] != [] && Registered(db, k.guild, s.links[k])
    requires PlayerRow(db, user).Some? && user in members
    requires Distinct(rows) && k in rows
    requires ReplaceResult(|Qualifying(db, s.links[k], db.accounts, members, now, pg)|, replies).Ok?
    ensures var cs := s.links[k];
      var row := PlayerRow(db, user).value;
      var t := BulkStores(s, k, Qualifying(db, cs, db.accounts, members, now, pg), replies, true);
      var qual := PlayerQualifies(db, user, t.links, rows, readable, now);
      (exists a :: a in Plan(rows, user, qual, t.mirror) && a.key == k)
      <==> BulkAccepts(cs, row, StatsFor(db, row, cs, _ => true), now, pg)
             != EvaluateConditions(cs, row, StatsFor(db, row, cs, readable), now)
  {
    var cs := s.links[k];
    var ids := Qualifying(db, cs, db.accounts, members, now, pg);
    var t := BulkStores(s, k, ids, replies, true);
    PushedIffAccepted(db, cs, members, user, now, pg);
    PushedIsMirrored(s, k, ids, replies, user);
    PlanMeaning(rows, user, PlayerQualifies(db, user, t.links, rows, readable, now), t.mirror);
  }

  lemma PushedIsMirrored(s: Stores, k: LinkKey, ids: seq<string>, replies: Replies, user: string)
    requires ReplaceResult(|ids|, replies).Ok?
    ensures var t := BulkStores(s, k, ids, replies, true);
      && t.links == s.links
      && (Assignment(k, user) in t.mirror <==> user in ids)
      && (Assignment(k, user) in t.live <==> user in ids)
  {
    assert Assignment(k, user) in Listed(k, ids) <==> user in ids;
  }

  /** After a successful bulk sync of a link, a per-player sync of any member with
      the same data and clock leaves the link alone: list, mirror and decision
      coincide. Empty conditions, unregistered universes, the SQL path and the
      in-memory path are all covered; only the SQL path needs `Trusted`, and only
      game conditions need their stats read. */
  lemma NoFlapping(s: Stores, k: LinkKey, db: Db, reading: Reads, members: Option<seq<string>>, now: int,
                   pg: Rendering, replies: Replies, user: string, rows: seq<LinkKey>, readable: string -> bool)
    requires Keyed(db) && k in s.links
    requires Target(db, k, s.links[k], reading, members, now, pg).Ok?
    requires ReplaceResult(|Target(db, k, s.links[k], reading, members, now, pg).value|, replies).Ok?
    requires PlayerRow(db, user).Some? && Trusted(s.links[k], PlayerRow(db, user).value, now)
    requires GameStatsReadable(s.links[k], readable)
    requires Distinct(rows) && k in rows && (members.Some? ==> user in members.value)
    ensures var t := BulkStores(s, k, Target(db, k, s.links[k], reading, members, now, pg).value, replies, true);
      var qual := PlayerQualifies(db, user, t.links, rows, readable, now);
      && Settled(t, k, user, k in qual)
      && forall a | a in Plan(rows, user, qual, t.mirror) :: a.key != k
  {
    var cs := s.links[k];
    var ids := Target(db, k, cs, reading, members, now, pg).value;
    var t := BulkStores(s, k, ids, replies, true);
    var row := PlayerRow(db, user).value;
    PushedIsMirrored(s, k, ids, replies, user);
    PlanMeaning(rows, user, PlayerQualifies(db, user, t.links, rows, readable, now), t.mirror);
    if cs != [] && Registered(db, k.guild, cs) {
      PushedIffAccepted(db, cs, members.value, user, now, pg);
      BulkDecidesLikeInterpreter(cs, row, StatsFor(db, row, cs, _ => true), now, pg);
      UnreadableStatsCostTheRole(db, row, cs, readable, now);
    }
  }

  /** A player who holds a role and qualifies for it is sent a Remove exactly when
      stats that a game condition of the link needs could not be read. */
  lemma FailedReadDropsTheRole(s: Stores, k: LinkKey, db: Db, user: string, rows: seq<LinkKey>,
                               readable: string -> bool, now: int)
    requires PlayerRow(db, user).Some? && Distinct(rows) && k in rows && k in s.links
    requires Assignment(k, user) in s.mirror
    requires LinkQualifies(db, PlayerRow(db, user).value, k, s.links[k], _ => true, now)
    ensures Remove(k, user) in Plan(rows, user, PlayerQualifies(db, user, s.links, rows, readable, now), s.mirror)
       <==> !GameStatsReadable(s.links[k], readable)
  {
    var qual := PlayerQualifies(db, user, s.links, rows, readable, now);
    UnreadableStatsCostTheRole(db, PlayerRow(db, user).value, s.links[k], readable, now);
    PlanMeaning(rows, user, qual, s.mirror);
    if k !in qual {
      var a :| a in Plan(rows, user, qual, s.mirror) && a.key == k;
      assert a == Remove(k, user);
    }
  }

  /** What the form can check once, when the condition is saved: a condition that
      passes `Safe` is trusted for every refreshed account from then on. */
  lemma SafeConditionIsTrusted(c: Condition, uc: UserCacheRow, now: int, pg: Rendering)
    requires !c.field.RequiresUniverse() ==> Safe(c)
    requires CacheShape(uc) && NotFuture(uc, now)
    ensures Trusted([c], uc, now)
  {
    if c.field.RequiresUniverse() {
      assert [c][0].field.RequiresUniverse();
    } else {
      SafeConfigurations(c, pg);
      RowAgreement(c, uc, now, pg);
    }
  }

  // --------------------------------------------------------------- any schedule

  /** However the actions of one player's sync overlap, a finished sync leaves
      the stores its sequential form leaves. */
  lemma PlayerSyncUnderAnySchedule(s: Stores, rows: seq<LinkKey>, user: string, qual: set<LinkKey>,
                                   answer: LinkKey -> Outcome, schedule: seq<nat>, end: Config)
    requires Distinct(rows)
    requires var actions := Plan(rows, user, qual, s.mirror);
      RunsTo(Initial(s, |actions|), actions, OutcomesOf(actions, answer), schedule, end) && AllDone(end)
    ensures var actions := Plan(rows, user, qual, s.mirror);
      end.stores == Sequential(s, actions, OutcomesOf(actions, answer))
  {
    var actions := Plan(rows, user, qual, s.mirror);
    PlanMeaning(rows, user, qual, s.mirror);
    InterleavingIndependence(s, actions, OutcomesOf(actions, answer), schedule, end);
  }

  // ------------------------------------------------------------------------ unlink

  predicate TookEffect(r: Reply) {
    r == Accepted || r == Lost
  }

  /** The unlink's remote calls, on every (link, user) pair at once. */
  lemma {:induction false} UnlinkMeaning(s: Stores, keys: seq<LinkKey>, user: string, answer: LinkKey -> Outcome)
    ensures var t := UnlinkSteps(s, keys, user, answer);
      && (forall a: Assignment :: a in t.live <==>
            && a in s.live
            && !(a.key in keys && answer(a.key).reply == Gone)
            && !(a.user == user && a.key in keys && TookEffect(answer(a.key).reply)))
      && (forall a: Assignment :: a in t.mirror <==>
            a in s.mirror && !(a.key in keys && answer(a.key) == Outcome(Gone, true)))
  {
    if keys != [] {
      var n := |keys| - 1;
      UnlinkMeaning(s, keys[..n], user, answer);
      assert forall k :: k in keys <==> k in keys[..n] || k == keys[n];
    }
  }

  /** The unlink leaves the user in exactly the lists that the mirror did not know
      of or that refused the removal, and in no mirror row. */
  lemma UnlinkRemovesEverywhere(s: Stores, rows: seq<LinkKey>, user: string, answer: LinkKey -> Outcome)
    ensures var steps := UnlinkSteps(s, rows, user, answer);
      var t := steps.(mirror := set a | a in steps.mirror && a.user != user);
      && (forall k :: Assignment(k, user) in t.live <==>
            Assignment(k, user) in s.live
            && (k !in rows || answer(k).reply in {Disabled, LimitReached, Held, Rejected}))
      && (forall a: Assignment | a in t.mirror :: a.user != user && a in s.mirror)
      && (forall a: Assignment | a in s.mirror && a.user != user ::
            a in t.mirror || answer(a.key) == Outcome(Gone, true))
  {
    UnlinkMeaning(s, rows, user, answer);
  }
}
