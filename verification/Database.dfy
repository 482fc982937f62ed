/** The tables the bulk query reads, its joins row by row, and the list of
    qualifying accounts it has to produce. */
module Database {
  import opened Wrappers
  import opened Json
  import opened Conditions
  import opened ConditionEval
  import opened SqlText
  import opened ConditionSql
  import opened ConditionAgreement

  datatype Account = Account(discordId: string, robloxUserId: string)

  datatype StatsRow = StatsRow(robloxUserId: string, universeId: string, custom: Json)

  /** `accounts` is in `linked_at` order; `universes` holds (guild, universe). */
  datatype Db = Db(
    accounts: seq<Account>,
    cache: seq<UserCacheRow>,
    stats: seq<StatsRow>,
    universes: set<(string, string)>)

  ghost predicate UniqueAccounts(accounts: seq<Account>) {
    forall i, j | 0 <= i < j < |accounts| ::
      accounts[i].discordId != accounts[j].discordId && accounts[i].robloxUserId != accounts[j].robloxUserId
  }

  ghost predicate UniqueCache(cache: seq<UserCacheRow>) {
    forall i, j | 0 <= i < j < |cache| :: cache[i].robloxUserId != cache[j].robloxUserId
  }

  ghost predicate UniqueStats(stats: seq<StatsRow>) {
    forall i, j | 0 <= i < j < |stats| ::
      stats[i].robloxUserId != stats[j].robloxUserId || stats[i].universeId != stats[j].universeId
  }

  /** The primary keys and unique columns of the schema. */
  ghost predicate Keyed(db: Db) {
    UniqueAccounts(db.accounts) && UniqueCache(db.cache) && UniqueStats(db.stats)
  }

  // ------------------------------------------------------------------ lookups

  function LookupCache(cache: seq<UserCacheRow>, rid: string): Option<UserCacheRow> {
    if cache == [] then None
    else if cache[|cache| - 1].robloxUserId == rid then Some(cache[|cache| - 1])
    else LookupCache(cache[..|cache| - 1], rid)
  }

  function LookupStats(stats: seq<StatsRow>, rid: string, uid: string): Option<Json> {
    if stats == [] then None
    else
      var r := stats[|stats| - 1];
      if r.robloxUserId == rid && r.universeId == uid then Some(r.custom)
      else LookupStats(stats[..|stats| - 1], rid, uid)
  }

  function StatsOf(db: Db, rid: string, universes: set<string>): GameStats {
    map u | u in universes && LookupStats(db.stats, rid, u).Some? :: LookupStats(db.stats, rid, u).value
  }

  // -------------------------------------------------------------------- joins

  /** A row of the joined query: the extra columns are `alias.custom`. */
  datatype Joined = Joined(account: Account, cache: UserCacheRow, extras: map<string, Option<Json>>)

  function JoinCacheOne(a: Account, cache: seq<UserCacheRow>): seq<Joined> {
    if cache == [] then []
    else
      var r := cache[|cache| - 1];
      JoinCacheOne(a, cache[..|cache| - 1]) + if r.robloxUserId == a.robloxUserId then [Joined(a, r, map[])] else []
  }

  /** `linked_accounts la JOIN user_cache uc ON uc.roblox_user_id = la.roblox_user_id`. */
  function JoinCache(accounts: seq<Account>, cache: seq<UserCacheRow>): seq<Joined> {
    if accounts == [] then []
    else JoinCache(accounts[..|accounts| - 1], cache) + JoinCacheOne(accounts[|accounts| - 1], cache)
  }

  function MatchingStats(r: Joined, alias: string, uid: string, stats: seq<StatsRow>): seq<Joined> {
    if stats == [] then []
    else
      var s := stats[|stats| - 1];
      MatchingStats(r, alias, uid, stats[..|stats| - 1]) +
      if s.robloxUserId == r.account.robloxUserId && s.universeId == uid
      then [r.(extras := r.extras[alias := Some(s.custom)])] else []
  }

  function LeftJoinOne(r: Joined, alias: string, uid: string, stats: seq<StatsRow>): seq<Joined> {
    var ms := MatchingStats(r, alias, uid, stats);
    if ms == [] then [r.(extras := r.extras[alias := None])] else ms
  }

  function LeftJoin(rows: seq<Joined>, alias: string, uid: string, stats: seq<StatsRow>): seq<Joined> {
    if rows == [] then []
    else LeftJoin(rows[..|rows| - 1], alias, uid, stats) + LeftJoinOne(rows[|rows| - 1], alias, uid, stats)
  }

  /** One `LEFT JOIN player_game_stats`: its alias and the quoted universe id. */
  datatype UniverseJoin = UniverseJoin(alias: string, token: string)

  function JoinAll(rows: seq<Joined>, joins: seq<UniverseJoin>, stats: seq<StatsRow>): seq<Joined> {
    if joins == [] then rows
    else
      var j := joins[|joins| - 1];
      LeftJoin(JoinAll(rows, joins[..|joins| - 1], stats), j.alias, TokenText(j.token).GetOr(""), stats)
  }

  // ----------------------------------- keys make every join match at most once

  lemma {:induction false} LookupCacheFinds(cache: seq<UserCacheRow>, rid: string)
    ensures LookupCache(cache, rid).Some? ==>
              LookupCache(cache, rid).value in cache && LookupCache(cache, rid).value.robloxUserId == rid
    ensures LookupCache(cache, rid).None? ==> forall r | r in cache :: r.robloxUserId != rid
  {
    if cache != [] { LookupCacheFinds(cache[..|cache| - 1], rid); }
  }

  lemma {:induction false} CacheJoinsAtMostOnce(a: Account, cache: seq<UserCacheRow>)
    requires UniqueCache(cache)
    ensures JoinCacheOne(a, cache) ==
            match LookupCache(cache, a.robloxUserId)
            case None => []
            case Some(r) => [Joined(a, r, map[])]
  {
    if cache != [] {
      var front := cache[..|cache| - 1];
      CacheJoinsAtMostOnce(a, front);
      LookupCacheFinds(front, a.robloxUserId);
      if cache[|cache| - 1].robloxUserId == a.robloxUserId {
        forall r | r in front ensures r.robloxUserId != a.robloxUserId {
          var i :| 0 <= i < |front| && front[i] == r;
          assert cache[i] == r;
        }
      }
    }
  }

  lemma {:induction false} StatsMatchAtMostOnce(r: Joined, alias: string, uid: string, stats: seq<StatsRow>)
    requires UniqueStats(stats)
    ensures var found := LookupStats(stats, r.account.robloxUserId, uid);
      && MatchingStats(r, alias, uid, stats) ==
         (if found.None? then [] else [r.(extras := r.extras[alias := found])])
      && (found.None? <==> forall i | 0 <= i < |stats| ::
            stats[i].robloxUserId != r.account.robloxUserId || stats[i].universeId != uid)
  {
    if stats != [] {
      var front := stats[..|stats| - 1];
      StatsMatchAtMostOnce(r, alias, uid, front);
      var s := stats[|stats| - 1];
      if s.robloxUserId == r.account.robloxUserId && s.universeId == uid {
        forall i | 0 <= i < |front|
          ensures front[i].robloxUserId != r.account.robloxUserId || front[i].universeId != uid
        {
          assert stats[i] == front[i];
        }
      } else {
        forall i | 0 <= i < |front| ensures stats[i] == front[i] {}
      }
    }
  }

  function WithExtra(r: Joined, alias: string, uid: string, stats: seq<StatsRow>): Joined {
    r.(extras := r.extras[alias := LookupStats(stats, r.account.robloxUserId, uid)])
  }

  lemma RowJoinsOnce(r: Joined, alias: string, uid: string, stats: seq<StatsRow>)
    requires UniqueStats(stats)
    ensures LeftJoinOne(r, alias, uid, stats) == [WithExtra(r, alias, uid, stats)]
  {
    StatsMatchAtMostOnce(r, alias, uid, stats);
  }

  /** A LEFT JOIN on the stats' primary key neither multiplies nor drops rows. */
  lemma {:induction false} LeftJoinKeepsRows(rows: seq<Joined>, alias: string, uid: string, stats: seq<StatsRow>)
    requires UniqueStats(stats)
    ensures |LeftJoin(rows, alias, uid, stats)| == |rows|
    ensures forall i | 0 <= i < |rows| :: LeftJoin(rows, alias, uid, stats)[i] == WithExtra(rows[i], alias, uid, stats)
  {
    if rows != [] {
      var n := |rows| - 1;
      var front := LeftJoin(rows[..n], alias, uid, stats);
      LeftJoinKeepsRows(rows[..n], alias, uid, stats);
      RowJoinsOnce(rows[n], alias, uid, stats);
      var all := LeftJoin(rows, alias, uid, stats);
      assert all == front + [WithExtra(rows[n], alias, uid, stats)];
      forall i | 0 <= i < |rows| ensures all[i] == WithExtra(rows[i], alias, uid, stats) {
        if i < n { assert all[i] == front[i] && rows[i] == rows[..n][i]; }
      }
    }
  }

  ghost predicate DistinctAliases(joins: seq<UniverseJoin>) {
    forall i, j | 0 <= i < j < |joins| :: joins[i].alias != joins[j].alias
  }

  function WithExtras(r: Joined, joins: seq<UniverseJoin>, stats: seq<StatsRow>): Joined {
    if joins == [] then r
    else
      var j := joins[|joins| - 1];
      WithExtra(WithExtras(r, joins[..|joins| - 1], stats), j.alias, TokenText(j.token).GetOr(""), stats)
  }

  /** After all joins every row is still there once, in place. */
  lemma {:induction false} JoinsKeepRows(rows: seq<Joined>, joins: seq<UniverseJoin>, stats: seq<StatsRow>)
    requires UniqueStats(stats)
    ensures |JoinAll(rows, joins, stats)| == |rows|
    ensures forall i | 0 <= i < |rows| :: JoinAll(rows, joins, stats)[i] == WithExtras(rows[i], joins, stats)
  {
    if joins != [] {
      var front, last := joins[..|joins| - 1], joins[|joins| - 1];
      JoinsKeepRows(rows, front, stats);
      LeftJoinKeepsRows(JoinAll(rows, front, stats), last.alias, TokenText(last.token).GetOr(""), stats);
    }
  }

  /** Each alias shows that account's own stats in the universe its join names. */
  lemma {:induction false} AliasesShowTheirUniverse(r: Joined, joins: seq<UniverseJoin>, stats: seq<StatsRow>)
    requires DistinctAliases(joins)
    ensures var all := WithExtras(r, joins, stats);
      && all.account == r.account && all.cache == r.cache
      && forall j | 0 <= j < |joins| ::
           && joins[j].alias in all.extras
           && all.extras[joins[j].alias] ==
                LookupStats(stats, r.account.robloxUserId, TokenText(joins[j].token).GetOr(""))
  {
    if joins != [] {
      var front, last := joins[..|joins| - 1], joins[|joins| - 1];
      AliasesShowTheirUniverse(r, front, stats);
      forall j | 0 <= j < |front| ensures front[j] == joins[j] && joins[j].alias != last.alias {}
    }
  }

  // ----------------------------------------------------- who the query accepts

  /** What SQL answers for a list without game stats. */
  ghost predicate SqlAccepts(cs: seq<Condition>, uc: UserCacheRow, now: int, pg: Rendering) {
    && cs != [] && AllNamed(cs)
    && forall i | 0 <= i < |cs| :: !cs[i].field.RequiresUniverse() && SqlHolds(cs[i], uc, now, pg)
  }

  /** The bulk decision for one account: SQL, or the interpreter when some
      condition is on game stats. */
  ghost predicate BulkAccepts(cs: seq<Condition>, uc: UserCacheRow, stats: GameStats, now: int, pg: Rendering) {
    if AllNamed(cs) && AnyCustom(cs) then EvaluateConditions(cs, uc, stats, now)
    else SqlAccepts(cs, uc, now, pg)
  }

  /** Where the bulk decision can be trusted to be the interpreter's. */
  ghost predicate Trusted(cs: seq<Condition>, uc: UserCacheRow, now: int) {
    || !AllNamed(cs)
    || AnyCustom(cs)
    || (CacheShape(uc) && forall i | 0 <= i < |cs| && !cs[i].field.RequiresUniverse() :: Exact(cs[i], uc, now))
  }

  lemma BulkDecidesLikeInterpreter(cs: seq<Condition>, uc: UserCacheRow, stats: GameStats, now: int, pg: Rendering)
    requires Trusted(cs, uc, now)
    ensures BulkAccepts(cs, uc, stats, now, pg) == EvaluateConditions(cs, uc, stats, now)
  {
    if !AllNamed(cs) {
      var i :| 0 <= i < |cs| && NamesNothing(cs[i]);
      assert !EvaluateSingle(cs[i], uc, stats, now);
    } else if !AnyCustom(cs) {
      forall i | 0 <= i < |cs|
        ensures !cs[i].field.RequiresUniverse() && SqlHolds(cs[i], uc, now, pg) == EvaluateSingle(cs[i], uc, stats, now)
      {
        assert !cs[i].field.RequiresUniverse();
        RowAgreement(cs[i], uc, now, pg);
      }
    }
  }

  ghost predicate AccountAccepted(db: Db, cs: seq<Condition>, a: Account, now: int, pg: Rendering) {
    var row := LookupCache(db.cache, a.robloxUserId);
    row.Some? && BulkAccepts(cs, row.value, StatsOf(db, a.robloxUserId, NamedUniverses(cs)), now, pg)
  }

  /** The list to push: accepted guild members in `linked_at` order. */
  ghost function Qualifying(db: Db, cs: seq<Condition>, accounts: seq<Account>, members: seq<string>,
                            now: int, pg: Rendering): seq<string>
  {
    if accounts == [] then []
    else
      var a := accounts[|accounts| - 1];
      Qualifying(db, cs, accounts[..|accounts| - 1], members, now, pg) +
      if a.discordId in members && AccountAccepted(db, cs, a, now, pg) then [a.discordId] else []
  }

  /** The positions of the listed accounts: increasing, so the list follows the
      order of the accounts and lists none twice. */
  lemma {:induction false} QualifyingPositions(db: Db, cs: seq<Condition>, accounts: seq<Account>,
                                               members: seq<string>, now: int, pg: Rendering)
    returns (at: seq<nat>)
    ensures var q := Qualifying(db, cs, accounts, members, now, pg);
      && |at| == |q|
      && (forall i | 0 <= i < |q| :: at[i] < |accounts| && accounts[at[i]].discordId == q[i])
      && (forall i, j | 0 <= i < j < |q| :: at[i] < at[j])
      && (forall i | 0 <= i < |q| :: q[i] in members
                                     && AccountAccepted(db, cs, accounts[at[i]], now, pg))
  {
    at := [];
    if accounts != [] {
      var n := |accounts| - 1;
      var a := accounts[n];
      at := QualifyingPositions(db, cs, accounts[..n], members, now, pg);
      if a.discordId in members && AccountAccepted(db, cs, a, now, pg) { at := at + [n]; }
    }
  }

  lemma {:induction false} AcceptedMembersAreListed(db: Db, cs: seq<Condition>, accounts: seq<Account>,
                                                    members: seq<string>, now: int, pg: Rendering, a: Account)
    requires a in accounts && a.discordId in members && AccountAccepted(db, cs, a, now, pg)
    ensures a.discordId in Qualifying(db, cs, accounts, members, now, pg)
  {
    var n := |accounts| - 1;
    if a != accounts[n] {
      assert a in accounts[..n];
      AcceptedMembersAreListed(db, cs, accounts[..n], members, now, pg, a);
    }
  }

  /** Exactly the accepted members, none twice, in the order of the accounts. */
  lemma QualifyingMeaning(db: Db, cs: seq<Condition>, accounts: seq<Account>, members: seq<string>,
                          now: int, pg: Rendering)
    returns (at: seq<nat>)
    requires UniqueAccounts(accounts)
    ensures var q := Qualifying(db, cs, accounts, members, now, pg);
      && |at| == |q|
      && (forall i | 0 <= i < |q| :: at[i] < |accounts| && accounts[at[i]].discordId == q[i])
      && (forall i, j | 0 <= i < j < |q| :: at[i] < at[j] && q[i] != q[j])
      && (forall a | a in accounts ::
            a.discordId in q <==> a.discordId in members && AccountAccepted(db, cs, a, now, pg))
  {
    at := QualifyingPositions(db, cs, accounts, members, now, pg);
    var q := Qualifying(db, cs, accounts, members, now, pg);
    forall a | a in accounts
      ensures a.discordId in q <==> a.discordId in members && AccountAccepted(db, cs, a, now, pg)
    {
      if a.discordId in q {
        var i :| 0 <= i < |q| && q[i] == a.discordId;
        var j :| 0 <= j < |accounts| && accounts[j] == a;
        assert j == at[i];
      } else if a.discordId in members && AccountAccepted(db, cs, a, now, pg) {
        AcceptedMembersAreListed(db, cs, accounts, members, now, pg, a);
      }
    }
  }

  // ------------------------------------------------------------ the two queries

  /** The discord ids of the rows to keep, in row order. */
  function Select(rows: seq<Joined>, keep: Joined -> bool): seq<string> {
    if rows == [] then []
    else
      var r := rows[|rows| - 1];
      Select(rows[..|rows| - 1], keep) + if keep(r) then [r.account.discordId] else []
  }

  lemma SelectPush(rows: seq<Joined>, r: Joined, keep: Joined -> bool)
    ensures Select(rows + [r], keep) == Select(rows, keep) + if keep(r) then [r.account.discordId] else []
  {
    assert (rows + [r])[..|rows|] == rows;
  }

  /** `WHERE la.discord_id = ANY(members) AND (where)`. */
  function SqlFilter(members: seq<string>, w: Where, binds: seq<Bind>, now: int, pg: Rendering): Joined -> bool {
    (r: Joined) => r.account.discordId in members && EvalWhere(w, binds, r.cache, now, pg) == True
  }

  /** The query fails when the condition cannot be evaluated on a member's row. */
  predicate QueryFails(rows: seq<Joined>, members: seq<string>, w: Where, binds: seq<Bind>, now: int, pg: Rendering) {
    exists i :: 0 <= i < |rows| && rows[i].account.discordId in members
                && EvalWhere(w, binds, rows[i].cache, now, pg) == Error
  }

  /** Some member's cached row raises an error, in terms of the tables. */
  ghost predicate SomeMemberFails(db: Db, cs: seq<Condition>, members: seq<string>, now: int, pg: Rendering) {
    exists a, r :: a in db.accounts && a.discordId in members && LookupCache(db.cache, a.robloxUserId) == Some(r)
                   && IntendedTruth(cs, r, now, pg) == Error
  }

  /** Refreshed rows never make the query fail. */
  lemma ShapedCacheNeverFails(db: Db, cs: seq<Condition>, members: seq<string>, now: int, pg: Rendering)
    requires forall r | r in db.cache :: CacheShape(r)
    ensures !SomeMemberFails(db, cs, members, now, pg)
  {
    if SomeMemberFails(db, cs, members, now, pg) {
      var a, r :| a in db.accounts && LookupCache(db.cache, a.robloxUserId) == Some(r)
                  && IntendedTruth(cs, r, now, pg) == Error;
      LookupCacheFinds(db.cache, a.robloxUserId);
      ShapedRowsRaiseNoError(cs, r, now, pg);
    }
  }

  /** The stats the aliases of a row show; absent rows are no stats. */
  function AliasStats(r: Joined, aliases: map<string, string>): GameStats {
    map u | u in aliases && aliases[u] in r.extras && r.extras[aliases[u]].Some? :: r.extras[aliases[u]].value
  }

  /** The in-memory re-check of a fetched row. */
  function MemoryFilter(members: seq<string>, cs: seq<Condition>, aliases: map<string, string>, now: int)
    : Joined -> bool
  {
    (r: Joined) => r.account.discordId in members && EvaluateConditions(cs, r.cache, AliasStats(r, aliases), now)
  }

  /** One join per referenced universe, in the order `uids`, each under its own
      alias. */
  ghost predicate JoinsFor(aliases: map<string, string>, joins: seq<UniverseJoin>, uids: seq<string>) {
    && DistinctAliases(joins)
    && |joins| == |uids|
    && (forall i | 0 <= i < |uids| :: uids[i] in aliases && joins[i] == UniverseJoin(aliases[uids[i]], Quote(uids[i])))
    && (forall u | u in aliases :: u in uids)
  }

  lemma AliasesShowOwnStats(a: Account, r: UserCacheRow, aliases: map<string, string>,
                            joins: seq<UniverseJoin>, uids: seq<string>, db: Db)
    requires JoinsFor(aliases, joins, uids)
    ensures AliasStats(WithExtras(Joined(a, r, map[]), joins, db.stats), aliases)
         == StatsOf(db, a.robloxUserId, aliases.Keys)
  {
    AliasesShowTheirUniverse(Joined(a, r, map[]), joins, db.stats);
    var all := WithExtras(Joined(a, r, map[]), joins, db.stats);
    forall u | u in aliases
      ensures aliases[u] in all.extras && all.extras[aliases[u]] == LookupStats(db.stats, a.robloxUserId, u)
    {
      var j :| 0 <= j < |uids| && uids[j] == u;
      QuotedTokenText(u);
    }
  }

  lemma {:induction false} JoinsDoNotChangeSelection(
      rows: seq<Joined>, joined: seq<Joined>, keep: Joined -> bool, keepRow: Joined -> bool)
    requires |rows| == |joined|
    requires forall i | 0 <= i < |rows| ::
               rows[i].account == joined[i].account && keep(joined[i]) == keepRow(rows[i])
    ensures Select(joined, keep) == Select(rows, keepRow)
  {
    if rows != [] {
      var n := |rows| - 1;
      JoinsDoNotChangeSelection(rows[..n], joined[..n], keep, keepRow);
    }
  }

  lemma {:induction false} SelectOverAccounts(db: Db, cs: seq<Condition>, accounts: seq<Account>,
                                              members: seq<string>, now: int, pg: Rendering, keepRow: Joined -> bool)
    requires UniqueCache(db.cache)
    requires forall a: Account, r: UserCacheRow | r in db.cache && r.robloxUserId == a.robloxUserId ::
               keepRow(Joined(a, r, map[])) == (a.discordId in members && AccountAccepted(db, cs, a, now, pg))
    ensures Select(JoinCache(accounts, db.cache), keepRow) == Qualifying(db, cs, accounts, members, now, pg)
  {
    if accounts != [] {
      var n := |accounts| - 1;
      var a := accounts[n];
      SelectOverAccounts(db, cs, accounts[..n], members, now, pg, keepRow);
      CacheJoinsAtMostOnce(a, db.cache);
      LookupCacheFinds(db.cache, a.robloxUserId);
      var front := JoinCache(accounts[..n], db.cache);
      match LookupCache(db.cache, a.robloxUserId) {
        case None => assert JoinCache(accounts, db.cache) == front;
        case Some(r) => SelectPush(front, Joined(a, r, map[]), keepRow);
      }
    }
  }

  lemma {:induction false} CachedRowsOnly(accounts: seq<Account>, cache: seq<UserCacheRow>)
    requires UniqueCache(cache)
    ensures forall x | x in JoinCache(accounts, cache) ::
              x == Joined(x.account, x.cache, map[]) && LookupCache(cache, x.account.robloxUserId) == Some(x.cache)
              && x.account in accounts
    ensures forall a, r | a in accounts && LookupCache(cache, a.robloxUserId) == Some(r) ::
              Joined(a, r, map[]) in JoinCache(accounts, cache)
  {
    if accounts != [] {
      CachedRowsOnly(accounts[..|accounts| - 1], cache);
      CacheJoinsAtMostOnce(accounts[|accounts| - 1], cache);
    }
  }

  /** The generated query fails exactly when some member's row raises an error. */
  lemma QueryFailsMeaning(db: Db, cs: seq<Condition>, joins: seq<UniverseJoin>, members: seq<string>,
                          w: Where, binds: seq<Bind>, now: int, pg: Rendering)
    requires Keyed(db) && DistinctAliases(joins)
    requires CompiledFrom(cs, w, binds, false)
    ensures QueryFails(JoinAll(JoinCache(db.accounts, db.cache), joins, db.stats), members, w, binds, now, pg)
       <==> SomeMemberFails(db, cs, members, now, pg)
  {
    var rows := JoinCache(db.accounts, db.cache);
    var all := JoinAll(rows, joins, db.stats);
    JoinsKeepRows(rows, joins, db.stats);
    CachedRowsOnly(db.accounts, db.cache);
    forall i | 0 <= i < |rows|
      ensures all[i].account == rows[i].account && all[i].cache == rows[i].cache && rows[i] in rows
      ensures EvalWhere(w, binds, rows[i].cache, now, pg) == IntendedTruth(cs, rows[i].cache, now, pg)
    {
      AliasesShowTheirUniverse(rows[i], joins, db.stats);
      CompiledTruth(cs, w, binds, rows[i].cache, now, pg);
    }
    if SomeMemberFails(db, cs, members, now, pg) {
      var a, r :| a in db.accounts && a.discordId in members && LookupCache(db.cache, a.robloxUserId) == Some(r)
                  && IntendedTruth(cs, r, now, pg) == Error;
      var i :| 0 <= i < |rows| && rows[i] == Joined(a, r, map[]);
      assert all[i].account.discordId in members;
    }
  }

  /** The generated query returns the list to push. */
  lemma SqlPathIsCorrect(db: Db, cs: seq<Condition>, joins: seq<UniverseJoin>, members: seq<string>,
                         w: Where, binds: seq<Bind>, now: int, pg: Rendering)
    requires Keyed(db) && DistinctAliases(joins)
    requires CompiledFrom(cs, w, binds, false)
    ensures Select(JoinAll(JoinCache(db.accounts, db.cache), joins, db.stats), SqlFilter(members, w, binds, now, pg))
         == Qualifying(db, cs, db.accounts, members, now, pg)
  {
    var rows := JoinCache(db.accounts, db.cache);
    var keep := SqlFilter(members, w, binds, now, pg);
    JoinsKeepRows(rows, joins, db.stats);
    forall i | 0 <= i < |rows| { AliasesShowTheirUniverse(rows[i], joins, db.stats); }
    JoinsDoNotChangeSelection(rows, JoinAll(rows, joins, db.stats), keep, keep);
    forall a: Account, r: UserCacheRow | r in db.cache && r.robloxUserId == a.robloxUserId
      ensures keep(Joined(a, r, map[])) == (a.discordId in members && AccountAccepted(db, cs, a, now, pg))
    {
      OnlyCachedRow(db.cache, r);
      CompiledAcceptance(cs, w, binds, r, StatsOf(db, a.robloxUserId, NamedUniverses(cs)), now, pg);
    }
    SelectOverAccounts(db, cs, db.accounts, members, now, pg, keep);
  }

  lemma OnlyCachedRow(cache: seq<UserCacheRow>, r: UserCacheRow)
    requires UniqueCache(cache) && r in cache
    ensures LookupCache(cache, r.robloxUserId) == Some(r)
  {
    LookupCacheFinds(cache, r.robloxUserId);
    var found := LookupCache(cache, r.robloxUserId).value;
    var i :| 0 <= i < |cache| && cache[i] == r;
    var j :| 0 <= j < |cache| && cache[j] == found;
    assert i == j;
  }

  lemma CompiledAcceptance(cs: seq<Condition>, w: Where, binds: seq<Bind>, uc: UserCacheRow, stats: GameStats,
                           now: int, pg: Rendering)
    requires CompiledFrom(cs, w, binds, false)
    ensures EvalWhere(w, binds, uc, now, pg) == True <==> BulkAccepts(cs, uc, stats, now, pg)
  {
    CompiledMeaning(cs, w, binds, uc, now, pg);
  }

  /** Fetching everything and re-checking in memory returns the list to push. */
  lemma MemoryPathIsCorrect(db: Db, cs: seq<Condition>, aliases: map<string, string>, joins: seq<UniverseJoin>,
                            uids: seq<string>, members: seq<string>, now: int, pg: Rendering)
    requires Keyed(db) && JoinsFor(aliases, joins, uids)
    requires aliases.Keys == NamedUniverses(cs)
    requires AllNamed(cs) && AnyCustom(cs)
    ensures Select(JoinAll(JoinCache(db.accounts, db.cache), joins, db.stats), MemoryFilter(members, cs, aliases, now))
         == Qualifying(db, cs, db.accounts, members, now, pg)
  {
    var rows := JoinCache(db.accounts, db.cache);
    var keep := MemoryFilter(members, cs, aliases, now);
    var keepRow := (x: Joined) => x.account.discordId in members &&
      EvaluateConditions(cs, x.cache, StatsOf(db, x.account.robloxUserId, aliases.Keys), now);
    JoinsKeepRows(rows, joins, db.stats);
    CachedRowsOnly(db.accounts, db.cache);
    var joined := JoinAll(rows, joins, db.stats);
    forall i | 0 <= i < |rows|
      ensures rows[i].account == joined[i].account && keep(joined[i]) == keepRow(rows[i])
    {
      assert rows[i] in rows;
      AliasesShowTheirUniverse(rows[i], joins, db.stats);
      AliasesShowOwnStats(rows[i].account, rows[i].cache, aliases, joins, uids, db);
    }
    JoinsDoNotChangeSelection(rows, joined, keep, keepRow);
    forall a: Account, r: UserCacheRow | r in db.cache && r.robloxUserId == a.robloxUserId
      ensures keepRow(Joined(a, r, map[])) == (a.discordId in members && AccountAccepted(db, cs, a, now, pg))
    {
      OnlyCachedRow(db.cache, r);
    }
    SelectOverAccounts(db, cs, db.accounts, members, now, pg, keepRow);
  }
}
