/** The sync functions over RoleLogic's live lists and the local tables: list
    replacement with its chunked upload, the bulk sync of a link, the sync of a
    player and the clean-up after an unlink. Remote answers are parameters. */
module SyncService {
  import opened Wrappers
  import opened Text
  import opened Conditions
  import opened ConditionEval
  import opened SqlText
  import opened ConditionSql
  import opened Database
  import opened RoleStores
  import opened PlayerSync

  const CHUNK_SIZE: nat := 100_000
  const MAX_USERS_PER_ROLE: nat := 30_000_000

  datatype AppError =
    | RoleLinkNotFound
    | RoleLinkDisabled
    | RemovalHeld
    | UserLimitReached
    | RoleLogicFailed
    | UploadTooLarge
    | DatabaseFailed
    | GatewayFailed

  /** Which database reads of a bulk sync succeed. */
  datatype Reads = Reads(link: bool, universes: bool, rows: bool)

  /** Which database reads of a player's sync succeed; `stats` says it for each
      universe, where a failure is skipped. */
  datatype PlayerReads = PlayerReads(row: bool, links: bool, universes: bool, mirror: bool, stats: string -> bool)

  /** What RoleLogic answers to the calls of one list replacement. */
  datatype Replies = Replies(put: Reply, start: Reply, chunk: nat -> Reply, commit: Reply, cancel: Reply)

  // --------------------------------------------------------- error classification

  function PutResult(r: Reply): Result<(), AppError> {
    match r
    case Accepted => Ok(())
    case Gone => Err(RoleLinkNotFound)
    case Disabled => Err(RoleLinkDisabled)
    case LimitReached => Err(UserLimitReached)
    case Held => Err(RemovalHeld)
    case _ => Err(RoleLogicFailed)
  }

  function StartResult(r: Reply): Result<(), AppError> {
    match r
    case Accepted => Ok(())
    case Gone => Err(RoleLinkNotFound)
    case Disabled => Err(RoleLinkDisabled)
    case _ => Err(RoleLogicFailed)
  }

  /** A failed chunk is never classified further. */
  function ChunkResult(r: Reply): Result<(), AppError> {
    if r == Accepted then Ok(()) else Err(RoleLogicFailed)
  }

  /** A commit knows limits and holds but not gone or disabled links. */
  function CommitResult(r: Reply): Result<(), AppError> {
    match r
    case Accepted => Ok(())
    case LimitReached => Err(UserLimitReached)
    case Held => Err(RemovalHeld)
    case _ => Err(RoleLogicFailed)
  }

  // ------------------------------------------------------------ the effect meant

  function Listed(k: LinkKey, ids: seq<string>): set<Assignment> {
    set u | u in ids :: Assignment(k, u)
  }

  function Replaced(s: set<Assignment>, k: LinkKey, ids: seq<string>): set<Assignment> {
    Without(s, k) + Listed(k, ids)
  }

  function ChunkCount(n: nat): nat {
    (n + CHUNK_SIZE - 1) / CHUNK_SIZE
  }

  predicate ChunksAccepted(n: nat, replies: Replies) {
    forall i | 0 <= i < ChunkCount(n) :: replies.chunk(i) == Accepted
  }

  /** The reply to the call that swaps the list in, if it is made at all. */
  function SwapReply(n: nat, replies: Replies): Option<Reply> {
    if n > MAX_USERS_PER_ROLE then None
    else if n <= CHUNK_SIZE then Some(replies.put)
    else if replies.start == Accepted && ChunksAccepted(n, replies) then Some(replies.commit)
    else None
  }

  function ReplaceResult(n: nat, replies: Replies): Result<(), AppError> {
    if n > MAX_USERS_PER_ROLE then Err(UploadTooLarge)
    else if n <= CHUNK_SIZE then PutResult(replies.put)
    else if replies.start != Accepted then StartResult(replies.start)
    else if !ChunksAccepted(n, replies) then Err(RoleLogicFailed)
    else CommitResult(replies.commit)
  }

  /** The first chunk that fails does so because the link is gone. */
  predicate ChunkFoundGone(n: nat, replies: Replies) {
    exists i :: 0 <= i < ChunkCount(n) && replies.chunk(i) == Gone
                && forall j | 0 <= j < i :: replies.chunk(j) == Accepted
  }

  /** Some call that was made found the link gone: the PUT, or one of the upload's
      calls, the cancel after a failed chunk included. */
  predicate LinkGone(n: nat, replies: Replies) {
    || SwapReply(n, replies) == Some(Gone)
    || (CHUNK_SIZE < n <= MAX_USERS_PER_ROLE &&
        (replies.start == Gone ||
         (replies.start == Accepted && !ChunksAccepted(n, replies) &&
          (ChunkFoundGone(n, replies) || replies.cancel == Gone))))
  }

  /** The live lists after a replacement: swapped whole, or not at all. */
  function LiveAfter(live: set<Assignment>, k: LinkKey, ids: seq<string>, replies: Replies): set<Assignment> {
    if SwapReply(|ids|, replies) == Some(Accepted) || SwapReply(|ids|, replies) == Some(Lost)
    then Replaced(live, k, ids)
    else if LinkGone(|ids|, replies) then Without(live, k)
    else live
  }

  /** The bulk sync of a link that pushes `ids`. */
  function BulkStores(s: Stores, k: LinkKey, ids: seq<string>, replies: Replies, dbOk: bool): Stores {
    var t := s.(live := LiveAfter(s.live, k, ids, replies));
    match ReplaceResult(|ids|, replies)
    case Ok(_) => if dbOk then t.(mirror := Replaced(t.mirror, k, ids)) else t
    case Err(e) => if e == RoleLinkNotFound then DeleteOrphan(t, k, dbOk) else t
  }

  function BulkResult(ids: seq<string>, replies: Replies, dbOk: bool): Result<(), AppError> {
    match ReplaceResult(|ids|, replies)
    case Ok(_) => if dbOk then Ok(()) else Err(DatabaseFailed)
    case Err(e) => if e == RoleLinkNotFound || e == RoleLinkDisabled then Ok(()) else Err(e)
  }

  ghost predicate Registered(db: Db, guild: string, cs: seq<Condition>) {
    forall u | u in ReferencedUniverses(cs) :: (guild, u) in db.universes
  }

  /** The list a bulk sync has to push, or the read that stops it. */
  ghost function Target(db: Db, k: LinkKey, cs: seq<Condition>, reading: Reads, members: Option<seq<string>>,
                        now: int, pg: Rendering): Result<seq<string>, AppError>
  {
    if cs == [] then Ok([])
    else if ReferencedUniverses(cs) != [] && !reading.universes then Err(DatabaseFailed)
    else if !Registered(db, k.guild, cs) then Ok([])
    else if members.None? then Err(GatewayFailed)
    else if members.value == [] then Ok([])
    else if !reading.rows || SomeMemberFails(db, cs, members.value, now, pg) then Err(DatabaseFailed)
    else Ok(Qualifying(db, cs, db.accounts, members.value, now, pg))
  }

  /** Calls in the order of `actions`, each answered by its link. */
  function OutcomesOf(actions: seq<Action>, answer: LinkKey -> Outcome): (r: seq<Outcome>)
    ensures |r| == |actions|
  {
    seq(|actions|, i requires 0 <= i < |actions| => answer(actions[i].key))
  }

  function UnlinkSteps(s: Stores, keys: seq<LinkKey>, user: string, answer: LinkKey -> Outcome): Stores {
    if keys == [] then s
    else
      var k := keys[|keys| - 1];
      var t := RemoteStep(UnlinkSteps(s, keys[..|keys| - 1], user, answer), Remove(k, user), answer(k).reply);
      if answer(k).reply == Gone then DeleteOrphan(t, k, answer(k).dbOk) else t
  }

  /** A bulk sync keeps the mirror on existing links: the link it fills is there. */
  lemma BulkKeepsForeignKey(s: Stores, k: LinkKey, ids: seq<string>, replies: Replies, dbOk: bool)
    requires s.Valid() && k in s.links
    ensures BulkStores(s, k, ids, replies, dbOk).Valid()
  {
  }

  lemma {:induction false} UnlinkKeepsForeignKey(s: Stores, keys: seq<LinkKey>, user: string,
                                                 answer: LinkKey -> Outcome)
    requires s.Valid()
    ensures UnlinkSteps(s, keys, user, answer).Valid()
  {
    if keys != [] { UnlinkKeepsForeignKey(s, keys[..|keys| - 1], user, answer); }
  }

  // ------------------------------------------------------------------- the class

  class Service {
    var live: set<Assignment>
    var upload: Option<seq<string>>
    var mirror: set<Assignment>
    var links: map<LinkKey, seq<Condition>>

    /** The mirror's foreign key. */
    ghost predicate Valid()
      reads this
    {
      View().Valid()
    }

    constructor (stores: Stores)
      requires stores.Valid()
      ensures Valid() && View() == stores && upload == None
    {
      live, mirror, links, upload := stores.live, stores.mirror, stores.links, None;
    }

    function View(): Stores
      reads this
    {
      Stores(live, mirror, links)
    }

    // ---- RoleLogic client

    /** One PUT of the whole list. */
    method ReplaceUsers(k: LinkKey, ids: seq<string>, reply: Reply) returns (r: Result<(), AppError>)
      modifies this`live
      ensures r == if |ids| > CHUNK_SIZE then Err(RoleLogicFailed) else PutResult(reply)
      ensures live == (if |ids| > CHUNK_SIZE then old(live)
                       else if reply == Accepted || reply == Lost then Replaced(old(live), k, ids)
                       else if reply == Gone then Without(old(live), k) else old(live))
    {
      if |ids| > CHUNK_SIZE { return Err(RoleLogicFailed); }
      if reply == Accepted || reply == Lost { live := Replaced(live, k, ids); }
      if reply == Gone { live := Without(live, k); }
      return PutResult(reply);
    }

    method StartUpload(k: LinkKey, reply: Reply) returns (r: Result<(), AppError>)
      modifies this`live, this`upload
      ensures r == StartResult(reply)
      ensures live == if reply == Gone then Without(old(live), k) else old(live)
      ensures r.Ok? ==> upload == Some([])
    {
      if reply == Gone { live := Without(live, k); }
      if reply == Accepted || reply == Lost { upload := Some([]); }
      return StartResult(reply);
    }

    method AppendChunk(k: LinkKey, chunk: seq<string>, reply: Reply) returns (r: Result<(), AppError>)
      requires upload.Some?
      modifies this`live, this`upload
      ensures r == ChunkResult(reply)
      ensures live == if reply == Gone then Without(old(live), k) else old(live)
      ensures upload.Some? && (r.Ok? ==> upload == Some(old(upload).value + chunk))
    {
      if reply == Accepted || reply == Lost { upload := Some(upload.value + chunk); }
      if reply == Gone { live := Without(live, k); }
      return ChunkResult(reply);
    }

    /** A failure to cancel is ignored. */
    method CancelUpload(k: LinkKey, reply: Reply)
      modifies this`live, this`upload
      ensures live == if reply == Gone then Without(old(live), k) else old(live)
      ensures upload == if reply == Accepted || reply == Lost then None else old(upload)
    {
      if reply == Accepted || reply == Lost { upload := None; }
      if reply == Gone { live := Without(live, k); }
    }

    /** The swap: what was staged becomes the list, at once. */
    method CommitUpload(k: LinkKey, reply: Reply) returns (r: Result<(), AppError>)
      requires upload.Some?
      modifies this`live, this`upload
      ensures r == CommitResult(reply)
      ensures upload == if reply == Accepted || reply == Lost then None else old(upload)
      ensures live ==
        if reply == Accepted || reply == Lost then Replaced(old(live), k, old(upload).value)
        else if reply == Gone then Without(old(live), k) else old(live)
    {
      if reply == Accepted || reply == Lost {
        live := Replaced(live, k, upload.value);
        upload := None;
      }
      if reply == Gone { live := Without(live, k); }
      return CommitResult(reply);
    }

    method ReplaceUsersScalable(k: LinkKey, ids: seq<string>, replies: Replies) returns (r: Result<(), AppError>)
      modifies this`live, this`upload
      ensures r == ReplaceResult(|ids|, replies)
      ensures live == LiveAfter(old(live), k, ids, replies)
      ensures CHUNK_SIZE < |ids| <= MAX_USERS_PER_ROLE && replies.start == Accepted && !ChunksAccepted(|ids|, replies)
              ==> (upload == None <==> replies.cancel == Accepted || replies.cancel == Lost)
    {
      if |ids| > MAX_USERS_PER_ROLE { return Err(UploadTooLarge); }
      if |ids| <= CHUNK_SIZE {
        r := ReplaceUsers(k, ids, replies.put);
        return;
      }
      r := StartUpload(k, replies.start);
      if r.Err? { return; }
      var idx, from := 0, 0;
      while from < |ids|
        invariant 0 <= from <= |ids|
        invariant from == if idx < ChunkCount(|ids|) then idx * CHUNK_SIZE else |ids|
        invariant 0 <= idx <= ChunkCount(|ids|)
        invariant upload == Some(ids[..from])
        invariant forall i | 0 <= i < idx :: replies.chunk(i) == Accepted
        invariant live == old(live)
      {
        var to := if from + CHUNK_SIZE <= |ids| then from + CHUNK_SIZE else |ids|;
        assert ids[..from] + ids[from..to] == ids[..to];
        r := AppendChunk(k, ids[from..to], replies.chunk(idx));
        if r.Err? {
          assert !ChunksAccepted(|ids|, replies);
          CancelUpload(k, replies.cancel);
          return;
        }
        idx, from := idx + 1, to;
      }
      assert ids[..from] == ids;
      r := CommitUpload(k, replies.commit);
    }

    // ---- local tables

    method DeleteOrphanRoleLink(k: LinkKey, dbOk: bool)
      requires Valid()
      modifies this`links, this`mirror
      ensures Valid()
      ensures View() == DeleteOrphan(old(View()), k, dbOk)
    {
      if dbOk {
        links := links - {k};
        mirror := Without(mirror, k);
      }
    }

    /** Push a list and rebuild the link's mirror rows from it: the tail that the
        clearing paths and the main path of a bulk sync share. */
    method PushAndRebuild(k: LinkKey, ids: seq<string>, replies: Replies, dbOk: bool)
      returns (r: Result<(), AppError>)
      requires Valid() && k in links
      modifies this
      ensures Valid()
      ensures View() == BulkStores(old(View()), k, ids, replies, dbOk)
      ensures r == BulkResult(ids, replies, dbOk)
    {
      r := ReplaceUsersScalable(k, ids, replies);
      match r {
        case Ok(_) =>
          if !dbOk { return Err(DatabaseFailed); }
          mirror := Replaced(mirror, k, ids);
        case Err(RoleLinkNotFound) =>
          DeleteOrphanRoleLink(k, dbOk);
          r := Ok(());
        case Err(RoleLinkDisabled) => r := Ok(());
        case Err(_) =>
      }
    }

    /** `sync_for_role_link`. */
    method SyncForRoleLink(k: LinkKey, db: Db, reading: Reads, members: Option<seq<string>>, now: int, pg: Rendering,
                           replies: Replies, dbOk: bool)
      returns (r: Result<(), AppError>)
      requires Keyed(db) && Valid()
      modifies this
      ensures Valid()
      ensures !reading.link ==> View() == old(View()) && r == Err(DatabaseFailed)
      ensures reading.link && k !in old(links) ==> View() == old(View()) && r == Ok(())
      ensures reading.link && k in old(links) ==>
        match Target(db, k, old(links)[k], reading, members, now, pg)
        case Err(e) => View() == old(View()) && r == Err(e)
        case Ok(ids) =>
          View() == BulkStores(old(View()), k, ids, replies, dbOk) && r == BulkResult(ids, replies, dbOk)
    {
      if !reading.link { return Err(DatabaseFailed); }
      if k !in links { return Ok(()); }
      var conditions := links[k];
      if conditions == [] {
        r := PushAndRebuild(k, [], replies, dbOk);
        return;
      }
      var referenced := ReferencedUniverses(conditions);
      if referenced != [] && !reading.universes { return Err(DatabaseFailed); }
      if exists u | u in referenced :: (k.guild, u) !in db.universes {
        r := PushAndRebuild(k, [], replies, dbOk);
        return;
      }
      if members.None? { return Err(GatewayFailed); }
      if members.value == [] {
        r := PushAndRebuild(k, [], replies, dbOk);
        return;
      }
      var aliases, joins, uids := BuildUniverseJoins(conditions);
      var w, binds, needsEval := BuildConditionWhere(conditions);
      if !reading.rows { return Err(DatabaseFailed); }
      var ids;
      if needsEval {
        JoinsMakeAliasesInjective(aliases, joins, uids);
        ids := EvaluateRoleLinkInMemory(conditions, members.value, aliases, db, now, pg);
      } else {
        SqlPathIsCorrect(db, conditions, joins, members.value, w, binds, now, pg);
        QueryFailsMeaning(db, conditions, joins, members.value, w, binds, now, pg);
        var joined := JoinAll(JoinCache(db.accounts, db.cache), joins, db.stats);
        if QueryFails(joined, members.value, w, binds, now, pg) { return Err(DatabaseFailed); }
        ids := Select(joined, SqlFilter(members.value, w, binds, now, pg));
      }
      r := PushAndRebuild(k, ids, replies, dbOk);
    }

    /** `sync_for_player`, its actions one after another. `rows` are the links of
        the player's guilds in the order the query returns them. Only a failed
        read of stats goes unnoticed. */
    method SyncForPlayer(user: string, db: Db, reading: PlayerReads, guilds: Option<set<string>>, rows: seq<LinkKey>,
                         now: int, answer: LinkKey -> Outcome)
      returns (r: Result<(), AppError>)
      requires Distinct(rows) && Valid()
      requires guilds.Some? ==> forall k :: k in rows <==> k in links && k.guild in guilds.value
      modifies this
      ensures Valid()
      ensures r == PlayerResult(db, user, old(links), rows, reading, guilds)
      ensures r.Err? || PlayerRow(db, user).None? ==> View() == old(View())
      ensures r.Ok? && PlayerRow(db, user).Some? ==>
        var actions := Plan(rows, user, PlayerQualifies(db, user, old(links), rows, reading.stats, now), old(mirror));
        View() == Sequential(old(View()), actions, OutcomesOf(actions, answer))
    {
      if !reading.row { return Err(DatabaseFailed); }
      var row := PlayerRow(db, user);
      if row.None? { return Ok(()); }
      if guilds.None? { return Err(GatewayFailed); }
      if guilds.value == {} {
        assert forall k :: k !in rows;
        return Ok(());
      }
      if !reading.links { return Err(DatabaseFailed); }
      var needsUniverses := exists k | k in rows :: ReferencedUniverses(links[k]) != [];
      if needsUniverses && !reading.universes { return Err(DatabaseFailed); }
      if !reading.mirror { return Err(DatabaseFailed); }
      var actions := ActionsForPlayer(user, db, row.value, rows, reading.stats, now);
      PerformAll(actions, answer);
      return Ok(());
    }

    /** The loop over the player's links that decides on Adds and Removes. */
    method ActionsForPlayer(user: string, db: Db, row: UserCacheRow, rows: seq<LinkKey>, readable: string -> bool,
                            now: int)
      returns (actions: seq<Action>)
      requires PlayerRow(db, user) == Some(row)
      requires Distinct(rows) && forall k | k in rows :: k in links
      ensures actions == Plan(rows, user, PlayerQualifies(db, user, links, rows, readable, now), mirror)
    {
      ghost var qual := PlayerQualifies(db, user, links, rows, readable, now);
      var needed := set k, u | k in rows && u in ReferencedUniverses(links[k]) :: u;
      var stats := StatsOf(db, row.robloxUserId, set u | u in needed && readable(u));
      actions := [];
      for i := 0 to |rows|
        invariant actions == Plan(rows[..i], user, qual, mirror)
      {
        var k := rows[i];
        assert k in rows && rows[..i + 1][..i] == rows[..i];
        var conditions := links[k];
        var unauthorized := exists u | u in ReferencedUniverses(conditions) :: (k.guild, u) !in db.universes;
        var qualifies := !unauthorized && EvaluateConditions(conditions, row, stats, now);
        StatsReferenced(db, row, conditions, needed, readable, now);
        if qualifies && Assignment(k, user) !in mirror {
          actions := actions + [Add(k, user)];
        } else if !qualifies && Assignment(k, user) in mirror {
          actions := actions + [Remove(k, user)];
        }
      }
      assert rows[..|rows|] == rows;
    }

    method PerformAll(actions: seq<Action>, answer: LinkKey -> Outcome)
      requires Valid()
      modifies this`live, this`mirror, this`links
      ensures Valid()
      ensures View() == Sequential(old(View()), actions, OutcomesOf(actions, answer))
    {
      ghost var outcomes := OutcomesOf(actions, answer);
      for i := 0 to |actions|
        invariant Valid()
        invariant View() == Sequential(old(View()), actions[..i], outcomes[..i])
      {
        assert actions[..i + 1][..i] == actions[..i] && outcomes[..i + 1][..i] == outcomes[..i];
        Perform(actions[i], answer(actions[i].key));
      }
      assert actions[..|actions|] == actions && outcomes[..|actions|] == outcomes;
    }

    /** The two awaited steps of one action. */
    method Perform(a: Action, o: Outcome)
      requires Valid()
      modifies this`live, this`mirror, this`links
      ensures Valid()
      ensures View() == BothSteps(old(View()), a, o)
    {
      live := RemoteStep(View(), a, o.reply).live;
      if o.reply == Gone {
        DeleteOrphanRoleLink(a.key, o.dbOk);
      } else if o.reply == Accepted && o.dbOk {
        match a {
          case Add(k, u) => if k in links { mirror := mirror + {Assignment(k, u)}; }
          case Remove(k, u) => mirror := mirror - {Assignment(k, u)};
        }
      }
    }

    /** `remove_all_assignments`. `rows` are the links of the user's mirror rows. */
    method RemoveAllAssignments(user: string, rows: seq<LinkKey>, answer: LinkKey -> Outcome, dbOk: bool)
      returns (r: Result<(), AppError>)
      requires Distinct(rows) && forall k :: k in rows <==> Assignment(k, user) in mirror && k in links
      requires Valid()
      modifies this
      ensures Valid()
      ensures r == if dbOk then Ok(()) else Err(DatabaseFailed)
      ensures var t := UnlinkSteps(old(View()), rows, user, answer);
        View() == if dbOk then t.(mirror := set a | a in t.mirror && a.user != user) else t
    {
      ghost var start := View();
      for i := 0 to |rows|
        invariant Valid()
        invariant View() == UnlinkSteps(start, rows[..i], user, answer)
      {
        var k := rows[i];
        assert rows[..i + 1][..i] == rows[..i];
        live := RemoteStep(View(), Remove(k, user), answer(k).reply).live;
        if answer(k).reply == Gone { DeleteOrphanRoleLink(k, answer(k).dbOk); }
      }
      assert rows[..|rows|] == rows;
      if !dbOk { return Err(DatabaseFailed); }
      mirror := set a | a in mirror && a.user != user;
      return Ok(());
    }
  }

  // ------------------------------------------------------------ reading the tables

  function AccountOf(accounts: seq<Account>, user: string): Option<Account> {
    if accounts == [] then None
    else if accounts[|accounts| - 1].discordId == user then Some(accounts[|accounts| - 1])
    else AccountOf(accounts[..|accounts| - 1], user)
  }

  /** The cached row behind a Discord user. */
  function PlayerRow(db: Db, user: string): Option<UserCacheRow> {
    match AccountOf(db.accounts, user)
    case None => None
    case Some(a) => LookupCache(db.cache, a.robloxUserId)
  }

  /** Whether a player's sync gets as far as acting. */
  ghost function PlayerResult(db: Db, user: string, links: map<LinkKey, seq<Condition>>, rows: seq<LinkKey>,
                              reading: PlayerReads, guilds: Option<set<string>>): Result<(), AppError>
  {
    if !reading.row then Err(DatabaseFailed)
    else if PlayerRow(db, user).None? then Ok(())
    else if guilds.None? then Err(GatewayFailed)
    else if guilds.value == {} then Ok(())
    else if !reading.links then Err(DatabaseFailed)
    else if (exists k :: k in rows && k in links && ReferencedUniverses(links[k]) != []) && !reading.universes
    then Err(DatabaseFailed)
    else if !reading.mirror then Err(DatabaseFailed)
    else Ok(())
  }

  /** The stats a condition list is judged on: its universes', where readable. */
  function StatsFor(db: Db, row: UserCacheRow, cs: seq<Condition>, readable: string -> bool): GameStats {
    StatsOf(db, row.robloxUserId, set u | u in ReferencedUniverses(cs) && readable(u))
  }

  /** What a per-player sync decides about one link. */
  ghost predicate LinkQualifies(db: Db, row: UserCacheRow, k: LinkKey, cs: seq<Condition>, readable: string -> bool,
                                now: int)
  {
    Registered(db, k.guild, cs) && EvaluateConditions(cs, row, StatsFor(db, row, cs, readable), now)
  }

  ghost function PlayerQualifies(db: Db, user: string, links: map<LinkKey, seq<Condition>>, rows: seq<LinkKey>,
                                 readable: string -> bool, now: int): set<LinkKey>
    requires PlayerRow(db, user).Some?
  {
    set k | k in rows && k in links && LinkQualifies(db, PlayerRow(db, user).value, k, links[k], readable, now)
  }

  /** The stats of all needed universes serve each link as well as its own. */
  lemma StatsReferenced(db: Db, row: UserCacheRow, cs: seq<Condition>, needed: set<string>, readable: string -> bool,
                        now: int)
    requires forall u | u in ReferencedUniverses(cs) :: u in needed
    ensures EvaluateConditions(cs, row, StatsOf(db, row.robloxUserId, set u | u in needed && readable(u)), now)
         == EvaluateConditions(cs, row, StatsFor(db, row, cs, readable), now)
  {
    EvaluationReadsReferencedUniverses(cs, row, StatsOf(db, row.robloxUserId, set u | u in needed && readable(u)),
                                       StatsFor(db, row, cs, readable), now);
  }

  /** Every universe whose stats a game condition is about could be read. */
  predicate GameStatsReadable(cs: seq<Condition>, readable: string -> bool) {
    forall i | 0 <= i < |cs| && cs[i].field.RequiresUniverse() ::
      cs[i].universeId.Some? && readable(cs[i].universeId.value)
  }

  lemma ConditionOnFewerStats(c: Condition, row: UserCacheRow, some: GameStats, all: GameStats, now: int)
    requires c.universeId.Some? && c.universeId.value in some ==>
               c.universeId.value in all && some[c.universeId.value] == all[c.universeId.value]
    ensures EvaluateSingle(c, row, some, now) <==>
              EvaluateSingle(c, row, all, now)
              && (c.field.RequiresUniverse() ==> c.universeId.Some? && c.universeId.value in some)
  {
  }

  /** A failed read of stats can only cost a role: the player still qualifies
      exactly when nothing a game condition needs was unreadable. */
  lemma UnreadableStatsCostTheRole(db: Db, row: UserCacheRow, cs: seq<Condition>, readable: string -> bool, now: int)
    ensures EvaluateConditions(cs, row, StatsFor(db, row, cs, readable), now) <==>
              EvaluateConditions(cs, row, StatsFor(db, row, cs, _ => true), now) && GameStatsReadable(cs, readable)
  {
    var some, all := StatsFor(db, row, cs, readable), StatsFor(db, row, cs, _ => true);
    ReferencedUniversesMembership(cs);
    forall i | 0 <= i < |cs|
      ensures EvaluateSingle(cs[i], row, some, now) <==>
                EvaluateSingle(cs[i], row, all, now)
                && (cs[i].field.RequiresUniverse() ==> cs[i].universeId.Some? && readable(cs[i].universeId.value))
    {
      if cs[i].universeId.Some? {
        var u := cs[i].universeId.value;
        assert u in ReferencedUniverses(cs);
        assert u in some <==> u in all && readable(u);
      }
      ConditionOnFewerStats(cs[i], row, some, all, now);
      ConditionOnFewerStats(cs[i], row, all, all, now);
    }
  }

  /** One alias and one LEFT JOIN for each universe, however often it is named. */
  method BuildUniverseJoins(conditions: seq<Condition>)
    returns (aliases: map<string, string>, joins: seq<UniverseJoin>, ghost uids: seq<string>)
    ensures JoinsFor(aliases, joins, uids) && Distinct(uids)
    ensures aliases.Keys == NamedUniverses(conditions)
  {
    aliases, joins, uids := map[], [], [];
    var nextAlias := 0;
    for i := 0 to |conditions|
      invariant nextAlias == |joins|
      invariant forall j | 0 <= j < |joins| :: joins[j].alias == "pgs" + Decimal(j)
      invariant JoinsFor(aliases, joins, uids) && Distinct(uids)
      invariant aliases.Keys == NamedUniverses(conditions[..i])
    {
      var c := conditions[i];
      UniversesSoFar(conditions, i);
      if c.universeId.Some? && c.universeId.value !in aliases {
        var uid := c.universeId.value;
        var alias := "pgs" + Decimal(nextAlias);
        FreshAlias(joins);
        JoinsForPush(aliases, joins, uids, uid, alias);
        nextAlias := nextAlias + 1;
        joins := joins + [UniverseJoin(alias, Quote(uid))];
        aliases := aliases[uid := alias];
        uids := uids + [uid];
      }
    }
    assert conditions[..|conditions|] == conditions;
  }

  lemma UniversesSoFar(cs: seq<Condition>, i: nat)
    requires i < |cs|
    ensures NamedUniverses(cs[..i + 1]) ==
            NamedUniverses(cs[..i]) + if cs[i].universeId.Some? then {cs[i].universeId.value} else {}
  {
    ReferencedUniversesPush(cs[..i], cs[i]);
    assert cs[..i] + [cs[i]] == cs[..i + 1];
  }

  lemma JoinsForPush(aliases: map<string, string>, joins: seq<UniverseJoin>, uids: seq<string>,
                     uid: string, alias: string)
    requires JoinsFor(aliases, joins, uids) && Distinct(uids) && uid !in aliases
    requires forall j | 0 <= j < |joins| :: joins[j].alias != alias
    ensures JoinsFor(aliases[uid := alias], joins + [UniverseJoin(alias, Quote(uid))], uids + [uid])
    ensures Distinct(uids + [uid])
    ensures aliases[uid := alias].Keys == aliases.Keys + {uid}
  {
  }

  lemma FreshAlias(joins: seq<UniverseJoin>)
    requires forall j | 0 <= j < |joins| :: joins[j].alias == "pgs" + Decimal(j)
    ensures forall j | 0 <= j < |joins| :: joins[j].alias != "pgs" + Decimal(|joins|)
  {
    var n := |joins|;
    forall j | 0 <= j < n ensures joins[j].alias != "pgs" + Decimal(n) {
      if joins[j].alias == "pgs" + Decimal(n) {
        assert ("pgs" + Decimal(j))[3..] == Decimal(j) && ("pgs" + Decimal(n))[3..] == Decimal(n);
        DecimalInjective(j, n);
      }
    }
  }

  /** The slow path: joins rebuilt from the alias map in any order, every row
      fetched, each re-checked by the interpreter. */
  method EvaluateRoleLinkInMemory(conditions: seq<Condition>, members: seq<string>, aliases: map<string, string>,
                                  db: Db, now: int, pg: Rendering)
    returns (qualifying: seq<string>)
    requires Keyed(db)
    requires AllNamed(conditions) && AnyCustom(conditions)
    requires aliases.Keys == NamedUniverses(conditions)
    requires InjectiveAliases(aliases)
    ensures qualifying == Qualifying(db, conditions, db.accounts, members, now, pg)
  {
    var joins: seq<UniverseJoin>;
    ghost var order;
    joins, order := JoinsInAnyOrder(aliases);
    var rows := JoinAll(JoinCache(db.accounts, db.cache), joins, db.stats);
    qualifying := FilterRows(rows, conditions, members, aliases, now);
    MemoryPathIsCorrect(db, conditions, aliases, joins, order, members, now, pg);
  }

  method FilterRows(rows: seq<Joined>, conditions: seq<Condition>, members: seq<string>,
                    aliases: map<string, string>, now: int)
    returns (qualifying: seq<string>)
    ensures qualifying == Select(rows, MemoryFilter(members, conditions, aliases, now))
  {
    ghost var keep := MemoryFilter(members, conditions, aliases, now);
    qualifying := [];
    for i := 0 to |rows|
      invariant qualifying == Select(rows[..i], keep)
    {
      var row := rows[i];
      SelectPush(rows[..i], row, keep);
      assert rows[..i] + [row] == rows[..i + 1];
      if row.account.discordId in members {
        var gameStats := AliasStats(row, aliases);
        if EvaluateConditions(conditions, row.cache, gameStats, now) {
          qualifying := qualifying + [row.account.discordId];
        }
      }
    }
    assert rows[..|rows|] == rows;
  }

  ghost predicate InjectiveAliases(aliases: map<string, string>) {
    forall u, v | u in aliases && v in aliases && aliases[u] == aliases[v] :: u == v
  }

  method JoinsInAnyOrder(aliases: map<string, string>) returns (joins: seq<UniverseJoin>, ghost uids: seq<string>)
    requires InjectiveAliases(aliases)
    ensures |joins| == |aliases| && DistinctAliases(joins)
    ensures forall u | u in aliases :: UniverseJoin(aliases[u], Quote(u)) in joins
    ensures JoinsFor(aliases, joins, uids)
  {
    joins, uids := [], [];
    var left := aliases.Keys;
    while left != {}
      invariant left <= aliases.Keys
      invariant |joins| == |uids| && |joins| + |left| == |aliases.Keys|
      invariant forall u | u in aliases && u !in left :: UniverseJoin(aliases[u], Quote(u)) in joins
      invariant forall i | 0 <= i < |uids| ::
                  uids[i] in aliases && uids[i] !in left && joins[i] == UniverseJoin(aliases[uids[i]], Quote(uids[i]))
      invariant forall u | u in aliases && u !in left :: u in uids
      invariant DistinctAliases(joins)
      decreases left
    {
      var uid :| uid in left;
      joins := joins + [UniverseJoin(aliases[uid], Quote(uid))];
      left := left - {uid};
      uids := uids + [uid];
    }
  }

  lemma JoinsMakeAliasesInjective(aliases: map<string, string>, joins: seq<UniverseJoin>, uids: seq<string>)
    requires JoinsFor(aliases, joins, uids)
    ensures InjectiveAliases(aliases)
  {
    forall u, v | u in aliases && v in aliases && aliases[u] == aliases[v] ensures u == v {
      var i :| 0 <= i < |uids| && uids[i] == u;
      var j :| 0 <= j < |uids| && uids[j] == v;
      assert joins[i].alias == joins[j].alias;
    }
  }
}
