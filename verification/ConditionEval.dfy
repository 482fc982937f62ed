/** The interpreter that per-player syncs use: the reference semantics of a
    condition list. Times are whole microseconds. */
module ConditionEval {
  import opened Wrappers
  import opened Text
  import opened Json
  import opened Conditions

  const DAY: int := 86_400_000_000

  datatype UserCacheRow = UserCacheRow(
    robloxUserId: string,
    accountCreated: Option<int>,
    hasVerifiedBadge: bool,
    friendsCount: int,
    followersCount: int,
    followingCount: int,
    badgesCount: int,
    groups: Json,
    badges: Json,
    gamepasses: Json)

  /** `custom` blobs by universe. */
  type GameStats = map<string, Json>

  function EvaluateConditions(cs: seq<Condition>, uc: UserCacheRow, stats: GameStats, now: int): bool {
    cs != [] && forall i | 0 <= i < |cs| :: EvaluateSingle(cs[i], uc, stats, now)
  }

  /** `Duration::num_days`: whole days, truncated toward zero. */
  function NumDays(micros: int): int {
    if micros >= 0 then micros / DAY else -(-micros / DAY)
  }

  function AgeInDays(uc: UserCacheRow, now: int): int {
    match uc.accountCreated
    case None => 0
    case Some(c) => NumDays(now - c)
  }

  predicate EvaluateSingle(c: Condition, uc: UserCacheRow, stats: GameStats, now: int) {
    match c.field
    case AccountAgeDays => NumCompare(AgeInDays(uc, now), c)
    case HasVerifiedBadge => uc.hasVerifiedBadge == c.Flag()
    case FriendsCount => NumCompare(uc.friendsCount, c)
    case FollowersCount => NumCompare(uc.followersCount, c)
    case FollowingCount => NumCompare(uc.followingCount, c)
    case BadgesCount => NumCompare(uc.badgesCount, c)
    case OwnsBadge => c.badgeId.Some? && Owns(uc.badges, c.badgeId.value) == c.Flag()
    case OwnsGamepass => c.gamepassId.Some? && Owns(uc.gamepasses, c.gamepassId.value) == c.Flag()
    case OwnsAsset => c.assetId.Some? && Owns(uc.gamepasses, c.assetId.value) == c.Flag()
    case InGroup => c.groupId.Some? && IsMember(uc.groups, c.groupId.value) == c.Flag()
    case GroupRoleRank => c.groupId.Some? && NumCompare(RankIn(uc.groups, c.groupId.value), c)
    case CustomNumeric => GameStatHolds(c, stats)
    case CustomBoolean => GameStatHolds(c, stats)
    case CustomString => GameStatHolds(c, stats)
  }

  predicate GameStatHolds(c: Condition, stats: GameStats) {
    c.universeId.Some? && c.universeId.value in stats && EvaluateGame(c, stats[c.universeId.value])
  }

  predicate EvaluateGame(c: Condition, custom: Json) {
    match c.statKey
    case None => false
    case Some(key) =>
      var stat := custom.Get(key).GetOr(JNull);
      match c.field
      case CustomNumeric => NumCompare(AsI64OrTruncated(stat).GetOr(0), c)
      case CustomBoolean => stat.AsBool().GetOr(false) == c.Flag()
      case CustomString => stat.AsStr().GetOr("") == c.value.AsStr().GetOr("")
      case _ => false
  }

  predicate NumCompare(actual: int, c: Condition) {
    CompareInt(actual, c.operator, c.Number(), c.NumberEnd())
  }

  predicate CompareInt(actual: int, op: ConditionOperator, n: int, end: int) {
    match op
    case Eq => actual == n
    case Gt => actual > n
    case Gte => actual >= n
    case Lt => actual < n
    case Lte => actual <= n
    case Between => n <= actual <= end
  }

  predicate ValueStrEq(v: Json, target: string) {
    match v
    case JString(s) => s == target
    case JInt(i) => Decimal(i) == target
    case JFloat(_, shown) => shown == target
    case _ => false
  }

  predicate Owns(list: Json, id: string) {
    list.JArray? && exists i :: 0 <= i < |list.items| && ValueStrEq(list.items[i], id)
  }

  predicate IsGroup(entry: Json, gid: string) {
    var id := entry.Get("group_id");
    id.Some? && ValueStrEq(id.value, gid)
  }

  predicate IsMember(groups: Json, gid: string) {
    groups.JArray? && exists i :: 0 <= i < |groups.items| && IsGroup(groups.items[i], gid)
  }

  function EntryRank(entry: Json): Option<int> {
    match entry.Get("role_rank")
    case None => None
    case Some(r) => r.AsI64()
  }

  /** `find_map`: the first entry of the group that has a rank. */
  function FirstRank(entries: seq<Json>, gid: string): Option<int> {
    if entries == [] then None
    else if IsGroup(entries[0], gid) && EntryRank(entries[0]).Some? then EntryRank(entries[0])
    else FirstRank(entries[1..], gid)
  }

  function RankIn(groups: Json, gid: string): int {
    if groups.JArray? then FirstRank(groups.items, gid).GetOr(0) else 0
  }

  /** The universes a condition list refers to, each once or more, in order. */
  function ReferencedUniverses(cs: seq<Condition>): seq<string> {
    if cs == [] then []
    else (if cs[0].universeId.Some? then [cs[0].universeId.value] else []) + ReferencedUniverses(cs[1..])
  }

  function NamedUniverses(cs: seq<Condition>): set<string> {
    set u | u in ReferencedUniverses(cs)
  }

  lemma {:induction false} ReferencedUniversesPush(cs: seq<Condition>, c: Condition)
    ensures ReferencedUniverses(cs + [c]) ==
            ReferencedUniverses(cs) + if c.universeId.Some? then [c.universeId.value] else []
  {
    if cs != [] {
      ReferencedUniversesPush(cs[1..], c);
      assert (cs + [c])[1..] == cs[1..] + [c];
    }
  }

  lemma {:induction false} ReferencedUniversesMembership(cs: seq<Condition>)
    ensures forall u :: u in ReferencedUniverses(cs) <==>
                        exists i :: 0 <= i < |cs| && cs[i].universeId == Some(u)
  {
    if cs != [] {
      ReferencedUniversesMembership(cs[1..]);
      var tail := cs[1..];
      forall u ensures u in ReferencedUniverses(cs) <==> exists i :: 0 <= i < |cs| && cs[i].universeId == Some(u) {
        if i :| 0 <= i < |tail| && tail[i].universeId == Some(u) {
          assert cs[i + 1].universeId == Some(u);
        }
        if i :| 0 <= i < |cs| && cs[i].universeId == Some(u) {
          if i > 0 { assert tail[i - 1].universeId == Some(u); }
        }
      }
    }
  }

  /** Only the referenced universes' stats matter. */
  lemma EvaluationReadsReferencedUniverses(
      cs: seq<Condition>, uc: UserCacheRow, s: GameStats, t: GameStats, now: int)
    requires forall u | u in ReferencedUniverses(cs) ::
               (u in s <==> u in t) && (u in s ==> s[u] == t[u])
    ensures EvaluateConditions(cs, uc, s, now) == EvaluateConditions(cs, uc, t, now)
  {
    ReferencedUniversesMembership(cs);
    forall i | 0 <= i < |cs|
      ensures EvaluateSingle(cs[i], uc, s, now) == EvaluateSingle(cs[i], uc, t, now)
    {
      if cs[i].universeId.Some? {
        assert cs[i].universeId.value in ReferencedUniverses(cs);
      }
    }
  }
}
