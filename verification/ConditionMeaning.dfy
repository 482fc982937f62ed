/** What a condition accepts, in the numbers, texts and flags it states and the
    columns of the row: for the interpreter, for the generated SQL, and for a row
    as a refresh leaves it. */
module ConditionMeaning {
  import opened Wrappers
  import opened Text
  import opened Json
  import opened Conditions
  import opened ConditionEval
  import opened ConditionSql
  import opened ConditionAgreement

  // ------------------------------------------------------ what a condition states

  /** The integer a JSON value states; `otherwise` when it states none. */
  predicate States(v: Json, n: int, otherwise: int) {
    if v.JInt? && -9_223_372_036_854_775_808 <= v.i <= 9_223_372_036_854_775_807 then n == v.i else n == otherwise
  }

  /** The number compared with and the upper end: 0 if no number is stated, and the
      number itself if no end is. */
  predicate Bounds(c: Condition, n: int, end: int) {
    && States(c.value, n, 0)
    && match c.valueEnd
       case None => end == n
       case Some(v) => States(v, end, n)
  }

  /** The yes or no a condition asks for; yes if it states neither. */
  predicate Asks(c: Condition, flag: bool) {
    flag == (c.value != JBool(false))
  }

  /** The comparison in words: equal to, more than, at least, less than, at most,
      between. */
  predicate Fits(x: int, op: ConditionOperator, n: int, end: int) {
    && (op == Eq ==> x == n)
    && (op == Gt ==> x > n)
    && (op == Gte ==> x >= n)
    && (op == Lt ==> x < n)
    && (op == Lte ==> x <= n)
    && (op == Between ==> n <= x <= end)
  }

  lemma SingleDecision(c: Condition, uc: UserCacheRow, stats: GameStats, now: int)
    ensures EvaluateConditions([c], uc, stats, now) == EvaluateSingle(c, uc, stats, now)
  {
    assert [c][0] == c;
  }

  lemma SingleQuery(c: Condition, w: Where, binds: seq<Bind>, uc: UserCacheRow, now: int, pg: Rendering)
    requires !c.field.RequiresUniverse() && CompiledFrom([c], w, binds, false)
    ensures EvalWhere(w, binds, uc, now, pg) == True <==> SqlHolds(c, uc, now, pg)
  {
    CompiledMeaning([c], w, binds, uc, now, pg);
    assert [c][0] == c;
    assert AllNamed([c]) <==> !NamesNothing(c);
  }

  // ----------------------------------------------------------------------- counts

  /** The column a count condition is about. */
  function CountColumn(f: ConditionField, uc: UserCacheRow): int
    requires f in {FriendsCount, FollowersCount, FollowingCount, BadgesCount}
  {
    if f == FriendsCount then uc.friendsCount
    else if f == FollowersCount then uc.followersCount
    else if f == FollowingCount then uc.followingCount
    else uc.badgesCount
  }

  lemma CountsDecision(c: Condition, n: int, end: int, uc: UserCacheRow, stats: GameStats, now: int)
    requires c.field in {FriendsCount, FollowersCount, FollowingCount, BadgesCount} && Bounds(c, n, end)
    ensures EvaluateConditions([c], uc, stats, now) <==> Fits(CountColumn(c.field, uc), c.operator, n, end)
  {
    SingleDecision(c, uc, stats, now);
    NumbersFit(CountColumn(c.field, uc), c, n, end);
  }

  /** A count condition compares its column with the numbers stated, in both. */
  lemma CountsAccept(c: Condition, n: int, end: int, w: Where, binds: seq<Bind>, uc: UserCacheRow,
                     stats: GameStats, now: int, pg: Rendering)
    requires c.field in {FriendsCount, FollowersCount, FollowingCount, BadgesCount} && Bounds(c, n, end)
    requires CompiledFrom([c], w, binds, false)
    ensures EvaluateConditions([c], uc, stats, now) <==> Fits(CountColumn(c.field, uc), c.operator, n, end)
    ensures EvalWhere(w, binds, uc, now, pg) == True <==> Fits(CountColumn(c.field, uc), c.operator, n, end)
  {
    CountsDecision(c, n, end, uc, stats, now);
    SingleQuery(c, w, binds, uc, now, pg);
    CountAgreement(c, uc, now, pg);
    SingleDecision(c, uc, map[], now);
    CountsDecision(c, n, end, uc, map[], now);
  }

  /** `between lo and hi` on the friends accepts lo to hi, ends included. */
  lemma BetweenAccepts(c: Condition, lo: int, hi: int, w: Where, binds: seq<Bind>, uc: UserCacheRow,
                       stats: GameStats, now: int, pg: Rendering)
    requires c.field == FriendsCount && c.operator == Between
    requires c.value == JInt(lo) && c.valueEnd == Some(JInt(hi))
    requires -9_223_372_036_854_775_808 <= lo <= 9_223_372_036_854_775_807
    requires -9_223_372_036_854_775_808 <= hi <= 9_223_372_036_854_775_807
    requires CompiledFrom([c], w, binds, false)
    ensures EvaluateConditions([c], uc, stats, now) <==> lo <= uc.friendsCount <= hi
    ensures EvalWhere(w, binds, uc, now, pg) == True <==> lo <= uc.friendsCount <= hi
  {
    CountsAccept(c, lo, hi, w, binds, uc, stats, now, pg);
  }

  // -------------------------------------------------------------------------- age

  /** Whole days of 86,400 seconds in a span of microseconds, counted toward zero. */
  predicate WholeDays(span: int, days: int) {
    if span >= 0 then days * 86_400_000_000 <= span < (days + 1) * 86_400_000_000
    else (days - 1) * 86_400_000_000 < span <= days * 86_400_000_000
  }

  /** The interpreter compares whole days; an unknown creation time counts as day 0. */
  lemma AgeAcceptsWholeDays(c: Condition, n: int, end: int, days: int, uc: UserCacheRow, stats: GameStats, now: int)
    requires c.field == AccountAgeDays && Bounds(c, n, end)
    requires match uc.accountCreated
      case None => days == 0
      case Some(t) => WholeDays(now - t, days)
    ensures EvaluateConditions([c], uc, stats, now) <==> Fits(days, c.operator, n, end)
  {
    SingleDecision(c, uc, stats, now);
  }

  /** SQL compares the age as it is; an unknown creation time is never accepted. */
  lemma AgeAcceptsFraction(c: Condition, n: int, end: int, w: Where, binds: seq<Bind>, uc: UserCacheRow, now: int,
                           pg: Rendering)
    requires c.field == AccountAgeDays && Bounds(c, n, end)
    requires CompiledFrom([c], w, binds, false)
    ensures EvalWhere(w, binds, uc, now, pg) == True <==>
      uc.accountCreated.Some? &&
      Fits(now - uc.accountCreated.value, c.operator, n * 86_400_000_000, end * 86_400_000_000)
  {
    SingleQuery(c, w, binds, uc, now, pg);
    if uc.accountCreated.Some? {
      var d := now - uc.accountCreated.value;
      FractionAgainst(d, n);
      FractionAgainst(d, end);
    }
  }

  lemma FractionAgainst(d: int, n: int)
    ensures var x := d as real / DAY as real;
      && (x >= n as real <==> d >= n * 86_400_000_000)
      && (x > n as real <==> d > n * 86_400_000_000)
      && (x == n as real <==> d == n * 86_400_000_000)
  {
    AgeBounds(d, n);
  }

  // ------------------------------------------------------------ flags and lists

  /** The verified badge is compared with the flag asked for, in both. */
  lemma VerifiedAccepts(c: Condition, flag: bool, w: Where, binds: seq<Bind>, uc: UserCacheRow, stats: GameStats,
                        now: int, pg: Rendering)
    requires c.field == HasVerifiedBadge && Asks(c, flag) && CompiledFrom([c], w, binds, false)
    ensures EvaluateConditions([c], uc, stats, now) <==> uc.hasVerifiedBadge == flag
    ensures EvalWhere(w, binds, uc, now, pg) == True <==> uc.hasVerifiedBadge == flag
  {
    SingleDecision(c, uc, stats, now);
    SingleQuery(c, w, binds, uc, now, pg);
  }

  lemma ListHas(ids: seq<int>, id: string)
    ensures AllStrings(IdList(ids))
    ensures Owns(IdList(ids), id) <==> exists b :: b in ids && Decimal(b) == id
    ensures ContainsText(IdList(ids), id) <==> exists b :: b in ids && Decimal(b) == id
  {
    var items := IdList(ids).items;
    if b :| b in ids && Decimal(b) == id {
      var i :| 0 <= i < |ids| && ids[i] == b;
      assert items[i] == JString(id);
    }
    if ContainsText(IdList(ids), id) {
      var i :| 0 <= i < |items| && items[i] == JString(id);
      assert ids[i] in ids;
    }
    StringListOwnership(IdList(ids), id);
  }

  /** A badge condition asks for one of the cached badge ids, in both; one that
      names no badge accepts nobody. */
  lemma BadgeDecision(c: Condition, flag: bool, ids: seq<int>, uc: UserCacheRow, stats: GameStats, now: int)
    requires c.field == OwnsBadge && Asks(c, flag) && uc.badges == IdList(ids)
    ensures EvaluateConditions([c], uc, stats, now) <==>
      c.badgeId.Some? && (exists b :: b in ids && Decimal(b) == c.badgeId.value) == flag
  {
    SingleDecision(c, uc, stats, now);
    if c.badgeId.Some? { ListHas(ids, c.badgeId.value); }
  }

  lemma BadgeQuery(c: Condition, flag: bool, ids: seq<int>, w: Where, binds: seq<Bind>, uc: UserCacheRow, now: int,
                   pg: Rendering)
    requires c.field == OwnsBadge && Asks(c, flag) && uc.badges == IdList(ids)
    requires CompiledFrom([c], w, binds, false)
    ensures EvalWhere(w, binds, uc, now, pg) == True <==>
      c.badgeId.Some? && (exists b :: b in ids && Decimal(b) == c.badgeId.value) == flag
  {
    SingleQuery(c, w, binds, uc, now, pg);
    if c.badgeId.Some? {
      ListHas(ids, c.badgeId.value);
      HoldsMeaning(BadgeSet, c.badgeId.value, flag, uc, now, pg);
    }
  }

  /** Gamepass and asset conditions ask the cached gamepass ids: the interpreter for
      the id of that kind, SQL for the gamepass id or, without one, the asset id. */
  lemma GamepassDecision(c: Condition, flag: bool, ids: seq<int>, uc: UserCacheRow, stats: GameStats, now: int)
    requires c.field in {OwnsGamepass, OwnsAsset} && Asks(c, flag) && uc.gamepasses == IdList(ids)
    ensures var id := if c.field == OwnsGamepass then c.gamepassId else c.assetId;
      EvaluateConditions([c], uc, stats, now) <==>
      id.Some? && (exists b :: b in ids && Decimal(b) == id.value) == flag
  {
    SingleDecision(c, uc, stats, now);
    var id := if c.field == OwnsGamepass then c.gamepassId else c.assetId;
    if id.Some? {
      ListHas(ids, id.value);
      assert EvaluateSingle(c, uc, stats, now) <==> Owns(uc.gamepasses, id.value) == flag;
    }
  }

  lemma GamepassQuery(c: Condition, flag: bool, ids: seq<int>, w: Where, binds: seq<Bind>, uc: UserCacheRow,
                      now: int, pg: Rendering)
    requires c.field in {OwnsGamepass, OwnsAsset} && Asks(c, flag) && uc.gamepasses == IdList(ids)
    requires CompiledFrom([c], w, binds, false)
    ensures var id := if c.gamepassId.Some? then c.gamepassId else c.assetId;
      EvalWhere(w, binds, uc, now, pg) == True <==>
      id.Some? && (exists b :: b in ids && Decimal(b) == id.value) == flag
  {
    SingleQuery(c, w, binds, uc, now, pg);
    var id := if c.gamepassId.Some? then c.gamepassId else c.assetId;
    if id.Some? {
      GamepassClause(c, id.value, flag, uc, now, pg);
      ListHas(ids, id.value);
    }
  }

  lemma GamepassClause(c: Condition, id: string, flag: bool, uc: UserCacheRow, now: int, pg: Rendering)
    requires c.field in {OwnsGamepass, OwnsAsset} && Asks(c, flag)
    requires Some(id) == if c.gamepassId.Some? then c.gamepassId else c.assetId
    ensures SqlHolds(c, uc, now, pg) <==> ContainsText(uc.gamepasses, id) == flag
  {
    HoldsMeaning(GamepassSet, id, flag, uc, now, pg);
    assert Intended(c) == Expecting(flag, Holds(GamepassSet, SqlText.Quote(id)));
  }

  // ----------------------------------------------------------------------- groups

  /** The groups column as a refresh writes it. */
  function GroupList(groups: seq<GroupRole>): Json {
    JArray(seq(|groups|, i requires 0 <= i < |groups| => GroupJson(groups[i])))
  }

  predicate DistinctGroups(groups: seq<GroupRole>) {
    && (forall i, j | 0 <= i < j < |groups| :: groups[i].groupId != groups[j].groupId)
    && (forall i | 0 <= i < |groups| :: -0x8000_0000 <= groups[i].roleRank <= 0x7FFF_FFFF)
  }

  lemma GroupListEntries(groups: seq<GroupRole>, gid: string)
    requires DistinctGroups(groups)
    ensures GroupEntries(GroupList(groups).items)
    ensures IsMember(GroupList(groups), gid) <==> exists g :: g in groups && Decimal(g.groupId) == gid
  {
    var es := GroupList(groups).items;
    forall i | 0 <= i < |es|
      ensures GroupEntry(es[i]) && es[i].Get("group_id") == Some(JInt(groups[i].groupId))
      ensures IsGroup(es[i], gid) <==> Decimal(groups[i].groupId) == gid
    {
      assert es[i] == GroupJson(groups[i]);
    }
    if g :| g in groups && Decimal(g.groupId) == gid {
      var i :| 0 <= i < |groups| && groups[i] == g;
      assert IsGroup(GroupList(groups).items[i], gid);
    }
  }

  /** A membership condition asks for one of the cached group ids, in both; one that
      names no group accepts nobody. */
  lemma MembershipDecision(c: Condition, flag: bool, groups: seq<GroupRole>, uc: UserCacheRow, stats: GameStats,
                           now: int)
    requires c.field == InGroup && Asks(c, flag)
    requires DistinctGroups(groups) && uc.groups == GroupList(groups)
    ensures EvaluateConditions([c], uc, stats, now) <==>
      c.groupId.Some? && (exists g :: g in groups && Decimal(g.groupId) == c.groupId.value) == flag
  {
    SingleDecision(c, uc, stats, now);
    if c.groupId.Some? { GroupListEntries(groups, c.groupId.value); }
  }

  lemma MembershipQuery(c: Condition, flag: bool, groups: seq<GroupRole>, w: Where, binds: seq<Bind>,
                        uc: UserCacheRow, now: int, pg: Rendering)
    requires c.field == InGroup && Asks(c, flag) && CompiledFrom([c], w, binds, false)
    requires DistinctGroups(groups) && uc.groups == GroupList(groups)
    ensures EvalWhere(w, binds, uc, now, pg) == True <==>
      c.groupId.Some? && (exists g :: g in groups && Decimal(g.groupId) == c.groupId.value) == flag
  {
    SingleQuery(c, w, binds, uc, now, pg);
    if c.groupId.Some? {
      GroupListEntries(groups, c.groupId.value);
      MembershipClause(c, c.groupId.value, flag, uc, now, pg);
    }
  }

  lemma MembershipClause(c: Condition, gid: string, flag: bool, uc: UserCacheRow, now: int, pg: Rendering)
    requires c.field == InGroup && Asks(c, flag) && c.groupId == Some(gid)
    requires uc.groups.JArray? && GroupEntries(uc.groups.items)
    ensures SqlHolds(c, uc, now, pg) <==> IsMember(uc.groups, gid) == flag
  {
    QuotedTokenText(gid);
    MembershipAgrees(uc.groups.items, gid, pg);
    var named := GroupExists(SqlText.Quote(gid));
    assert EvalClause(named, uc, now, pg) == TruthOf(IsMember(uc.groups, gid));
    assert Intended(c) == Expecting(flag, named);
  }

  /** A rank condition compares the rank in the group named, in both. Without that
      group the interpreter compares 0 and SQL accepts nobody. */
  lemma RankDecision(c: Condition, n: int, end: int, groups: seq<GroupRole>, uc: UserCacheRow, stats: GameStats,
                     now: int)
    requires c.field == GroupRoleRank && Bounds(c, n, end)
    requires DistinctGroups(groups) && uc.groups == GroupList(groups)
    ensures c.groupId.None? ==> !EvaluateConditions([c], uc, stats, now)
    ensures forall g | g in groups && c.groupId == Some(Decimal(g.groupId)) ::
      EvaluateConditions([c], uc, stats, now) <==> Fits(g.roleRank, c.operator, n, end)
    ensures c.groupId.Some? && (forall g | g in groups :: Decimal(g.groupId) != c.groupId.value) ==>
      (EvaluateConditions([c], uc, stats, now) <==> Fits(0, c.operator, n, end))
  {
    SingleDecision(c, uc, stats, now);
    if c.groupId.Some? { RankInList(groups, c.groupId.value); }
  }

  lemma RankInList(groups: seq<GroupRole>, gid: string)
    requires DistinctGroups(groups)
    ensures forall g | g in groups && Decimal(g.groupId) == gid :: RankIn(GroupList(groups), gid) == g.roleRank
    ensures (forall g | g in groups :: Decimal(g.groupId) != gid) ==> RankIn(GroupList(groups), gid) == 0
  {
    GroupListEntries(groups, gid);
    forall g | g in groups && Decimal(g.groupId) == gid ensures RankIn(GroupList(groups), gid) == g.roleRank {
      var k :| 0 <= k < |groups| && groups[k] == g;
      RankAt(groups, k);
    }
    if !IsMember(GroupList(groups), gid) { NoRankWithoutMembership(GroupList(groups).items, gid); }
  }

  lemma RankAt(groups: seq<GroupRole>, k: nat)
    requires DistinctGroups(groups) && k < |groups|
    ensures RankIn(GroupList(groups), Decimal(groups[k].groupId)) == groups[k].roleRank
  {
    var gid := Decimal(groups[k].groupId);
    GroupListEntries(groups, gid);
    assert GroupList(groups).items[k] == GroupJson(groups[k]);
    FirstRankIsTheRank(GroupList(groups).items, gid, k);
  }

  lemma RankQuery(c: Condition, n: int, end: int, groups: seq<GroupRole>, w: Where, binds: seq<Bind>,
                  uc: UserCacheRow, now: int, pg: Rendering)
    requires c.field == GroupRoleRank && Bounds(c, n, end) && CompiledFrom([c], w, binds, false)
    requires DistinctGroups(groups) && uc.groups == GroupList(groups)
    ensures c.groupId.None? ==> EvalWhere(w, binds, uc, now, pg) != True
    ensures forall g | g in groups && c.groupId == Some(Decimal(g.groupId)) ::
      EvalWhere(w, binds, uc, now, pg) == True <==> Fits(g.roleRank, c.operator, n, end)
    ensures c.groupId.Some? && (forall g | g in groups :: Decimal(g.groupId) != c.groupId.value) ==>
      EvalWhere(w, binds, uc, now, pg) != True
  {
    SingleQuery(c, w, binds, uc, now, pg);
    if c.groupId.Some? {
      GroupListEntries(groups, c.groupId.value);
      RankClause(c, c.groupId.value, uc, now, pg);
      var holds := SqlHolds(c, uc, now, pg);
      forall g | g in groups && c.groupId == Some(Decimal(g.groupId))
        ensures holds <==> Fits(g.roleRank, c.operator, n, end)
      {
        RankInList(groups, c.groupId.value);
        NumbersFit(g.roleRank, c, n, end);
      }
    }
  }

  lemma NumbersFit(x: int, c: Condition, n: int, end: int)
    requires Bounds(c, n, end)
    ensures NumCompare(x, c) <==> Fits(x, c.operator, n, end)
  {
  }

  lemma RankClause(c: Condition, gid: string, uc: UserCacheRow, now: int, pg: Rendering)
    requires c.field == GroupRoleRank && c.groupId == Some(gid)
    requires uc.groups.JArray? && GroupEntries(uc.groups.items)
    ensures SqlHolds(c, uc, now, pg) <==> IsMember(uc.groups, gid) && NumCompare(RankIn(uc.groups, gid), c)
  {
    QuotedTokenText(gid);
    RankMeaning(uc.groups.items, c, gid, pg);
    assert Intended(c) == GroupRank(SqlText.Quote(gid), IntendedTest(c));
  }

  // ------------------------------------------------- the interpreter on any cache

  /** A cached value shows an id: as a text, or as a number written so. */
  predicate Shows(v: Json, id: string) {
    || v == JString(id)
    || (v.JInt? && Decimal(v.i) == id)
    || (v.JFloat? && v.shown == id)
  }

  predicate ListShows(list: Json, id: string) {
    list.JArray? && exists v :: v in list.items && Shows(v, id)
  }

  predicate NamesGroup(entry: Json, gid: string) {
    entry.JObject? && "group_id" in entry.members && Shows(entry.members["group_id"], gid)
  }

  lemma ShowsIsEqual(v: Json, id: string)
    ensures ValueStrEq(v, id) <==> Shows(v, id)
  {
  }

  lemma ShownIsOwned(list: Json, id: string)
    ensures Owns(list, id) <==> ListShows(list, id)
  {
    if Owns(list, id) {
      var i :| 0 <= i < |list.items| && ValueStrEq(list.items[i], id);
      ShowsIsEqual(list.items[i], id);
    }
    if ListShows(list, id) {
      var v :| v in list.items && Shows(v, id);
      var i :| 0 <= i < |list.items| && list.items[i] == v;
      ShowsIsEqual(list.items[i], id);
    }
  }

  /** Whatever is cached, ownership asks for a value that shows the id; what is no
      list holds none. */
  lemma AnyListDecision(c: Condition, flag: bool, id: string, uc: UserCacheRow, stats: GameStats, now: int)
    requires Asks(c, flag)
    ensures c.field == OwnsBadge && c.badgeId == Some(id) ==>
      (EvaluateConditions([c], uc, stats, now) <==> ListShows(uc.badges, id) == flag)
    ensures c.field == OwnsGamepass && c.gamepassId == Some(id) ==>
      (EvaluateConditions([c], uc, stats, now) <==> ListShows(uc.gamepasses, id) == flag)
    ensures c.field == OwnsAsset && c.assetId == Some(id) ==>
      (EvaluateConditions([c], uc, stats, now) <==> ListShows(uc.gamepasses, id) == flag)
  {
    SingleDecision(c, uc, stats, now);
    ShownIsOwned(uc.badges, id);
    ShownIsOwned(uc.gamepasses, id);
  }

  /** And membership for an entry that names the group. */
  lemma AnyMembershipDecision(c: Condition, flag: bool, gid: string, uc: UserCacheRow, stats: GameStats, now: int)
    requires c.field == InGroup && c.groupId == Some(gid) && Asks(c, flag)
    ensures EvaluateConditions([c], uc, stats, now) <==>
      (uc.groups.JArray? && exists e :: e in uc.groups.items && NamesGroup(e, gid)) == flag
  {
    SingleDecision(c, uc, stats, now);
    if IsMember(uc.groups, gid) {
      var i :| 0 <= i < |uc.groups.items| && IsGroup(uc.groups.items[i], gid);
      assert NamesGroup(uc.groups.items[i], gid);
    }
    if uc.groups.JArray? {
      if e :| e in uc.groups.items && NamesGroup(e, gid) {
        var i :| 0 <= i < |uc.groups.items| && uc.groups.items[i] == e;
        assert IsGroup(uc.groups.items[i], gid);
      }
    }
  }

  /** The rank counted: that of the first entry which names the group and has an
      integer rank of 64 bits, or 0. */
  ghost predicate RankCounted(groups: Json, gid: string, rank: int) {
    || (exists k :: groups.JArray? && 0 <= k < |groups.items|
                    && HasRank(groups.items[k], gid, rank)
                    && forall j, r | 0 <= j < k :: !HasRank(groups.items[j], gid, r))
    || (rank == 0 && (!groups.JArray? || forall e, r | e in groups.items :: !HasRank(e, gid, r)))
  }

  predicate HasRank(entry: Json, gid: string, rank: int) {
    && NamesGroup(entry, gid) && "role_rank" in entry.members && entry.members["role_rank"] == JInt(rank)
    && -9_223_372_036_854_775_808 <= rank <= 9_223_372_036_854_775_807
  }

  lemma {:induction false} FirstRankCounts(es: seq<Json>, gid: string, rank: int)
    requires RankCounted(JArray(es), gid, rank)
    ensures FirstRank(es, gid).GetOr(0) == rank
  {
    if es != [] {
      var e := es[0];
      ShowsIsEqual(e.Get("group_id").GetOr(JNull), gid);
      if IsGroup(e, gid) && EntryRank(e).Some? {
        assert HasRank(JArray(es).items[0], gid, EntryRank(e).value);
        assert e in es;
      } else {
        assert forall r :: !HasRank(e, gid, r);
        var rest := JArray(es[1..]);
        if k :| 0 <= k < |es| && HasRank(es[k], gid, rank) && forall j, r | 0 <= j < k :: !HasRank(es[j], gid, r) {
          assert k > 0 && rest.items[k - 1] == es[k];
          assert forall j, r | 0 <= j < k - 1 :: !HasRank(rest.items[j], gid, r) by {
            forall j, r | 0 <= j < k - 1 ensures !HasRank(rest.items[j], gid, r) { assert rest.items[j] == es[j + 1]; }
          }
        }
        FirstRankCounts(es[1..], gid, rank);
      }
    }
  }

  /** Whatever is cached, that rank is compared. */
  lemma AnyRankDecision(c: Condition, n: int, end: int, gid: string, rank: int, uc: UserCacheRow, stats: GameStats,
                        now: int)
    requires c.field == GroupRoleRank && c.groupId == Some(gid) && Bounds(c, n, end)
    requires RankCounted(uc.groups, gid, rank)
    ensures EvaluateConditions([c], uc, stats, now) <==> Fits(rank, c.operator, n, end)
  {
    SingleDecision(c, uc, stats, now);
    if uc.groups.JArray? {
      assert uc.groups == JArray(uc.groups.items);
      FirstRankCounts(uc.groups.items, gid, rank);
    }
    NumbersFit(rank, c, n, end);
  }

  // --------------------------------------------------------- SQL on any cached list

  /** The text `->>` gives for a value. */
  predicate TextShown(v: Json, text: string, pg: Rendering) {
    match v
    case JNull => false
    case JString(s) => s == text
    case JInt(i) => Decimal(i) == text
    case JBool(b) => (b && text == "true") || (!b && text == "false")
    case _ => pg.text(v) == text
  }

  predicate ShowsGroup(entry: Json, gid: string, pg: Rendering) {
    entry.JObject? && "group_id" in entry.members && TextShown(entry.members["group_id"], gid, pg)
  }

  lemma GroupShown(entry: Json, gid: string, pg: Rendering)
    ensures EntryNamed(entry, gid, pg) <==> ShowsGroup(entry, gid, pg)
  {
  }

  /** Whatever list is cached, SQL asks for an entry whose `group_id` reads as the id. */
  lemma AnyMembershipQuery(c: Condition, flag: bool, gid: string, w: Where, binds: seq<Bind>, uc: UserCacheRow,
                           now: int, pg: Rendering)
    requires c.field == InGroup && c.groupId == Some(gid) && Asks(c, flag) && CompiledFrom([c], w, binds, false)
    requires uc.groups.JArray?
    ensures EvalWhere(w, binds, uc, now, pg) == True <==>
      (exists e :: e in uc.groups.items && ShowsGroup(e, gid, pg)) == flag
  {
    SingleQuery(c, w, binds, uc, now, pg);
    QuotedTokenText(gid);
    var named := GroupExists(SqlText.Quote(gid));
    assert Intended(c) == Expecting(flag, named);
    forall e | e in uc.groups.items { GroupShown(e, gid, pg); }
    assert EvalClause(named, uc, now, pg) == TruthOf(exists e :: e in uc.groups.items && ShowsGroup(e, gid, pg));
  }

  /** Entries without a rank accept nobody and break no query. */
  lemma RanklessGroupsQuery(c: Condition, gid: string, w: Where, binds: seq<Bind>, uc: UserCacheRow, now: int,
                            pg: Rendering)
    requires c.field == GroupRoleRank && c.groupId == Some(gid) && CompiledFrom([c], w, binds, false)
    requires uc.groups.JArray?
    requires forall e | e in uc.groups.items && ShowsGroup(e, gid, pg) ::
               "role_rank" !in e.members || e.members["role_rank"] == JNull
    ensures EvalWhere(w, binds, uc, now, pg) == False
  {
    CompiledTruth([c], w, binds, uc, now, pg);
    QuotedTokenText(gid);
    forall e | e in uc.groups.items ensures EntryTruth(e, gid, IntendedTest(c), pg) !in {True, Error} {
      GroupShown(e, gid, pg);
    }
    assert [c][0] == c;
    assert IntendedTruths([c], uc, now, pg) == [EvalClause(Intended(c), uc, now, pg)];
    assert EvalClause(Intended(c), uc, now, pg) == False;
  }

  // ------------------------------------------------------------ game conditions

  /** What a universe's stats hold under a key; nothing counts as null. */
  function StatUnder(custom: Json, key: string): Json {
    if custom.JObject? && key in custom.members then custom.members[key] else JNull
  }

  /** The integer a stat counts as: an integer as it is, a fraction cut off toward
      zero, both kept within 64 bits, anything else 0. */
  predicate CountsAs(stat: Json, x: int) {
    match stat
    case JInt(i) =>
      (-9_223_372_036_854_775_808 <= i <= 9_223_372_036_854_775_807 ==> x == i)
      && (i > 9_223_372_036_854_775_807 ==> x == 9_223_372_036_854_775_807)
      && (i < -9_223_372_036_854_775_808 ==> x == -9_223_372_036_854_775_808)
    case JFloat(f, _) =>
      (if f >= 9_223_372_036_854_775_807.0 then x == 9_223_372_036_854_775_807
       else if f <= -9_223_372_036_854_775_808.0 then x == -9_223_372_036_854_775_808
       else if f >= 0.0 then x as real <= f < x as real + 1.0
       else x as real - 1.0 < f <= x as real)
    case _ => x == 0
  }

  /** Numbers: the stat is compared with the numbers stated. */
  lemma CustomNumericAccepts(c: Condition, n: int, end: int, x: int, uc: UserCacheRow, stats: GameStats, now: int)
    requires c.field == CustomNumeric && Bounds(c, n, end)
    requires c.universeId.Some? && c.universeId.value in stats && c.statKey.Some?
    requires CountsAs(StatUnder(stats[c.universeId.value], c.statKey.value), x)
    ensures EvaluateConditions([c], uc, stats, now) <==> Fits(x, c.operator, n, end)
  {
    SingleDecision(c, uc, stats, now);
    var stat := StatUnder(stats[c.universeId.value], c.statKey.value);
    if stat.JFloat? { TruncationMeaning(stat.f, x); }
    NumbersFit(x, c, n, end);
    assert AsI64OrTruncated(stat).GetOr(0) == x;
  }

  lemma TruncationMeaning(f: real, x: int)
    requires CountsAs(JFloat(f, ""), x)
    ensures AsI64OrTruncated(JFloat(f, "")) == Some(x)
  {
    if f >= 0.0 {
      assert f.Floor as real <= f < f.Floor as real + 1.0;
    } else {
      assert (-f).Floor as real <= -f < (-f).Floor as real + 1.0;
    }
  }

  /** Texts: equal or not; a stat or value that is no text counts as empty. */
  lemma CustomStringAccepts(c: Condition, uc: UserCacheRow, stats: GameStats, now: int)
    requires c.field == CustomString
    requires c.universeId.Some? && c.universeId.value in stats && c.statKey.Some?
    ensures var stat := StatUnder(stats[c.universeId.value], c.statKey.value);
      EvaluateConditions([c], uc, stats, now) <==>
      (if stat.JString? then stat.s else "") == (if c.value.JString? then c.value.s else "")
  {
    SingleDecision(c, uc, stats, now);
  }

  /** Flags: equal to what is asked; a stat that is no flag counts as false. */
  lemma CustomBooleanAccepts(c: Condition, flag: bool, uc: UserCacheRow, stats: GameStats, now: int)
    requires c.field == CustomBoolean && Asks(c, flag)
    requires c.universeId.Some? && c.universeId.value in stats && c.statKey.Some?
    ensures var stat := StatUnder(stats[c.universeId.value], c.statKey.value);
      EvaluateConditions([c], uc, stats, now) <==> (stat == JBool(true)) == flag
  {
    SingleDecision(c, uc, stats, now);
  }

  /** Without a universe, a key or a stats row nobody is accepted. */
  lemma GameConditionNeedsStats(c: Condition, uc: UserCacheRow, stats: GameStats, now: int)
    requires c.field in {CustomNumeric, CustomBoolean, CustomString}
    requires c.universeId.None? || c.universeId.value !in stats || c.statKey.None?
    ensures !EvaluateConditions([c], uc, stats, now)
  {
    SingleDecision(c, uc, stats, now);
  }

  /** A list accepts what each of its conditions accepts; an empty one nobody. */
  lemma ListAccepts(cs: seq<Condition>, uc: UserCacheRow, stats: GameStats, now: int)
    ensures EvaluateConditions(cs, uc, stats, now) <==>
            cs != [] && forall c | c in cs :: EvaluateConditions([c], uc, stats, now)
  {
    forall c | c in cs { SingleDecision(c, uc, stats, now); }
    if forall c | c in cs :: EvaluateConditions([c], uc, stats, now) {
      forall i | 0 <= i < |cs| ensures EvaluateSingle(cs[i], uc, stats, now) { assert cs[i] in cs; }
    }
  }

  // --------------------------------------------------------------- after a refresh

  predicate Int32(x: int) {
    -2_147_483_648 <= x <= 2_147_483_647
  }

  /** A refreshed row is decided on what the API returned: each count on its own
      count, the badge on its flag. */
  lemma RefreshedCountsDecide(prior: UserCacheRow, created: Option<int>, verified: bool, friends: int, followers: int,
                              following: int, badgesTotal: int, groups: seq<GroupRole>, badges: seq<int>,
                              gamepasses: seq<int>, c: Condition, n: int, end: int, flag: bool, stats: GameStats,
                              now: int)
    requires Int32(friends) && Int32(followers) && Int32(following) && Int32(badgesTotal)
    requires Bounds(c, n, end) && Asks(c, flag)
    ensures var uc := Refreshed(prior, created, verified, friends, followers, following, badgesTotal, groups, badges,
                                gamepasses);
      var holds := EvaluateConditions([c], uc, stats, now);
      && (c.field == FriendsCount ==> (holds <==> Fits(friends, c.operator, n, end)))
      && (c.field == FollowersCount ==> (holds <==> Fits(followers, c.operator, n, end)))
      && (c.field == FollowingCount ==> (holds <==> Fits(following, c.operator, n, end)))
      && (c.field == BadgesCount ==> (holds <==> Fits(badgesTotal, c.operator, n, end)))
      && (c.field == HasVerifiedBadge ==> (holds <==> verified == flag))
  {
    var uc := Refreshed(prior, created, verified, friends, followers, following, badgesTotal, groups, badges,
                        gamepasses);
    SingleDecision(c, uc, stats, now);
    assert uc.friendsCount == friends && uc.followersCount == followers;
    assert uc.followingCount == following && uc.badgesCount == badgesTotal;
  }

  /** Ownership and membership hold exactly for the ids returned, and the rank is the
      one returned for the group. */
  lemma RefreshedListsDecide(prior: UserCacheRow, created: Option<int>, verified: bool, friends: int, followers: int,
                             following: int, badgesTotal: int, groups: seq<GroupRole>, badges: seq<int>,
                             gamepasses: seq<int>, c: Condition, n: int, end: int, flag: bool, stats: GameStats,
                             now: int)
    requires Bounds(c, n, end) && Asks(c, flag) && DistinctGroups(groups)
    ensures var uc := Refreshed(prior, created, verified, friends, followers, following, badgesTotal, groups, badges,
                                gamepasses);
      var holds := EvaluateConditions([c], uc, stats, now);
      && (c.field == OwnsBadge ==>
            (holds <==> c.badgeId.Some? && (exists b :: b in badges && Decimal(b) == c.badgeId.value) == flag))
      && (c.field == OwnsGamepass ==>
            (holds <==>
               c.gamepassId.Some? && (exists b :: b in gamepasses && Decimal(b) == c.gamepassId.value) == flag))
      && (c.field == OwnsAsset ==>
            (holds <==> c.assetId.Some? && (exists b :: b in gamepasses && Decimal(b) == c.assetId.value) == flag))
      && (c.field == InGroup ==>
            (holds <==> c.groupId.Some? && (exists g :: g in groups && Decimal(g.groupId) == c.groupId.value) == flag))
      && (c.field == GroupRoleRank ==> forall g | g in groups && c.groupId == Some(Decimal(g.groupId)) ::
            holds <==> Fits(g.roleRank, c.operator, n, end))
  {
    var uc := Refreshed(prior, created, verified, friends, followers, following, badgesTotal, groups, badges,
                        gamepasses);
    assert uc.groups == GroupList(groups) && uc.badges == IdList(badges) && uc.gamepasses == IdList(gamepasses);
    match c.field {
      case OwnsBadge => BadgeDecision(c, flag, badges, uc, stats, now);
      case OwnsGamepass => GamepassDecision(c, flag, gamepasses, uc, stats, now);
      case OwnsAsset => GamepassDecision(c, flag, gamepasses, uc, stats, now);
      case InGroup => MembershipDecision(c, flag, groups, uc, stats, now);
      case GroupRoleRank => RankDecision(c, n, end, groups, uc, stats, now);
      case _ =>
    }
  }

  /** The age is decided on the creation time returned or, without one, on the time
      cached before. */
  lemma RefreshedAgeDecides(prior: UserCacheRow, created: Option<int>, verified: bool, friends: int, followers: int,
                            following: int, badgesTotal: int, groups: seq<GroupRole>, badges: seq<int>,
                            gamepasses: seq<int>, c: Condition, n: int, end: int, days: int, stats: GameStats, now: int)
    requires c.field == AccountAgeDays && Bounds(c, n, end)
    requires match (created, prior.accountCreated)
      case (Some(t), _) => WholeDays(now - t, days)
      case (None, Some(t)) => WholeDays(now - t, days)
      case (None, None) => days == 0
    ensures var uc := Refreshed(prior, created, verified, friends, followers, following, badgesTotal, groups, badges,
                                gamepasses);
      EvaluateConditions([c], uc, stats, now) <==> Fits(days, c.operator, n, end)
  {
    AgeAcceptsWholeDays(c, n, end, days, Refreshed(prior, created, verified, friends, followers, following,
                                                   badgesTotal, groups, badges, gamepasses), stats, now);
  }

  /** A count too large for the column wraps around 32 bits. */
  lemma CountsWrap(x: int)
    ensures -2_147_483_648 <= WrapI32(x) <= 2_147_483_647
    ensures (WrapI32(x) - x) % 4_294_967_296 == 0
  {
  }
}
