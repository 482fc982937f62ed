/** Bulk syncs ask SQL, per-player syncs ask the interpreter. This module says
    exactly when the two give the same answer. */
module ConditionAgreement {
  import opened Wrappers
  import opened Text
  import opened Json
  import opened Conditions
  import opened ConditionEval
  import opened SqlText
  import opened ConditionSql

  // ------------------------------------------------- rows the cache can hold

  predicate AllStrings(list: Json) {
    list.JArray? && forall i | 0 <= i < |list.items| :: list.items[i].JString?
  }

  predicate GroupEntry(e: Json) {
    && e.Get("group_id").Some? && e.Get("group_id").value.JInt?
    && e.Get("role_rank").Some? && e.Get("role_rank").value.JInt?
    && -0x8000_0000 <= e.Get("role_rank").value.i <= 0x7FFF_FFFF
  }

  predicate GroupEntries(es: seq<Json>) {
    && (forall i | 0 <= i < |es| :: GroupEntry(es[i]))
    && (forall i, j | 0 <= i < j < |es| :: es[i].Get("group_id") != es[j].Get("group_id"))
  }

  /** What a refresh stores: id lists as text, groups with distinct integer ids. */
  predicate CacheShape(uc: UserCacheRow) {
    && AllStrings(uc.badges)
    && AllStrings(uc.gamepasses)
    && uc.groups.JArray?
    && GroupEntries(uc.groups.items)
  }

  datatype GroupRole = GroupRole(groupId: int, roleRank: int, roleName: string)

  function GroupJson(g: GroupRole): Json {
    JObject(map["group_id" := JInt(g.groupId), "role_rank" := JInt(g.roleRank), "role_name" := JString(g.roleName)])
  }

  function IdList(ids: seq<int>): Json {
    JArray(seq(|ids|, i requires 0 <= i < |ids| => JString(Decimal(ids[i]))))
  }

  /** `as i32`. */
  function WrapI32(i: int): int {
    (i + 0x8000_0000) % 0x1_0000_0000 - 0x8000_0000
  }

  /** The columns a successful `refresh_user` writes over a cached row. */
  function Refreshed(prior: UserCacheRow, created: Option<int>, verified: bool, friends: int, followers: int,
                     following: int, badgesTotal: int, groups: seq<GroupRole>, badges: seq<int>,
                     gamepasses: seq<int>): UserCacheRow {
    UserCacheRow(
      prior.robloxUserId, if created.Some? then created else prior.accountCreated, verified,
      WrapI32(friends), WrapI32(followers), WrapI32(following), WrapI32(badgesTotal),
      JArray(seq(|groups|, i requires 0 <= i < |groups| => GroupJson(groups[i]))),
      IdList(badges), IdList(gamepasses))
  }

  /** A refresh establishes the shape, whatever was cached before, exactly when
      the groups API lists no group twice. */
  lemma RefreshEstablishesShape(prior: UserCacheRow, created: Option<int>, verified: bool, friends: int,
                                followers: int, following: int, badgesTotal: int, groups: seq<GroupRole>,
                                badges: seq<int>, gamepasses: seq<int>)
    requires forall i | 0 <= i < |groups| :: -0x8000_0000 <= groups[i].roleRank <= 0x7FFF_FFFF
    ensures CacheShape(Refreshed(prior, created, verified, friends, followers, following, badgesTotal,
                                 groups, badges, gamepasses))
       <==> forall i, j | 0 <= i < j < |groups| :: groups[i].groupId != groups[j].groupId
  {
    var es := seq(|groups|, i requires 0 <= i < |groups| => GroupJson(groups[i]));
    forall i | 0 <= i < |es| ensures GroupEntry(es[i]) && es[i].Get("group_id") == Some(JInt(groups[i].groupId)) {
      assert es[i] == GroupJson(groups[i]);
    }
    assert GroupEntries(es) <==> forall i, j | 0 <= i < j < |groups| :: groups[i].groupId != groups[j].groupId;
  }

  // ---------------------------------------------------------------- agreement

  /** The SQL answer for one condition. */
  predicate SqlHolds(c: Condition, uc: UserCacheRow, now: int, pg: Rendering)
    requires !c.field.RequiresUniverse()
  {
    !NamesNothing(c) && EvalClause(Intended(c), uc, now, pg) == True
  }

  predicate Agree(c: Condition, uc: UserCacheRow, now: int, pg: Rendering)
    requires !c.field.RequiresUniverse()
  {
    SqlHolds(c, uc, now, pg) <==> EvaluateSingle(c, uc, map[], now)
  }

  /** SQL compares the fractional age, the interpreter whole days: they part
      company on a fractional day next to the bound. */
  predicate AgeExact(d: int, op: ConditionOperator, n: int, end: int) {
    d % DAY == 0 ||
    if d >= 0 then
      match op
      case Gte => true
      case Lt => true
      case Between => n > end || NumDays(d) != end
      case _ => NumDays(d) != n
    else
      match op
      case Gt => true
      case Lte => true
      case Between => n > end || NumDays(d) != n
      case _ => NumDays(d) != n
  }

  /** The gamepass id SQL looks up against the one the interpreter looks up. */
  predicate SameOwnership(interpreted: Option<string>, compiled: Option<string>, c: Condition, uc: UserCacheRow) {
    match (interpreted, compiled)
    case (None, None) => true
    case (None, Some(b)) => ContainsText(uc.gamepasses, b) != c.Flag()
    case (Some(_), None) => true
    case (Some(a), Some(b)) => a == b || ContainsText(uc.gamepasses, a) == ContainsText(uc.gamepasses, b)
  }

  /** When the two readings of a condition agree on a row. */
  predicate Exact(c: Condition, uc: UserCacheRow, now: int)
    requires !c.field.RequiresUniverse()
  {
    match c.field
    case AccountAgeDays =>
      (match uc.accountCreated
       case None => !NumCompare(0, c)
       case Some(t) => AgeExact(now - t, c.operator, c.Number(), c.NumberEnd()))
    case OwnsGamepass => SameOwnership(c.gamepassId, OwnedId(c), c, uc)
    case OwnsAsset => SameOwnership(c.assetId, OwnedId(c), c, uc)
    case GroupRoleRank => c.groupId.None? || IsMember(uc.groups, c.groupId.value) || !NumCompare(0, c)
    case _ => true
  }

  // ------------------------------------------------------------ the row theorem

  lemma QuotedTokenText(id: string)
    ensures TokenText(Quote(id)) == Some(id)
  {
    QuotedTextLexesBack(id, "");
    assert Quote(id) + "" == Quote(id);
  }

  lemma NumericTest(x: int, c: Condition)
    ensures EvalTest(Some(x as real), IntendedTest(c)) == TruthOf(NumCompare(x, c))
  {
  }

  lemma StringListOwnership(list: Json, id: string)
    requires AllStrings(list)
    ensures Owns(list, id) == ContainsText(list, id)
  {
    if Owns(list, id) {
      var i :| 0 <= i < |list.items| && ValueStrEq(list.items[i], id);
      assert list.items[i] == JString(id);
    }
    if ContainsText(list, id) {
      var i :| 0 <= i < |list.items| && list.items[i] == JString(id);
      assert ValueStrEq(list.items[i], id);
    }
  }

  lemma EntryNameAgrees(e: Json, gid: string, pg: Rendering)
    requires GroupEntry(e)
    ensures EntryNamed(e, gid, pg) == IsGroup(e, gid)
  {
  }

  lemma MembershipAgrees(es: seq<Json>, gid: string, pg: Rendering)
    requires GroupEntries(es)
    ensures (exists e | e in es :: EntryNamed(e, gid, pg)) == IsMember(JArray(es), gid)
  {
    if e :| e in es && EntryNamed(e, gid, pg) {
      var i :| 0 <= i < |es| && es[i] == e;
      EntryNameAgrees(es[i], gid, pg);
      assert IsGroup(JArray(es).items[i], gid);
    }
    if IsMember(JArray(es), gid) {
      var i :| 0 <= i < |es| && IsGroup(es[i], gid);
      EntryNameAgrees(es[i], gid, pg);
    }
  }

  /** Distinct ids: the first rank found is the rank of the only such entry. */
  lemma {:induction false} FirstRankIsTheRank(es: seq<Json>, gid: string, k: nat)
    requires GroupEntries(es) && k < |es| && IsGroup(es[k], gid)
    ensures FirstRank(es, gid) == EntryRank(es[k]) == Some(es[k].Get("role_rank").value.i)
  {
    if k > 0 {
      if IsGroup(es[0], gid) {
        DecimalInjective(es[0].Get("group_id").value.i, es[k].Get("group_id").value.i);
      }
      FirstRankIsTheRank(es[1..], gid, k - 1);
    }
  }

  lemma {:induction false} NoRankWithoutMembership(es: seq<Json>, gid: string)
    requires !IsMember(JArray(es), gid)
    ensures FirstRank(es, gid) == None
  {
    if es != [] {
      assert !IsGroup(JArray(es).items[0], gid);
      forall i | 0 <= i < |es[1..]| ensures !IsGroup(es[1..][i], gid) {
        assert !IsGroup(JArray(es).items[i + 1], gid);
      }
      NoRankWithoutMembership(es[1..], gid);
    }
  }

  lemma EntryTruthMeaning(e: Json, c: Condition, gid: string, pg: Rendering)
    requires GroupEntry(e)
    ensures EntryTruth(e, gid, IntendedTest(c), pg) ==
            TruthOf(IsGroup(e, gid) && NumCompare(e.Get("role_rank").value.i, c))
  {
    var r := e.Get("role_rank").value.i;
    DecimalRoundTrip(r);
    NumericTest(r, c);
    EntryNameAgrees(e, gid, pg);
  }

  lemma RankMeaning(es: seq<Json>, c: Condition, gid: string, pg: Rendering)
    requires GroupEntries(es)
    ensures EvalRank(es, gid, IntendedTest(c), pg) ==
            TruthOf(IsMember(JArray(es), gid) && NumCompare(RankIn(JArray(es), gid), c))
  {
    var t := IntendedTest(c);
    forall e | e in es ensures EntryTruth(e, gid, t, pg) != Error {
      EntryTruthMeaning(e, c, gid, pg);
    }
    if IsMember(JArray(es), gid) {
      var k :| 0 <= k < |es| && IsGroup(es[k], gid);
      FirstRankIsTheRank(es, gid, k);
      EntryTruthMeaning(es[k], c, gid, pg);
      forall e | e in es && EntryTruth(e, gid, t, pg) == True
        ensures NumCompare(RankIn(JArray(es), gid), c)
      {
        var j :| 0 <= j < |es| && es[j] == e;
        EntryTruthMeaning(es[j], c, gid, pg);
        FirstRankIsTheRank(es, gid, j);
      }
    } else {
      forall e | e in es ensures EntryTruth(e, gid, t, pg) != True {
        EntryTruthMeaning(e, c, gid, pg);
        var j :| 0 <= j < |es| && es[j] == e;
        assert !IsGroup(JArray(es).items[j], gid);
      }
    }
  }

  /** Whole days against the fraction, for every operator and either sign. */
  lemma AgeMeaning(d: int, c: Condition)
    ensures (EvalTest(Some(d as real / DAY as real), IntendedTest(c)) == True) == NumCompare(NumDays(d), c)
       <==> AgeExact(d, c.operator, c.Number(), c.NumberEnd())
  {
    var t := NumDays(d);
    var n, end := c.Number(), c.NumberEnd();
    var x := d as real / DAY as real;
    AgeBounds(d, n);
    AgeBounds(d, end);
  }

  /** Comparing the fractional age with a whole number, in integers. */
  lemma AgeBounds(d: int, n: int)
    ensures (d as real / DAY as real >= n as real) == if d % DAY == 0 || d >= 0 then NumDays(d) >= n else NumDays(d) > n
    ensures (d as real / DAY as real > n as real) == if d % DAY == 0 || d < 0 then NumDays(d) > n else NumDays(d) >= n
  {
    assert (d as real / DAY as real >= n as real) == (d >= n * DAY);
    assert (d as real / DAY as real > n as real) == (d > n * DAY);
  }

  lemma HoldsMeaning(list: TextSet, id: string, flag: bool, uc: UserCacheRow, now: int, pg: Rendering)
    ensures EvalClause(Expecting(flag, Holds(list, Quote(id))), uc, now, pg) ==
            TruthOf(ContainsText(if list.BadgeSet? then uc.badges else uc.gamepasses, id) == flag)
  {
    QuotedTokenText(id);
    var holds := Holds(list, Quote(id));
    assert EvalClause(holds, uc, now, pg) ==
           TruthOf(ContainsText(if list.BadgeSet? then uc.badges else uc.gamepasses, id));
  }

  lemma GroupExistsMeaning(gid: string, flag: bool, uc: UserCacheRow, now: int, pg: Rendering)
    requires CacheShape(uc)
    ensures EvalClause(Expecting(flag, GroupExists(Quote(gid))), uc, now, pg)
         == TruthOf(IsMember(uc.groups, gid) == flag)
  {
    QuotedTokenText(gid);
    MembershipAgrees(uc.groups.items, gid, pg);
    var named := GroupExists(Quote(gid));
    assert EvalClause(named, uc, now, pg) == TruthOf(IsMember(uc.groups, gid));
  }

  lemma OwnershipAgreement(interpreted: Option<string>, c: Condition, uc: UserCacheRow, now: int, pg: Rendering)
    requires CacheShape(uc)
    requires OwnedId(c).Some?
    requires interpreted == c.gamepassId || interpreted == c.assetId
    ensures var sql := EvalClause(Expecting(c.Flag(), Holds(GamepassSet, Quote(OwnedId(c).value))), uc, now, pg);
      && sql != Error
      && ((sql == True) == (interpreted.Some? && Owns(uc.gamepasses, interpreted.value) == c.Flag())
          <==> SameOwnership(interpreted, OwnedId(c), c, uc))
  {
    HoldsMeaning(GamepassSet, OwnedId(c).value, c.Flag(), uc, now, pg);
    if interpreted.Some? { StringListOwnership(uc.gamepasses, interpreted.value); }
  }

  lemma AgeAgreement(c: Condition, uc: UserCacheRow, now: int, pg: Rendering)
    requires c.field == AccountAgeDays
    ensures Agree(c, uc, now, pg) <==> Exact(c, uc, now)
    ensures EvalClause(Intended(c), uc, now, pg) != Error
  {
    var sql := EvalTest(OperandValue(AgeDays, uc, now), IntendedTest(c));
    assert EvalClause(Intended(c), uc, now, pg) == sql;
    if uc.accountCreated.Some? { AgeMeaning(now - uc.accountCreated.value, c); }
  }

  /** The fields whose clause is about a count or flag of the row. */
  lemma CountAgreement(c: Condition, uc: UserCacheRow, now: int, pg: Rendering)
    requires c.field in {HasVerifiedBadge, FriendsCount, FollowersCount, FollowingCount, BadgesCount}
    ensures Agree(c, uc, now, pg) <==> Exact(c, uc, now)
    ensures EvalClause(Intended(c), uc, now, pg) != Error
  {
    match c.field {
      case HasVerifiedBadge =>
      case FriendsCount => NumericTest(uc.friendsCount, c);
      case FollowersCount => NumericTest(uc.followersCount, c);
      case FollowingCount => NumericTest(uc.followingCount, c);
      case BadgesCount => NumericTest(uc.badgesCount, c);
    }
  }

  /** The fields whose clause is about a list of the row. */
  lemma ListAgreement(c: Condition, uc: UserCacheRow, now: int, pg: Rendering)
    requires c.field in {OwnsBadge, OwnsGamepass, OwnsAsset, InGroup, GroupRoleRank}
    requires CacheShape(uc) && !NamesNothing(c)
    ensures Agree(c, uc, now, pg) <==> Exact(c, uc, now)
    ensures EvalClause(Intended(c), uc, now, pg) != Error
  {
    match c.field {
      case OwnsBadge =>
        HoldsMeaning(BadgeSet, c.badgeId.value, c.Flag(), uc, now, pg);
        StringListOwnership(uc.badges, c.badgeId.value);
      case OwnsGamepass =>
        OwnershipAgreement(c.gamepassId, c, uc, now, pg);
      case OwnsAsset =>
        OwnershipAgreement(c.assetId, c, uc, now, pg);
      case InGroup =>
        GroupExistsMeaning(c.groupId.value, c.Flag(), uc, now, pg);
      case GroupRoleRank =>
        QuotedTokenText(c.groupId.value);
        RankMeaning(uc.groups.items, c, c.groupId.value, pg);
        if !IsMember(uc.groups, c.groupId.value) {
          NoRankWithoutMembership(uc.groups.items, c.groupId.value);
        }
    }
  }

  /** For every row of the cache's shape, the two answers are equal exactly
      when `Exact` says so. */
  lemma RowAgreement(c: Condition, uc: UserCacheRow, now: int, pg: Rendering)
    requires !c.field.RequiresUniverse()
    requires CacheShape(uc)
    ensures Agree(c, uc, now, pg) <==> Exact(c, uc, now)
    ensures !NamesNothing(c) ==> EvalClause(Intended(c), uc, now, pg) != Error
  {
    if c.field == AccountAgeDays {
      AgeAgreement(c, uc, now, pg);
    } else if c.field in {HasVerifiedBadge, FriendsCount, FollowersCount, FollowingCount, BadgesCount} {
      CountAgreement(c, uc, now, pg);
    } else if !NamesNothing(c) {
      ListAgreement(c, uc, now, pg);
    }
  }

  // ----------------------------------------------------------- the list theorem

  lemma {:induction false} IntendedAt(cs: seq<Condition>)
    requires AllNamed(cs) && !AnyCustom(cs)
    ensures |IntendedClauses(cs)| == |cs|
    ensures forall i | 0 <= i < |cs| :: !cs[i].field.RequiresUniverse() && IntendedClauses(cs)[i] == Intended(cs[i])
  {
    if cs != [] {
      var front := cs[..|cs| - 1];
      forall i | 0 <= i < |front| ensures !front[i].field.RequiresUniverse() {
        assert !cs[i].field.RequiresUniverse();
      }
      IntendedAt(front);
      assert !cs[|cs| - 1].field.RequiresUniverse();
    }
  }

  lemma ConjunctionTrue(ts: seq<Truth>)
    ensures Conjunction(ts) == True <==> forall i | 0 <= i < |ts| :: ts[i] == True
  {
  }

  /** The conjunction of the intended clauses. */
  function IntendedTruth(cs: seq<Condition>, uc: UserCacheRow, now: int, pg: Rendering): Truth {
    if cs == [] || !AllNamed(cs) || AnyCustom(cs) then False
    else Conjunction(IntendedTruths(cs, uc, now, pg))
  }

  function IntendedTruths(cs: seq<Condition>, uc: UserCacheRow, now: int, pg: Rendering): seq<Truth>
    requires AllNamed(cs) && !AnyCustom(cs)
  {
    seq(|cs|, i requires 0 <= i < |cs| =>
      assert !cs[i].field.RequiresUniverse(); EvalClause(Intended(cs[i]), uc, now, pg))
  }

  /** On rows of the cache's shape no condition raises an error. */
  lemma ShapedRowsRaiseNoError(cs: seq<Condition>, uc: UserCacheRow, now: int, pg: Rendering)
    requires CacheShape(uc)
    ensures IntendedTruth(cs, uc, now, pg) != Error
  {
    if cs != [] && AllNamed(cs) && !AnyCustom(cs) {
      forall i | 0 <= i < |cs| ensures IntendedTruths(cs, uc, now, pg)[i] != Error {
        assert !cs[i].field.RequiresUniverse();
        RowAgreement(cs[i], uc, now, pg);
      }
    }
  }

  /** What the generated clause says of a row: the conjunction of the intended
      clauses, whatever numbering and quoting went in between. */
  lemma CompiledTruth(cs: seq<Condition>, w: Where, binds: seq<Bind>, uc: UserCacheRow, now: int, pg: Rendering)
    requires CompiledFrom(cs, w, binds, false)
    ensures EvalWhere(w, binds, uc, now, pg) == IntendedTruth(cs, uc, now, pg)
  {
    if cs != [] && AllNamed(cs) {
      IntendedAt(cs);
      assert w.All?;
      var ts := seq(|w.clauses|, i requires 0 <= i < |w.clauses| =>
        match BindClause(w.clauses[i], binds)
        case None => Error
        case Some(c) => EvalClause(c, uc, now, pg));
      forall i | 0 <= i < |cs| ensures ts[i] == IntendedTruths(cs, uc, now, pg)[i] {
        assert BindClause(w.clauses[i], binds) == Some(Intended(cs[i]));
      }
      assert ts == IntendedTruths(cs, uc, now, pg);
    }
  }

  /** So it is true of a row exactly when every condition's SQL answer is. */
  lemma CompiledMeaning(cs: seq<Condition>, w: Where, binds: seq<Bind>, uc: UserCacheRow, now: int, pg: Rendering)
    requires CompiledFrom(cs, w, binds, false)
    ensures cs != [] && AllNamed(cs) ==> !AnyCustom(cs)
    ensures EvalWhere(w, binds, uc, now, pg) == True <==>
              cs != [] && AllNamed(cs) &&
              forall i | 0 <= i < |cs| :: !cs[i].field.RequiresUniverse() && SqlHolds(cs[i], uc, now, pg)
  {
    CompiledTruth(cs, w, binds, uc, now, pg);
    if cs != [] && AllNamed(cs) {
      var ts := IntendedTruths(cs, uc, now, pg);
      ConjunctionTrue(ts);
      forall i | 0 <= i < |cs|
        ensures !cs[i].field.RequiresUniverse() && (ts[i] == True) == SqlHolds(cs[i], uc, now, pg)
      {
        assert !cs[i].field.RequiresUniverse();
      }
    }
  }

  /** Every list compiled without `needs_eval`: the WHERE clause is true of a row
      exactly when the interpreter accepts it. */
  lemma CompilerPreservesMeaning(cs: seq<Condition>, w: Where, binds: seq<Bind>, uc: UserCacheRow,
                                 stats: GameStats, now: int, pg: Rendering)
    requires CompiledFrom(cs, w, binds, false)
    requires CacheShape(uc)
    requires AllNamed(cs) ==> forall i | 0 <= i < |cs| && !cs[i].field.RequiresUniverse() :: Exact(cs[i], uc, now)
    ensures EvalWhere(w, binds, uc, now, pg) == True <==> EvaluateConditions(cs, uc, stats, now)
  {
    CompiledMeaning(cs, w, binds, uc, now, pg);
    if cs != [] {
      if AllNamed(cs) {
        forall i | 0 <= i < |cs|
          ensures !cs[i].field.RequiresUniverse()
          ensures SqlHolds(cs[i], uc, now, pg) == EvaluateSingle(cs[i], uc, stats, now)
        {
          assert !cs[i].field.RequiresUniverse();
          RowAgreement(cs[i], uc, now, pg);
        }
      } else {
        var i :| 0 <= i < |cs| && NamesNothing(cs[i]);
        assert !EvaluateSingle(cs[i], uc, stats, now);
      }
    }
  }

  /** The form stores one condition. For such a list agreement and `Exact` are
      the same thing. */
  lemma SingleConditionAgreement(c: Condition, w: Where, binds: seq<Bind>, uc: UserCacheRow,
                                 stats: GameStats, now: int, pg: Rendering)
    requires !c.field.RequiresUniverse()
    requires CompiledFrom([c], w, binds, false)
    requires CacheShape(uc)
    ensures (EvalWhere(w, binds, uc, now, pg) == True <==> EvaluateConditions([c], uc, stats, now))
       <==> Exact(c, uc, now)
  {
    CompiledMeaning([c], w, binds, uc, now, pg);
    RowAgreement(c, uc, now, pg);
    assert [c][0] == c;
    assert EvaluateConditions([c], uc, stats, now) == EvaluateSingle([c][0], uc, stats, now);
  }

  // ------------------------------------------------- safe configurations

  predicate NotFuture(uc: UserCacheRow, now: int) {
    uc.accountCreated.Some? ==> uc.accountCreated.value <= now
  }

  predicate SafeAge(op: ConditionOperator, n: int, end: int) {
    match op
    case Gte => n >= 1
    case Lt => n <= 0
    case Eq => n < 0
    case Lte => n < 0
    case Gt => false
    case Between => end < 0 || n > end
  }

  /** A check on the configuration alone. */
  predicate Safe(c: Condition)
    requires !c.field.RequiresUniverse()
  {
    match c.field
    case AccountAgeDays => SafeAge(c.operator, c.Number(), c.NumberEnd())
    case OwnsGamepass => c.gamepassId.Some? || c.assetId.None?
    case OwnsAsset => c.gamepassId.None? || c.gamepassId == c.assetId
    case GroupRoleRank => c.groupId.None? || !NumCompare(0, c)
    case _ => true
  }

  function PlainRow(created: Option<int>, gamepasses: seq<string>): UserCacheRow {
    UserCacheRow("1", created, false, 0, 0, 0, 0, JArray([]), JArray([]),
                 JArray(seq(|gamepasses|, i requires 0 <= i < |gamepasses| => JString(gamepasses[i]))))
  }

  /** A row and a clock on which an unsafe condition is answered two ways. */
  function Disagreement(c: Condition): (UserCacheRow, int) {
    match c.field
    case AccountAgeDays =>
      if NumCompare(0, c) then (PlainRow(None, []), 0)
      else if c.operator == Between then (PlainRow(Some(0), []), c.NumberEnd() * DAY + 1)
      else (PlainRow(Some(0), []), c.Number() * DAY + 1)
    case OwnsGamepass =>
      (PlainRow(None, if c.Flag() && c.assetId.Some? then [c.assetId.value] else []), 0)
    case OwnsAsset =>
      (PlainRow(None, if c.gamepassId.Some? && (c.assetId.Some? || c.Flag()) then [c.gamepassId.value] else []), 0)
    case _ => (PlainRow(None, []), 0)
  }

  lemma PlainRowShape(created: Option<int>, gamepasses: seq<string>)
    ensures CacheShape(PlainRow(created, gamepasses))
    ensures forall id :: ContainsText(PlainRow(created, gamepasses).gamepasses, id) <==> id in gamepasses
  {
    var items := PlainRow(created, gamepasses).gamepasses.items;
    forall id | id in gamepasses ensures JString(id) in items {
      var i :| 0 <= i < |gamepasses| && gamepasses[i] == id;
      assert items[i] == JString(id);
    }
  }

  lemma UnsafeConditionDisagrees(c: Condition, pg: Rendering)
    requires !c.field.RequiresUniverse() && !Safe(c)
    ensures var (uc, now) := Disagreement(c);
      CacheShape(uc) && NotFuture(uc, now) && !Agree(c, uc, now, pg)
  {
    var (uc, now) := Disagreement(c);
    match c.field {
      case AccountAgeDays =>
        PlainRowShape(uc.accountCreated, []);
      case OwnsGamepass =>
        PlainRowShape(None, if c.Flag() && c.assetId.Some? then [c.assetId.value] else []);
      case OwnsAsset =>
        PlainRowShape(None, if c.gamepassId.Some? && (c.assetId.Some? || c.Flag()) then [c.gamepassId.value] else []);
      case GroupRoleRank =>
        PlainRowShape(None, []);
      case _ => assert false;
    }
    RowAgreement(c, uc, now, pg);
  }

  /** A condition is answered the same way for every cached account, now and
      later, exactly when it passes `Safe`. Of the age comparisons that can ever
      hold, only `>=` with a positive bound does. */
  lemma SafeConfigurations(c: Condition, pg: Rendering)
    requires !c.field.RequiresUniverse()
    ensures Safe(c) <==>
            forall uc, now | CacheShape(uc) && NotFuture(uc, now) :: Agree(c, uc, now, pg)
  {
    if Safe(c) {
      forall uc, now | CacheShape(uc) && NotFuture(uc, now) ensures Agree(c, uc, now, pg) {
        RowAgreement(c, uc, now, pg);
      }
    } else {
      UnsafeConditionDisagrees(c, pg);
    }
  }

  // ------------------------------------- why the row has to have its shape

  /** Even a safe condition needs the shape. A numeric badge id counts for the
      interpreter and not for SQL. */
  lemma NumericBadgeIdsDisagree(id: int, now: int, pg: Rendering)
    ensures var c := Condition(OwnsBadge, Eq, JBool(true), None, None, None, Some(Decimal(id)), None, None, None);
      Safe(c) && !Agree(c, PlainRow(None, []).(badges := JArray([JInt(id)])), now, pg)
  {
    var row := PlainRow(None, []).(badges := JArray([JInt(id)]));
    assert ValueStrEq(row.badges.items[0], Decimal(id));
    HoldsMeaning(BadgeSet, Decimal(id), true, row, now, pg);
  }

  /** A group listed twice: the interpreter reads the first rank, SQL accepts any. */
  lemma RepeatedGroupsDisagree(c: Condition, gid: int, low: int, high: int, now: int, pg: Rendering)
    requires c.field == GroupRoleRank && c.groupId == Some(Decimal(gid))
    requires -0x8000_0000 <= low <= 0x7FFF_FFFF && -0x8000_0000 <= high <= 0x7FFF_FFFF
    requires !NumCompare(low, c) && NumCompare(high, c)
    ensures !Agree(c, PlainRow(None, []).(groups :=
      JArray([GroupJson(GroupRole(gid, low, "")), GroupJson(GroupRole(gid, high, ""))])), now, pg)
  {
    var first, second := GroupJson(GroupRole(gid, low, "")), GroupJson(GroupRole(gid, high, ""));
    var es := [first, second];
    EntryTruthMeaning(first, c, Decimal(gid), pg);
    EntryTruthMeaning(second, c, Decimal(gid), pg);
    assert es[0] == first && es[1] == second;
    assert forall e | e in es :: e == first || e == second;
    assert EvalRank(es, Decimal(gid), IntendedTest(c), pg) == True;
    QuotedTokenText(Decimal(gid));
    assert FirstRank(es, Decimal(gid)) == Some(low);
  }
}
