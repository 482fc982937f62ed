/** The compiler that bulk syncs use: a condition list becomes a WHERE clause
    with numbered placeholders and the values bound to them. Clauses are trees;
    the text inside a quoted constant stays text and is lexed when evaluated. */
module ConditionSql {
  import opened Wrappers
  import opened Text
  import opened Json
  import opened Conditions
  import opened ConditionEval
  import opened SqlText

  // ------------------------------------------------------------------- syntax

  datatype Bind = IntBind(i: int) | BoolBind(b: bool)

  datatype Operand = Friends | Followers | Following | BadgeCount | AgeDays

  datatype Test<T> = Cmp(op: ConditionOperator, arg: T) | Range(lo: T, hi: T)

  datatype TextSet = BadgeSet | GamepassSet

  /** `T` is a placeholder number in generated SQL and a value once bound. */
  datatype Clause<T> =
    | Numeric(operand: Operand, test: Test<T>)
    | Verified(arg: T)
    | Holds(list: TextSet, token: string)
    | GroupExists(gid: string)
    | GroupRank(gid: string, test: Test<T>)
    | Not(inner: Clause<T>)

  datatype Where = Constant(b: bool) | All(clauses: seq<Clause<nat>>)

  // ---------------------------------------------------------------- semantics

  /** Three-valued logic, plus the error that aborts the whole query. PostgreSQL
      fixes no order of evaluation: `Error` is what no order avoids. */
  datatype Truth = True | False | Unknown | Error

  /** What is left to PostgreSQL and its version: the text of floats and nested
      values, and which integers it reads in texts other than plain decimals. */
  datatype Rendering = Rendering(text: Json -> string, otherInt: string -> Option<int>)

  function TruthOf(b: bool): Truth { if b then True else False }

  function Negate(t: Truth): Truth {
    match t
    case True => False
    case False => True
    case _ => t
  }

  function CompareReal(x: real, op: ConditionOperator, n: real): Truth {
    match op
    case Eq => TruthOf(x == n)
    case Gt => TruthOf(x > n)
    case Gte => TruthOf(x >= n)
    case Lt => TruthOf(x < n)
    case Lte => TruthOf(x <= n)
    case Between => Error
  }

  function EvalTest(x: Option<real>, t: Test<Bind>): Truth {
    match t
    case Cmp(op, n) =>
      if !n.IntBind? then Error
      else if x.None? then Unknown
      else CompareReal(x.value, op, n.i as real)
    case Range(lo, hi) =>
      if !lo.IntBind? || !hi.IntBind? then Error
      else if x.None? then Unknown
      else TruthOf(lo.i as real <= x.value <= hi.i as real)
  }

  function OperandValue(o: Operand, uc: UserCacheRow, now: int): Option<real> {
    match o
    case Friends => Some(uc.friendsCount as real)
    case Followers => Some(uc.followersCount as real)
    case Following => Some(uc.followingCount as real)
    case BadgeCount => Some(uc.badgesCount as real)
    case AgeDays =>
      match uc.accountCreated
      case None => None
      case Some(c) => Some((now - c) as real / DAY as real)
  }

  /** `list @> to_jsonb(ARRAY[id])`: an array that has the string as an element. */
  predicate ContainsText(list: Json, id: string) {
    list.JArray? && JString(id) in list.items
  }

  /** `entry->>'key'`. */
  function TextField(entry: Json, key: string, pg: Rendering): Option<string> {
    match entry.Get(key)
    case None => None
    case Some(v) =>
      match v
      case JNull => None
      case JString(s) => Some(s)
      case JInt(i) => Some(Decimal(i))
      case JBool(b) => Some(if b then "true" else "false")
      case _ => Some(pg.text(v))
  }

  /** `text::int`. None is the error of a failed cast. */
  function CastInt(t: Option<string>, pg: Rendering): Option<Option<int>> {
    match t
    case None => Some(None)
    case Some(s) =>
      match if ParseInt(s).Some? then ParseInt(s) else pg.otherInt(s)
      case None => None
      case Some(i) => if -0x8000_0000 <= i <= 0x7FFF_FFFF then Some(Some(i)) else None
  }

  predicate EntryNamed(entry: Json, gid: string, pg: Rendering) {
    TextField(entry, "group_id", pg) == Some(gid)
  }

  function EntryTruth(entry: Json, gid: string, t: Test<Bind>, pg: Rendering): Truth {
    if !EntryNamed(entry, gid, pg) then False
    else match CastInt(TextField(entry, "role_rank", pg), pg)
      case None => Error
      case Some(rank) => EvalTest(if rank.None? then None else Some(rank.value as real), t)
  }

  /** EXISTS over the entries: never unknown. */
  function EvalRank(entries: seq<Json>, gid: string, t: Test<Bind>, pg: Rendering): Truth {
    if exists e | e in entries :: EntryTruth(e, gid, t, pg) == True then True
    else if exists e | e in entries :: EntryTruth(e, gid, t, pg) == Error then Error
    else False
  }

  /** The text of a quoted constant that is one whole token. */
  function TokenText(token: string): Option<string> {
    match LexString(token)
    case None => None
    case Some(r) => if r.1 == "" then Some(r.0) else None
  }

  function EvalClause(c: Clause<Bind>, uc: UserCacheRow, now: int, pg: Rendering): Truth {
    match c
    case Numeric(o, t) => EvalTest(OperandValue(o, uc, now), t)
    case Verified(v) => if v.BoolBind? then TruthOf(uc.hasVerifiedBadge == v.b) else Error
    case Holds(list, token) =>
      (match TokenText(token)
       case None => Error
       case Some(id) => TruthOf(ContainsText(if list.BadgeSet? then uc.badges else uc.gamepasses, id)))
    case GroupExists(token) =>
      (match TokenText(token)
       case None => Error
       case Some(gid) =>
         if !uc.groups.JArray? then Error
         else TruthOf(exists e | e in uc.groups.items :: EntryNamed(e, gid, pg)))
    case GroupRank(token, t) =>
      (match TokenText(token)
       case None => Error
       case Some(gid) =>
         if !uc.groups.JArray? then Error else EvalRank(uc.groups.items, gid, t, pg))
    case Not(inner) => Negate(EvalClause(inner, uc, now, pg))
  }

  /** AND over the clauses of a WHERE: one that is not true rejects the row, and a
      failing one is reached for certain only if no other rejects it. */
  function Conjunction(ts: seq<Truth>): Truth {
    if False in ts then False
    else if Unknown in ts then Unknown
    else if Error in ts then Error
    else True
  }

  // ------------------------------------------------------------ binding values

  function BindTest(t: Test<nat>, binds: seq<Bind>): Option<Test<Bind>> {
    match t
    case Cmp(op, i) => if 1 <= i <= |binds| then Some(Cmp(op, binds[i - 1])) else None
    case Range(i, j) =>
      if 1 <= i <= |binds| && 1 <= j <= |binds| then Some(Range(binds[i - 1], binds[j - 1])) else None
  }

  function BindClause(c: Clause<nat>, binds: seq<Bind>): Option<Clause<Bind>> {
    match c
    case Numeric(o, t) =>
      (match BindTest(t, binds) case None => None case Some(b) => Some(Numeric(o, b)))
    case Verified(i) => if 1 <= i <= |binds| then Some(Verified(binds[i - 1])) else None
    case Holds(list, token) => Some(Holds(list, token))
    case GroupExists(token) => Some(GroupExists(token))
    case GroupRank(token, t) =>
      (match BindTest(t, binds) case None => None case Some(b) => Some(GroupRank(token, b)))
    case Not(inner) =>
      (match BindClause(inner, binds) case None => None case Some(b) => Some(Not(b)))
  }

  function EvalWhere(w: Where, binds: seq<Bind>, uc: UserCacheRow, now: int, pg: Rendering): Truth {
    match w
    case Constant(b) => TruthOf(b)
    case All(clauses) =>
      Conjunction(seq(|clauses|, i requires 0 <= i < |clauses| =>
        match BindClause(clauses[i], binds)
        case None => Error
        case Some(c) => EvalClause(c, uc, now, pg)))
  }

  // ------------------------------------------------- what a clause should mean

  /** Fields that name no object are compiled to FALSE for the whole list. */
  predicate NamesNothing(c: Condition) {
    match c.field
    case OwnsBadge => c.badgeId.None?
    case OwnsGamepass => c.gamepassId.None? && c.assetId.None?
    case OwnsAsset => c.gamepassId.None? && c.assetId.None?
    case InGroup => c.groupId.None?
    case GroupRoleRank => c.groupId.None?
    case _ => false
  }

  function IntendedTest(c: Condition): Test<Bind> {
    if c.operator == Between then Range(IntBind(c.Number()), IntBind(c.NumberEnd()))
    else Cmp(c.operator, IntBind(c.Number()))
  }

  function Expecting<T>(flag: bool, c: Clause<T>): Clause<T> {
    if flag then c else Not(c)
  }

  /** The gamepass id when there is one, else the asset id. */
  function OwnedId(c: Condition): Option<string> {
    if c.gamepassId.Some? then c.gamepassId else c.assetId
  }

  /** The clause a condition stands for, with its values in place. */
  function Intended(c: Condition): Clause<Bind>
    requires !c.field.RequiresUniverse() && !NamesNothing(c)
  {
    match c.field
    case AccountAgeDays => Numeric(AgeDays, IntendedTest(c))
    case HasVerifiedBadge => Verified(BoolBind(c.Flag()))
    case FriendsCount => Numeric(Friends, IntendedTest(c))
    case FollowersCount => Numeric(Followers, IntendedTest(c))
    case FollowingCount => Numeric(Following, IntendedTest(c))
    case BadgesCount => Numeric(BadgeCount, IntendedTest(c))
    case OwnsBadge => Expecting(c.Flag(), Holds(BadgeSet, Quote(c.badgeId.value)))
    case OwnsGamepass => Expecting(c.Flag(), Holds(GamepassSet, Quote(OwnedId(c).value)))
    case OwnsAsset => Expecting(c.Flag(), Holds(GamepassSet, Quote(OwnedId(c).value)))
    case InGroup => Expecting(c.Flag(), GroupExists(Quote(c.groupId.value)))
    case GroupRoleRank => GroupRank(Quote(c.groupId.value), IntendedTest(c))
  }

  predicate AllNamed(cs: seq<Condition>) {
    forall i | 0 <= i < |cs| :: !NamesNothing(cs[i])
  }

  predicate AnyCustom(cs: seq<Condition>) {
    exists i :: 0 <= i < |cs| && cs[i].field.RequiresUniverse()
  }

  /** The conditions that SQL can answer, as clauses, in order. */
  function IntendedClauses(cs: seq<Condition>): seq<Clause<Bind>>
    requires AllNamed(cs)
  {
    if cs == [] then []
    else
      var last := cs[|cs| - 1];
      IntendedClauses(cs[..|cs| - 1]) + if last.field.RequiresUniverse() then [] else [Intended(last)]
  }

  // ------------------------------------------------------------- placeholders

  function TestPlaceholders(t: Test<nat>): seq<nat> {
    match t
    case Cmp(_, i) => [i]
    case Range(i, j) => [i, j]
  }

  /** The placeholders of a clause, from left to right. */
  function ClausePlaceholders(c: Clause<nat>): seq<nat> {
    match c
    case Numeric(_, t) => TestPlaceholders(t)
    case Verified(i) => [i]
    case Holds(_, _) => []
    case GroupExists(_) => []
    case GroupRank(_, t) => TestPlaceholders(t)
    case Not(inner) => ClausePlaceholders(inner)
  }

  function Placeholders(cs: seq<Clause<nat>>): seq<nat> {
    if cs == [] then []
    else Placeholders(cs[..|cs| - 1]) + ClausePlaceholders(cs[|cs| - 1])
  }

  function UpFromOne(n: nat): seq<nat> {
    seq(n, i requires 0 <= i => i + 1)
  }

  /** The clauses number their placeholders $1, $2, ... without gap or repeat,
      use every bind, and with the binds in place say what was intended. */
  ghost predicate Faithful(clauses: seq<Clause<nat>>, binds: seq<Bind>, intended: seq<Clause<Bind>>) {
    && Placeholders(clauses) == UpFromOne(|binds|)
    && |clauses| == |intended|
    && forall i | 0 <= i < |clauses| :: BindClause(clauses[i], binds) == Some(intended[i])
  }

  ghost predicate CompiledFrom(cs: seq<Condition>, w: Where, binds: seq<Bind>, needsEval: bool) {
    if cs == [] || !AllNamed(cs) then w == Constant(false) && binds == [] && !needsEval
    else
      && (needsEval <==> AnyCustom(cs))
      && var clauses := if w.All? then w.clauses else [];
      && (w.Constant? ==> w.b)
      && (w.All? ==> clauses != [])
      && Faithful(clauses, binds, IntendedClauses(cs))
  }

  /** The query puts the member list after the binds: its placeholder is none of
      the clauses', and together they use each of $1 to $(n + 1) once. */
  lemma MembersComeNext(cs: seq<Condition>, w: Where, binds: seq<Bind>, needsEval: bool)
    requires CompiledFrom(cs, w, binds, needsEval) && w.All?
    ensures |binds| + 1 !in Placeholders(w.clauses)
    ensures multiset([|binds| + 1] + Placeholders(w.clauses)) == multiset(UpFromOne(|binds| + 1))
  {
    assert UpFromOne(|binds| + 1) == UpFromOne(|binds|) + [|binds| + 1];
  }

  // ------------------------------------------------------------- the compiler

  lemma BindsMayGrow(c: Clause<nat>, binds: seq<Bind>, more: seq<Bind>)
    requires BindClause(c, binds).Some?
    ensures BindClause(c, binds + more) == BindClause(c, binds)
  {
  }

  lemma PlaceholdersPush(clauses: seq<Clause<nat>>, c: Clause<nat>, m: nat, n: nat)
    requires Placeholders(clauses) == UpFromOne(m)
    requires ClausePlaceholders(c) == seq(n, i requires 0 <= i => m + i + 1)
    ensures Placeholders(clauses + [c]) == UpFromOne(m + n)
  {
    assert (clauses + [c])[..|clauses|] == clauses;
    assert UpFromOne(m + n) == UpFromOne(m) + ClausePlaceholders(c);
  }

  lemma FaithfulPush(clauses: seq<Clause<nat>>, binds: seq<Bind>, intended: seq<Clause<Bind>>,
                     c: Clause<nat>, more: seq<Bind>, meant: Clause<Bind>)
    requires Faithful(clauses, binds, intended)
    requires ClausePlaceholders(c) == seq(|more|, i requires 0 <= i => |binds| + i + 1)
    requires BindClause(c, binds + more) == Some(meant)
    ensures Faithful(clauses + [c], binds + more, intended + [meant])
  {
    PlaceholdersPush(clauses, c, |binds|, |more|);
    var cs, ms := clauses + [c], intended + [meant];
    forall i | 0 <= i < |cs| ensures BindClause(cs[i], binds + more) == Some(ms[i]) {
      if i < |clauses| { BindsMayGrow(clauses[i], binds, more); }
    }
  }

  /** `push_numeric_clause`, for a column or for the rank of a group: the test
      it writes and the binds after it. */
  method PushTest(binds: seq<Bind>, c: Condition) returns (t: Test<nat>, binds': seq<Bind>)
    ensures binds <= binds' && |binds'| == |binds| + |TestPlaceholders(t)|
    ensures TestPlaceholders(t) == seq(|binds'| - |binds|, i requires 0 <= i => |binds| + i + 1)
    ensures BindTest(t, binds') == Some(IntendedTest(c))
  {
    var val := c.value.AsI64().GetOr(0);
    if c.operator == Between {
      var end := val;
      if c.valueEnd.Some? && c.valueEnd.value.AsI64().Some? { end := c.valueEnd.value.AsI64().value; }
      var i1, i2 := |binds| + 1, |binds| + 2;
      t := Range(i1, i2);
      binds' := binds + [IntBind(val)];
      binds' := binds' + [IntBind(end)];
    } else {
      var i := |binds| + 1;
      t := Cmp(c.operator, i);
      binds' := binds + [IntBind(val)];
    }
  }

  /** The clause of one condition that names its object and is not a game stat. */
  method CompileOne(binds: seq<Bind>, c: Condition) returns (clause: Clause<nat>, binds': seq<Bind>)
    requires !c.field.RequiresUniverse() && !NamesNothing(c)
    ensures binds <= binds'
    ensures ClausePlaceholders(clause) == seq(|binds'| - |binds|, i requires 0 <= i => |binds| + i + 1)
    ensures BindClause(clause, binds') == Some(Intended(c))
  {
    binds' := binds;
    match c.field {
      case AccountAgeDays => var t; t, binds' := PushTest(binds, c); clause := Numeric(AgeDays, t);
      case FriendsCount => var t; t, binds' := PushTest(binds, c); clause := Numeric(Friends, t);
      case FollowersCount => var t; t, binds' := PushTest(binds, c); clause := Numeric(Followers, t);
      case FollowingCount => var t; t, binds' := PushTest(binds, c); clause := Numeric(Following, t);
      case BadgesCount => var t; t, binds' := PushTest(binds, c); clause := Numeric(BadgeCount, t);
      case HasVerifiedBadge =>
        clause := Verified(|binds| + 1);
        binds' := binds + [BoolBind(c.value.AsBool().GetOr(true))];
      case OwnsBadge =>
        var cl := Holds(BadgeSet, Quote(c.badgeId.value));
        clause := if c.value.AsBool().GetOr(true) then cl else Not(cl);
      case OwnsGamepass =>
        var id := if c.gamepassId.Some? then c.gamepassId.value else c.assetId.value;
        var cl := Holds(GamepassSet, Quote(id));
        clause := if c.value.AsBool().GetOr(true) then cl else Not(cl);
      case OwnsAsset =>
        var id := if c.gamepassId.Some? then c.gamepassId.value else c.assetId.value;
        var cl := Holds(GamepassSet, Quote(id));
        clause := if c.value.AsBool().GetOr(true) then cl else Not(cl);
      case InGroup =>
        var cl := GroupExists(Quote(c.groupId.value));
        clause := if c.value.AsBool().GetOr(true) then cl else Not(cl);
      case GroupRoleRank =>
        var t;
        t, binds' := PushTest(binds, c);
        clause := GroupRank(Quote(c.groupId.value), t);
    }
  }

  /** `build_condition_where`. The member list is bound after these binds, so its
      placeholder `$(|binds| + 1)` is a fresh one. */
  method BuildConditionWhere(conditions: seq<Condition>)
    returns (w: Where, binds: seq<Bind>, needsEval: bool)
    ensures CompiledFrom(conditions, w, binds, needsEval)
  {
    if conditions == [] {
      return Constant(false), [], false;
    }
    var clauses: seq<Clause<nat>> := [];
    binds := [];
    needsEval := false;
    for i := 0 to |conditions|
      invariant AllNamed(conditions[..i])
      invariant needsEval <==> AnyCustom(conditions[..i])
      invariant Faithful(clauses, binds, IntendedClauses(conditions[..i]))
    {
      var condition := conditions[i];
      ghost var done, next := conditions[..i], conditions[..i + 1];
      assert next == done + [condition] && next[..|next| - 1] == done;
      assert AnyCustom(next) <==> AnyCustom(done) || condition.field.RequiresUniverse() by {
        if AnyCustom(done) {
          var k :| 0 <= k < |done| && done[k].field.RequiresUniverse();
          assert next[k].field.RequiresUniverse();
        }
        assert next[i] == condition;
      }
      if NamesNothing(condition) {
        assert NamesNothing(conditions[i]);
        return Constant(false), [], false;
      }
      if condition.field.RequiresUniverse() {
        needsEval := true;
      } else {
        var clause, binds' := CompileOne(binds, condition);
        ghost var more := binds'[|binds|..];
        assert binds' == binds + more;
        FaithfulPush(clauses, binds, IntendedClauses(done), clause, more, Intended(condition));
        clauses, binds := clauses + [clause], binds';
      }
    }
    assert conditions[..|conditions|] == conditions;
    w := if clauses == [] then Constant(true) else All(clauses);
  }
}
