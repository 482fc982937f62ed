/** The configuration form: `parse_config` reads it, `build_config_schema` seeds
    it with the stored condition. */
module ConfigForm {
  import opened Wrappers
  import opened Text
  import opened Json
  import opened Conditions
  import opened ConditionEval
  import opened ConditionSql
  import opened ConditionAgreement

  // --------------------------------------------------------- game-stat options

  const SEP: string := "::"

  function EncodeGameStat(universe: string, key: string, ty: string): string {
    universe + SEP + key + SEP + ty
  }

  /** `splitn(3, "::")` with three non-empty parts. */
  function DecodeGameStat(value: string): Option<(string, string, string)> {
    match Find(value, SEP)
    case None => None
    case Some(i) =>
      var rest := value[i + 2..];
      match Find(rest, SEP)
      case None => None
      case Some(j) =>
        var (u, k, t) := (value[..i], rest[..j], rest[j + 2..]);
        if u == "" || k == "" || t == "" then None else Some((u, k, t))
  }

  /** No separator inside and none made by what follows. */
  ghost predicate Clean(s: string) {
    !Contains(s, SEP) && (s == "" || s[|s| - 1] != ':')
  }

  lemma SeparatorAt(s: string, i: nat)
    ensures OccursAt(s, SEP, i) <==> i + 2 <= |s| && s[i] == ':' && s[i + 1] == ':'
  {
    if i + 2 <= |s| {
      assert s[i..i + 2] == [s[i], s[i + 1]];
    }
  }

  lemma FirstSeparatorAfter(u: string, rest: string)
    ensures Find(u + SEP + rest, SEP) == Some(|u|) <==> Clean(u)
  {
    var s := u + SEP + rest;
    SeparatorAt(s, |u|);
    if Clean(u) {
      forall j: nat | j < |u| ensures !OccursAt(s, SEP, j) {
        SeparatorAt(s, j);
        SeparatorAt(u, j);
      }
      FindUnique(s, SEP, |u|);
    } else if Contains(u, SEP) {
      var j: nat :| OccursAt(u, SEP, j);
      SeparatorAt(u, j);
      SeparatorAt(s, j);
    } else {
      SeparatorAt(s, |u| - 1);
    }
  }

  lemma BeforeFirstSeparatorIsClean(s: string)
    requires Find(s, SEP).Some?
    ensures Clean(s[..Find(s, SEP).value])
    ensures s == s[..Find(s, SEP).value] + SEP + s[Find(s, SEP).value + 2..]
  {
    var i := Find(s, SEP).value;
    assert s == s[..i] + SEP + s[i + 2..];
    FirstSeparatorAfter(s[..i], s[i + 2..]);
  }

  /** Exactly which triples survive the encoding. */
  lemma GameStatRoundTrip(u: string, k: string, t: string)
    ensures DecodeGameStat(EncodeGameStat(u, k, t)) == Some((u, k, t)) <==>
            u != "" && k != "" && t != "" && Clean(u) && Clean(k)
  {
    var value := EncodeGameStat(u, k, t);
    assert value == u + SEP + (k + SEP + t);
    FirstSeparatorAfter(u, k + SEP + t);
    FirstSeparatorAfter(k, t);
    var rest := k + SEP + t;
    assert value[..|u|] == u && value[|u| + 2..] == rest;
    assert rest[..|k|] == k && rest[|k| + 2..] == t;
  }

  /** What was decoded once can always be encoded again. */
  lemma DecodedIsClean(value: string)
    requires DecodeGameStat(value).Some?
    ensures var (u, k, t) := DecodeGameStat(value).value;
      && Clean(u) && Clean(k) && u != "" && k != "" && t != ""
      && EncodeGameStat(u, k, t) == value
  {
    var i := Find(value, SEP).value;
    BeforeFirstSeparatorIsClean(value);
    BeforeFirstSeparatorIsClean(value[i + 2..]);
  }

  // ------------------------------------------------------------------- the keys

  datatype Key =
    | CategoryKey
    | FieldKey(c: ConditionCategory)
    | OperatorKey(c: ConditionCategory)
    | BoolKey(c: ConditionCategory)
    | NumKey(c: ConditionCategory)
    | EndKey(c: ConditionCategory)
    | TextKey(c: ConditionCategory)
    | GroupIdKey
    | UniverseIdKey
    | StatKeyKey
    | BadgeIdKey
    | GamepassIdKey
    | AssetIdKey
    | ViewPermissionKey
  {
    function Name(): string {
      match this
      case CategoryKey => "condition_category"
      case FieldKey(Account) => "condition_field_account"
      case FieldKey(Group) => "condition_field_group"
      case FieldKey(Game) => "condition_field_game"
      case OperatorKey(Account) => "operator_account"
      case OperatorKey(Group) => "operator_group"
      case OperatorKey(Game) => "operator_game"
      case BoolKey(Account) => "value_bool_account"
      case BoolKey(Group) => "value_bool_group"
      case BoolKey(Game) => "value_bool_game"
      case NumKey(Account) => "value_num_account"
      case NumKey(Group) => "value_num_group"
      case NumKey(Game) => "value_num_game"
      case EndKey(Account) => "value_end_account"
      case EndKey(Group) => "value_end_group"
      case EndKey(Game) => "value_end_game"
      case TextKey(Account) => "value_string_account"
      case TextKey(Group) => "value_string_group"
      case TextKey(Game) => "value_string_game"
      case GroupIdKey => "group_id"
      case UniverseIdKey => "universe_id"
      case StatKeyKey => "stat_key"
      case BadgeIdKey => "badge_id"
      case GamepassIdKey => "gamepass_id"
      case AssetIdKey => "asset_id"
      case ViewPermissionKey => "view_permission"
    }
  }

  /** The form as submitted, with any values under the keys the code uses; other
      keys are never read. `NamesAreDistinct` is why keys can stand for names. */
  type Config = map<Key, Json>

  lemma NamesAreDistinct(k: Key, l: Key)
    requires k != l
    ensures k.Name() != l.Name()
  {
  }

  function Read(m: Config, k: Key): Option<Json> {
    if k in m then Some(m[k]) else None
  }

  // ----------------------------------------------------------------- parse_config

  datatype FormError =
    | PickCategory
    | PickStat
    | UnknownStatType
    | PickField
    | InvalidField
    | WrongCategory
    | PickOperator
    | InvalidOperator
    | ValueRequired
    | NumberRequired
    | EndRequired
    | StartAfterEnd
    | IdRequired

  function ReadStr(m: Config, k: Key): Option<string> {
    match Read(m, k)
    case None => None
    case Some(v) => v.AsStr()
  }

  /** A JSON integer, or a text that parses as one. */
  function ReadInt(m: Config, k: Key): Option<int> {
    match Read(m, k)
    case None => None
    case Some(v) =>
      if v.AsI64().Some? then v.AsI64()
      else match v
        case JString(s) =>
          (match ParseInt(s)
           case None => None
           case Some(i) => if I64_MIN <= i <= I64_MAX then Some(i) else None)
        case _ => None
  }

  function TrimmedString(m: Config, k: Key): Option<string> {
    match ReadStr(m, k)
    case None => None
    case Some(s) => if Trim(s) == "" then None else Some(Trim(s))
  }

  function CategoryOf(name: string): Option<ConditionCategory> {
    if name == "account" then Some(Account)
    else if name == "group" then Some(Group)
    else if name == "game" then Some(Game)
    else None
  }

  function StatField(ty: string): Option<ConditionField> {
    if ty == "numeric" then Some(CustomNumeric)
    else if ty == "boolean" then Some(CustomBoolean)
    else if ty == "string" then Some(CustomString)
    else None
  }

  /** The field, and for a game stat its universe and key. */
  function ParseField(m: Config, cat: ConditionCategory)
    : Result<(ConditionField, Option<(string, string)>), FormError>
  {
    if cat == Game then
      match DecodeGameStat(ReadStr(m, FieldKey(Game)).GetOr(""))
      case None => Err(PickStat)
      case Some((u, k, ty)) =>
        match StatField(ty)
        case None => Err(UnknownStatType)
        case Some(f) => Ok((f, Some((u, k))))
    else
      var name := ReadStr(m, FieldKey(cat)).GetOr("");
      if name == "" then Err(PickField)
      else match ConditionField.FromKey(name)
        case None => Err(InvalidField)
        case Some(f) => if f.Category() != cat then Err(WrongCategory) else Ok((f, None))
  }

  function ParseOperator(m: Config, f: ConditionField, cat: ConditionCategory): Result<ConditionOperator, FormError> {
    if f.IsBoolean() || f.IsStringExact() then Ok(Eq)
    else
      var name := ReadStr(m, OperatorKey(cat)).GetOr("");
      if name == "" then Err(PickOperator)
      else match ConditionOperator.FromKey(name)
        case None => Err(InvalidOperator)
        case Some(o) => Ok(o)
  }

  function ParseValue(m: Config, f: ConditionField, cat: ConditionCategory): Result<Json, FormError> {
    if f.IsBoolean() then Ok(JBool(ReadStr(m, BoolKey(cat)).GetOr("true") == "true"))
    else if f.IsStringExact() then
      var s := Trim(ReadStr(m, TextKey(cat)).GetOr(""));
      if s == "" then Err(ValueRequired) else Ok(JString(s))
    else
      match ReadInt(m, NumKey(cat))
      case None => Err(NumberRequired)
      case Some(n) => Ok(JInt(n))
  }

  function ParseEnd(m: Config, o: ConditionOperator, value: Json, cat: ConditionCategory)
    : Result<Option<Json>, FormError>
  {
    if o != Between then Ok(None)
    else match ReadInt(m, EndKey(cat))
      case None => Err(EndRequired)
      case Some(n) =>
        if value.AsI64().Some? && value.AsI64().value > n then Err(StartAfterEnd) else Ok(Some(JInt(n)))
  }

  predicate IdsPresent(c: Condition) {
    && (c.field.RequiresGroup() ==> c.groupId.Some?)
    && (c.field.RequiresUniverse() ==> c.universeId.Some?)
    && (c.field == OwnsBadge ==> c.badgeId.Some?)
    && (c.field == OwnsGamepass ==> c.gamepassId.Some?)
    && (c.field == OwnsAsset ==> c.assetId.Some?)
    && (c.field.RequiresStatKey() ==> c.statKey.Some?)
  }

  /** The condition with its ids, if none is missing. */
  function WithIds(m: Config, field: ConditionField, decoded: Option<(string, string)>, operator: ConditionOperator,
                   value: Json, valueEnd: Option<Json>): Result<seq<Condition>, FormError>
  {
    var c := Condition(
      field, operator, value, valueEnd,
      TrimmedString(m, GroupIdKey),
      if decoded.Some? then Some(decoded.value.0) else TrimmedString(m, UniverseIdKey),
      TrimmedString(m, BadgeIdKey),
      TrimmedString(m, GamepassIdKey),
      TrimmedString(m, AssetIdKey),
      if decoded.Some? then Some(decoded.value.1) else TrimmedString(m, StatKeyKey));
    if IdsPresent(c) then Ok([c]) else Err(IdRequired)
  }

  function ParseIn(m: Config, cat: ConditionCategory): Result<seq<Condition>, FormError> {
    var (field, decoded) :- ParseField(m, cat);
    var operator :- ParseOperator(m, field, cat);
    var value :- ParseValue(m, field, cat);
    var valueEnd :- ParseEnd(m, operator, value, cat);
    WithIds(m, field, decoded, operator, value, valueEnd)
  }

  function ParseConfig(m: Config): Result<seq<Condition>, FormError> {
    match CategoryOf(ReadStr(m, CategoryKey).GetOr(""))
    case None => Err(PickCategory)
    case Some(cat) => ParseIn(m, cat)
  }

  // --------------------------------------------------- what the form can produce

  predicate TrimmedId(id: Option<string>) {
    id.Some? ==> id.value != "" && Trim(id.value) == id.value
  }

  predicate I64Json(v: Json) {
    v.JInt? && I64_MIN <= v.i <= I64_MAX
  }

  predicate FormValue(c: Condition) {
    if c.field.IsBoolean() then c.operator == Eq && c.value.JBool? && c.valueEnd.None?
    else if c.field.IsStringExact() then
      c.operator == Eq && c.value.JString? && c.value.s != "" && Trim(c.value.s) == c.value.s && c.valueEnd.None?
    else
      && I64Json(c.value)
      && (if c.operator == Between
          then c.valueEnd.Some? && I64Json(c.valueEnd.value) && c.value.i <= c.valueEnd.value.i
          else c.valueEnd.None?)
  }

  ghost predicate StatId(id: Option<string>) {
    id.Some? && id.value != "" && Clean(id.value)
  }

  /** The conditions the form can store. */
  ghost predicate FormCondition(c: Condition) {
    && FormValue(c) && IdsPresent(c)
    && TrimmedId(c.groupId) && TrimmedId(c.badgeId) && TrimmedId(c.gamepassId) && TrimmedId(c.assetId)
    && (if c.field.RequiresUniverse() then StatId(c.universeId) && StatId(c.statKey)
        else TrimmedId(c.universeId) && TrimmedId(c.statKey))
  }

  lemma TrimmedStringIsTrimmed(m: Config, k: Key)
    ensures TrimmedId(TrimmedString(m, k))
  {
    if ReadStr(m, k).Some? { TrimIdempotent(ReadStr(m, k).value); }
  }

  lemma ParsedValueShape(m: Config, f: ConditionField, cat: ConditionCategory)
    requires ParseOperator(m, f, cat).Ok? && ParseValue(m, f, cat).Ok?
    ensures var o, v := ParseOperator(m, f, cat).value, ParseValue(m, f, cat).value;
      && (f.IsBoolean() ==> o == Eq && v.JBool?)
      && (f.IsStringExact() ==> o == Eq && v.JString? && v.s != "" && Trim(v.s) == v.s)
      && (!f.IsBoolean() && !f.IsStringExact() ==> I64Json(v))
      && (ParseEnd(m, o, v, cat).Ok? ==>
            var e := ParseEnd(m, o, v, cat).value;
            if o == Between then e.Some? && I64Json(e.value) && (I64Json(v) ==> v.i <= e.value.i) else e.None?)
  {
    TrimIdempotent(ReadStr(m, TextKey(cat)).GetOr(""));
  }

  lemma ParsedFieldShape(m: Config, cat: ConditionCategory)
    requires ParseField(m, cat).Ok?
    ensures var (f, decoded) := ParseField(m, cat).value;
      && f.Category() == cat
      && (decoded.Some? <==> f.RequiresUniverse())
      && (decoded.Some? ==> StatId(Some(decoded.value.0)) && StatId(Some(decoded.value.1)))
  {
    if cat == Game { DecodedIsClean(ReadStr(m, FieldKey(Game)).GetOr("")); }
  }

  /** Whatever is submitted, an accepted form stores one such condition. */
  lemma ParsedIsFormCondition(m: Config)
    requires ParseConfig(m).Ok?
    ensures |ParseConfig(m).value| == 1 && FormCondition(ParseConfig(m).value[0])
  {
    var cat := CategoryOf(ReadStr(m, CategoryKey).GetOr("")).value;
    ParsedFieldShape(m, cat);
    ParsedValueShape(m, ParseField(m, cat).value.0, cat);
    TrimmedStringIsTrimmed(m, GroupIdKey);
    TrimmedStringIsTrimmed(m, UniverseIdKey);
    TrimmedStringIsTrimmed(m, StatKeyKey);
    TrimmedStringIsTrimmed(m, BadgeIdKey);
    TrimmedStringIsTrimmed(m, GamepassIdKey);
    TrimmedStringIsTrimmed(m, AssetIdKey);
  }

  // ------------------------------------------------------ build_config_schema

  function StatType(f: ConditionField): Option<string> {
    match f
    case CustomNumeric => Some("numeric")
    case CustomBoolean => Some("boolean")
    case CustomString => Some("string")
    case _ => None
  }

  function OptionalText(id: Option<string>): Option<Json> {
    match id
    case None => None
    case Some(s) => Some(JString(s))
  }

  /** `values.insert`. */
  function Put(m: Config, k: Key, v: Json): Config {
    m[k := v]
  }

  function PutText(m: Config, k: Key, text: Option<string>): Config {
    match text
    case None => m
    case Some(s) => m[k := JString(s)]
  }

  lemma EmptyFormAsksForAField(m: Config)
    requires Read(m, CategoryKey) == Some(JString("account")) && Read(m, FieldKey(Account)) == Some(JString(""))
    ensures ParseConfig(m) == Err(PickField)
  {
  }

  ghost predicate ShowsField(m: Config, c: Condition) {
    var cat := c.field.Category();
    && Read(m, CategoryKey) == Some(JString(cat.Key()))
    && (cat != Game ==> Read(m, FieldKey(cat)) == Some(JString(c.field.JsonKey())))
    && (cat == Game && c.universeId.Some? && c.statKey.Some? ==>
          Read(m, FieldKey(Game)) ==
            Some(JString(EncodeGameStat(c.universeId.value, c.statKey.value, StatType(c.field).GetOr("")))))
  }

  ghost predicate ShowsSelectors(m: Config, c: Condition) {
    ShowsField(m, c) && Read(m, OperatorKey(c.field.Category())) == Some(JString(c.operator.Key()))
  }

  ghost predicate ShowsIds(m: Config, c: Condition) {
    && Read(m, GroupIdKey) == OptionalText(c.groupId)
    && Read(m, UniverseIdKey) == OptionalText(c.universeId)
    && Read(m, BadgeIdKey) == OptionalText(c.badgeId)
    && Read(m, GamepassIdKey) == OptionalText(c.gamepassId)
    && Read(m, AssetIdKey) == OptionalText(c.assetId)
    && Read(m, StatKeyKey) == OptionalText(c.statKey)
  }

  ghost predicate ShowsValue(m: Config, c: Condition) {
    var cat := c.field.Category();
    && (c.field.IsBoolean() ==> Read(m, BoolKey(cat)) == Some(JString(if c.Flag() then "true" else "false")))
    && (c.field.IsStringExact() ==> Read(m, TextKey(cat)) == Some(JString(c.value.AsStr().GetOr(""))))
    && (!c.field.IsBoolean() && !c.field.IsStringExact() && c.value.AsI64().Some? ==>
          Read(m, NumKey(cat)) == Some(JInt(c.value.AsI64().value)))
    && (c.operator == Between && c.valueEnd.Some? && c.valueEnd.value.AsI64().Some? ==>
          Read(m, EndKey(cat)) == Some(JInt(c.valueEnd.value.AsI64().value)))
  }

  /** What the seeded form shows, slot by slot. */
  ghost predicate Displays(m: Config, c: Condition) {
    ShowsSelectors(m, c) && ShowsIds(m, c) && ShowsValue(m, c)
  }

  ghost predicate IsIdKey(k: Key) {
    k.GroupIdKey? || k.UniverseIdKey? || k.BadgeIdKey? || k.GamepassIdKey? || k.AssetIdKey? || k.StatKeyKey?
  }

  ghost predicate IsValueKey(k: Key) {
    k.BoolKey? || k.TextKey? || k.NumKey? || k.EndKey?
  }

  lemma SelectorsKept(before: Config, after: Config, c: Condition)
    requires ShowsSelectors(before, c)
    requires forall k | !IsIdKey(k) && !IsValueKey(k) :: Read(after, k) == Read(before, k)
    ensures ShowsSelectors(after, c)
  {
  }

  lemma IdsKept(before: Config, after: Config, c: Condition)
    requires ShowsIds(before, c)
    requires forall k | !IsValueKey(k) :: Read(after, k) == Read(before, k)
    ensures ShowsIds(after, c)
  {
  }

  /** The three groups of slots do not disturb each other. */
  lemma SlotsTogether(selectors: Config, ids: Config, values: Config, c: Condition)
    requires ShowsSelectors(selectors, c) && ShowsIds(ids, c) && ShowsValue(values, c)
    requires forall k | !IsIdKey(k) :: Read(ids, k) == Read(selectors, k)
    requires forall k | !IsValueKey(k) :: Read(values, k) == Read(ids, k)
    ensures Displays(values, c)
    ensures Read(values, ViewPermissionKey) == Read(selectors, ViewPermissionKey)
  {
    SelectorsKept(selectors, values, c);
    IdsKept(ids, values, c);
  }

  /** The `values` map of `build_config_schema`. */
  method BuildValues(conditions: seq<Condition>, viewPermission: string) returns (values: Config)
    ensures conditions != [] ==> Displays(values, conditions[0])
    ensures Read(values, ViewPermissionKey) == Some(JString(viewPermission))
    ensures conditions == [] ==> ParseConfig(values) == Err(PickField)
  {
    values := InsertSelectors(conditions, viewPermission);
    if conditions == [] {
      EmptyFormAsksForAField(values);
    } else {
      ghost var selectors := values;
      values := InsertIds(values, conditions[0]);
      ghost var ids := values;
      values := InsertValue(values, conditions[0]);
      SlotsTogether(selectors, ids, values, conditions[0]);
    }
  }

  /** Category, field and operator slots. */
  method InsertSelectors(conditions: seq<Condition>, viewPermission: string) returns (values: Config)
    ensures Read(values, ViewPermissionKey) == Some(JString(viewPermission))
    ensures forall k | IsIdKey(k) :: Read(values, k) == None
    ensures conditions == [] ==>
      Read(values, CategoryKey) == Some(JString("account")) && Read(values, FieldKey(Account)) == Some(JString(""))
    ensures conditions != [] ==> ShowsSelectors(values, conditions[0])
  {
    values := InsertFields(conditions);
    var operatorKey := if conditions == [] then "gte" else conditions[0].operator.Key();
    values := Put(values, OperatorKey(Account), JString(operatorKey));
    values := Put(values, OperatorKey(Group), JString(operatorKey));
    values := Put(values, OperatorKey(Game), JString(operatorKey));
    values := Put(values, ViewPermissionKey, JString(viewPermission));
  }

  method InsertFields(conditions: seq<Condition>) returns (values: Config)
    ensures forall k | IsIdKey(k) :: Read(values, k) == None
    ensures conditions == [] ==>
      Read(values, CategoryKey) == Some(JString("account")) && Read(values, FieldKey(Account)) == Some(JString(""))
    ensures conditions != [] ==> ShowsField(values, conditions[0])
  {
    values := map[];
    var category := if conditions == [] then Account else conditions[0].field.Category();
    values := Put(values, CategoryKey, JString(category.Key()));
    var fieldKey := if conditions == [] then "" else conditions[0].field.JsonKey();
    values := Put(values, FieldKey(Account), JString(if category == Account then fieldKey else ""));
    values := Put(values, FieldKey(Group), JString(if category == Group then fieldKey else ""));
    var gameSeed := "";
    if category == Game && conditions[0].universeId.Some? && conditions[0].statKey.Some? {
      match StatType(conditions[0].field) {
        case Some(ty) => gameSeed := EncodeGameStat(conditions[0].universeId.value, conditions[0].statKey.value, ty);
        case None =>
      }
    }
    values := Put(values, FieldKey(Game), JString(gameSeed));
  }

  method InsertIds(seed: Config, c: Condition) returns (values: Config)
    requires forall k | IsIdKey(k) :: Read(seed, k) == None
    ensures ShowsIds(values, c)
    ensures forall k | !IsIdKey(k) :: Read(values, k) == Read(seed, k)
  {
    assert ShowsIds(seed, c.(groupId := None, universeId := None, badgeId := None, gamepassId := None,
                             assetId := None, statKey := None));
    values := PutText(seed, GroupIdKey, c.groupId);
    values := PutText(values, UniverseIdKey, c.universeId);
    values := PutText(values, BadgeIdKey, c.badgeId);
    values := PutText(values, GamepassIdKey, c.gamepassId);
    values := PutText(values, AssetIdKey, c.assetId);
    values := PutText(values, StatKeyKey, c.statKey);
  }

  method InsertValue(seed: Config, c: Condition) returns (values: Config)
    ensures ShowsValue(values, c)
    ensures forall k | !IsValueKey(k) :: Read(values, k) == Read(seed, k)
  {
    values := seed;
    var cat := c.field.Category();
    if c.field.IsBoolean() {
      values := Put(values, BoolKey(cat), JString(if c.value.AsBool().GetOr(true) then "true" else "false"));
    } else if c.field.IsStringExact() {
      values := Put(values, TextKey(cat), JString(c.value.AsStr().GetOr("")));
    } else if c.value.AsI64().Some? {
      values := Put(values, NumKey(cat), JInt(c.value.AsI64().value));
    }
    if c.operator == Between {
      if c.valueEnd.Some? && c.valueEnd.value.AsI64().Some? {
        values := Put(values, EndKey(cat), JInt(c.valueEnd.value.AsI64().value));
      }
    }
  }

  // ------------------------------------------------------------------ round trip

  lemma CategoryKeyRoundTrip(cat: ConditionCategory)
    ensures CategoryOf(cat.Key()) == Some(cat)
  {
  }

  lemma ShownIdParses(m: Config, k: Key, id: Option<string>)
    requires Read(m, k) == OptionalText(id) && TrimmedId(id)
    ensures TrimmedString(m, k) == id
  {
  }

  lemma ShownStatParses(m: Config, c: Condition)
    requires c.field.RequiresUniverse() && StatId(c.universeId) && StatId(c.statKey) && ShowsField(m, c)
    ensures ParseField(m, Game) == Ok((c.field, Some((c.universeId.value, c.statKey.value))))
  {
    var ty := StatType(c.field).value;
    assert StatField(ty) == Some(c.field);
    GameStatRoundTrip(c.universeId.value, c.statKey.value, ty);
  }

  lemma ShownFieldParses(m: Config, c: Condition)
    requires FormCondition(c) && Displays(m, c)
    ensures ParseField(m, c.field.Category()) ==
            Ok((c.field, if c.field.RequiresUniverse() then Some((c.universeId.value, c.statKey.value)) else None))
  {
    if c.field.RequiresUniverse() {
      ShownStatParses(m, c);
    } else {
      FieldKeyRoundTrip(c.field);
    }
  }

  lemma ShownValueParses(m: Config, c: Condition)
    requires FormCondition(c) && Displays(m, c)
    ensures var cat := c.field.Category();
      && ParseOperator(m, c.field, cat) == Ok(c.operator)
      && ParseValue(m, c.field, cat) == Ok(c.value)
      && ParseEnd(m, c.operator, c.value, cat) == Ok(c.valueEnd)
  {
    OperatorKeyRoundTrip(c.operator);
  }

  /** The seeded form of a storable condition parses to that condition. */
  lemma ShownConditionParses(m: Config, c: Condition)
    requires FormCondition(c) && Displays(m, c)
    ensures ParseConfig(m) == Ok([c])
  {
    CategoryKeyRoundTrip(c.field.Category());
    ShownFieldParses(m, c);
    ShownValueParses(m, c);
    ShownIdParses(m, GroupIdKey, c.groupId);
    ShownIdParses(m, BadgeIdKey, c.badgeId);
    ShownIdParses(m, GamepassIdKey, c.gamepassId);
    ShownIdParses(m, AssetIdKey, c.assetId);
    if !c.field.RequiresUniverse() {
      ShownIdParses(m, UniverseIdKey, c.universeId);
      ShownIdParses(m, StatKeyKey, c.statKey);
    }
  }

  /** Submit anything that is accepted, reload the form, submit it unchanged: the
      stored condition is the same. */
  lemma ReloadedFormIsStable(submitted: Config, reloaded: Config)
    requires ParseConfig(submitted).Ok?
    requires Displays(reloaded, ParseConfig(submitted).value[0])
    ensures ParseConfig(reloaded) == ParseConfig(submitted)
  {
    ParsedIsFormCondition(submitted);
    var c := ParseConfig(submitted).value[0];
    ShownConditionParses(reloaded, c);
    assert ParseConfig(submitted).value == [c];
  }

  /** Saving through the form and reading back through `build_config_schema`. */
  method SaveAndReload(submitted: Config, viewPermission: string) returns (reloaded: Config)
    requires ParseConfig(submitted).Ok?
    ensures ParseConfig(reloaded) == ParseConfig(submitted)
  {
    var stored := ParseConfig(submitted).value;
    ParsedIsFormCondition(submitted);
    reloaded := BuildValues(stored, viewPermission);
    ReloadedFormIsStable(submitted, reloaded);
  }

  /** Which stored conditions bulk and per-player syncs read alike for every
      account: all but age bounds, ranks that 0 satisfies, and an asset condition
      with another gamepass id left in the form. */
  lemma FormConditionSafety(c: Condition, pg: Rendering)
    requires FormCondition(c) && !c.field.RequiresUniverse()
    ensures !NamesNothing(c)
    ensures (forall uc, now | CacheShape(uc) && NotFuture(uc, now) :: Agree(c, uc, now, pg)) <==>
      match c.field
      case AccountAgeDays => SafeAge(c.operator, c.value.i, c.NumberEnd())
      case GroupRoleRank => !NumCompare(0, c)
      case OwnsAsset => c.gamepassId.None? || c.gamepassId == c.assetId
      case _ => true
  {
    SafeConfigurations(c, pg);
  }
}
