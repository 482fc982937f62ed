/** Which submitted forms are accepted and what each stores, slot by slot and in the
    texts of the form; and why the others are refused. */
module FormMeaning {
  import opened Wrappers
  import opened Text
  import opened Json
  import opened Conditions
  import opened ConditionEval
  import opened ConditionMeaning
  import opened ConfigForm

  // --------------------------------------------------------------- names of slots

  function Suffix(cat: ConditionCategory): string {
    match cat
    case Account => "_account"
    case Group => "_group"
    case Game => "_game"
  }

  /** A slot's name is its prefix and the category. */
  lemma SelectorSlotNames(cat: ConditionCategory)
    ensures FieldKey(cat).Name() == "condition_field" + Suffix(cat)
    ensures OperatorKey(cat).Name() == "operator" + Suffix(cat)
  {
    match cat
    case Account =>
    case Group =>
    case Game =>
  }

  lemma NumberSlotNames(cat: ConditionCategory)
    ensures NumKey(cat).Name() == "value_num" + Suffix(cat)
    ensures EndKey(cat).Name() == "value_end" + Suffix(cat)
  {
    match cat
    case Account =>
    case Group =>
    case Game =>
  }

  lemma FlagSlotNames(cat: ConditionCategory)
    ensures BoolKey(cat).Name() == "value_bool" + Suffix(cat)
  {
    match cat
    case Account =>
    case Group =>
    case Game =>
  }

  lemma TextSlotNames(cat: ConditionCategory)
    ensures TextKey(cat).Name() == "value_string" + Suffix(cat)
  {
    match cat
    case Account =>
    case Group =>
    case Game =>
  }

  lemma FixedSlotNames()
    ensures CategoryKey.Name() == "condition_category" && ViewPermissionKey.Name() == "view_permission"
    ensures GroupIdKey.Name() == "group_id" && UniverseIdKey.Name() == "universe_id" && StatKeyKey.Name() == "stat_key"
    ensures BadgeIdKey.Name() == "badge_id" && GamepassIdKey.Name() == "gamepass_id"
    ensures AssetIdKey.Name() == "asset_id"
  {
  }

  // --------------------------------------------------------------------- numbers

  function Zeros(z: nat): string {
    seq(z, _ => '0')
  }

  /** The digits of a number, with any zeros in front. */
  ghost predicate Numeral(s: string, n: nat) {
    exists z: nat :: s == Zeros(z) + Decimal(n)
  }

  /** A text writes a number: a sign or none, and a numeral. */
  ghost predicate Writes(s: string, n: int) {
    || (n >= 0 && Numeral(s, n))
    || (n >= 0 && s != "" && s[0] == '+' && Numeral(s[1..], n))
    || (n <= 0 && s != "" && s[0] == '-' && Numeral(s[1..], -n))
  }

  /** The last digit of a number, and what stands before it. */
  lemma LastDigit(n: nat) returns (c: char)
    ensures IsDigit(c) && c as int - '0' as int == n % 10
    ensures DecimalNat(n) == (if n < 10 then "" else DecimalNat(n / 10)) + [c]
  {
    c := ('0' as int + n % 10) as char;
  }

  /** One more digit on a text of digits. */
  lemma DigitAppended(s: string, c: char)
    requires s != "" && IsDigit(c)
    ensures ParseDigits(s + [c]) ==
      if ParseDigits(s).None? then None else Some(10 * ParseDigits(s).value + (c as int - '0' as int))
  {
    var t := s + [c];
    assert t[..|t| - 1] == s && t[|t| - 1] == c;
  }

  lemma OneDigit(c: char)
    requires IsDigit(c)
    ensures ParseDigits([c]) == Some(c as int - '0' as int)
    ensures DecimalNat(c as int - '0' as int) == [c]
  {
    var d := c as int - '0' as int;
    assert 0 <= d < 10 && d % 10 == d && ('0' as int + d) as char == c;
    assert [c][|[c]| - 1] == c;
  }

  lemma DigitOnNumeral(z: nat, v: nat, c: char) returns (y: nat)
    requires IsDigit(c)
    ensures Zeros(z) + DecimalNat(v) + [c] == Zeros(y) + DecimalNat(10 * v + (c as int - '0' as int))
  {
    var d := c as int - '0' as int;
    OneDigit(c);
    if v == 0 {
      y := z + 1;
      assert DecimalNat(0) == "0" && Zeros(z) + "0" == Zeros(z + 1);
    } else {
      y := z;
      var last := LastDigit(10 * v + d);
      assert (10 * v + d) / 10 == v && (10 * v + d) % 10 == d;
      assert DecimalNat(10 * v + d) == DecimalNat(v) + [c];
    }
  }

  lemma {:induction false} DigitsAreNumeral(s: string) returns (z: nat)
    requires ParseDigits(s).Some?
    ensures ParseDigits(s).value >= 0
    ensures s == Zeros(z) + DecimalNat(ParseDigits(s).value)
  {
    var front, last := s[..|s| - 1], s[|s| - 1];
    assert s == front + [last] && IsDigit(last);
    if front == "" {
      OneDigit(last);
      z := 0;
    } else {
      DigitAppended(front, last);
      var x := DigitsAreNumeral(front);
      z := DigitOnNumeral(x, ParseDigits(front).value, last);
    }
  }

  lemma {:induction false} ZerosAreNothing(z: nat)
    ensures z > 0 ==> ParseDigits(Zeros(z)) == Some(0)
  {
    if z == 1 {
      assert Zeros(1) == "0";
    } else if z > 1 {
      ZerosAreNothing(z - 1);
      DigitAppended(Zeros(z - 1), '0');
      assert Zeros(z) == Zeros(z - 1) + "0";
    }
  }

  lemma {:induction false} DigitsAfterZeros(front: string, n: nat)
    requires front == "" || ParseDigits(front) == Some(0)
    ensures ParseDigits(front + DecimalNat(n)) == Some(n)
  {
    var c := LastDigit(n);
    if n >= 10 {
      DigitsAfterZeros(front, n / 10);
      DigitAppended(front + DecimalNat(n / 10), c);
      assert front + DecimalNat(n) == front + DecimalNat(n / 10) + [c];
    } else if front == "" {
      OneDigit(c);
      assert front + DecimalNat(n) == [c];
    } else {
      DigitAppended(front, c);
      assert front + DecimalNat(n) == front + [c];
    }
  }

  lemma DigitsExactlyWhenNumeral(s: string, n: nat)
    ensures ParseDigits(s) == Some(n) <==> Numeral(s, n)
  {
    if Numeral(s, n) {
      var z: nat :| s == Zeros(z) + Decimal(n);
      ZerosAreNothing(z);
      assert z == 0 ==> Zeros(z) == "";
      DigitsAfterZeros(Zeros(z), n);
    }
    if ParseDigits(s) == Some(n) {
      var z := DigitsAreNumeral(s);
      assert s == Zeros(z) + Decimal(n);
    }
  }

  lemma {:induction false} DigitsOnly(s: string)
    requires ParseDigits(s).Some?
    ensures s != "" && IsDigit(s[0])
  {
    if |s| > 1 { DigitsOnly(s[..|s| - 1]); }
  }

  lemma SignedIsNoNumeral(s: string, n: nat)
    requires s != "" && !IsDigit(s[0])
    ensures ParseDigits(s).None? && !Numeral(s, n)
  {
    if ParseDigits(s).Some? { DigitsOnly(s); }
    DigitsExactlyWhenNumeral(s, n);
  }

  /** Reading a text gives the number it writes, and nothing else is read. */
  lemma ReadExactlyWhenWritten(s: string, n: int)
    ensures ParseInt(s) == Some(n) <==> Writes(s, n)
  {
    if s != "" && (s[0] == '-' || s[0] == '+') {
      SignedIsNoNumeral(s, if n >= 0 then n else -n);
      if ParseDigits(s[1..]).Some? { var _ := DigitsAreNumeral(s[1..]); }
      DigitsExactlyWhenNumeral(s[1..], if n >= 0 then n else -n);
    } else {
      if ParseDigits(s).Some? { var _ := DigitsAreNumeral(s); }
      if n >= 0 { DigitsExactlyWhenNumeral(s, n); }
    }
  }

  /** The decimal digits, on examples. */
  lemma DecimalExamples()
    ensures Decimal(0) == "0" && Decimal(7) == "7" && Decimal(120) == "120" && Decimal(-35) == "-35"
  {
    assert DecimalNat(12) == DecimalNat(1) + "2" && DecimalNat(120) == DecimalNat(12) + "0";
    assert DecimalNat(35) == DecimalNat(3) + "5";
  }

  // --------------------------------------------------------------------- trimming

  ghost predicate AllWhite(s: string) {
    forall i | 0 <= i < |s| :: IsWhite(s[i])
  }

  /** A text with white space around it and none at its own ends. */
  ghost predicate Padded(s: string, t: string) {
    && t != "" && !IsWhite(t[0]) && !IsWhite(t[|t| - 1])
    && exists a, b :: AllWhite(a) && AllWhite(b) && s == a + t + b
  }

  lemma {:induction false} StartTrimmed(s: string)
    returns (a: string)
    ensures AllWhite(a) && s == a + TrimStart(s)
  {
    if s != "" && IsWhite(s[0]) {
      var rest := StartTrimmed(s[1..]);
      a := [s[0]] + rest;
      assert s == [s[0]] + s[1..];
    } else {
      a := "";
    }
  }

  lemma {:induction false} EndTrimmed(s: string)
    returns (b: string)
    ensures AllWhite(b) && s == TrimEnd(s) + b
  {
    if s != "" && IsWhite(s[|s| - 1]) {
      var rest := EndTrimmed(s[..|s| - 1]);
      b := rest + [s[|s| - 1]];
      assert s == s[..|s| - 1] + [s[|s| - 1]];
    } else {
      b := "";
    }
  }

  lemma {:induction false} WhiteInFront(a: string, s: string)
    requires AllWhite(a)
    ensures TrimStart(a + s) == TrimStart(s)
  {
    if a == "" {
      assert a + s == s;
    } else {
      WhiteInFront(a[1..], s);
      assert (a + s)[1..] == a[1..] + s;
    }
  }

  lemma {:induction false} WhiteBehind(s: string, b: string)
    requires AllWhite(b)
    ensures TrimEnd(s + b) == TrimEnd(s)
  {
    if b == "" {
      assert s + b == s;
    } else {
      WhiteBehind(s, b[..|b| - 1]);
      assert (s + b)[..|s + b| - 1] == s + b[..|b| - 1];
    }
  }

  /** Trimming keeps exactly the text without its padding. */
  lemma TrimKeepsTheText(s: string, t: string)
    ensures t != "" ==> (Trim(s) == t <==> Padded(s, t))
    ensures Trim(s) == "" <==> AllWhite(s)
  {
    var a := StartTrimmed(s);
    var b := EndTrimmed(TrimStart(s));
    assert s == a + Trim(s) + b;
    if t != "" && Padded(s, t) {
      var p, q :| AllWhite(p) && AllWhite(q) && s == p + t + q;
      assert p + t + q == p + (t + q);
      WhiteInFront(p, t + q);
      assert (t + q)[0] == t[0];
      WhiteBehind(t, q);
    }
    if AllWhite(s) {
      WhiteInFront(s, "");
      assert s + "" == s;
    }
  }

  /** The 25 characters with the Unicode property White_Space. */
  lemma WhiteSpaceCharacters(c: char)
    ensures IsWhite(c) <==> c as int in {
      9, 10, 11, 12, 13, 32, 133, 160, 5760, 8192, 8193, 8194, 8195, 8196, 8197, 8198, 8199, 8200, 8201, 8202,
      8232, 8233, 8239, 8287, 12288}
  {
  }

  // ----------------------------------------------------------- what a form says

  /** The text in a slot; empty if there is none. */
  function TextIn(m: Config, k: Key): string {
    if k in m && m[k].JString? then m[k].s else ""
  }

  /** A slot holds a number: a JSON integer, or a text that writes one, of 64 bits. */
  ghost predicate SaysNumber(m: Config, k: Key, n: int) {
    && k in m && -9_223_372_036_854_775_808 <= n <= 9_223_372_036_854_775_807
    && (m[k] == JInt(n) || (m[k].JString? && Writes(m[k].s, n)))
  }

  /** An id slot: its text without padding, or nothing if it is blank. */
  ghost predicate SaysId(m: Config, k: Key, id: Option<string>) {
    match id
    case None => AllWhite(TextIn(m, k))
    case Some(t) => Padded(TextIn(m, k), t)
  }

  predicate CategoryText(cat: ConditionCategory, text: string) {
    match cat
    case Account => text == "account"
    case Group => text == "group"
    case Game => text == "game"
  }

  /** The fields one can name, with their category. */
  predicate FieldText(cat: ConditionCategory, f: ConditionField, text: string) {
    match f
    case AccountAgeDays => cat == Account && text == "accountAgeDays"
    case HasVerifiedBadge => cat == Account && text == "hasVerifiedBadge"
    case FriendsCount => cat == Account && text == "friendsCount"
    case FollowersCount => cat == Account && text == "followersCount"
    case FollowingCount => cat == Account && text == "followingCount"
    case BadgesCount => cat == Account && text == "badgesCount"
    case OwnsBadge => cat == Account && text == "ownsBadge"
    case OwnsGamepass => cat == Account && text == "ownsGamepass"
    case OwnsAsset => cat == Account && text == "ownsAsset"
    case InGroup => cat == Group && text == "inGroup"
    case GroupRoleRank => cat == Group && text == "groupRoleRank"
    case CustomNumeric => cat == Game && text == "numeric"
    case CustomBoolean => cat == Game && text == "boolean"
    case CustomString => cat == Game && text == "string"
  }

  predicate OperatorText(o: ConditionOperator, text: string) {
    match o
    case Eq => text == "eq"
    case Gt => text == "gt"
    case Gte => text == "gte"
    case Lt => text == "lt"
    case Lte => text == "lte"
    case Between => text == "between"
  }

  /** A name that can stand in an encoded game stat: without `::`, not ending in `:`. */
  ghost predicate Encodable(s: string) {
    && s != "" && s[|s| - 1] != ':'
    && forall i | 0 <= i < |s| - 1 :: s[i] != ':' || s[i + 1] != ':'
  }

  /** The field chosen; for a game stat `universe::key::type`. */
  ghost predicate SaysField(m: Config, cat: ConditionCategory, f: ConditionField, stat: Option<(string, string)>) {
    if cat == Game then
      && stat.Some? && Encodable(stat.value.0) && Encodable(stat.value.1)
      && exists ty :: FieldText(Game, f, ty)
                      && TextIn(m, FieldKey(Game)) == stat.value.0 + "::" + stat.value.1 + "::" + ty
    else
      stat.None? && FieldText(cat, f, TextIn(m, FieldKey(cat)))
  }

  /** Fields that ask yes or no. */
  predicate AsksYesNo(f: ConditionField) {
    f in {HasVerifiedBadge, OwnsBadge, OwnsGamepass, OwnsAsset, InGroup, CustomBoolean}
  }

  ghost predicate SaysOperator(m: Config, cat: ConditionCategory, f: ConditionField, o: ConditionOperator) {
    if AsksYesNo(f) || f == CustomString then o == Eq else OperatorText(o, TextIn(m, OperatorKey(cat)))
  }

  /** Yes unless another text than "true" is submitted; a text without its padding,
      not blank; or a number. */
  ghost predicate SaysValue(m: Config, cat: ConditionCategory, f: ConditionField, v: Json) {
    if AsksYesNo(f) then
      v == JBool(BoolKey(cat) in m && m[BoolKey(cat)].JString? ==> m[BoolKey(cat)] == JString("true"))
    else if f == CustomString then v.JString? && Padded(TextIn(m, TextKey(cat)), v.s)
    else v.JInt? && SaysNumber(m, NumKey(cat), v.i)
  }

  /** `between` needs an end that is not below the start. */
  ghost predicate SaysEnd(m: Config, cat: ConditionCategory, o: ConditionOperator, v: Json, e: Option<Json>) {
    if o == Between then
      e.Some? && e.value.JInt? && SaysNumber(m, EndKey(cat), e.value.i) && (v.JInt? ==> v.i <= e.value.i)
    else e.None?
  }

  /** The ids a field cannot do without. */
  predicate HasItsIds(c: Condition) {
    && (c.field in {InGroup, GroupRoleRank} ==> c.groupId.Some?)
    && (c.field == OwnsBadge ==> c.badgeId.Some?)
    && (c.field == OwnsGamepass ==> c.gamepassId.Some?)
    && (c.field == OwnsAsset ==> c.assetId.Some?)
  }

  ghost predicate FormSays(m: Config, c: Condition) {
    exists cat, stat :: SaysIn(m, c, cat, stat)
  }

  ghost predicate SaysIn(m: Config, c: Condition, cat: ConditionCategory, stat: Option<(string, string)>) {
    && CategoryText(cat, TextIn(m, CategoryKey))
    && SaysField(m, cat, c.field, stat)
    && SaysOperator(m, cat, c.field, c.operator)
    && SaysValue(m, cat, c.field, c.value)
    && SaysEnd(m, cat, c.operator, c.value, c.valueEnd)
    && SaysId(m, GroupIdKey, c.groupId) && SaysId(m, BadgeIdKey, c.badgeId)
    && SaysId(m, GamepassIdKey, c.gamepassId) && SaysId(m, AssetIdKey, c.assetId)
    && (if stat.Some? then c.universeId == Some(stat.value.0) && c.statKey == Some(stat.value.1)
        else SaysId(m, UniverseIdKey, c.universeId) && SaysId(m, StatKeyKey, c.statKey))
    && HasItsIds(c)
  }

  // ------------------------------------------------------------------ stage by stage

  lemma NumberStage(m: Config, k: Key, n: int)
    ensures ReadInt(m, k) == Some(n) <==> SaysNumber(m, k, n)
  {
    if k in m && m[k].JString? { ReadExactlyWhenWritten(m[k].s, n); }
  }

  lemma IdStage(m: Config, k: Key, id: Option<string>)
    ensures TrimmedString(m, k) == id <==> SaysId(m, k, id)
  {
    TrimKeepsTheText(TextIn(m, k), if id.Some? then id.value else "x");
  }

  lemma EncodableIsClean(s: string)
    ensures s != "" && Clean(s) <==> Encodable(s)
  {
    if Contains(s, SEP) {
      var i: nat :| OccursAt(s, SEP, i);
      SeparatorAt(s, i);
    }
    forall i: nat | i < |s| - 1 ensures OccursAt(s, SEP, i) <==> s[i] == ':' && s[i + 1] == ':' {
      SeparatorAt(s, i);
    }
  }

  lemma GameStatStage(text: string, u: string, k: string, ty: string)
    requires ty != ""
    ensures DecodeGameStat(text) == Some((u, k, ty)) <==>
            Encodable(u) && Encodable(k) && text == u + "::" + k + "::" + ty
  {
    EncodableIsClean(u);
    EncodableIsClean(k);
    if DecodeGameStat(text) == Some((u, k, ty)) { DecodedIsClean(text); }
    if text == u + "::" + k + "::" + ty {
      assert text == EncodeGameStat(u, k, ty);
      GameStatRoundTrip(u, k, ty);
    }
  }

  lemma CategoryStage(m: Config, cat: ConditionCategory)
    ensures CategoryOf(ReadStr(m, CategoryKey).GetOr("")) == Some(cat) <==> CategoryText(cat, TextIn(m, CategoryKey))
  {
  }

  lemma PlainFieldStage(m: Config, cat: ConditionCategory, f: ConditionField)
    requires cat != Game
    ensures ParseField(m, cat) == Ok((f, None)) <==> FieldText(cat, f, TextIn(m, FieldKey(cat)))
  {
    var text := TextIn(m, FieldKey(cat));
    FieldNames(text, f);
  }

  lemma FieldNames(text: string, f: ConditionField)
    ensures !f.RequiresUniverse() ==> (ConditionField.FromKey(text) == Some(f) <==> FieldText(f.Category(), f, text))
  {
    FieldKeyRoundTrip(f);
    assert !f.RequiresUniverse() ==> (FieldText(f.Category(), f, text) <==> text == f.JsonKey());
    KeyOfField(text);
  }

  lemma KeyOfField(text: string)
    ensures ConditionField.FromKey(text).Some? ==> ConditionField.FromKey(text).value.JsonKey() == text
  {
  }

  lemma FieldStage(m: Config, cat: ConditionCategory, f: ConditionField, stat: Option<(string, string)>)
    ensures ParseField(m, cat) == Ok((f, stat)) <==> SaysField(m, cat, f, stat)
  {
    if cat == Game {
      var text := TextIn(m, FieldKey(Game));
      if ParseField(m, cat) == Ok((f, stat)) {
        var ty := DecodeGameStat(text).value.2;
        GameStatStage(text, stat.value.0, stat.value.1, ty);
        assert FieldText(Game, f, ty);
      }
      if SaysField(m, cat, f, stat) {
        var ty :| FieldText(Game, f, ty) && text == stat.value.0 + "::" + stat.value.1 + "::" + ty;
        GameStatStage(text, stat.value.0, stat.value.1, ty);
      }
    } else {
      PlainFieldStage(m, cat, f);
    }
  }

  lemma OperatorStage(m: Config, cat: ConditionCategory, f: ConditionField, o: ConditionOperator)
    ensures ParseOperator(m, f, cat) == Ok(o) <==> SaysOperator(m, cat, f, o)
  {
  }

  lemma ValueStage(m: Config, cat: ConditionCategory, f: ConditionField, v: Json)
    ensures ParseValue(m, f, cat) == Ok(v) <==> SaysValue(m, cat, f, v)
  {
    if !AsksYesNo(f) && f == CustomString {
      TextStage(m, cat, v);
    } else if !AsksYesNo(f) && v.JInt? {
      NumberStage(m, NumKey(cat), v.i);
    }
  }

  lemma TextStage(m: Config, cat: ConditionCategory, v: Json)
    ensures ParseValue(m, CustomString, cat) == Ok(v) <==> v.JString? && Padded(TextIn(m, TextKey(cat)), v.s)
  {
    if v.JString? { TrimKeepsTheText(TextIn(m, TextKey(cat)), v.s); }
  }

  lemma EndStage(m: Config, cat: ConditionCategory, o: ConditionOperator, v: Json, e: Option<Json>)
    requires v.JInt? ==> I64_MIN <= v.i <= I64_MAX
    ensures ParseEnd(m, o, v, cat) == Ok(e) <==> SaysEnd(m, cat, o, v, e)
  {
    if e.Some? && e.value.JInt? { NumberStage(m, EndKey(cat), e.value.i); }
  }

  // -------------------------------------------------------------------- the theorem

  /** The accepted forms, and what each stores: one condition, the one it says. */
  lemma AcceptedExactlyWhen(m: Config, c: Condition)
    ensures ParseConfig(m) == Ok([c]) <==> FormSays(m, c)
  {
    if ParseConfig(m) == Ok([c]) { AcceptedIsSaid(m, c); }
    if FormSays(m, c) { SaidIsAccepted(m, c); }
  }

  lemma AllIdStages(m: Config, c: Condition)
    ensures TrimmedString(m, GroupIdKey) == c.groupId <==> SaysId(m, GroupIdKey, c.groupId)
    ensures TrimmedString(m, BadgeIdKey) == c.badgeId <==> SaysId(m, BadgeIdKey, c.badgeId)
    ensures TrimmedString(m, GamepassIdKey) == c.gamepassId <==> SaysId(m, GamepassIdKey, c.gamepassId)
    ensures TrimmedString(m, AssetIdKey) == c.assetId <==> SaysId(m, AssetIdKey, c.assetId)
    ensures TrimmedString(m, UniverseIdKey) == c.universeId <==> SaysId(m, UniverseIdKey, c.universeId)
    ensures TrimmedString(m, StatKeyKey) == c.statKey <==> SaysId(m, StatKeyKey, c.statKey)
  {
    IdStage(m, GroupIdKey, c.groupId);
    IdStage(m, BadgeIdKey, c.badgeId);
    IdStage(m, GamepassIdKey, c.gamepassId);
    IdStage(m, AssetIdKey, c.assetId);
    IdStage(m, UniverseIdKey, c.universeId);
    IdStage(m, StatKeyKey, c.statKey);
  }

  /** What the stages make of a form, put together. */
  lemma StagesTogether(m: Config, cat: ConditionCategory, stat: Option<(string, string)>, c: Condition)
    requires CategoryOf(ReadStr(m, CategoryKey).GetOr("")) == Some(cat)
    requires ParseField(m, cat) == Ok((c.field, stat))
    requires ParseOperator(m, c.field, cat) == Ok(c.operator)
    requires ParseValue(m, c.field, cat) == Ok(c.value)
    requires ParseEnd(m, c.operator, c.value, cat) == Ok(c.valueEnd)
    requires TrimmedString(m, GroupIdKey) == c.groupId && TrimmedString(m, BadgeIdKey) == c.badgeId
    requires TrimmedString(m, GamepassIdKey) == c.gamepassId && TrimmedString(m, AssetIdKey) == c.assetId
    requires if stat.Some? then c.universeId == Some(stat.value.0) && c.statKey == Some(stat.value.1)
             else TrimmedString(m, UniverseIdKey) == c.universeId && TrimmedString(m, StatKeyKey) == c.statKey
    ensures ParseConfig(m) == if IdsPresent(c) then Ok([c]) else Err(IdRequired)
  {
  }

  /** And taken apart. */
  lemma StagesOfAccepted(m: Config, c: Condition)
    returns (cat: ConditionCategory, stat: Option<(string, string)>)
    requires ParseConfig(m) == Ok([c])
    ensures CategoryOf(ReadStr(m, CategoryKey).GetOr("")) == Some(cat)
    ensures ParseField(m, cat) == Ok((c.field, stat))
    ensures ParseOperator(m, c.field, cat) == Ok(c.operator)
    ensures ParseValue(m, c.field, cat) == Ok(c.value)
    ensures ParseEnd(m, c.operator, c.value, cat) == Ok(c.valueEnd)
    ensures WithIds(m, c.field, stat, c.operator, c.value, c.valueEnd) == Ok([c])
  {
    cat := CategoryOf(ReadStr(m, CategoryKey).GetOr("")).value;
    stat := ParseField(m, cat).value.1;
    assert [c][0] == c;
  }

  lemma AcceptedIsSaid(m: Config, c: Condition)
    requires ParseConfig(m) == Ok([c])
    ensures FormSays(m, c)
  {
    var cat, stat := StagesOfAccepted(m, c);
    assert [c][0] == c;
    CategoryStage(m, cat);
    FieldStage(m, cat, c.field, stat);
    OperatorStage(m, cat, c.field, c.operator);
    ValueStage(m, cat, c.field, c.value);
    ValueIsInt64(m, cat, c.field);
    EndStage(m, cat, c.operator, c.value, c.valueEnd);
    AllIdStages(m, c);
    assert SaysIn(m, c, cat, stat);
  }

  lemma ValueIsInt64(m: Config, cat: ConditionCategory, f: ConditionField)
    ensures var v := ParseValue(m, f, cat);
      v.Ok? && v.value.JInt? ==> I64_MIN <= v.value.i <= I64_MAX
  {
  }

  lemma SaidIsAccepted(m: Config, c: Condition)
    requires FormSays(m, c)
    ensures ParseConfig(m) == Ok([c])
  {
    var cat, stat :| SaysIn(m, c, cat, stat);
    CategoryStage(m, cat);
    FieldStage(m, cat, c.field, stat);
    OperatorStage(m, cat, c.field, c.operator);
    ValueStage(m, cat, c.field, c.value);
    EndStage(m, cat, c.operator, c.value, c.valueEnd);
    AllIdStages(m, c);
    ParsedFieldShape(m, cat);
    StagesTogether(m, cat, stat, c);
  }

  // -------------------------------------------------------------------- refusals

  /** A category that is none of the three. */
  lemma CategoryRefused(m: Config)
    requires TextIn(m, CategoryKey) !in {"account", "group", "game"}
    ensures ParseConfig(m) == Err(PickCategory)
  {
  }

  /** Refusals for a field of the account or group category. */
  lemma FieldRefused(m: Config, cat: ConditionCategory)
    requires CategoryText(cat, TextIn(m, CategoryKey)) && cat != Game
    ensures var text := TextIn(m, FieldKey(cat));
      var custom := text in {"customNumeric", "customBoolean", "customString"};
      && (text == "" ==> ParseConfig(m) == Err(PickField))
      && (text != "" && !custom && (forall c, f | c != Game :: !FieldText(c, f, text)) ==>
            ParseConfig(m) == Err(InvalidField))
      && (custom || (exists c, f :: c != Game && c != cat && FieldText(c, f, text)) ==>
            ParseConfig(m) == Err(WrongCategory))
  {
    CategoryStage(m, cat);
    var text := TextIn(m, FieldKey(cat));
    match ConditionField.FromKey(text) {
      case None =>
        forall c, f | c != Game ensures !FieldText(c, f, text) { FieldNames(text, f); }
      case Some(g) =>
        FieldNames(text, g);
        if c, f :| c != Game && c != cat && FieldText(c, f, text) { FieldNames(text, f); }
    }
  }

  /** Refusals for a game stat. */
  lemma StatRefused(m: Config)
    requires TextIn(m, CategoryKey) == "game"
    ensures (forall u, k, ty | Encodable(u) && Encodable(k) && ty != "" ::
               TextIn(m, FieldKey(Game)) != u + "::" + k + "::" + ty) ==> ParseConfig(m) == Err(PickStat)
    ensures forall u, k, ty | Encodable(u) && Encodable(k) && ty !in {"", "numeric", "boolean", "string"}
                              && TextIn(m, FieldKey(Game)) == u + "::" + k + "::" + ty ::
              ParseConfig(m) == Err(UnknownStatType)
  {
    var text := TextIn(m, FieldKey(Game));
    if DecodeGameStat(text).Some? {
      var (u, k, ty) := DecodeGameStat(text).value;
      DecodedIsClean(text);
      GameStatStage(text, u, k, ty);
    }
    forall u, k, ty | Encodable(u) && Encodable(k) && ty !in {"", "numeric", "boolean", "string"}
                      && text == u + "::" + k + "::" + ty
      ensures ParseConfig(m) == Err(UnknownStatType)
    {
      GameStatStage(text, u, k, ty);
    }
  }

  /** Refusals for the operator of a number. */
  lemma OperatorRefused(m: Config, cat: ConditionCategory, f: ConditionField, stat: Option<(string, string)>)
    requires CategoryText(cat, TextIn(m, CategoryKey)) && SaysField(m, cat, f, stat)
    requires !AsksYesNo(f) && f != CustomString
    ensures var text := TextIn(m, OperatorKey(cat));
      && (text == "" ==> ParseConfig(m) == Err(PickOperator))
      && (text != "" && (forall o :: !OperatorText(o, text)) ==> ParseConfig(m) == Err(InvalidOperator))
  {
    CategoryStage(m, cat);
    FieldStage(m, cat, f, stat);
    if ConditionOperator.FromKey(TextIn(m, OperatorKey(cat))).Some? {
      OperatorStage(m, cat, f, ConditionOperator.FromKey(TextIn(m, OperatorKey(cat))).value);
    }
  }

  /** A slot without a number where one is needed. */
  lemma NumberRefused(m: Config, cat: ConditionCategory, f: ConditionField, stat: Option<(string, string)>,
                      o: ConditionOperator)
    requires CategoryText(cat, TextIn(m, CategoryKey)) && SaysField(m, cat, f, stat)
    requires !AsksYesNo(f) && f != CustomString && SaysOperator(m, cat, f, o)
    requires forall n :: !SaysNumber(m, NumKey(cat), n)
    ensures ParseConfig(m) == Err(NumberRequired)
  {
    CategoryStage(m, cat);
    FieldStage(m, cat, f, stat);
    OperatorStage(m, cat, f, o);
    if ReadInt(m, NumKey(cat)).Some? { NumberStage(m, NumKey(cat), ReadInt(m, NumKey(cat)).value); }
  }

  /** A blank text where one is needed. */
  lemma TextRefused(m: Config, cat: ConditionCategory, stat: Option<(string, string)>)
    requires CategoryText(cat, TextIn(m, CategoryKey)) && SaysField(m, cat, CustomString, stat)
    requires AllWhite(TextIn(m, TextKey(cat)))
    ensures ParseConfig(m) == Err(ValueRequired)
  {
    CategoryStage(m, cat);
    FieldStage(m, cat, CustomString, stat);
    TrimKeepsTheText(TextIn(m, TextKey(cat)), "");
  }

  /** Refusals for the end of `between`. */
  lemma EndRefused(m: Config, cat: ConditionCategory, f: ConditionField, stat: Option<(string, string)>, start: int)
    requires CategoryText(cat, TextIn(m, CategoryKey)) && SaysField(m, cat, f, stat)
    requires !AsksYesNo(f) && f != CustomString && TextIn(m, OperatorKey(cat)) == "between"
    requires SaysNumber(m, NumKey(cat), start)
    ensures (forall n :: !SaysNumber(m, EndKey(cat), n)) ==> ParseConfig(m) == Err(EndRequired)
    ensures forall n | SaysNumber(m, EndKey(cat), n) && n < start :: ParseConfig(m) == Err(StartAfterEnd)
  {
    UpToTheEnd(m, cat, f, stat, start);
    if ReadInt(m, EndKey(cat)).Some? { NumberStage(m, EndKey(cat), ReadInt(m, EndKey(cat)).value); }
    forall n | SaysNumber(m, EndKey(cat), n) ensures ReadInt(m, EndKey(cat)) == Some(n) {
      NumberStage(m, EndKey(cat), n);
    }
  }

  lemma UpToTheEnd(m: Config, cat: ConditionCategory, f: ConditionField, stat: Option<(string, string)>, start: int)
    requires CategoryText(cat, TextIn(m, CategoryKey)) && SaysField(m, cat, f, stat)
    requires !AsksYesNo(f) && f != CustomString && TextIn(m, OperatorKey(cat)) == "between"
    requires SaysNumber(m, NumKey(cat), start)
    ensures ReadInt(m, EndKey(cat)).None? ==> ParseConfig(m) == Err(EndRequired)
    ensures ReadInt(m, EndKey(cat)).Some? && ReadInt(m, EndKey(cat)).value < start ==>
            ParseConfig(m) == Err(StartAfterEnd)
  {
    CategoryStage(m, cat);
    FieldStage(m, cat, f, stat);
    OperatorStage(m, cat, f, Between);
    ValueStage(m, cat, f, JInt(start));
    if ParseEnd(m, Between, JInt(start), cat).Err? { EndDecides(m, cat, f, stat, JInt(start)); }
  }

  lemma EndDecides(m: Config, cat: ConditionCategory, f: ConditionField, stat: Option<(string, string)>, v: Json)
    requires CategoryOf(ReadStr(m, CategoryKey).GetOr("")) == Some(cat) && ParseField(m, cat) == Ok((f, stat))
    requires ParseOperator(m, f, cat) == Ok(Between) && ParseValue(m, f, cat) == Ok(v)
    requires ParseEnd(m, Between, v, cat).Err?
    ensures ParseConfig(m) == Err(ParseEnd(m, Between, v, cat).error)
  {
  }

  /** And for an id the field cannot do without. */
  lemma IdRefused(m: Config, cat: ConditionCategory, f: ConditionField, stat: Option<(string, string)>,
                  o: ConditionOperator, v: Json, e: Option<Json>)
    requires CategoryText(cat, TextIn(m, CategoryKey)) && SaysField(m, cat, f, stat)
    requires SaysOperator(m, cat, f, o) && SaysValue(m, cat, f, v) && SaysEnd(m, cat, o, v, e)
    requires || (f in {InGroup, GroupRoleRank} && AllWhite(TextIn(m, GroupIdKey)))
             || (f == OwnsBadge && AllWhite(TextIn(m, BadgeIdKey)))
             || (f == OwnsGamepass && AllWhite(TextIn(m, GamepassIdKey)))
             || (f == OwnsAsset && AllWhite(TextIn(m, AssetIdKey)))
    ensures ParseConfig(m) == Err(IdRequired)
  {
    CategoryStage(m, cat);
    FieldStage(m, cat, f, stat);
    OperatorStage(m, cat, f, o);
    ValueStage(m, cat, f, v);
    EndStage(m, cat, o, v, e);
    IdStage(m, GroupIdKey, None);
    IdStage(m, BadgeIdKey, None);
    IdStage(m, GamepassIdKey, None);
    IdStage(m, AssetIdKey, None);
  }

  // ----------------------------------------------------------------- consequences

  /** An accepted form stores exactly one condition. */
  lemma AcceptedStoresOne(m: Config)
    requires ParseConfig(m).Ok?
    ensures exists c :: FormSays(m, c) && ParseConfig(m) == Ok([c])
  {
    ParsedIsFormCondition(m);
    var c := ParseConfig(m).value[0];
    assert ParseConfig(m).value == [c];
    AcceptedExactlyWhen(m, c);
  }

  /** A number may be submitted as a number or as a text that writes it. */
  lemma NumbersAsTexts(m: Config, cat: ConditionCategory, s: string, n: int)
    requires Writes(s, n) && -9_223_372_036_854_775_808 <= n <= 9_223_372_036_854_775_807
    ensures ParseConfig(m[NumKey(cat) := JString(s)]) == ParseConfig(m[NumKey(cat) := JInt(n)])
    ensures ParseConfig(m[EndKey(cat) := JString(s)]) == ParseConfig(m[EndKey(cat) := JInt(n)])
  {
    TextSlot(m, NumKey(cat), s, n);
    TextSlot(m, EndKey(cat), s, n);
  }

  lemma TextSlot(m: Config, k: Key, s: string, n: int)
    requires k.NumKey? || k.EndKey?
    requires Writes(s, n) && -9_223_372_036_854_775_808 <= n <= 9_223_372_036_854_775_807
    ensures ParseConfig(m[k := JString(s)]) == ParseConfig(m[k := JInt(n)])
  {
    NumberStage(m[k := JString(s)], k, n);
    NumberStage(m[k := JInt(n)], k, n);
    SameFormReadsSame(m[k := JString(s)], m[k := JInt(n)]);
  }

  lemma SameFormReadsSame(m: Config, l: Config)
    requires forall k: Key | !k.NumKey? && !k.EndKey? :: Read(m, k) == Read(l, k)
    requires forall k: Key | k.NumKey? || k.EndKey? :: ReadInt(m, k) == ReadInt(l, k)
    ensures ParseConfig(m) == ParseConfig(l)
  {
    assert Read(m, CategoryKey) == Read(l, CategoryKey);
    var cat := CategoryOf(ReadStr(m, CategoryKey).GetOr(""));
    if cat.Some? {
      SameFieldAndOperator(m, l, cat.value);
      SameValueAndEnd(m, l, cat.value);
      SameIds(m, l);
    }
  }

  lemma SameIds(m: Config, l: Config)
    requires forall k: Key | !k.NumKey? && !k.EndKey? :: Read(m, k) == Read(l, k)
    ensures forall f, d, o, v, e :: WithIds(m, f, d, o, v, e) == WithIds(l, f, d, o, v, e)
  {
    assert Read(m, GroupIdKey) == Read(l, GroupIdKey) && Read(m, BadgeIdKey) == Read(l, BadgeIdKey);
    assert Read(m, GamepassIdKey) == Read(l, GamepassIdKey) && Read(m, AssetIdKey) == Read(l, AssetIdKey);
    assert Read(m, UniverseIdKey) == Read(l, UniverseIdKey) && Read(m, StatKeyKey) == Read(l, StatKeyKey);
  }

  lemma SameFieldAndOperator(m: Config, l: Config, cat: ConditionCategory)
    requires forall k: Key | !k.NumKey? && !k.EndKey? :: Read(m, k) == Read(l, k)
    ensures ParseField(m, cat) == ParseField(l, cat)
    ensures forall f :: ParseOperator(m, f, cat) == ParseOperator(l, f, cat)
  {
    assert Read(m, FieldKey(cat)) == Read(l, FieldKey(cat)) && Read(m, FieldKey(Game)) == Read(l, FieldKey(Game));
    assert Read(m, OperatorKey(cat)) == Read(l, OperatorKey(cat));
  }

  lemma SameValueAndEnd(m: Config, l: Config, cat: ConditionCategory)
    requires forall k: Key | !k.NumKey? && !k.EndKey? :: Read(m, k) == Read(l, k)
    requires forall k: Key | k.NumKey? || k.EndKey? :: ReadInt(m, k) == ReadInt(l, k)
    ensures forall f :: ParseValue(m, f, cat) == ParseValue(l, f, cat)
    ensures forall o, v :: ParseEnd(m, o, v, cat) == ParseEnd(l, o, v, cat)
  {
    assert Read(m, TextKey(cat)) == Read(l, TextKey(cat)) && Read(m, BoolKey(cat)) == Read(l, BoolKey(cat));
    assert ReadInt(m, NumKey(cat)) == ReadInt(l, NumKey(cat)) && ReadInt(m, EndKey(cat)) == ReadInt(l, EndKey(cat));
  }

  /** From the form to the decision: an accepted form about a count compares that
      count with the numbers submitted. */
  lemma SubmittedCountDecides(m: Config, f: ConditionField, op: ConditionOperator, n: int, end: int, uc: UserCacheRow,
                              stats: GameStats, now: int)
    requires ParseConfig(m).Ok?
    requires TextIn(m, CategoryKey) == "account"
    requires f in {FriendsCount, FollowersCount, FollowingCount, BadgesCount}
    requires FieldText(Account, f, TextIn(m, FieldKey(Account)))
    requires OperatorText(op, TextIn(m, OperatorKey(Account)))
    requires SaysNumber(m, NumKey(Account), n) && (op == Between ==> SaysNumber(m, EndKey(Account), end))
    ensures EvaluateConditions(ParseConfig(m).value, uc, stats, now) <==> Fits(CountColumn(f, uc), op, n, end)
  {
    var c := StoredCondition(m);
    StoredNumbers(m, c, f, op, n, end);
    CountsDecision(c, n, if op == Between then end else n, uc, stats, now);
  }

  lemma StoredCondition(m: Config) returns (c: Condition)
    requires ParseConfig(m).Ok?
    ensures ParseConfig(m) == Ok([c])
  {
    AcceptedStoresOne(m);
    c :| FormSays(m, c) && ParseConfig(m) == Ok([c]);
  }

  lemma StoredNumbers(m: Config, c: Condition, f: ConditionField, op: ConditionOperator, n: int, end: int)
    requires ParseConfig(m) == Ok([c]) && TextIn(m, CategoryKey) == "account"
    requires FieldText(Account, f, TextIn(m, FieldKey(Account))) && !AsksYesNo(f)
    requires OperatorText(op, TextIn(m, OperatorKey(Account)))
    requires SaysNumber(m, NumKey(Account), n) && (op == Between ==> SaysNumber(m, EndKey(Account), end))
    ensures c.field == f && c.operator == op && c.value == JInt(n)
    ensures c.valueEnd == if op == Between then Some(JInt(end)) else None
  {
    CategoryStage(m, Account);
    FieldStage(m, Account, f, None);
    OperatorStage(m, Account, f, op);
    ValueStage(m, Account, f, JInt(n));
    NumberStage(m, EndKey(Account), end);
    assert [c][0] == c;
  }
}
