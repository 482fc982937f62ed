/** The condition model both evaluators, the compiler and the form parser share. */
module Conditions {
  import opened Wrappers
  import opened Json

  datatype ConditionField =
    | AccountAgeDays
    | HasVerifiedBadge
    | FriendsCount
    | FollowersCount
    | FollowingCount
    | BadgesCount
    | OwnsBadge
    | OwnsGamepass
    | OwnsAsset
    | InGroup
    | GroupRoleRank
    | CustomNumeric
    | CustomBoolean
    | CustomString
  {
    predicate IsBoolean() {
      HasVerifiedBadge? || OwnsBadge? || OwnsGamepass? || OwnsAsset? || InGroup? || CustomBoolean?
    }

    predicate IsStringExact() { CustomString? }

    predicate RequiresUniverse() { CustomNumeric? || CustomBoolean? || CustomString? }

    predicate RequiresGroup() { InGroup? || GroupRoleRank? }

    predicate RequiresStatKey() { CustomNumeric? || CustomBoolean? || CustomString? }

    function Category(): ConditionCategory {
      if RequiresUniverse() then Game else if RequiresGroup() then Group else Account
    }

    function JsonKey(): string {
      match this
      case AccountAgeDays => "accountAgeDays"
      case HasVerifiedBadge => "hasVerifiedBadge"
      case FriendsCount => "friendsCount"
      case FollowersCount => "followersCount"
      case FollowingCount => "followingCount"
      case BadgesCount => "badgesCount"
      case OwnsBadge => "ownsBadge"
      case OwnsGamepass => "ownsGamepass"
      case OwnsAsset => "ownsAsset"
      case InGroup => "inGroup"
      case GroupRoleRank => "groupRoleRank"
      case CustomNumeric => "customNumeric"
      case CustomBoolean => "customBoolean"
      case CustomString => "customString"
    }

    static function FromKey(key: string): Option<ConditionField> {
      if key == "accountAgeDays" then Some(AccountAgeDays)
      else if key == "hasVerifiedBadge" then Some(HasVerifiedBadge)
      else if key == "friendsCount" then Some(FriendsCount)
      else if key == "followersCount" then Some(FollowersCount)
      else if key == "followingCount" then Some(FollowingCount)
      else if key == "badgesCount" then Some(BadgesCount)
      else if key == "ownsBadge" then Some(OwnsBadge)
      else if key == "ownsGamepass" then Some(OwnsGamepass)
      else if key == "ownsAsset" then Some(OwnsAsset)
      else if key == "inGroup" then Some(InGroup)
      else if key == "groupRoleRank" then Some(GroupRoleRank)
      else if key == "customNumeric" then Some(CustomNumeric)
      else if key == "customBoolean" then Some(CustomBoolean)
      else if key == "customString" then Some(CustomString)
      else None
    }
  }

  datatype ConditionCategory = Account | Group | Game {
    function Key(): string {
      match this
      case Account => "account"
      case Group => "group"
      case Game => "game"
    }
  }

  datatype ConditionOperator = Eq | Gt | Gte | Lt | Lte | Between {
    function Key(): string {
      match this
      case Eq => "eq"
      case Gt => "gt"
      case Gte => "gte"
      case Lt => "lt"
      case Lte => "lte"
      case Between => "between"
    }

    static function FromKey(key: string): Option<ConditionOperator> {
      if key == "eq" then Some(Eq)
      else if key == "gt" then Some(Gt)
      else if key == "gte" then Some(Gte)
      else if key == "lt" then Some(Lt)
      else if key == "lte" then Some(Lte)
      else if key == "between" then Some(Between)
      else None
    }
  }

  datatype Condition = Condition(
    field: ConditionField,
    operator: ConditionOperator,
    value: Json,
    valueEnd: Option<Json>,
    groupId: Option<string>,
    universeId: Option<string>,
    badgeId: Option<string>,
    gamepassId: Option<string>,
    assetId: Option<string>,
    statKey: Option<string>)
  {
    /** The number a comparison is made with; 0 when the value is not one. */
    function Number(): int { value.AsI64().GetOr(0) }

    /** The upper end of `between`; the start when there is none. */
    function NumberEnd(): int {
      match valueEnd
      case None => Number()
      case Some(v) => v.AsI64().GetOr(Number())
    }

    /** The truth value a yes/no field is compared with. */
    function Flag(): bool { value.AsBool().GetOr(true) }
  }

  lemma FieldKeyRoundTrip(f: ConditionField)
    ensures ConditionField.FromKey(f.JsonKey()) == Some(f)
    ensures f.JsonKey() != ""
  {
    match f
    case AccountAgeDays =>
    case HasVerifiedBadge =>
    case FriendsCount =>
    case FollowersCount =>
    case FollowingCount =>
    case BadgesCount =>
    case OwnsBadge =>
    case OwnsGamepass =>
    case OwnsAsset =>
    case InGroup =>
    case GroupRoleRank =>
    case CustomNumeric =>
    case CustomBoolean =>
    case CustomString =>
  }

  lemma OperatorKeyRoundTrip(o: ConditionOperator)
    ensures ConditionOperator.FromKey(o.Key()) == Some(o)
    ensures o.Key() != ""
  {
    match o
    case Eq =>
    case Gt =>
    case Gte =>
    case Lt =>
    case Lte =>
    case Between =>
  }
}
