/** The registry of Roblox games: one registration per (universe, guild), created,
    configured and deleted by the handlers, and the stats kept for them. */
module GameRegistry {
  import opened Wrappers
  import opened Text
  import opened Json
  import opened EntryKeys
  import opened Ingest

  datatype Mode = Push | Pull

  datatype Registration = Registration(
    owner: string,
    mode: Mode,
    pushEnabled: bool,
    pullEnabled: bool,
    apiKey: Option<string>,
    datastore: Option<string>,
    interval: int,
    fieldMap: map<string, Json>,
    template: string)

  datatype RegKey = RegKey(universe: string, guild: string)

  datatype GameError = BadRequest | NotFound | Conflict

  datatype OpenCloudBody = OpenCloudBody(
    apiKey: string,
    datastore: string,
    interval: int,
    fieldMap: Json,
    template: Option<string>)

  function ClampInterval(i: int): int {
    if i < 60 then 60 else if i > 86_400 then 86_400 else i
  }

  function TemplateOf(body: OpenCloudBody): string {
    if body.template.Some? && Trim(body.template.value) != "" then Trim(body.template.value) else PLACEHOLDER
  }

  /** A new registration: nothing is pulled until a DataStore is configured. */
  function NewRegistration(owner: string, mode: Mode, apiKey: string): Registration {
    Registration(owner, mode, mode == Push, false, if mode == Pull then Some(apiKey) else None,
                 None, 600, map[], PLACEHOLDER)
  }

  function Configured(r: Registration, body: OpenCloudBody): Registration {
    r.(apiKey := if Trim(body.apiKey) != "" then Some(Trim(body.apiKey)) else r.apiKey,
       datastore := Some(Trim(body.datastore)),
       interval := ClampInterval(body.interval),
       fieldMap := if body.fieldMap.JObject? then body.fieldMap.members else map[],
       pullEnabled := true,
       template := TemplateOf(body))
  }

  /** What holds of every registration the handlers can leave behind. */
  ghost predicate Sound(k: RegKey, r: Registration) {
    && k.universe != "" && AllDigits(k.universe)
    && (r.mode == Push ==> !r.pullEnabled)
    && (r.mode == Pull ==> !r.pushEnabled)
    && (r.pullEnabled ==> r.apiKey.Some? && r.datastore.Some? && r.datastore.value != "")
    && 60 <= r.interval <= 86_400
    && Contains(r.template, PLACEHOLDER)
  }

  /** The form pauses polling: nothing is filled in. */
  predicate Pauses(body: OpenCloudBody) {
    Trim(body.apiKey) == "" && Trim(body.datastore) == ""
  }

  /** The checks before polling starts. */
  ghost predicate MayStart(r: Registration, body: OpenCloudBody, keyReaches: bool) {
    && Trim(body.datastore) != ""
    && (Trim(body.apiKey) == "" || keyReaches)
    && Contains(TemplateOf(body), PLACEHOLDER)
    && (r.apiKey.Some? || Trim(body.apiKey) != "")
  }

  /** What a new registration is: pushing if and only if in push mode, pulling in
      neither, with the key kept for pull mode only and the defaults of the table. */
  lemma NewColumns(owner: string, mode: Mode, apiKey: string)
    ensures var r := NewRegistration(owner, mode, apiKey);
      && r.owner == owner && r.mode == mode
      && (r.pushEnabled <==> mode == Push) && !r.pullEnabled
      && (mode == Push ==> r.apiKey == None) && (mode == Pull ==> r.apiKey == Some(apiKey))
      && r.datastore == None && r.interval == 600 && r.fieldMap == map[] && r.template == "{user_id}"
  {
  }

  /** What a saved configuration is: pulling, from the named DataStore, at an interval
      between a minute and a day, under the template given or the plain one; the
      key changes only if one was typed, and nothing else changes. */
  lemma ConfiguredColumns(r: Registration, body: OpenCloudBody)
    ensures var t := Configured(r, body);
      && t.owner == r.owner && t.mode == r.mode && t.pushEnabled == r.pushEnabled && t.pullEnabled
      && t.datastore == Some(Trim(body.datastore))
      && t.apiKey == (if Trim(body.apiKey) == "" then r.apiKey else Some(Trim(body.apiKey)))
      && (body.interval < 60 ==> t.interval == 60) && (body.interval > 86_400 ==> t.interval == 86_400)
      && (60 <= body.interval <= 86_400 ==> t.interval == body.interval)
      && JObject(t.fieldMap) == (if body.fieldMap.JObject? then body.fieldMap else JObject(map[]))
      && (body.template == None || Trim(body.template.value) == "" ==> t.template == "{user_id}")
      && (body.template.Some? && Trim(body.template.value) != "" ==> t.template == Trim(body.template.value))
  {
  }

  lemma ConfiguredIsSound(k: RegKey, r: Registration, body: OpenCloudBody, keyReaches: bool)
    requires Sound(k, r) && r.mode == Pull && MayStart(r, body, keyReaches)
    ensures Sound(k, Configured(r, body))
  {
  }

  /** Every poll of a sound registration reads different entries for different
      users. */
  lemma SoundRegistrationsReadDistinctEntries(k: RegKey, r: Registration, a: string, b: string)
    requires Sound(k, r) && a != b
    ensures EntryKey(r.template, a) != EntryKey(r.template, b)
  {
    if EntryKey(r.template, a) == EntryKey(r.template, b) { KeysDoNotCollide(r.template, a, b); }
  }

  method IsNumeric(s: string) returns (r: bool)
    ensures r <==> s != "" && AllDigits(s)
  {
    for i := 0 to |s|
      invariant forall j | 0 <= j < i :: IsDigit(s[j])
    {
      if !IsDigit(s[i]) { return false; }
    }
    return s != "";
  }

  predicate RegisteredIn(keys: set<RegKey>, universe: string) {
    exists k :: k in keys && k.universe == universe
  }

  class Registry {
    var regs: map<RegKey, Registration>
    var stats: Table

    /** All registrations are sound. */
    ghost predicate Valid()
      reads this
    {
      forall k | k in regs :: Sound(k, regs[k])
    }

    predicate Registered(universe: string)
      reads this
    {
      RegisteredIn(regs.Keys, universe)
    }

    /** All stats belong to registered universes. */
    ghost predicate Anchored()
      reads this
    {
      forall row | row in stats :: Registered(row.1)
    }

    constructor ()
      ensures Valid() && Anchored() && regs == map[] && stats == map[]
    {
      regs, stats := map[], map[];
    }

    predicate OwnedBy(k: RegKey, owner: string)
      reads this
    {
      k in regs && regs[k].owner == owner
    }

    /** `create_universe`. `keyReaches`: the key can read the universe. */
    method CreateUniverse(k: RegKey, owner: string, displayName: string, apiKey: string, mode: string, keyReaches: bool)
      returns (r: Result<(), GameError>)
      requires Valid()
      modifies this
      ensures Valid() && stats == old(stats)
      ensures old(Anchored()) ==> Anchored()
      ensures r.Ok? <==>
        && k.universe != "" && AllDigits(k.universe) && Trim(displayName) != "" && Trim(apiKey) != ""
        && Trim(mode) in {"push", "pull"} && keyReaches && k !in old(regs)
      ensures r == Err(Conflict) ==> k in old(regs)
      ensures regs == if r.Ok?
        then old(regs)[k := NewRegistration(owner, if Trim(mode) == "push" then Push else Pull, Trim(apiKey))]
        else old(regs)
    {
      DefaultTemplate("");
      var numeric := IsNumeric(k.universe);
      if !numeric { return Err(BadRequest); }
      if Trim(displayName) == "" { return Err(BadRequest); }
      if Trim(mode) != "push" && Trim(mode) != "pull" { return Err(BadRequest); }
      if Trim(apiKey) == "" { return Err(BadRequest); }
      if !keyReaches { return Err(BadRequest); }
      if k in regs { return Err(Conflict); }
      ghost var before := regs;
      regs := regs[k := NewRegistration(owner, if Trim(mode) == "push" then Push else Pull, Trim(apiKey))];
      assert forall x | x in before :: x in regs;
      return Ok(());
    }

    /** `save_open_cloud`: pause with both inputs empty, else configure. */
    method SaveOpenCloud(k: RegKey, owner: string, body: OpenCloudBody, keyReaches: bool)
      returns (r: Result<(), GameError>)
      requires Valid()
      modifies this
      ensures Valid() && stats == old(stats)
      ensures old(Anchored()) ==> Anchored()
      ensures r == Err(NotFound) <==> !old(OwnedBy(k, owner))
      ensures old(OwnedBy(k, owner)) ==>
        var reg := old(regs)[k];
        && (r.Ok? <==> reg.mode == Pull && (Pauses(body) || MayStart(reg, body, keyReaches)))
        && (r.Ok? ==>
              regs == old(regs)[k := if Pauses(body) then reg.(pullEnabled := false) else Configured(reg, body)])
      ensures r.Err? ==> regs == old(regs)
    {
      if k !in regs || regs[k].owner != owner { return Err(NotFound); }
      var reg := regs[k];
      if reg.mode != Pull { return Err(BadRequest); }
      ghost var before := regs;
      if Trim(body.apiKey) == "" && Trim(body.datastore) == "" {
        regs := regs[k := reg.(pullEnabled := false)];
      } else {
        if Trim(body.datastore) == "" { return Err(BadRequest); }
        if Trim(body.apiKey) != "" && !keyReaches { return Err(BadRequest); }
        if Find(TemplateOf(body), PLACEHOLDER).None? { return Err(BadRequest); }
        if reg.apiKey.None? && Trim(body.apiKey) == "" { return Err(BadRequest); }
        ConfiguredIsSound(k, reg, body, keyReaches);
        regs := regs[k := Configured(reg, body)];
      }
      assert regs.Keys == before.Keys;
      return Ok(());
    }

    /** `delete_universe`: the last registration takes the stats with it. */
    method DeleteUniverse(k: RegKey, owner: string) returns (r: Result<(), GameError>)
      requires Valid()
      modifies this
      ensures Valid()
      ensures old(Anchored()) ==> Anchored()
      ensures r == if old(OwnedBy(k, owner)) then Ok(()) else Err(NotFound)
      ensures r.Err? ==> regs == old(regs) && stats == old(stats)
      ensures r.Ok? ==> regs == old(regs) - {k}
      ensures r.Ok? ==> forall row | row in old(stats) ::
        && (row in stats <==> row.1 != k.universe || Registered(k.universe))
        && (row in stats ==> stats[row] == old(stats)[row])
      ensures r.Ok? ==> stats.Keys <= old(stats).Keys
    {
      if k !in regs || regs[k].owner != owner { return Err(NotFound); }
      ghost var before := regs;
      regs := regs - {k};
      if !Registered(k.universe) {
        stats := map row | row in stats && row.1 != k.universe :: stats[row];
      }
      assert forall x | x in before && x.universe != k.universe :: x in regs;
      return Ok(());
    }

    /** One stats write, by the webhook or by the poll worker. The registration it
        was made for may be gone by now: only then do stats outlive it. */
    method WriteStats(universe: string, rid: string, blob: map<string, Json>)
      requires Valid()
      modifies this
      ensures Valid() && regs == old(regs)
      ensures stats == Upsert(old(stats), rid, universe, blob)
      ensures old(Anchored()) ==> (Anchored() <==> Registered(universe))
    {
      stats := Upsert(stats, rid, universe, blob);
      assert (rid, universe) in stats;
    }
  }
}
