/** Stats reported by a game: the plugin's batches, the webhook that merges them
    into the stats table, and its secret comparison. */
module Ingest {
  import opened Wrappers
  import opened Json

  const MAX_PLAYERS_PER_REQUEST: nat := 100

  datatype Player = Player(userId: string, stats: map<string, Json>)

  /** `player_game_stats`: custom blobs by (roblox_user_id, universe_id). */
  type Table = map<(string, string), map<string, Json>>

  /** INSERT ... ON CONFLICT DO UPDATE SET custom = custom || new. */
  function Upsert(t: Table, rid: string, universe: string, blob: map<string, Json>): Table {
    t[(rid, universe) := (if (rid, universe) in t then t[(rid, universe)] else map[]) + blob]
  }

  predicate Reports(p: Player) {
    p.userId != "" && p.stats != map[]
  }

  function IngestAll(t: Table, universe: string, players: seq<Player>): Table {
    if players == [] then t
    else
      var p := players[|players| - 1];
      var before := IngestAll(t, universe, players[..|players| - 1]);
      if Reports(p) then Upsert(before, p.userId, universe, p.stats) else before
  }

  function AcceptedIds(players: seq<Player>): seq<string> {
    if players == [] then []
    else
      var p := players[|players| - 1];
      AcceptedIds(players[..|players| - 1]) + if Reports(p) then [p.userId] else []
  }

  /** The players accepted, by position: in order, each that has an id and stats. */
  lemma {:induction false} AcceptedPositions(players: seq<Player>) returns (at: seq<nat>)
    ensures |at| == |AcceptedIds(players)|
    ensures forall i, j | 0 <= i < j < |at| :: at[i] < at[j]
    ensures forall i | 0 <= i < |at| :: at[i] < |players| && AcceptedIds(players)[i] == players[at[i]].userId
    ensures forall p: nat | p < |players| :: p in at <==> players[p].userId != "" && players[p].stats != map[]
  {
    at := [];
    if players != [] {
      var n := |players| - 1;
      var front := AcceptedPositions(players[..n]);
      at := front + if Reports(players[n]) then [n] else [];
      forall p: nat | p < |players|
        ensures p in at <==> players[p].userId != "" && players[p].stats != map[]
      {
        if p < n { assert players[..n][p] == players[p]; }
      }
    }
  }

  // ------------------------------------------------------------ what a table says

  function Value(t: Table, rid: string, universe: string, key: string): Option<Json> {
    if (rid, universe) in t && key in t[(rid, universe)] then Some(t[(rid, universe)][key]) else None
  }

  /** The last value reported for a user's key. */
  function LastReport(players: seq<Player>, rid: string, key: string): Option<Json> {
    if players == [] then None
    else
      var p := players[|players| - 1];
      if p.userId == rid && key in p.stats then Some(p.stats[key])
      else LastReport(players[..|players| - 1], rid, key)
  }

  /** Per user, universe and key: the last reported value, otherwise the old one;
      and no row appears without a report. */
  lemma {:induction false} IngestMeaning(t: Table, universe: string, players: seq<Player>,
                                         rid: string, u: string, key: string)
    ensures var last := LastReport(players, rid, key);
      Value(IngestAll(t, universe, players), rid, u, key) ==
      if u == universe && rid != "" && last.Some? then last else Value(t, rid, u, key)
    ensures (rid, u) in IngestAll(t, universe, players) <==>
              (rid, u) in t || (u == universe && rid in AcceptedIds(players))
  {
    if players != [] { IngestMeaning(t, universe, players[..|players| - 1], rid, u, key); }
  }

  lemma {:induction false} IngestConcat(t: Table, universe: string, a: seq<Player>, b: seq<Player>)
    ensures IngestAll(t, universe, a + b) == IngestAll(IngestAll(t, universe, a), universe, b)
  {
    if b == [] {
      assert a + b == a;
    } else {
      IngestConcat(t, universe, a, b[..|b| - 1]);
      assert (a + b)[..|a + b| - 1] == a + b[..|b| - 1];
    }
  }

  // -------------------------------------------------------------------- batching

  function Flatten<T>(batches: seq<seq<T>>): seq<T> {
    if batches == [] then [] else Flatten(batches[..|batches| - 1]) + batches[|batches| - 1]
  }

  lemma FlattenPush<T>(batches: seq<seq<T>>, batch: seq<T>)
    ensures Flatten(batches + [batch]) == Flatten(batches) + batch
  {
    assert (batches + [batch])[..|batches|] == batches;
  }

  /** `uploadOnce`: full batches of 100 in the order of the players, then what is
      left over. */
  method UploadOnce(players: seq<Player>) returns (batches: seq<seq<Player>>)
    ensures Flatten(batches) == players
    ensures forall i | 0 <= i < |batches| :: 1 <= |batches[i]| <= 100
    ensures forall i | 0 <= i < |batches| - 1 :: |batches[i]| == 100
  {
    batches := [];
    if players == [] { return; }
    var batch: seq<Player> := [];
    for n := 0 to |players|
      invariant Flatten(batches) + batch == players[..n]
      invariant |batch| < 100
      invariant forall i | 0 <= i < |batches| :: |batches[i]| == 100
    {
      batch := batch + [players[n]];
      assert players[..n + 1] == players[..n] + [players[n]];
      if |batch| >= 100 {
        FlattenPush(batches, batch);
        batches := batches + [batch];
        batch := [];
      }
    }
    assert players[..|players|] == players;
    if |batch| > 0 {
      FlattenPush(batches, batch);
      batches := batches + [batch];
    }
  }

  /** Batches sent one by one; those not delivered leave the table alone. */
  function IngestBatches(t: Table, universe: string, batches: seq<seq<Player>>, delivered: nat -> bool): Table {
    if batches == [] then t
    else
      var n := |batches| - 1;
      var before := IngestBatches(t, universe, batches[..n], delivered);
      if delivered(n) then IngestAll(before, universe, batches[n]) else before
  }

  function Delivered(batches: seq<seq<Player>>, delivered: nat -> bool): seq<Player> {
    if batches == [] then []
    else
      var n := |batches| - 1;
      Delivered(batches[..n], delivered) + if delivered(n) then batches[n] else []
  }

  /** However a player list is cut into batches and whichever of them arrive, the
      table is the one of a single pass over the players that arrived. */
  lemma {:induction false} BatchingDoesNotChangeTheTable(t: Table, universe: string, batches: seq<seq<Player>>,
                                                         delivered: nat -> bool)
    ensures IngestBatches(t, universe, batches, delivered) == IngestAll(t, universe, Delivered(batches, delivered))
    ensures (forall i: nat | i < |batches| :: delivered(i)) ==> Delivered(batches, delivered) == Flatten(batches)
  {
    if batches != [] {
      var n := |batches| - 1;
      BatchingDoesNotChangeTheTable(t, universe, batches[..n], delivered);
      IngestConcat(t, universe, Delivered(batches[..n], delivered), batches[n]);
      assert !delivered(n) ==> Delivered(batches, delivered) == Delivered(batches[..n], delivered);
    }
  }

  // ------------------------------------------------------------------ the webhook

  datatype IngestError = NoPlayers | TooManyPlayers | NotRegistered | Unauthorized | RateLimited | DatabaseFailed

  /** `constant_time_eq`. */
  method ConstantTimeEq(a: seq<bv8>, b: seq<bv8>) returns (equal: bool)
    ensures equal <==> a == b
  {
    if |a| != |b| { return false; }
    var diff: bv8 := 0;
    for i := 0 to |a|
      invariant diff == 0 <==> a[..i] == b[..i]
    {
      DifferenceAccumulates(diff, a[i], b[i]);
      assert a[..i + 1] == a[..i] + [a[i]] && b[..i + 1] == b[..i] + [b[i]];
      diff := diff | (a[i] ^ b[i]);
    }
    assert a[..|a|] == a && b[..|b|] == b;
    return diff == 0;
  }

  lemma DifferenceAccumulates(d: bv8, x: bv8, y: bv8)
    ensures (d | (x ^ y)) == 0 <==> d == 0 && x == y
  {
  }

  class StatsTable {
    var table: Table

    constructor ()
      ensures table == map[]
    {
      table := map[];
    }

    /** `ingest_stats`. `secrets` are those of the universe's push registrations,
        None if they could not be read; `admitted`: the rate limiter lets the
        request pass; `dbOk`: the transaction commits. */
    method IngestStats(universe: string, secrets: Option<seq<seq<bv8>>>, provided: seq<bv8>, players: seq<Player>,
                       admitted: bool, dbOk: bool)
      returns (r: Result<seq<string>, IngestError>)
      modifies this
      ensures r ==
        if players == [] then Err(NoPlayers)
        else if |players| > 100 then Err(TooManyPlayers)
        else if secrets.None? then Err(DatabaseFailed)
        else if secrets.value == [] then Err(NotRegistered)
        else if provided !in secrets.value then Err(Unauthorized)
        else if !admitted then Err(RateLimited)
        else if !dbOk then Err(DatabaseFailed)
        else Ok(AcceptedIds(players))
      ensures table == if r.Ok? then IngestAll(old(table), universe, players) else old(table)
    {
      if players == [] { return Err(NoPlayers); }
      if |players| > MAX_PLAYERS_PER_REQUEST { return Err(TooManyPlayers); }
      if secrets.None? { return Err(DatabaseFailed); }
      if secrets.value == [] { return Err(NotRegistered); }
      var anyMatch := AnyMatch(secrets.value, provided);
      if !anyMatch { return Err(Unauthorized); }
      if !admitted { return Err(RateLimited); }
      var tx := table;
      var toSync: seq<string> := [];
      for i := 0 to |players|
        invariant tx == IngestAll(old(table), universe, players[..i])
        invariant toSync == AcceptedIds(players[..i])
        invariant table == old(table)
      {
        var p := players[i];
        assert players[..i + 1][..i] == players[..i];
        if p.userId == "" || p.stats == map[] { continue; }
        tx := Upsert(tx, p.userId, universe, p.stats);
        toSync := toSync + [p.userId];
      }
      assert players[..|players|] == players;
      if !dbOk { return Err(DatabaseFailed); }
      table := tx;
      return Ok(toSync);
    }
  }

  method AnyMatch(secrets: seq<seq<bv8>>, provided: seq<bv8>) returns (any: bool)
    ensures any <==> provided in secrets
  {
    any := false;
    for i := 0 to |secrets|
      invariant any <==> provided in secrets[..i]
    {
      var same := ConstantTimeEq(provided, secrets[i]);
      assert secrets[..i + 1] == secrets[..i] + [secrets[i]];
      any := any || same;
    }
    assert secrets[..|secrets|] == secrets;
  }

  /** What happens to one request on its way. */
  datatype Delivery = Delivery(sent: bool, admitted: bool, dbOk: bool)

  function Arrives(secrets: seq<seq<bv8>>, provided: seq<bv8>, way: nat -> Delivery): nat -> bool {
    (i: nat) => provided in secrets && way(i) == Delivery(true, true, true)
  }

  /** The plugin's whole upload against the webhook: the table is that of one pass
      over the players whose batches arrive, over all of them if all do. */
  method UploadEverything(table: StatsTable, universe: string, secrets: seq<seq<bv8>>, provided: seq<bv8>,
                          players: seq<Player>, way: nat -> Delivery)
    returns (batches: seq<seq<Player>>)
    modifies table
    ensures Flatten(batches) == players
    ensures table.table ==
            IngestAll(old(table.table), universe, Delivered(batches, Arrives(secrets, provided, way)))
    ensures provided in secrets && (forall i: nat | i < |batches| :: way(i) == Delivery(true, true, true)) ==>
              table.table == IngestAll(old(table.table), universe, players)
  {
    batches := UploadOnce(players);
    ghost var arrives := Arrives(secrets, provided, way);
    for i := 0 to |batches|
      invariant table.table == IngestBatches(old(table.table), universe, batches[..i], arrives)
    {
      if way(i).sent {
        var r := table.IngestStats(universe, Some(secrets), provided, batches[i], way(i).admitted, way(i).dbOk);
      }
      assert batches[..i + 1][..i] == batches[..i];
    }
    assert batches[..|batches|] == batches;
    BatchingDoesNotChangeTheTable(old(table.table), universe, batches, arrives);
  }
}
