/** The Open Cloud poll worker: it takes the due registration polled longest ago,
    reads every linked user's entry and stamps the universe. Times are seconds. */
module PollWorker {
  import opened Wrappers
  import opened Json
  import opened EntryKeys
  import opened StatPaths
  import opened Ingest

  /** A registration with pulling enabled, a key and a DataStore. */
  datatype PullRow = PullRow(
    universe: string,
    interval: nat,
    lastPull: Option<int>,
    template: string,
    fieldMap: seq<(string, Json)>)

  predicate Due(r: PullRow, now: int) {
    r.lastPull.None? || r.lastPull.value + r.interval <= now
  }

  /** ORDER BY last_pull_at NULLS FIRST. */
  predicate NotAfter(a: Option<int>, b: Option<int>) {
    a.None? || (b.Some? && a.value <= b.value)
  }

  /** The update stamps every registration of the universe. */
  function Stamp(rows: seq<PullRow>, universe: string, at: int): seq<PullRow> {
    seq(|rows|, i requires 0 <= i < |rows| =>
      if rows[i].universe == universe then rows[i].(lastPull := Some(at)) else rows[i])
  }

  predicate MayPick(rows: seq<PullRow>, i: nat, now: int) {
    && i < |rows| && Due(rows[i], now)
    && forall j | 0 <= j < |rows| && Due(rows[j], now) :: NotAfter(rows[i].lastPull, rows[j].lastPull)
  }

  /** Due: never pulled, or its interval is over. */
  lemma DueExactlyWhen(r: PullRow, now: int, ago: int)
    requires r.lastPull.Some? ==> ago == now - r.lastPull.value
    ensures Due(r, now) <==> r.lastPull == None || ago >= r.interval
  {
  }

  /** A row never pulled is picked before any other, and then the one pulled longest
      ago. */
  lemma PickedFirst(rows: seq<PullRow>, i: nat, j: nat, now: int)
    requires MayPick(rows, i, now) && j < |rows| && Due(rows[j], now)
    ensures rows[j].lastPull == None ==> rows[i].lastPull == None
    ensures rows[i].lastPull.Some? ==> rows[j].lastPull.Some? && rows[i].lastPull.value <= rows[j].lastPull.value
  {
  }

  /** A stamp sets the time of every registration of the universe and nothing else. */
  lemma StampMeaning(rows: seq<PullRow>, universe: string, at: int, i: nat)
    requires i < |rows|
    ensures var r, t := rows[i], Stamp(rows, universe, at)[i];
      && |Stamp(rows, universe, at)| == |rows|
      && t.universe == r.universe && t.interval == r.interval && t.template == r.template && t.fieldMap == r.fieldMap
      && t.lastPull == if r.universe == universe then Some(at) else r.lastPull
  {
  }

  /** A read of one entry; `Failed`: the read, or storing what it found, failed. */
  datatype ReadReply = Found(raw: Json) | Missing | Failed

  /** The value a poll stores for a user's key, if any. */
  function Polled(row: PullRow, rid: string, entry: string -> ReadReply, key: string): Option<Json> {
    match entry(EntryKey(row.template, rid))
    case Found(raw) => Mapped(raw, row.fieldMap, key)
    case _ => None
  }

  /** The value of a user's key once the entries of `linked` were read: the polled
      one, otherwise the old one. */
  function AfterPoll(t: Table, row: PullRow, linked: seq<string>, entry: string -> ReadReply,
                     rid: string, u: string, key: string): Option<Json>
  {
    var polled := Polled(row, rid, entry, key);
    if u == row.universe && rid in linked && polled.Some? then polled else Value(t, rid, u, key)
  }

  /** One more entry read: a blob stored holds exactly what is polled for the user. */
  lemma AfterOneMore(t: Table, now: Table, row: PullRow, linked: seq<string>, next: string,
                     entry: string -> ReadReply, mapped: map<string, Json>, rid: string, u: string, key: string)
    requires Value(now, rid, u, key) == AfterPoll(t, row, linked, entry, rid, u, key)
    requires Polled(row, next, entry, key) == if key in mapped then Some(mapped[key]) else None
    ensures AfterPoll(t, row, linked + [next], entry, rid, u, key) ==
            Value(if mapped == map[] then now else Upsert(now, next, row.universe, mapped), rid, u, key)
  {
  }

  /** A turn that polled row `index`, picked at `at` and finished at `done`. */
  datatype Pick = Pick(index: nat, at: int, done: int, stamped: bool)

  function AfterPick(rows: seq<PullRow>, p: Pick): seq<PullRow>
    requires p.index < |rows|
  {
    if p.stamped then Stamp(rows, rows[p.index].universe, p.done) else rows
  }

  const MAX_LINKED: nat := 5_000

  /** ORDER BY linked_at LIMIT 5000, over the linked users in that order. */
  function LongestLinked(accounts: seq<string>): seq<string> {
    if |accounts| <= MAX_LINKED then accounts else accounts[..MAX_LINKED]
  }

  /** A linked user is polled exactly when fewer than 5000 linked earlier. */
  lemma PolledExactlyTheLongestLinked(accounts: seq<string>, i: nat)
    requires forall j, k | 0 <= j < k < |accounts| :: accounts[j] != accounts[k]
    requires i < |accounts|
    ensures accounts[i] in LongestLinked(accounts) <==> i < 5_000
  {
    if i < MAX_LINKED { assert LongestLinked(accounts)[i] == accounts[i]; }
  }

  class Worker {
    var rows: seq<PullRow>
    var stats: Table

    constructor (rows: seq<PullRow>)
      ensures this.rows == rows && stats == map[]
    {
      this.rows, stats := rows, map[];
    }

    /** Which row the query returns: some due row with the oldest pull. */
    method SelectDue(now: int) returns (r: Option<nat>)
      ensures r.Some? ==> MayPick(rows, r.value, now)
      ensures r.None? ==> forall i | 0 <= i < |rows| :: !Due(rows[i], now)
    {
      r := None;
      for i := 0 to |rows|
        invariant r.Some? ==> r.value < i && Due(rows[r.value], now)
        invariant r.Some? ==> forall j | 0 <= j < i && Due(rows[j], now) ::
                    NotAfter(rows[r.value].lastPull, rows[j].lastPull)
        invariant r.None? ==> forall j | 0 <= j < i :: !Due(rows[j], now)
      {
        if Due(rows[i], now) && (r.None? || !NotAfter(rows[r.value].lastPull, rows[i].lastPull)) {
          r := Some(i);
        }
      }
    }

    /** One turn of the loop at `now`, finished at `done`. `keyOk`: the stored key
        decrypts. `accounts`: the linked users, longest linked first; None: they
        could not be read, and count as none. `stampOk`: the stamp was written. */
    method PollOnce(now: int, done: int, keyOk: bool, accounts: Option<seq<string>>, entry: string -> ReadReply,
                    stampOk: bool)
      returns (picked: Option<nat>)
      modifies this
      ensures picked.Some? ==> MayPick(old(rows), picked.value, now)
      ensures picked.Some? ==> rows == AfterPick(old(rows), Pick(picked.value, now, done, stampOk))
      ensures picked.None? ==> rows == old(rows) && stats == old(stats)
      ensures picked.Some? ==> forall rid, u, key ::
                Value(stats, rid, u, key) ==
                AfterPoll(old(stats), old(rows)[picked.value],
                          if keyOk then LongestLinked(accounts.GetOr([])) else [], entry, rid, u, key)
    {
      picked := SelectDue(now);
      if picked.None? { return; }
      var row := rows[picked.value];
      if keyOk { var _ := ReadEntries(row, LongestLinked(accounts.GetOr([])), entry); }
      if stampOk { rows := Stamp(rows, row.universe, done); }
    }

    /** The loop over the linked users. */
    method ReadEntries(row: PullRow, linked: seq<string>, entry: string -> ReadReply) returns (updated: nat)
      modifies this`stats
      ensures updated <= |linked|
      ensures forall rid, u, key ::
                Value(stats, rid, u, key) == AfterPoll(old(stats), row, linked, entry, rid, u, key)
    {
      updated := 0;
      for i := 0 to |linked|
        invariant updated <= i
        invariant forall rid, u, key ::
                    Value(stats, rid, u, key) == AfterPoll(old(stats), row, linked[..i], entry, rid, u, key)
      {
        var next := linked[i];
        var reply := entry(EntryKey(row.template, next));
        var mapped: map<string, Json> := map[];
        if reply.Found? { mapped := ApplyFieldMap(reply.raw, row.fieldMap); }
        ghost var before := stats;
        if mapped != map[] {
          stats := Upsert(stats, next, row.universe, mapped);
          updated := updated + 1;
        }
        assert linked[..i + 1] == linked[..i] + [next];
        forall rid, u, key
          ensures Value(stats, rid, u, key) == AfterPoll(old(stats), row, linked[..i + 1], entry, rid, u, key)
        {
          AfterOneMore(old(stats), before, row, linked[..i], next, entry, mapped, rid, u, key);
        }
      }
      assert linked[..|linked|] == linked;
    }
  }

  // -------------------------------------------------------------------- fairness

  /** The picks whose stamp was written. */
  function Stamped(picks: seq<Pick>): nat {
    if picks == [] then 0 else (if picks[0].stamped then 1 else 0) + Stamped(picks[1..])
  }

  /** Successive turns under a strictly increasing clock. */
  ghost predicate Turns(rows: seq<PullRow>, clock: int, picks: seq<Pick>)
    decreases |picks|
  {
    picks == [] ||
    (clock < picks[0].at < picks[0].done && MayPick(rows, picks[0].index, picks[0].at) &&
     Turns(AfterPick(rows, picks[0]), picks[0].done, picks[1..]))
  }

  /** No last pull lies ahead of the clock. */
  ghost predicate PulledBy(rows: seq<PullRow>, clock: int) {
    forall i | 0 <= i < |rows| :: NotAfter(rows[i].lastPull, Some(clock))
  }

  ghost predicate Spares(picks: seq<Pick>, r: nat) {
    forall i | 0 <= i < |picks| :: picks[i].index != r
  }

  ghost predicate DistinctUniverses(rows: seq<PullRow>) {
    forall i, j | 0 <= i < j < |rows| :: rows[i].universe != rows[j].universe
  }

  /** The other rows that may still be polled before row `r`. */
  function Ahead(rows: seq<PullRow>, r: nat): set<nat>
    requires r < |rows|
  {
    set j: nat | j < |rows| && j != r && NotAfter(rows[j].lastPull, rows[r].lastPull)
  }

  /** Each poll of another row takes that row, and no other, out of the way. */
  lemma PickShrinksAhead(rows: seq<PullRow>, r: nat, p: Pick, clock: int)
    requires DistinctUniverses(rows) && r < |rows| && Due(rows[r], p.at) && MayPick(rows, p.index, p.at)
    requires p.index != r && clock < p.at < p.done && p.stamped
    requires PulledBy(rows, clock)
    ensures var next := Stamp(rows, rows[p.index].universe, p.done);
      && Ahead(next, r) == Ahead(rows, r) - {p.index}
      && p.index in Ahead(rows, r)
      && next[r] == rows[r]
      && PulledBy(next, p.done)
  {
    var next := Stamp(rows, rows[p.index].universe, p.done);
    forall i | 0 <= i < |rows| && i != p.index ensures next[i] == rows[i] {
      assert rows[i].universe != rows[p.index].universe;
    }
  }

  /** With distinct universes a due registration waits for at most as many other
      stamped polls as there are other registrations. */
  lemma {:induction false} DueRowIsPolledSoon(rows: seq<PullRow>, clock: int, picks: seq<Pick>, r: nat)
    requires DistinctUniverses(rows) && r < |rows| && Due(rows[r], clock)
    requires PulledBy(rows, clock)
    requires Turns(rows, clock, picks) && Spares(picks, r)
    ensures Stamped(picks) <= |Ahead(rows, r)| <= |rows| - 1
    decreases |picks|
  {
    OthersAreFewer(rows, r);
    if picks != [] {
      var p := picks[0];
      if p.stamped { PickShrinksAhead(rows, r, p, clock); }
      var next := AfterPick(rows, p);
      forall i, j | 0 <= i < j < |next| ensures next[i].universe != next[j].universe {
        assert next[i].universe == rows[i].universe && next[j].universe == rows[j].universe;
      }
      DueRowIsPolledSoon(next, p.done, picks[1..], r);
    }
  }

  function Indices(n: nat): (r: set<nat>)
    ensures forall j :: j in r <==> 0 <= j < n
    ensures |r| == n
  {
    if n == 0 then {} else Indices(n - 1) + {n - 1}
  }

  lemma OthersAreFewer(rows: seq<PullRow>, r: nat)
    requires r < |rows|
    ensures |Ahead(rows, r)| <= |rows| - 1
  {
    var all := Indices(|rows|);
    assert Ahead(rows, r) <= all - {r};
    SubsetSize(Ahead(rows, r), all - {r});
  }

  lemma {:induction false} SubsetSize(a: set<nat>, b: set<nat>)
    requires a <= b
    ensures |a| <= |b|
  {
    if a != {} {
      var x :| x in a;
      SubsetSize(a - {x}, b - {x});
    }
  }

  // ------------------------------------------------------- why universes must differ

  /** A due row is picked after fewer stamped picks of others than there are rows. */
  ghost predicate Fair(rows: seq<PullRow>) {
    forall clock, picks, r: nat |
      r < |rows| && Due(rows[r], clock) && PulledBy(rows, clock) && Turns(rows, clock, picks) && Spares(picks, r) ::
      Stamped(picks) < |rows|
  }

  function WithPulls(rows: seq<PullRow>, pulls: seq<Option<int>>): seq<PullRow>
    requires |pulls| == |rows|
  {
    seq(|rows|, i requires 0 <= i < |rows| => rows[i].(lastPull := pulls[i]))
  }

  /** An instant at which everything is due. */
  function AllDueAt(rows: seq<PullRow>, clock: int): (at: int)
    ensures at > clock && forall i | 0 <= i < |rows| :: Due(rows[i], at)
  {
    if rows == [] then clock + 1
    else
      var n := |rows| - 1;
      var at := AllDueAt(rows[..n], clock);
      assert forall i | 0 <= i < n :: rows[..n][i] == rows[i];
      if rows[n].lastPull.None? || rows[n].lastPull.value + rows[n].interval <= at then at
      else rows[n].lastPull.value + rows[n].interval
  }

  lemma {:induction false} OldestPull(rows: seq<PullRow>) returns (i: nat)
    requires rows != []
    ensures i < |rows| && forall j | 0 <= j < |rows| :: NotAfter(rows[i].lastPull, rows[j].lastPull)
  {
    var n := |rows| - 1;
    i := n;
    if n > 0 {
      var front := OldestPull(rows[..n]);
      assert forall j | 0 <= j < n :: rows[..n][j] == rows[j];
      if NotAfter(rows[front].lastPull, rows[n].lastPull) { i := front; }
    }
  }

  /** A row that shares its universe, and so its stamps, with another can be
      passed over for as long as one likes. */
  lemma {:induction false} SiblingMayBePassedOver(rows: seq<PullRow>, clock: int, a: nat, b: nat, n: nat)
    returns (picks: seq<Pick>)
    requires a < |rows| && b < |rows| && a != b && rows[a].universe == rows[b].universe
    requires rows[a].lastPull == rows[b].lastPull
    ensures Turns(rows, clock, picks) && Stamped(picks) == n && Spares(picks, b)
    decreases n
  {
    picks := [];
    if n > 0 {
      var at := AllDueAt(rows, clock);
      var i := OldestPull(rows);
      if i == b { i := a; }
      var next := Stamp(rows, rows[i].universe, at + 1);
      var rest := SiblingMayBePassedOver(next, at + 1, a, b, n - 1);
      picks := [Pick(i, at, at + 1, true)] + rest;
      assert picks[1..] == rest;
    }
  }

  lemma DistinctIsFair(rows: seq<PullRow>)
    requires DistinctUniverses(rows)
    ensures Fair(rows)
  {
    forall clock, picks, r: nat |
      r < |rows| && Due(rows[r], clock) && PulledBy(rows, clock) && Turns(rows, clock, picks) && Spares(picks, r)
      ensures Stamped(picks) < |rows|
    {
      DueRowIsPolledSoon(rows, clock, picks, r);
    }
  }

  /** Polling is fair, whatever was pulled when, exactly when no two
      registrations share a universe. */
  lemma FairExactlyForDistinctUniverses(rows: seq<PullRow>)
    ensures DistinctUniverses(rows) <==>
            forall pulls: seq<Option<int>> | |pulls| == |rows| :: Fair(WithPulls(rows, pulls))
  {
    if DistinctUniverses(rows) {
      forall pulls: seq<Option<int>> | |pulls| == |rows| ensures Fair(WithPulls(rows, pulls)) {
        DistinctIsFair(WithPulls(rows, pulls));
      }
    } else {
      var a, b :| 0 <= a < b < |rows| && rows[a].universe == rows[b].universe;
      var pulls := seq(|rows|, _ => None);
      var unpulled := WithPulls(rows, pulls);
      var picks := SiblingMayBePassedOver(unpulled, 0, a, b, |rows|);
      assert Due(unpulled[b], 0) && PulledBy(unpulled, 0);
      assert !Fair(unpulled);
    }
  }

  /** Two guilds registered the same universe; the first polls more often. */
  function Siblings(universe: string, short: nat, long: nat, last: int): seq<PullRow> {
    [PullRow(universe, short, Some(last), PLACEHOLDER, []), PullRow(universe, long, Some(last), PLACEHOLDER, [])]
  }

  function SiblingPicks(short: nat, last: int, n: nat): seq<Pick>
    requires short > 0
    decreases n
  {
    if n == 0 then []
    else [Pick(0, last + short, last + short + 1, true)] + SiblingPicks(short, last + short + 1, n - 1)
  }

  /** However long the worker runs, it polls the first sibling the moment it is
      due and never the second: each poll stamps both. */
  lemma {:induction false} LongerIntervalSiblingStarves(universe: string, short: nat, long: nat, last: int, n: nat)
    requires 0 < short < long
    ensures Turns(Siblings(universe, short, long, last), last, SiblingPicks(short, last, n))
    ensures |SiblingPicks(short, last, n)| == n
    ensures forall i | 0 <= i < n :: SiblingPicks(short, last, n)[i].index == 0
                                     && SiblingPicks(short, last, n)[i].at >= last + i
    decreases n
  {
    if n > 0 {
      var rows := Siblings(universe, short, long, last);
      var done := last + short + 1;
      LongerIntervalSiblingStarves(universe, short, long, done, n - 1);
      assert Stamp(rows, universe, done) == Siblings(universe, short, long, done);
      assert SiblingPicks(short, last, n)[1..] == SiblingPicks(short, done, n - 1);
    }
  }

  /** No run that polls the first sibling within the second's interval ever polls
      the second, whatever else is registered. */
  lemma {:induction false} SiblingIsNeverPolled(rows: seq<PullRow>, clock: int, picks: seq<Pick>, a: nat, b: nat)
    requires a < |rows| && b < |rows| && a != b && rows[a].universe == rows[b].universe
    requires Turns(rows, clock, picks) && rows[b].lastPull.Some? && rows[b].lastPull.value <= clock
    requires Prompt(rows[b].lastPull.value, rows[b].interval, picks, a)
    ensures Spares(picks, b)
    decreases |picks|
  {
    if picks != [] {
      var p := picks[0];
      var next := AfterPick(rows, p);
      assert p.index != b;
      PromptAfterPick(rows, p, picks, a, b);
      SiblingIsNeverPolled(next, p.done, picks[1..], a, b);
      forall i | 0 <= i < |picks| ensures picks[i].index != b {
        if i > 0 { assert picks[i] == picks[1..][i - 1]; }
      }
    }
  }

  /** Every pick comes before the last stamped poll of row `a` is an interval old. */
  ghost predicate Prompt(last: int, interval: nat, picks: seq<Pick>, a: nat)
    decreases |picks|
  {
    picks == [] ||
    (picks[0].at < last + interval &&
     Prompt(if picks[0].index == a && picks[0].stamped then picks[0].done else last, interval, picks[1..], a))
  }

  /** A later stamp only moves the deadline back. */
  lemma {:induction false} PromptMonotone(last: int, later: int, interval: nat, picks: seq<Pick>, a: nat)
    requires Prompt(last, interval, picks, a) && last <= later
    ensures Prompt(later, interval, picks, a)
    decreases |picks|
  {
    if picks != [] && !(picks[0].index == a && picks[0].stamped) {
      PromptMonotone(last, later, interval, picks[1..], a);
    }
  }

  lemma PromptAfterPick(rows: seq<PullRow>, p: Pick, picks: seq<Pick>, a: nat, b: nat)
    requires a < |rows| && b < |rows| && rows[a].universe == rows[b].universe && rows[b].lastPull.Some?
    requires picks != [] && p == picks[0] && p.index < |rows| && p.at < p.done
    requires rows[b].lastPull.value <= p.done
    requires Prompt(rows[b].lastPull.value, rows[b].interval, picks, a)
    ensures var next := AfterPick(rows, p);
      Prompt(next[b].lastPull.value, next[b].interval, picks[1..], a)
  {
    var last := rows[b].lastPull.value;
    var next := AfterPick(rows, p);
    PromptMonotone(if p.index == a && p.stamped then p.done else last, next[b].lastPull.value, rows[b].interval,
                   picks[1..], a);
  }
}
