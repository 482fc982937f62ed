/** The debouncing worker behind configuration changes: which link is due when,
    as a timed state machine over everything the worker does. Times are
    milliseconds. */
module ConfigWorker {
  import opened Wrappers
  import opened RoleStores
  import opened SyncService

  const DEBOUNCE: nat := 5_000
  const HELD_RECHECK: nat := 1_200_000

  type SyncReply = Result<(), AppError>

  /** What the worker does, in order. */
  datatype Entry =
    | Received(key: LinkKey, at: int)
    | Scanned(at: int)
    | Began(key: LinkKey, at: int)
    | Ended(key: LinkKey, reply: SyncReply, at: int)

  datatype State = State(pending: map<LinkKey, int>, ready: set<LinkKey>, busy: Option<LinkKey>, clock: int)

  const START: State := State(map[], {}, None, 0)

  function DueBy(pending: map<LinkKey, int>, now: int): set<LinkKey> {
    set k | k in pending && pending[k] <= now
  }

  /** Events are taken and scans made only between syncs, once the keys of the
      last scan are used up. */
  predicate Allowed(s: State, e: Entry) {
    && e.at >= s.clock
    && match e
       case Received(_, _) => s.busy.None? && s.ready == {}
       case Scanned(_) => s.busy.None? && s.ready == {}
       case Began(k, _) => s.busy.None? && k in s.ready
       case Ended(k, _, _) => s.busy == Some(k)
  }

  function Next(s: State, e: Entry): State {
    match e
    case Received(k, at) => s.(pending := s.pending[k := at + 5_000], clock := at)
    case Scanned(at) => s.(ready := DueBy(s.pending, at), clock := at)
    case Began(k, at) => State(s.pending - {k}, s.ready - {k}, Some(k), at)
    case Ended(k, reply, at) =>
      var rebook := reply == Err(RemovalHeld) && k !in s.pending;
      s.(pending := if rebook then s.pending[k := at + HELD_RECHECK] else s.pending, busy := None, clock := at)
  }

  function Exec(log: seq<Entry>): State {
    if log == [] then START else Next(Exec(log[..|log| - 1]), log[|log| - 1])
  }

  ghost predicate Legal(log: seq<Entry>) {
    log == [] || (Legal(log[..|log| - 1]) && Allowed(Exec(log[..|log| - 1]), log[|log| - 1]))
  }

  lemma ExecPush(log: seq<Entry>, e: Entry)
    ensures Exec(log + [e]) == Next(Exec(log), e)
    ensures Legal(log + [e]) <==> Legal(log) && Allowed(Exec(log), e)
  {
    assert (log + [e])[..|log|] == log;
  }

  lemma {:induction false} PrefixLegal(log: seq<Entry>, n: nat)
    requires Legal(log) && n <= |log|
    ensures Legal(log[..n])
    ensures n < |log| ==> Allowed(Exec(log[..n]), log[n]) && Exec(log[..n + 1]) == Next(Exec(log[..n]), log[n])
  {
    if n < |log| - 1 {
      PrefixLegal(log[..|log| - 1], n);
      assert log[..|log| - 1][..n] == log[..n] && log[..|log| - 1][..n + 1] == log[..n + 1];
    } else if n == |log| {
      assert log[..n] == log;
    } else {
      assert log[..n + 1] == log;
    }
  }

  // ----------------------------------------------------- what is pending, and why

  /** An event books its link for 5 s later, a held sync for 20 minutes later. */
  predicate Books(e: Entry, k: LinkKey, due: int) {
    e == Received(k, due - 5_000) || e == Ended(k, Err(RemovalHeld), due - 1_200_000)
  }

  /** An entry that takes back or replaces an earlier booking of the link. */
  predicate Supersedes(e: Entry, k: LinkKey) {
    match e
    case Received(k', _) => k == k'
    case Began(k', _) => k == k'
    case _ => false
  }

  /** Entry `i` books the link for `due` and nothing has superseded it since. */
  ghost predicate BookedBy(log: seq<Entry>, i: nat, k: LinkKey, due: int) {
    i < |log| && Books(log[i], k, due) && forall j | i < j < |log| :: !Supersedes(log[j], k)
  }

  /** The shape of every reachable state. */
  ghost predicate Shape(s: State) {
    && (forall k | k in s.ready :: k in s.pending && s.pending[k] <= s.clock)
    && (s.busy.Some? ==> s.busy.value !in s.pending)
  }

  lemma {:induction false} ReachableShape(log: seq<Entry>)
    requires Legal(log)
    ensures Shape(Exec(log))
  {
    if log != [] { ReachableShape(log[..|log| - 1]); }
  }

  lemma BookedByPush(log: seq<Entry>, e: Entry, i: nat, k: LinkKey, due: int)
    requires i < |log|
    ensures BookedBy(log + [e], i, k, due) <==> BookedBy(log, i, k, due) && !Supersedes(e, k)
  {
    var next := log + [e];
    if BookedBy(next, i, k, due) {
      assert next[|log|] == e;
      forall j | i < j < |log| ensures !Supersedes(log[j], k) { assert next[j] == log[j]; }
    }
  }

  /** A running link has no live booking: its start superseded it. */
  lemma BusyIsNotBooked(log: seq<Entry>, i: nat, k: LinkKey, due: int)
    requires Legal(log) && Exec(log).busy == Some(k)
    ensures !BookedBy(log, i, k, due)
  {
    var n := |log| - 1;
    var front, e := log[..n], log[n];
    assert log == front + [e];
    if i < n { BookedByPush(front, e, i, k, due); }
  }

  /** At every point of every run: a link is pending for an instant exactly when
      its last event, or a held sync after it, booked that instant and no sync of
      it has started since. So nothing pending is ever dropped. */
  lemma {:induction false} PendingMeaning(log: seq<Entry>, k: LinkKey, due: int)
    requires Legal(log)
    ensures (k in Exec(log).pending && Exec(log).pending[k] == due) <==> exists i: nat :: BookedBy(log, i, k, due)
  {
    if log != [] {
      var n := |log| - 1;
      var front, e := log[..n], log[n];
      assert log == front + [e];
      PendingMeaning(front, k, due);
      ReachableShape(front);
      var s := Exec(front);
      assert BookedBy(log, n, k, due) <==> Books(e, k, due);
      if i: nat :| BookedBy(log, i, k, due) {
        if i < n { BookedByPush(front, e, i, k, due); }
        if i < n && e.Ended? && e.key == k { BusyIsNotBooked(front, i, k, due); }
      }
      if i: nat :| BookedBy(front, i, k, due) { BookedByPush(front, e, i, k, due); }
    }
  }

  /** A held write always books its re-check: the link is never pending then. */
  lemma HeldAlwaysBooksRecheck(log: seq<Entry>, k: LinkKey, at: int)
    requires Legal(log) && Allowed(Exec(log), Ended(k, Err(RemovalHeld), at))
    ensures k !in Exec(log).pending
    ensures Exec(log + [Ended(k, Err(RemovalHeld), at)]).pending == Exec(log).pending[k := at + 1_200_000]
  {
    ReachableShape(log);
    ExecPush(log, Ended(k, Err(RemovalHeld), at));
  }

  // ------------------------------------------------------------ no event is lost

  /** The latest booking not superseded, from an event on. */
  lemma {:induction false} EventAnswered(log: seq<Entry>, i: nat)
    requires Legal(log) && i < |log| && log[i].Received?
    ensures var k, t := log[i].key, log[i].at;
      || (k in Exec(log).pending && Exec(log).pending[k] >= t + 5_000)
      || exists j :: i < j < |log| && log[j].Began? && log[j].key == k && log[j].at >= t + 5_000
  {
    var k, t := log[i].key, log[i].at;
    var n := |log| - 1;
    var front, e := log[..n], log[n];
    ReachableShape(front);
    if i < n {
      EventAnswered(front, i);
      ClockPassesEntries(front, i);
      if k in Exec(front).pending && Exec(front).pending[k] >= t + 5_000 {
        if e.Began? && e.key == k { assert log[n] == e; }
      } else {
        var j :| i < j < |front| && front[j].Began? && front[j].key == k && front[j].at >= t + 5_000;
        assert log[j] == front[j];
      }
    }
  }

  lemma {:induction false} ClockPassesEntries(log: seq<Entry>, i: nat)
    requires Legal(log) && i < |log|
    ensures log[i].at <= Exec(log).clock
  {
    if i < |log| - 1 { ClockPassesEntries(log[..|log| - 1], i); }
  }

  /** A sync starts only when the link's last event is a debounce old and nothing
      was started for it, or as the re-check of a held sync that no newer event
      has overtaken. */
  lemma StartsAreJustified(log: seq<Entry>, j: nat)
    requires Legal(log) && j < |log| && log[j].Began?
    ensures exists i: nat, due ::
      && i < j && Books(log[i], log[j].key, due) && due <= log[j].at
      && forall l | i < l < j :: !Supersedes(log[l], log[j].key)
  {
    var k := log[j].key;
    PrefixLegal(log, j);
    var front := log[..j];
    ReachableShape(front);
    PendingMeaning(front, k, Exec(front).pending[k]);
    var due := Exec(front).pending[k];
    var i: nat :| BookedBy(front, i, k, due);
    assert Books(log[i], k, due);
    forall l | i < l < j ensures !Supersedes(log[l], k) { assert log[l] == front[l]; }
  }

  // -------------------------------------------------------- when a re-check comes

  /** Between a scan that finds a link due and the next scan, its sync starts. */
  lemma {:induction false} ReadyIsServedBeforeNextScan(log: seq<Entry>, m: nat, k: LinkKey)
    requires Legal(log) && m < |log| && log[m].Scanned? && k in Exec(log[..m + 1]).ready
    requires forall l | m < l < |log| :: !(log[l].Began? && log[l].key == k)
    ensures k in Exec(log).ready
    ensures forall l | m < l < |log| :: !log[l].Scanned? && !log[l].Received?
  {
    var n := |log| - 1;
    if m == n {
      assert log[..m + 1] == log;
    } else {
      assert log[..n][..m + 1] == log[..m + 1];
      ReadyIsServedBeforeNextScan(log[..n], m, k);
      forall l | m < l < |log| ensures !log[l].Scanned? && !log[l].Received? {
        if l < n { assert log[l] == log[..n][l]; }
      }
    }
  }

  lemma NotReadyTwice(log: seq<Entry>, l: nat, m: nat, k: LinkKey)
    requires Legal(log) && l < m < |log| && log[l].Scanned? && log[m].Scanned?
    requires forall x | l < x < m :: !(log[x].Began? && log[x].key == k)
    ensures k !in Exec(log[..l + 1]).ready
  {
    if k in Exec(log[..l + 1]).ready {
      PrefixLegal(log, m);
      assert log[..m][..l + 1] == log[..l + 1];
      ReadyIsServedBeforeNextScan(log[..m], l, k);
      assert false;
    }
  }

  /** With nothing superseding the booking, be it an event's or a held sync's, the
      link's sync belongs to the first scan at or past the booked instant. */
  lemma SyncComesWithFirstDueScan(log: seq<Entry>, i: nat, j: nat, due: int)
    returns (m: nat)
    requires Legal(log) && i < j < |log|
    requires log[j].Began? && Books(log[i], log[j].key, due)
    requires forall l | i < l < j :: !Supersedes(log[l], log[j].key)
    ensures i < m < j && log[m].Scanned? && log[m].at >= due
    ensures forall l | i < l < m && log[l].Scanned? :: log[l].at < due
    ensures forall l | m < l < j :: !log[l].Scanned? && !log[l].Received?
  {
    var k := log[j].key;
    m := LastScan(log, i, j);
    forall l | i < l <= j ensures k in Exec(log[..l]).pending && Exec(log[..l]).pending[k] == due {
      BookingStands(log, i, l, k, due);
    }
    PrefixLegal(log, m);
    assert log[m].at >= due by {
      assert k in Exec(log[..m + 1]).ready;
    }
    forall l | i < l < m && log[l].Scanned? ensures log[l].at < due {
      PrefixLegal(log, l);
      NotReadyTwice(log, l, m, k);
      assert k !in Exec(log[..l + 1]).ready;
    }
    PrefixLegal(log, j);
    assert log[..j][..m + 1] == log[..m + 1];
    ReadyIsServedBeforeNextScan(log[..j], m, k);
    forall l | m < l < j ensures !log[l].Scanned? && !log[l].Received? { assert log[l] == log[..j][l]; }
  }

  lemma BookingStands(log: seq<Entry>, i: nat, l: nat, k: LinkKey, due: int)
    requires Legal(log) && i < l <= |log| && Books(log[i], k, due)
    requires forall x | i < x < l :: !Supersedes(log[x], k)
    ensures k in Exec(log[..l]).pending && Exec(log[..l]).pending[k] == due
  {
    PrefixLegal(log, l);
    var front := log[..l];
    assert BookedBy(front, i, k, due);
    PendingMeaning(front, k, due);
  }

  /** The scan that made the link of a start ready. */
  lemma {:induction false} LastScan(log: seq<Entry>, i: nat, j: nat)
    returns (m: nat)
    requires Legal(log) && i < j < |log|
    requires log[j].Began? && exists due :: Books(log[i], log[j].key, due)
    requires forall l | i < l < j :: !Supersedes(log[l], log[j].key)
    ensures i < m < j && log[m].Scanned? && log[j].key in Exec(log[..m + 1]).ready
  {
    var k := log[j].key;
    PrefixLegal(log, i);
    ReachableShape(log[..i]);
    PrefixLegal(log, j);
    assert k !in Exec(log[..i + 1]).ready;
    m := FirstReady(log, i + 1, j, k);
  }

  lemma {:induction false} FirstReady(log: seq<Entry>, a: nat, b: nat, k: LinkKey) returns (m: nat)
    requires Legal(log) && a <= b <= |log|
    requires k !in Exec(log[..a]).ready && k in Exec(log[..b]).ready
    ensures a <= m < b && log[m].Scanned? && k in Exec(log[..m + 1]).ready
    decreases b - a
  {
    PrefixLegal(log, a);
    if k in Exec(log[..a + 1]).ready { m := a; } else { m := FirstReady(log, a + 1, b, k); }
  }

  // ------------------------------------------------------------------- the worker

  /** One iteration: the events taken with the time before each, the time before
      the scan, and what each sync answers and how long it takes. */
  datatype Turn = Turn(events: seq<(LinkKey, nat)>, wait: nat, sync: LinkKey -> (SyncReply, nat))

  function EventClock(clock: int, events: seq<(LinkKey, nat)>): int
    decreases |events|
  {
    if events == [] then clock else EventClock(clock, events[..|events| - 1]) + events[|events| - 1].1
  }

  function EventEntries(clock: int, events: seq<(LinkKey, nat)>): seq<Entry>
    decreases |events|
  {
    if events == [] then []
    else
      EventEntries(clock, events[..|events| - 1]) + [Received(events[|events| - 1].0, EventClock(clock, events))]
  }

  function SyncClock(clock: int, order: seq<LinkKey>, sync: LinkKey -> (SyncReply, nat)): int
    decreases |order|
  {
    if order == [] then clock else SyncClock(clock, order[..|order| - 1], sync) + sync(order[|order| - 1]).1
  }

  function SyncEntries(clock: int, order: seq<LinkKey>, sync: LinkKey -> (SyncReply, nat)): seq<Entry>
    decreases |order|
  {
    if order == [] then []
    else
      var k := order[|order| - 1];
      SyncEntries(clock, order[..|order| - 1], sync)
      + [Began(k, SyncClock(clock, order[..|order| - 1], sync)), Ended(k, sync(k).0, SyncClock(clock, order, sync))]
  }

  lemma SyncEntriesPush(clock: int, order: seq<LinkKey>, k: LinkKey, sync: LinkKey -> (SyncReply, nat))
    ensures var now := SyncClock(clock, order, sync);
      && SyncClock(clock, order + [k], sync) == now + sync(k).1
      && SyncEntries(clock, order + [k], sync) ==
           SyncEntries(clock, order, sync) + [Began(k, now), Ended(k, sync(k).0, now + sync(k).1)]
  {
    assert (order + [k])[..|order|] == order;
  }

  /** Two entries for each link served; the `i`th starts when those before it are
      through. */
  lemma {:induction false} ServedAt(clock: int, order: seq<LinkKey>, sync: LinkKey -> (SyncReply, nat), i: nat)
    requires i < |order|
    ensures var es := SyncEntries(clock, order, sync);
      && |es| == 2 * |order|
      && es[2 * i] == Began(order[i], SyncClock(clock, order[..i], sync))
      && forall x | 0 <= x < |es| :: es[x].Began? || es[x].Ended?
    decreases |order|
  {
    var n := |order| - 1;
    if i < n {
      ServedAt(clock, order[..n], sync, i);
      assert order[..n][..i] == order[..i];
    } else if n > 0 {
      ServedAt(clock, order[..n], sync, 0);
    }
  }

  lemma {:induction false} EventEntriesAreReceived(clock: int, events: seq<(LinkKey, nat)>)
    ensures var es := EventEntries(clock, events);
      |es| == |events| && forall x | 0 <= x < |es| :: es[x].Received?
    decreases |events|
  {
    if events != [] { EventEntriesAreReceived(clock, events[..|events| - 1]); }
  }

  lemma TimesIncrease(log: seq<Entry>, i: nat, j: nat)
    requires Legal(log) && i < j < |log|
    ensures log[i].at <= log[j].at
  {
    PrefixLegal(log, j);
    ClockPassesEntries(log[..j], i);
  }

  /** Two iterations in a row: the syncs of the first scan, at `p`, then the events
      and the second scan, whose syncs begin. */
  function TwoScans(p: int, order: seq<LinkKey>, sync: LinkKey -> (SyncReply, nat), next: Turn): seq<Entry> {
    var after := SyncClock(p, order, sync);
    [Scanned(p)] + SyncEntries(p, order, sync) + EventEntries(after, next.events)
    + [Scanned(SecondScan(p, order, sync, next))]
  }

  function SecondScan(p: int, order: seq<LinkKey>, sync: LinkKey -> (SyncReply, nat), next: Turn): int {
    EventClock(SyncClock(p, order, sync), next.events) + next.wait
  }

  lemma SecondScanIsLast(p: int, order: seq<LinkKey>, sync: LinkKey -> (SyncReply, nat), next: Turn)
    ensures var es := TwoScans(p, order, sync, next);
      && |es| >= 2 && es[0] == Scanned(p) && es[|es| - 1] == Scanned(SecondScan(p, order, sync, next))
      && forall x | 0 < x < |es| - 1 :: !es[x].Scanned?
  {
    EventEntriesAreReceived(SyncClock(p, order, sync), next.events);
    if order != [] { ServedAt(p, order, sync, 0); }
  }

  /** Where the two scans and the `i`th sync after them stand in the log. */
  lemma ScansBefore(front: seq<Entry>, p: int, order: seq<LinkKey>, sync: LinkKey -> (SyncReply, nat),
                    next: Turn, served: seq<LinkKey>, i: nat)
    returns (j: nat, last: nat)
    requires i < |served|
    ensures var now := SecondScan(p, order, sync, next);
      var log := front + TwoScans(p, order, sync, next) + SyncEntries(now, served, next.sync);
      && j == |front| + |TwoScans(p, order, sync, next)| + 2 * i < |log|
      && log[j] == Began(served[i], SyncClock(now, served[..i], next.sync))
      && |front| < last < j && log[|front|] == Scanned(p) && log[last] == Scanned(now)
      && (forall l | |front| < l < last :: !log[l].Scanned?)
      && (forall l | last < l < j :: !log[l].Scanned?)
  {
    var two := TwoScans(p, order, sync, next);
    var now := SecondScan(p, order, sync, next);
    var es := SyncEntries(now, served, next.sync);
    var log := front + two + es;
    SecondScanIsLast(p, order, sync, next);
    ServedAt(now, served, next.sync, i);
    j, last := |front| + |two| + 2 * i, |front| + |two| - 1;
    assert log[j] == es[2 * i];
    forall l | |front| <= l <= last ensures log[l] == two[l - |front|] {}
    forall l | last < l < j ensures log[l] == es[l - |front| - |two|] {}
  }

  /** A booked sync starts as the `i`th after a scan: the scan before came too early
      for it, so it is less late than the time from that scan on, that is the
      syncs of one pass, the events and the wait after them, and the syncs served
      first. If these take no more than 40 minutes, a re-check is inside the hour. */
  lemma LatenessIsBounded(front: seq<Entry>, p: int, order: seq<LinkKey>, sync: LinkKey -> (SyncReply, nat),
                          next: Turn, served: seq<LinkKey>, i: nat, h: nat, due: int)
    requires i < |served|
    requires var log := front + TwoScans(p, order, sync, next)
                        + SyncEntries(SecondScan(p, order, sync, next), served, next.sync);
      var j := |front| + |TwoScans(p, order, sync, next)| + 2 * i;
      && Legal(log) && h < j < |log|
      && Books(log[h], served[i], due)
      && forall l | h < l < j :: !Supersedes(log[l], served[i])
    ensures var log := front + TwoScans(p, order, sync, next)
                       + SyncEntries(SecondScan(p, order, sync, next), served, next.sync);
      var begins := SyncClock(SecondScan(p, order, sync, next), served[..i], next.sync);
      && log[|front| + |TwoScans(p, order, sync, next)| + 2 * i] == Began(served[i], begins)
      && p < due <= begins
      && (log[h].Ended? && begins - p <= 2_400_000 ==> begins < log[h].at + 3_600_000)
  {
    var log := front + TwoScans(p, order, sync, next)
               + SyncEntries(SecondScan(p, order, sync, next), served, next.sync);
    var j, last := ScansBefore(front, p, order, sync, next, served, i);
    var m := SyncComesWithFirstDueScan(log, h, j, due);
    assert m == last;
    TimesIncrease(log, m, j);
    if h > |front| { TimesIncrease(log, |front|, h); }
  }

  /** The links of the events received, in order. */
  function ReceivedKeys(log: seq<Entry>): seq<LinkKey> {
    if log == [] then []
    else
      var e := log[|log| - 1];
      ReceivedKeys(log[..|log| - 1]) + if e.Received? then [e.key] else []
  }

  function EventKeys(events: seq<(LinkKey, nat)>): seq<LinkKey> {
    seq(|events|, i requires 0 <= i < |events| => events[i].0)
  }

  function SentKeys(turns: seq<Turn>): seq<LinkKey> {
    if turns == [] then []
    else
      SentKeys(turns[..|turns| - 1]) + EventKeys(turns[|turns| - 1].events)
  }

  lemma {:induction false} ReceivedKeysConcat(a: seq<Entry>, b: seq<Entry>)
    ensures ReceivedKeys(a + b) == ReceivedKeys(a) + ReceivedKeys(b)
  {
    if b == [] {
      assert a + b == a;
    } else {
      ReceivedKeysConcat(a, b[..|b| - 1]);
      assert (a + b)[..|a + b| - 1] == a + b[..|b| - 1];
    }
  }

  lemma {:induction false} EventsAreReceived(clock: int, events: seq<(LinkKey, nat)>)
    ensures ReceivedKeys(EventEntries(clock, events)) == EventKeys(events)
    decreases |events|
  {
    if events != [] {
      var front := EventEntries(clock, events[..|events| - 1]);
      EventsAreReceived(clock, events[..|events| - 1]);
      assert EventEntries(clock, events)[..|front|] == front;
    }
  }

  lemma {:induction false} SyncsReceiveNothing(clock: int, order: seq<LinkKey>, sync: LinkKey -> (SyncReply, nat))
    ensures ReceivedKeys(SyncEntries(clock, order, sync)) == []
    decreases |order|
  {
    if order != [] {
      var k, front := order[|order| - 1], order[..|order| - 1];
      SyncsReceiveNothing(clock, front, sync);
      var began, ended := Began(k, SyncClock(clock, front, sync)), Ended(k, sync(k).0, SyncClock(clock, order, sync));
      ReceivedKeysConcat(SyncEntries(clock, front, sync), [began, ended]);
      ReceivedKeysConcat([began], [ended]);
      assert [began] + [ended] == [began, ended];
      assert ReceivedKeys([began]) == ReceivedKeys([ended]) == [];
    }
  }

  lemma TurnReceives(before: seq<Entry>, clock: int, t: Turn, order: seq<LinkKey>)
    ensures var now := EventClock(clock, t.events) + t.wait;
      ReceivedKeys(before + EventEntries(clock, t.events) + [Scanned(now)] + SyncEntries(now, order, t.sync)) ==
      ReceivedKeys(before) + EventKeys(t.events)
  {
    var now := EventClock(clock, t.events) + t.wait;
    var taken := before + EventEntries(clock, t.events);
    ReceivedKeysConcat(before, EventEntries(clock, t.events));
    EventsAreReceived(clock, t.events);
    ReceivedKeysConcat(taken, [Scanned(now)]);
    ReceivedKeysConcat(taken + [Scanned(now)], SyncEntries(now, order, t.sync));
    SyncsReceiveNothing(now, order, t.sync);
  }

  class Worker {
    var pending: map<LinkKey, int>
    var clock: int
    ghost var log: seq<Entry>

    /** The fields are what the log says, between two iterations. */
    ghost predicate Valid()
      reads this
    {
      Legal(log) && Exec(log) == State(pending, {}, None, clock)
    }

    constructor ()
      ensures Valid() && log == [] && pending == map[]
    {
      pending, clock, log := map[], 0, [];
    }

    /** One pass of the loop. `order` is the order in which the hash map yielded
        the due links. */
    method RunTurn(t: Turn) returns (ghost order: seq<LinkKey>)
      requires Valid()
      modifies this
      ensures Valid()
      ensures var taken := old(log) + EventEntries(old(clock), t.events);
        var now := EventClock(old(clock), t.events) + t.wait;
        && log == taken + [Scanned(now)] + SyncEntries(now, order, t.sync)
        && (forall k :: k in order <==> k in DueBy(Exec(taken).pending, now))
      ensures old(log) <= log && ReceivedKeys(log) == ReceivedKeys(old(log)) + EventKeys(t.events)
    {
      ghost var before, start := log, clock;
      TakeEvents(t.events);
      var ready := Scan(t.wait);
      order := ServeReady(ready, t.sync);
      TurnReceives(before, start, t, order);
    }

    /** Which links are due by now. */
    method Scan(wait: nat) returns (ready: set<LinkKey>)
      requires Valid()
      modifies this
      ensures Legal(log) && Exec(log) == State(pending, ready, None, clock)
      ensures pending == old(pending) && clock == old(clock) + wait && log == old(log) + [Scanned(clock)]
      ensures ready == DueBy(pending, clock)
    {
      clock := clock + wait;
      ready := set k | k in pending && pending[k] <= clock;
      ExecPush(log, Scanned(clock));
      log := log + [Scanned(clock)];
    }

    /** Every event in the channel pushes its link back to one debounce from now. */
    method TakeEvents(events: seq<(LinkKey, nat)>)
      requires Valid()
      modifies this
      ensures Valid()
      ensures clock == EventClock(old(clock), events)
      ensures log == old(log) + EventEntries(old(clock), events)
    {
      for i := 0 to |events|
        invariant Valid()
        invariant clock == EventClock(old(clock), events[..i])
        invariant log == old(log) + EventEntries(old(clock), events[..i])
      {
        var (key, gap) := events[i];
        assert events[..i + 1][..i] == events[..i];
        clock := clock + gap;
        pending := pending[key := clock + DEBOUNCE];
        ExecPush(log, Received(key, clock));
        log := log + [Received(key, clock)];
      }
      assert events[..|events|] == events;
    }

    /** Each due link is taken out of `pending` and synced; a held one is booked
        again. */
    method ServeReady(due: set<LinkKey>, sync: LinkKey -> (SyncReply, nat)) returns (ghost order: seq<LinkKey>)
      requires Legal(log) && Exec(log) == State(pending, due, None, clock)
      modifies this
      ensures Valid()
      ensures log == old(log) + SyncEntries(old(clock), order, sync)
      ensures forall k :: k in order <==> k in due
    {
      var ready := due;
      order := [];
      while ready != {}
        invariant Legal(log) && Exec(log) == State(pending, ready, None, clock)
        invariant ready <= due && forall k :: k in order <==> k in due - ready
        invariant clock == SyncClock(old(clock), order, sync)
        invariant log == old(log) + SyncEntries(old(clock), order, sync)
        decreases ready
      {
        var key :| key in ready;
        SyncEntriesPush(old(clock), order, key, sync);
        var (reply, took) := sync(key);
        SyncOne(key, ready, reply, took);
        ready := ready - {key};
        order := order + [key];
      }
    }

    method SyncOne(key: LinkKey, ghost ready: set<LinkKey>, reply: SyncReply, took: nat)
      requires Legal(log) && Exec(log) == State(pending, ready, None, clock) && key in ready
      modifies this
      ensures Legal(log) && Exec(log) == State(pending, ready - {key}, None, clock)
      ensures clock == old(clock) + took
      ensures log == old(log) + [Began(key, old(clock)), Ended(key, reply, clock)]
    {
      pending := pending - {key};
      ExecPush(log, Began(key, clock));
      log := log + [Began(key, clock)];
      clock := clock + took;
      if reply == Err(RemovalHeld) && key !in pending {
        pending := pending[key := clock + HELD_RECHECK];
      }
      ExecPush(log, Ended(key, reply, clock));
      log := log + [Ended(key, reply, clock)];
    }

    /** The loop until the channel closes: every event sent is received, in order,
        and the log stays that of a legal run. */
    method Run(turns: seq<Turn>)
      requires Valid()
      modifies this
      ensures Valid() && old(log) <= log
      ensures ReceivedKeys(log) == ReceivedKeys(old(log)) + SentKeys(turns)
    {
      for i := 0 to |turns|
        invariant Valid() && old(log) <= log
        invariant ReceivedKeys(log) == ReceivedKeys(old(log)) + SentKeys(turns[..i])
      {
        ghost var order := RunTurn(turns[i]);
        assert turns[..i + 1][..i] == turns[..i];
      }
      assert turns[..|turns|] == turns;
    }
  }
}
