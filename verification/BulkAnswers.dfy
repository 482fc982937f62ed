/** What RoleLogic's answers lead to, from the answers alone: the result of a bulk
    sync, the stores it leaves, and the same for one action of a player's sync. */
module BulkAnswers {
  import opened Wrappers
  import opened RoleStores
  import opened SyncService
  import opened SyncTheorems
  import opened PlayerSync
  import opened Database
  import opened Conditions
  import opened ConditionEval
  import opened ConditionSql

  // -------------------------------------------------------------- the calls made

  /** Up to 100,000 users fit one PUT. */
  predicate OneCall(n: int) { n <= 100_000 }

  /** Up to 30,000,000 are uploaded in chunks of 100,000. */
  predicate Uploaded(n: int) { 100_000 < n <= 30_000_000 }

  ghost predicate AllChunksTaken(n: int, replies: Replies) {
    forall i: nat | i * 100_000 < n :: replies.chunk(i) == Accepted
  }

  /** The call that puts the new list in place was made and answered so. */
  ghost predicate SwapAnswered(n: int, replies: Replies, reply: Reply) {
    || (OneCall(n) && replies.put == reply)
    || (Uploaded(n) && replies.start == Accepted && AllChunksTaken(n, replies) && replies.commit == reply)
  }

  /** The first call that names the link was answered so. */
  predicate FirstAnswered(n: int, replies: Replies, reply: Reply) {
    (OneCall(n) && replies.put == reply) || (Uploaded(n) && replies.start == reply)
  }

  lemma ChunksTaken(n: nat, replies: Replies)
    ensures ChunksAccepted(n, replies) <==> AllChunksTaken(n, replies)
  {
    forall i: nat ensures i < ChunkCount(n) <==> i * 100_000 < n {
      assert ChunkCount(n) * 100_000 >= n > (ChunkCount(n) - 1) * 100_000 || n == 0;
    }
  }

  lemma SwapMeaning(n: nat, replies: Replies, reply: Reply)
    ensures SwapReply(n, replies) == Some(reply) <==> SwapAnswered(n, replies, reply)
  {
    ChunksTaken(n, replies);
  }

  // ------------------------------------------------------------------ a bulk sync

  /** A bulk sync's push succeeds if and only if the swap was accepted and the local
      rebuild committed, or the link was reported gone or disabled at once. */
  lemma PushSucceedsExactlyWhen(ids: seq<string>, replies: Replies, dbOk: bool)
    ensures var n := |ids|;
      BulkResult(ids, replies, dbOk) == Ok(()) <==>
      || (SwapAnswered(n, replies, Accepted) && dbOk)
      || FirstAnswered(n, replies, Gone)
      || FirstAnswered(n, replies, Disabled)
  {
    SwapMeaning(|ids|, replies, Accepted);
    ChunksTaken(|ids|, replies);
  }

  /** Which error it answers otherwise. */
  lemma PushFailsExactlyWhen(ids: seq<string>, replies: Replies, dbOk: bool)
    ensures var n, r := |ids|, BulkResult(ids, replies, dbOk);
      && (r == Err(UploadTooLarge) <==> n > 30_000_000)
      && (r == Err(UserLimitReached) <==> SwapAnswered(n, replies, LimitReached))
      && (r == Err(RemovalHeld) <==> SwapAnswered(n, replies, Held))
      && (r == Err(DatabaseFailed) <==> SwapAnswered(n, replies, Accepted) && !dbOk)
      && r != Err(RoleLinkNotFound) && r != Err(RoleLinkDisabled) && r != Err(GatewayFailed)
  {
    SwapMeaning(|ids|, replies, Accepted);
    SwapMeaning(|ids|, replies, LimitReached);
    SwapMeaning(|ids|, replies, Held);
    ChunksTaken(|ids|, replies);
  }

  /** The link is deleted locally if and only if the first call found it gone. */
  lemma LinkDeletedExactlyWhen(s: Stores, k: LinkKey, ids: seq<string>, replies: Replies, dbOk: bool)
    requires k in s.links
    ensures var t := BulkStores(s, k, ids, replies, dbOk);
      && (k !in t.links <==> FirstAnswered(|ids|, replies, Gone) && dbOk)
      && t.links == if FirstAnswered(|ids|, replies, Gone) && dbOk then s.links - {k} else s.links
  {
    ChunksTaken(|ids|, replies);
  }

  /** Who is in the link's list and mirror afterwards. */
  lemma PushedUsers(s: Stores, k: LinkKey, ids: seq<string>, replies: Replies, dbOk: bool, user: string)
    ensures var t, n, a := BulkStores(s, k, ids, replies, dbOk), |ids|, Assignment(k, user);
      && (SwapAnswered(n, replies, Accepted) || SwapAnswered(n, replies, Lost) ==> (a in t.live <==> user in ids))
      && (SwapAnswered(n, replies, Accepted) && dbOk ==> (a in t.mirror <==> user in ids))
      && (FirstAnswered(n, replies, Gone) ==> a !in t.live && (dbOk ==> a !in t.mirror))
      && (!(SwapAnswered(n, replies, Accepted) && dbOk) && !(FirstAnswered(n, replies, Gone) && dbOk) ==>
            (a in t.mirror <==> a in s.mirror))
  {
    SwapMeaning(|ids|, replies, Accepted);
    SwapMeaning(|ids|, replies, Lost);
    ChunksTaken(|ids|, replies);
    PushedCell(s, k, ids, replies, dbOk);
    CellMembership(s, k, user);
    CellMembership(BulkStores(s, k, ids, replies, dbOk), k, user);
  }

  /** A paused link, a full one, a held removal and a list too large leave
      everything as it was. */
  lemma RefusedPushChangesNothing(s: Stores, k: LinkKey, ids: seq<string>, replies: Replies, dbOk: bool)
    requires var n := |ids|;
      || FirstAnswered(n, replies, Disabled)
      || SwapAnswered(n, replies, LimitReached) || SwapAnswered(n, replies, Held)
      || SwapAnswered(n, replies, Disabled) || SwapAnswered(n, replies, Rejected)
      || n > 30_000_000
    ensures BulkStores(s, k, ids, replies, dbOk) == s
  {
    SwapMeaning(|ids|, replies, LimitReached);
    SwapMeaning(|ids|, replies, Held);
    SwapMeaning(|ids|, replies, Disabled);
    SwapMeaning(|ids|, replies, Rejected);
    ChunksTaken(|ids|, replies);
  }

  // -------------------------------------------------------- what a bulk sync pushes

  /** No conditions, or one about a universe that the guild has not registered:
      nobody is granted the role, by either kind of sync. */
  lemma UngrantableLink(db: Db, k: LinkKey, cs: seq<Condition>, reading: Reads, members: Option<seq<string>>,
                        row: UserCacheRow, readable: string -> bool, now: int, pg: Rendering)
    requires cs == [] || exists c :: c in cs && c.universeId.Some? && (k.guild, c.universeId.value) !in db.universes
    ensures Target(db, k, cs, reading, members, now, pg) ==
            if cs == [] || reading.universes then Ok([]) else Err(DatabaseFailed)
    ensures !LinkQualifies(db, row, k, cs, readable, now)
  {
    ReferencedUniversesMembership(cs);
    if cs != [] {
      var c :| c in cs && c.universeId.Some? && (k.guild, c.universeId.value) !in db.universes;
      var i :| 0 <= i < |cs| && cs[i] == c;
      assert cs[i].universeId == Some(c.universeId.value);
      assert c.universeId.value in ReferencedUniverses(cs);
    }
  }

  /** What a bulk sync of any other link needs to read. */
  lemma GrantableLink(db: Db, k: LinkKey, cs: seq<Condition>, reading: Reads, members: Option<seq<string>>, now: int,
                      pg: Rendering)
    requires cs != []
    requires forall c | c in cs && c.universeId.Some? :: (k.guild, c.universeId.value) in db.universes
    ensures var t := Target(db, k, cs, reading, members, now, pg);
      var named := exists c :: c in cs && c.universeId.Some?;
      && (t == Err(GatewayFailed) <==> members.None? && (named ==> reading.universes))
      && (members == Some([]) && (named ==> reading.universes) ==> t == Ok([]))
      && (members.Some? && members.value != [] && reading.rows && reading.universes ==>
            if SomeMemberFails(db, cs, members.value, now, pg) then t == Err(DatabaseFailed)
            else t == Ok(Qualifying(db, cs, db.accounts, members.value, now, pg)))
      && (members.Some? && members.value != [] && !reading.rows ==> t == Err(DatabaseFailed))
      && (named && !reading.universes ==> t == Err(DatabaseFailed))
  {
    ReferencedUniversesMembership(cs);
    forall u | u in ReferencedUniverses(cs) ensures (k.guild, u) in db.universes {
      var i :| 0 <= i < |cs| && cs[i].universeId == Some(u);
      assert cs[i] in cs;
    }
    if c :| c in cs && c.universeId.Some? {
      var i :| 0 <= i < |cs| && cs[i] == c;
      assert cs[i].universeId == Some(c.universeId.value);
      assert c.universeId.value in ReferencedUniverses(cs);
    }
    if ReferencedUniverses(cs) != [] {
      var u := ReferencedUniverses(cs)[0];
      assert u in ReferencedUniverses(cs);
      var i :| 0 <= i < |cs| && cs[i].universeId == Some(u);
      assert cs[i] in cs;
    }
  }

  // ----------------------------------------------------- one action of a player

  /** Who is in list and mirror after both steps of an Add. */
  lemma AddLeaves(s: Stores, k: LinkKey, user: string, o: Outcome, a: Assignment)
    requires k in s.links
    ensures var t := BothSteps(s, Add(k, user), o);
      && (a in t.live <==>
            if a == Assignment(k, user) && (o.reply == Accepted || o.reply == Lost) then true
            else a in s.live && !(a.key == k && o.reply == Gone))
      && (a in t.mirror <==>
            if a == Assignment(k, user) && o == Outcome(Accepted, true) then true
            else a in s.mirror && !(a.key == k && o == Outcome(Gone, true)))
      && t.links == if o == Outcome(Gone, true) then s.links - {k} else s.links
  {
  }

  /** And after both steps of a Remove. */
  lemma RemoveLeaves(s: Stores, k: LinkKey, user: string, o: Outcome, a: Assignment)
    ensures var t := BothSteps(s, Remove(k, user), o);
      && (a in t.live <==>
            a in s.live && !(a == Assignment(k, user) && (o.reply == Accepted || o.reply == Lost))
            && !(a.key == k && o.reply == Gone))
      && (a in t.mirror <==>
            a in s.mirror && !(a == Assignment(k, user) && o == Outcome(Accepted, true))
            && !(a.key == k && o == Outcome(Gone, true)))
      && t.links == if o == Outcome(Gone, true) then s.links - {k} else s.links
  {
  }
}
