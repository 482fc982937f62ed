/** The two places that say who holds a role: RoleLogic's live lists and the
    local `role_assignments` mirror, with the `role_links` the mirror hangs on. */
module RoleStores {
  import opened Wrappers
  import opened Conditions

  datatype LinkKey = LinkKey(guild: string, role: string)

  datatype Assignment = Assignment(key: LinkKey, user: string)

  datatype Stores = Stores(
    live: set<Assignment>,
    mirror: set<Assignment>,
    links: map<LinkKey, seq<Condition>>)
  {
    /** The foreign key of the mirror. */
    ghost predicate Valid() {
      forall a | a in mirror :: a.key in links
    }
  }

  /** RoleLogic's answers. `Held` is a list write waiting for an owner's
      confirmation, `Rejected` any other refusal, `Lost` a call that
      took effect although no usable answer came back. */
  datatype Reply = Accepted | Gone | Disabled | LimitReached | Held | Rejected | Lost

  /** One remote call's reply and whether the local write after it succeeds. */
  datatype Outcome = Outcome(reply: Reply, dbOk: bool)

  datatype Action = Add(key: LinkKey, user: string) | Remove(key: LinkKey, user: string)

  function Without(s: set<Assignment>, k: LinkKey): set<Assignment> {
    set a | a in s && a.key != k
  }

  /** `delete_orphan_role_link`: the cascade clears the link's mirror rows. */
  function DeleteOrphan(s: Stores, k: LinkKey, dbOk: bool): Stores {
    if dbOk then s.(links := s.links - {k}, mirror := Without(s.mirror, k)) else s
  }

  /** `add_user` or `remove_user`. A link reported as gone has no live list. */
  function RemoteStep(s: Stores, a: Action, reply: Reply): Stores {
    if reply == Accepted || reply == Lost then
      match a
      case Add(k, u) => s.(live := s.live + {Assignment(k, u)})
      case Remove(k, u) => s.(live := s.live - {Assignment(k, u)})
    else if reply == Gone then s.(live := Without(s.live, a.key))
    else s
  }

  /** The local write that follows the reply. */
  function LocalStep(s: Stores, a: Action, o: Outcome): Stores {
    if o.reply == Gone then DeleteOrphan(s, a.key, o.dbOk)
    else if o.reply != Accepted || !o.dbOk then s
    else
      match a
      case Add(k, u) => if k in s.links then s.(mirror := s.mirror + {Assignment(k, u)}) else s
      case Remove(k, u) => s.(mirror := s.mirror - {Assignment(k, u)})
  }

  function BothSteps(s: Stores, a: Action, o: Outcome): Stores {
    LocalStep(RemoteStep(s, a, o.reply), a, o)
  }

  // ------------------------------------------------------ one link's own part

  /** Everything the stores hold about one link. */
  datatype Cell = Cell(live: set<string>, mirror: set<string>, link: Option<seq<Condition>>)

  function UsersOf(s: set<Assignment>, k: LinkKey): set<string> {
    set a | a in s && a.key == k :: a.user
  }

  function CellAt(s: Stores, k: LinkKey): Cell {
    Cell(UsersOf(s.live, k), UsersOf(s.mirror, k), if k in s.links then Some(s.links[k]) else None)
  }

  function RemoteCell(c: Cell, a: Action, reply: Reply): Cell {
    if reply == Accepted || reply == Lost then
      c.(live := if a.Add? then c.live + {a.user} else c.live - {a.user})
    else if reply == Gone then c.(live := {})
    else c
  }

  function LocalCell(c: Cell, a: Action, o: Outcome): Cell {
    if o.reply == Gone then (if o.dbOk then c.(mirror := {}, link := None) else c)
    else if o.reply != Accepted || !o.dbOk then c
    else if a.Remove? then c.(mirror := c.mirror - {a.user})
    else if c.link.Some? then c.(mirror := c.mirror + {a.user})
    else c
  }

  lemma UsersOfMember(s: set<Assignment>, k: LinkKey, u: string)
    ensures u in UsersOf(s, k) <==> Assignment(k, u) in s
  {
  }

  /** Stores that agree on every link are the same stores. */
  lemma CellsDetermineStores(s: Stores, t: Stores)
    requires forall k :: CellAt(s, k) == CellAt(t, k)
    ensures s == t
  {
    forall a: Assignment
      ensures a in s.live <==> a in t.live
      ensures a in s.mirror <==> a in t.mirror
    {
      assert CellAt(s, a.key) == CellAt(t, a.key);
      UsersOfMember(s.live, a.key, a.user);
      UsersOfMember(t.live, a.key, a.user);
      UsersOfMember(s.mirror, a.key, a.user);
      UsersOfMember(t.mirror, a.key, a.user);
      assert a == Assignment(a.key, a.user);
    }
    forall k ensures k in s.links <==> k in t.links
             ensures k in s.links ==> s.links[k] == t.links[k]
    {
      assert CellAt(s, k) == CellAt(t, k);
    }
    assert s.links == t.links;
  }

  lemma UsersOfUpdates(s: set<Assignment>, k: LinkKey, u: string, k': LinkKey)
    ensures UsersOf(s + {Assignment(k, u)}, k') == if k == k' then UsersOf(s, k') + {u} else UsersOf(s, k')
    ensures UsersOf(s - {Assignment(k, u)}, k') == if k == k' then UsersOf(s, k') - {u} else UsersOf(s, k')
    ensures UsersOf(Without(s, k), k') == if k == k' then {} else UsersOf(s, k')
  {
    var with, minus, none := s + {Assignment(k, u)}, s - {Assignment(k, u)}, Without(s, k);
    forall v
      ensures v in UsersOf(with, k') <==> v in UsersOf(s, k') || (k == k' && v == u)
      ensures v in UsersOf(minus, k') <==> v in UsersOf(s, k') && !(k == k' && v == u)
      ensures v in UsersOf(none, k') <==> v in UsersOf(s, k') && k != k'
    {
      UsersOfMember(s, k', v);
      UsersOfMember(with, k', v);
      UsersOfMember(minus, k', v);
      UsersOfMember(none, k', v);
    }
  }

  /** A remote call changes its own link's part and no other. */
  lemma RemoteStepIsLocalToItsKey(s: Stores, a: Action, reply: Reply, k: LinkKey)
    ensures CellAt(RemoteStep(s, a, reply), k) ==
            if k == a.key then RemoteCell(CellAt(s, k), a, reply) else CellAt(s, k)
  {
    UsersOfUpdates(s.live, a.key, a.user, k);
  }

  /** A local write, cascade included, changes its own link's part and no other. */
  lemma LocalStepIsLocalToItsKey(s: Stores, a: Action, o: Outcome, k: LinkKey)
    ensures CellAt(LocalStep(s, a, o), k) ==
            if k == a.key then LocalCell(CellAt(s, k), a, o) else CellAt(s, k)
  {
    UsersOfUpdates(s.mirror, a.key, a.user, k);
  }

  /** Both steps of an action keep the mirror's foreign key. */
  lemma StepsKeepForeignKey(s: Stores, a: Action, o: Outcome)
    requires s.Valid()
    ensures RemoteStep(s, a, o.reply).Valid() && LocalStep(s, a, o).Valid()
  {
  }
}
