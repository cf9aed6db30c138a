/**
 * Registered models, whose permission rows are keyed by name (hooks/after_request.py,
 * repository/registered_model_permission.py, repository/registered_model_permission_group.py).
 * Unlike the gateway rename, both renames here raise when they find nothing.
 */
module ModelLifecycle {
  import opened Common
  import opened Permissions
  import opened PermissionTables

  datatype State = State(live: set<string>, users: Table, groups: Table)

  /** ok: nothing but the name decides whether MLflow accepts. The last four are the permission API. */
  datatype Request =
    | Create(name: string, creator: string, known: bool, ok: bool)
    | Rename(name: string, newName: string, ok: bool)
    | Delete(name: string, ok: bool)
    | SetUser(name: string, subject: string, level: Level)
    | DropUser(name: string, subject: string)
    | SetGroup(name: string, subject: string, level: Level)
    | DropGroup(name: string, subject: string)

  predicate Accepted(s: State, r: Request) {
    match r
    case Create(name, _, _, ok) => ok && name != "" && name !in s.live
    case Rename(name, newName, ok) => ok && name in s.live && newName != "" && newName !in s.live
    case Delete(name, ok) => ok && name in s.live
    case _ => r.name in s.live
  }

  /** rename_*_permissions of one table: nothing found, or a clash, raises and changes nothing. */
  ghost predicate Renames(t: Table, from: string, to: string) { RowsOf(t, from) != {} && !Conflict(t, from, to) }

  ghost function Step(s: State, r: Request): State {
    if !Accepted(s, r) then s
    else
      match r
      case Create(name, creator, known, _) =>
        var key := RowKey(name, creator);
        State(s.live + {name}, if known && key !in s.users then s.users[key := MANAGE] else s.users, s.groups)
      case Rename(name, newName, _) =>
        var s' := s.(live := s.live - {name} + {newName});
        if !Renames(s.users, name, newName) then s'
        else if !Renames(s.groups, name, newName) then s'.(users := Renamed(s.users, name, newName))
        else s'.(users := Renamed(s.users, name, newName), groups := Renamed(s.groups, name, newName))
      case Delete(name, _) => State(s.live - {name}, Wiped(s.users, name), Wiped(s.groups, name))
      case SetUser(name, subject, level) => s.(users := s.users[RowKey(name, subject) := level])
      case DropUser(name, subject) => s.(users := s.users - {RowKey(name, subject)})
      case SetGroup(name, subject, level) => s.(groups := s.groups[RowKey(name, subject) := level])
      case DropGroup(name, subject) => s.(groups := s.groups - {RowKey(name, subject)})
  }

  /** What each request does, and when it is refused and does nothing: the registry, and the rows but for a rename's. */
  lemma RequestTakesEffect(s: State, r: Request)
    ensures var s' := Step(s, r);
            match r
            case Create(name, creator, known, ok) =>
              if ok && name != "" && name !in s.live then
                && s'.live == s.live + {name} && s'.groups == s.groups
                && s'.users == if known && RowKey(name, creator) !in s.users
                               then s.users[RowKey(name, creator) := MANAGE]
                               else s.users
              else s' == s
            case Rename(name, newName, ok) =>
              if ok && name in s.live && newName != "" && newName !in s.live then s'.live == s.live - {name} + {newName}
              else s' == s
            case Delete(name, ok) =>
              if ok && name in s.live then
                && s'.live == s.live - {name}
                && forall k :: && (k in s'.users <==> k in s.users && k.resource != name)
                               && (k in s'.groups <==> k in s.groups && k.resource != name)
              else s' == s
            case SetUser(name, subject, level) =>
              s' == if name in s.live then s.(users := s.users[RowKey(name, subject) := level]) else s
            case DropUser(name, subject) =>
              s' == if name in s.live then s.(users := s.users - {RowKey(name, subject)}) else s
            case SetGroup(name, subject, level) =>
              s' == if name in s.live then s.(groups := s.groups[RowKey(name, subject) := level]) else s
            case DropGroup(name, subject) =>
              s' == if name in s.live then s.(groups := s.groups - {RowKey(name, subject)}) else s
  {
  }

  ghost function Run(s: State, rs: seq<Request>): State
    decreases |rs|
  {
    if rs == [] then s else Run(Step(s, rs[0]), rs[1..])
  }

  class Registry {
    var live: set<string>
    const users: SubjectTable
    const groups: SubjectTable

    function View(): State
      reads this, users, groups
    {
      State(live, users.rows, groups.rows)
    }

    constructor ()
      ensures users != groups && fresh(users) && fresh(groups) && View() == State({}, map[], map[])
    {
      live := {};
      users := new SubjectTable();
      groups := new SubjectTable();
    }

    method CreateModel(name: string, creator: string, known: bool, ok: bool) returns (clash: bool)
      requires users != groups
      modifies this`live, users, groups
      ensures View() == Step(old(View()), Create(name, creator, known, ok))
      ensures clash <==> Accepted(old(View()), Create(name, creator, known, ok)) && known
                         && RowKey(name, creator) in old(users.rows)
    {
      clash := false;
      if !(ok && name != "" && name !in live) { return; }
      live := live + {name};
      var granted := users.Grant(name, creator, known, "MANAGE");
      clash := granted == Err(AlreadyExists);
    }

    /** Rename the user rows, then the group rows; whatever raises first ends the handler with an error response. */
    method RenameModel(name: string, newName: string, ok: bool) returns (raised: bool)
      requires users != groups
      modifies this`live, users, groups
      ensures View() == Step(old(View()), Rename(name, newName, ok))
      ensures raised <==> Accepted(old(View()), Rename(name, newName, ok))
                          && !(Renames(old(users.rows), name, newName) && Renames(old(groups.rows), name, newName))
    {
      raised := false;
      if !(ok && name in live && newName != "" && newName !in live) { return; }
      live := live - {name} + {newName};
      var first := users.RenameExisting(name, newName);
      if first.Err? { return true; }
      var second := groups.RenameExisting(name, newName);
      raised := second.Err?;
    }

    /** Wipe the group rows, then the user rows. */
    method DeleteModel(name: string, ok: bool)
      requires users != groups
      modifies this`live, users, groups
      ensures View() == Step(old(View()), Delete(name, ok))
    {
      if !(ok && name in live) { return; }
      live := live - {name};
      groups.Wipe(name);
      users.Wipe(name);
    }
  }

  ghost predicate OnlyLive(t: Table, live: set<string>) { forall k | k in t :: k.resource in live }

  ghost predicate Inv(s: State) { OnlyLive(s.users, s.live) && OnlyLive(s.groups, s.live) }

  lemma DeadNameHasNoRows(s: State, name: string)
    requires Inv(s) && name !in s.live
    ensures RowsOf(s.users, name) == {} && RowsOf(s.groups, name) == {}
    ensures Grants(s.users, name) == map[] && Grants(s.groups, name) == map[]
  {
    GrantsAre(s.users, name);
    GrantsAre(s.groups, name);
  }

  /** A rename is carried through when the model has a user row, or has no group row to lose. */
  ghost predicate Carried(s: State, r: Request) {
    r.Rename? && Accepted(s, r) ==> RowsOf(s.users, r.name) != {} || RowsOf(s.groups, r.name) == {}
  }

  /** Every row of the old name is now a row of the new one. */
  ghost predicate AllMoved(t: Table, t': Table, from: string, to: string) {
    Grants(t', to) == Grants(t, from) && Grants(t', from) == map[]
  }

  lemma TableMoves(t: Table, from: string, to: string)
    requires from != to && RowsOf(t, to) == {}
    ensures RowsOf(t, from) != {} ==> Renames(t, from, to) && AllMoved(t, Renamed(t, from, to), from, to)
    ensures AllMoved(t, t, from, to) <==> RowsOf(t, from) == {}
  {
    RenamedRows(t, from, to);
    RenamedGrants(t, from, to, from);
    GrantsAre(t, from);
    GrantsAre(t, to);
    if RowsOf(t, from) != {} {
      var k :| k in RowsOf(t, from);
      assert k == RowKey(from, k.subject);
      assert k.subject in Grants(t, from);
    } else {
      assert forall x | x in Grants(t, from) :: RowKey(from, x) in RowsOf(t, from);
    }
    assert forall x | x in Grants(t, to) :: RowKey(to, x) in RowsOf(t, to);
  }

  /**
   * A rename moves every user and every group row exactly when the model has a user row or no
   * group row; in particular also when the handler raises because it found no group row.
   */
  lemma RenameMovesAllIff(s: State, r: Request)
    requires Inv(s) && r.Rename? && Accepted(s, r)
    ensures && AllMoved(s.users, Step(s, r).users, r.name, r.newName)
            && AllMoved(s.groups, Step(s, r).groups, r.name, r.newName)
       <==> Carried(s, r)
  {
    DeadNameHasNoRows(s, r.newName);
    TableMoves(s.users, r.name, r.newName);
    TableMoves(s.groups, r.name, r.newName);
  }

  lemma RenamedOnlyLive(t: Table, live: set<string>, from: string, to: string)
    requires OnlyLive(t, live) && from in live && to !in live
    ensures OnlyLive(Renamed(t, from, to), live - {from} + {to})
    ensures OnlyLive(t, live - {from} + {to}) <==> RowsOf(t, from) == {}
  {
    assert RowsOf(t, to) == {};
    RenamedRows(t, from, to);
    if RowsOf(t, from) != {} {
      var k :| k in RowsOf(t, from);
      assert k in t && k.resource == from;
    } else {
      assert forall k | k in t :: k in RowsOf(t, k.resource);
    }
  }

  /** Rows name only live models after a request exactly when a rename among them was carried through. */
  lemma InvIffCarried(s: State, r: Request)
    requires Inv(s)
    ensures Inv(Step(s, r)) <==> Carried(s, r)
  {
    if r.Rename? && Accepted(s, r) {
      DeadNameHasNoRows(s, r.newName);
      TableMoves(s.users, r.name, r.newName);
      TableMoves(s.groups, r.name, r.newName);
      RenamedOnlyLive(s.users, s.live, r.name, r.newName);
      RenamedOnlyLive(s.groups, s.live, r.name, r.newName);
    }
  }

  ghost predicate CarriedRun(s: State, rs: seq<Request>)
    decreases |rs|
  {
    rs == [] || (Carried(s, rs[0]) && CarriedRun(Step(s, rs[0]), rs[1..]))
  }

  lemma {:induction false} RunKeepsInv(s: State, rs: seq<Request>)
    requires Inv(s) && CarriedRun(s, rs)
    ensures Inv(Run(s, rs))
    decreases |rs|
  {
    if rs != [] {
      InvIffCarried(s, rs[0]);
      RunKeepsInv(Step(s, rs[0]), rs[1..]);
    }
  }

  /** After any such run, a model created under a name, used before or not, carries only its creator's row. */
  lemma RecreatedStartsClean(s: State, rs: seq<Request>, r: Request)
    requires Inv(s) && CarriedRun(s, rs) && r.Create? && r.known && Accepted(Run(s, rs), r)
    ensures var s' := Step(Run(s, rs), r);
            Grants(s'.users, r.name) == map[r.creator := MANAGE] && Grants(s'.groups, r.name) == map[]
  {
    RunKeepsInv(s, rs);
    var here := Run(s, rs);
    DeadNameHasNoRows(here, r.name);
    var key := RowKey(r.name, r.creator);
    assert key in here.users ==> key in RowsOf(here.users, r.name);
    AddedGrants(here.users, key, MANAGE, r.name);
  }

  /**
   * Without the condition it fails: a group row stays behind under the old name and is there again
   * for the next model of that name.
   */
  lemma StrandedGroupRow()
    ensures var rs := [Create("m", "ann", true, true), SetGroup("m", "g", EDIT), DropUser("m", "ann"),
                       Rename("m", "n", true), Create("m", "bob", true, true)];
            RowKey("m", "g") in Run(State({}, map[], map[]), rs).groups
  {
    var rs := [Create("m", "ann", true, true), SetGroup("m", "g", EDIT), DropUser("m", "ann"), Rename("m", "n", true),
               Create("m", "bob", true, true)];
    var s0 := State({}, map[], map[]);
    var s1 := Step(s0, rs[0]);
    var s2 := Step(s1, rs[1]);
    var s3 := Step(s2, rs[2]);
    assert s3.users == map[] && RowKey("m", "g") in s3.groups && "m" in s3.live && "n" !in s3.live;
    assert RowsOf(s3.users, "m") == {};
    var s4 := Step(s3, rs[3]);
    var s5 := Step(s4, rs[4]);
    assert rs[1..][1..][1..][1..][1..] == [];
    assert rs[1..][0] == rs[1] && rs[1..][1..][0] == rs[2] && rs[1..][1..][1..][0] == rs[3]
           && rs[1..][1..][1..][1..][0] == rs[4];
    assert Run(s4, rs[1..][1..][1..][1..]) == Run(s5, []);
    assert Run(s3, rs[1..][1..][1..]) == Run(s4, rs[1..][1..][1..][1..]);
    assert Run(s2, rs[1..][1..]) == Run(s3, rs[1..][1..][1..]);
    assert Run(s1, rs[1..]) == Run(s2, rs[1..][1..]);
  }
}
