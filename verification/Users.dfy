/**
 * User records and the sixteen tables whose rows refer to a user by id (repository/user.py):
 * deletion cascades table by table, renaming changes the name only.
 */
module Users {
  import opened Common

  datatype UserTable =
    | ExperimentPermission | ExperimentRegex
    | ModelPermission | ModelRegex
    | ScorerPermission | ScorerRegex
    | EndpointPermission | EndpointRegex
    | SecretPermission | SecretRegex
    | DefinitionPermission | DefinitionRegex
    | WorkspacePermission | WorkspaceRegex
    | Quota
    | Membership

  /** The order in which a deletion empties the tables. */
  const CASCADE: seq<UserTable> := [
    ExperimentPermission, ExperimentRegex, ModelPermission, ModelRegex, ScorerPermission, ScorerRegex,
    EndpointPermission, EndpointRegex, SecretPermission, SecretRegex, DefinitionPermission, DefinitionRegex,
    WorkspacePermission, WorkspaceRegex, Quota, Membership]

  lemma CascadeIsComplete(t: UserTable)
    ensures t in CASCADE
  {
    assert CASCADE[0] == ExperimentPermission && CASCADE[1] == ExperimentRegex && CASCADE[2] == ModelPermission
        && CASCADE[3] == ModelRegex && CASCADE[4] == ScorerPermission && CASCADE[5] == ScorerRegex
        && CASCADE[6] == EndpointPermission && CASCADE[7] == EndpointRegex && CASCADE[8] == SecretPermission
        && CASCADE[9] == SecretRegex && CASCADE[10] == DefinitionPermission && CASCADE[11] == DefinitionRegex
        && CASCADE[12] == WorkspacePermission && CASCADE[13] == WorkspaceRegex && CASCADE[14] == Quota
        && CASCADE[15] == Membership;
  }

  datatype Row = Row(user: nat, payload: string)

  datatype Db = Db(users: map<string, nat>, rows: map<UserTable, set<Row>>)

  function RowsIn(db: Db, t: UserTable): set<Row> { if t in db.rows then db.rows[t] else {} }

  function Without(rows: set<Row>, user: nat): set<Row> { set r | r in rows && r.user != user }

  /** Add and Remove stand for grants, regex rows, quota rows and memberships, made for a named user. */
  datatype Op =
    | Create(name: string, id: nat)
    | Rename(name: string, newName: string)
    | Add(table: UserTable, name: string, payload: string)
    | Remove(table: UserTable, name: string, payload: string)
    | Delete(name: string)

  /** An id is taken only while a user has it; the database may hand it out again afterwards. */
  predicate Succeeds(db: Db, op: Op) {
    match op
    case Create(name, id) => name != "" && name !in db.users && id !in db.users.Values
    case Rename(name, newName) => name in db.users && newName != "" && (newName == name || newName !in db.users)
    case Add(_, name, _) => name in db.users
    case Remove(_, name, _) => name in db.users
    case Delete(name) => name in db.users
  }

  function Step(db: Db, op: Op): Db {
    if !Succeeds(db, op) then db
    else
      match op
      case Create(name, id) => db.(users := db.users[name := id])
      case Rename(name, newName) => db.(users := (db.users - {name})[newName := db.users[name]])
      case Add(t, name, payload) => db.(rows := db.rows[t := RowsIn(db, t) + {Row(db.users[name], payload)}])
      case Remove(t, name, payload) => db.(rows := db.rows[t := RowsIn(db, t) - {Row(db.users[name], payload)}])
      case Delete(name) => Db(db.users - {name}, map t | t in db.rows :: Without(db.rows[t], db.users[name]))
  }

  function Run(db: Db, ops: seq<Op>): Db
    decreases |ops|
  {
    if ops == [] then db else Run(Step(db, ops[0]), ops[1..])
  }

  class UserStore {
    var users: map<string, nat>
    var rows: map<UserTable, set<Row>>

    function View(): Db
      reads this
    {
      Db(users, rows)
    }

    constructor ()
      ensures View() == Db(map[], map[])
    {
      users, rows := map[], map[];
    }

    /** id: the key the database assigns. */
    method CreateUser(name: string, id: nat) returns (r: Result<()>)
      requires id !in users.Values
      modifies this
      ensures r.Ok? <==> name != "" && name !in old(users)
      ensures users == (if r.Ok? then old(users)[name := id] else old(users)) && rows == old(rows)
      ensures View() == Step(old(View()), Create(name, id))
    {
      if name == "" { return Err(InvalidParameter); }
      if name in users { return Err(AlreadyExists); }
      users := users[name := id];
      r := Ok(());
    }

    method RenameUser(name: string, newName: string) returns (r: Result<()>)
      modifies this
      ensures r.Ok? <==> name in old(users) && newName != "" && (newName == name || newName !in old(users))
      ensures rows == old(rows)
      ensures users == if r.Ok? then (old(users) - {name})[newName := old(users)[name]] else old(users)
      ensures View() == Step(old(View()), Rename(name, newName))
    {
      if newName == "" { return Err(InvalidParameter); }
      if name !in users { return Err(DoesNotExist); }
      if newName != name && newName in users { return Err(AlreadyExists); }
      users := (users - {name})[newName := users[name]];
      r := Ok(());
    }

    /** Every dependent table is emptied of the user's rows before the user record goes. */
    method DeleteUser(name: string) returns (r: Result<()>)
      modifies this
      ensures r.Ok? <==> name in old(users)
      ensures View() == Step(old(View()), Delete(name))
    {
      if name !in users { return Err(DoesNotExist); }
      var id := users[name];
      for i := 0 to |CASCADE|
        invariant users == old(users) && rows.Keys == old(rows).Keys
        invariant forall t | t in rows ::
                    rows[t] == if t in CASCADE[..i] then Without(old(rows)[t], id) else old(rows)[t]
      {
        var t := CASCADE[i];
        assert CASCADE[..i + 1] == CASCADE[..i] + [t];
        if t in rows {
          rows := rows[t := Without(rows[t], id)];
        }
      }
      users := users - {name};
      forall t | t in rows ensures t in CASCADE[..|CASCADE|] {
        CascadeIsComplete(t);
        assert CASCADE[..|CASCADE|] == CASCADE;
      }
      r := Ok(());
    }
  }

  /** A row stands in a table. */
  ghost predicate Stands(db: Db, t: UserTable, r: Row) { t in db.rows && r in db.rows[t] }

  /** What each operation does to users and rows, and when it is refused and does nothing. */
  lemma OpTakesEffect(db: Db, op: Op, t: UserTable, r: Row)
    ensures var db' := Step(db, op);
            match op
            case Create(name, id) =>
              && db'.rows == db.rows
              && db'.users == if name != "" && name !in db.users && id !in db.users.Values then db.users[name := id]
                 else db.users
            case Rename(name, newName) =>
              && db'.rows == db.rows
              && db'.users == if name in db.users && newName != "" && (newName == name || newName !in db.users)
                              then (db.users - {name})[newName := db.users[name]] else db.users
            case Add(table, name, payload) =>
              && db'.users == db.users
              && (Stands(db', t, r) <==>
                    Stands(db, t, r) || (name in db.users && t == table && r == Row(db.users[name], payload)))
            case Remove(table, name, payload) =>
              && db'.users == db.users
              && (Stands(db', t, r) <==>
                    Stands(db, t, r) && !(name in db.users && t == table && r == Row(db.users[name], payload)))
            case Delete(name) =>
              && db'.users == db.users - {name}
              && (Stands(db', t, r) <==> Stands(db, t, r) && !(name in db.users && r.user == db.users[name]))
  {
  }

  ghost predicate Inv(db: Db) {
    && (forall a, b | a in db.users && b in db.users && db.users[a] == db.users[b] :: a == b)
    && (forall t, r | t in db.rows && r in db.rows[t] :: r.user in db.users.Values)
  }

  lemma RenamedIds(users: map<string, nat>, name: string, newName: string)
    requires name in users && (newName == name || newName !in users)
    ensures ((users - {name})[newName := users[name]]).Values == users.Values
  {
    var users' := (users - {name})[newName := users[name]];
    forall id | id in users.Values ensures id in users'.Values {
      var n :| n in users && users[n] == id;
      if n == name { assert users'[newName] == id; } else { assert n in users' && users'[n] == id; }
    }
    forall id | id in users'.Values ensures id in users.Values {
      var n :| n in users' && users'[n] == id;
      if n == newName { assert users[name] == id; } else { assert n in users && users[n] == id; }
    }
  }

  lemma RemainingIds(users: map<string, nat>, name: string, id: nat)
    requires name in users && id in users.Values && id != users[name]
    ensures id in (users - {name}).Values
  {
    var n :| n in users && users[n] == id;
    assert n in users - {name} && (users - {name})[n] == id;
  }

  lemma StepKeepsInv(db: Db, op: Op)
    requires Inv(db)
    ensures Inv(Step(db, op))
  {
    if Succeeds(db, op) {
      var db' := Step(db, op);
      match op
      case Create(name, id) =>
        forall i | i in db.users.Values ensures i in db'.users.Values {
          var n :| n in db.users && db.users[n] == i;
          assert n in db'.users && db'.users[n] == i;
        }
        assert forall n | n in db.users :: db.users[n] in db.users.Values;
      case Rename(name, newName) => RenamedIds(db.users, name, newName);
      case Add(t, name, payload) => assert db.users[name] in db.users.Values;
      case Remove(t, name, payload) =>
      case Delete(name) =>
        forall t, r | t in db'.rows && r in db'.rows[t] ensures r.user in db'.users.Values {
          RemainingIds(db.users, name, r.user);
        }
    }
  }

  /** No row ever refers to a missing user, over every run. */
  lemma {:induction false} RunKeepsInv(db: Db, ops: seq<Op>)
    requires Inv(db)
    ensures Inv(Run(db, ops))
    decreases |ops|
  {
    if ops != [] {
      StepKeepsInv(db, ops[0]);
      RunKeepsInv(Step(db, ops[0]), ops[1..]);
    }
  }

  /** A deletion removes the user's rows from every table, and no other row and no other user. */
  lemma DeleteIsExact(db: Db, name: string, t: UserTable, r: Row, other: string)
    requires Inv(db) && name in db.users
    ensures var db' := Step(db, Delete(name));
            && (r in RowsIn(db', t) <==> r in RowsIn(db, t) && r.user != db.users[name])
            && name !in db'.users
            && (other != name ==> (other in db'.users <==> other in db.users))
            && (other != name && other in db.users ==>
                  && db'.users[other] == db.users[other]
                  && (r.user == db.users[other] ==> (r in RowsIn(db', t) <==> r in RowsIn(db, t))))
  {
  }

  /** A new user owns nothing at first, also when the database gives out the id of a deleted user again. */
  lemma NewUserOwnsNothing(db: Db, ops: seq<Op>, op: Op, t: UserTable, r: Row)
    requires Inv(db) && op.Create? && Succeeds(Run(db, ops), op) && r in RowsIn(Step(Run(db, ops), op), t)
    ensures r.user != op.id
  {
    RunKeepsInv(db, ops);
  }

  /** A rename takes every row along, because rows refer to the id. */
  lemma RenameKeepsRows(db: Db, name: string, newName: string)
    requires Succeeds(db, Rename(name, newName))
    ensures var db' := Step(db, Rename(name, newName));
            db'.rows == db.rows && newName in db'.users && db'.users[newName] == db.users[name]
  {
  }
}
