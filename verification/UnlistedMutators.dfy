/**
 * The store methods that write users, groups or permission rows without flushing the permission
 * cache (sqlalchemy_store.py, repository/user.py), and exactly which resolutions each one changes.
 */
module UnlistedMutators {
  import opened Common
  import opened Permissions
  import opened GroupFold
  import opened Resolution

  /**
   * Create and update of a workspace row are one case, as is its deletion (level None). The
   * workspace regex methods leave the given rows behind, in priority order.
   */
  datatype Unlisted =
    | UserCreated(name: string, id: nat)
    | UserRenamed(from: string, to: string)
    | UserDeleted(name: string)
    | GroupsPopulated(groups: seq<Group>)
    | ExperimentWiped(experiment: string)
    | SpaceUserRow(name: string, space: string, level: Option<Level>)
    | SpaceGroupRow(group: string, space: string, level: Option<Level>)
    | SpaceWiped(space: string)
    | SpaceUserRegex(name: string, userRegex: seq<RegexRow>)
    | SpaceGroupRegex(groupRegex: seq<(nat, RegexRow)>)

  /** The call succeeds; otherwise it raises and its session is rolled back. */
  predicate Applicable(db: Db, m: Unlisted) {
    match m
    case UserCreated(name, id) => name != "" && name !in db.dir.users && id !in db.dir.users.Values
    case UserRenamed(from, to) => from in db.dir.users && to != "" && (to == from || to !in db.dir.users)
    case UserDeleted(name) => name in db.dir.users
    case SpaceUserRow(name, _, _) => name in db.dir.users
    case SpaceGroupRow(group, _, _) => FindGroup(db.dir.groups, group).Some?
    case SpaceUserRegex(name, _) => name in db.dir.users
    case _ => true
  }

  function CreateUser(db: Db, name: string, id: nat): Db {
    db.(dir := db.dir.(users := db.dir.users[name := id]))
  }

  function RenameUser(db: Db, from: string, to: string): Db
    requires from in db.dir.users
  {
    db.(dir := db.dir.(users := (db.dir.users - {from})[to := db.dir.users[from]]))
  }

  /** The cascade reaches the workspace tables as well. */
  function DeleteUser(db: Db, name: string): Db
    requires name in db.dir.users
  {
    var id := db.dir.users[name];
    db.(dir := db.dir.(users := db.dir.users - {name}, links := set l | l in db.dir.links && l.0 != id),
        userRows := map k | k in db.userRows && k.1 != id :: db.userRows[k],
        userRegex := map k | k in db.userRegex && k.1 != id :: db.userRegex[k])
  }

  function WithoutResource(rows: seq<GroupRow<Key>>, key: Key): seq<GroupRow<Key>> {
    if rows == [] then []
    else if rows[0].resource == key then WithoutResource(rows[1..], key)
    else [rows[0]] + WithoutResource(rows[1..], key)
  }

  function WithoutRow(rows: seq<GroupRow<Key>>, group: nat, key: Key): seq<GroupRow<Key>> {
    if rows == [] then []
    else if rows[0].resource == key && rows[0].group == group then WithoutRow(rows[1..], group, key)
    else [rows[0]] + WithoutRow(rows[1..], group, key)
  }

  /** Every user and group row of one resource in one pair of tables. */
  function WipeRows(db: Db, t: Kind, key: Key): Db {
    db.(userRows := map k | k in db.userRows :: if k.0 == t then db.userRows[k] - {key} else db.userRows[k],
        groupRows := db.groupRows[t := WithoutResource(GroupRows(db, t), key)])
  }

  function SetUserRow(db: Db, user: nat, key: Key, level: Option<Level>): Db {
    var rows := UserRows(db, Workspace, user);
    var rows' := if level.Some? then rows[key := level.value] else rows - {key};
    db.(userRows := db.userRows[(Workspace, user) := rows'])
  }

  function SetGroupRow(db: Db, group: nat, key: Key, level: Option<Level>): Db {
    var rows := WithoutRow(GroupRows(db, Workspace), group, key);
    var added := if level.Some? then [GroupRow(group, key, level.value)] else [];
    db.(groupRows := db.groupRows[Workspace := rows + added])
  }

  function Apply(db: Db, m: Unlisted): Db
    requires Applicable(db, m)
  {
    match m
    case UserCreated(name, id) => CreateUser(db, name, id)
    case UserRenamed(from, to) => RenameUser(db, from, to)
    case UserDeleted(name) => DeleteUser(db, name)
    case GroupsPopulated(groups) => db.(dir := db.dir.(groups := db.dir.groups + groups))
    case ExperimentWiped(experiment) => WipeRows(db, Experiment, Plain(experiment))
    case SpaceUserRow(name, space, level) => SetUserRow(db, db.dir.users[name], Plain(space), level)
    case SpaceGroupRow(group, space, level) =>
      SetGroupRow(db, FindGroup(db.dir.groups, group).value, Plain(space), level)
    case SpaceWiped(space) => WipeRows(db, Workspace, Plain(space))
    case SpaceUserRegex(name, rows) => db.(userRegex := db.userRegex[(Workspace, db.dir.users[name]) := rows])
    case SpaceGroupRegex(rows) => db.(groupRegex := db.groupRegex[Workspace := rows])
  }

  /** User ids are unique and every row or link that names a user names an existing one. */
  ghost predicate Sound(db: Db) {
    && (forall a, b | a in db.dir.users && b in db.dir.users && db.dir.users[a] == db.dir.users[b] :: a == b)
    && (forall l | l in db.dir.links :: l.0 in db.dir.users.Values)
    && (forall k | k in db.userRows :: k.1 in db.dir.users.Values)
    && (forall k | k in db.userRegex :: k.1 in db.dir.users.Values)
  }

  // ---- which workspace permissions and resolutions a method changes, read off the tables before the call ----

  predicate Member(db: Db, user: string, group: string)
    requires FindGroup(db.dir.groups, group).Some?
  {
    user in db.dir.users && (db.dir.users[user], FindGroup(db.dir.groups, group).value) in db.dir.links
  }

  /** The users in workspaces a method is about. */
  predicate AboutSpace(db: Db, m: Unlisted, sp: Space)
    requires Applicable(db, m)
  {
    match m
    case UserCreated(name, _) => sp.user == name
    case UserRenamed(from, to) => sp.user == from || sp.user == to
    case UserDeleted(name) => sp.user == name
    case GroupsPopulated(_) => false
    case ExperimentWiped(_) => false
    case SpaceUserRow(name, space, _) => sp == Space(name, space)
    case SpaceGroupRow(group, space, _) => sp.name == space && Member(db, sp.user, group)
    case SpaceWiped(space) => sp.name == space
    case SpaceUserRegex(name, _) => sp.user == name
    case SpaceGroupRegex(_) => true
  }

  /** What a user's other groups grant. */
  function GrantedByOthers(d: Directory, rows: seq<GroupRow<Key>>, user: nat, key: Key, group: nat): set<Level> {
    set i | 0 <= i < |rows| && rows[i].resource == key && rows[i].group != group && (user, rows[i].group) in d.links
      :: rows[i].level
  }

  /** What one source will say about a user in a workspace once a workspace method has run. */
  function AnswerAfter(cfg: Config, db: Db, m: Unlisted, sp: Space, source: string): Option<Level>
    requires Applicable(db, m)
  {
    var now := SourceAnswer(cfg, db, SpaceAsk(sp), source);
    if sp.user !in db.dir.users || !AboutSpace(db, m, sp) then now
    else
      var user := db.dir.users[sp.user];
      match m
      case SpaceUserRow(_, _, level) => if source == "user" then level else now
      case SpaceGroupRow(group, _, level) =>
        if source != "group" then now
        else
          var id := FindGroup(db.dir.groups, group).value;
          var others := GrantedByOthers(db.dir, GroupRows(db, Workspace), user, Plain(sp.name), id);
          Decisive(others + if level.Some? then {level.value} else {})
      case SpaceWiped(_) => if source == "user" || source == "group" then None else now
      case SpaceUserRegex(_, rows) => if source == "regex" then TierLevel(rows, cfg.matches, sp.name) else now
      case SpaceGroupRegex(rows) =>
        if source == "group-regex" then TierLevel(MemberRegex(db.dir, rows, user), cfg.matches, sp.name) else now
      case _ => now
  }

  function LevelAfter(cfg: Config, db: Db, m: Unlisted, sp: Space, order: seq<string>): Option<Level>
    requires Applicable(db, m)
  {
    if order == [] then None
    else if AnswerAfter(cfg, db, m, sp, order[0]).Some? then AnswerAfter(cfg, db, m, sp, order[0])
    else LevelAfter(cfg, db, m, sp, order[1..])
  }

  /**
   * Whether a method changes a workspace permission: a deleted or renamed user had one to lose or
   * to take along; a workspace method replaces the answer of a source the walk depends on.
   */
  predicate TouchesSpace(cfg: Config, db: Db, m: Unlisted, sp: Space)
    requires Applicable(db, m)
  {
    && AboutSpace(db, m, sp)
    && match m
       case UserCreated(_, _) => false
       case UserRenamed(from, to) => from != to && SpaceLevel(cfg, db, sp.(user := from)).Some?
       case UserDeleted(_) => SpaceLevel(cfg, db, sp).Some?
       case _ => LevelAfter(cfg, db, m, sp, cfg.order) != SpaceLevel(cfg, db, sp)
  }

  /** Some source or the workspace gives an answer. */
  predicate Held(cfg: Config, db: Db, q: Query) {
    FirstSource(cfg, db, q, cfg.order).Some? || EffectiveLevel(cfg, db, q).Some?
  }

  /** The queries a method is about. */
  predicate About(cfg: Config, db: Db, m: Unlisted, q: Query)
    requires Applicable(db, m)
  {
    match m
    case UserCreated(name, _) => q.user == name
    case UserRenamed(from, to) => q.user == from || q.user == to
    case UserDeleted(name) => q.user == name
    case GroupsPopulated(_) => false
    case ExperimentWiped(experiment) => q.kind == Experiment && q.resource == experiment
    case _ => Effective(cfg, q).Some? && AboutSpace(db, m, Effective(cfg, q).value)
  }

  /**
   * Whether a method changes a resolution: a deleted or renamed user had an answer to lose or to
   * take along; a wiped experiment was answered by one of its own rows; no source answered and
   * the workspace permission changes. Creating users and groups changes nothing.
   */
  predicate Touched(cfg: Config, db: Db, m: Unlisted, q: Query)
    requires Applicable(db, m)
  {
    && About(cfg, db, m, q)
    && match m
       case UserCreated(_, _) => false
       case UserRenamed(from, to) => from != to && Held(cfg, db, q.(user := from))
       case UserDeleted(_) => Held(cfg, db, q)
       case GroupsPopulated(_) => false
       case ExperimentWiped(_) => FirstSource(cfg, db, q, cfg.order) in {Some("user"), Some("group")}
       case _ => FirstSource(cfg, db, q, cfg.order).None? && TouchesSpace(cfg, db, m, Effective(cfg, q).value)
  }

  // ---- walks over the sources ----

  const SOURCES := ["user", "group", "regex", "group-regex"]

  /** The result names the first source that answers. */
  lemma {:induction false} ResultNamesSource(cfg: Config, db: Db, q: Ask, order: seq<string>)
    ensures var r := FromStoreOrDefault(cfg, db, q, order);
            match FirstSource(cfg, db, q, order)
            case None => r == PermissionResult(cfg.fallback, "fallback")
            case Some(source) => r.kind == source && source in SOURCES
  {
    if order != [] { ResultNamesSource(cfg, db, q, order[1..]); }
  }

  lemma {:induction false} UnknownUser(cfg: Config, db: Db, q: Ask, order: seq<string>)
    requires q.user !in db.dir.users
    ensures FirstSource(cfg, db, q, order) == None
  {
    if order != [] { UnknownUser(cfg, db, q, order[1..]); }
  }

  /** Two resolutions differ by what the sources say, or, where none says anything, by the workspace permission. */
  lemma ResolveDiffersIff(cfg: Config, db: Db, db': Db, q: Query)
    ensures Resolve(cfg, db', q) != Resolve(cfg, db, q)
       <==> if FirstSource(cfg, db, q, cfg.order) == FirstSource(cfg, db', q, cfg.order) == None
            then EffectiveLevel(cfg, db', q) != EffectiveLevel(cfg, db, q)
            else FromStoreOrDefault(cfg, db', q, cfg.order) != FromStoreOrDefault(cfg, db, q, cfg.order)
  {
    ResultNamesSource(cfg, db, q, cfg.order);
    ResultNamesSource(cfg, db', q, cfg.order);
  }

  /** Where nothing answers afterwards, a resolution changes exactly when something did before. */
  lemma SilencedIff(cfg: Config, db: Db, db': Db, q: Query)
    requires !Held(cfg, db', q)
    ensures Resolve(cfg, db', q) != Resolve(cfg, db, q) <==> Held(cfg, db, q)
  {
    ResultNamesSource(cfg, db, q, cfg.order);
    ResultNamesSource(cfg, db', q, cfg.order);
    ResolveDiffersIff(cfg, db, db', q);
  }

  lemma UnknownUserHoldsNothing(cfg: Config, db: Db, user: string)
    requires user !in db.dir.users
    ensures forall sp: Space | sp.user == user :: SpaceLevel(cfg, db, sp) == None
    ensures forall q: Query | q.user == user :: !Held(cfg, db, q)
  {
    forall sp: Space | sp.user == user ensures SpaceLevel(cfg, db, sp) == None {
      UnknownUser(cfg, db, SpaceAsk(sp), cfg.order);
    }
    forall q: Query | q.user == user ensures !Held(cfg, db, q) {
      UnknownUser(cfg, db, q, cfg.order);
    }
  }

  lemma {:induction false} MemberRegexSame(d: Directory, d': Directory, rows: seq<(nat, RegexRow)>, user: nat)
    requires forall g :: (user, g) in d.links <==> (user, g) in d'.links
    ensures MemberRegex(d, rows, user) == MemberRegex(d', rows, user)
  {
    if rows != [] { MemberRegexSame(d, d', rows[1..], user); }
  }

  /** A user keeps id, links and rows, perhaps under another name. */
  ghost predicate SameHoldings(db: Db, db': Db, user: string, user': string) {
    && user in db.dir.users && user' in db'.dir.users && db.dir.users[user] == db'.dir.users[user']
    && var u := db.dir.users[user];
       && (forall g :: (u, g) in db.dir.links <==> (u, g) in db'.dir.links)
       && (forall t :: UserRows(db, t, u) == UserRows(db', t, u))
       && (forall t :: UserRegex(db, t, u) == UserRegex(db', t, u))
       && db.groupRows == db'.groupRows && db.groupRegex == db'.groupRegex
  }

  lemma SameHoldingsAnswer(cfg: Config, db: Db, db': Db, q: Ask, user': string, source: string)
    requires SameHoldings(db, db', q.user, user')
    ensures SourceAnswer(cfg, db, q, source) == SourceAnswer(cfg, db', q.(user := user'), source)
  {
    var u := db.dir.users[q.user];
    MemberRegexSame(db.dir, db'.dir, if q.kind in db.groupRegex then db.groupRegex[q.kind] else [], u);
    var rows := GroupRows(db, DirectTable(q.kind));
    assert Granted(db.dir, rows, u, KeyOf(q)) == Granted(db'.dir, rows, u, KeyOf(q));
  }

  lemma SameHoldingsWalk(cfg: Config, db: Db, db': Db, q: Ask, user': string)
    requires SameHoldings(db, db', q.user, user')
    ensures FromStoreOrDefault(cfg, db, q, cfg.order) == FromStoreOrDefault(cfg, db', q.(user := user'), cfg.order)
    ensures FirstSource(cfg, db, q, cfg.order) == FirstSource(cfg, db', q.(user := user'), cfg.order)
  {
    forall source ensures SourceAnswer(cfg, db, q, source) == SourceAnswer(cfg, db', q.(user := user'), source) {
      SameHoldingsAnswer(cfg, db, db', q, user', source);
    }
    SameWalkFor(cfg, db, db', q, q.(user := user'), cfg.order);
  }

  /** Everything a user had moves along. */
  lemma HoldingsMove(cfg: Config, db: Db, db': Db, user: string, user': string)
    requires SameHoldings(db, db', user, user')
    ensures forall sp: Space | sp.user == user' :: SpaceLevel(cfg, db', sp) == SpaceLevel(cfg, db, sp.(user := user))
    ensures forall q: Query | q.user == user' :: Held(cfg, db', q) <==> Held(cfg, db, q.(user := user))
    ensures forall q: Query | q.user == user == user' :: Resolve(cfg, db', q) == Resolve(cfg, db, q)
  {
    forall sp: Space | sp.user == user' ensures SpaceLevel(cfg, db', sp) == SpaceLevel(cfg, db, sp.(user := user)) {
      SameHoldingsWalk(cfg, db, db', SpaceAsk(sp.(user := user)), user');
    }
    forall q: Query | q.user == user'
      ensures Held(cfg, db', q) <==> Held(cfg, db, q.(user := user))
      ensures user == user' ==> Resolve(cfg, db', q) == Resolve(cfg, db, q)
    {
      SameHoldingsWalk(cfg, db, db', q.(user := user), user');
      assert q.(user := user).(user := user') == q;
    }
  }

  /** A user the method leaves alone. */
  lemma UserUntouched(cfg: Config, db: Db, db': Db, user: string)
    requires (user !in db.dir.users && user !in db'.dir.users) || SameHoldings(db, db', user, user)
    ensures forall sp: Space | sp.user == user :: SpaceLevel(cfg, db', sp) == SpaceLevel(cfg, db, sp)
    ensures forall q: Query | q.user == user :: Resolve(cfg, db', q) == Resolve(cfg, db, q)
  {
    if user in db.dir.users {
      HoldingsMove(cfg, db, db', user, user);
      assert forall sp: Space | sp.user == user :: sp.(user := user) == sp;
    } else {
      UnknownUserHoldsNothing(cfg, db, user);
      UnknownUserHoldsNothing(cfg, db', user);
      forall q: Query | q.user == user ensures Resolve(cfg, db', q) == Resolve(cfg, db, q) {
        SilencedIff(cfg, db, db', q);
      }
    }
  }

  // ---- users and groups ----

  lemma DeleteKeepsHoldings(db: Db, name: string, user: string)
    requires Sound(db) && name in db.dir.users && user in db.dir.users && user != name
    ensures SameHoldings(db, DeleteUser(db, name), user, user)
  {
    var db', u := DeleteUser(db, name), db.dir.users[user];
    assert u != db.dir.users[name];
    forall g ensures (u, g) in db.dir.links <==> (u, g) in db'.dir.links {
      assert (u, g).0 == u;
    }
  }

  /**
   * Deleting a user changes exactly that user's resolutions, and of those the ones a source or the
   * workspace answered.
   */
  lemma DeleteChangesIff(cfg: Config, db: Db, name: string)
    requires Sound(db) && name in db.dir.users
    ensures forall q :: Resolve(cfg, DeleteUser(db, name), q) != Resolve(cfg, db, q)
                   <==> q.user == name && Held(cfg, db, q)
    ensures forall sp :: SpaceLevel(cfg, DeleteUser(db, name), sp) != SpaceLevel(cfg, db, sp)
                    <==> sp.user == name && SpaceLevel(cfg, db, sp).Some?
  {
    var db' := DeleteUser(db, name);
    UnknownUserHoldsNothing(cfg, db', name);
    forall q: Query ensures Resolve(cfg, db', q) != Resolve(cfg, db, q) <==> q.user == name && Held(cfg, db, q) {
      if q.user == name {
        SilencedIff(cfg, db, db', q);
      } else {
        if q.user in db.dir.users { DeleteKeepsHoldings(db, name, q.user); }
        UserUntouched(cfg, db, db', q.user);
      }
    }
    forall sp: Space
      ensures SpaceLevel(cfg, db', sp) != SpaceLevel(cfg, db, sp) <==> sp.user == name && SpaceLevel(cfg, db, sp).Some?
    {
      if sp.user != name {
        if sp.user in db.dir.users { DeleteKeepsHoldings(db, name, sp.user); }
        UserUntouched(cfg, db, db', sp.user);
      }
    }
  }

  lemma RenameKeepsHoldings(db: Db, from: string, to: string, user: string)
    requires Applicable(db, UserRenamed(from, to)) && user in db.dir.users && user != to
    ensures SameHoldings(db, RenameUser(db, from, to), user, if user == from then to else user)
  {
  }

  lemma RenameResolvesIff(cfg: Config, db: Db, from: string, to: string, q: Query)
    requires Applicable(db, UserRenamed(from, to)) && from != to
    ensures Resolve(cfg, RenameUser(db, from, to), q) != Resolve(cfg, db, q)
       <==> (q.user == from || q.user == to) && Held(cfg, db, q.(user := from))
  {
    var db' := RenameUser(db, from, to);
    if q.user == from {
      UnknownUserHoldsNothing(cfg, db', from);
      SilencedIff(cfg, db, db', q);
      assert q.(user := from) == q;
    } else if q.user == to {
      RenameKeepsHoldings(db, from, to, from);
      HoldingsMove(cfg, db, db', from, to);
      UnknownUserHoldsNothing(cfg, db, to);
      SilencedIff(cfg, db', db, q);
    } else {
      if q.user in db.dir.users { RenameKeepsHoldings(db, from, to, q.user); }
      UserUntouched(cfg, db, db', q.user);
    }
  }

  lemma RenameSpacesIff(cfg: Config, db: Db, from: string, to: string, sp: Space)
    requires Applicable(db, UserRenamed(from, to)) && from != to
    ensures SpaceLevel(cfg, RenameUser(db, from, to), sp) != SpaceLevel(cfg, db, sp)
       <==> (sp.user == from || sp.user == to) && SpaceLevel(cfg, db, sp.(user := from)).Some?
  {
    var db' := RenameUser(db, from, to);
    if sp.user == from {
      UnknownUserHoldsNothing(cfg, db', from);
      assert sp.(user := from) == sp;
    } else if sp.user == to {
      RenameKeepsHoldings(db, from, to, from);
      HoldingsMove(cfg, db, db', from, to);
      UnknownUserHoldsNothing(cfg, db, to);
    } else {
      if sp.user in db.dir.users { RenameKeepsHoldings(db, from, to, sp.user); }
      UserUntouched(cfg, db, db', sp.user);
    }
  }

  /** A rename changes the resolutions of both names, where a source or the workspace answered the old one. */
  lemma RenameChangesIff(cfg: Config, db: Db, from: string, to: string)
    requires Applicable(db, UserRenamed(from, to))
    ensures forall q :: Resolve(cfg, RenameUser(db, from, to), q) != Resolve(cfg, db, q)
                   <==> from != to && (q.user == from || q.user == to) && Held(cfg, db, q.(user := from))
    ensures forall sp :: SpaceLevel(cfg, RenameUser(db, from, to), sp) != SpaceLevel(cfg, db, sp)
                    <==> from != to && (sp.user == from || sp.user == to)
                         && SpaceLevel(cfg, db, sp.(user := from)).Some?
  {
    if from == to {
      assert RenameUser(db, from, to).dir.users == db.dir.users;
    } else {
      forall q: Query
        ensures Resolve(cfg, RenameUser(db, from, to), q) != Resolve(cfg, db, q)
           <==> (q.user == from || q.user == to) && Held(cfg, db, q.(user := from))
      {
        RenameResolvesIff(cfg, db, from, to, q);
      }
      forall sp: Space
        ensures SpaceLevel(cfg, RenameUser(db, from, to), sp) != SpaceLevel(cfg, db, sp)
           <==> (sp.user == from || sp.user == to) && SpaceLevel(cfg, db, sp.(user := from)).Some?
      {
        RenameSpacesIff(cfg, db, from, to, sp);
      }
    }
  }

  lemma {:induction false} NoMemberRegex(d: Directory, rows: seq<(nat, RegexRow)>, user: nat)
    requires forall g :: (user, g) !in d.links
    ensures MemberRegex(d, rows, user) == []
  {
    if rows != [] { NoMemberRegex(d, rows[1..], user); }
  }

  /** A new user owns nothing, so every source stays silent. */
  lemma {:induction false} NewUserHasNoAnswer(cfg: Config, db: Db, name: string, id: nat, q: Ask, order: seq<string>)
    requires Sound(db) && id !in db.dir.users.Values && q.user == name
    ensures FirstSource(cfg, CreateUser(db, name, id), q, order) == None
  {
    if order != [] {
      NewUserHasNoAnswer(cfg, db, name, id, q, order[1..]);
      var db' := CreateUser(db, name, id);
      assert forall l | l in db.dir.links :: l.0 != id;
      NoMemberRegex(db'.dir, if q.kind in db.groupRegex then db.groupRegex[q.kind] else [], id);
      assert Granted(db'.dir, GroupRows(db', DirectTable(q.kind)), id, KeyOf(q)) == {};
      assert forall k | k in db.userRows :: k.1 != id;
      assert forall k | k in db.userRegex :: k.1 != id;
    }
  }

  lemma CreateKeepsHoldings(db: Db, name: string, id: nat, user: string)
    requires user in db.dir.users && user != name
    ensures SameHoldings(db, CreateUser(db, name, id), user, user)
  {
  }

  /** Creating a user changes no resolution and no workspace permission. */
  lemma CreateChangesNothing(cfg: Config, db: Db, name: string, id: nat)
    requires Sound(db) && Applicable(db, UserCreated(name, id))
    ensures forall q :: Resolve(cfg, CreateUser(db, name, id), q) == Resolve(cfg, db, q)
    ensures forall sp :: SpaceLevel(cfg, CreateUser(db, name, id), sp) == SpaceLevel(cfg, db, sp)
  {
    var db' := CreateUser(db, name, id);
    UnknownUserHoldsNothing(cfg, db, name);
    forall sp: Space ensures SpaceLevel(cfg, db', sp) == SpaceLevel(cfg, db, sp) {
      if sp.user == name {
        NewUserHasNoAnswer(cfg, db, name, id, SpaceAsk(sp), cfg.order);
      } else {
        if sp.user in db.dir.users { CreateKeepsHoldings(db, name, id, sp.user); }
        UserUntouched(cfg, db, db', sp.user);
      }
    }
    forall q: Query ensures Resolve(cfg, db', q) == Resolve(cfg, db, q) {
      if q.user == name {
        NewUserHasNoAnswer(cfg, db, name, id, q, cfg.order);
        SilencedIff(cfg, db, db', q);
      } else {
        if q.user in db.dir.users { CreateKeepsHoldings(db, name, id, q.user); }
        UserUntouched(cfg, db, db', q.user);
      }
    }
  }

  // ---- wiped rows ----

  lemma {:induction false} WipedJoined(d: Directory, rows: seq<GroupRow<Key>>, wiped: Key, user: nat, key: Key)
    ensures Joined(d, WithoutResource(rows, wiped), user, key)
         == if key == wiped then [] else Joined(d, rows, user, key)
  {
    if rows != [] {
      WipedJoined(d, rows[1..], wiped, user, key);
      var rest := WithoutResource(rows[1..], wiped);
      assert ([rows[0]] + rest)[1..] == rest;
    }
  }

  lemma WipedGranted(d: Directory, rows: seq<GroupRow<Key>>, wiped: Key, user: nat, key: Key)
    ensures Granted(d, WithoutResource(rows, wiped), user, key)
         == if key == wiped then {} else Granted(d, rows, user, key)
  {
    WipedJoined(d, rows, wiped, user, key);
    JoinedLevels(d, rows, user, key);
    JoinedLevels(d, WithoutResource(rows, wiped), user, key);
    var none: seq<GroupRow<Key>> := [];
    assert Levels(none) == {};
  }

  lemma WipedTables(db: Db, t: Kind, key: Key, k: Kind, user: nat)
    ensures var db' := WipeRows(db, t, key);
            && UserRows(db', k, user) == (if k == t then UserRows(db, k, user) - {key} else UserRows(db, k, user))
            && GroupRows(db', k) == (if k == t then WithoutResource(GroupRows(db, k), key) else GroupRows(db, k))
            && UserRegex(db', k, user) == UserRegex(db, k, user) && GroupRegex(db', k, user) == GroupRegex(db, k, user)
  {
  }

  /** The direct sources fall silent on a wiped resource; nothing else changes. */
  lemma WipedAnswer(cfg: Config, db: Db, t: Kind, key: Key, q: Ask, source: string)
    ensures SourceAnswer(cfg, WipeRows(db, t, key), q, source)
         == if DirectTable(q.kind) == t && KeyOf(q) == key && source in ["user", "group"] then None
            else SourceAnswer(cfg, db, q, source)
  {
    if q.user in db.dir.users {
      var user := db.dir.users[q.user];
      WipedTables(db, t, key, DirectTable(q.kind), user);
      WipedTables(db, t, key, q.kind, user);
      WipedGranted(db.dir, GroupRows(db, t), key, user, KeyOf(q));
    }
  }

  lemma {:induction false} WipedWalk(cfg: Config, db: Db, t: Kind, key: Key, q: Ask, order: seq<string>)
    requires DirectTable(q.kind) == t && KeyOf(q) == key
    ensures var db' := WipeRows(db, t, key);
            var direct := {Some("user"), Some("group")};
            && FirstSource(cfg, db', q, order) !in direct
            && (FirstSource(cfg, db, q, order) !in direct ==>
                  && FromStoreOrDefault(cfg, db', q, order) == FromStoreOrDefault(cfg, db, q, order)
                  && FirstSource(cfg, db', q, order) == FirstSource(cfg, db, q, order))
  {
    if order != [] {
      WipedWalk(cfg, db, t, key, q, order[1..]);
      WipedAnswer(cfg, db, t, key, q, order[0]);
    }
  }

  /** Queries and workspaces a wipe is not about. */
  lemma WipeKeeps(cfg: Config, db: Db, t: Kind, key: Key, q: Ask)
    requires DirectTable(q.kind) != t || KeyOf(q) != key
    ensures FromStoreOrDefault(cfg, WipeRows(db, t, key), q, cfg.order) == FromStoreOrDefault(cfg, db, q, cfg.order)
    ensures FirstSource(cfg, WipeRows(db, t, key), q, cfg.order) == FirstSource(cfg, db, q, cfg.order)
  {
    forall source
      ensures SourceAnswer(cfg, WipeRows(db, t, key), q, source) == SourceAnswer(cfg, db, q, source)
    {
      WipedAnswer(cfg, db, t, key, q, source);
    }
    SameWalkFor(cfg, WipeRows(db, t, key), db, q, q, cfg.order);
  }

  /**
   * Wiping an experiment changes exactly the resolutions of it that a direct row answered, and no
   * workspace permission.
   */
  lemma WipeChangesIff(cfg: Config, db: Db, experiment: string)
    ensures forall q :: Resolve(cfg, WipeRows(db, Experiment, Plain(experiment)), q) != Resolve(cfg, db, q)
                   <==> && q.kind == Experiment && q.resource == experiment
                        && FirstSource(cfg, db, q, cfg.order) in {Some("user"), Some("group")}
    ensures forall sp :: SpaceLevel(cfg, WipeRows(db, Experiment, Plain(experiment)), sp) == SpaceLevel(cfg, db, sp)
  {
    var key := Plain(experiment);
    var db' := WipeRows(db, Experiment, key);
    forall sp: Space ensures SpaceLevel(cfg, db', sp) == SpaceLevel(cfg, db, sp) {
      WipeKeeps(cfg, db, Experiment, key, SpaceAsk(sp));
    }
    forall q: Query
      ensures Resolve(cfg, db', q) != Resolve(cfg, db, q)
         <==> && q.kind == Experiment && q.resource == experiment
              && FirstSource(cfg, db, q, cfg.order) in {Some("user"), Some("group")}
    {
      ResolveDiffersIff(cfg, db, db', q);
      ResultNamesSource(cfg, db, q, cfg.order);
      ResultNamesSource(cfg, db', q, cfg.order);
      if q.kind == Experiment && q.resource == experiment {
        WipedWalk(cfg, db, Experiment, key, q, cfg.order);
      } else {
        WipeKeeps(cfg, db, Experiment, key, q);
      }
    }
  }

  // ---- workspaces ----

  predicate WorkspaceMethod(m: Unlisted) {
    m.SpaceUserRow? || m.SpaceGroupRow? || m.SpaceWiped? || m.SpaceUserRegex? || m.SpaceGroupRegex?
  }

  lemma GrantedMembers(d: Directory, rows: seq<GroupRow<Key>>, user: nat, key: Key, l: Level)
    ensures l in Granted(d, rows, user, key)
       <==> exists r | r in rows :: r.resource == key && (user, r.group) in d.links && r.level == l
  {
    if r :| r in rows && r.resource == key && (user, r.group) in d.links && r.level == l {
      var i :| 0 <= i < |rows| && rows[i] == r;
      assert rows[i].level in Granted(d, rows, user, key);
    }
  }

  lemma {:induction false} WithoutRowMembers(rows: seq<GroupRow<Key>>, group: nat, key: Key)
    ensures forall r :: r in WithoutRow(rows, group, key) <==> r in rows && !(r.resource == key && r.group == group)
  {
    if rows != [] { WithoutRowMembers(rows[1..], group, key); }
  }

  /**
   * A group row set or dropped: for members of the group it joins what their other groups grant,
   * for all others nothing changes.
   */
  lemma SetGroupRowGranted(db: Db, group: nat, w: Key, level: Option<Level>, user: nat, key: Key)
    ensures Granted(db.dir, GroupRows(SetGroupRow(db, group, w, level), Workspace), user, key)
         == if key == w && (user, group) in db.dir.links
            then GrantedByOthers(db.dir, GroupRows(db, Workspace), user, key, group)
                 + (if level.Some? then {level.value} else {})
            else Granted(db.dir, GroupRows(db, Workspace), user, key)
  {
    var rows, rows' := GroupRows(db, Workspace), GroupRows(SetGroupRow(db, group, w, level), Workspace);
    WithoutRowMembers(rows, group, w);
    var others := GrantedByOthers(db.dir, rows, user, key, group);
    forall l ensures l in others <==>
        exists r | r in rows :: r.resource == key && r.group != group && (user, r.group) in db.dir.links && r.level == l
    {
      if r :| r in rows && r.resource == key && r.group != group && (user, r.group) in db.dir.links && r.level == l {
        var i :| 0 <= i < |rows| && rows[i] == r;
        assert rows[i].level in others;
      }
    }
    forall l
      ensures l in Granted(db.dir, rows', user, key)
         <==> if key == w && (user, group) in db.dir.links then l in others || Some(l) == level
              else l in Granted(db.dir, rows, user, key)
    {
      GrantedMembers(db.dir, rows', user, key, l);
      GrantedMembers(db.dir, rows, user, key, l);
      if level == Some(l) { assert GroupRow(group, w, l) in rows'; }
    }
  }

  lemma UserRowAnswer(cfg: Config, db: Db, m: Unlisted, sp: Space, source: string)
    requires Sound(db) && Applicable(db, m) && m.SpaceUserRow? && sp.user in db.dir.users
    ensures SourceAnswer(cfg, Apply(db, m), SpaceAsk(sp), source) == AnswerAfter(cfg, db, m, sp, source)
  {
    var db', user := Apply(db, m), db.dir.users[sp.user];
    assert db'.dir == db.dir && db'.groupRows == db.groupRows;
    assert UserRegex(db', Workspace, user) == UserRegex(db, Workspace, user);
    assert GroupRegex(db', Workspace, user) == GroupRegex(db, Workspace, user);
  }

  lemma GroupRowAnswer(cfg: Config, db: Db, m: Unlisted, sp: Space, source: string)
    requires Applicable(db, m) && m.SpaceGroupRow? && sp.user in db.dir.users
    ensures SourceAnswer(cfg, Apply(db, m), SpaceAsk(sp), source) == AnswerAfter(cfg, db, m, sp, source)
  {
    var db', user := Apply(db, m), db.dir.users[sp.user];
    var group := FindGroup(db.dir.groups, m.group).value;
    SetGroupRowGranted(db, group, Plain(m.space), m.level, user, Plain(sp.name));
    assert db'.dir == db.dir && UserRows(db', Workspace, user) == UserRows(db, Workspace, user);
    assert UserRegex(db', Workspace, user) == UserRegex(db, Workspace, user);
    assert GroupRegex(db', Workspace, user) == GroupRegex(db, Workspace, user);
  }

  lemma RegexRowsAnswer(cfg: Config, db: Db, m: Unlisted, sp: Space, source: string)
    requires Sound(db) && Applicable(db, m) && (m.SpaceUserRegex? || m.SpaceGroupRegex?) && sp.user in db.dir.users
    ensures SourceAnswer(cfg, Apply(db, m), SpaceAsk(sp), source) == AnswerAfter(cfg, db, m, sp, source)
  {
    var db', user := Apply(db, m), db.dir.users[sp.user];
    assert db'.dir == db.dir && db'.groupRows == db.groupRows && db'.userRows == db.userRows;
  }

  /** What each source says about a workspace after a workspace method. */
  lemma SpaceAnswerAfter(cfg: Config, db: Db, m: Unlisted, sp: Space, source: string)
    requires Sound(db) && Applicable(db, m) && WorkspaceMethod(m)
    ensures SourceAnswer(cfg, Apply(db, m), SpaceAsk(sp), source) == AnswerAfter(cfg, db, m, sp, source)
  {
    if sp.user in db.dir.users {
      match m
      case SpaceUserRow(_, _, _) => UserRowAnswer(cfg, db, m, sp, source);
      case SpaceGroupRow(_, _, _) => GroupRowAnswer(cfg, db, m, sp, source);
      case SpaceWiped(space) => WipedAnswer(cfg, db, Workspace, Plain(space), SpaceAsk(sp), source);
      case _ => RegexRowsAnswer(cfg, db, m, sp, source);
    }
  }

  /** So the walk gives the level that was read off before the call. */
  lemma {:induction false} SpaceWalkAfter(cfg: Config, db: Db, m: Unlisted, sp: Space, order: seq<string>)
    requires Sound(db) && Applicable(db, m) && WorkspaceMethod(m)
    ensures LevelAfter(cfg, db, m, sp, order)
         == match FirstSource(cfg, Apply(db, m), SpaceAsk(sp), order)
            case None => None
            case Some(_) => Some(FromStoreOrDefault(cfg, Apply(db, m), SpaceAsk(sp), order).level)
  {
    if order != [] {
      SpaceWalkAfter(cfg, db, m, sp, order[1..]);
      SpaceAnswerAfter(cfg, db, m, sp, order[0]);
    }
  }

  lemma {:induction false} NotAboutKeepsLevel(cfg: Config, db: Db, m: Unlisted, sp: Space, order: seq<string>)
    requires Applicable(db, m) && !AboutSpace(db, m, sp)
    ensures LevelAfter(cfg, db, m, sp, order)
         == match FirstSource(cfg, db, SpaceAsk(sp), order)
            case None => None
            case Some(_) => Some(FromStoreOrDefault(cfg, db, SpaceAsk(sp), order).level)
  {
    if order != [] { NotAboutKeepsLevel(cfg, db, m, sp, order[1..]); }
  }

  /** The workspace methods leave what the sources say about resources alone. */
  lemma ResourcesUntouched(cfg: Config, db: Db, m: Unlisted, q: Query)
    requires Applicable(db, m) && WorkspaceMethod(m)
    ensures FromStoreOrDefault(cfg, Apply(db, m), q, cfg.order) == FromStoreOrDefault(cfg, db, q, cfg.order)
    ensures FirstSource(cfg, Apply(db, m), q, cfg.order) == FirstSource(cfg, db, q, cfg.order)
  {
    var db' := Apply(db, m);
    if m.SpaceWiped? {
      WipeKeeps(cfg, db, Workspace, Plain(m.space), q);
    } else {
      forall source ensures SourceAnswer(cfg, db', q, source) == SourceAnswer(cfg, db, q, source) {
        assert GroupRows(db', DirectTable(q.kind)) == GroupRows(db, DirectTable(q.kind));
      }
      SameWalkFor(cfg, db', db, q, q, cfg.order);
    }
  }

  /** A user holds a level on a resource by a row of their own. */
  ghost predicate Holds(db: Db, t: Kind, user: nat, key: Key, l: Level) {
    (t, user) in db.userRows && key in db.userRows[(t, user)] && db.userRows[(t, user)][key] == l
  }

  /** What the methods on a user's workspace row leave in the tables. */
  lemma UserRowAfter(db: Db, name: string, space: string, level: Option<Level>, t: Kind, user: nat, key: Key, l: Level)
    requires name in db.dir.users
    ensures var db' := Apply(db, SpaceUserRow(name, space, level));
            && db' == db.(userRows := db'.userRows)
            && (Holds(db', t, user, key, l) <==>
                  if t == Workspace && user == db.dir.users[name] && key == Plain(space) then level == Some(l)
                  else Holds(db, t, user, key, l))
  {
  }

  /** On a group's workspace row. */
  lemma GroupRowAfter(db: Db, group: string, id: nat, space: string, level: Option<Level>, r: GroupRow<Key>)
    requires FindGroup(db.dir.groups, group) == Some(id)
    ensures var db' := Apply(db, SpaceGroupRow(group, space, level));
            && db' == db.(groupRows := db.groupRows[Workspace := GroupRows(db', Workspace)])
            && (r in GroupRows(db', Workspace) <==>
                  if r.group == id && r.resource == Plain(space) then level == Some(r.level)
                  else r in GroupRows(db, Workspace))
  {
    WithoutRowMembers(GroupRows(db, Workspace), id, Plain(space));
  }

  /** And on a whole workspace. */
  lemma SpaceWipeAfter(db: Db, space: string, t: Kind, user: nat, key: Key, l: Level, r: GroupRow<Key>)
    ensures var db' := Apply(db, SpaceWiped(space));
            && db' == db.(userRows := db'.userRows, groupRows := db.groupRows[Workspace := GroupRows(db', Workspace)])
            && (Holds(db', t, user, key, l) <==> Holds(db, t, user, key, l) && !(t == Workspace && key == Plain(space)))
            && (r in GroupRows(db', Workspace) <==> r in GroupRows(db, Workspace) && r.resource != Plain(space))
  {
    WithoutResourceMembers(GroupRows(db, Workspace), Plain(space));
  }

  /** The methods on workspace regexes replace the rows of one user, or the group rows, and nothing else. */
  lemma RegexRowsAfter(db: Db, name: string, rows: seq<RegexRow>, groupRows: seq<(nat, RegexRow)>)
    ensures name in db.dir.users ==>
              Apply(db, SpaceUserRegex(name, rows))
                  == db.(userRegex := db.userRegex[(Workspace, db.dir.users[name]) := rows])
    ensures Apply(db, SpaceGroupRegex(groupRows)) == db.(groupRegex := db.groupRegex[Workspace := groupRows])
  {
  }

  /** The methods on users and groups: whoever is there afterwards, under which id. */
  lemma DirectoryAfter(db: Db, name: string, other: string, id: nat, groups: seq<Group>)
    ensures name != "" && name !in db.dir.users && id !in db.dir.users.Values ==>
              Apply(db, UserCreated(name, id)).dir == db.dir.(users := db.dir.users[name := id])
    ensures name in db.dir.users && other != "" && (other == name || other !in db.dir.users) ==>
              && other in Apply(db, UserRenamed(name, other)).dir.users
              && Apply(db, UserRenamed(name, other)).dir.users[other] == db.dir.users[name]
              && Apply(db, UserRenamed(name, other)).dir.users - {other} == db.dir.users - {name}
    ensures name in db.dir.users ==>
              && Apply(db, UserDeleted(name)).dir.users == db.dir.users - {name}
              && forall l ::
                   l in Apply(db, UserDeleted(name)).dir.links <==> l in db.dir.links && l.0 != db.dir.users[name]
    ensures Apply(db, GroupsPopulated(groups)).dir == db.dir.(groups := db.dir.groups + groups)
  {
  }

  lemma {:induction false} WithoutResourceMembers(rows: seq<GroupRow<Key>>, key: Key)
    ensures forall r :: r in WithoutResource(rows, key) <==> r in rows && r.resource != key
  {
    if rows != [] { WithoutResourceMembers(rows[1..], key); }
  }

  // ---- all of them ----

  /** Every unlisted method changes exactly the workspace permissions it touches. */
  lemma SpaceChangesIff(cfg: Config, db: Db, m: Unlisted, sp: Space)
    requires Sound(db) && Applicable(db, m)
    ensures SpaceLevel(cfg, Apply(db, m), sp) != SpaceLevel(cfg, db, sp) <==> TouchesSpace(cfg, db, m, sp)
  {
    match m
    case UserCreated(name, id) => CreateChangesNothing(cfg, db, name, id);
    case UserRenamed(from, to) => RenameChangesIff(cfg, db, from, to);
    case UserDeleted(name) => DeleteChangesIff(cfg, db, name);
    case GroupsPopulated(_) => UserUntouched(cfg, db, Apply(db, m), sp.user);
    case ExperimentWiped(experiment) => WipeChangesIff(cfg, db, experiment);
    case _ =>
      SpaceWalkAfter(cfg, db, m, sp, cfg.order);
      if !AboutSpace(db, m, sp) { NotAboutKeepsLevel(cfg, db, m, sp, cfg.order); }
  }

  /** Every unlisted method changes exactly the resolutions it touches. */
  lemma ChangesIffTouched(cfg: Config, db: Db, m: Unlisted, q: Query)
    requires Sound(db) && Applicable(db, m)
    ensures Resolve(cfg, Apply(db, m), q) != Resolve(cfg, db, q) <==> Touched(cfg, db, m, q)
  {
    match m
    case UserCreated(name, id) => CreateChangesNothing(cfg, db, name, id);
    case UserRenamed(from, to) => RenameChangesIff(cfg, db, from, to);
    case UserDeleted(name) => DeleteChangesIff(cfg, db, name);
    case GroupsPopulated(_) => UserUntouched(cfg, db, Apply(db, m), q.user);
    case ExperimentWiped(experiment) => WipeChangesIff(cfg, db, experiment);
    case _ =>
      ResourcesUntouched(cfg, db, m, q);
      ResolveDiffersIff(cfg, db, Apply(db, m), q);
      if Effective(cfg, q).Some? { SpaceChangesIff(cfg, db, m, Effective(cfg, q).value); }
  }

  /** They also keep the tables sound. */
  lemma ApplySound(db: Db, m: Unlisted)
    requires Sound(db) && Applicable(db, m)
    ensures Sound(Apply(db, m))
  {
    var users, users' := db.dir.users, Apply(db, m).dir.users;
    forall id | id in users.Values && !(m.UserDeleted? && id == users[m.name]) ensures id in users'.Values {
      var n :| n in users && users[n] == id;
      if m.UserRenamed? && n == m.from {
        assert users'[m.to] == id;
      } else {
        assert users'[n] == id;
      }
    }
  }
}
