/**
 * Permission resolution: the one-at-a-time resolver of utils/permissions.py and the pre-fetched
 * batch resolver of utils/batch_permissions.py, and exactly when the two agree.
 */
module Resolution {
  import opened Common
  import opened Permissions
  import opened GroupFold

  datatype Kind =
    | Experiment | RegisteredModel | Prompt | Scorer
    | GatewayEndpoint | GatewaySecret | GatewayModelDefinition
    | Workspace

  datatype Key = Plain(id: string) | OfScorer(experiment: string, scorer: string)

  /** The permission tables; regex rows are listed in priority order. */
  datatype Db = Db(
    dir: Directory,
    userRows: map<(Kind, nat), map<Key, Level>>,
    groupRows: map<Kind, seq<GroupRow<Key>>>,
    userRegex: map<(Kind, nat), seq<RegexRow>>,
    groupRegex: map<Kind, seq<(nat, RegexRow)>>)

  datatype Config = Config(
    order: seq<string>,
    fallback: Level,
    matches: (string, string) -> bool,
    experimentName: string -> Option<string>,
    workspaces: bool)

  datatype Ask = Ask(kind: Kind, resource: string, scorer: string, user: string, workspace: Option<string>)

  /** Workspaces are tenants, not resources: their tables are asked by the fallback only. */
  type Query = a: Ask | a.kind != Workspace witness Ask(Experiment, "", "", "", None)

  /** A user in a workspace. */
  datatype Space = Space(user: string, name: string)

  function SpaceAsk(sp: Space): Ask { Ask(Workspace, sp.name, "", sp.user, None) }

  /** The workspace a query falls back on; an empty name is none. */
  function Effective(cfg: Config, q: Query): Option<Space> {
    if cfg.workspaces && q.workspace.Some? && q.workspace.value != "" then Some(Space(q.user, q.workspace.value))
        else None
  }

  datatype PermissionResult = PermissionResult(level: Level, kind: string)

  /** Prompts share the direct tables of registered models but have their own regex tables. */
  function DirectTable(k: Kind): Kind { if k == Prompt then RegisteredModel else k }

  function KeyOf(q: Ask): Key { if q.kind == Scorer then OfScorer(q.resource, q.scorer) else Plain(q.resource) }

  /** The name the regexes are matched against; an unknown experiment has none. */
  function MatchName(cfg: Config, q: Ask): Option<string> {
    if q.kind == Experiment then cfg.experimentName(q.resource)
    else if q.kind == Scorer then Some(q.scorer)
    else Some(q.resource)
  }

  function UserRows(db: Db, t: Kind, user: nat): map<Key, Level> {
    if (t, user) in db.userRows then db.userRows[(t, user)] else map[]
  }

  function GroupRows(db: Db, t: Kind): seq<GroupRow<Key>> {
    if t in db.groupRows then db.groupRows[t] else []
  }

  function UserRegex(db: Db, k: Kind, user: nat): seq<RegexRow> {
    if (k, user) in db.userRegex then db.userRegex[(k, user)] else []
  }

  /** The regex rows of the user's groups, in the table's priority order. */
  function MemberRegex(d: Directory, rows: seq<(nat, RegexRow)>, user: nat): seq<RegexRow> {
    if rows == [] then []
    else if (user, rows[0].0) in d.links then [rows[0].1] + MemberRegex(d, rows[1..], user)
    else MemberRegex(d, rows[1..], user)
  }

  function GroupRegex(db: Db, k: Kind, user: nat): seq<RegexRow> {
    MemberRegex(db.dir, if k in db.groupRegex then db.groupRegex[k] else [], user)
  }

  function FirstMatch(rows: seq<RegexRow>, matches: (string, string) -> bool, name: string): Option<Level> {
    if rows == [] then None
    else if matches(rows[0].regex, name) then Some(rows[0].level)
    else FirstMatch(rows[1..], matches, name)
  }

  // ---- one resource at a time ----

  /** Resources take the first match, workspaces the decisive level of the first tier. */
  function RegexAnswer(k: Kind, rows: seq<RegexRow>, matches: (string, string) -> bool, name: string): Option<Level> {
    if k == Workspace then TierLevel(rows, matches, name) else FirstMatch(rows, matches, name)
  }

  /** What one source says; None stands for RESOURCE_DOES_NOT_EXIST, also raised for an unknown user. */
  function SourceAnswer(cfg: Config, db: Db, q: Ask, source: string): Option<Level> {
    if q.user !in db.dir.users then None
    else
      var user := db.dir.users[q.user];
      if source == "user" then
        var rows := UserRows(db, DirectTable(q.kind), user);
        if KeyOf(q) in rows then Some(rows[KeyOf(q)]) else None
      else if source == "group" then
        GroupLevel(db.dir, GroupRows(db, DirectTable(q.kind)), q.user, KeyOf(q))
      else if source == "regex" then
        match MatchName(cfg, q) {
          case None => None
          case Some(name) => RegexAnswer(q.kind, UserRegex(db, q.kind, user), cfg.matches, name)
        }
      else if source == "group-regex" then
        match MatchName(cfg, q) {
          case None => None
          case Some(name) => RegexAnswer(q.kind, GroupRegex(db, q.kind, user), cfg.matches, name)
        }
      else None
  }

  /** The first source in the configured order that answers. */
  function FirstSource(cfg: Config, db: Db, q: Ask, order: seq<string>): Option<string> {
    if order == [] then None
    else if SourceAnswer(cfg, db, q, order[0]).Some? then Some(order[0])
    else FirstSource(cfg, db, q, order[1..])
  }

  function FromStoreOrDefault(cfg: Config, db: Db, q: Ask, order: seq<string>): PermissionResult {
    if order == [] then PermissionResult(cfg.fallback, "fallback")
    else match SourceAnswer(cfg, db, q, order[0])
         case Some(l) => PermissionResult(l, order[0])
         case None => FromStoreOrDefault(cfg, db, q, order[1..])
  }

  /** The workspace permission of a user: the same walk over the workspace tables. */
  function SpaceLevel(cfg: Config, db: Db, sp: Space): Option<Level> {
    match FirstSource(cfg, db, SpaceAsk(sp), cfg.order)
    case None => None
    case Some(_) => Some(FromStoreOrDefault(cfg, db, SpaceAsk(sp), cfg.order).level)
  }

  function EffectiveLevel(cfg: Config, db: Db, q: Query): Option<Level> {
    match Effective(cfg, q)
    case None => None
    case Some(sp) => SpaceLevel(cfg, db, sp)
  }

  /** A fallback result gives way to the workspace permission, if the query has a workspace. */
  function WorkspaceFallback(cfg: Config, q: Query, r: PermissionResult, level: Option<Level>): PermissionResult {
    if r.kind != "fallback" || Effective(cfg, q).None? then r
    else match level
         case Some(l) => PermissionResult(l, "workspace")
         case None => PermissionResult(NO_PERMISSIONS, "workspace-deny")
  }

  /** resolve_permission without its caches. */
  function Resolve(cfg: Config, db: Db, q: Query): PermissionResult {
    WorkspaceFallback(cfg, q, FromStoreOrDefault(cfg, db, q, cfg.order), EffectiveLevel(cfg, db, q))
  }

  /**
   * The answer is that of the first source in the configured order that has one; only when none has
   * does the fallback speak.
   */
  lemma {:induction false} FirstAnswerWins(cfg: Config, db: Db, q: Ask, order: seq<string>) returns (i: nat)
    ensures i <= |order| && forall k | 0 <= k < i :: SourceAnswer(cfg, db, q, order[k]) == None
    ensures FirstSource(cfg, db, q, order) == if i < |order| then Some(order[i]) else None
    ensures var r := FromStoreOrDefault(cfg, db, q, order);
            if i < |order| then r.kind == order[i] && SourceAnswer(cfg, db, q, order[i]) == Some(r.level)
            else r == PermissionResult(cfg.fallback, "fallback")
  {
    if order == [] || SourceAnswer(cfg, db, q, order[0]).Some? {
      i := 0;
    } else {
      var k := FirstAnswerWins(cfg, db, q, order[1..]);
      i := k + 1;
    }
  }

  /** Where every source answers two lookups alike, the walks are alike. */
  lemma {:induction false} SameWalkFor(cfg: Config, db: Db, db': Db, q: Ask, q': Ask, order: seq<string>)
    requires forall source :: SourceAnswer(cfg, db, q, source) == SourceAnswer(cfg, db', q', source)
    ensures FromStoreOrDefault(cfg, db, q, order) == FromStoreOrDefault(cfg, db', q', order)
    ensures FirstSource(cfg, db, q, order) == FirstSource(cfg, db', q', order)
  {
    if order != [] {
      SameWalkFor(cfg, db, db', q, q', order[1..]);
      assert SourceAnswer(cfg, db, q, order[0]) == SourceAnswer(cfg, db', q', order[0]);
    }
  }

  /** Regex rows come in priority order. */
  ghost predicate SortedRegex(db: Db, user: nat) {
    ByPriority(UserRegex(db, Workspace, user)) && ByPriority(GroupRegex(db, Workspace, user))
  }

  /** _lookup_workspace_permission: the configured sources in turn, unknown names skipped, the first answer wins. */
  method LookUpWorkspacePermission(cfg: Config, db: Db, sp: Space) returns (r: Option<Level>)
    requires sp.user in db.dir.users ==> SortedRegex(db, db.dir.users[sp.user])
    ensures r == SpaceLevel(cfg, db, sp)
  {
    if sp.user !in db.dir.users {
      ghost var i := FirstAnswerWins(cfg, db, SpaceAsk(sp), cfg.order);
      return None;
    }
    var user := db.dir.users[sp.user];
    for i := 0 to |cfg.order|
      invariant FirstSource(cfg, db, SpaceAsk(sp), cfg.order[i..]) == FirstSource(cfg, db, SpaceAsk(sp), cfg.order)
      invariant FromStoreOrDefault(cfg, db, SpaceAsk(sp), cfg.order[i..])
             == FromStoreOrDefault(cfg, db, SpaceAsk(sp), cfg.order)
    {
      assert cfg.order[i..][0] == cfg.order[i] && cfg.order[i..][1..] == cfg.order[i + 1..];
      var result := AskWorkspaceSource(cfg, db, sp, user, cfg.order[i]);
      if result.Some? { return result; }
    }
    assert cfg.order[|cfg.order|..] == [];
    r := None;
  }

  method AskWorkspaceSource(cfg: Config, db: Db, sp: Space, user: nat, source: string) returns (r: Option<Level>)
    requires sp.user in db.dir.users && db.dir.users[sp.user] == user && SortedRegex(db, user)
    ensures r == SourceAnswer(cfg, db, SpaceAsk(sp), source)
  {
    r := None;
    if source == "user" {
      var rows := UserRows(db, Workspace, user);
      if Plain(sp.name) in rows { r := Some(rows[Plain(sp.name)]); }
    } else if source == "group" {
      r := HighestForUser(db.dir, GroupRows(db, Workspace), Plain(sp.name), user);
    } else if source == "regex" {
      var tier;
      r, tier := MatchWorkspaceRegex(UserRegex(db, Workspace, user), cfg.matches, sp.name);
    } else if source == "group-regex" {
      var tier;
      r, tier := MatchWorkspaceRegex(GroupRegex(db, Workspace, user), cfg.matches, sp.name);
    }
  }

  // ---- pre-fetched, for many resources ----

  datatype Context = Context(
    userDirect: map<Key, Level>,
    groupDirect: map<Key, Level>,
    userRegex: seq<RegexRow>,
    groupRegex: seq<RegexRow>)

  function MemberRows(d: Directory, rows: seq<GroupRow<Key>>, user: nat): seq<GroupRow<Key>> {
    if rows == [] then []
    else if (user, rows[0].group) in d.links then [rows[0]] + MemberRows(d, rows[1..], user)
    else MemberRows(d, rows[1..], user)
  }

  /** A dict comprehension over rows: a later row overwrites an earlier one. */
  function Dict(rows: seq<GroupRow<Key>>): map<Key, Level> {
    if rows == [] then map[] else map[rows[0].resource := rows[0].level] + Dict(rows[1..])
  }

  /** Fails for an unknown user, where the one-at-a-time resolver falls back to the default. */
  function BuildContext(db: Db, kind: Kind, username: string): Option<Context> {
    if username !in db.dir.users then None
    else
      var user := db.dir.users[username];
      var t := DirectTable(kind);
      Some(Context(
             UserRows(db, t, user),
             Dict(MemberRows(db.dir, GroupRows(db, t), user)),
             UserRegex(db, kind, user),
             GroupRegex(db, kind, user)))
  }

  function ContextAnswer(cfg: Config, ctx: Context, key: Key, name: string, source: string): Option<Level> {
    if source == "user" then (if key in ctx.userDirect then Some(ctx.userDirect[key]) else None)
    else if source == "group" then (if key in ctx.groupDirect then Some(ctx.groupDirect[key]) else None)
    else if source == "regex" then FirstMatch(ctx.userRegex, cfg.matches, name)
    else if source == "group-regex" then FirstMatch(ctx.groupRegex, cfg.matches, name)
    else None
  }

  function FromContext(cfg: Config, ctx: Context, key: Key, name: string, order: seq<string>): PermissionResult {
    if order == [] then PermissionResult(cfg.fallback, "fallback")
    else match ContextAnswer(cfg, ctx, key, name, order[0])
         case Some(l) => PermissionResult(l, order[0])
         case None => FromContext(cfg, ctx, key, name, order[1..])
  }

  /** The batch answer for one listed resource, whose name the caller already has. */
  function BatchResolve(cfg: Config, db: Db, q: Query, name: string): Option<PermissionResult> {
    match BuildContext(db, q.kind, q.user)
    case None => None
    case Some(ctx) => 
      Some(WorkspaceFallback(cfg, q, FromContext(cfg, ctx, KeyOf(q), name, cfg.order), EffectiveLevel(cfg, db, q)))
  }

  // ---- when they agree ----

  ghost predicate OneLevel(levels: set<Level>) {
    forall a, b | a in levels && b in levels :: a == b
  }

  function GrantedTo(db: Db, q: Query): set<Level>
    requires q.user in db.dir.users
  {
    Granted(db.dir, GroupRows(db, DirectTable(q.kind)), db.dir.users[q.user], KeyOf(q))
  }

  function Reordered(db: Db, t: Kind, rows: seq<GroupRow<Key>>): Db {
    db.(groupRows := db.groupRows[t := rows])
  }

  /** The dict keeps the last joined row of a key. */
  lemma {:induction false} DictKeepsLast(d: Directory, rows: seq<GroupRow<Key>>, user: nat, key: Key)
    ensures var joined := Joined(d, rows, user, key);
            var dict := Dict(MemberRows(d, rows, user));
            && (key in dict <==> joined != [])
            && (joined != [] ==> dict[key] == joined[|joined| - 1].level)
  {
    if rows != [] {
      DictKeepsLast(d, rows[1..], user, key);
      var rest := MemberRows(d, rows[1..], user);
      if (user, rows[0].group) in d.links {
        assert MemberRows(d, rows, user) == [rows[0]] + rest;
        assert ([rows[0]] + rest)[1..] == rest;
      } else {
        assert MemberRows(d, rows, user) == rest;
      }
    }
  }

  /** So its group answer is one of the granted levels, and it has one whenever a level is granted. */
  lemma DictAnswer(d: Directory, rows: seq<GroupRow<Key>>, user: nat, key: Key)
    ensures var dict := Dict(MemberRows(d, rows, user));
            && (key in dict <==> Granted(d, rows, user, key) != {})
            && (key in dict ==> dict[key] in Granted(d, rows, user, key))
  {
    DictKeepsLast(d, rows, user, key);
    JoinedLevels(d, rows, user, key);
    var joined := Joined(d, rows, user, key);
    if joined != [] {
      assert joined[|joined| - 1].level in Levels(joined);
    } else {
      assert Levels(joined) == {};
    }
  }

  lemma {:induction false} JoinedConcat(d: Directory, a: seq<GroupRow<Key>>, b: seq<GroupRow<Key>>, user: nat, key: Key)
    ensures Joined(d, a + b, user, key) == Joined(d, a, user, key) + Joined(d, b, user, key)
  {
    if a == [] {
      assert a + b == b;
    } else {
      JoinedConcat(d, a[1..], b, user, key);
      assert (a + b)[1..] == a[1..] + b;
    }
  }

  /** Outside the group source the two resolvers read the same rows. */
  lemma SameAnswers(cfg: Config, db: Db, q: Query, name: string, source: string)
    requires q.user in db.dir.users && MatchName(cfg, q) == Some(name)
    requires source != "group" || OneLevel(GrantedTo(db, q))
    ensures ContextAnswer(cfg, BuildContext(db, q.kind, q.user).value, KeyOf(q), name, source)
         == SourceAnswer(cfg, db, q, source)
  {
    if source == "group" {
      var t := DirectTable(q.kind);
      DictAnswer(db.dir, GroupRows(db, t), db.dir.users[q.user], KeyOf(q));
      DecisiveIsGreatest(GrantedTo(db, q), READ);
      var dec := Decisive(GrantedTo(db, q));
      if dec.Some? { DecisiveIsGreatest(GrantedTo(db, q), dec.value); }
    }
  }

  /** The batch walk and the single walk stop at the same source. */
  lemma {:induction false} SameWalk(cfg: Config, db: Db, q: Query, name: string, order: seq<string>)
    requires q.user in db.dir.users && MatchName(cfg, q) == Some(name)
    ensures var ctx := BuildContext(db, q.kind, q.user).value;
            var batch := FromContext(cfg, ctx, KeyOf(q), name, order);
            if FirstSource(cfg, db, q, order) == Some("group")
            then batch.kind == "group" && KeyOf(q) in ctx.groupDirect && batch.level == ctx.groupDirect[KeyOf(q)]
            else batch == FromStoreOrDefault(cfg, db, q, order)
    ensures FirstSource(cfg, db, q, order) == Some("group")
        ==> FromStoreOrDefault(cfg, db, q, order).kind == "group"
            && Decisive(GrantedTo(db, q)) == Some(FromStoreOrDefault(cfg, db, q, order).level)
  {
    if order != [] {
      if order[0] == "group" {
        DictAnswer(db.dir, GroupRows(db, DirectTable(q.kind)), db.dir.users[q.user], KeyOf(q));
        DecisiveIsGreatest(GrantedTo(db, q), READ);
      } else {
        SameAnswers(cfg, db, q, name, order[0]);
      }
      SameWalk(cfg, db, q, name, order[1..]);
    }
  }

  lemma AnswerIgnoresOrder(cfg: Config, db: Db, q: Ask, rows: seq<GroupRow<Key>>, source: string)
    requires multiset(rows) == multiset(GroupRows(db, DirectTable(q.kind)))
    ensures SourceAnswer(cfg, Reordered(db, DirectTable(q.kind), rows), q, source) == SourceAnswer(cfg, db, q, source)
  {
    OrderIrrelevant(db.dir, rows, GroupRows(db, DirectTable(q.kind)), q.user, KeyOf(q));
  }

  /** Row order is invisible to the one-at-a-time resolver. */
  lemma {:induction false} ResolveIgnoresOrder(cfg: Config, db: Db, q: Ask, rows: seq<GroupRow<Key>>,
                                               order: seq<string>)
    requires multiset(rows) == multiset(GroupRows(db, DirectTable(q.kind)))
    ensures var db' := Reordered(db, DirectTable(q.kind), rows);
            && FromStoreOrDefault(cfg, db', q, order) == FromStoreOrDefault(cfg, db, q, order)
            && FirstSource(cfg, db', q, order) == FirstSource(cfg, db, q, order)
  {
    if order != [] {
      ResolveIgnoresOrder(cfg, db, q, rows, order[1..]);
      AnswerIgnoresOrder(cfg, db, q, rows, order[0]);
    }
  }

  lemma ReorderedGranted(db: Db, q: Query, rows: seq<GroupRow<Key>>)
    requires q.user in db.dir.users && multiset(rows) == multiset(GroupRows(db, DirectTable(q.kind)))
    ensures GrantedTo(Reordered(db, DirectTable(q.kind), rows), q) == GrantedTo(db, q)
  {
    var before := GroupRows(db, DirectTable(q.kind));
    GrantedSubset(db.dir, rows, before, db.dir.users[q.user], KeyOf(q));
    GrantedSubset(db.dir, before, rows, db.dir.users[q.user], KeyOf(q));
  }

  /** Rows of resources do not matter to workspace permissions. */
  lemma ReorderedSpaces(cfg: Config, db: Db, q: Query, rows: seq<GroupRow<Key>>)
    ensures EffectiveLevel(cfg, Reordered(db, DirectTable(q.kind), rows), q) == EffectiveLevel(cfg, db, q)
  {
    if Effective(cfg, q).Some? {
      var a, db' := SpaceAsk(Effective(cfg, q).value), Reordered(db, DirectTable(q.kind), rows);
      assert GroupRows(db', Workspace) == GroupRows(db, Workspace);
      SameWalkFor(cfg, db, db', a, a, cfg.order);
    }
  }

  /** The group answer a given row order leads to. */
  lemma BatchUnderOrder(cfg: Config, db: Db, q: Query, name: string, rows: seq<GroupRow<Key>>)
    requires q.user in db.dir.users && MatchName(cfg, q) == Some(name)
    requires multiset(rows) == multiset(GroupRows(db, DirectTable(q.kind)))
    ensures var db' := Reordered(db, DirectTable(q.kind), rows);
            var joined := Joined(db.dir, rows, db.dir.users[q.user], KeyOf(q));
            if FirstSource(cfg, db, q, cfg.order) == Some("group")
            then joined != []
                 && BatchResolve(cfg, db', q, name) == Some(PermissionResult(joined[|joined| - 1].level, "group"))
            else BatchResolve(cfg, db', q, name) == Some(Resolve(cfg, db, q))
  {
    var db' := Reordered(db, DirectTable(q.kind), rows);
    ResolveIgnoresOrder(cfg, db, q, rows, cfg.order);
    ReorderedSpaces(cfg, db, q, rows);
    SameWalk(cfg, db', q, name, cfg.order);
    DictKeepsLast(db.dir, rows, db.dir.users[q.user], KeyOf(q));
  }

  /** Some order ends with any chosen granted level. */
  lemma OrderEndingWith(d: Directory, rows: seq<GroupRow<Key>>, user: nat, key: Key, l: Level)
      returns (rows': seq<GroupRow<Key>>)
    requires l in Granted(d, rows, user, key)
    ensures multiset(rows') == multiset(rows)
    ensures var joined := Joined(d, rows', user, key); joined != [] && joined[|joined| - 1].level == l
  {
    var i :| 0 <= i < |rows| && rows[i].resource == key && (user, rows[i].group) in d.links && rows[i].level == l;
    rows' := (rows[..i] + rows[i + 1..]) + [rows[i]];
    assert rows == rows[..i] + [rows[i]] + rows[i + 1..];
    JoinedConcat(d, rows[..i] + rows[i + 1..], [rows[i]], user, key);
    assert [rows[i]][1..] == [];
    assert Joined(d, [rows[i]], user, key) == [rows[i]];
  }

  lemma AgreesWhenOneLevel(cfg: Config, db: Db, q: Query, name: string, rows: seq<GroupRow<Key>>)
    requires q.user in db.dir.users && MatchName(cfg, q) == Some(name)
    requires multiset(rows) == multiset(GroupRows(db, DirectTable(q.kind)))
    requires FirstSource(cfg, db, q, cfg.order) == Some("group") && OneLevel(GrantedTo(db, q))
    ensures BatchResolve(cfg, Reordered(db, DirectTable(q.kind), rows), q, name) == Some(Resolve(cfg, db, q))
  {
    BatchUnderOrder(cfg, db, q, name, rows);
    ReorderedGranted(db, q, rows);
    var joined := Joined(db.dir, rows, db.dir.users[q.user], KeyOf(q));
    JoinedLevels(db.dir, rows, db.dir.users[q.user], KeyOf(q));
    assert joined[|joined| - 1].level in Levels(joined);
    SameWalk(cfg, db, q, name, cfg.order);
    DecisiveIsGreatest(GrantedTo(db, q), FromStoreOrDefault(cfg, db, q, cfg.order).level);
  }

  lemma DisagreesOnSomeOrder(cfg: Config, db: Db, q: Query, name: string) returns (rows: seq<GroupRow<Key>>)
    requires q.user in db.dir.users && MatchName(cfg, q) == Some(name)
    requires FirstSource(cfg, db, q, cfg.order) == Some("group") && !OneLevel(GrantedTo(db, q))
    ensures multiset(rows) == multiset(GroupRows(db, DirectTable(q.kind)))
    ensures BatchResolve(cfg, Reordered(db, DirectTable(q.kind), rows), q, name) != Some(Resolve(cfg, db, q))
  {
    var a, b :| a in GrantedTo(db, q) && b in GrantedTo(db, q) && a != b;
    var l := if Decisive(GrantedTo(db, q)) == Some(a) then b else a;
    rows := OrderEndingWith(db.dir, GroupRows(db, DirectTable(q.kind)), db.dir.users[q.user], KeyOf(q), l);
    BatchUnderOrder(cfg, db, q, name, rows);
    SameWalk(cfg, db, q, name, cfg.order);
  }

  /**
   * The batch resolver is meant to be the fast form of the single one. Nothing fixes the order in
   * which group rows are listed, so it is right for every listing exactly when another source
   * answers first or the user's groups hold a single level on the resource.
   */
  lemma BatchAgreesIff(cfg: Config, db: Db, q: Query, name: string)
    requires q.user in db.dir.users && MatchName(cfg, q) == Some(name)
    ensures (forall rows | multiset(rows) == multiset(GroupRows(db, DirectTable(q.kind)))
                :: BatchResolve(cfg, Reordered(db, DirectTable(q.kind), rows), q, name) == Some(Resolve(cfg, db, q)))
       <==> (FirstSource(cfg, db, q, cfg.order) != Some("group") || OneLevel(GrantedTo(db, q)))
  {
    if FirstSource(cfg, db, q, cfg.order) == Some("group") && !OneLevel(GrantedTo(db, q)) {
      var rows := DisagreesOnSomeOrder(cfg, db, q, name);
    } else {
      forall rows | multiset(rows) == multiset(GroupRows(db, DirectTable(q.kind)))
        ensures BatchResolve(cfg, Reordered(db, DirectTable(q.kind), rows), q, name) == Some(Resolve(cfg, db, q))
      {
        if FirstSource(cfg, db, q, cfg.order) == Some("group") {
          AgreesWhenOneLevel(cfg, db, q, name, rows);
        } else {
          BatchUnderOrder(cfg, db, q, name, rows);
        }
      }
    }
  }

  const TWO_GROUPS := Directory(map["ann" := 1], [Group(1, "a"), Group(2, "b")], {(1, 1), (1, 2)})
  const TWO_ROWS := [GroupRow(1, Plain("m"), MANAGE), GroupRow(2, Plain("m"), READ)]
  const TWO_DB := Db(TWO_GROUPS, map[], map[RegisteredModel := TWO_ROWS], map[], map[])

  lemma TwoRowsJoined()
    ensures Joined(TWO_GROUPS, TWO_ROWS, 1, Plain("m")) == TWO_ROWS
    ensures Decisive(Granted(TWO_GROUPS, TWO_ROWS, 1, Plain("m"))) == Some(MANAGE)
  {
    var rows := TWO_ROWS;
    assert rows[1..] == [GroupRow(2, Plain("m"), READ)] && rows[1..][1..] == [];
    assert Joined(TWO_GROUPS, rows[1..], 1, Plain("m")) == rows[1..];
    JoinedLevels(TWO_GROUPS, rows, 1, Plain("m"));
    assert rows[0].level in Levels(rows);
  }

  /** A group with MANAGE listed before a group with READ: the batch answer is READ, the resolver's MANAGE. */
  lemma BatchDisagrees(cfg: Config, q: Query)
    requires cfg.order == ["user", "group", "regex", "group-regex"]
    requires q == Ask(RegisteredModel, "m", "", "ann", None)
    ensures Resolve(cfg, TWO_DB, q) == PermissionResult(MANAGE, "group")
    ensures BatchResolve(cfg, TWO_DB, q, "m") == Some(PermissionResult(READ, "group"))
  {
    TwoRowsJoined();
    assert cfg.order[1..][0] == "group";
    assert SourceAnswer(cfg, TWO_DB, q, "user") == None && SourceAnswer(cfg, TWO_DB, q, "group") == Some(MANAGE);
    assert FirstSource(cfg, TWO_DB, q, cfg.order) == FirstSource(cfg, TWO_DB, q, cfg.order[1..]) == Some("group");
    assert Reordered(TWO_DB, RegisteredModel, TWO_ROWS) == TWO_DB;
    BatchUnderOrder(cfg, TWO_DB, q, "m", TWO_ROWS);
    SameWalk(cfg, TWO_DB, q, "m", cfg.order);
  }
}
