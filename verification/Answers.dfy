/**
 * What permission resolution answers, row by row: the tables of utils/permissions.py read directly,
 * without the lookup functions of the resolver.
 */
module Answers {
  import opened Common
  import opened Permissions
  import opened GroupFold
  import opened Resolution

  /** Prompts have no direct tables of their own; scorer rows carry the scorer's name as well. */
  ghost predicate StandsFor(q: Ask, t: Kind, key: Key) {
    && t == (if q.kind == Prompt then RegisteredModel else q.kind)
    && key == (if q.kind == Scorer then OfScorer(q.resource, q.scorer) else Plain(q.resource))
  }

  /** The name regexes are held against: the experiment's, the scorer's, or the resource's own. */
  ghost predicate GoesBy(cfg: Config, q: Ask, name: string) {
    match q.kind
    case Experiment => cfg.experimentName(q.resource) == Some(name)
    case Scorer => name == q.scorer
    case _ => name == q.resource
  }

  /** Only the four known sources answer, and only for a known user. */
  lemma OtherSourcesSilent(cfg: Config, db: Db, q: Ask, source: string)
    requires q.user !in db.dir.users || source !in ["user", "group", "regex", "group-regex"]
    ensures SourceAnswer(cfg, db, q, source) == None
  {
  }

  /** The user source answers with the user's own row. */
  lemma UserAnswerIff(cfg: Config, db: Db, q: Ask, t: Kind, key: Key, l: Level)
    requires q.user in db.dir.users && StandsFor(q, t, key)
    ensures SourceAnswer(cfg, db, q, "user") == Some(l)
       <==> var id := (t, db.dir.users[q.user]);
            id in db.userRows && key in db.userRows[id] && db.userRows[id][key] == l
  {
  }

  /** A row of a group the user is linked to. */
  ghost predicate Inherited(d: Directory, rows: seq<GroupRow<Key>>, user: nat, key: Key, r: GroupRow<Key>) {
    r in rows && r.resource == key && (user, r.group) in d.links
  }

  lemma GrantedIsInherited(d: Directory, rows: seq<GroupRow<Key>>, user: nat, key: Key, l: Level)
    ensures l in Granted(d, rows, user, key) <==> exists r :: Inherited(d, rows, user, key, r) && r.level == l
  {
    if r :| Inherited(d, rows, user, key, r) && r.level == l {
      var i :| 0 <= i < |rows| && rows[i] == r;
      assert rows[i].level in Granted(d, rows, user, key);
    }
  }

  /** The group source answers with a row of one of the user's groups that no other such row outranks. */
  lemma GroupAnswerIff(cfg: Config, db: Db, q: Ask, t: Kind, key: Key, l: Level)
    requires q.user in db.dir.users && StandsFor(q, t, key)
    ensures var u, rows := db.dir.users[q.user], if t in db.groupRows then db.groupRows[t] else [];
            (SourceAnswer(cfg, db, q, "group") == Some(l)
             <==> && (exists r :: Inherited(db.dir, rows, u, key, r) && r.level == l)
                  && (forall r | Inherited(db.dir, rows, u, key, r) :: Priority(r.level) <= Priority(l)))
  {
    var u, rows := db.dir.users[q.user], if t in db.groupRows then db.groupRows[t] else [];
    var levels := Granted(db.dir, rows, u, key);
    assert SourceAnswer(cfg, db, q, "group") == Decisive(levels);
    DecisiveIsGreatest(levels, l);
    forall m ensures m in levels <==> exists r :: Inherited(db.dir, rows, u, key, r) && r.level == m {
      GrantedIsInherited(db.dir, rows, u, key, m);
    }
  }

  /** A row that matches, with no matching one before it. */
  ghost predicate FirstAt(rows: seq<RegexRow>, matches: (string, string) -> bool, name: string, i: nat) {
    && i < |rows| && matches(rows[i].regex, name)
    && forall k | 0 <= k < i :: !matches(rows[k].regex, name)
  }

  /** The first row that matches decides, and there is an answer exactly when some row does. */
  lemma {:induction false} FirstMatchIff(rows: seq<RegexRow>, matches: (string, string) -> bool, name: string)
    ensures FirstMatch(rows, matches, name) == None <==> forall k | 0 <= k < |rows| :: !matches(rows[k].regex, name)
    ensures forall i: nat | FirstAt(rows, matches, name, i) :: FirstMatch(rows, matches, name) == Some(rows[i].level)
    ensures FirstMatch(rows, matches, name).Some? ==> exists i: nat :: FirstAt(rows, matches, name, i)
  {
    if rows != [] {
      var rest := rows[1..];
      FirstMatchIff(rest, matches, name);
      if matches(rows[0].regex, name) {
        assert FirstAt(rows, matches, name, 0);
      } else {
        assert forall k | 0 < k < |rows| :: rows[k] == rest[k - 1];
        forall i: nat | FirstAt(rows, matches, name, i) ensures FirstAt(rest, matches, name, i - 1) {
        }
        if i: nat :| FirstAt(rest, matches, name, i) { assert FirstAt(rows, matches, name, i + 1); }
      }
    }
  }

  /** On rows in priority order: the level of a matching row that no matching row precedes in priority. */
  lemma FirstMatchIsTop(rows: seq<RegexRow>, matches: (string, string) -> bool, name: string) returns (i: nat)
    requires ByPriority(rows) && FirstMatch(rows, matches, name).Some?
    ensures i < |rows| && matches(rows[i].regex, name) && FirstMatch(rows, matches, name) == Some(rows[i].level)
    ensures forall k | 0 <= k < |rows| && matches(rows[k].regex, name) :: rows[i].priority <= rows[k].priority
  {
    FirstMatchIff(rows, matches, name);
    i :| FirstAt(rows, matches, name, i);
  }

  /** The rows of the user's groups, and no others, in the order of the table. */
  lemma {:induction false} MemberRegexRows(d: Directory, rows: seq<(nat, RegexRow)>, user: nat)
    ensures forall r :: r in MemberRegex(d, rows, user) <==> exists g :: (g, r) in rows && (user, g) in d.links
    ensures (forall i, j | 0 <= i < j < |rows| :: rows[i].1.priority <= rows[j].1.priority) ==>
              ByPriority(MemberRegex(d, rows, user))
  {
    if rows != [] {
      var rest := rows[1..];
      MemberRegexRows(d, rest, user);
      assert rows == [rows[0]] + rest;
      forall r ensures r in MemberRegex(d, rows, user) <==> exists g :: (g, r) in rows && (user, g) in d.links {
        if g :| (g, r) in rows && (user, g) in d.links { assert (g, r) == rows[0] || (g, r) in rest; }
      }
      if forall i, j | 0 <= i < j < |rows| :: rows[i].1.priority <= rows[j].1.priority {
        assert forall r | r in MemberRegex(d, rest, user) :: rows[0].1.priority <= r.priority;
      }
    }
  }

  /** The regex tables of a resource are listed in priority order. */
  ghost predicate Listed(db: Db, k: Kind) {
    && (forall u | (k, u) in db.userRegex :: ByPriority(db.userRegex[(k, u)]))
    && (k in db.groupRegex ==>
          forall i, j | 0 <= i < j < |db.groupRegex[k]| ::
              db.groupRegex[k][i].1.priority <= db.groupRegex[k][j].1.priority)
  }

  /** The user-regex source answers exactly when a row of the user matches, with the top one among those. */
  lemma UserRegexAnswer(cfg: Config, db: Db, q: Query, name: string)
    requires q.user in db.dir.users && GoesBy(cfg, q, name) && Listed(db, q.kind)
    ensures var id := (q.kind, db.dir.users[q.user]);
            match SourceAnswer(cfg, db, q, "regex")
            case None => id in db.userRegex ==> forall r | r in db.userRegex[id] :: !cfg.matches(r.regex, name)
            case Some(l) =>
              && id in db.userRegex
              && exists r | r in db.userRegex[id] ::
                   && cfg.matches(r.regex, name) && r.level == l
                   && forall o | o in db.userRegex[id] && cfg.matches(o.regex, name) :: r.priority <= o.priority
  {
    var rows := UserRegex(db, q.kind, db.dir.users[q.user]);
    assert MatchName(cfg, q) == Some(name);
    FirstMatchIff(rows, cfg.matches, name);
    if FirstMatch(rows, cfg.matches, name).Some? { var i := FirstMatchIsTop(rows, cfg.matches, name); }
  }

  /** The group-regex source likewise, over the rows of the groups the user is linked to. */
  lemma GroupRegexAnswer(cfg: Config, db: Db, q: Query, name: string)
    requires q.user in db.dir.users && GoesBy(cfg, q, name) && Listed(db, q.kind)
    ensures var u, rows := db.dir.users[q.user], if q.kind in db.groupRegex then db.groupRegex[q.kind] else [];
            match SourceAnswer(cfg, db, q, "group-regex")
            case None => forall p | p in rows && (u, p.0) in db.dir.links :: !cfg.matches(p.1.regex, name)
            case Some(l) =>
              exists p | p in rows && (u, p.0) in db.dir.links ::
                && cfg.matches(p.1.regex, name) && p.1.level == l
                && forall o | o in rows && (u, o.0) in db.dir.links && cfg.matches(o.1.regex, name) ::
                     p.1.priority <= o.1.priority
  {
    var u, table := db.dir.users[q.user], if q.kind in db.groupRegex then db.groupRegex[q.kind] else [];
    var rows := MemberRegex(db.dir, table, u);
    MemberRegexRows(db.dir, table, u);
    assert MatchName(cfg, q) == Some(name);
    FirstMatchIff(rows, cfg.matches, name);
    forall p | p in table && (u, p.0) in db.dir.links ensures p.1 in rows {
      assert (p.0, p.1) in table;
    }
    if FirstMatch(rows, cfg.matches, name).Some? {
      var i := FirstMatchIsTop(rows, cfg.matches, name);
      assert rows[i] in rows;
      var g :| (g, rows[i]) in table && (u, g) in db.dir.links;
      var p := (g, rows[i]);
      assert p in table && (u, p.0) in db.dir.links && p.1 == rows[i];
    }
  }

  /** An experiment the tracking store does not know has no name, and its regex rows stay silent. */
  lemma NamelessHasNoRegex(cfg: Config, db: Db, q: Query)
    requires q.kind == Experiment && cfg.experimentName(q.resource) == None
    ensures SourceAnswer(cfg, db, q, "regex") == None && SourceAnswer(cfg, db, q, "group-regex") == None
  {
  }

  /** A matching row of top priority that no other of that priority outranks. */
  ghost predicate Outranks(rows: seq<RegexRow>, matches: (string, string) -> bool, workspace: string, r: RegexRow) {
    && r in rows && matches(r.regex, workspace)
    && forall o | o in rows && matches(o.regex, workspace) ::
         r.priority < o.priority || (r.priority == o.priority && Priority(o.level) <= Priority(r.level))
  }

  /** Workspace regexes: the strongest level, denial above all, among the matching rows of top priority. */
  lemma TierLevelIff(rows: seq<RegexRow>, matches: (string, string) -> bool, workspace: string, l: Level)
    requires ByPriority(rows)
    ensures TierLevel(rows, matches, workspace) == None <==> forall r | r in rows :: !matches(r.regex, workspace)
    ensures TierLevel(rows, matches, workspace) == Some(l)
       <==> exists r :: Outranks(rows, matches, workspace, r) && r.level == l
  {
    if forall r | r in rows :: !matches(r.regex, workspace) {
      FirstTierAt(rows, matches, workspace, |rows|);
    } else {
      var i := FirstMatching(rows, matches, workspace);
      FirstTierAt(rows, matches, workspace, i);
      TierRows(rows, matches, workspace, rows[i].priority, l);
      FirstIsTop(rows, matches, workspace, i);
      var tier := Tier(rows, matches, workspace, rows[i].priority);
      assert rows[i].level in tier;
      if Decisive(tier) == Some(l) {
        var r :| r in rows && r.priority == rows[i].priority && matches(r.regex, workspace) && r.level == l;
        forall o | o in rows && matches(o.regex, workspace)
          ensures r.priority < o.priority || (r.priority == o.priority && Priority(o.level) <= Priority(l))
        {
          if o.priority == r.priority { assert o.level in tier; }
        }
        assert Outranks(rows, matches, workspace, r);
      }
      if r :| Outranks(rows, matches, workspace, r) && r.level == l {
        assert rows[i] in rows;
        assert r.priority == rows[i].priority;
        assert l in tier;
        forall m | m in tier ensures Priority(m) <= Priority(l) {
          var o :| o in rows && o.priority == rows[i].priority && matches(o.regex, workspace) && o.level == m;
        }
      }
    }
  }

  lemma FirstIsTop(rows: seq<RegexRow>, matches: (string, string) -> bool, workspace: string, i: nat)
    requires ByPriority(rows) && i < |rows| && NoMatch(rows[..i], matches, workspace)
    ensures forall o | o in rows && matches(o.regex, workspace) :: rows[i].priority <= o.priority
  {
    assert forall k | 0 <= k < i :: rows[..i][k] == rows[k];
  }

  lemma {:induction false} FirstMatching(rows: seq<RegexRow>, matches: (string, string) -> bool, workspace: string)
      returns (i: nat)
    requires exists r | r in rows :: matches(r.regex, workspace)
    ensures i < |rows| && matches(rows[i].regex, workspace) && NoMatch(rows[..i], matches, workspace)
  {
    if matches(rows[0].regex, workspace) {
      i := 0;
    } else {
      assert rows == [rows[0]] + rows[1..];
      var k := FirstMatching(rows[1..], matches, workspace);
      i := k + 1;
      forall j | 0 <= j < i ensures !matches(rows[..i][j].regex, workspace) {
        if j > 0 { assert rows[1..][..k][j - 1] == rows[..i][j]; }
      }
    }
  }

  lemma TierRows(rows: seq<RegexRow>, matches: (string, string) -> bool, workspace: string, priority: int, l: Level)
    ensures var tier := Tier(rows, matches, workspace, priority);
            && (forall m :: m in tier <==>
                  exists r | r in rows :: r.priority == priority && matches(r.regex, workspace) && r.level == m)
            && (Decisive(tier) == Some(l) <==> l in tier && forall m | m in tier :: Priority(m) <= Priority(l))
            && (Decisive(tier) == None <==> tier == {})
  {
    var tier := Tier(rows, matches, workspace, priority);
    DecisiveIsGreatest(tier, l);
    forall m ensures m in tier <==>
        exists r | r in rows :: r.priority == priority && matches(r.regex, workspace) && r.level == m
    {
      if r :| r in rows && r.priority == priority && matches(r.regex, workspace) && r.level == m {
        var i :| 0 <= i < |rows| && rows[i] == r;
        assert rows[i].level in tier;
      }
    }
  }

  /**
   * A whole resolution: the first source of the configured order that answers decides; where none
   * does, the default, or, in a workspace, the first source that answers for the workspace, and a
   * denial where none does either.
   */
  lemma ResolveExplained(cfg: Config, db: Db, q: Query) returns (i: nat, j: nat)
    ensures i <= |cfg.order| && forall k | 0 <= k < i :: SourceAnswer(cfg, db, q, cfg.order[k]) == None
    ensures var r := Resolve(cfg, db, q);
            if i < |cfg.order| then
              r.kind == cfg.order[i] && SourceAnswer(cfg, db, q, cfg.order[i]) == Some(r.level)
            else if !cfg.workspaces || q.workspace == None || q.workspace == Some("") then
              r == PermissionResult(cfg.fallback, "fallback")
            else
              var a := Ask(Workspace, q.workspace.value, "", q.user, None);
              && j <= |cfg.order| && (forall k | 0 <= k < j :: SourceAnswer(cfg, db, a, cfg.order[k]) == None)
              && if j < |cfg.order|
                 then r.kind == "workspace" && SourceAnswer(cfg, db, a, cfg.order[j]) == Some(r.level)
                 else r == PermissionResult(NO_PERMISSIONS, "workspace-deny")
  {
    i := FirstAnswerWins(cfg, db, q, cfg.order);
    j := 0;
    if i < |cfg.order| {
      if cfg.order[i] !in ["user", "group", "regex", "group-regex"] { OtherSourcesSilent(cfg, db, q, cfg.order[i]); }
    } else if q.workspace.Some? {
      j := FirstAnswerWins(cfg, db, Ask(Workspace, q.workspace.value, "", q.user, None), cfg.order);
    }
  }

  /**
   * So a resource resolved by a regex has the level of a matching row of the user, or of one of
   * their groups, that no other outranks.
   */
  lemma ResolvedByRegex(cfg: Config, db: Db, q: Query, name: string)
    requires GoesBy(cfg, q, name) && Listed(db, q.kind) && Resolve(cfg, db, q).kind in ["regex", "group-regex"]
    ensures q.user in db.dir.users
    ensures var l, u := Resolve(cfg, db, q).level, db.dir.users[q.user];
            if Resolve(cfg, db, q).kind == "regex" then
              && (q.kind, u) in db.userRegex
              && exists r | r in db.userRegex[(q.kind, u)] ::
                   && cfg.matches(r.regex, name) && r.level == l
                   && forall o | o in db.userRegex[(q.kind, u)] && cfg.matches(o.regex, name) ::
                      r.priority <= o.priority
            else
              && q.kind in db.groupRegex
              && exists p | p in db.groupRegex[q.kind] && (u, p.0) in db.dir.links ::
                   && cfg.matches(p.1.regex, name) && p.1.level == l
                   && forall o | o in db.groupRegex[q.kind] && (u, o.0) in db.dir.links
                      && cfg.matches(o.1.regex, name) ::
                        p.1.priority <= o.1.priority
  {
    var i, _ := ResolveExplained(cfg, db, q);
    if q.user !in db.dir.users {
      OtherSourcesSilent(cfg, db, q, Resolve(cfg, db, q).kind);
    } else if Resolve(cfg, db, q).kind == "regex" {
      UserRegexAnswer(cfg, db, q, name);
    } else {
      GroupRegexAnswer(cfg, db, q, name);
    }
  }

  /** The batch resolver fails for an unknown user, and only then. */
  lemma BatchFailsIff(cfg: Config, db: Db, q: Query, name: string)
    ensures BatchResolve(cfg, db, q, name) == None <==> q.user !in db.dir.users
  {
  }
}
