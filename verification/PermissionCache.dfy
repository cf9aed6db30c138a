/**
 * The permission cache of utils/permissions.py, the workspace cache it reads through
 * (utils/workspace_cache.py) and the flush wiring of sqlalchemy_store.py: what a cached answer is
 * worth after any run of lookups, mutators, flushes and expiries.
 */
module PermissionCache {
  import opened Common
  import opened Permissions
  import opened GroupFold
  import opened Resolution
  import opened UnlistedMutators
  import opened CacheKeys

  /** The tables and the two caches; the workspace cache holds positive answers only. */
  datatype State = State(db: Db, cache: map<string, PermissionResult>, spaces: map<string, Level>)

  function Fresh(db: Db): State { State(db, map[], map[]) }

  /**
   * A mutator on the flush list commits zero or more transactions, each leaving new tables
   * behind, and may then raise; it empties the permission cache when it returns normally. A silent
   * one is not on the list. The routes that change workspace permissions drop entries of the
   * workspace cache themselves, which here reads like an expiry or a flush of that cache.
   */
  datatype Op =
    | Lookup(q: Query)
    | AskSpace(sp: Space)
    | Mutate(commits: seq<Db>, raises: bool)
    | Silent(m: Unlisted)
    | Expire(key: string)
    | ExpireSpace(key: string)
    | FlushSpaces

  /** What the workspace cache answers, filling up on a miss. */
  function Seen(cfg: Config, s: State, sp: Space): Option<Level> {
    if SpaceKey(sp) in s.spaces then Some(s.spaces[SpaceKey(sp)]) else SpaceLevel(cfg, s.db, sp)
  }

  function Remember(cfg: Config, s: State, sp: Space): map<string, Level> {
    match Seen(cfg, s, sp)
    case None => s.spaces
    case Some(l) => s.spaces[SpaceKey(sp) := l]
  }

  /** The workspace a lookup consults: on a miss, and when no source answers. */
  function Consulted(cfg: Config, s: State, q: Query): Option<Space> {
    if CacheKey(q) in s.cache || FromStoreOrDefault(cfg, s.db, q, cfg.order).kind != "fallback" then None
    else Effective(cfg, q)
  }

  function Miss(cfg: Config, s: State, q: Query): PermissionResult {
    var level := match Effective(cfg, q) case None => None case Some(sp) => Seen(cfg, s, sp);
    WorkspaceFallback(cfg, q, FromStoreOrDefault(cfg, s.db, q, cfg.order), level)
  }

  function Answer(cfg: Config, s: State, q: Query): PermissionResult {
    if CacheKey(q) in s.cache then s.cache[CacheKey(q)] else Miss(cfg, s, q)
  }

  function Step(cfg: Config, s: State, op: Op): State {
    match op
    case Lookup(q) =>
      var spaces := match Consulted(cfg, s, q) case None => s.spaces case Some(sp) => Remember(cfg, s, sp);
      State(s.db, s.cache[CacheKey(q) := Answer(cfg, s, q)], spaces)
    case AskSpace(sp) => if cfg.workspaces then s.(spaces := Remember(cfg, s, sp)) else s
    case Mutate(commits, raises) =>
      s.(db := if commits == [] then s.db else commits[|commits| - 1], cache := if raises then s.cache else map[])
    case Silent(m) => if Applicable(s.db, m) then s.(db := Apply(s.db, m)) else s
    case Expire(key) => s.(cache := s.cache - {key})
    case ExpireSpace(key) => s.(spaces := s.spaces - {key})
    case FlushSpaces => s.(spaces := map[])
  }

  function Run(cfg: Config, s: State, ops: seq<Op>): State
    decreases |ops|
  {
    if ops == [] then s else Run(cfg, Step(cfg, s, ops[0]), ops[1..])
  }

  /**
   * What each operation other than a lookup does: a listed mutator that raises keeps the cache,
   * and the tables too if it committed nothing; an unlisted one never touches a cache; an expiry
   * takes one entry.
   */
  lemma OpTakesEffect(cfg: Config, s: State, op: Op)
    requires !op.Lookup? && !op.AskSpace?
    ensures var s' := Step(cfg, s, op);
            match op
            case Mutate(commits, raises) =>
              && s'.spaces == s.spaces && s'.cache == (if raises then s.cache else map[])
              && (commits == [] ==> s'.db == s.db) && (commits != [] ==> s'.db == commits[|commits| - 1])
            case Silent(m) =>
              && s'.cache == s.cache && s'.spaces == s.spaces
              && s'.db == if Applicable(s.db, m) then Apply(s.db, m) else s.db
            case Expire(key) => s' == s.(cache := s.cache - {key})
            case ExpireSpace(key) => s' == s.(spaces := s.spaces - {key})
            case FlushSpaces => s' == s.(spaces := map[])
            case _ => true
  {
  }

  /**
   * A lookup answers from its entry; without one it resolves, asking the workspace cache where no
   * source answers, and stores.
   */
  lemma LookupTakesEffect(cfg: Config, s: State, q: Query)
    ensures var s' := Step(cfg, s, Lookup(q));
            && s'.db == s.db
            && (CacheKey(q) in s.cache ==> Answer(cfg, s, q) == s.cache[CacheKey(q)] && s' == s)
            && (CacheKey(q) !in s.cache ==>
                  && s'.cache == s.cache[CacheKey(q) := Answer(cfg, s, q)]
                  && (FirstSource(cfg, s.db, q, cfg.order).Some? || Effective(cfg, q) == None ==>
                        Answer(cfg, s, q) == Resolve(cfg, s.db, q) && s'.spaces == s.spaces)
                  && (FirstSource(cfg, s.db, q, cfg.order) == None && Effective(cfg, q).Some? ==>
                        var sp := Effective(cfg, q).value;
                        var key := SpaceKey(sp);
                        if key in s.spaces then
                          Answer(cfg, s, q) == PermissionResult(s.spaces[key], "workspace") && s'.spaces == s.spaces
                        else
                          && Answer(cfg, s, q) == Resolve(cfg, s.db, q)
                          && s'.spaces == match SpaceLevel(cfg, s.db, sp)
                                          case None => s.spaces
                                          case Some(l) => s.spaces[key := l]))
  {
    ResultNamesSource(cfg, s.db, q, cfg.order);
    if CacheKey(q) in s.cache { assert s.cache == s.cache[CacheKey(q) := s.cache[CacheKey(q)]]; }
    if Effective(cfg, q).Some? && SpaceKey(Effective(cfg, q).value) in s.spaces {
      var key := SpaceKey(Effective(cfg, q).value);
      assert s.spaces == s.spaces[key := s.spaces[key]];
    }
  }

  class PermissionStore {
    const cfg: Config
    var db: Db
    var cache: map<string, PermissionResult>
    var spaces: map<string, Level>

    function View(): State
      reads this
    {
      State(db, cache, spaces)
    }

    constructor (cfg: Config, db: Db)
      ensures this.cfg == cfg && View() == Fresh(db)
    {
      this.cfg := cfg;
      this.db := db;
      cache, spaces := map[], map[];
    }

    /** get_workspace_permission_cached: only positive answers are stored. */
    method GetWorkspacePermissionCached(sp: Space) returns (r: Option<Level>)
      modifies this`spaces
      ensures r == if cfg.workspaces then Seen(cfg, old(View()), sp) else None
      ensures View() == Step(cfg, old(View()), AskSpace(sp))
    {
      if !cfg.workspaces { return None; }
      var key := SpaceKey(sp);
      if key in spaces {
        r := Some(spaces[key]);
        assert spaces == spaces[key := spaces[key]];
        return;
      }
      r := SpaceLevel(cfg, db, sp);
      if r.Some? { spaces := spaces[key := r.value]; }
    }

    /** resolve_permission: a hit returns the entry, a miss resolves and stores. */
    method ResolvePermission(q: Query) returns (r: PermissionResult)
      modifies this`cache, this`spaces
      ensures r == Answer(cfg, old(View()), q)
      ensures View() == Step(cfg, old(View()), Lookup(q))
    {
      var key := CacheKey(q);
      if key in cache {
        r := cache[key];
        assert cache == cache[key := r];
        return;
      }
      r := FromStoreOrDefault(cfg, db, q, cfg.order);
      if r.kind == "fallback" && Effective(cfg, q).Some? {
        var level := GetWorkspacePermissionCached(Effective(cfg, q).value);
        r := if level.Some? then PermissionResult(level.value, "workspace")
             else PermissionResult(NO_PERMISSIONS, "workspace-deny");
      }
      cache := cache[key := r];
    }

    /** The wrapper around a listed mutator: the flush is skipped when the method raises. */
    method RunListed(commits: seq<Db>, raises: bool)
      modifies this
      ensures db == (if commits == [] then old(db) else commits[|commits| - 1]) && spaces == old(spaces)
      ensures cache == if raises then old(cache) else map[]
      ensures View() == Step(cfg, old(View()), Mutate(commits, raises))
    {
      for i := 0 to |commits|
        invariant cache == old(cache) && spaces == old(spaces)
        invariant db == if i == 0 then old(db) else commits[i - 1]
      {
        db := commits[i];
      }
      if !raises {
        cache := map[];
      }
    }
  }

  // ---- coherence over runs of listed mutators ----

  /** Every entry is what each query that reads it resolves to right now. */
  ghost predicate Coherent(cfg: Config, s: State, queries: set<Query>) {
    forall q | q in queries && CacheKey(q) in s.cache :: s.cache[CacheKey(q)] == Resolve(cfg, s.db, q)
  }

  /** The listed mutators write memberships and the tables of resources, never users or workspace rows. */
  ghost predicate ListedChange(db: Db, db': Db) {
    && db'.dir.users == db.dir.users
    && (forall u :: UserRows(db', Workspace, u) == UserRows(db, Workspace, u))
    && (forall u :: UserRegex(db', Workspace, u) == UserRegex(db, Workspace, u))
    && GroupRows(db', Workspace) == GroupRows(db, Workspace)
    && (Workspace in db'.groupRegex <==> Workspace in db.groupRegex)
    && (Workspace in db.groupRegex ==> db'.groupRegex[Workspace] == db.groupRegex[Workspace])
  }

  /** Mutators on the list; one that raises has rolled its transaction back. */
  ghost predicate Wired(s: State, op: Op) {
    && !op.Silent?
    && (op.Mutate? ==> (op.raises ==> op.commits == []) && forall db | db in op.commits :: ListedChange(s.db, db))
  }

  ghost predicate WiredRun(cfg: Config, s: State, ops: seq<Op>, queries: set<Query>)
    decreases |ops|
  {
    || ops == []
    || (&& Wired(s, ops[0]) && (ops[0].Lookup? ==> ops[0].q in queries)
        && WiredRun(cfg, Step(cfg, s, ops[0]), ops[1..], queries))
  }

  ghost predicate AlwaysCoherent(cfg: Config, queries: set<Query>) {
    forall db, ops | WiredRun(cfg, Fresh(db), ops, queries) :: Coherent(cfg, Run(cfg, Fresh(db), ops), queries)
  }

  ghost predicate AllSafe(cfg: Config, queries: set<Query>) {
    forall q, q' | q in queries && q' in queries && CacheKey(q) == CacheKey(q') :: SafePair(cfg, q, q')
  }

  /** None of the queries falls back on a workspace. */
  ghost predicate NoWorkspace(cfg: Config, queries: set<Query>) {
    forall q | q in queries :: Effective(cfg, q) == None
  }

  lemma {:induction false} RunCoherent(cfg: Config, s: State, ops: seq<Op>, queries: set<Query>)
    requires AllSafe(cfg, queries) && NoWorkspace(cfg, queries) && Coherent(cfg, s, queries)
    requires WiredRun(cfg, s, ops, queries)
    ensures Coherent(cfg, Run(cfg, s, ops), queries)
    decreases |ops|
  {
    if ops != [] {
      var s' := Step(cfg, s, ops[0]);
      forall q | q in queries && CacheKey(q) in s'.cache ensures s'.cache[CacheKey(q)] == Resolve(cfg, s'.db, q) {
        if ops[0].Lookup? && CacheKey(q) == CacheKey(ops[0].q) && CacheKey(q) !in s.cache {
          KeyDeterminesKind(q, ops[0].q);
          SafePairResolves(cfg, s.db, q, ops[0].q);
        }
      }
      RunCoherent(cfg, s', ops[1..], queries);
    }
  }

  lemma RunOne(cfg: Config, s: State, op: Op)
    ensures Run(cfg, s, [op]) == Step(cfg, s, op)
  {
    assert [op][1..] == [];
    assert Run(cfg, Step(cfg, s, op), []) == Step(cfg, s, op);
  }

  lemma CoherentMeansSafe(cfg: Config, queries: set<Query>)
    requires AlwaysCoherent(cfg, queries) && ReadsDirectRows(cfg.order)
    ensures AllSafe(cfg, queries)
  {
    forall q, q' | q in queries && q' in queries && CacheKey(q) == CacheKey(q') ensures SafePair(cfg, q, q') {
      forall db ensures Resolve(cfg, db, q) == Resolve(cfg, db, q') {
        var s, ops := Fresh(db), [Lookup(q)];
        assert ops[1..] == [];
        assert WiredRun(cfg, Step(cfg, s, ops[0]), ops[1..], queries);
        assert WiredRun(cfg, s, ops, queries);
        RunOne(cfg, s, Lookup(q));
        assert Coherent(cfg, Run(cfg, s, ops), queries);
      }
      SharedKeyIsSafeIff(cfg, q, q');
    }
  }

  /**
   * Where no workspace is in play, cached answers are exact in every run exactly when all queries
   * that share a key may share an entry.
   */
  lemma CoherentIffSafe(cfg: Config, queries: set<Query>)
    requires ReadsDirectRows(cfg.order) && NoWorkspace(cfg, queries)
    ensures AlwaysCoherent(cfg, queries) <==> AllSafe(cfg, queries)
  {
    if AllSafe(cfg, queries) {
      forall db, ops | WiredRun(cfg, Fresh(db), ops, queries)
        ensures Coherent(cfg, Run(cfg, Fresh(db), ops), queries)
      {
        RunCoherent(cfg, Fresh(db), ops, queries);
      }
    }
    if AlwaysCoherent(cfg, queries) { CoherentMeansSafe(cfg, queries); }
  }

  /** The tables before and after a user leaves the group that gave them READ on a workspace. */
  function InGroup(sp: Space, linked: bool): Db { HeldThrough(sp.user, Workspace, Plain(sp.name), READ, false, linked) }

  function LeavesGroup(q: Query, sp: Space): seq<Op> { [Lookup(q), Mutate([InGroup(sp, false)], false), Lookup(q)] }

  /**
   * Leaving a group flushes the permission cache but not the workspace cache: the next lookup
   * stores the lost level again.
   */
  lemma LeavingGroupLeavesStaleEntry(cfg: Config, q: Query, queries: set<Query>)
    requires q in queries && Effective(cfg, q).Some? && "group" in cfg.order
    ensures var sp := Effective(cfg, q).value;
            var s := Run(cfg, Fresh(InGroup(sp, true)), LeavesGroup(q, sp));
            && WiredRun(cfg, Fresh(InGroup(sp, true)), LeavesGroup(q, sp), queries)
            && CacheKey(q) in s.cache && s.cache[CacheKey(q)] == PermissionResult(READ, "workspace")
            && Resolve(cfg, s.db, q) == PermissionResult(NO_PERMISSIONS, "workspace-deny")
  {
    var sp := Effective(cfg, q).value;
    var ops := LeavesGroup(q, sp);
    HeldSpace(cfg, sp, READ, false, true, q);
    HeldSpace(cfg, sp, READ, false, false, q);
    var before, after := InGroup(sp, true), InGroup(sp, false);
    ResultNamesSource(cfg, before, q, cfg.order);
    ResultNamesSource(cfg, after, q, cfg.order);
    var s1 := Step(cfg, Fresh(before), ops[0]);
    assert s1 == State(before, map[CacheKey(q) := PermissionResult(READ, "workspace")], map[SpaceKey(sp) := READ]);
    var s2 := Step(cfg, s1, ops[1]);
    assert s2 == State(after, map[], map[SpaceKey(sp) := READ]);
    var s3 := Step(cfg, s2, ops[2]);
    assert ops[1..][0] == ops[1] && ops[1..][1..] == [Lookup(q)];
    RunOne(cfg, s2, Lookup(q));
    assert Run(cfg, s1, ops[1..]) == s3;
    assert [Lookup(q)][1..] == [] && WiredRun(cfg, s3, [], queries);
    assert WiredRun(cfg, s2, [Lookup(q)], queries);
    assert ListedChange(before, after);
    assert WiredRun(cfg, s1, ops[1..], queries);
  }

  /**
   * So, with groups among the sources, cached answers are exact in every run of listed mutators
   * exactly when no query falls back on a workspace and all that share a key may share an entry.
   */
  lemma AlwaysCoherentIff(cfg: Config, queries: set<Query>)
    requires "group" in cfg.order
    ensures AlwaysCoherent(cfg, queries) <==> NoWorkspace(cfg, queries) && AllSafe(cfg, queries)
  {
    if NoWorkspace(cfg, queries) {
      CoherentIffSafe(cfg, queries);
    } else {
      var q :| q in queries && Effective(cfg, q).Some?;
      var sp := Effective(cfg, q).value;
      LeavingGroupLeavesStaleEntry(cfg, q, queries);
      assert !Coherent(cfg, Run(cfg, Fresh(InGroup(sp, true)), LeavesGroup(q, sp)), queries);
    }
  }

  /** Hence, for colon-free users, no scorer queries and no workspaces, every cached answer is exact in every run. */
  lemma ExactWithoutScorers(cfg: Config, queries: set<Query>)
    requires forall q | q in queries :: NoColon(q.user) && q.kind != Scorer && Effective(cfg, q) == None
    requires ReadsDirectRows(cfg.order)
    ensures AlwaysCoherent(cfg, queries)
  {
    forall q, q' | q in queries && q' in queries && CacheKey(q) == CacheKey(q') ensures SafePair(cfg, q, q') {
      KeyDetermines(q, q');
    }
    CoherentIffSafe(cfg, queries);
  }

  // ---- wrong answers under a shared key ----

  /** What the second of two queries with one key is told after the first, where only the first holds a grant. */
  lemma WrongAnswer(cfg: Config, q: Query, q': Query)
    requires CacheKey(q) == CacheKey(q') && ReadsDirectRows(cfg.order) && q'.workspace == None
    requires q.user != q'.user || KeyOf(q) != KeyOf(q')
    ensures var db := HeldThrough(q.user, DirectTable(q.kind), KeyOf(q), MANAGE, true, true);
            var s := Step(cfg, Fresh(db), Lookup(q));
            && Answer(cfg, s, q').level == MANAGE
            && Resolve(cfg, s.db, q') == PermissionResult(cfg.fallback, "fallback")
  {
    HeldResource(cfg, q, MANAGE, q);
    HeldResource(cfg, q, MANAGE, q');
  }

  /** With a colon in a user name two resources share a key: user c is told that b:c's MANAGE on a is theirs on a:b. */
  lemma KeyCollides(cfg: Config)
    requires ReadsDirectRows(cfg.order)
    ensures var q, q' := Ask(Prompt, "a", "", "b:c", None), Ask(Prompt, "a:b", "", "c", None);
            var s := Step(cfg, Fresh(HeldThrough("b:c", RegisteredModel, Plain("a"), MANAGE, true, true)), Lookup(q));
            && CacheKey(q) == CacheKey(q')
            && Answer(cfg, s, q').level == MANAGE
            && Resolve(cfg, s.db, q') == PermissionResult(cfg.fallback, "fallback")
  {
    calc {
      "prompt" + ":" + "a" + ":" + "b:c";
      "prompt:a:b:c";
      "prompt" + ":" + "a:b" + ":" + "c";
    }
    WrongAnswer(cfg, Ask(Prompt, "a", "", "b:c", None), Ask(Prompt, "a:b", "", "c", None));
  }

  /** The scorers of one experiment share an entry: MANAGE on scorer a is answered for scorer b too. */
  lemma ScorersShareEntry(cfg: Config)
    requires ReadsDirectRows(cfg.order)
    ensures var q, q' := Ask(Scorer, "7", "a", "ann", None), Ask(Scorer, "7", "b", "ann", None);
            var s := Step(cfg, Fresh(HeldThrough("ann", Scorer, OfScorer("7", "a"), MANAGE, true, true)), Lookup(q));
            && Answer(cfg, s, q').level == MANAGE
            && Resolve(cfg, s.db, q') == PermissionResult(cfg.fallback, "fallback")
  {
    WrongAnswer(cfg, Ask(Scorer, "7", "a", "ann", None), Ask(Scorer, "7", "b", "ann", None));
  }

  /** So do two workspaces: READ held in one is answered for a resource of another, where the user holds nothing. */
  lemma WorkspacesShareEntry(cfg: Config)
    requires ReadsDirectRows(cfg.order) && cfg.workspaces
    ensures var q, q' := Ask(Prompt, "a", "", "ann", Some("v")), Ask(Prompt, "a", "", "ann", Some("w"));
            var s := Step(cfg, Fresh(HeldThrough("ann", Workspace, Plain("v"), READ, true, true)), Lookup(q));
            && Answer(cfg, s, q') == PermissionResult(READ, "workspace")
            && Resolve(cfg, s.db, q') == PermissionResult(NO_PERMISSIONS, "workspace-deny")
  {
    HeldSpace(cfg, Space("ann", "v"), READ, true, true, Ask(Prompt, "a", "", "ann", Some("v")));
    HeldSpace(cfg, Space("ann", "v"), READ, true, true, Ask(Prompt, "a", "", "ann", Some("w")));
  }

  // ---- all mutators, anywhere in a run ----

  /** An unlisted method leaves the cache exact exactly when it touches none of the cached queries. */
  lemma CoherentAfterSilentIff(cfg: Config, s: State, m: Unlisted, queries: set<Query>)
    requires Coherent(cfg, s, queries) && Sound(s.db) && Applicable(s.db, m)
    ensures Coherent(cfg, Step(cfg, s, Silent(m)), queries)
       <==> forall q | q in queries && CacheKey(q) in s.cache :: !Touched(cfg, s.db, m, q)
  {
    forall q | q in queries && CacheKey(q) in s.cache
      ensures Touched(cfg, s.db, m, q) <==> s.cache[CacheKey(q)] != Resolve(cfg, Apply(s.db, m), q)
    {
      ChangesIffTouched(cfg, s.db, m, q);
    }
  }

  /** Every entry of the workspace cache is the permission of each user in a workspace that reads it. */
  ghost predicate SpacesExact(cfg: Config, s: State, spaces: set<Space>) {
    forall sp | sp in spaces && SpaceKey(sp) in s.spaces :: SpaceLevel(cfg, s.db, sp) == Some(s.spaces[SpaceKey(sp)])
  }

  /** The workspace cache stays exact exactly when none of the cached users in workspaces is touched. */
  lemma SpacesExactAfterSilentIff(cfg: Config, s: State, m: Unlisted, spaces: set<Space>)
    requires SpacesExact(cfg, s, spaces) && Sound(s.db) && Applicable(s.db, m)
    ensures SpacesExact(cfg, Step(cfg, s, Silent(m)), spaces)
       <==> forall sp | sp in spaces && SpaceKey(sp) in s.spaces :: !TouchesSpace(cfg, s.db, m, sp)
  {
    forall sp | sp in spaces && SpaceKey(sp) in s.spaces
      ensures TouchesSpace(cfg, s.db, m, sp) <==> SpaceLevel(cfg, Apply(s.db, m), sp) != Some(s.spaces[SpaceKey(sp)])
    {
      SpaceChangesIff(cfg, s.db, m, sp);
    }
  }

  /** Queries whose entries, and users in workspaces whose entries, may be out of date. */
  datatype Marks = Marks(dirty: set<Query>, stale: set<Space>)

  function SpacesOf(cfg: Config, queries: set<Query>): set<Space> {
    set q | q in queries && Effective(cfg, q).Some? :: Effective(cfg, q).value
  }

  /** An operation on the tables that flushes neither cache for these queries. */
  ghost function Unsettled(cfg: Config, s: State, op: Op, queries: set<Query>): Marks {
    match op
    case Silent(m) =>
      if !Applicable(s.db, m) then Marks({}, {})
      else Marks(set q | q in queries && CacheKey(q) in s.cache && Touched(cfg, s.db, m, q),
                 set sp | sp in SpacesOf(cfg, queries) && SpaceKey(sp) in s.spaces && TouchesSpace(cfg, s.db, m, sp))
    case Mutate(_, _) =>
      var db := Step(cfg, s, op).db;
      Marks(set q | q in queries && CacheKey(q) in s.cache && Resolve(cfg, db, q) != Resolve(cfg, s.db, q),
            set sp | sp in SpacesOf(cfg, queries) && SpaceKey(sp) in s.spaces
                     && SpaceLevel(cfg, db, sp) != SpaceLevel(cfg, s.db, sp))
    case _ => Marks({}, {})
  }

  /**
   * The marks after an operation. A mutator adds what it changes without flushing; a flush or an
   * expiry takes marks away; a lookup that reads a stale workspace entry passes the mark on to
   * the queries that share its key.
   */
  ghost function Marked(cfg: Config, s: State, op: Op, queries: set<Query>, marks: Marks): Marks {
    var more := Unsettled(cfg, s, op, queries);
    match op
    case Lookup(q) =>
      var sp := Consulted(cfg, s, q);
      if sp.Some? && sp.value in marks.stale
      then marks.(dirty := marks.dirty + set q' | q' in queries && CacheKey(q') == CacheKey(q)) else marks
    case AskSpace(_) => marks
    case Mutate(_, raises) => Marks(if raises then marks.dirty + more.dirty else {}, marks.stale + more.stale)
    case Silent(_) => Marks(marks.dirty + more.dirty, marks.stale + more.stale)
    case Expire(key) => marks.(dirty := set q | q in marks.dirty && CacheKey(q) != key)
    case ExpireSpace(key) => marks.(stale := set sp | sp in marks.stale && SpaceKey(sp) != key)
    case FlushSpaces => marks.(stale := {})
  }

  ghost function MarksAfter(cfg: Config, s: State, ops: seq<Op>, queries: set<Query>, marks: Marks): Marks
    decreases |ops|
  {
    if ops == [] then marks
    else MarksAfter(cfg, Step(cfg, s, ops[0]), ops[1..], queries, Marked(cfg, s, ops[0], queries, marks))
  }

  /** What is not marked is exact. */
  ghost predicate Exact(cfg: Config, s: State, queries: set<Query>, marks: Marks) {
    Coherent(cfg, s, queries - marks.dirty) && SpacesExact(cfg, s, SpacesOf(cfg, queries) - marks.stale)
  }

  /** Neither cache confuses two of the queries. */
  ghost predicate ToldApart(cfg: Config, queries: set<Query>) {
    && AllSafe(cfg, queries)
    && forall sp, sp' | sp in SpacesOf(cfg, queries) && sp' in SpacesOf(cfg, queries)
       && SpaceKey(sp) == SpaceKey(sp') ::
         sp == sp'
  }

  /** Mutators leave sound tables behind, and lookups stay within the queries. */
  ghost predicate Legal(cfg: Config, op: Op, queries: set<Query>) {
    match op
    case Lookup(q) => q in queries
    case AskSpace(sp) => sp in SpacesOf(cfg, queries)
    case Mutate(commits, _) => forall db | db in commits :: Sound(db)
    case _ => true
  }

  ghost predicate LegalRun(cfg: Config, ops: seq<Op>, queries: set<Query>) {
    forall i | 0 <= i < |ops| :: Legal(cfg, ops[i], queries)
  }

  lemma StepSound(cfg: Config, s: State, op: Op, queries: set<Query>)
    requires Sound(s.db) && Legal(cfg, op, queries)
    ensures Sound(Step(cfg, s, op).db)
  {
    if op.Silent? && Applicable(s.db, op.m) { ApplySound(s.db, op.m); }
  }

  /** Asking the workspace cache keeps it exact. */
  lemma RememberExact(cfg: Config, s: State, queries: set<Query>, stale: set<Space>, sp: Space)
    requires ToldApart(cfg, queries) && sp in SpacesOf(cfg, queries)
    requires SpacesExact(cfg, s, SpacesOf(cfg, queries) - stale)
    ensures SpacesExact(cfg, s.(spaces := Remember(cfg, s, sp)), SpacesOf(cfg, queries) - stale)
  {
  }

  /** A miss gives the right answer unless it reads a stale workspace entry. */
  lemma MissExact(cfg: Config, s: State, queries: set<Query>, stale: set<Space>, q: Query)
    requires q in queries && SpacesExact(cfg, s, SpacesOf(cfg, queries) - stale) && CacheKey(q) !in s.cache
    requires Consulted(cfg, s, q).Some? ==> Consulted(cfg, s, q).value !in stale
    ensures Miss(cfg, s, q) == Resolve(cfg, s.db, q)
  {
    if Consulted(cfg, s, q).Some? { assert Effective(cfg, q).value in SpacesOf(cfg, queries); }
  }

  lemma LookupExact(cfg: Config, s: State, q: Query, queries: set<Query>, marks: Marks)
    requires ToldApart(cfg, queries) && q in queries && Exact(cfg, s, queries, marks)
    ensures Exact(cfg, Step(cfg, s, Lookup(q)), queries, Marked(cfg, s, Lookup(q), queries, marks))
  {
    var s', marks' := Step(cfg, s, Lookup(q)), Marked(cfg, s, Lookup(q), queries, marks);
    if Consulted(cfg, s, q).Some? {
      assert Effective(cfg, q).value in SpacesOf(cfg, queries);
      RememberExact(cfg, s, queries, marks.stale, Effective(cfg, q).value);
    }
    forall q' | q' in queries - marks'.dirty && CacheKey(q') in s'.cache
      ensures s'.cache[CacheKey(q')] == Resolve(cfg, s'.db, q')
    {
      if CacheKey(q') == CacheKey(q) && CacheKey(q) !in s.cache {
        MissExact(cfg, s, queries, marks.stale, q);
        KeyDeterminesKind(q, q');
        SafePairResolves(cfg, s.db, q, q');
      }
    }
  }

  lemma TablesExact(cfg: Config, s: State, op: Op, queries: set<Query>, marks: Marks)
    requires Sound(s.db) && Exact(cfg, s, queries, marks) && (op.Silent? || op.Mutate?)
    ensures Exact(cfg, Step(cfg, s, op), queries, Marked(cfg, s, op, queries, marks))
  {
    var s', marks' := Step(cfg, s, op), Marked(cfg, s, op, queries, marks);
    forall q | q in queries - marks'.dirty && CacheKey(q) in s'.cache
      ensures s'.cache[CacheKey(q)] == Resolve(cfg, s'.db, q)
    {
      if op.Silent? && Applicable(s.db, op.m) { ChangesIffTouched(cfg, s.db, op.m, q); }
    }
    forall sp | sp in SpacesOf(cfg, queries) - marks'.stale && SpaceKey(sp) in s'.spaces
      ensures SpaceLevel(cfg, s'.db, sp) == Some(s'.spaces[SpaceKey(sp)])
    {
      if op.Silent? && Applicable(s.db, op.m) { SpaceChangesIff(cfg, s.db, op.m, sp); }
    }
  }

  lemma StepExact(cfg: Config, s: State, op: Op, queries: set<Query>, marks: Marks)
    requires ToldApart(cfg, queries) && Sound(s.db) && Legal(cfg, op, queries) && Exact(cfg, s, queries, marks)
    ensures Exact(cfg, Step(cfg, s, op), queries, Marked(cfg, s, op, queries, marks))
  {
    match op
    case Lookup(q) => LookupExact(cfg, s, q, queries, marks);
    case AskSpace(sp) => RememberExact(cfg, s, queries, marks.stale, sp);
    case Mutate(_, _) => TablesExact(cfg, s, op, queries, marks);
    case Silent(_) => TablesExact(cfg, s, op, queries, marks);
    case _ =>
  }

  /**
   * Over every run, with unlisted methods and failing mutators anywhere in it, what is not marked
   * is exact in both caches: only a change since the last flush or expiry, or a workspace entry
   * that was stale when it was read, can make an answer wrong.
   */
  lemma {:induction false} RunCleanIsExact(cfg: Config, s: State, ops: seq<Op>, queries: set<Query>, marks: Marks)
    requires ToldApart(cfg, queries) && Sound(s.db) && Exact(cfg, s, queries, marks) && LegalRun(cfg, ops, queries)
    ensures Exact(cfg, Run(cfg, s, ops), queries, MarksAfter(cfg, s, ops, queries, marks))
    decreases |ops|
  {
    if ops != [] {
      assert Legal(cfg, ops[0], queries);
      StepSound(cfg, s, ops[0], queries);
      StepExact(cfg, s, ops[0], queries, marks);
      RunCleanIsExact(cfg, Step(cfg, s, ops[0]), ops[1..], queries, Marked(cfg, s, ops[0], queries, marks));
    }
  }

  /** An unmarked query is answered exactly, from the cache or on a miss. */
  lemma CleanAnswer(cfg: Config, s: State, queries: set<Query>, marks: Marks, q: Query)
    requires Exact(cfg, s, queries, marks) && q in queries && Unmarked(cfg, marks, q) && q !in marks.dirty
    ensures Answer(cfg, s, q) == Resolve(cfg, s.db, q)
  {
    if CacheKey(q) !in s.cache { MissExact(cfg, s, queries, marks.stale, q); }
  }

  /** The workspace entry the query reads is not marked. */
  ghost predicate Unmarked(cfg: Config, marks: Marks, q: Query) {
    Effective(cfg, q).Some? ==> Effective(cfg, q).value !in marks.stale
  }

  /**
   * An operation that is not about a query: no unlisted method about it, no change of its workspace
   * permission by a listed one.
   */
  ghost predicate Undisturbed(cfg: Config, s: State, op: Op, q: Query) {
    match op
    case Silent(m) => Applicable(s.db, m) ==> !About(cfg, s.db, m, q)
    case Mutate(commits, raises) =>
      && (raises ==> commits == [])
      && EffectiveLevel(cfg, Step(cfg, s, op).db, q) == EffectiveLevel(cfg, s.db, q)
    case _ => true
  }

  /** Every operation after the first g + 1 is not about the query. */
  ghost predicate UndisturbedAfter(cfg: Config, s: State, ops: seq<Op>, g: int, q: Query)
    decreases |ops|
  {
    || ops == []
    || ((0 <= g || Undisturbed(cfg, s, ops[0], q)) && UndisturbedAfter(cfg, Step(cfg, s, ops[0]), ops[1..], g - 1, q))
  }

  lemma StepStaysClean(cfg: Config, s: State, op: Op, queries: set<Query>, marks: Marks, q: Query)
    requires ToldApart(cfg, queries) && q in queries && Legal(cfg, op, queries) && Unmarked(cfg, marks, q)
    requires Undisturbed(cfg, s, op, q)
    ensures Unmarked(cfg, Marked(cfg, s, op, queries, marks), q)
    ensures q !in marks.dirty || (op.Mutate? && !op.raises) ==> q !in Marked(cfg, s, op, queries, marks).dirty
  {
  }

  /** A query that nothing is about stays unmarked, and loses a mark it had at the next flush. */
  lemma {:induction false} StaysClean(cfg: Config, s: State, ops: seq<Op>, queries: set<Query>, marks: Marks, q: Query)
    requires ToldApart(cfg, queries) && q in queries && LegalRun(cfg, ops, queries) && Unmarked(cfg, marks, q)
    requires UndisturbedAfter(cfg, s, ops, -1, q)
    requires q !in marks.dirty || exists f | 0 <= f < |ops| :: ops[f].Mutate? && !ops[f].raises
    ensures var marks' := MarksAfter(cfg, s, ops, queries, marks); Unmarked(cfg, marks', q) && q !in marks'.dirty
    decreases |ops|
  {
    if ops != [] {
      assert Legal(cfg, ops[0], queries);
      StepStaysClean(cfg, s, ops[0], queries, marks, q);
      var marks' := Marked(cfg, s, ops[0], queries, marks);
      if q in marks'.dirty {
        var f :| 0 <= f < |ops| && ops[f].Mutate? && !ops[f].raises;
        assert ops[1..][f - 1] == ops[f];
      }
      UndisturbedLess(cfg, Step(cfg, s, ops[0]), ops[1..], -2, -1, q);
      StaysClean(cfg, Step(cfg, s, ops[0]), ops[1..], queries, marks', q);
    }
  }

  lemma {:induction false} UndisturbedLess(cfg: Config, s: State, ops: seq<Op>, g: int, h: int, q: Query)
    requires g < 0 && h < 0 && UndisturbedAfter(cfg, s, ops, g, q)
    ensures UndisturbedAfter(cfg, s, ops, h, q)
    decreases |ops|
  {
    if ops != [] { UndisturbedLess(cfg, Step(cfg, s, ops[0]), ops[1..], g - 1, h - 1, q); }
  }

  /** What may still be out of date right after a flush: everything the other cache holds. */
  ghost function FlushMarks(cfg: Config, flush: Op, queries: set<Query>): Marks {
    if flush.FlushSpaces? then Marks(queries, {}) else Marks({}, SpacesOf(cfg, queries))
  }

  lemma FlushedExact(cfg: Config, s: State, flush: Op, queries: set<Query>)
    requires flush.FlushSpaces? || (flush.Mutate? && !flush.raises)
    ensures Exact(cfg, Step(cfg, s, flush), queries, FlushMarks(cfg, flush, queries))
  {
  }

  lemma ExactFromMarks(cfg: Config, s: State, ops: seq<Op>, queries: set<Query>, marks: Marks, q: Query)
    requires ToldApart(cfg, queries) && Sound(s.db) && q in queries && LegalRun(cfg, ops, queries)
    requires Exact(cfg, s, queries, marks) && Unmarked(cfg, marks, q) && UndisturbedAfter(cfg, s, ops, -1, q)
    requires q !in marks.dirty || exists f | 0 <= f < |ops| :: ops[f].Mutate? && !ops[f].raises
    ensures var s' := Run(cfg, s, ops); Answer(cfg, s', q) == Resolve(cfg, s'.db, q)
  {
    RunCleanIsExact(cfg, s, ops, queries, marks);
    StaysClean(cfg, s, ops, queries, marks, q);
    CleanAnswer(cfg, Run(cfg, s, ops), queries, MarksAfter(cfg, s, ops, queries, marks), q);
  }

  /**
   * Whatever came before, a query is answered exactly when both caches have been flushed, the
   * permission cache last, and nothing since the first of the two flushes was about it. Without a
   * workspace to fall back on the second flush alone will do.
   */
  lemma {:induction false} ExactSinceFlush(cfg: Config, s: State, ops: seq<Op>, g: nat, f: nat, queries: set<Query>,
                                           q: Query)
    requires ToldApart(cfg, queries) && Sound(s.db) && q in queries && LegalRun(cfg, ops, queries)
    requires g <= f < |ops| && ops[f].Mutate? && !ops[f].raises
    requires if Effective(cfg, q).Some? then ops[g].FlushSpaces? else g == f
    requires UndisturbedAfter(cfg, s, ops, g, q)
    ensures var s' := Run(cfg, s, ops); Answer(cfg, s', q) == Resolve(cfg, s'.db, q)
    decreases g
  {
    var s', rest := Step(cfg, s, ops[0]), ops[1..];
    assert Legal(cfg, ops[0], queries);
    StepSound(cfg, s, ops[0], queries);
    if g > 0 {
      ExactSinceFlush(cfg, s', rest, g - 1, f - 1, queries, q);
    } else {
      var marks := FlushMarks(cfg, ops[0], queries);
      FlushedExact(cfg, s, ops[0], queries);
      if f > 0 { assert rest[f - 1] == ops[f]; }
      ExactFromMarks(cfg, s', rest, queries, marks, q);
    }
  }

  // ---- stale entries ----

  const ANN7 := Ask(Experiment, "7", "", "ann", None)
  const ANN7_IN_W := Ask(Experiment, "7", "", "ann", Some("w"))
  const ANN_MANAGES_7 := HeldThrough("ann", Experiment, Plain("7"), MANAGE, true, true)
  const ANN_READS_W := HeldThrough("ann", Workspace, Plain("w"), READ, true, false)

  /** After a wipe the entry of the wiped experiment still answers with the removed row. */
  lemma WipeLeavesStaleEntry(cfg: Config)
    requires ReadsDirectRows(cfg.order)
    ensures var s := Step(cfg, Step(cfg, Fresh(ANN_MANAGES_7), Lookup(ANN7)), Silent(ExperimentWiped("7")));
            && Answer(cfg, s, ANN7).level == MANAGE
            && FirstSource(cfg, s.db, ANN7, cfg.order) !in {Some("user"), Some("group")}
            && Resolve(cfg, s.db, ANN7) != Answer(cfg, s, ANN7)
  {
    HeldResource(cfg, ANN7, MANAGE, ANN7);
    HeldWalk(cfg, "ann", Experiment, Plain("7"), MANAGE, true, true, ANN7, cfg.order);
    WipedWalk(cfg, ANN_MANAGES_7, Experiment, Plain("7"), ANN7, cfg.order);
    WipeChangesIff(cfg, ANN_MANAGES_7, "7");
  }

  /** A user deleted and created anew, with another id and no rows, is answered with the old user's MANAGE. */
  lemma RecreatedUserInheritsEntry(cfg: Config)
    requires ReadsDirectRows(cfg.order)
    ensures var s := Step(cfg, Fresh(ANN_MANAGES_7), Lookup(ANN7));
            var s' := Step(cfg, Step(cfg, s, Silent(UserDeleted("ann"))), Silent(UserCreated("ann", 1)));
            && s'.db.dir.users == map["ann" := 1]
            && Answer(cfg, s', ANN7).level == MANAGE
            && Resolve(cfg, s'.db, ANN7) == PermissionResult(cfg.fallback, "fallback")
  {
    HeldResource(cfg, ANN7, MANAGE, ANN7);
    assert ANN_MANAGES_7.dir.users["ann"] == 0 && 0 in ANN_MANAGES_7.dir.users.Values;
    var db := DeleteUser(ANN_MANAGES_7, "ann");
    assert db.dir.users == map[] && db.dir.links == {};
    assert Sound(db);
    CreateChangesNothing(cfg, db, "ann", 1);
    UnknownUser(cfg, db, ANN7, cfg.order);
    ResultNamesSource(cfg, db, ANN7, cfg.order);
  }

  lemma AnnReadsW(cfg: Config)
    requires "user" in cfg.order && cfg.workspaces
    ensures Sound(ANN_READS_W) && !Held(cfg, ANN_READS_W, ANN7)
    ensures FirstSource(cfg, ANN_READS_W, ANN7_IN_W, cfg.order) == None
    ensures SpaceLevel(cfg, ANN_READS_W, Space("ann", "w")) == Some(READ)
    ensures Resolve(cfg, ANN_READS_W, ANN7_IN_W) == PermissionResult(READ, "workspace")
  {
    HeldSpace(cfg, Space("ann", "w"), READ, true, false, ANN7_IN_W);
    HeldSpace(cfg, Space("ann", "w"), READ, true, false, ANN7);
    assert ANN_READS_W.dir.users["ann"] == 0 && 0 in ANN_READS_W.dir.users.Values;
  }

  /** A deleted user who held nothing but a workspace permission is still answered with it. */
  lemma DeletedUserKeepsWorkspace(cfg: Config)
    requires "user" in cfg.order && cfg.workspaces
    ensures var s := Step(cfg, Step(cfg, Fresh(ANN_READS_W), Lookup(ANN7_IN_W)), Silent(UserDeleted("ann")));
            && Answer(cfg, s, ANN7_IN_W) == PermissionResult(READ, "workspace")
            && Resolve(cfg, s.db, ANN7_IN_W) == PermissionResult(NO_PERMISSIONS, "workspace-deny")
  {
    AnnReadsW(cfg);
    var db := DeleteUser(ANN_READS_W, "ann");
    UnknownUser(cfg, db, ANN7_IN_W, cfg.order);
    UnknownUser(cfg, db, SpaceAsk(Space("ann", "w")), cfg.order);
    ResultNamesSource(cfg, db, ANN7_IN_W, cfg.order);
  }

  /**
   * The route that revokes a workspace permission drops the entry of the workspace cache, but the
   * permission cache still answers READ.
   */
  lemma RevocationLeavesStaleEntry(cfg: Config)
    requires "user" in cfg.order && cfg.workspaces
    ensures var s := Step(cfg, Fresh(ANN_READS_W), Lookup(ANN7_IN_W));
            var revoked := Step(cfg, s, Silent(SpaceUserRow("ann", "w", None)));
            var s' := Step(cfg, revoked, ExpireSpace(SpaceKey(Space("ann", "w"))));
            && s'.spaces == map[]
            && Answer(cfg, s', ANN7_IN_W) == PermissionResult(READ, "workspace")
            && Resolve(cfg, s'.db, ANN7_IN_W) == PermissionResult(NO_PERMISSIONS, "workspace-deny")
  {
    AnnReadsW(cfg);
    var m, sp := SpaceUserRow("ann", "w", None), Space("ann", "w");
    var db := Apply(ANN_READS_W, m);
    ResourcesUntouched(cfg, ANN_READS_W, m, ANN7_IN_W);
    ResultNamesSource(cfg, db, ANN7_IN_W, cfg.order);
    SpaceWalkAfter(cfg, ANN_READS_W, m, sp, cfg.order);
    RevokedWalk(cfg, cfg.order);
    var s := Step(cfg, Fresh(ANN_READS_W), Lookup(ANN7_IN_W));
    ResultNamesSource(cfg, ANN_READS_W, ANN7_IN_W, cfg.order);
    assert s.spaces == map[SpaceKey(sp) := READ];
  }

  lemma {:induction false} RevokedWalk(cfg: Config, order: seq<string>)
    ensures LevelAfter(cfg, ANN_READS_W, SpaceUserRow("ann", "w", None), Space("ann", "w"), order) == None
  {
    if order != [] {
      RevokedWalk(cfg, order[1..]);
      HeldAnswer(cfg, "ann", Workspace, Plain("w"), READ, true, false, SpaceAsk(Space("ann", "w")), order[0]);
    }
  }
}
