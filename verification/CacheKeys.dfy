/**
 * The keys of the permission cache and of the workspace cache (utils/permissions.py,
 * utils/workspace_cache.py), and exactly which lookups may share one.
 */
module CacheKeys {
  import opened Common
  import opened Permissions
  import opened GroupFold
  import opened Resolution
  import opened UnlistedMutators

  function TypeName(k: Kind): string
    requires k != Workspace
  {
    match k
    case Experiment => "experiment"
    case RegisteredModel => "registered_model"
    case Prompt => "prompt"
    case Scorer => "scorer"
    case GatewayEndpoint => "gateway_endpoint"
    case GatewaySecret => "gateway_secret"
    case GatewayModelDefinition => "gateway_model_definition"
  }

  /** The key names type, resource and user; it holds neither the scorer nor the workspace. */
  function CacheKey(q: Query): string { TypeName(q.kind) + ":" + q.resource + ":" + q.user }

  /** The key of the workspace cache. */
  function SpaceKey(sp: Space): string { sp.user + ":" + sp.name }

  /** The keys, spelled out. */
  lemma KeysAre(r: string, u: string)
    ensures && CacheKey(Ask(Experiment, r, "", u, None)) == "experiment:" + r + ":" + u
            && CacheKey(Ask(RegisteredModel, r, "", u, None)) == "registered_model:" + r + ":" + u
            && CacheKey(Ask(Prompt, r, "", u, None)) == "prompt:" + r + ":" + u
            && CacheKey(Ask(Scorer, r, "", u, None)) == "scorer:" + r + ":" + u
            && CacheKey(Ask(GatewayEndpoint, r, "", u, None)) == "gateway_endpoint:" + r + ":" + u
            && CacheKey(Ask(GatewaySecret, r, "", u, None)) == "gateway_secret:" + r + ":" + u
            && CacheKey(Ask(GatewayModelDefinition, r, "", u, None)) == "gateway_model_definition:" + r + ":" + u
  {
    forall k: Kind | k != Workspace ensures CacheKey(Ask(k, r, "", u, None)) == (TypeName(k) + ":") + r + ":" + u {
    }
  }

  ghost predicate NoColon(s: string) { forall i | 0 <= i < |s| :: s[i] != ':' }

  /** A colon-free last part is determined by the joined string, and so is the rest. */
  lemma SplitLast(a: string, u: string, b: string, v: string)
    requires NoColon(u) && NoColon(v) && a + ":" + u == b + ":" + v
    ensures a == b && u == v
  {
    var s, t := a + ":" + u, b + ":" + v;
    assert forall i | |a| < i < |s| :: s[i] == u[i - |a| - 1];
    assert forall i | |b| < i < |t| :: t[i] == v[i - |b| - 1];
    assert s[|a|] == ':' && t[|b|] == ':';
    assert a == s[..|a|] && b == t[..|b|];
    assert u == s[|a| + 1..] && v == t[|b| + 1..];
  }

  lemma SplitFirst(a: string, u: string, b: string, v: string)
    requires NoColon(a) && NoColon(b) && a + ":" + u == b + ":" + v
    ensures a == b && u == v
  {
    var s, t := a + ":" + u, b + ":" + v;
    assert forall i | 0 <= i < |a| :: s[i] == a[i];
    assert forall i | 0 <= i < |b| :: t[i] == b[i];
    assert s[|a|] == ':' && t[|b|] == ':';
    assert a == s[..|a|] && b == t[..|b|];
    assert u == s[|a| + 1..] && v == t[|b| + 1..];
  }

  lemma TypeNameNoColon(k: Kind)
    requires k != Workspace
    ensures NoColon(TypeName(k))
  {
  }

  lemma TypeNamesDiffer(k: Kind, k': Kind)
    requires k != Workspace && k' != Workspace && TypeName(k) == TypeName(k')
    ensures k == k'
  {
    assert && TypeName(Prompt)[0] == 'p' && TypeName(Scorer)[0] == 's' && TypeName(RegisteredModel)[0] == 'r'
           && TypeName(GatewayEndpoint)[0] == 'g';
  }

  /** For user names without a colon the key determines type, resource and user. */
  lemma KeyDetermines(q: Query, q': Query)
    requires NoColon(q.user) && NoColon(q'.user)
    ensures CacheKey(q) == CacheKey(q') <==> q.kind == q'.kind && q.resource == q'.resource && q.user == q'.user
  {
    TypeNameNoColon(q.kind);
    TypeNameNoColon(q'.kind);
    if CacheKey(q) == CacheKey(q') {
      SplitLast(TypeName(q.kind) + ":" + q.resource, q.user, TypeName(q'.kind) + ":" + q'.resource, q'.user);
      SplitFirst(TypeName(q.kind), q.resource, TypeName(q'.kind), q'.resource);
      TypeNamesDiffer(q.kind, q'.kind);
    }
  }

  /** The type is always determined; for the rest see SafePair. */
  lemma KeyDeterminesKind(q: Query, q': Query)
    requires CacheKey(q) == CacheKey(q')
    ensures q.kind == q'.kind
  {
    TypeNameNoColon(q.kind);
    TypeNameNoColon(q'.kind);
    var rest, rest' := q.resource + ":" + q.user, q'.resource + ":" + q'.user;
    assert CacheKey(q) == TypeName(q.kind) + ":" + rest && CacheKey(q') == TypeName(q'.kind) + ":" + rest';
    SplitFirst(TypeName(q.kind), rest, TypeName(q'.kind), rest');
    TypeNamesDiffer(q.kind, q'.kind);
  }

  /** A colon in a user or workspace name can make two users share an entry of the workspace cache. */
  lemma SpaceKeysCollide()
    ensures SpaceKey(Space("a:b", "c")) == SpaceKey(Space("a", "b:c"))
  {
    calc {
      "a:b" + ":" + "c";
      "a:b:c";
      "a" + ":" + "b:c";
    }
  }

  /** For user names without a colon the workspace key determines user and workspace. */
  lemma SpaceKeyDetermines(sp: Space, sp': Space)
    requires NoColon(sp.user) && NoColon(sp'.user)
    ensures SpaceKey(sp) == SpaceKey(sp') <==> sp == sp'
  {
    if SpaceKey(sp) == SpaceKey(sp') { SplitFirst(sp.user, sp.name, sp'.user, sp'.name); }
  }

  // ---- tables that tell two lookups apart ----

  /**
   * One user may hold one level on one resource by a row of their own, by the row of a group they
   * are linked to, or both; nothing else exists but that group and its row.
   */
  function HeldThrough(user: string, t: Kind, key: Key, l: Level, direct: bool, linked: bool): Db {
    Db(Directory(map[user := 0], [Group(0, "g")], if linked then {(0, 0)} else {}),
       if direct then map[(t, 0) := map[key := l]] else map[],
       map[t := [GroupRow(0, key, l)]], map[], map[])
  }

  /** The configured order consults a source that gives the level. */
  predicate Consults(order: seq<string>, direct: bool, linked: bool) {
    (direct && "user" in order) || (linked && "group" in order)
  }

  lemma HeldAnswer(cfg: Config, user: string, t: Kind, key: Key, l: Level, direct: bool, linked: bool, q: Ask,
                   source: string)
    ensures SourceAnswer(cfg, HeldThrough(user, t, key, l, direct, linked), q, source)
         == if && q.user == user && DirectTable(q.kind) == t && KeyOf(q) == key
               && ((direct && source == "user") || (linked && source == "group"))
            then Some(l) else None
  {
    var db := HeldThrough(user, t, key, l, direct, linked);
    var rows := GroupRows(db, DirectTable(q.kind));
    if DirectTable(q.kind) == t && KeyOf(q) == key && linked {
      assert Granted(db.dir, rows, 0, key) == {l} by { assert rows[0].level in Granted(db.dir, rows, 0, key); }
      DecisiveIsGreatest({l}, l);
    } else {
      assert Granted(db.dir, rows, 0, KeyOf(q)) == {};
    }
  }

  /** The holder is answered with the level, every other lookup with nothing. */
  lemma {:induction false} HeldWalk(cfg: Config, user: string, t: Kind, key: Key, l: Level, direct: bool, linked: bool,
                                    q: Ask, order: seq<string>)
    ensures var db := HeldThrough(user, t, key, l, direct, linked);
            if q.user == user && DirectTable(q.kind) == t && KeyOf(q) == key && Consults(order, direct, linked)
            then FirstSource(cfg, db, q, order) in {Some("user"), Some("group")}
                 && FromStoreOrDefault(cfg, db, q, order).level == l
            else FirstSource(cfg, db, q, order) == None
  {
    if order != [] {
      HeldWalk(cfg, user, t, key, l, direct, linked, q, order[1..]);
      HeldAnswer(cfg, user, t, key, l, direct, linked, q, order[0]);
      assert Consults(order, direct, linked)
        <==> (direct && order[0] == "user") || (linked && order[0] == "group") || Consults(order[1..], direct, linked);
    }
  }

  /** What such tables resolve to when they hold a resource. */
  lemma HeldResource(cfg: Config, h: Query, l: Level, q: Query)
    requires ReadsDirectRows(cfg.order)
    ensures var r := Resolve(cfg, HeldThrough(h.user, DirectTable(h.kind), KeyOf(h), l, true, true), q);
            if q.user == h.user && DirectTable(q.kind) == DirectTable(h.kind) && KeyOf(q) == KeyOf(h)
            then r.level == l && r.kind in ["user", "group"]
            else r == WorkspaceFallback(cfg, q, PermissionResult(cfg.fallback, "fallback"), None)
  {
    var t, db := DirectTable(h.kind), HeldThrough(h.user, DirectTable(h.kind), KeyOf(h), l, true, true);
    HeldWalk(cfg, h.user, t, KeyOf(h), l, true, true, q, cfg.order);
    ResultNamesSource(cfg, db, q, cfg.order);
    if Effective(cfg, q).Some? {
      HeldWalk(cfg, h.user, t, KeyOf(h), l, true, true, SpaceAsk(Effective(cfg, q).value), cfg.order);
    }
  }

  /** And when they hold a workspace. */
  lemma HeldSpace(cfg: Config, h: Space, l: Level, direct: bool, linked: bool, q: Query)
    ensures var db := HeldThrough(h.user, Workspace, Plain(h.name), l, direct, linked);
            var level := if Effective(cfg, q) == Some(h) && Consults(cfg.order, direct, linked) then Some(l) else None;
            && FirstSource(cfg, db, q, cfg.order) == None
            && EffectiveLevel(cfg, db, q) == level
            && Resolve(cfg, db, q) == WorkspaceFallback(cfg, q, PermissionResult(cfg.fallback, "fallback"), level)
  {
    var db := HeldThrough(h.user, Workspace, Plain(h.name), l, direct, linked);
    HeldWalk(cfg, h.user, Workspace, Plain(h.name), l, direct, linked, q, cfg.order);
    ResultNamesSource(cfg, db, q, cfg.order);
    if Effective(cfg, q).Some? {
      HeldWalk(cfg, h.user, Workspace, Plain(h.name), l, direct, linked, SpaceAsk(Effective(cfg, q).value), cfg.order);
    }
  }

  // ---- exactly which queries may share an entry ----

  /** The configured order consults the direct rows of users or of groups. */
  predicate ReadsDirectRows(order: seq<string>) { Consults(order, true, true) }

  ghost predicate SameResolution(cfg: Config, q: Query, q': Query) {
    forall db :: Resolve(cfg, db, q) == Resolve(cfg, db, q')
  }

  /** Same resource, user and workspace to fall back on, and the same scorer if they are scorer queries. */
  predicate SafePair(cfg: Config, q: Query, q': Query) {
    && q.resource == q'.resource && q.user == q'.user && (q.kind == Scorer ==> q.scorer == q'.scorer)
    && Effective(cfg, q) == Effective(cfg, q')
  }

  lemma SafePairResolves(cfg: Config, db: Db, q: Query, q': Query)
    requires q.kind == q'.kind && SafePair(cfg, q, q')
    ensures FromStoreOrDefault(cfg, db, q, cfg.order) == FromStoreOrDefault(cfg, db, q', cfg.order)
    ensures Resolve(cfg, db, q) == Resolve(cfg, db, q')
  {
    forall source ensures SourceAnswer(cfg, db, q, source) == SourceAnswer(cfg, db, q', source) {
    }
    SameWalkFor(cfg, db, db, q, q', cfg.order);
  }

  /** Where only the first query has a workspace, or another one, some tables tell them apart. */
  lemma WorkspacesTellApart(cfg: Config, q: Query, q': Query)
    requires ReadsDirectRows(cfg.order) && Effective(cfg, q).Some? && Effective(cfg, q) != Effective(cfg, q')
    ensures !SameResolution(cfg, q, q')
  {
    var h := Effective(cfg, q).value;
    var db := HeldThrough(h.user, Workspace, Plain(h.name), READ, true, true);
    HeldSpace(cfg, h, READ, true, true, q);
    HeldSpace(cfg, h, READ, true, true, q');
    assert Resolve(cfg, db, q).kind != Resolve(cfg, db, q').kind;
  }

  /** Exactly when two queries that share a key resolve alike on all tables. */
  lemma SharedKeyIsSafeIff(cfg: Config, q: Query, q': Query)
    requires CacheKey(q) == CacheKey(q') && ReadsDirectRows(cfg.order)
    ensures SameResolution(cfg, q, q') <==> SafePair(cfg, q, q')
  {
    KeyDeterminesKind(q, q');
    if SafePair(cfg, q, q') {
      forall db ensures Resolve(cfg, db, q) == Resolve(cfg, db, q') { SafePairResolves(cfg, db, q, q'); }
    }
    if SameResolution(cfg, q, q') {
      var db := HeldThrough(q.user, DirectTable(q.kind), KeyOf(q), READ, true, true);
      HeldResource(cfg, q, READ, q);
      HeldResource(cfg, q, READ, q');
      assert Resolve(cfg, db, q) == Resolve(cfg, db, q');
      if Effective(cfg, q) != Effective(cfg, q') {
        if Effective(cfg, q).Some? { WorkspacesTellApart(cfg, q, q'); } else { WorkspacesTellApart(cfg, q', q); }
      }
    }
  }
}
