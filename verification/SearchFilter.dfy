/**
 * Filtering one page of search results in place, with checks answered from the request memo
 * (hooks/after_request.py).
 */
module SearchFilter {
  import opened Common
  import opened Permissions
  import opened Lists

  datatype CheckKind = Exp | Rm | GwEp | GwSecret | GwMd

  datatype MemoKey = MemoKey(kind: CheckKind, id: string, user: string)

  /**
   * One search result: the id its permission is checked against (its own or its parent's) and
   * the workspace it carries. Entries may repeat.
   */
  datatype Entry = Entry(uid: string, checkId: string, workspace: Option<string>)

  /** What the hook asks during one request; answers are fixed while the request runs. */
  datatype World = World(
    canRead: MemoKey -> bool,
    workspaceOf: string -> Option<string>,
    workspacePermission: (string, string) -> Option<Level>,
    workspaces: bool)

  datatype Ctx = Ctx(world: World, kind: CheckKind, user: string)

  predicate CanAccessWorkspace(w: World, user: string, workspace: Option<string>) {
    if !w.workspaces || workspace.None? || workspace.value == "" then true
    else
      var perm := w.workspacePermission(user, workspace.value);
      perm.Some? && CanRead(perm.value)
  }

  /** The checks: readable; accessible by the looked-up or by the carried workspace; and their conjunctions. */
  datatype Stage = Readable | InLookedUp | InCarried | FirstPage | Refetched

  predicate Passes(c: Ctx, st: Stage, e: Entry) {
    var readable := c.world.canRead(MemoKey(c.kind, e.checkId, c.user));
    var inLookedUp := CanAccessWorkspace(c.world, c.user, c.world.workspaceOf(e.checkId));
    var inCarried := CanAccessWorkspace(c.world, c.user, e.workspace);
    match st
    case Readable => readable
    case InLookedUp => inLookedUp
    case InCarried => inCarried
    case FirstPage => readable && inLookedUp
    case Refetched => readable && inCarried
  }

  /**
   * The checks in terms of what the request's user may do: read the entry, and, with workspaces
   * on and a workspace named, hold one of the four levels that permit reading there.
   */
  lemma PassesIff(c: Ctx, e: Entry)
    ensures var readable := c.world.canRead(MemoKey(c.kind, e.checkId, c.user));
            var permitting := {Some(READ), Some(USE), Some(EDIT), Some(MANAGE)};
            var lookedUp, w := c.world.workspaceOf(e.checkId), c.world;
            && (Passes(c, Readable, e) <==> readable)
            && (Passes(c, FirstPage, e) <==> readable && (w.workspaces && lookedUp.Some? && lookedUp.value != "" ==>
                  w.workspacePermission(c.user, lookedUp.value) in permitting))
            && (Passes(c, Refetched, e) <==>
                  readable && (w.workspaces && e.workspace.Some? && e.workspace.value != "" ==>
                  w.workspacePermission(c.user, e.workspace.value) in permitting))
  {
  }

  function Check(c: Ctx, st: Stage): Entry -> bool { e => Passes(c, st, e) }

  /** The plain filter: the entries that pass, in order, with their repetitions. */
  function Kept(c: Ctx, st: Stage, s: seq<Entry>): (r: seq<Entry>)
    ensures |r| <= |s|
  {
    FilterLength(Check(c, st), s);
    Filter(Check(c, st), s)
  }

  datatype Token = End | At(offset: nat)

  /** The response message under construction. */
  class Response {
    var items: seq<Entry>
    var token: Token

    constructor (items: seq<Entry>, token: Token)
      ensures this.items == items && this.token == token
    {
      this.items := items;
      this.token := token;
    }

    method Remove(e: Entry)
      requires e in items
      modifies this`items
      ensures items == RemoveFirst(old(items), e)
    {
      items := RemoveFirst(items, e);
    }
  }

  /** The request-scoped memo on flask.g, one dict for all five kinds. */
  class RequestScope {
    const world: World
    var memo: map<MemoKey, bool>

    ghost predicate Valid()
      reads this
    {
      forall k | k in memo :: memo[k] == world.canRead(k)
    }

    constructor (world: World)
      ensures Valid() && this.world == world
    {
      this.world := world;
      memo := map[];
    }

    /** A memoised check answers as the un-memoised one, whatever was asked before and for whichever kind. */
    method CachedCanRead(kind: CheckKind, id: string, user: string) returns (b: bool)
      requires Valid()
      modifies this`memo
      ensures Valid() && b == world.canRead(MemoKey(kind, id, user))
    {
      var key := MemoKey(kind, id, user);
      if key !in memo {
        memo := memo[key := world.canRead(key)];
      }
      b := memo[key];
    }
  }

  /** The first pass, over a snapshot of the list it shrinks; it is also the whole of the gateway list filters. */
  method RemoveUnreadable(scope: RequestScope, c: Ctx, resp: Response)
    requires scope.Valid() && scope.world == c.world
    modifies scope`memo, resp`items
    ensures scope.Valid() && resp.items == Kept(c, Readable, old(resp.items))
  {
    var snapshot := resp.items;
    assert snapshot[0..] == snapshot;
    for i := 0 to |snapshot|
      invariant scope.Valid()
      invariant resp.items == Kept(c, Readable, snapshot[..i]) + snapshot[i..]
    {
      var e := snapshot[i];
      RemoveFlagged(Check(c, Readable), snapshot, i);
      var readable := scope.CachedCanRead(c.kind, e.checkId, c.user);
      if !readable {
        resp.Remove(e);
      }
    }
    assert snapshot[..|snapshot|] == snapshot;
  }

  /** Every entry of the map is a current lookup. */
  ghost predicate LookedUp(c: Ctx, wsMap: map<string, Option<string>>) {
    forall id | id in wsMap :: wsMap[id] == c.world.workspaceOf(id)
  }

  /** The workspace of every listed entry, each looked up once. */
  method LookUpWorkspaces(c: Ctx, items: seq<Entry>) returns (wsMap: map<string, Option<string>>)
    ensures LookedUp(c, wsMap) && forall e | e in items :: e.checkId in wsMap
  {
    wsMap := map[];
    for i := 0 to |items|
      invariant LookedUp(c, wsMap) && forall k | 0 <= k < i :: items[k].checkId in wsMap
    {
      if items[i].checkId !in wsMap {
        wsMap := wsMap[items[i].checkId := c.world.workspaceOf(items[i].checkId)];
      }
    }
  }

  method RemoveByMap(c: Ctx, wsMap: map<string, Option<string>>, resp: Response)
    requires LookedUp(c, wsMap) && forall e | e in resp.items :: e.checkId in wsMap
    modifies resp`items
    ensures resp.items == Kept(c, InLookedUp, old(resp.items))
  {
    var snapshot := resp.items;
    assert snapshot[0..] == snapshot;
    for i := 0 to |snapshot|
      invariant resp.items == Kept(c, InLookedUp, snapshot[..i]) + snapshot[i..]
    {
      var e := snapshot[i];
      RemoveFlagged(Check(c, InLookedUp), snapshot, i);
      if !CanAccessWorkspace(c.world, c.user, wsMap[e.checkId]) {
        resp.Remove(e);
      }
    }
    assert snapshot[..|snapshot|] == snapshot;
  }

  /**
   * The second pass: all workspaces are looked up first, then the list is shrunk. The map survives
   * for later windows.
   */
  method RemoveOutsideWorkspace(c: Ctx, resp: Response) returns (wsMap: map<string, Option<string>>)
    modifies resp`items
    ensures LookedUp(c, wsMap) && resp.items == Kept(c, InLookedUp, old(resp.items))
  {
    wsMap := map[];
    if !c.world.workspaces {
      FilterAll(Check(c, InLookedUp), resp.items);
      return;
    }
    wsMap := LookUpWorkspaces(c, resp.items);
    RemoveByMap(c, wsMap, resp);
  }

  /** The model-version form of the second pass: looking up and removing in one loop. */
  method RemoveOutsideWorkspaceInterleaved(c: Ctx, resp: Response)
    modifies resp`items
    ensures resp.items == Kept(c, InLookedUp, old(resp.items))
  {
    var snapshot := resp.items;
    if !c.world.workspaces {
      FilterAll(Check(c, InLookedUp), snapshot);
      return;
    }
    var wsMap: map<string, Option<string>> := map[];
    assert snapshot[0..] == snapshot;
    for i := 0 to |snapshot|
      invariant LookedUp(c, wsMap)
      invariant resp.items == Kept(c, InLookedUp, snapshot[..i]) + snapshot[i..]
    {
      var e := snapshot[i];
      RemoveFlagged(Check(c, InLookedUp), snapshot, i);
      if e.checkId !in wsMap {
        wsMap := wsMap[e.checkId := c.world.workspaceOf(e.checkId)];
      }
      if !CanAccessWorkspace(c.world, c.user, wsMap[e.checkId]) {
        resp.Remove(e);
      }
    }
    assert snapshot[..|snapshot|] == snapshot;
  }

  /** Both passes on the page MLflow returned: exactly the plain filter by the un-memoised conjunction. */
  method FilterPage(scope: RequestScope, c: Ctx, resp: Response) returns (wsMap: map<string, Option<string>>)
    requires scope.Valid() && scope.world == c.world
    modifies scope`memo, resp`items
    ensures scope.Valid() && LookedUp(c, wsMap) && resp.items == Kept(c, FirstPage, old(resp.items))
  {
    FilterTwice(Check(c, Readable), Check(c, InLookedUp), Check(c, FirstPage), resp.items);
    RemoveUnreadable(scope, c, resp);
    wsMap := RemoveOutsideWorkspace(c, resp);
  }

  method FilterVersionsPage(scope: RequestScope, c: Ctx, resp: Response)
    requires scope.Valid() && scope.world == c.world
    modifies scope`memo, resp`items
    ensures scope.Valid() && resp.items == Kept(c, FirstPage, old(resp.items))
  {
    FilterTwice(Check(c, Readable), Check(c, InLookedUp), Check(c, FirstPage), resp.items);
    RemoveUnreadable(scope, c, resp);
    RemoveOutsideWorkspaceInterleaved(c, resp);
  }
}
