/**
 * The logged-model search (hooks/after_request.py): batches with an inner loop that stops inside
 * a batch, proved against the same entry-by-entry scan. Both paths look workspaces up, so no
 * assumption about carried workspaces is needed.
 */
module LoggedModels {
  import opened Common
  import opened Permissions
  import opened Lists
  import opened SearchFilter
  import opened SearchPages

  function LoggedPage(c: Ctx, all: seq<Entry>, max: nat, o: nat): Page {
    Scan(c, all, max, |all|, o, [])
  }

  /**
   * The token is empty exactly when the list has been consumed; otherwise it points at the first
   * unread entry behind a full page.
   */
  lemma LoggedToken(c: Ctx, all: seq<Entry>, max: nat, o: nat) returns (n: nat)
    requires 0 < max && o <= |all|
    ensures var p := LoggedPage(c, all, max, o);
            && o <= n <= |all| && p.items == Kept(c, FirstPage, all[o..n]) && |p.items| <= max
            && (p.token == End <==> n == |all|)
            && (p.token.At? ==> p.token.offset == n && |p.items| == max && o < n < |all|)
  {
    n := ScanStops(c, all, max, o, []);
    ScanToken(c, all, max, |all|, o, []);
    assert [] + Kept(c, FirstPage, all[o..n]) == Kept(c, FirstPage, all[o..n]);
  }

  lemma LoggedAdvances(c: Ctx, all: seq<Entry>, max: nat, o: nat)
    requires 0 < max && o <= |all|
    ensures var p := LoggedPage(c, all, max, o); p.token.At? ==> o < p.token.offset < |all|
  {
    var _ := LoggedToken(c, all, max, o);
  }

  function LoggedSession(c: Ctx, all: seq<Entry>, max: nat, o: nat): seq<Entry>
    requires 0 < max && o <= |all|
    decreases |all| - o
  {
    LoggedAdvances(c, all, max, o);
    var p := LoggedPage(c, all, max, o);
    if p.token.At? then p.items + LoggedSession(c, all, max, p.token.offset) else p.items
  }

  /** Following the tokens delivers exactly the entries that pass, in order. */
  lemma {:induction false} LoggedSessionExact(c: Ctx, all: seq<Entry>, max: nat, o: nat)
    requires 0 < max && o <= |all|
    ensures LoggedSession(c, all, max, o) == Kept(c, FirstPage, all[o..])
    decreases |all| - o
  {
    var n := LoggedToken(c, all, max, o);
    assert all[o..] == all[o..n] + all[n..];
    FilterConcat(Check(c, FirstPage), all[o..n], all[n..]);
    if n == |all| {
      assert all[n..] == [];
    } else {
      LoggedSessionExact(c, all, max, n);
    }
  }

  /** In the user's terms, as for the offset search but by the workspace looked up for the experiment. */
  lemma LoggedSessionDelivers(c: Ctx, all: seq<Entry>, max: nat) returns (at: seq<nat>)
    requires 0 < max
    ensures |at| == |LoggedSession(c, all, max, 0)|
    ensures forall k | 0 <= k < |at| :: at[k] < |all| && LoggedSession(c, all, max, 0)[k] == all[at[k]]
    ensures forall j, k | 0 <= j < k < |at| :: at[j] < at[k]
    ensures forall i: nat | i < |all| ::
              var workspace := c.world.workspaceOf(all[i].checkId);
              i in at <==>
                && c.world.canRead(MemoKey(c.kind, all[i].checkId, c.user))
                && (c.world.workspaces && workspace.Some? && workspace.value != "" ==>
                      c.world.workspacePermission(c.user, workspace.value)
                      in {Some(READ), Some(USE), Some(EDIT), Some(MANAGE)})
  {
    LoggedSessionExact(c, all, max, 0);
    assert all[0..] == all;
    at := FilterPositions(Check(c, FirstPage), all);
    forall i: nat | i < |all| { PassesIff(c, all[i]); }
  }

  /** The page carries a token, and the page it leads to has nothing on it. */
  ghost predicate LoggedLeadsNowhere(c: Ctx, all: seq<Entry>, max: nat, o: nat) {
    var token := LoggedPage(c, all, max, o).token;
    token.At? && LoggedPage(c, all, max, token.offset).items == []
  }

  /**
   * The logged-model search stops at the last entry of the list but does not look further ahead:
   * its token leads to an empty page exactly when what passes of the rest of the list fills this
   * page and no more, and the list's last entry is not part of it.
   */
  lemma LoggedEmptyPageIff(c: Ctx, all: seq<Entry>, max: nat, o: nat)
    requires 0 < max && o <= |all|
    ensures LoggedLeadsNowhere(c, all, max, o)
       <==> o < |all| && |Kept(c, FirstPage, all[o..])| == max && !Passes(c, FirstPage, all[|all| - 1])
  {
    var n := ScanStops(c, all, max, o, []);
    ScanToken(c, all, max, |all|, o, []);
    assert [] + Kept(c, FirstPage, all[o..n]) == Kept(c, FirstPage, all[o..n]);
    assert all[o..] == all[o..n] + all[n..];
    FilterConcat(Check(c, FirstPage), all[o..n], all[n..]);
    if n == |all| {
      assert all[n..] == [];
    } else {
      LoggedPageEmptyIff(c, all, max, n);
      if Passes(c, FirstPage, all[|all| - 1]) { LastKept(c, all[n..]); }
    }
  }

  lemma LoggedPageEmptyIff(c: Ctx, all: seq<Entry>, max: nat, o: nat)
    requires 0 < max && o <= |all|
    ensures LoggedPage(c, all, max, o).items == [] <==> Kept(c, FirstPage, all[o..]) == []
  {
    var n := LoggedToken(c, all, max, o);
    assert all[o..] == all[o..n] + all[n..];
    FilterConcat(Check(c, FirstPage), all[o..n], all[n..]);
    if n == |all| { assert all[n..] == []; }
  }

  const SHOWN := Entry("1", "r", None)
  const HIDDEN := Entry("2", "u", None)
  const READS_R := Ctx(World((k: MemoKey) => k.id == "r", id => None, (user, workspace) => None, false), Exp, "ann")

  /**
   * A readable entry before an unreadable one, one entry a page: both searches hand out a token,
   * and nothing follows.
   */
  lemma TokenToNothing()
    ensures var all := [SHOWN, HIDDEN];
            && FilteredPage(READS_R, all, 1, 0) == Page([SHOWN], At(1))
            && FilteredPage(READS_R, all, 1, 1) == Page([], End)
            && LoggedPage(READS_R, all, 1, 0) == Page([SHOWN], At(1))
            && LoggedPage(READS_R, all, 1, 1) == Page([], End)
  {
    var c, all := READS_R, [SHOWN, HIDDEN];
    assert Passes(c, FirstPage, SHOWN) && !Passes(c, FirstPage, HIDDEN) && !Passes(c, Refetched, HIDDEN);
    assert [] + [SHOWN] == [SHOWN];
    assert Scan(c, all, 1, 1, 1, [SHOWN]) == Page([SHOWN], At(1));
    assert Scan(c, all, 1, 2, 1, [SHOWN]) == Page([SHOWN], At(1));
    assert Scan(c, all, 1, 2, 2, []) == Page([], End);
  }

  /** Between rounds: the page is final, or scanning on from the token gives the final page. */
  ghost predicate Underway(c: Ctx, all: seq<Entry>, max: nat, o: nat, got: seq<Entry>, token: Token) {
    match token
    case End => Page(got, End) == LoggedPage(c, all, max, o)
    case At(k) => k < |all| && |got| <= max && Scan(c, all, max, |all|, k, got) == LoggedPage(c, all, max, o)
  }

  lemma WindowScans(c: Ctx, all: seq<Entry>, max: nat, o: nat)
    requires 0 < max
    ensures var window := Search(all, o, max); Underway(c, all, max, o, Kept(c, FirstPage, window.items), window.token)
  {
    if o < |all| {
      var e := WindowEnd(all, max, o);
      var kept := Kept(c, FirstPage, all[o..e]);
      ScanStretch(c, all, max, |all|, o, e, [], FirstPage);
      assert [] + kept == kept;
      assert Search(all, o, max).items == all[o..e];
    }
  }

  /** The two checks on one model of a batch; the workspace map is filled on the way. */
  method CheckModel(scope: RequestScope, c: Ctx, wsMap: map<string, Option<string>>, e: Entry)
      returns (keep: bool, wsMap': map<string, Option<string>>)
    requires scope.Valid() && scope.world == c.world && LookedUp(c, wsMap)
    modifies scope`memo
    ensures scope.Valid() && LookedUp(c, wsMap') && keep == Passes(c, FirstPage, e)
  {
    wsMap' := wsMap;
    var readable := scope.CachedCanRead(c.kind, e.checkId, c.user);
    if !readable { return false, wsMap'; }
    if c.world.workspaces {
      if e.checkId !in wsMap' {
        wsMap' := wsMap'[e.checkId := c.world.workspaceOf(e.checkId)];
      }
      if !CanAccessWorkspace(c.world, c.user, wsMap'[e.checkId]) { return false, wsMap'; }
    }
    keep := true;
  }

  /** One batch: the for loop that breaks on a full page, and its else branch. */
  method ScanBatch(scope: RequestScope, c: Ctx, wsMap: map<string, Option<string>>, all: seq<Entry>, max: nat,
                   offset: nat, ghost o: nat, resp: Response)
      returns (token: Token, wsMap': map<string, Option<string>>)
    requires scope.Valid() && scope.world == c.world && LookedUp(c, wsMap)
    requires |resp.items| < max && Underway(c, all, max, o, resp.items, At(offset))
    modifies scope`memo, resp`items
    ensures scope.Valid() && LookedUp(c, wsMap')
    ensures |resp.items| <= max && Underway(c, all, max, o, resp.items, token)
    ensures token.At? ==> offset < token.offset
  {
    wsMap' := wsMap;
    var batch := Search(all, offset, max);
    var isLastPage := batch.token == End;
    var lastIndex := |batch.items| - 1;
    var index := 0;
    while index < |batch.items|
      invariant 0 <= index <= |batch.items|
      invariant scope.Valid() && LookedUp(c, wsMap') && |resp.items| < max
      invariant Scan(c, all, max, |all|, offset + index, resp.items) == LoggedPage(c, all, max, o)
    {
      var model := batch.items[index];
      assert model == all[offset + index];
      var keep;
      keep, wsMap' := CheckModel(scope, c, wsMap', model);
      if keep {
        resp.items := resp.items + [model];
        if |resp.items| >= max {
          token := if isLastPage && index == lastIndex then End else At(offset + index + 1);
          return;
        }
      }
      index := index + 1;
    }
    token := if isLastPage then End else At(offset + max);
  }

  method FilterSearchLogged(scope: RequestScope, c: Ctx, all: seq<Entry>, max: nat, ghost o: nat, isAdmin: bool,
                            resp: Response)
    requires scope.Valid() && scope.world == c.world && 0 < max
    requires Page(resp.items, resp.token) == Search(all, o, max)
    modifies scope`memo, resp
    ensures scope.Valid()
    ensures Page(resp.items, resp.token) == if isAdmin then Search(all, o, max) else LoggedPage(c, all, max, o)
  {
    if isAdmin { return; }
    WindowScans(c, all, max, o);
    var wsMap := FilterPage(scope, c, resp);
    var next := resp.token;
    while |resp.items| < max && next != End
      invariant scope.Valid() && LookedUp(c, wsMap) && |resp.items| <= max
      invariant Underway(c, all, max, o, resp.items, next)
      decreases Measure(all, next)
    {
      next, wsMap := ScanBatch(scope, c, wsMap, all, max, next.offset, o, resp);
    }
    resp.token := next;
  }

  /** A client that follows logged-model tokens from the start. */
  method FollowLoggedTokens(c: Ctx, all: seq<Entry>, max: nat) returns (received: seq<Entry>)
    requires 0 < max
    ensures received == Kept(c, FirstPage, all)
  {
    received := [];
    var next := At(0);
    assert all[0..] == all;
    LoggedSessionExact(c, all, max, 0);
    while next != End
      invariant next.At? ==>
                  && next.offset <= |all|
                  && received + LoggedSession(c, all, max, next.offset) == Kept(c, FirstPage, all)
      invariant next == End ==> received == Kept(c, FirstPage, all)
      decreases Measure(all, next)
    {
      var o := next.offset;
      LoggedAdvances(c, all, max, o);
      var scope := new RequestScope(c.world);
      var window := Search(all, o, max);
      var resp := new Response(window.items, window.token);
      FilterSearchLogged(scope, c, all, max, o, false, resp);
      received := received + resp.items;
      next := resp.token;
    }
  }
}
