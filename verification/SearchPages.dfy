/**
 * Refilling filtered pages and following continuation tokens over a whole client session
 * (hooks/after_request.py). MLflow's search is a window on a fixed list; the reference is a
 * scan of that list one entry at a time.
 */
module SearchPages {
  import opened Common
  import opened Permissions
  import opened Lists
  import opened SearchFilter

  datatype Page = Page(items: seq<Entry>, token: Token)

  /** MLflow's own search: a window of the list, and a token exactly when more follows it. */
  function Search(all: seq<Entry>, offset: nat, max: nat): (p: Page)
    ensures |p.items| <= max
  {
    if |all| <= offset then Page([], End)
    else if offset + max < |all| then Page(all[offset..offset + max], At(offset + max))
    else Page(all[offset..], End)
  }

  // ---- the reference: one entry at a time ----

  /** Entries of the first window are checked by looked-up workspace, later ones by the workspace they carry. */
  function StageAt(first: nat, i: nat): Stage { if i < first then FirstPage else Refetched }

  /** Walk on from position o until the page is full or the list is over. */
  function Scan(c: Ctx, all: seq<Entry>, max: nat, first: nat, o: nat, got: seq<Entry>): Page
    decreases |all| - o
  {
    if |all| <= o then Page(got, End)
    else if max <= |got| then Page(got, At(o))
    else if Passes(c, StageAt(first, o), all[o]) then Scan(c, all, max, first, o + 1, got + [all[o]])
    else Scan(c, all, max, first, o + 1, got)
  }

  /** A stretch that cannot overfill the page is scanned as a whole. */
  lemma {:induction false} ScanStretch(c: Ctx, all: seq<Entry>, max: nat, first: nat, o: nat, k: nat, got: seq<Entry>,
                                       st: Stage)
    requires o <= k <= |all| && k - o <= max - |got|
    requires forall i | o <= i < k :: StageAt(first, i) == st
    ensures Scan(c, all, max, first, o, got) == Scan(c, all, max, first, k, got + Kept(c, st, all[o..k]))
    decreases k - o
  {
    if o == k {
      assert all[o..k] == [];
      assert got + [] == got;
    } else {
      var e, rest := all[o], Kept(c, st, all[o + 1..k]);
      assert all[o..k][0] == e && all[o..k][1..] == all[o + 1..k];
      if Passes(c, st, e) {
        ScanStretch(c, all, max, first, o + 1, k, got + [e], st);
        assert got + ([e] + rest) == got + [e] + rest;
      } else {
        ScanStretch(c, all, max, first, o + 1, k, got, st);
      }
    }
  }

  /** When both stages agree on every entry, where the first window ends does not matter. */
  lemma {:induction false} ScanFirstIrrelevant(c: Ctx, all: seq<Entry>, max: nat, first: nat, first': nat, o: nat,
                                               got: seq<Entry>)
    requires forall e | e in all :: Passes(c, FirstPage, e) == Passes(c, Refetched, e)
    ensures Scan(c, all, max, first, o, got) == Scan(c, all, max, first', o, got)
    decreases |all| - o
  {
    if o < |all| && |got| < max {
      assert all[o] in all;
      var got' := if Passes(c, FirstPage, all[o]) then got + [all[o]] else got;
      ScanFirstIrrelevant(c, all, max, first, first', o + 1, got');
    }
  }

  /**
   * Where the scan stops: it has kept exactly what passes up to there, and a token means a full
   * page with more to come.
   */
  lemma {:induction false} ScanStops(c: Ctx, all: seq<Entry>, max: nat, o: nat, got: seq<Entry>) returns (n: nat)
    requires o <= |all| && |got| <= max
    ensures var p := Scan(c, all, max, |all|, o, got);
            && o <= n <= |all| && p.items == got + Kept(c, FirstPage, all[o..n]) && |p.items| <= max
            && (p.token == End <==> n == |all|)
            && (p.token.At? ==> p.token.offset == n && |p.items| == max)
            && (o < n ==> |p.items| < max || Passes(c, FirstPage, all[n - 1]))
    decreases |all| - o
  {
    if |all| <= o || max <= |got| {
      n := o;
      assert all[o..o] == [];
      assert got + [] == got;
    } else {
      var e := all[o];
      if Passes(c, FirstPage, e) {
        n := ScanStops(c, all, max, o + 1, got + [e]);
        assert got + ([e] + Kept(c, FirstPage, all[o + 1..n])) == got + [e] + Kept(c, FirstPage, all[o + 1..n]);
      } else {
        n := ScanStops(c, all, max, o + 1, got);
      }
      assert all[o..n][0] == e && all[o..n][1..] == all[o + 1..n];
      if n == o + 1 { assert all[o + 1..n] == []; }
    }
  }

  // ---- experiments, registered models and model versions ----

  function WindowEnd(all: seq<Entry>, max: nat, o: nat): nat { if o + max < |all| then o + max else |all| }

  function ScannedPage(c: Ctx, all: seq<Entry>, max: nat, o: nat): Page {
    Scan(c, all, max, WindowEnd(all, max, o), o, [])
  }

  /**
   * The response to a request at an offset: the scanned page, except that a page filled by the
   * very last entries of a list longer than one window still carries a token, at the list's end.
   */
  function FilteredPage(c: Ctx, all: seq<Entry>, max: nat, o: nat): Page {
    var p := ScannedPage(c, all, max, o);
    if p.token == End && |p.items| == max && o + max < |all| then p.(token := At(|all|)) else p
  }

  /** Unread entries plus token presence: what every round of the refill loop decreases. */
  function Measure(all: seq<Entry>, token: Token): nat {
    match token
    case End => 0
    case At(o) => if o <= |all| then 1 + |all| - o else 1
  }

  /** A page never overfills, and a token stands on a full page and beyond the request's own offset. */
  lemma {:induction false} ScanToken(c: Ctx, all: seq<Entry>, max: nat, first: nat, o: nat, got: seq<Entry>)
    requires o <= |all| && |got| <= max
    ensures var p := Scan(c, all, max, first, o, got);
            && |p.items| <= max
            && (p.token.At? ==> |p.items| == max && o <= p.token.offset < |all| && (|got| < max ==> o < p.token.offset))
    decreases |all| - o
  {
    if o < |all| && |got| < max {
      ScanToken(c, all, max, first, o + 1, if Passes(c, StageAt(first, o), all[o]) then got + [all[o]] else got);
    }
  }

  lemma PageToken(c: Ctx, all: seq<Entry>, max: nat, o: nat)
    requires 0 < max && o <= |all|
    ensures var p := FilteredPage(c, all, max, o);
            && |p.items| <= max
            && (p.token.At? ==> |p.items| == max && o < p.token.offset <= |all|)
  {
    ScanToken(c, all, max, WindowEnd(all, max, o), o, []);
  }

  /** A request past the end gets an empty last page. */
  lemma PagePastEnd(c: Ctx, all: seq<Entry>, max: nat, o: nat)
    requires |all| <= o && 0 < max
    ensures FilteredPage(c, all, max, o) == Page([], End)
  {
  }

  /** What a client collects by following tokens from an offset until the empty token. */
  function Session(c: Ctx, all: seq<Entry>, max: nat, o: nat): seq<Entry>
    requires 0 < max && o <= |all|
    decreases |all| - o
  {
    PageToken(c, all, max, o);
    var p := FilteredPage(c, all, max, o);
    if p.token.At? then p.items + Session(c, all, max, p.token.offset) else p.items
  }

  /** The workspace looked up for an entry is the one it carries. */
  ghost predicate WorkspacesAgree(c: Ctx, all: seq<Entry>) {
    forall e | e in all :: c.world.workspaceOf(e.checkId) == e.workspace
  }

  /** How a page that starts at o splits the rest of the list into what it kept and what it left. */
  lemma PageSplits(c: Ctx, all: seq<Entry>, max: nat, o: nat) returns (n: nat)
    requires 0 < max && o <= |all| && WorkspacesAgree(c, all)
    ensures var p := FilteredPage(c, all, max, o);
            && o <= n <= |all| && (p.token == End ==> n == |all|) && (p.token.At? ==> n == p.token.offset)
            && p.items == Kept(c, FirstPage, all[o..n])
            && Kept(c, FirstPage, all[o..]) == p.items + Kept(c, FirstPage, all[n..])
            && (o < n && |p.items| == max ==> Passes(c, FirstPage, all[n - 1]))
  {
    ScanFirstIrrelevant(c, all, max, WindowEnd(all, max, o), |all|, o, []);
    n := ScanStops(c, all, max, o, []);
    assert [] + Kept(c, FirstPage, all[o..n]) == Kept(c, FirstPage, all[o..n]);
    assert all[o..] == all[o..n] + all[n..];
    FilterConcat(Check(c, FirstPage), all[o..n], all[n..]);
  }

  /** Each entry judged once, by the first-window check where marked and by the refetch check elsewhere. */
  function Judged(c: Ctx, s: seq<Entry>, marks: seq<bool>): seq<Entry>
    requires |marks| == |s|
  {
    if s == [] then []
    else if Passes(c, if marks[0] then FirstPage else Refetched, s[0]) then [s[0]] + Judged(c, s[1..], marks[1..])
    else Judged(c, s[1..], marks[1..])
  }

  lemma {:induction false} JudgedConcat(c: Ctx, a: seq<Entry>, ma: seq<bool>, b: seq<Entry>, mb: seq<bool>)
    requires |ma| == |a| && |mb| == |b|
    ensures Judged(c, a + b, ma + mb) == Judged(c, a, ma) + Judged(c, b, mb)
  {
    if a == [] {
      assert a + b == b && ma + mb == mb;
    } else {
      JudgedConcat(c, a[1..], ma[1..], b, mb);
      assert (a + b)[1..] == a[1..] + b && (ma + mb)[1..] == ma[1..] + mb;
    }
  }

  /** Where both checks agree the marks do not matter. */
  lemma {:induction false} JudgedAgree(c: Ctx, s: seq<Entry>, marks: seq<bool>)
    requires |marks| == |s| && forall e | e in s :: Passes(c, FirstPage, e) == Passes(c, Refetched, e)
    ensures Judged(c, s, marks) == Kept(c, FirstPage, s)
  {
    if s != [] { JudgedAgree(c, s[1..], marks[1..]); }
  }

  lemma {:induction false} ScanJudges(c: Ctx, all: seq<Entry>, max: nat, first: nat, o: nat, got: seq<Entry>)
      returns (n: nat, marks: seq<bool>)
    requires o <= |all|
    ensures o <= n <= |all| && |marks| == n - o
    ensures var p := Scan(c, all, max, first, o, got);
            && p.items == got + Judged(c, all[o..n], marks)
            && (if p.token.At? then p.token.offset == n else n == |all|)
    decreases |all| - o
  {
    if |all| <= o || max <= |got| {
      n, marks := o, [];
      assert all[o..o] == [] && got + [] == got;
    } else {
      var e := all[o];
      var rest;
      if Passes(c, StageAt(first, o), e) {
        n, rest := ScanJudges(c, all, max, first, o + 1, got + [e]);
        assert got + ([e] + Judged(c, all[o + 1..n], rest)) == got + [e] + Judged(c, all[o + 1..n], rest);
      } else {
        n, rest := ScanJudges(c, all, max, first, o + 1, got);
      }
      marks := [o < first] + rest;
      assert all[o..n][0] == e && all[o..n][1..] == all[o + 1..n] && marks[1..] == rest;
    }
  }

  /**
   * Whatever the workspaces say, a session judges every entry exactly once, in order: nothing is
   * skipped and nothing shown twice.
   */
  lemma {:induction false} SessionJudgesOnce(c: Ctx, all: seq<Entry>, max: nat, o: nat) returns (marks: seq<bool>)
    requires 0 < max && o <= |all|
    ensures |marks| == |all| - o && Session(c, all, max, o) == Judged(c, all[o..], marks)
    decreases |all| - o
  {
    PageToken(c, all, max, o);
    var n, here := ScanJudges(c, all, max, WindowEnd(all, max, o), o, []);
    var judged := Judged(c, all[o..n], here);
    assert [] + judged == judged;
    var rest := [];
    if FilteredPage(c, all, max, o).token.At? {
      rest := SessionJudgesOnce(c, all, max, n);
    }
    marks := here + rest;
    assert all[o..] == all[o..n] + all[n..];
    JudgedConcat(c, all[o..n], here, all[n..], rest);
    assert judged + [] == judged;
  }

  /** So where looked-up and carried workspaces agree it delivers exactly the entries that pass. */
  lemma SessionExact(c: Ctx, all: seq<Entry>, max: nat, o: nat)
    requires 0 < max && o <= |all| && WorkspacesAgree(c, all)
    ensures Session(c, all, max, o) == Kept(c, FirstPage, all[o..])
  {
    var marks := SessionJudgesOnce(c, all, max, o);
    assert forall e | e in all[o..] :: e in all;
    JudgedAgree(c, all[o..], marks);
  }

  /**
   * In the user's terms: the session delivers, in order and once each, the entries at exactly the
   * positions whose entry the user may read and, with workspaces on and a workspace named, whose
   * workspace gives the user one of the four levels that permit reading.
   */
  lemma SessionDelivers(c: Ctx, all: seq<Entry>, max: nat) returns (at: seq<nat>)
    requires 0 < max && WorkspacesAgree(c, all)
    ensures |at| == |Session(c, all, max, 0)|
    ensures forall k | 0 <= k < |at| :: at[k] < |all| && Session(c, all, max, 0)[k] == all[at[k]]
    ensures forall j, k | 0 <= j < k < |at| :: at[j] < at[k]
    ensures forall i: nat | i < |all| ::
              i in at <==>
                && c.world.canRead(MemoKey(c.kind, all[i].checkId, c.user))
                && (c.world.workspaces && all[i].workspace.Some? && all[i].workspace.value != "" ==>
                      c.world.workspacePermission(c.user, all[i].workspace.value)
                      in {Some(READ), Some(USE), Some(EDIT), Some(MANAGE)})
  {
    SessionExact(c, all, max, 0);
    assert all[0..] == all;
    at := FilterPositions(Check(c, FirstPage), all);
    forall i: nat | i < |all| ensures Check(c, FirstPage)(all[i]) == Passes(c, Refetched, all[i]) {
      assert all[i] in all;
    }
    forall i: nat | i < |all| ensures i in at <==> Passes(c, Refetched, all[i]) {
    }
    forall i: nat | i < |all| { PassesIff(c, all[i]); }
  }

  /** So an entry of a workspace in which the user holds nothing, or NO_PERMISSIONS, is never shown. */
  lemma DeniedNeverShown(c: Ctx, all: seq<Entry>, max: nat, e: Entry)
    requires 0 < max && WorkspacesAgree(c, all) && c.world.workspaces && e.workspace.Some? && e.workspace.value != ""
    requires c.world.workspacePermission(c.user, e.workspace.value) in {None, Some(NO_PERMISSIONS)}
    ensures e !in Session(c, all, max, 0)
  {
    var at := SessionDelivers(c, all, max);
    forall k | 0 <= k < |at| ensures Session(c, all, max, 0)[k] != e { assert at[k] in at; }
  }

  lemma LastKept(c: Ctx, s: seq<Entry>)
    requires s != [] && Passes(c, FirstPage, s[|s| - 1])
    ensures Kept(c, FirstPage, s) != []
  {
    var last := s[|s| - 1];
    assert s == s[..|s| - 1] + [last];
    FilterConcat(Check(c, FirstPage), s[..|s| - 1], [last]);
    FilterOne(Check(c, FirstPage), last);
  }

  /**
   * The offset search can hand out a token that stands at the list's end: exactly when the first
   * window was not the last, the rest of the list fills the page, and its last entry passes.
   */
  lemma EmptyTailIff(c: Ctx, all: seq<Entry>, max: nat, o: nat)
    requires 0 < max && o <= |all| && WorkspacesAgree(c, all)
    ensures FilteredPage(c, all, max, o).token == At(|all|)
       <==> o + max < |all| && |Kept(c, FirstPage, all[o..])| == max && Passes(c, FirstPage, all[|all| - 1])
  {
    PageToken(c, all, max, o);
    ScanToken(c, all, max, WindowEnd(all, max, o), o, []);
    var n := PageSplits(c, all, max, o);
    if n == |all| {
      assert all[n..] == [];
    } else if Passes(c, FirstPage, all[|all| - 1]) {
      LastKept(c, all[n..]);
    }
  }

  /** The page carries a token, and the page it leads to has nothing on it. */
  ghost predicate LeadsNowhere(c: Ctx, all: seq<Entry>, max: nat, o: nat) {
    var token := FilteredPage(c, all, max, o).token;
    token.At? && FilteredPage(c, all, max, token.offset).items == []
  }

  /**
   * The offset search hands out a token that leads to an empty page exactly when the first window
   * was not the last and what passes of the rest of the list fills this page and no more.
   */
  lemma EmptyPageIff(c: Ctx, all: seq<Entry>, max: nat, o: nat)
    requires 0 < max && o <= |all| && WorkspacesAgree(c, all)
    ensures LeadsNowhere(c, all, max, o) <==> o + max < |all| && |Kept(c, FirstPage, all[o..])| == max
  {
    PageToken(c, all, max, o);
    var n := PageSplits(c, all, max, o);
    if FilteredPage(c, all, max, o).token.At? {
      assert max == |Kept(c, FirstPage, all[o..n])| <= n - o;
      ScanToken(c, all, max, WindowEnd(all, max, o), o, []);
      NextPageEmptyIff(c, all, max, n);
    } else {
      assert all[n..] == [];
    }
  }

  /** A page is empty exactly when nothing that is left passes. */
  lemma NextPageEmptyIff(c: Ctx, all: seq<Entry>, max: nat, o: nat)
    requires 0 < max && o <= |all| && WorkspacesAgree(c, all)
    ensures FilteredPage(c, all, max, o).items == [] <==> Kept(c, FirstPage, all[o..]) == []
  {
    PageToken(c, all, max, o);
    var n := PageSplits(c, all, max, o);
    if FilteredPage(c, all, max, o).token == End { assert all[n..] == []; }
  }

  /** The list comprehension over a refetched window. */
  method KeepRefetched(scope: RequestScope, c: Ctx, fetched: seq<Entry>) returns (kept: seq<Entry>)
    requires scope.Valid() && scope.world == c.world
    modifies scope`memo
    ensures scope.Valid() && kept == Kept(c, Refetched, fetched)
  {
    kept := [];
    for i := 0 to |fetched|
      invariant scope.Valid() && kept == Kept(c, Refetched, fetched[..i])
    {
      var e := fetched[i];
      assert fetched[..i + 1] == fetched[..i] + [e];
      FilterConcat(Check(c, Refetched), fetched[..i], [e]);
      FilterOne(Check(c, Refetched), e);
      var readable := scope.CachedCanRead(c.kind, e.checkId, c.user);
      if readable && CanAccessWorkspace(c.world, c.user, e.workspace) {
        kept := kept + [e];
      }
    }
    assert fetched[..|fetched|] == fetched;
  }

  /** Between rounds: either the page is final, or scanning on from the token gives the final page. */
  ghost predicate Underway(c: Ctx, all: seq<Entry>, max: nat, o: nat, got: seq<Entry>, token: Token) {
    match token
    case End => Page(got, End) == FilteredPage(c, all, max, o)
    case At(k) =>
      && o + max < |all| && o + max <= k <= |all| && |got| <= max
      && Scan(c, all, max, o + max, k, got) == ScannedPage(c, all, max, o)
  }

  /** The filtered first window. */
  lemma WindowScans(c: Ctx, all: seq<Entry>, max: nat, o: nat)
    requires 0 < max
    ensures var window := Search(all, o, max); Underway(c, all, max, o, Kept(c, FirstPage, window.items), window.token)
  {
    if o < |all| {
      var e := WindowEnd(all, max, o);
      var kept := Kept(c, FirstPage, all[o..e]);
      ScanStretch(c, all, max, e, o, e, [], FirstPage);
      assert [] + kept == kept;
      assert Search(all, o, max).items == all[o..e];
    }
  }

  /** One round: what fits of the refetched window is scanned; an empty window ends the list. */
  lemma RoundScans(c: Ctx, all: seq<Entry>, max: nat, o: nat, got: seq<Entry>, k: nat, fetched: seq<Entry>)
    requires Underway(c, all, max, o, got, At(k)) && |got| < max
    requires var window := Search(all, k, max).items;
             fetched == if max - |got| <= |window| then window[..max - |got|] else window
    ensures |fetched| <= max - |got|
    ensures if fetched == [] then Underway(c, all, max, o, got, End)
            else Underway(c, all, max, o, got + Kept(c, Refetched, fetched), At(k + |fetched|))
  {
    if k < |all| {
      assert fetched == all[k..k + |fetched|];
      ScanStretch(c, all, max, o + max, k, k + |fetched|, got, Refetched);
    }
  }

  /** The experiment and registered-model searches; an administrator's response is left as it came. */
  method FilterSearch(scope: RequestScope, c: Ctx, all: seq<Entry>, max: nat, ghost o: nat, isAdmin: bool,
                      resp: Response)
    requires scope.Valid() && scope.world == c.world && 0 < max
    requires Page(resp.items, resp.token) == Search(all, o, max)
    modifies scope`memo, resp
    ensures scope.Valid()
    ensures Page(resp.items, resp.token) == if isAdmin then Search(all, o, max) else FilteredPage(c, all, max, o)
  {
    if isAdmin { return; }
    WindowScans(c, all, max, o);
    var _ := FilterPage(scope, c, resp);
    while |resp.items| < max && resp.token != End
      invariant scope.Valid() && |resp.items| <= max
      invariant Underway(c, all, max, o, resp.items, resp.token)
      decreases Measure(all, resp.token)
    {
      var offset := resp.token.offset;
      var refetched := Search(all, offset, max).items;
      var remaining := max - |resp.items|;
      refetched := if remaining <= |refetched| then refetched[..remaining] else refetched;
      RoundScans(c, all, max, o, resp.items, offset, refetched);
      if |refetched| == 0 {
        resp.token := End;
        break;
      }
      var readable := KeepRefetched(scope, c, refetched);
      resp.items := resp.items + readable;
      resp.token := At(offset + |refetched|);
    }
  }

  /** The model-version search: in-place appends instead of a comprehension, and its own second pass. */
  method FilterSearchVersions(scope: RequestScope, c: Ctx, all: seq<Entry>, max: nat, ghost o: nat, isAdmin: bool,
                              resp: Response)
    requires scope.Valid() && scope.world == c.world && 0 < max
    requires Page(resp.items, resp.token) == Search(all, o, max)
    modifies scope`memo, resp
    ensures scope.Valid()
    ensures Page(resp.items, resp.token) == if isAdmin then Search(all, o, max) else FilteredPage(c, all, max, o)
  {
    if isAdmin { return; }
    WindowScans(c, all, max, o);
    FilterVersionsPage(scope, c, resp);
    while |resp.items| < max && resp.token != End
      invariant scope.Valid() && |resp.items| <= max
      invariant Underway(c, all, max, o, resp.items, resp.token)
      decreases Measure(all, resp.token)
    {
      var offset := resp.token.offset;
      var refetched := Search(all, offset, max).items;
      var remaining := max - |resp.items|;
      refetched := if remaining <= |refetched| then refetched[..remaining] else refetched;
      RoundScans(c, all, max, o, resp.items, offset, refetched);
      if |refetched| == 0 {
        resp.token := End;
        break;
      }
      AppendReadable(scope, c, refetched, resp);
      resp.token := At(offset + |refetched|);
    }
  }

  method AppendReadable(scope: RequestScope, c: Ctx, fetched: seq<Entry>, resp: Response)
    requires scope.Valid() && scope.world == c.world
    modifies scope`memo, resp`items
    ensures scope.Valid() && resp.items == old(resp.items) + Kept(c, Refetched, fetched)
  {
    ghost var before := resp.items;
    for i := 0 to |fetched|
      invariant scope.Valid() && resp.items == before + Kept(c, Refetched, fetched[..i])
    {
      var e := fetched[i];
      assert fetched[..i + 1] == fetched[..i] + [e];
      FilterConcat(Check(c, Refetched), fetched[..i], [e]);
      FilterOne(Check(c, Refetched), e);
      var readable := scope.CachedCanRead(c.kind, e.checkId, c.user);
      if readable && CanAccessWorkspace(c.world, c.user, e.workspace) {
        resp.items := resp.items + [e];
      }
    }
    assert fetched[..|fetched|] == fetched;
  }

  /** A client that follows tokens from the start, one request scope per request. */
  method FollowTokens(c: Ctx, all: seq<Entry>, max: nat) returns (received: seq<Entry>)
    requires 0 < max && WorkspacesAgree(c, all)
    ensures received == Kept(c, FirstPage, all)
  {
    received := [];
    var next := At(0);
    assert all[0..] == all;
    SessionExact(c, all, max, 0);
    while next != End
      invariant next.At? ==>
                  next.offset <= |all| && received + Session(c, all, max, next.offset) == Kept(c, FirstPage, all)
      invariant next == End ==> received == Kept(c, FirstPage, all)
      decreases Measure(all, next)
    {
      var o := next.offset;
      PageToken(c, all, max, o);
      var scope := new RequestScope(c.world);
      var window := Search(all, o, max);
      var resp := new Response(window.items, window.token);
      FilterSearch(scope, c, all, max, o, false, resp);
      received := received + resp.items;
      next := resp.token;
    }
  }
}
