/**
 * Gateway endpoints and their permission rows (hooks/before_request.py, hooks/after_request.py,
 * sqlalchemy_store.py): the before-request hook stashes the old name, MLflow changes its
 * registry, the after-request hook grants, renames or wipes. Requests run one at a time.
 */
module GatewayLifecycle {
  import opened Common
  import opened Permissions
  import opened PermissionTables

  /** MLflow's registry of endpoint names by id, and the two permission tables. */
  datatype State = State(live: map<string, string>, users: Table, groups: Table)

  /**
   * ok: neither the before-request hook nor MLflow turned the request down for a reason of its
   * own. resolved: the tracking store answered when the hook asked for the endpoint's name.
   * The last four are the permission API, used on live endpoints.
   */
  datatype Request =
    | Create(id: string, name: string, creator: string, known: bool, ok: bool)
    | Update(id: string, name: string, resolved: bool, ok: bool)
    | Delete(id: string, resolved: bool, ok: bool)
    | SetUser(name: string, subject: string, level: Level)
    | DropUser(name: string, subject: string)
    | SetGroup(name: string, subject: string, level: Level)
    | DropGroup(name: string, subject: string)

  /** MLflow keeps names unique and non-empty; an update without a name keeps the old one. */
  predicate Accepted(s: State, r: Request) {
    match r
    case Create(id, name, _, _, ok) => ok && name != "" && id !in s.live && name !in s.live.Values
    case Update(id, name, _, ok) => ok && id in s.live && (name == "" || name == s.live[id] || name !in s.live.Values)
    case Delete(id, _, ok) => ok && id in s.live
    case _ => r.name in s.live.Values
  }

  function NewName(s: State, r: Request): string
    requires r.Update? && r.id in s.live
  {
    if r.name == "" then s.live[r.id] else r.name
  }

  /** Two sessions one after the other; the first failure ends the call. */
  ghost function RenameBoth(s: State, from: string, to: string): State {
    if Conflict(s.users, from, to) then s
    else if Conflict(s.groups, from, to) then s.(users := Renamed(s.users, from, to))
    else s.(users := Renamed(s.users, from, to), groups := Renamed(s.groups, from, to))
  }

  ghost function Step(s: State, r: Request): State {
    if !Accepted(s, r) then s
    else
      match r
      case Create(id, name, creator, known, _) =>
        var key := RowKey(name, creator);
        State(s.live[id := name], if known && key !in s.users then s.users[key := MANAGE] else s.users, s.groups)
      case Update(id, _, resolved, _) =>
        var before, now := s.live[id], NewName(s, r);
        var s' := s.(live := s.live[id := now]);
        if !resolved || before == "" || now == before then s' else RenameBoth(s', before, now)
      case Delete(id, resolved, _) =>
        var name := s.live[id];
        var s' := s.(live := s.live - {id});
        if !resolved || name == "" then s' else s'.(users := Wiped(s.users, name), groups := Wiped(s.groups, name))
      case SetUser(name, subject, level) => s.(users := s.users[RowKey(name, subject) := level])
      case DropUser(name, subject) => s.(users := s.users - {RowKey(name, subject)})
      case SetGroup(name, subject, level) => s.(groups := s.groups[RowKey(name, subject) := level])
      case DropGroup(name, subject) => s.(groups := s.groups - {RowKey(name, subject)})
  }

  /**
   * What each request does, and when it is refused and does nothing: the registry, and the rows
   * but for those a resolved rename carries over.
   */
  lemma RequestTakesEffect(s: State, r: Request)
    ensures var s' := Step(s, r);
            match r
            case Create(id, name, creator, known, ok) =>
              if ok && name != "" && id !in s.live && name !in s.live.Values then
                && s'.live == s.live[id := name] && s'.groups == s.groups
                && s'.users == if known && RowKey(name, creator) !in s.users
                               then s.users[RowKey(name, creator) := MANAGE]
                               else s.users
              else s' == s
            case Update(id, name, resolved, ok) =>
              if ok && id in s.live && (name == "" || name == s.live[id] || name !in s.live.Values) then
                && s'.live == s.live[id := if name == "" then s.live[id] else name]
                && (!resolved || name == "" || name == s.live[id] ==> s'.users == s.users && s'.groups == s.groups)
              else s' == s
            case Delete(id, resolved, ok) =>
              if ok && id in s.live then
                && s'.live == s.live - {id}
                && (!resolved ==> s'.users == s.users && s'.groups == s.groups)
                && (resolved && s.live[id] != "" ==>
                      forall k :: && (k in s'.users <==> k in s.users && k.resource != s.live[id])
                                  && (k in s'.groups <==> k in s.groups && k.resource != s.live[id]))
              else s' == s
            case SetUser(name, subject, level) =>
              s' == if name in s.live.Values then s.(users := s.users[RowKey(name, subject) := level]) else s
            case DropUser(name, subject) =>
              s' == if name in s.live.Values then s.(users := s.users - {RowKey(name, subject)}) else s
            case SetGroup(name, subject, level) =>
              s' == if name in s.live.Values then s.(groups := s.groups[RowKey(name, subject) := level]) else s
            case DropGroup(name, subject) =>
              s' == if name in s.live.Values then s.(groups := s.groups - {RowKey(name, subject)}) else s
  {
  }

  /** The grant or the rename of an accepted request meets a row that is already there. */
  ghost predicate Clash(s: State, r: Request) {
    && Accepted(s, r)
    && match r
       case Create(_, name, creator, known, _) => known && RowKey(name, creator) in s.users
       case Update(id, _, resolved, _) =>
         resolved && (Conflict(s.users, s.live[id], NewName(s, r)) || Conflict(s.groups, s.live[id], NewName(s, r)))
       case _ => false
  }

  ghost function Run(s: State, rs: seq<Request>): State
    decreases |rs|
  {
    if rs == [] then s else Run(Step(s, rs[0]), rs[1..])
  }

  // ---- the hooks ----

  class Server {
    var live: map<string, string>
    const users: SubjectTable
    const groups: SubjectTable

    function View(): State
      reads this, users, groups
    {
      State(live, users.rows, groups.rows)
    }

    constructor ()
      ensures users != groups && fresh(users) && fresh(groups) && View() == State(map[], map[], map[])
    {
      live := map[];
      users := new SubjectTable();
      groups := new SubjectTable();
    }

    /** Create, then grant MANAGE to the creator; returns whether the grant found a row already. */
    method CreateEndpoint(id: string, name: string, creator: string, known: bool, ok: bool) returns (clash: bool)
      requires users != groups
      modifies this`live, users, groups
      ensures View() == Step(old(View()), Create(id, name, creator, known, ok))
      ensures clash == Clash(old(View()), Create(id, name, creator, known, ok))
    {
      clash := false;
      if !(ok && name != "" && id !in live && name !in live.Values) { return; }
      live := live[id := name];
      var granted := users.Grant(name, creator, known, "MANAGE");
      clash := granted == Err(AlreadyExists);
    }

    /** Stash the old name, update, then carry the rows over when the name changed; a failed rename is only logged. */
    method UpdateEndpoint(id: string, name: string, resolved: bool, ok: bool)
      requires users != groups
      modifies this`live, users, groups
      ensures View() == Step(old(View()), Update(id, name, resolved, ok))
    {
      var stash := if resolved && id in live then Some(live[id]) else None;
      if !(ok && id in live && (name == "" || name == live[id] || name !in live.Values)) { return; }
      var newName := if name == "" then live[id] else name;
      live := live[id := newName];
      if stash.None? || stash.value == "" || newName == stash.value { return; }
      var first := users.Rename(stash.value, newName);
      if first.Ok? {
        var _ := groups.Rename(stash.value, newName);
      }
    }

    method DeleteEndpoint(id: string, resolved: bool, ok: bool)
      requires users != groups
      modifies this`live, users, groups
      ensures View() == Step(old(View()), Delete(id, resolved, ok))
    {
      var stash := if resolved && id in live then Some(live[id]) else None;
      if !(ok && id in live) { return; }
      live := live - {id};
      if stash.None? || stash.value == "" { return; }
      users.Wipe(stash.value);
      groups.Wipe(stash.value);
    }
  }

  // ---- the two-system invariant ----

  ghost predicate DistinctNames(live: map<string, string>) {
    && (forall i, j | i in live && j in live && live[i] == live[j] :: i == j)
    && (forall i | i in live :: live[i] != "")
  }

  ghost predicate OnlyLive(t: Table, live: map<string, string>) {
    forall k | k in t :: k.resource in live.Values
  }

  ghost predicate Inv(s: State) {
    DistinctNames(s.live) && OnlyLive(s.users, s.live) && OnlyLive(s.groups, s.live)
  }

  ghost predicate NoRows(s: State, name: string) {
    RowsOf(s.users, name) == {} && RowsOf(s.groups, name) == {}
  }

  lemma DeadNameHasNoRows(s: State, name: string)
    requires Inv(s) && name !in s.live.Values
    ensures NoRows(s, name)
  {
  }

  /** The name the hook needs was resolved, or there was nothing to carry over. */
  ghost predicate Tracked(s: State, r: Request) {
    Accepted(s, r) ==>
      match r
      case Update(id, _, resolved, _) => resolved || NewName(s, r) == s.live[id] || NoRows(s, s.live[id])
      case Delete(id, resolved, _) => resolved || NoRows(s, s.live[id])
      case _ => true
  }

  /** No grant and no rename ever meets an existing row. */
  lemma NoClash(s: State, r: Request)
    requires Inv(s)
    ensures !Clash(s, r)
  {
    if Accepted(s, r) {
      match r
      case Create(_, name, creator, known, _) =>
        DeadNameHasNoRows(s, name);
        assert RowKey(name, creator) in s.users ==> RowKey(name, creator) in RowsOf(s.users, name);
      case Update(id, _, _, _) =>
        var before, now := s.live[id], NewName(s, r);
        if now != before {
          DeadNameHasNoRows(s, now);
          RenamedRows(s.users, before, now);
          RenamedRows(s.groups, before, now);
        }
      case _ =>
    }
  }

  /** The live names after an accepted rename. */
  lemma RenamedValues(live: map<string, string>, id: string, now: string)
    requires DistinctNames(live) && id in live && now !in live.Values
    ensures live[id := now].Values == live.Values - {live[id]} + {now}
  {
    var live' := live[id := now];
    forall n | n in live.Values && n != live[id] ensures n in live'.Values {
      var i :| i in live && live[i] == n;
      assert i in live' && live'[i] == n;
    }
    assert id in live';
  }

  lemma RemovedValues(live: map<string, string>, id: string)
    requires DistinctNames(live) && id in live
    ensures (live - {id}).Values == live.Values - {live[id]}
  {
    forall n | n in live.Values && n != live[id] ensures n in (live - {id}).Values {
      var i :| i in live && live[i] == n;
      assert i in live - {id};
    }
  }

  lemma AddedValues(live: map<string, string>, id: string, name: string)
    requires id !in live
    ensures live[id := name].Values == live.Values + {name}
  {
    var live' := live[id := name];
    assert id in live';
    forall n | n in live.Values ensures n in live'.Values {
      var i :| i in live && live[i] == n;
      assert i in live' && live'[i] == n;
    }
  }

  lemma RenamedOnlyLive(t: Table, live: map<string, string>, id: string, now: string)
    requires DistinctNames(live) && id in live && now !in live.Values && OnlyLive(t, live)
    ensures RowsOf(t, now) == {} && OnlyLive(Renamed(t, live[id], now), live[id := now])
  {
    RenamedValues(live, id, now);
    RenamedRows(t, live[id], now);
  }

  lemma UpdateKeepsInv(s: State, r: Request)
    requires Inv(s) && r.Update? && Accepted(s, r) && Tracked(s, r)
    ensures Inv(Step(s, r))
  {
    var before, now := s.live[r.id], NewName(s, r);
    if now == before {
      assert s.live[r.id := now] == s.live;
    } else {
      NoClash(s, r);
      RenamedValues(s.live, r.id, now);
      RenamedOnlyLive(s.users, s.live, r.id, now);
      RenamedOnlyLive(s.groups, s.live, r.id, now);
      if !r.resolved {
        NoRowsLeft(s.users, s.live, before);
        NoRowsLeft(s.groups, s.live, before);
      }
    }
  }

  lemma NoRowsLeft(t: Table, live: map<string, string>, name: string)
    requires OnlyLive(t, live) && RowsOf(t, name) == {}
    ensures forall k | k in t :: k.resource in live.Values - {name}
  {
    forall k | k in t ensures k.resource != name { assert k in RowsOf(t, k.resource); }
  }

  lemma DeleteKeepsInv(s: State, r: Request)
    requires Inv(s) && r.Delete? && Accepted(s, r) && Tracked(s, r)
    ensures Inv(Step(s, r))
  {
    RemovedValues(s.live, r.id);
    if !r.resolved {
      NoRowsLeft(s.users, s.live, s.live[r.id]);
      NoRowsLeft(s.groups, s.live, s.live[r.id]);
    }
  }

  /** Rows name only live endpoints, after every request. */
  lemma StepKeepsInv(s: State, r: Request)
    requires Inv(s) && Tracked(s, r)
    ensures Inv(Step(s, r))
  {
    if Accepted(s, r) {
      match r
      case Create(id, name, _, _, _) => AddedValues(s.live, id, name);
      case Update(_, _, _, _) => UpdateKeepsInv(s, r);
      case Delete(_, _, _) => DeleteKeepsInv(s, r);
      case _ =>
    }
  }

  /**
   * And only then: an accepted update or delete whose old name was not resolved strands the rows it
   * should have moved.
   */
  lemma InvIffTracked(s: State, r: Request)
    requires Inv(s)
    ensures Inv(Step(s, r)) <==> Tracked(s, r)
  {
    if Tracked(s, r) {
      StepKeepsInv(s, r);
    } else {
      var name := s.live[r.id];
      if r.Delete? { RemovedValues(s.live, r.id); } else { RenamedValues(s.live, r.id, NewName(s, r)); }
      if RowsOf(s.users, name) != {} {
        var k :| k in RowsOf(s.users, name);
        assert k in Step(s, r).users;
      } else {
        var k :| k in RowsOf(s.groups, name);
        assert k in Step(s, r).groups;
      }
    }
  }

  ghost predicate TrackedRun(s: State, rs: seq<Request>)
    decreases |rs|
  {
    rs == [] || (Tracked(s, rs[0]) && TrackedRun(Step(s, rs[0]), rs[1..]))
  }

  /** Over every run: the invariant holds at the end and no request along the way clashed. */
  lemma {:induction false} RunKeepsInv(s: State, rs: seq<Request>, i: nat)
    requires Inv(s) && TrackedRun(s, rs) && i <= |rs|
    ensures Inv(Run(s, rs[..i]))
    ensures i < |rs| ==> !Clash(Run(s, rs[..i]), rs[i])
    decreases |rs|
  {
    if i == 0 {
      if 0 < |rs| { NoClash(s, rs[0]); }
    } else {
      StepKeepsInv(s, rs[0]);
      RunKeepsInv(Step(s, rs[0]), rs[1..], i - 1);
      assert rs[..i][1..] == rs[1..][..i - 1];
    }
  }

  // ---- what each endpoint keeps ----

  function GrantsOn(s: State, id: string): (map<string, Level>, map<string, Level>)
    requires id in s.live
  {
    (Grants(s.users, s.live[id]), Grants(s.groups, s.live[id]))
  }

  predicate FromHooks(r: Request) { r.Create? || r.Update? || r.Delete? }

  /** Carrying the rows of one endpoint to its new name leaves every endpoint with its grants. */
  lemma TableKeepsGrants(t: Table, live: map<string, string>, rid: string, now: string, id: string)
    requires DistinctNames(live) && OnlyLive(t, live) && rid in live && id in live && now !in live.Values
    ensures Grants(Renamed(t, live[rid], now), live[rid := now][id]) == Grants(t, live[id])
  {
    assert RowsOf(t, now) == {};
    assert live[rid] in live.Values && live[id] in live.Values;
    RenamedGrants(t, live[rid], now, live[id]);
  }

  lemma UpdateKeepsGrants(s: State, r: Request, id: string)
    requires Inv(s) && Tracked(s, r) && r.Update? && Accepted(s, r) && id in s.live
    ensures id in Step(s, r).live && GrantsOn(Step(s, r), id) == GrantsOn(s, id)
  {
    var before, now := s.live[r.id], NewName(s, r);
    if now == before {
      assert s.live[r.id := now] == s.live;
    } else if r.resolved {
      NoClash(s, r);
      TableKeepsGrants(s.users, s.live, r.id, now, id);
      TableKeepsGrants(s.groups, s.live, r.id, now, id);
    } else if id == r.id {
      DeadNameHasNoRows(s, now);
      NoGrants(s.users, before);
      NoGrants(s.groups, before);
      NoGrants(s.users, now);
      NoGrants(s.groups, now);
    }
  }

  /**
   * A request leaves an endpoint's grants alone when it neither deletes it nor, through the
   * permission API, names it.
   */
  predicate Spares(s: State, r: Request, id: string)
    requires id in s.live
  {
    if FromHooks(r) then !(r.Delete? && r.id == id) else r.name != s.live[id]
  }

  /** Also of the endpoint it renames. */
  lemma StepKeepsGrants(s: State, r: Request, id: string)
    requires Inv(s) && Tracked(s, r) && id in s.live && Spares(s, r, id)
    ensures id in Step(s, r).live && GrantsOn(Step(s, r), id) == GrantsOn(s, id)
  {
    if Accepted(s, r) {
      match r
      case Create(_, _, _, _, _) => CreateKeepsGrants(s, r, id);
      case Update(_, _, _, _) => UpdateKeepsGrants(s, r, id);
      case Delete(_, _, _) => DeleteKeepsGrants(s, r, id);
      case SetUser(name, subject, level) => AddedGrants(s.users, RowKey(name, subject), level, s.live[id]);
      case DropUser(name, subject) => DroppedGrants(s.users, RowKey(name, subject), s.live[id]);
      case SetGroup(name, subject, level) => AddedGrants(s.groups, RowKey(name, subject), level, s.live[id]);
      case DropGroup(name, subject) => DroppedGrants(s.groups, RowKey(name, subject), s.live[id]);
    }
  }

  lemma CreateKeepsGrants(s: State, r: Request, id: string)
    requires Inv(s) && r.Create? && Accepted(s, r) && id in s.live
    ensures id in Step(s, r).live && GrantsOn(Step(s, r), id) == GrantsOn(s, id)
  {
    var name, key := s.live[id], RowKey(r.name, r.creator);
    var s' := Step(s, r);
    assert name in s.live.Values && name != r.name;
    assert s'.live == s.live[r.id := r.name] && s'.live[id] == name && s'.groups == s.groups;
    if r.known && key !in s.users {
      assert s'.users == s.users[key := MANAGE];
      AddedGrants(s.users, key, MANAGE, name);
    }
  }

  lemma DeleteKeepsGrants(s: State, r: Request, id: string)
    requires Inv(s) && r.Delete? && Accepted(s, r) && id in s.live && r.id != id
    ensures id in Step(s, r).live && GrantsOn(Step(s, r), id) == GrantsOn(s, id)
  {
    var name := s.live[id];
    assert s.live[r.id] != name;
    WipedGrants(s.users, s.live[r.id], name);
    WipedGrants(s.groups, s.live[r.id], name);
    assert Step(s, r).live[id] == name;
  }

  lemma NoGrants(t: Table, name: string)
    requires RowsOf(t, name) == {}
    ensures Grants(t, name) == map[]
  {
    GrantsAre(t, name);
    forall s ensures s !in Grants(t, name) { assert RowKey(name, s) in t ==> RowKey(name, s) in RowsOf(t, name); }
  }

  /** Every request of the run spares the endpoint, under the name it has at that moment. */
  ghost predicate SparesAll(s: State, rs: seq<Request>, id: string)
    decreases |rs|
  {
    rs == [] || (id in s.live && Spares(s, rs[0], id) && SparesAll(Step(s, rs[0]), rs[1..], id))
  }

  /**
   * Over a whole run that spares an endpoint it keeps exactly its grants, however often it is
   * renamed and whatever happens to the others.
   */
  lemma {:induction false} RunKeepsGrants(s: State, rs: seq<Request>, id: string)
    requires Inv(s) && TrackedRun(s, rs) && id in s.live && SparesAll(s, rs, id)
    ensures id in Run(s, rs).live && GrantsOn(Run(s, rs), id) == GrantsOn(s, id)
    decreases |rs|
  {
    if rs != [] {
      StepKeepsGrants(s, rs[0], id);
      StepKeepsInv(s, rs[0]);
      RunKeepsGrants(Step(s, rs[0]), rs[1..], id);
    }
  }

  /** A new endpoint starts with its creator's MANAGE row and nothing else, even when its name was used before. */
  lemma CreateStartsClean(s: State, r: Request)
    requires Inv(s) && r.Create? && r.known && Accepted(s, r)
    ensures GrantsOn(Step(s, r), r.id) == (map[r.creator := MANAGE], map[])
  {
    DeadNameHasNoRows(s, r.name);
    NoGrants(s.users, r.name);
    NoGrants(s.groups, r.name);
    NoClash(s, r);
    AddedGrants(s.users, RowKey(r.name, r.creator), MANAGE, r.name);
  }

  /**
   * A delete whose old name was not resolved strands the creator's row, and the next endpoint of
   * that name comes with it.
   */
  lemma DeleteStrandsRow()
    ensures var created := Step(State(map[], map[], map[]), Create("1", "e", "ann", true, true));
            var s := Step(created, Delete("1", false, true));
            var s' := Step(s, Create("2", "e", "bob", true, true));
            && s.live == map[] && RowKey("e", "ann") in s.users
            && s'.live == map["2" := "e"] && RowKey("e", "ann") in s'.users && RowKey("e", "bob") in s'.users
  {
    var s1 := Step(State(map[], map[], map[]), Create("1", "e", "ann", true, true));
    assert s1 == State(map["1" := "e"], map[RowKey("e", "ann") := MANAGE], map[]);
    var s2 := Step(s1, Delete("1", false, true));
    assert s2 == State(map[], map[RowKey("e", "ann") := MANAGE], map[]);
    assert RowKey("e", "bob") != RowKey("e", "ann");
  }

  /** An update whose old name was not resolved leaves the endpoint without the row it had. */
  lemma UpdateStrandsRow()
    ensures var created := Step(State(map[], map[], map[]), Create("1", "e", "ann", true, true));
            var s := Step(created, Update("1", "f", false, true));
            s.live == map["1" := "f"] && RowKey("e", "ann") in s.users && RowKey("f", "ann") !in s.users
  {
    var s1 := Step(State(map[], map[], map[]), Create("1", "e", "ann", true, true));
    assert s1 == State(map["1" := "e"], map[RowKey("e", "ann") := MANAGE], map[]);
    assert "f" != "e" && "f" !in s1.live.Values;
  }
}
