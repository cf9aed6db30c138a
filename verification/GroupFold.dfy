/**
 * The permission a user inherits from groups. The plugin computes it by four hand-written
 * folds; all are proved against one set-based definition, so none depends on row order.
 */
module GroupFold {
  import opened Common
  import opened Permissions

  datatype Group = Group(id: nat, name: string)

  /** Users by name, the group table in row order, and the user-group links by id. */
  datatype Directory = Directory(users: map<string, nat>, groups: seq<Group>, links: set<(nat, nat)>)

  /** Unique group ids and names, and links that refer to existing groups. */
  ghost predicate ValidDirectory(d: Directory) {
    && (forall i, j | 0 <= i < j < |d.groups| ::
          d.groups[i].id != d.groups[j].id && d.groups[i].name != d.groups[j].name)
    && (forall l | l in d.links :: exists i | 0 <= i < |d.groups| :: d.groups[i].id == l.1)
  }

  datatype GroupRow<R> = GroupRow(group: nat, resource: R, level: Level)

  /** The unique constraint on (resource, group). */
  ghost predicate UniqueRows<R>(rows: seq<GroupRow<R>>) {
    forall i, j | 0 <= i < j < |rows| :: rows[i].group != rows[j].group || rows[i].resource != rows[j].resource
  }

  /** Every level some group of the user holds on the resource. */
  function Granted<R(==)>(d: Directory, rows: seq<GroupRow<R>>, user: nat, resource: R): set<Level> {
    set i | 0 <= i < |rows| && rows[i].resource == resource && (user, rows[i].group) in d.links :: rows[i].level
  }

  /** What every fold must return: None stands for RESOURCE_DOES_NOT_EXIST. */
  function GroupLevel<R(==)>(d: Directory, rows: seq<GroupRow<R>>, username: string, resource: R): Option<Level> {
    if username in d.users then Decisive(Granted(d, rows, d.users[username], resource)) else None
  }

  /** A denial from any one group decides, whatever the other groups grant. */
  lemma DenialDecides<R>(d: Directory, rows: seq<GroupRow<R>>, username: string, resource: R, i: nat)
    requires username in d.users && i < |rows|
    requires rows[i].resource == resource && (d.users[username], rows[i].group) in d.links
    requires rows[i].level == NO_PERMISSIONS
    ensures GroupLevel(d, rows, username, resource) == Some(NO_PERMISSIONS)
  {
    assert rows[i].level in Granted(d, rows, d.users[username], resource);
  }

  /** Reordering the rows never changes the answer. */
  lemma OrderIrrelevant<R>(d: Directory, rows: seq<GroupRow<R>>, rows': seq<GroupRow<R>>, username: string, resource: R)
    requires multiset(rows) == multiset(rows')
    ensures GroupLevel(d, rows, username, resource) == GroupLevel(d, rows', username, resource)
  {
    if username in d.users {
      GrantedSubset(d, rows, rows', d.users[username], resource);
      GrantedSubset(d, rows', rows, d.users[username], resource);
    }
  }

  lemma GrantedSubset<R>(d: Directory, rows: seq<GroupRow<R>>, rows': seq<GroupRow<R>>, user: nat, resource: R)
    requires multiset(rows) == multiset(rows')
    ensures Granted(d, rows, user, resource) <= Granted(d, rows', user, resource)
  {
    forall l | l in Granted(d, rows, user, resource)
      ensures l in Granted(d, rows', user, resource)
    {
      var i :| 0 <= i < |rows| && rows[i].resource == resource && (user, rows[i].group) in d.links
               && rows[i].level == l;
      assert rows[i] in multiset(rows');
      var j :| 0 <= j < |rows'| && rows'[j] == rows[i];
      assert rows'[j].level in Granted(d, rows', user, resource);
    }
  }

  // ---- the folds that look rows up by group name ----

  /** The user's group names in group-table order. */
  function ListGroups(d: Directory, groups: seq<Group>, user: nat): seq<string> {
    if groups == [] then []
    else if (user, groups[0].id) in d.links then [groups[0].name] + ListGroups(d, groups[1..], user)
    else ListGroups(d, groups[1..], user)
  }

  function FindGroup(groups: seq<Group>, name: string): Option<nat> {
    if groups == [] then None
    else if groups[0].name == name then Some(groups[0].id)
    else FindGroup(groups[1..], name)
  }

  function FindRow<R(==)>(rows: seq<GroupRow<R>>, group: nat, resource: R): Option<Level> {
    if rows == [] then None
    else if rows[0].group == group && rows[0].resource == resource then Some(rows[0].level)
    else FindRow(rows[1..], group, resource)
  }

  /** The row of a named group, or None when the group or the row is missing. */
  function RowByName<R(==)>(d: Directory, rows: seq<GroupRow<R>>, resource: R, name: string): Option<Level> {
    match FindGroup(d.groups, name)
    case None => None
    case Some(g) => FindRow(rows, g, resource)
  }

  function GrantedByNames<R(==)>(d: Directory, rows: seq<GroupRow<R>>, resource: R, names: seq<string>): set<Level> {
    set i | 0 <= i < |names| && RowByName(d, rows, resource, names[i]).Some? ::
      RowByName(d, rows, resource, names[i]).value
  }

  lemma {:induction false} FindGroupAt(groups: seq<Group>, i: nat)
    requires i < |groups|
    requires forall a, b | 0 <= a < b < |groups| :: groups[a].name != groups[b].name
    ensures FindGroup(groups, groups[i].name) == Some(groups[i].id)
  {
    if i > 0 { FindGroupAt(groups[1..], i - 1); }
  }

  lemma {:induction false} FindRowAt<R>(rows: seq<GroupRow<R>>, i: nat)
    requires i < |rows| && UniqueRows(rows)
    ensures FindRow(rows, rows[i].group, rows[i].resource) == Some(rows[i].level)
  {
    if i > 0 { FindRowAt(rows[1..], i - 1); }
  }

  lemma {:induction false} FindRowFound<R>(rows: seq<GroupRow<R>>, group: nat, resource: R) returns (i: nat)
    requires FindRow(rows, group, resource).Some?
    ensures i < |rows| && rows[i] == GroupRow(group, resource, FindRow(rows, group, resource).value)
  {
    if rows[0].group == group && rows[0].resource == resource {
      i := 0;
    } else {
      var k := FindRowFound(rows[1..], group, resource);
      i := k + 1;
    }
  }

  lemma {:induction false} ListGroupsMembers(d: Directory, groups: seq<Group>, user: nat, name: string)
    ensures name in ListGroups(d, groups, user)
       <==> exists i | 0 <= i < |groups| :: groups[i].name == name && (user, groups[i].id) in d.links
  {
    if groups != [] {
      ListGroupsMembers(d, groups[1..], user, name);
      assert forall i | 0 <= i < |groups[1..]| :: groups[1..][i] == groups[i + 1];
      if name in ListGroups(d, groups[1..], user) {
        var i :| 0 <= i < |groups[1..]| && groups[1..][i].name == name && (user, groups[1..][i].id) in d.links;
        assert groups[i + 1].name == name;
      }
      if exists i | 0 <= i < |groups| :: groups[i].name == name && (user, groups[i].id) in d.links {
        var i :| 0 <= i < |groups| && groups[i].name == name && (user, groups[i].id) in d.links;
        if i > 0 { assert groups[1..][i - 1].name == name; }
      }
    }
  }

  /** Looking rows up group by group sees exactly the levels the join of rows and links sees. */
  lemma NameLookupEqualsJoin<R>(d: Directory, rows: seq<GroupRow<R>>, user: nat, resource: R)
    requires ValidDirectory(d) && UniqueRows(rows)
    ensures GrantedByNames(d, rows, resource, ListGroups(d, d.groups, user)) == Granted(d, rows, user, resource)
  {
    var names := ListGroups(d, d.groups, user);
    forall l | l in Granted(d, rows, user, resource)
      ensures l in GrantedByNames(d, rows, resource, names)
    {
      var i :| 0 <= i < |rows| && rows[i].resource == resource && (user, rows[i].group) in d.links
               && rows[i].level == l;
      var link := (user, rows[i].group);
      assert link in d.links;
      var k :| 0 <= k < |d.groups| && d.groups[k].id == link.1;
      ListGroupsMembers(d, d.groups, user, d.groups[k].name);
      FindGroupAt(d.groups, k);
      FindRowAt(rows, i);
      var n :| 0 <= n < |names| && names[n] == d.groups[k].name;
      assert RowByName(d, rows, resource, names[n]) == Some(l);
    }
    forall l | l in GrantedByNames(d, rows, resource, names)
      ensures l in Granted(d, rows, user, resource)
    {
      var n :| 0 <= n < |names| && RowByName(d, rows, resource, names[n]) == Some(l);
      ListGroupsMembers(d, d.groups, user, names[n]);
      var k :| 0 <= k < |d.groups| && d.groups[k].name == names[n] && (user, d.groups[k].id) in d.links;
      FindGroupAt(d.groups, k);
      var i := FindRowFound(rows, d.groups[k].id, resource);
      assert rows[i].level in Granted(d, rows, user, resource);
    }
  }

  /** One more row folded in: the kept level stays decisive. */
  lemma FoldStep(levels: set<Level>, l: Level)
    ensures Decisive(levels + {l})
         == (match Decisive(levels)
             case None => Some(l)
             case Some(best) => if AtMost(best, l) then Some(l) else Some(best))
  {
    DecisiveIsGreatest(levels, l);
  }

  lemma GrantedByNamesStep<R>(d: Directory, rows: seq<GroupRow<R>>, resource: R, names: seq<string>, i: nat)
    requires i < |names|
    ensures GrantedByNames(d, rows, resource, names[..i + 1])
         == GrantedByNames(d, rows, resource, names[..i])
            + (match RowByName(d, rows, resource, names[i]) case None => {} case Some(l) => {l})
  {
    var a, b := names[..i], names[..i + 1];
    forall l | l in GrantedByNames(d, rows, resource, a) ensures l in GrantedByNames(d, rows, resource, b) {
      var k :| 0 <= k < |a| && RowByName(d, rows, resource, a[k]) == Some(l);
      assert b[k] == a[k];
    }
    assert b[i] == names[i];
    forall l | l in GrantedByNames(d, rows, resource, b)
      ensures l in GrantedByNames(d, rows, resource, a) || RowByName(d, rows, resource, names[i]) == Some(l)
    {
      var k :| 0 <= k < |b| && RowByName(d, rows, resource, b[k]) == Some(l);
      if k < i { assert a[k] == b[k]; }
    }
  }

  /** The base fold; the registered-model repository repeats it line for line over its own table. */
  method GroupPermissionForUserResource<R(==)>(d: Directory, rows: seq<GroupRow<R>>, resource: R, username: string)
      returns (r: Option<Level>)
    requires ValidDirectory(d) && UniqueRows(rows)
    ensures r == GroupLevel(d, rows, username, resource)
  {
    if username !in d.users { return None; }
    var userGroups := ListGroups(d, d.groups, d.users[username]);
    var userPerms: Option<Level> := None;
    for i := 0 to |userGroups|
      invariant userPerms == Decisive(GrantedByNames(d, rows, resource, userGroups[..i]))
    {
      var perms := RowByName(d, rows, resource, userGroups[i]);
      GrantedByNamesStep(d, rows, resource, userGroups, i);
      if perms.Some? {
        FoldStep(GrantedByNames(d, rows, resource, userGroups[..i]), perms.value);
        if userPerms.None? {
          userPerms := perms;
        } else if AtMost(userPerms.value, perms.value) {
          userPerms := perms;
        }
      }
    }
    assert userGroups[..|userGroups|] == userGroups;
    NameLookupEqualsJoin(d, rows, d.users[username], resource);
    r := userPerms;
  }

  // ---- the scorer table, keyed by experiment and scorer name ----

  datatype ScorerRow = ScorerRow(experiment: string, scorer: string, group: nat, level: Level)

  function AsGroupRows(rows: seq<ScorerRow>): (r: seq<GroupRow<(string, string)>>)
    ensures |r| == |rows|
    ensures forall i | 0 <= i < |rows| ::
              r[i] == GroupRow(rows[i].group, (rows[i].experiment, rows[i].scorer), rows[i].level)
  {
    seq(|rows|, i requires 0 <= i < |rows| =>
      GroupRow(rows[i].group, (rows[i].experiment, rows[i].scorer), rows[i].level))
  }

  function FindScorerRow(rows: seq<ScorerRow>, experiment: string, scorer: string, group: nat): Option<Level> {
    if rows == [] then None
    else if rows[0].experiment == experiment && rows[0].scorer == scorer && rows[0].group == group
    then Some(rows[0].level)
    else FindScorerRow(rows[1..], experiment, scorer, group)
  }

  lemma {:induction false} FindScorerRowIsFindRow(rows: seq<ScorerRow>, experiment: string, scorer: string, group: nat)
    ensures FindScorerRow(rows, experiment, scorer, group) == FindRow(AsGroupRows(rows), group, (experiment, scorer))
  {
    if rows != [] {
      FindScorerRowIsFindRow(rows[1..], experiment, scorer, group);
      assert AsGroupRows(rows)[1..] == AsGroupRows(rows[1..]);
    }
  }

  method GroupPermissionForUserScorer(d: Directory, rows: seq<ScorerRow>, experiment: string, scorer: string,
                                      username: string)
      returns (best: Option<Level>)
    requires ValidDirectory(d) && UniqueRows(AsGroupRows(rows))
    ensures best == GroupLevel(d, AsGroupRows(rows), username, (experiment, scorer))
  {
    best := None;
    if username !in d.users { return; }
    var userGroups := ListGroups(d, d.groups, d.users[username]);
    ghost var pairs, key := AsGroupRows(rows), (experiment, scorer);
    for i := 0 to |userGroups|
      invariant best == Decisive(GrantedByNames(d, pairs, key, userGroups[..i]))
    {
      GrantedByNamesStep(d, pairs, key, userGroups, i);
      var group := FindGroup(d.groups, userGroups[i]);
      if group.Some? {
        var perm := FindScorerRow(rows, experiment, scorer, group.value);
        FindScorerRowIsFindRow(rows, experiment, scorer, group.value);
        if perm.Some? {
          FoldStep(GrantedByNames(d, pairs, key, userGroups[..i]), perm.value);
          if best.None? || AtMost(best.value, perm.value) {
            best := perm;
          }
        }
      }
    }
    assert userGroups[..|userGroups|] == userGroups;
    NameLookupEqualsJoin(d, pairs, d.users[username], key);
  }

  // ---- the workspace fold, over the join of rows and links ----

  function Levels<R>(rows: seq<GroupRow<R>>): set<Level> {
    set i | 0 <= i < |rows| :: rows[i].level
  }

  function Joined<R(==)>(d: Directory, rows: seq<GroupRow<R>>, user: nat, resource: R): seq<GroupRow<R>> {
    if rows == [] then []
    else if rows[0].resource == resource && (user, rows[0].group) in d.links
    then [rows[0]] + Joined(d, rows[1..], user, resource)
    else Joined(d, rows[1..], user, resource)
  }

  lemma {:induction false} JoinedLevels<R>(d: Directory, rows: seq<GroupRow<R>>, user: nat, resource: R)
    ensures Levels(Joined(d, rows, user, resource)) == Granted(d, rows, user, resource)
  {
    if rows != [] {
      var rest := rows[1..];
      JoinedLevels(d, rest, user, resource);
      var head := if rows[0].resource == resource && (user, rows[0].group) in d.links then [rows[0]] else [];
      LevelsConcat(head, Joined(d, rest, user, resource));
      assert Levels(head) == if head == [] then {} else {rows[0].level} by {
        if head != [] { assert head[0].level in Levels(head); }
      }
      forall l | l in Granted(d, rows, user, resource) ensures l in Levels(head) + Granted(d, rest, user, resource) {
        var i :| 0 <= i < |rows| && rows[i].resource == resource && (user, rows[i].group) in d.links
                 && rows[i].level == l;
        if i > 0 { assert rest[i - 1] == rows[i]; }
      }
      forall l | l in Granted(d, rest, user, resource) ensures l in Granted(d, rows, user, resource) {
        var i :| 0 <= i < |rest| && rest[i].resource == resource && (user, rest[i].group) in d.links
                 && rest[i].level == l;
        assert rows[i + 1] == rest[i];
      }
    }
  }

  lemma LevelsConcat<R>(a: seq<GroupRow<R>>, b: seq<GroupRow<R>>)
    ensures Levels(a + b) == Levels(a) + Levels(b)
  {
    var s := a + b;
    forall l | l in Levels(s) ensures l in Levels(a) + Levels(b) {
      var i :| 0 <= i < |s| && s[i].level == l;
      if i < |a| { assert a[i].level == l; } else { assert b[i - |a|].level == l; }
    }
    forall l | l in Levels(a) ensures l in Levels(s) {
      var i :| 0 <= i < |a| && a[i].level == l;
      assert s[i].level == l;
    }
    forall l | l in Levels(b) ensures l in Levels(s) {
      var i :| 0 <= i < |b| && b[i].level == l;
      assert s[i + |a|].level == l;
    }
  }

  /**
   * The workspace fold starts from the first joined row; its documentation says the lowest number
   * wins, the code keeps the largest.
   */
  method HighestForUser<R(==)>(d: Directory, rows: seq<GroupRow<R>>, resource: R, user: nat) returns (r: Option<Level>)
    ensures r == Decisive(Granted(d, rows, user, resource))
  {
    var perms := Joined(d, rows, user, resource);
    JoinedLevels(d, rows, user, resource);
    if perms == [] { return None; }
    var highest := perms[0];
    assert Levels(perms[..1]) == {highest.level} by { assert perms[..1][0].level in Levels(perms[..1]); }
    DecisiveIsGreatest({highest.level}, highest.level);
    for i := 1 to |perms|
      invariant Decisive(Levels(perms[..i])) == Some(highest.level)
    {
      var p := perms[i];
      assert perms[..i + 1] == perms[..i] + [p];
      LevelsConcat(perms[..i], [p]);
      assert Levels([p]) == {p.level} by { assert [p][0].level in Levels([p]); }
      FoldStep(Levels(perms[..i]), p.level);
      if AtMost(highest.level, p.level) {
        highest := p;
      }
    }
    assert perms[..|perms|] == perms;
    r := Some(highest.level);
  }

  // ---- workspace regex rows: first tier wins, then the decisive level of that tier ----

  datatype RegexRow = RegexRow(regex: string, priority: int, level: Level)

  ghost predicate ByPriority(rows: seq<RegexRow>) {
    forall i, j | 0 <= i < j < |rows| :: rows[i].priority <= rows[j].priority
  }

  /** The levels of the matching rows in the tier of one priority. */
  function Tier(rows: seq<RegexRow>, matches: (string, string) -> bool, workspace: string, priority: int): set<Level> {
    set i | 0 <= i < |rows| && rows[i].priority == priority && matches(rows[i].regex, workspace) :: rows[i].level
  }

  /** The priority of the first row that matches. */
  function FirstTier(rows: seq<RegexRow>, matches: (string, string) -> bool, workspace: string): Option<int> {
    if rows == [] then None
    else if matches(rows[0].regex, workspace) then Some(rows[0].priority)
    else FirstTier(rows[1..], matches, workspace)
  }

  /** What regex rows say about a workspace: the decisive level of the first tier that matches. */
  function TierLevel(rows: seq<RegexRow>, matches: (string, string) -> bool, workspace: string): Option<Level> {
    match FirstTier(rows, matches, workspace)
    case None => None
    case Some(priority) => Decisive(Tier(rows, matches, workspace, priority))
  }

  lemma {:induction false} FirstTierAt(rows: seq<RegexRow>, matches: (string, string) -> bool, workspace: string,
                                       i: nat)
    requires i <= |rows| && NoMatch(rows[..i], matches, workspace)
    requires i < |rows| ==> matches(rows[i].regex, workspace)
    ensures FirstTier(rows, matches, workspace) == if i < |rows| then Some(rows[i].priority) else None
  {
    if i > 0 {
      assert rows[..i][0] == rows[0] && !matches(rows[..i][0].regex, workspace);
      assert rows[1..][..i - 1] == rows[..i][1..];
      FirstTierAt(rows[1..], matches, workspace, i - 1);
    }
  }

  lemma TierStep(rows: seq<RegexRow>, matches: (string, string) -> bool, workspace: string, priority: int, i: nat)
    requires i < |rows|
    ensures Tier(rows[..i + 1], matches, workspace, priority)
         == Tier(rows[..i], matches, workspace, priority)
            + (if rows[i].priority == priority && matches(rows[i].regex, workspace) then {rows[i].level} else {})
  {
    var a, b := rows[..i], rows[..i + 1];
    assert b[i] == rows[i];
    forall l | l in Tier(a, matches, workspace, priority) ensures l in Tier(b, matches, workspace, priority) {
      var k :| 0 <= k < |a| && a[k].priority == priority && matches(a[k].regex, workspace) && a[k].level == l;
      assert b[k] == a[k];
    }
    forall l | l in Tier(b, matches, workspace, priority)
      ensures l in Tier(a, matches, workspace, priority)
           || (rows[i].priority == priority && matches(rows[i].regex, workspace) && rows[i].level == l)
    {
      var k :| 0 <= k < |b| && b[k].priority == priority && matches(b[k].regex, workspace) && b[k].level == l;
      if k < i { assert a[k] == b[k]; }
    }
  }

  /** Rows behind the last one of a priority do not matter to its tier. */
  lemma TierPrefix(rows: seq<RegexRow>, matches: (string, string) -> bool, workspace: string, priority: int, i: nat)
    requires i <= |rows| && forall k | i <= k < |rows| :: rows[k].priority != priority
    ensures Tier(rows, matches, workspace, priority) == Tier(rows[..i], matches, workspace, priority)
  {
    forall l | l in Tier(rows, matches, workspace, priority)
      ensures l in Tier(rows[..i], matches, workspace, priority)
    {
      var k :| 0 <= k < |rows| && rows[k].priority == priority && matches(rows[k].regex, workspace)
               && rows[k].level == l;
      assert rows[..i][k] == rows[k];
    }
    forall l | l in Tier(rows[..i], matches, workspace, priority)
      ensures l in Tier(rows, matches, workspace, priority)
    {
      var k :| 0 <= k < i && rows[..i][k].priority == priority && matches(rows[..i][k].regex, workspace)
               && rows[..i][k].level == l;
      assert rows[..i][k] == rows[k];
    }
  }

  function Folded(best: Option<Level>, row: RegexRow, counts: bool): Option<Level> {
    if !counts || (best.Some? && Priority(row.level) <= Priority(best.value)) then best else Some(row.level)
  }

  /** One more row of the tier, or of another one, folded in. */
  lemma TierFold(rows: seq<RegexRow>, matches: (string, string) -> bool, workspace: string, priority: int, i: nat)
    requires i < |rows|
    ensures Decisive(Tier(rows[..i + 1], matches, workspace, priority))
         == Folded(Decisive(Tier(rows[..i], matches, workspace, priority)), rows[i],
                   rows[i].priority == priority && matches(rows[i].regex, workspace))
  {
    TierStep(rows, matches, workspace, priority, i);
    var tier := Tier(rows[..i], matches, workspace, priority);
    FoldStep(tier, rows[i].level);
    if Decisive(tier).Some? { DecisiveIsGreatest(tier, Decisive(tier).value); }
  }

  /** No row so far matches at all. */
  ghost predicate NoMatch(rows: seq<RegexRow>, matches: (string, string) -> bool, workspace: string) {
    forall k | 0 <= k < |rows| :: !matches(rows[k].regex, workspace)
  }

  lemma NoMatchNoTier(rows: seq<RegexRow>, matches: (string, string) -> bool, workspace: string, priority: int)
    requires NoMatch(rows, matches, workspace)
    ensures Tier(rows, matches, workspace, priority) == {}
  {
  }

  /**
   * The early exit of the loop is sound on rows sorted by priority: the answer is the decisive
   * level among all matches of the first tier that has one. The documentation calls the tie
   * rule "most permissive"; the code compares priorities, so NO_PERMISSIONS beats MANAGE.
   */
  method MatchWorkspaceRegex(rows: seq<RegexRow>, matches: (string, string) -> bool, workspace: string)
      returns (r: Option<Level>, tier: int)
    requires ByPriority(rows)
    ensures r == TierLevel(rows, matches, workspace)
    ensures r.None? <==> NoMatch(rows, matches, workspace)
    ensures r.Some? ==> r == Decisive(Tier(rows, matches, workspace, tier))
    ensures r.Some? ==> forall i | 0 <= i < |rows| && rows[i].priority < tier :: !matches(rows[i].regex, workspace)
  {
    r, tier := None, 0;
    var i := 0;
    while i < |rows|
      invariant 0 <= i <= |rows|
      invariant r.None? <==> NoMatch(rows[..i], matches, workspace)
      invariant r.Some? ==> FirstTier(rows, matches, workspace) == Some(tier)
      invariant r.Some? ==>
                  0 < i && rows[i - 1].priority == tier && r == Decisive(Tier(rows[..i], matches, workspace, tier))
      invariant r.Some? ==> forall k | 0 <= k < i && rows[k].priority < tier :: !matches(rows[k].regex, workspace)
    {
      if r.Some? && rows[i].priority > tier { break; }
      assert rows[..i + 1] == rows[..i] + [rows[i]];
      if matches(rows[i].regex, workspace) {
        if r.None? {
          tier := rows[i].priority;
          FirstTierAt(rows, matches, workspace, i);
          NoMatchNoTier(rows[..i], matches, workspace, tier);
          TierFold(rows, matches, workspace, tier, i);
          r := Some(rows[i].level);
        } else {
          TierFold(rows, matches, workspace, tier, i);
          if Priority(rows[i].level) > Priority(r.value) {
            r := Some(rows[i].level);
          }
        }
        assert !NoMatch(rows[..i + 1], matches, workspace) by { assert rows[..i + 1][i] == rows[i]; }
      } else if r.Some? {
        TierFold(rows, matches, workspace, tier, i);
      }
      i := i + 1;
    }
    if r.None? {
      assert rows[..i] == rows;
      FirstTierAt(rows, matches, workspace, |rows|);
    } else {
      TierPrefix(rows, matches, workspace, tier, i);
      assert exists k | 0 <= k < i :: matches(rows[..i][k].regex, workspace);
    }
  }
}
