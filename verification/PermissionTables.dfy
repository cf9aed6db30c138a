/**
 * The permission tables of repository/_base.py: rows keyed by resource and subject (a user or a
 * group), changed inside sessions that roll back when they raise.
 */
module PermissionTables {
  import opened Common
  import opened Permissions

  datatype RowKey = RowKey(resource: string, subject: string)

  type Table = map<RowKey, Level>

  function RowsOf(t: Table, resource: string): set<RowKey> {
    set k | k in t && k.resource == resource
  }

  function SubjectsOf(t: Table, resource: string): (r: set<string>)
    ensures forall s :: s in r <==> RowKey(resource, s) in t
  {
    var r := set k | k in RowsOf(t, resource) :: k.subject;
    assert forall s | RowKey(resource, s) in t :: RowKey(resource, s) in RowsOf(t, resource);
    r
  }

  /** Who holds what on one resource. */
  function Grants(t: Table, resource: string): map<string, Level> {
    map s | s in SubjectsOf(t, resource) :: t[RowKey(resource, s)]
  }

  function Wiped(t: Table, resource: string): Table {
    map k | k in t && k.resource != resource :: t[k]
  }

  /** A subject with rows on both names makes the unique constraint fail. */
  ghost predicate Conflict(t: Table, from: string, to: string) {
    from != to && exists s :: RowKey(from, s) in t && RowKey(to, s) in t
  }

  ghost predicate Moved(t: Table, from: string, to: string, k: RowKey) {
    k.resource == to && RowKey(from, k.subject) in t
  }

  /** Every row of one name carried over to another. */
  ghost function Renamed(t: Table, from: string, to: string): Table {
    var keys := (t.Keys - RowsOf(t, from)) + set k | k in RowsOf(t, from) :: RowKey(to, k.subject);
    map k | k in keys :: if Moved(t, from, to, k) then t[RowKey(from, k.subject)] else t[k]
  }

  /** A rename, row by row. */
  lemma RenamedRows(t: Table, from: string, to: string)
    requires from != to && RowsOf(t, to) == {}
    ensures !Conflict(t, from, to)
    ensures forall s :: RowKey(to, s) in Renamed(t, from, to) <==> RowKey(from, s) in t
    ensures forall s | RowKey(from, s) in t :: Renamed(t, from, to)[RowKey(to, s)] == t[RowKey(from, s)]
    ensures forall s :: RowKey(from, s) !in Renamed(t, from, to)
    ensures forall k: RowKey | k.resource != from && k.resource != to :: k in Renamed(t, from, to) <==> k in t
    ensures forall k: RowKey | k.resource != from && k.resource != to && k in t :: Renamed(t, from, to)[k] == t[k]
  {
    forall s ensures RowKey(to, s) !in t { assert RowKey(to, s) in RowsOf(t, to) <==> RowKey(to, s) in t; }
    forall s | RowKey(from, s) in t ensures RowKey(to, s) in Renamed(t, from, to) {
      assert RowKey(from, s) in RowsOf(t, from);
    }
  }

  /** A rename hands the grants over whole, and touches no third resource. */
  lemma RenamedGrants(t: Table, from: string, to: string, other: string)
    requires from != to && RowsOf(t, to) == {}
    ensures Grants(Renamed(t, from, to), to) == Grants(t, from)
    ensures Grants(Renamed(t, from, to), from) == map[]
    ensures other != from && other != to ==> Grants(Renamed(t, from, to), other) == Grants(t, other)
  {
    RenamedRows(t, from, to);
    var r := Renamed(t, from, to);
    assert Grants(r, to) == Grants(t, from) by { GrantsAre(r, to); GrantsAre(t, from); }
    assert Grants(r, from) == map[] by { GrantsAre(r, from); }
    if other != from && other != to {
      SameGrants(t, r, other);
    }
  }

  /** Grants by subject. */
  lemma GrantsAre(t: Table, resource: string)
    ensures forall s :: s in Grants(t, resource) <==> RowKey(resource, s) in t
    ensures forall s | s in Grants(t, resource) :: Grants(t, resource)[s] == t[RowKey(resource, s)]
  {
  }

  /** Tables that agree on the rows of a resource grant the same on it. */
  lemma SameGrants(t: Table, t': Table, resource: string)
    requires forall s :: RowKey(resource, s) in t <==> RowKey(resource, s) in t'
    requires forall s | RowKey(resource, s) in t :: t[RowKey(resource, s)] == t'[RowKey(resource, s)]
    ensures Grants(t, resource) == Grants(t', resource)
  {
    GrantsAre(t, resource);
    GrantsAre(t', resource);
  }

  lemma WipedGrants(t: Table, resource: string, other: string)
    ensures Grants(Wiped(t, resource), resource) == map[]
    ensures other != resource ==> Grants(Wiped(t, resource), other) == Grants(t, other)
  {
    GrantsAre(Wiped(t, resource), resource);
    if other != resource { SameGrants(t, Wiped(t, resource), other); }
  }

  lemma AddedGrants(t: Table, k: RowKey, l: Level, other: string)
    ensures Grants(t[k := l], k.resource) == Grants(t, k.resource)[k.subject := l]
    ensures other != k.resource ==> Grants(t[k := l], other) == Grants(t, other)
  {
    var t' := t[k := l];
    assert Grants(t', k.resource) == Grants(t, k.resource)[k.subject := l] by {
      GrantsAre(t', k.resource);
      GrantsAre(t, k.resource);
    }
    if other != k.resource {
      SameGrants(t, t', other);
    }
  }

  lemma DroppedGrants(t: Table, k: RowKey, other: string)
    ensures Grants(t - {k}, k.resource) == Grants(t, k.resource) - {k.subject}
    ensures other != k.resource ==> Grants(t - {k}, other) == Grants(t, other)
  {
    var t' := t - {k};
    assert Grants(t', k.resource) == Grants(t, k.resource) - {k.subject} by {
      GrantsAre(t', k.resource);
      GrantsAre(t, k.resource);
    }
    if other != k.resource {
      SameGrants(t, t', other);
    }
  }

  /** A rename in progress: the rows still to do are in place, the others have moved. */
  ghost predicate Midway(t: Table, pending: Table, from: string, to: string, todo: set<RowKey>) {
    && (forall k :: k in pending <==>
          (k in t && (k.resource != from || k in todo)) || (Moved(t, from, to, k) && RowKey(from, k.subject) !in todo))
    && (forall k | k in pending :: pending[k]
          == if Moved(t, from, to, k) && RowKey(from, k.subject) !in todo then t[RowKey(from, k.subject)] else t[k])
  }

  lemma MidwayStep(t: Table, pending: Table, from: string, to: string, todo: set<RowKey>, k: RowKey)
    requires from != to && todo <= RowsOf(t, from) && k in todo && RowKey(to, k.subject) !in pending
             && Midway(t, pending, from, to, todo)
    ensures k in pending && Midway(t, (pending - {k})[RowKey(to, k.subject) := pending[k]], from, to, todo - {k})
  {
    assert k == RowKey(from, k.subject);
  }

  class SubjectTable {
    var rows: Table

    constructor ()
      ensures rows == map[]
    {
      rows := map[];
    }

    method Grant(resource: string, subject: string, subjectExists: bool, permission: string) returns (r: Result<Level>)
      modifies this
      ensures r.Ok? <==> Parse(permission).Some? && subjectExists && RowKey(resource, subject) !in old(rows)
      ensures r.Ok? ==> rows == old(rows)[RowKey(resource, subject) := r.value] && Parse(permission) == Some(r.value)
      ensures r.Err? ==> rows == old(rows)
      ensures r == Err(AlreadyExists)
         <==> Parse(permission).Some? && subjectExists && RowKey(resource, subject) in old(rows)
    {
      var level := Parse(permission);
      if level.None? { return Err(InvalidParameter); }
      if !subjectExists { return Err(DoesNotExist); }
      if RowKey(resource, subject) in rows { return Err(AlreadyExists); }
      rows := rows[RowKey(resource, subject) := level.value];
      r := Ok(level.value);
    }

    method Update(resource: string, subject: string, permission: string) returns (r: Result<Level>)
      modifies this
      ensures r.Ok? <==> Parse(permission).Some? && RowKey(resource, subject) in old(rows)
      ensures r.Ok? ==> rows == old(rows)[RowKey(resource, subject) := r.value] && Parse(permission) == Some(r.value)
      ensures r.Err? ==> rows == old(rows)
    {
      var level := Parse(permission);
      if level.None? { return Err(InvalidParameter); }
      if RowKey(resource, subject) !in rows { return Err(DoesNotExist); }
      rows := rows[RowKey(resource, subject) := level.value];
      r := Ok(level.value);
    }

    method Revoke(resource: string, subject: string) returns (r: Result<()>)
      modifies this
      ensures r.Ok? <==> RowKey(resource, subject) in old(rows)
      ensures rows == old(rows) - {RowKey(resource, subject)}
    {
      if RowKey(resource, subject) !in rows { return Err(DoesNotExist); }
      rows := rows - {RowKey(resource, subject)};
      r := Ok(());
    }

    /** Row by row in one session: a clash with an existing row of the new name rolls all of them back. */
    method Rename(from: string, to: string) returns (r: Result<()>)
      modifies this
      ensures r.Ok? <==> !Conflict(old(rows), from, to)
      ensures r.Ok? ==> rows == if from == to then old(rows) else Renamed(old(rows), from, to)
      ensures r.Err? ==> rows == old(rows)
    {
      if from == to { return Ok(()); }
      var todo := RowsOf(rows, from);
      var pending := rows;
      while todo != {}
        invariant todo <= RowsOf(rows, from) && rows == old(rows)
        invariant forall k | k in RowsOf(rows, from) && k !in todo :: RowKey(to, k.subject) !in rows
        invariant Midway(rows, pending, from, to, todo)
        decreases todo
      {
        var k :| k in todo;
        var k' := RowKey(to, k.subject);
        assert k == RowKey(from, k.subject);
        if k' in pending {
          assert RowKey(from, k.subject) in rows && RowKey(to, k.subject) in rows;
          return Err(AlreadyExists);
        }
        MidwayStep(rows, pending, from, to, todo, k);
        pending := (pending - {k})[k' := pending[k]];
        todo := todo - {k};
      }
      assert forall s | RowKey(from, s) in rows :: RowKey(from, s) in RowsOf(rows, from);
      assert pending == Renamed(rows, from, to);
      rows := pending;
      r := Ok(());
    }

    /** The registered-model form: nothing to rename is an error. */
    method RenameExisting(from: string, to: string) returns (r: Result<()>)
      modifies this
      ensures r.Ok? <==> RowsOf(old(rows), from) != {} && !Conflict(old(rows), from, to)
      ensures r.Ok? ==> rows == if from == to then old(rows) else Renamed(old(rows), from, to)
      ensures r.Err? ==> rows == old(rows)
    {
      if RowsOf(rows, from) == {} { return Err(DoesNotExist); }
      r := Rename(from, to);
    }

    method Wipe(resource: string)
      modifies this
      ensures rows == Wiped(old(rows), resource)
    {
      var todo := RowsOf(rows, resource);
      while todo != {}
        invariant todo <= RowsOf(rows, resource)
        invariant forall k :: k in rows <==> k in old(rows) && (k.resource != resource || k in todo)
        invariant forall k | k in rows :: rows[k] == old(rows)[k]
        decreases todo
      {
        var k :| k in todo;
        rows := rows - {k};
        todo := todo - {k};
      }
    }
  }
}
