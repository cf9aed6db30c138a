/** Group creation and membership replacement at login (repository/group.py, routers/auth.py). */
module GroupSync {
  import opened Common

  /** Users and groups by name, and the links between their ids. */
  datatype Dir = Dir(users: map<string, nat>, groups: map<string, nat>, links: set<(nat, nat)>, nextId: nat)

  ghost predicate Valid(d: Dir) {
    && (forall a, b | a in d.groups && b in d.groups && d.groups[a] == d.groups[b] :: a == b)
    && (forall a | a in d.groups :: d.groups[a] < d.nextId)
    && (forall a, b | a in d.users && b in d.users && d.users[a] == d.users[b] :: a == b)
    && (forall l | l in d.links :: GroupExists(d, l.1))
  }

  ghost predicate GroupExists(d: Dir, id: nat) { exists n | n in d.groups :: d.groups[n] == id }

  /** dict.fromkeys: first occurrences, in order. */
  function Dedup(names: seq<string>): (r: seq<string>)
    ensures forall n :: n in r <==> n in names
    ensures forall i, j | 0 <= i < j < |r| :: r[i] != r[j]
  {
    if names == [] then []
    else
      var rest, last := names[..|names| - 1], names[|names| - 1];
      assert names == rest + [last];
      if last in rest then Dedup(rest) else Dedup(rest) + [last]
  }

  function AddGroup(d: Dir, name: string): Dir {
    if name in d.groups then d else d.(groups := d.groups[name := d.nextId], nextId := d.nextId + 1)
  }

  /** Every listed group exists afterwards; repetitions have nothing left to do. */
  function Populate(d: Dir, names: seq<string>): Dir {
    if names == [] then d else AddGroup(Populate(d, names[..|names| - 1]), names[|names| - 1])
  }

  lemma AddGroupKeepsValid(d: Dir, name: string)
    requires Valid(d)
    ensures Valid(AddGroup(d, name))
  {
    var d' := AddGroup(d, name);
    forall l | l in d'.links ensures GroupExists(d', l.1) {
      assert GroupExists(d, l.1);
      var n :| n in d.groups && d.groups[n] == l.1;
      assert n in d'.groups && d'.groups[n] == l.1;
    }
  }

  lemma {:induction false} Populated(d: Dir, names: seq<string>)
    ensures var d' := Populate(d, names);
            && d'.users == d.users && d'.links == d.links
            && d'.groups.Keys == d.groups.Keys + (set n | n in names)
            && (forall n | n in d.groups :: d'.groups[n] == d.groups[n])
            && d.nextId <= d'.nextId && (Valid(d) ==> Valid(d'))
  {
    if names != [] {
      Populated(d, names[..|names| - 1]);
      if Valid(d) { AddGroupKeepsValid(Populate(d, names[..|names| - 1]), names[|names| - 1]); }
      assert names == names[..|names| - 1] + [names[|names| - 1]];
    }
  }

  /** Repetitions make no difference. */
  lemma {:induction false} PopulateDedup(d: Dir, names: seq<string>)
    ensures Populate(d, Dedup(names)) == Populate(d, names)
  {
    if names != [] {
      var rest, last := names[..|names| - 1], names[|names| - 1];
      PopulateDedup(d, rest);
      Populated(d, rest);
      if last !in rest {
        assert (Dedup(rest) + [last])[..|Dedup(rest)|] == Dedup(rest);
      }
    }
  }

  lemma {:induction false} NothingToPopulate(d: Dir, names: seq<string>)
    requires forall n | n in names :: n in d.groups
    ensures Populate(d, names) == d
  {
    if names != [] { NothingToPopulate(d, names[..|names| - 1]); }
  }

  /** The links when a user is a member of exactly the named groups. */
  function WithMemberships(d: Dir, user: nat, names: seq<string>): set<(nat, nat)>
    requires forall n | n in names :: n in d.groups
  {
    (set l | l in d.links && l.0 != user) + set n | n in names :: (user, d.groups[n])
  }

  /** The names of the groups a user belongs to. */
  function Memberships(d: Dir, username: string): set<string>
    requires username in d.users
  {
    set n | n in d.groups && (d.users[username], d.groups[n]) in d.links
  }

  /** Populate, then replace the memberships. */
  function Synced(d: Dir, username: string, names: seq<string>): Dir
    requires username in d.users
  {
    Populated(d, names);
    var d' := Populate(d, names);
    d'.(links := WithMemberships(d', d.users[username], names))
  }

  class GroupStore {
    var users: map<string, nat>
    var groups: map<string, nat>
    var links: set<(nat, nat)>
    var nextId: nat

    function View(): Dir
      reads this
    {
      Dir(users, groups, links, nextId)
    }

    constructor (users: map<string, nat>)
      ensures View() == Dir(users, map[], {}, 0)
    {
      this.users, groups, links, nextId := users, map[], {}, 0;
    }

    method CreateGroups(names: seq<string>)
      modifies this
      ensures View() == Populate(old(View()), names)
    {
      var wanted := Dedup(names);
      PopulateDedup(View(), names);
      for i := 0 to |wanted|
        invariant View() == Populate(old(View()), wanted[..i])
      {
        assert wanted[..i + 1][..i] == wanted[..i];
        if wanted[i] !in groups {
          groups, nextId := groups[wanted[i] := nextId], nextId + 1;
        }
      }
      assert wanted[..|wanted|] == wanted;
    }

    /** One session: an unknown user, an unknown group or a duplicate link rolls everything back. */
    method SetGroupsForUser(username: string, names: seq<string>) returns (r: Result<()>)
      requires Valid(View())
      modifies this`links
      ensures r.Ok? <==> username in users && forall n | n in names :: n in groups
      ensures r.Ok? ==> links == WithMemberships(old(View()), users[username], names)
      ensures r.Err? ==> links == old(links)
    {
      if username !in users { return Err(DoesNotExist); }
      var user := users[username];
      var kept := set l | l in links && l.0 != user;
      var pending := kept;
      var wanted := Dedup(names);
      for i := 0 to |wanted|
        invariant links == old(links)
        invariant forall k | 0 <= k < i :: wanted[k] in groups
        invariant pending == kept + set k | 0 <= k < i :: (user, groups[wanted[k]])
      {
        var name := wanted[i];
        if name !in groups {
          assert name in names;
          return Err(DoesNotExist);
        }
        if (user, groups[name]) in pending {
          assert false;
        }
        pending := pending + {(user, groups[name])};
      }
      assert forall n | n in names :: n in wanted;
      assert pending == WithMemberships(View(), user, names);
      links := pending;
      r := Ok(());
    }

    method AddUserToGroup(username: string, group: string) returns (r: Result<()>)
      requires Valid(View())
      modifies this`links
      ensures r.Ok? <==> username in users && group in groups && group !in Memberships(old(View()), username)
      ensures r.Ok? ==> Memberships(View(), username) == Memberships(old(View()), username) + {group}
      ensures r.Ok? ==> forall u | u in users && u != username :: Memberships(View(), u) == Memberships(old(View()), u)
      ensures r.Err? ==> links == old(links)
    {
      if username !in users || group !in groups { return Err(DoesNotExist); }
      var link := (users[username], groups[group]);
      if link in links { return Err(AlreadyExists); }
      links := links + {link};
      r := Ok(());
    }

    method RemoveUserFromGroup(username: string, group: string) returns (r: Result<()>)
      requires Valid(View())
      modifies this`links
      ensures r.Ok? <==> username in users && group in groups && group in Memberships(old(View()), username)
      ensures r.Ok? ==> Memberships(View(), username) == Memberships(old(View()), username) - {group}
      ensures r.Ok? ==> forall u | u in users && u != username :: Memberships(View(), u) == Memberships(old(View()), u)
      ensures r.Err? ==> links == old(links)
    {
      if username !in users || group !in groups { return Err(DoesNotExist); }
      var link := (users[username], groups[group]);
      if link !in links { return Err(DoesNotExist); }
      links := links - {link};
      r := Ok(());
    }

    /** populate_groups and update_user at login: for a known user it cannot fail. */
    method Sync(username: string, names: seq<string>) returns (r: Result<()>)
      requires Valid(View())
      modifies this
      ensures r.Ok? <==> username in old(users)
      ensures r.Ok? ==> View() == Synced(old(View()), username, names)
      // for an unknown user the groups have been created all the same
      ensures r.Err? ==> View() == Populate(old(View()), names)
    {
      Populated(View(), names);
      CreateGroups(names);
      r := SetGroupsForUser(username, names);
    }
  }

  /** Afterwards the user belongs to exactly the listed groups, everyone else to what they did before. */
  lemma SyncedMemberships(d: Dir, username: string, names: seq<string>, other: string)
    requires Valid(d) && username in d.users && other in d.users
    ensures var d' := Synced(d, username, names);
            && d'.users == d.users && Valid(d')
            && Memberships(d', username) == (set n | n in names)
            && (other != username ==> Memberships(d', other) == Memberships(d, other))
  {
    Populated(d, names);
    var d' := Synced(d, username, names);
    var user := d.users[username];
    forall n ensures n in Memberships(d', username) <==> n in names {
      if n in d'.groups && (user, d'.groups[n]) in d'.links {
        var m :| m in names && (user, d'.groups[m]) == (user, d'.groups[n]);
      }
    }
    forall l | l in d'.links ensures GroupExists(d', l.1) {
      if l in d.links {
        assert GroupExists(d, l.1);
        var n :| n in d.groups && d.groups[n] == l.1;
        assert d'.groups[n] == l.1;
      }
    }
    if other != username {
      var id := d.users[other];
      forall n ensures n in Memberships(d', other) <==> n in Memberships(d, other) {
        if n in d'.groups && (id, d'.groups[n]) in d'.links {
          assert (id, d'.groups[n]) in d.links;
          assert GroupExists(d, d'.groups[n]);
          var m :| m in d.groups && d.groups[m] == d'.groups[n];
          assert d'.groups[m] == d'.groups[n];
        }
      }
    }
  }

  /** Logging in again with the same groups changes nothing. */
  lemma SyncIsIdempotent(d: Dir, username: string, names: seq<string>)
    requires username in d.users
    ensures username in Synced(d, username, names).users
    ensures Synced(Synced(d, username, names), username, names) == Synced(d, username, names)
  {
    Populated(d, names);
    var d' := Synced(d, username, names);
    NothingToPopulate(d', names);
    assert WithMemberships(d', d.users[username], names) == d'.links;
  }
}
