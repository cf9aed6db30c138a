/** Filtering and first-occurrence removal on sequences. */
module Lists {

  /** The elements that pass, in order, with their repetitions. */
  function Filter<T>(keep: T -> bool, s: seq<T>): seq<T> {
    if s == [] then []
    else if keep(s[0]) then [s[0]] + Filter(keep, s[1..])
    else Filter(keep, s[1..])
  }

  lemma {:induction false} FilterLength<T>(keep: T -> bool, s: seq<T>)
    ensures |Filter(keep, s)| <= |s|
  {
    if s != [] { FilterLength(keep, s[1..]); }
  }

  lemma {:induction false} FilterConcat<T>(keep: T -> bool, a: seq<T>, b: seq<T>)
    ensures Filter(keep, a + b) == Filter(keep, a) + Filter(keep, b)
  {
    if a == [] {
      assert a + b == b;
    } else {
      FilterConcat(keep, a[1..], b);
      assert (a + b)[1..] == a[1..] + b;
    }
  }

  lemma {:induction false} FilterOne<T>(keep: T -> bool, e: T)
    ensures Filter(keep, [e]) == if keep(e) then [e] else []
  {
    assert [e][1..] == [];
  }

  lemma {:induction false} FilterPasses<T>(keep: T -> bool, s: seq<T>)
    ensures forall e | e in Filter(keep, s) :: keep(e) && e in s
  {
    if s != [] { FilterPasses(keep, s[1..]); }
  }

  lemma {:induction false} FilterAll<T>(keep: T -> bool, s: seq<T>)
    requires forall e | e in s :: keep(e)
    ensures Filter(keep, s) == s
  {
    if s != [] {
      FilterAll(keep, s[1..]);
      assert s == [s[0]] + s[1..];
    }
  }

  /** Strictly increasing positions of s, at which the elements of kept stand. */
  ghost predicate StandAt<T>(s: seq<T>, kept: seq<T>, at: seq<nat>) {
    && |at| == |kept|
    && (forall k | 0 <= k < |at| :: at[k] < |s| && kept[k] == s[at[k]])
    && (forall j, k | 0 <= j < k < |at| :: at[j] < at[k])
  }

  lemma StandOne<T>(s: seq<T>, e: T, kept: seq<T>, at: seq<nat>)
    requires StandAt(s, kept, at)
    ensures StandAt(s + [e], kept, at) && StandAt(s + [e], kept + [e], at + [|s|])
  {
  }

  /** The positions of what a filter keeps: all that pass and no other, in order. */
  lemma {:induction false} FilterPositions<T>(keep: T -> bool, s: seq<T>) returns (at: seq<nat>)
    ensures StandAt(s, Filter(keep, s), at)
    ensures forall i: nat | i < |s| :: i in at <==> keep(s[i])
  {
    if s == [] {
      at := [];
    } else {
      var n := |s| - 1;
      var front, last := s[..n], s[n];
      assert s == front + [last];
      FilterConcat(keep, front, [last]);
      FilterOne(keep, last);
      var rest := FilterPositions(keep, front);
      StandOne(front, last, Filter(keep, front), rest);
      if keep(last) {
        at := rest + [n];
      } else {
        at := rest;
        assert Filter(keep, front) + [] == Filter(keep, front);
        assert n !in rest;
      }
      forall i: nat | i < |s| ensures i in at <==> keep(s[i]) {
        if i < n { assert front[i] == s[i]; }
      }
    }
  }

  /** Filtering twice keeps what the conjunction keeps. */
  lemma {:induction false} FilterTwice<T>(first: T -> bool, second: T -> bool, both: T -> bool, s: seq<T>)
    requires forall e | e in s :: both(e) == (first(e) && second(e))
    ensures Filter(second, Filter(first, s)) == Filter(both, s)
  {
    if s != [] {
      FilterTwice(first, second, both, s[1..]);
      var rest := Filter(first, s[1..]);
      if first(s[0]) {
        assert ([s[0]] + rest)[1..] == rest;
      }
    }
  }

  /** list.remove: drop the first equal element. */
  function RemoveFirst<T(==)>(s: seq<T>, e: T): seq<T>
    requires e in s
  {
    if s[0] == e then s[1..] else [s[0]] + RemoveFirst(s[1..], e)
  }

  lemma {:induction false} RemoveFirstAfter<T>(a: seq<T>, e: T, b: seq<T>)
    requires e !in a
    ensures RemoveFirst(a + [e] + b, e) == a + b
  {
    if a == [] {
      assert a + [e] + b == [e] + b;
    } else {
      RemoveFirstAfter(a[1..], e, b);
      assert (a + [e] + b)[1..] == a[1..] + [e] + b;
      assert a == [a[0]] + a[1..];
    }
  }

  /** A flagged element of the snapshot is still present, right after the part already decided. */
  lemma RemoveFlagged<T>(keep: T -> bool, snapshot: seq<T>, i: nat)
    requires i < |snapshot|
    ensures var here := Filter(keep, snapshot[..i]) + snapshot[i..];
            var next := Filter(keep, snapshot[..i + 1]) + snapshot[i + 1..];
            if keep(snapshot[i]) then here == next else snapshot[i] in here && RemoveFirst(here, snapshot[i]) == next
  {
    var e := snapshot[i];
    assert snapshot[..i + 1] == snapshot[..i] + [e];
    FilterConcat(keep, snapshot[..i], [e]);
    FilterOne(keep, e);
    FilterPasses(keep, snapshot[..i]);
    assert snapshot[i..] == [e] + snapshot[i + 1..];
    var kept := Filter(keep, snapshot[..i]);
    assert kept + snapshot[i..] == kept + [e] + snapshot[i + 1..];
    if !keep(e) {
      RemoveFirstAfter(kept, e, snapshot[i + 1..]);
    }
  }
}
