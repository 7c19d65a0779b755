/** The order of the admin home page: every agent of the directory, sorted
    by display name without regard to letter case, agents with the same
    name keeping their directory order (Python's `sorted` is stable). */
module Listing {
  import opened PyStrings
  import opened Records

  /** `(a.get("name") or "").lower()`. */
  function SortKey(a: Agent): (r: string)
    ensures |r| == |a.name|
    ensures forall i :: 0 <= i < |r| ==> r[i] == LowerChar(a.name[i]) && !IsUpper(r[i])
  {
    Lower(a.name)
  }

  /** The agents are in non-decreasing key order (code point order, as
      Python compares strings). */
  ghost predicate Sorted(s: seq<Agent>) {
    forall i, j :: 0 <= i < j < |s| ==> LexLe(SortKey(s[i]), SortKey(s[j]))
  }

  /** The agents of `s` whose key is `k`, in their order in `s`. */
  function WithKey(s: seq<Agent>, k: string): (r: seq<Agent>)
    ensures |r| <= |s|
  {
    if s == [] then []
    else (if SortKey(s[0]) == k then [s[0]] else []) + WithKey(s[1..], k)
  }

  /** `x` placed before the first agent whose key is not below its own. */
  function Insert(x: Agent, s: seq<Agent>): (r: seq<Agent>)
    ensures multiset(r) == multiset(s) + multiset{x}
  {
    if s == [] then [x]
    else if LexLe(SortKey(x), SortKey(s[0])) then [x] + s
    else
      assert s == [s[0]] + s[1..];
      [s[0]] + Insert(x, s[1..])
  }

  /** `sorted(agents, key=SortKey)`: a stable insertion sort. */
  function SortByName(s: seq<Agent>): (r: seq<Agent>)
    ensures multiset(r) == multiset(s)
  {
    if s == [] then []
    else
      assert s == [s[0]] + s[1..];
      Insert(s[0], SortByName(s[1..]))
  }

  lemma {:induction false} WithKeyCons(x: Agent, s: seq<Agent>, k: string)
    ensures WithKey([x] + s, k) == (if SortKey(x) == k then [x] else []) + WithKey(s, k)
  {
    assert ([x] + s)[0] == x;
    assert ([x] + s)[1..] == s;
  }

  lemma {:induction false} SortedTail(s: seq<Agent>)
    requires Sorted(s) && s != []
    ensures Sorted(s[1..])
  {
    forall i, j | 0 <= i < j < |s[1..]|
      ensures LexLe(SortKey(s[1..][i]), SortKey(s[1..][j]))
    {
      assert s[1..][i] == s[i + 1] && s[1..][j] == s[j + 1];
    }
  }

  /** A sorted sequence stays sorted behind an agent whose key is at most
      every key in it. */
  lemma {:induction false} SortedCons(x: Agent, t: seq<Agent>)
    requires Sorted(t)
    requires forall j :: 0 <= j < |t| ==> LexLe(SortKey(x), SortKey(t[j]))
    ensures Sorted([x] + t)
  {
    var r := [x] + t;
    forall i, j | 0 <= i < j < |r|
      ensures LexLe(SortKey(r[i]), SortKey(r[j]))
    {
      assert r[j] == t[j - 1];
      if i > 0 {
        assert r[i] == t[i - 1];
      }
    }
  }

  /** A lower bound of `x` and of every key in `s` bounds every key of
      `Insert(x, s)`. */
  lemma {:induction false} InsertBounded(y: string, x: Agent, s: seq<Agent>)
    requires LexLe(y, SortKey(x))
    requires forall j :: 0 <= j < |s| ==> LexLe(y, SortKey(s[j]))
    ensures forall j :: 0 <= j < |Insert(x, s)| ==> LexLe(y, SortKey(Insert(x, s)[j]))
  {
    var t := Insert(x, s);
    forall j | 0 <= j < |t|
      ensures LexLe(y, SortKey(t[j]))
    {
      assert t[j] in multiset(t);
      if t[j] != x {
        assert t[j] in multiset(s);
        var m :| 0 <= m < |s| && s[m] == t[j];
      }
    }
  }

  /** Inserting into a sorted sequence keeps it sorted. */
  lemma {:induction false} InsertSorted(x: Agent, s: seq<Agent>)
    requires Sorted(s)
    ensures Sorted(Insert(x, s))
  {
    if s == [] {
    } else if LexLe(SortKey(x), SortKey(s[0])) {
      forall j | 0 <= j < |s|
        ensures LexLe(SortKey(x), SortKey(s[j]))
      {
        if j > 0 {
          LexLeTransitive(SortKey(x), SortKey(s[0]), SortKey(s[j]));
        }
      }
      SortedCons(x, s);
    } else {
      SortedTail(s);
      InsertSorted(x, s[1..]);
      LexLeTotal(SortKey(x), SortKey(s[0]));
      assert forall j :: 0 <= j < |s[1..]| ==> LexLe(SortKey(s[0]), SortKey(s[1..][j]));
      InsertBounded(SortKey(s[0]), x, s[1..]);
      SortedCons(s[0], Insert(x, s[1..]));
    }
  }

  /** Inserting into a sorted sequence puts `x` before the agents with its
      key that were already there and leaves the others of each key in
      their order. */
  lemma {:induction false} InsertWithKey(x: Agent, s: seq<Agent>, k: string)
    requires Sorted(s)
    ensures WithKey(Insert(x, s), k) ==
            (if SortKey(x) == k then [x] else []) + WithKey(s, k)
  {
    if s == [] {
      WithKeyCons(x, [], k);
    } else if LexLe(SortKey(x), SortKey(s[0])) {
      WithKeyCons(x, s, k);
    } else {
      LexLeReflexive(SortKey(x));
      SortedTail(s);
      InsertWithKey(x, s[1..], k);
      WithKeyCons(s[0], Insert(x, s[1..]), k);
      WithKeyCons(s[0], s[1..], k);
      assert s == [s[0]] + s[1..];
    }
  }

  /** The listing is in name order. */
  lemma {:induction false} SortByNameSorted(s: seq<Agent>)
    ensures Sorted(SortByName(s))
  {
    if s != [] {
      SortByNameSorted(s[1..]);
      InsertSorted(s[0], SortByName(s[1..]));
    }
  }

  /** The sort is stable: agents sharing a key appear in the listing in the
      order they have in the directory. */
  lemma {:induction false} SortByNameStable(s: seq<Agent>, k: string)
    ensures WithKey(SortByName(s), k) == WithKey(s, k)
  {
    if s != [] {
      SortByNameStable(s[1..], k);
      SortByNameSorted(s[1..]);
      InsertWithKey(s[0], SortByName(s[1..]), k);
      WithKeyCons(s[0], s[1..], k);
      assert s == [s[0]] + s[1..];
    }
  }

  /** The listing holds the agents of the directory, each as often as it
      occurs there, sorted and stable. */
  lemma SortByNameSpec(s: seq<Agent>)
    ensures multiset(SortByName(s)) == multiset(s)
    ensures |SortByName(s)| == |s|
    ensures Sorted(SortByName(s))
    ensures forall k :: WithKey(SortByName(s), k) == WithKey(s, k)
  {
    SortByNameSorted(s);
    assert |SortByName(s)| == |multiset(SortByName(s))|;
    forall k
      ensures WithKey(SortByName(s), k) == WithKey(s, k)
    {
      SortByNameStable(s, k);
    }
  }
}
