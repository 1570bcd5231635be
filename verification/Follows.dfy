/** The follow graph, kept as two tables of lists: whom a user follows, and who follows a user. */
module Follows {
  import opened Wrappers
  import opened Names
  import opened Sequences

  type Table = map<Name, seq<Name>>

  function ListOf(t: Table, user: Name): seq<Name> {
    if user in t then t[user] else []
  }

  // ---------- editing one list ----------

  /** The list without adjacent repetitions. */
  function Compact(s: seq<Name>): (c: seq<Name>)
    ensures |c| <= |s| && (s != [] ==> c != [] && c[|c| - 1] == s[|s| - 1])
  {
    if |s| <= 1 then s
    else if s[|s| - 1] == s[|s| - 2] then Compact(s[..|s| - 1])
    else Compact(s[..|s| - 1]) + [s[|s| - 1]]
  }

  /** What std::unique leaves when its result is thrown away: the compacted list is at the front, but
      the list keeps its length and the old elements at the end. */
  function UniqueInPlace(s: seq<Name>): (u: seq<Name>)
    ensures |u| == |s|
  {
    Compact(s) + s[|Compact(s)|..]
  }

  function RemoveEach(s: seq<Name>, xs: seq<Name>): seq<Name>
    decreases |xs|
  {
    if xs == [] then s else RemoveEach(RemoveFirst(s, xs[0]), xs[1..])
  }

  function Diff(current: seq<Name>, add: seq<Name>, remove: seq<Name>): seq<Name> {
    RemoveEach(UniqueInPlace(current + add), remove)
  }

  method DiffVectors(current: seq<Name>, add: seq<Name>, remove: seq<Name>) returns (result: seq<Name>)
    ensures result == Diff(current, add, remove)
  {
    result := current + add;
    result := Unique(result);
    for i := 0 to |remove|
      invariant RemoveEach(result, remove[i..]) == Diff(current, add, remove)
    {
      var k := IndexOf(result, remove[i]);
      assert remove[i..][1..] == remove[i + 1..];
      if k < |result| {
        result := result[..k] + result[k + 1..];
      }
    }
  }

  /** std::unique: a read position runs ahead of a write position. */
  method Unique(s: seq<Name>) returns (u: seq<Name>)
    ensures u == UniqueInPlace(s)
  {
    u := s;
    if |s| == 0 { return; }
    var dest := 0;
    CompactStart(s);
    for it := 1 to |s|
      invariant Compacting(s, u, dest, it)
    {
      CompactNext(s, u, dest, it);
      if u[dest] != u[it] {
        dest := dest + 1;
        u := u[dest := u[it]];
      }
    }
    CompactEnd(s, u, dest);
  }

  /** u is the compacted first part of s up to dest, and s after it. */
  ghost predicate Compacting(s: seq<Name>, u: seq<Name>, dest: nat, it: nat) {
    && dest < it <= |s| == |u|
    && u[..dest + 1] == Compact(s[..it])
    && u[dest + 1..] == s[dest + 1..]
  }

  lemma CompactStart(s: seq<Name>)
    requires s != []
    ensures Compacting(s, s, 0, 1)
  {
  }

  lemma CompactNext(s: seq<Name>, u: seq<Name>, dest: nat, it: nat)
    requires it < |s| && Compacting(s, u, dest, it)
    ensures u[dest] == u[it] ==> Compacting(s, u, dest, it + 1)
    ensures u[dest] != u[it] ==> Compacting(s, u[dest + 1 := u[it]], dest + 1, it + 1)
  {
    assert s[..it + 1][..it] == s[..it];
    assert u[it] == u[dest + 1..][it - dest - 1] == s[it];
    assert u[dest] == u[..dest + 1][dest] == s[it - 1];
    var u' := u[dest + 1 := u[it]];
    assert u'[..dest + 2] == u[..dest + 1] + [s[it]];
    assert u'[dest + 2..] == u[dest + 1..][1..] == s[dest + 1..][1..];
  }

  lemma CompactEnd(s: seq<Name>, u: seq<Name>, dest: nat)
    requires Compacting(s, u, dest, |s|)
    ensures u == UniqueInPlace(s)
  {
    assert s[..|s|] == s;
    assert u == u[..dest + 1] + u[dest + 1..];
  }

  // ---------- lists without repetition ----------

  ghost predicate Distinct(s: seq<Name>) {
    forall i, j :: 0 <= i < j < |s| ==> s[i] != s[j]
  }

  ghost predicate NoAdjacent(s: seq<Name>) {
    forall i :: 0 < i < |s| ==> s[i - 1] != s[i]
  }

  lemma {:induction false} CompactKeeps(s: seq<Name>)
    ensures NoAdjacent(s) ==> Compact(s) == s
    ensures !NoAdjacent(s) ==> |Compact(s)| < |s|
  {
    if |s| > 1 {
      var init := s[..|s| - 1];
      CompactKeeps(init);
      if s[|s| - 1] != s[|s| - 2] && !NoAdjacent(s) {
        var i :| 0 < i < |s| && s[i - 1] == s[i];
        assert i < |init| && init[i - 1] == init[i];
      }
      assert NoAdjacent(s) ==> NoAdjacent(init) && s == init + [s[|s| - 1]];
    }
  }

  /** The discarded result of std::unique never repairs a list: what comes out has no repetition if
      and only if what went in had none. */
  lemma UniqueIsNoRepair(s: seq<Name>)
    ensures Distinct(UniqueInPlace(s)) <==> Distinct(s)
    ensures Distinct(s) ==> UniqueInPlace(s) == s
  {
    CompactKeeps(s);
    if NoAdjacent(s) {
      assert s + s[|s|..] == s;
    } else {
      var c, u := Compact(s), UniqueInPlace(s);
      assert u[|c| - 1] == c[|c| - 1] == s[|s| - 1] == u[|s| - 1];
      assert !Distinct(u);
    }
  }

  lemma {:induction false} RemoveFirstMembers(s: seq<Name>, x: Name)
    requires Distinct(s)
    ensures Distinct(RemoveFirst(s, x))
    ensures forall y :: y in RemoveFirst(s, x) <==> y in s && y != x
  {
    if s != [] {
      DistinctHead(s[0], s[1..]);
      if s[0] != x {
        RemoveFirstMembers(s[1..], x);
        DistinctHead(s[0], RemoveFirst(s[1..], x));
      }
    }
  }

  lemma DistinctHead(x: Name, s: seq<Name>)
    ensures Distinct([x] + s) <==> x !in s && Distinct(s)
  {
    if Distinct([x] + s) {
      forall i | 0 <= i < |s| ensures x != s[i] { assert ([x] + s)[0] != ([x] + s)[i + 1]; }
      forall i, j | 0 <= i < j < |s| ensures s[i] != s[j] { assert ([x] + s)[i + 1] != ([x] + s)[j + 1]; }
    }
  }

  lemma {:induction false} RemoveEachMembers(s: seq<Name>, xs: seq<Name>)
    requires Distinct(s)
    ensures Distinct(RemoveEach(s, xs))
    ensures forall y :: y in RemoveEach(s, xs) <==> y in s && y !in xs
    decreases |xs|
  {
    if xs != [] {
      RemoveFirstMembers(s, xs[0]);
      RemoveEachMembers(RemoveFirst(s, xs[0]), xs[1..]);
    }
  }

  /** New distinct names go in, removed ones come out, nothing else changes. */
  lemma DiffMembers(current: seq<Name>, add: seq<Name>, remove: seq<Name>)
    requires Distinct(current + add)
    ensures Distinct(Diff(current, add, remove))
    ensures forall y :: y in Diff(current, add, remove) <==> (y in current || y in add) && y !in remove
  {
    UniqueIsNoRepair(current + add);
    RemoveEachMembers(current + add, remove);
  }

  function Without(s: seq<Name>, xs: seq<Name>): seq<Name> {
    if s == [] then [] else (if s[0] in xs then [] else [s[0]]) + Without(s[1..], xs)
  }

  /** It keeps the order: the old list first, then the additions, each without the removed names. */
  lemma DiffKeepsOrder(current: seq<Name>, add: seq<Name>, remove: seq<Name>)
    requires Distinct(current + add)
    ensures Diff(current, add, remove) == Without(current, remove) + Without(add, remove)
  {
    UniqueIsNoRepair(current + add);
    RemoveEachInOrder(current + add, remove);
    WithoutAppend(current, add, remove);
  }

  lemma {:induction false} WithoutAppend(a: seq<Name>, b: seq<Name>, xs: seq<Name>)
    ensures Without(a + b, xs) == Without(a, xs) + Without(b, xs)
  {
    if a == [] {
      assert a + b == b;
    } else {
      var head := if a[0] in xs then [] else [a[0]];
      WithoutAppend(a[1..], b, xs);
      assert (a + b)[0] == a[0] && (a + b)[1..] == a[1..] + b;
      assert head + (Without(a[1..], xs) + Without(b, xs)) == (head + Without(a[1..], xs)) + Without(b, xs);
    }
  }

  lemma {:induction false} RemoveEachInOrder(s: seq<Name>, xs: seq<Name>)
    requires Distinct(s)
    ensures RemoveEach(s, xs) == Without(s, xs)
    decreases |xs|
  {
    if xs == [] {
      WithoutNothing(s);
    } else {
      RemoveFirstMembers(s, xs[0]);
      RemoveEachInOrder(RemoveFirst(s, xs[0]), xs[1..]);
      WithoutFirst(s, xs);
    }
  }

  lemma {:induction false} WithoutNothing(s: seq<Name>)
    ensures Without(s, []) == s
  {
    if s != [] { WithoutNothing(s[1..]); }
  }

  lemma {:induction false} WithoutFirst(s: seq<Name>, xs: seq<Name>)
    requires Distinct(s) && xs != []
    ensures Without(RemoveFirst(s, xs[0]), xs[1..]) == Without(s, xs)
  {
    if s != [] {
      DistinctHead(s[0], s[1..]);
      assert s[0] in xs <==> s[0] == xs[0] || s[0] in xs[1..];
      if s[0] == xs[0] {
        WithoutAbsent(s[1..], xs);
      } else {
        WithoutFirst(s[1..], xs);
      }
    }
  }

  lemma {:induction false} WithoutAbsent(s: seq<Name>, xs: seq<Name>)
    requires xs != [] && xs[0] !in s
    ensures Without(s, xs[1..]) == Without(s, xs)
  {
    if s != [] {
      assert s[0] in xs <==> s[0] in xs[1..];
      WithoutAbsent(s[1..], xs);
    }
  }

  // ---------- the follow action ----------

  datatype Payload = Payload(vaccount: Name, follows: seq<Name>, unfollows: seq<Name>)

  datatype State = State(users: set<Name>, fromTable: Table, toTable: Table, paused: bool)

  function Edit(t: Table, user: Name, add: seq<Name>, remove: seq<Name>): Table {
    t[user := Diff(ListOf(t, user), add, remove)]
  }

  function AddTo(t: Table, v: Name, follows: seq<Name>): Table
    decreases |follows|
  {
    if follows == [] then t else AddTo(Edit(t, follows[0], [v], []), v, follows[1..])
  }

  function OneRemoval(t: Table, v: Name, f: Name): Table {
    if f in t then Edit(t, f, [], [v]) else t
  }

  function RemoveFrom(t: Table, v: Name, unfollows: seq<Name>): Table
    decreases |unfollows|
  {
    if unfollows == [] then t else RemoveFrom(OneRemoval(t, v, unfollows[0]), v, unfollows[1..])
  }

  predicate AllUsers(users: set<Name>, names: seq<Name>) {
    forall i :: 0 <= i < |names| ==> names[i] in users
  }

  predicate CanFollow(s: State, signers: set<Name>, p: Payload) {
    && !s.paused && p.vaccount in signers && p.vaccount in s.users
    && AllUsers(s.users, p.follows) && AllUsers(s.users, p.unfollows)
  }

  function Step(s: State, signers: set<Name>, p: Payload): Option<State> {
    if CanFollow(s, signers, p)
    then Some(s.(fromTable := Edit(s.fromTable, p.vaccount, p.follows, p.unfollows),
                 toTable := RemoveFrom(AddTo(s.toTable, p.vaccount, p.follows), p.vaccount, p.unfollows)))
    else None
  }

  // ---------- the two tables agree ----------

  ghost predicate AllDistinct(t: Table) {
    forall u :: u in t ==> Distinct(t[u])
  }

  ghost predicate Symmetric(s: State) {
    forall a: Name, b: Name :: b in ListOf(s.fromTable, a) <==> a in ListOf(s.toTable, b)
  }

  ghost predicate Inv(s: State) {
    AllDistinct(s.fromTable) && AllDistinct(s.toTable) && Symmetric(s)
  }

  /** The payload follows distinct users, none of whom is followed already. */
  ghost predicate OnlyNew(s: State, p: Payload) {
    Distinct(p.follows) && forall b :: b in p.follows ==> b !in ListOf(s.fromTable, p.vaccount)
  }

  lemma EditMembers(t: Table, user: Name, add: seq<Name>, remove: seq<Name>)
    requires AllDistinct(t) && Distinct(ListOf(t, user) + add)
    ensures AllDistinct(Edit(t, user, add, remove))
    ensures forall a: Name ::
      a in ListOf(Edit(t, user, add, remove), user) <==> (a in ListOf(t, user) || a in add) && a !in remove
    ensures forall b: Name :: b != user ==> ListOf(Edit(t, user, add, remove), b) == ListOf(t, b)
  {
    DiffMembers(ListOf(t, user), add, remove);
    assert ListOf(Edit(t, user, add, remove), user) == Diff(ListOf(t, user), add, remove);
  }

  lemma DistinctAppend(a: seq<Name>, b: seq<Name>)
    requires Distinct(a) && Distinct(b) && forall x :: x in b ==> x !in a
    ensures Distinct(a + b)
  {
    var s := a + b;
    forall i, j | 0 <= i < j < |s| ensures s[i] != s[j] {
      if i < |a| <= j { assert s[j] == b[j - |a|] && s[j] in b && s[i] in a; }
    }
  }

  lemma {:induction false} AddToMembers(t: Table, v: Name, follows: seq<Name>)
    requires AllDistinct(t) && Distinct(follows)
    requires forall b :: b in follows ==> v !in ListOf(t, b)
    ensures AllDistinct(AddTo(t, v, follows))
    ensures forall b: Name, a: Name ::
      a in ListOf(AddTo(t, v, follows), b) <==> a in ListOf(t, b) || (a == v && b in follows)
    decreases |follows|
  {
    if follows != [] {
      var f := follows[0];
      DistinctAppend(ListOf(t, f), [v]);
      EditMembers(t, f, [v], []);
      assert f !in follows[1..] && forall b :: b in follows <==> b == f || b in follows[1..];
      AddToMembers(Edit(t, f, [v], []), v, follows[1..]);
    }
  }

  lemma {:induction false} RemoveFromMembers(t: Table, v: Name, unfollows: seq<Name>)
    requires AllDistinct(t)
    ensures AllDistinct(RemoveFrom(t, v, unfollows))
    ensures forall b: Name, a: Name ::
      a in ListOf(RemoveFrom(t, v, unfollows), b) <==> a in ListOf(t, b) && !(a == v && b in unfollows)
    decreases |unfollows|
  {
    if unfollows != [] {
      var f := unfollows[0];
      if f in t {
        assert t[f] + [] == t[f];
        EditMembers(t, f, [], [v]);
      }
      assert forall b :: b in unfollows <==> b == f || b in unfollows[1..];
      var next := if f in t then Edit(t, f, [], [v]) else t;
      assert forall b: Name, a: Name :: a in ListOf(next, b) <==> a in ListOf(t, b) && !(a == v && b == f);
      RemoveFromMembers(next, v, unfollows[1..]);
    }
  }

  /** A payload of new names keeps the tables symmetric and free of repetition, and the list of the
      user becomes the old one plus the follows, minus the unfollows. */
  lemma FollowKeepsInv(s: State, signers: set<Name>, p: Payload)
    requires Inv(s) && OnlyNew(s, p) && Step(s, signers, p).Some?
    ensures Inv(Step(s, signers, p).value)
    ensures forall b: Name ::
      b in ListOf(Step(s, signers, p).value.fromTable, p.vaccount)
      <==> (b in ListOf(s.fromTable, p.vaccount) || b in p.follows) && b !in p.unfollows
  {
    var s', v := Step(s, signers, p).value, p.vaccount;
    DistinctAppend(ListOf(s.fromTable, v), p.follows);
    EditMembers(s.fromTable, v, p.follows, p.unfollows);
    AddToMembers(s.toTable, v, p.follows);
    RemoveFromMembers(AddTo(s.toTable, v, p.follows), v, p.unfollows);
    forall a: Name, b: Name ensures b in ListOf(s'.fromTable, a) <==> a in ListOf(s'.toTable, b) {
      assert b in ListOf(s.fromTable, a) <==> a in ListOf(s.toTable, b);
    }
  }

  /** For a payload that only follows, the condition is exact. */
  lemma FollowNeedsNewNames(s: State, signers: set<Name>, p: Payload)
    requires Inv(s) && p.unfollows == [] && Step(s, signers, p).Some?
    ensures Inv(Step(s, signers, p).value) <==> OnlyNew(s, p)
  {
    var followed := ListOf(s.fromTable, p.vaccount);
    UniqueIsNoRepair(followed + p.follows);
    if OnlyNew(s, p) {
      FollowKeepsInv(s, signers, p);
    } else if Distinct(followed + p.follows) {
      DistinctParts(followed, p.follows);
    } else {
      assert p.vaccount in Step(s, signers, p).value.fromTable;
    }
  }

  lemma DistinctParts(a: seq<Name>, b: seq<Name>)
    requires Distinct(a + b)
    ensures Distinct(b) && forall x :: x in b ==> x !in a
  {
    forall i, j | 0 <= i < j < |b| ensures b[i] != b[j] {
      assert (a + b)[|a| + i] != (a + b)[|a| + j];
    }
    forall i, j | 0 <= i < |a| && 0 <= j < |b| ensures a[i] != b[j] {
      assert (a + b)[i] != (a + b)[|a| + j];
    }
  }

  // ---------- the exact condition, for every payload ----------

  lemma HeadCounts(xs: seq<Name>)
    requires xs != []
    ensures multiset(xs) == multiset{xs[0]} + multiset(xs[1..])
  {
    assert xs == [xs[0]] + xs[1..];
  }

  lemma {:induction false} RemoveEachCounts(s: seq<Name>, xs: seq<Name>)
    ensures multiset(RemoveEach(s, xs)) == multiset(s) - multiset(xs)
    decreases |xs|
  {
    if xs != [] {
      RemoveFirstCounts(s, xs[0]);
      RemoveEachCounts(RemoveFirst(s, xs[0]), xs[1..]);
      HeadCounts(xs);
    }
  }

  lemma {:induction false} RemoveFirstCounts(s: seq<Name>, x: Name)
    ensures multiset(RemoveFirst(s, x)) == multiset(s) - multiset{x}
  {
    if s != [] {
      assert s == [s[0]] + s[1..];
      if s[0] != x { RemoveFirstCounts(s[1..], x); }
    }
  }

  /** The elements that equal the one before them, as often as they do. */
  function Repeats(s: seq<Name>): multiset<Name> {
    if |s| <= 1 then multiset{}
    else Repeats(s[..|s| - 1]) + if s[|s| - 1] == s[|s| - 2] then multiset{s[|s| - 1]} else multiset{}
  }

  /** The elements that the discarded compaction leaves at the end a second time: as many as repeat. */
  function LeftOver(s: seq<Name>): multiset<Name> {
    RepeatsAreFew(s);
    multiset(s[|s| - |Repeats(s)|..])
  }

  lemma RepeatsAreFew(s: seq<Name>)
    ensures |Compact(s)| == |s| - |Repeats(s)|
  {
    CompactCounts(s);
    assert |multiset(s)| == |multiset(Compact(s))| + |Repeats(s)|;
  }

  lemma {:induction false} CompactCounts(s: seq<Name>)
    ensures multiset(s) == multiset(Compact(s)) + Repeats(s)
  {
    if |s| > 1 {
      var (init, last) := (s[..|s| - 1], s[|s| - 1]);
      CompactCounts(init);
      assert s == init + [last];
      assert multiset(s) == multiset(init) + multiset{last};
    }
  }

  /** What the compaction in place does to a list: the repeats go, the last elements come instead. */
  lemma UniqueCounts(s: seq<Name>)
    ensures multiset(UniqueInPlace(s)) == multiset(s) - Repeats(s) + LeftOver(s)
  {
    RepeatsAreFew(s);
    CompactCounts(s);
  }

  lemma DistinctIffCounts(s: seq<Name>)
    ensures Distinct(s) <==> forall y: Name :: multiset(s)[y] <= 1
  {
    if !Distinct(s) {
      var i, j :| 0 <= i < j < |s| && s[i] == s[j];
      assert s == s[..i] + [s[i]] + s[i + 1..j] + [s[j]] + s[j + 1..];
      assert multiset(s)[s[i]] >= 2;
    } else {
      DistinctCounts(s);
    }
  }

  lemma {:induction false} DistinctCounts(s: seq<Name>)
    requires Distinct(s)
    ensures forall y: Name :: multiset(s)[y] <= 1
  {
    if s != [] {
      assert s == [s[0]] + s[1..];
      assert s[0] !in s[1..];
      DistinctCounts(s[1..]);
    }
  }

  /** d followed by n copies of v. */
  function Tail(d: seq<Name>, v: Name, n: nat): seq<Name> {
    if n == 0 then d else Tail(d, v, n - 1) + [v]
  }

  /** A list without repetition, followed by copies of one name. */
  ghost predicate Tailed(s: seq<Name>, v: Name) {
    exists d: seq<Name>, n: nat :: Distinct(d) && s == Tail(d, v, n)
  }

  lemma {:induction false} TailAt(d: seq<Name>, v: Name, n: nat)
    ensures |Tail(d, v, n)| == |d| + n && Tail(d, v, n)[..|d|] == d
    ensures forall i :: |d| <= i < |d| + n ==> Tail(d, v, n)[i] == v
  {
    if n != 0 { TailAt(d, v, n - 1); }
  }

  ghost predicate FlatFrom(s: seq<Name>, k: nat)
    requires 1 <= k <= |s|
  {
    forall i :: k <= i < |s| ==> s[i] == s[k - 1]
  }

  /** Compacting drops copies of the last element at the end. */
  lemma {:induction false} CompactFlatEnd(s: seq<Name>, k: nat)
    requires 1 <= k <= |s| && NoAdjacent(s[..k]) && FlatFrom(s, k)
    ensures Compact(s) == s[..k]
    decreases |s|
  {
    if k == |s| {
      assert s[..k] == s;
      CompactKeeps(s);
    } else {
      var init := s[..|s| - 1];
      assert init[..k] == s[..k];
      assert s[|s| - 2] == s[k - 1] by { if k <= |s| - 2 { assert s[|s| - 2] == s[k - 1]; } }
      CompactFlatEnd(init, k);
    }
  }

  lemma FlatEndKept(s: seq<Name>, d: seq<Name>, v: Name)
    requires Distinct(d) && |d| < |s| && s[..|d|] == d
    requires forall i :: |d| <= i < |s| ==> s[i] == v
    ensures UniqueInPlace(s) == s
  {
    if d != [] && d[|d| - 1] == v {
      assert s[|d| - 1] == v;
      CompactFlatEnd(s, |d|);
    } else {
      assert s[..|d| + 1] == d + [v];
      CompactFlatEnd(s, |d| + 1);
    }
    assert s == s[..|Compact(s)|] + s[|Compact(s)|..];
  }

  /** So repetitions at the very end stay as they are. */
  lemma UniqueKeepsTail(d: seq<Name>, v: Name, n: nat)
    requires Distinct(d)
    ensures UniqueInPlace(Tail(d, v, n)) == Tail(d, v, n)
  {
    var s := Tail(d, v, n);
    TailAt(d, v, n);
    if n == 0 {
      UniqueIsNoRepair(s);
    } else {
      FlatEndKept(s, d, v);
    }
  }

  lemma TailAdd(s: seq<Name>, v: Name)
    requires Tailed(s, v)
    ensures Tailed(Diff(s, [v], []), v) && multiset(Diff(s, [v], [])) == multiset(s) + multiset{v}
  {
    var d: seq<Name>, n: nat :| Distinct(d) && s == Tail(d, v, n);
    assert s + [v] == Tail(d, v, n + 1);
    UniqueKeepsTail(d, v, n + 1);
  }

  lemma TailRemove(s: seq<Name>, v: Name)
    requires Tailed(s, v)
    ensures Tailed(Diff(s, [], [v]), v) && multiset(Diff(s, [], [v])) == multiset(s) - multiset{v}
  {
    var d: seq<Name>, n: nat :| Distinct(d) && s == Tail(d, v, n);
    assert s + [] == s;
    UniqueKeepsTail(d, v, n);
    RemoveFirstCounts(s, v);
    assert RemoveEach(s, [v]) == RemoveFirst(s, v);
    if v in d {
      RemoveBeforeTail(d, v, n);
      RemoveFirstMembers(d, v);
    } else {
      RemoveInTail(d, v, n);
    }
  }

  lemma {:induction false} RemoveFirstSnoc(s: seq<Name>, x: Name, v: Name)
    ensures RemoveFirst(s + [x], v) == if v in s then RemoveFirst(s, v) + [x] else if x == v then s else s + [x]
  {
    if s != [] {
      assert (s + [x])[1..] == s[1..] + [x];
      RemoveFirstSnoc(s[1..], x, v);
    }
  }

  lemma {:induction false} RemoveBeforeTail(d: seq<Name>, v: Name, n: nat)
    requires v in d
    ensures v in Tail(d, v, n) && RemoveFirst(Tail(d, v, n), v) == Tail(RemoveFirst(d, v), v, n)
  {
    if n != 0 {
      RemoveBeforeTail(d, v, n - 1);
      RemoveFirstSnoc(Tail(d, v, n - 1), v, v);
    }
  }

  lemma {:induction false} RemoveInTail(d: seq<Name>, v: Name, n: nat)
    requires v !in d
    ensures RemoveFirst(Tail(d, v, n), v) == Tail(d, v, Minus(n, 1))
  {
    if n == 0 {
      RemoveAt(d, v, |d|);
    } else {
      RemoveInTail(d, v, n - 1);
      RemoveFirstSnoc(Tail(d, v, n - 1), v, v);
      if n > 1 { TailAt(d, v, n - 1); }
    }
  }

  ghost predicate AllTailed(t: Table, v: Name) {
    forall b: Name :: Tailed(ListOf(t, b), v)
  }

  /** How often a is on b's list. */
  ghost function Count(t: Table, b: Name, a: Name): nat {
    multiset(ListOf(t, b))[a]
  }

  lemma EditAdds(t: Table, v: Name, f: Name)
    requires AllTailed(t, v)
    ensures AllTailed(Edit(t, f, [v], []), v)
    ensures forall b: Name, a: Name ::
      Count(Edit(t, f, [v], []), b, a) == Count(t, b, a) + if a == v && b == f then 1 else 0
  {
    var t' := Edit(t, f, [v], []);
    TailAdd(ListOf(t, f), v);
    assert ListOf(t', f) == Diff(ListOf(t, f), [v], []);
    assert forall x: Name :: x != f ==> ListOf(t', x) == ListOf(t, x);
    forall b: Name ensures Tailed(ListOf(t', b), v) { }
  }

  lemma {:induction false} AddToCounts(t: Table, v: Name, follows: seq<Name>, b: Name, a: Name)
    requires AllTailed(t, v)
    ensures AllTailed(AddTo(t, v, follows), v)
    ensures Count(AddTo(t, v, follows), b, a) == Count(t, b, a) + if a == v then multiset(follows)[b] else 0
    decreases |follows|
  {
    if follows != [] {
      EditAdds(t, v, follows[0]);
      AddToCounts(Edit(t, follows[0], [v], []), v, follows[1..], b, a);
      HeadCounts(follows);
    }
  }

  function Minus(a: nat, b: nat): nat { if a < b then 0 else a - b }

  lemma RemovalTakes(t: Table, v: Name, f: Name)
    requires AllTailed(t, v)
    ensures AllTailed(OneRemoval(t, v, f), v)
    ensures forall b: Name, a: Name ::
      Count(OneRemoval(t, v, f), b, a) == Minus(Count(t, b, a), if a == v && b == f then 1 else 0)
  {
    TailRemove(ListOf(t, f), v);
    assert forall x: Name :: x != f ==> ListOf(OneRemoval(t, v, f), x) == ListOf(t, x);
  }

  lemma {:induction false} RemoveFromCounts(t: Table, v: Name, unfollows: seq<Name>, b: Name, a: Name)
    requires AllTailed(t, v)
    ensures Count(RemoveFrom(t, v, unfollows), b, a)
         == if a == v then Minus(Count(t, b, a), multiset(unfollows)[b]) else Count(t, b, a)
    decreases |unfollows|
  {
    if unfollows != [] {
      RemovalTakes(t, v, unfollows[0]);
      RemoveFromCounts(OneRemoval(t, v, unfollows[0]), v, unfollows[1..], b, a);
      HeadCounts(unfollows);
    }
  }

  /** The list of the user with the follows at its end. */
  function Listed(s: State, p: Payload): seq<Name> {
    ListOf(s.fromTable, p.vaccount) + p.follows
  }

  /** What the unfollows leave of it, counted: after the compaction, and without one. */
  ghost function Compacted(s: State, p: Payload): multiset<Name> {
    multiset(UniqueInPlace(Listed(s, p))) - multiset(p.unfollows)
  }

  ghost function Plain(s: State, p: Payload): multiset<Name> {
    multiset(Listed(s, p)) - multiset(p.unfollows)
  }

  lemma FromAfterStep(s: State, signers: set<Name>, p: Payload, b: Name, a: Name)
    requires Step(s, signers, p).Some?
    ensures Count(Step(s, signers, p).value.fromTable, a, b)
         == if a == p.vaccount then Compacted(s, p)[b] else Count(s.fromTable, a, b)
  {
    RemoveEachCounts(UniqueInPlace(Listed(s, p)), p.unfollows);
  }

  lemma ToAfterStep(s: State, p: Payload, b: Name, a: Name)
    requires Inv(s)
    ensures Count(RemoveFrom(AddTo(s.toTable, p.vaccount, p.follows), p.vaccount, p.unfollows), b, a)
         == if a == p.vaccount then Plain(s, p)[b] else Count(s.toTable, b, a)
  {
    var v := p.vaccount;
    DistinctIsTailed(s.toTable, v);
    AddToCounts(s.toTable, v, p.follows, b, a);
    RemoveFromCounts(AddTo(s.toTable, v, p.follows), v, p.unfollows, b, a);
    CountsAgree(s, v, b);
    PlainCounts(s, p, b);
  }

  lemma CountsAgree(s: State, a: Name, b: Name)
    requires Inv(s)
    ensures Count(s.fromTable, a, b) == Count(s.toTable, b, a)
  {
    InvIffCounts(s);
  }

  lemma PlainCounts(s: State, p: Payload, b: Name)
    ensures Plain(s, p)[b]
         == Minus(Count(s.fromTable, p.vaccount, b) + multiset(p.follows)[b], multiset(p.unfollows)[b])
  {
    assert multiset(Listed(s, p)) == multiset(ListOf(s.fromTable, p.vaccount)) + multiset(p.follows);
  }

  lemma DistinctIsTailed(t: Table, v: Name)
    requires AllDistinct(t)
    ensures AllTailed(t, v)
  {
    forall x: Name ensures Tailed(ListOf(t, x), v) {
      assert ListOf(t, x) == Tail(ListOf(t, x), v, 0);
    }
  }

  /** The name is listed at most once more than it is unfollowed, and the compaction either takes as
      many of it as it leaves over, or the unfollows take all of it with and without the compaction. */
  ghost predicate Settled(s: State, p: Payload, b: Name) {
    var (all, gone, extra) := (Listed(s, p), Repeats(Listed(s, p))[b], LeftOver(Listed(s, p))[b]);
    var (listed, unfollowed) := (multiset(all)[b], multiset(p.unfollows)[b]);
    && listed <= unfollowed + 1
    && (gone == extra || (listed <= unfollowed && listed + extra <= unfollowed + gone))
  }

  lemma SettledIff(s: State, p: Payload, b: Name)
    ensures Settled(s, p, b) <==> Compacted(s, p)[b] == Plain(s, p)[b] <= 1
  {
    var all := Listed(s, p);
    UniqueCount(all, b);
    MinusCount(multiset(UniqueInPlace(all)), multiset(p.unfollows), b);
    MinusCount(multiset(all), multiset(p.unfollows), b);
  }

  lemma UniqueCount(s: seq<Name>, b: Name)
    ensures multiset(UniqueInPlace(s))[b] + Repeats(s)[b] == multiset(s)[b] + LeftOver(s)[b]
  {
    UniqueCounts(s);
    CompactCounts(s);
    AddCount(multiset(Compact(s)), Repeats(s), b);
    AddCount(multiset(Compact(s)), LeftOver(s), b);
  }

  lemma AddCount(x: multiset<Name>, y: multiset<Name>, b: Name)
    ensures (x + y)[b] == x[b] + y[b] && x + y - y == x
    ensures x + y - x == y
  {
  }

  lemma MinusCount(x: multiset<Name>, y: multiset<Name>, b: Name)
    ensures (x - y)[b] == Minus(x[b], y[b])
  {
  }

  /** Exactly when a payload keeps the two tables in order, whatever it follows and unfollows: every
      name must be settled, by what repeats in the list, what is left over at its end, and how often
      the payload unfollows it. */
  lemma FollowKeepsInvIff(s: State, signers: set<Name>, p: Payload)
    requires Inv(s) && Step(s, signers, p).Some?
    ensures Inv(Step(s, signers, p).value) <==> forall b: Name :: Settled(s, p, b)
  {
    var s' := Step(s, signers, p).value;
    forall b: Name, a: Name
      ensures Count(s'.fromTable, a, b) == if a == p.vaccount then Compacted(s, p)[b] else Count(s.fromTable, a, b)
      ensures Count(s'.toTable, b, a) == if a == p.vaccount then Plain(s, p)[b] else Count(s.toTable, b, a)
    {
      FromAfterStep(s, signers, p, b, a);
      ToAfterStep(s, p, b, a);
    }
    InvAfterEdit(s, s', p.vaccount, Compacted(s, p), Plain(s, p));
    forall b: Name ensures Settled(s, p, b) <==> Compacted(s, p)[b] == Plain(s, p)[b] <= 1 {
      SettledIff(s, p, b);
    }
  }

  lemma InvAfterEdit(s: State, s': State, v: Name, followed: multiset<Name>, followers: multiset<Name>)
    requires Inv(s)
    requires forall a: Name, b: Name ::
      Count(s'.fromTable, a, b) == if a == v then followed[b] else Count(s.fromTable, a, b)
    requires forall a: Name, b: Name ::
      Count(s'.toTable, b, a) == if a == v then followers[b] else Count(s.toTable, b, a)
    ensures Inv(s') <==> forall b: Name :: followed[b] == followers[b] <= 1
  {
    InvIffCounts(s);
    InvIffCounts(s');
    if Inv(s') {
      forall b: Name ensures followed[b] == followers[b] <= 1 {
        assert Count(s'.fromTable, v, b) == Count(s'.toTable, b, v) <= 1;
      }
    }
  }

  lemma AllDistinctIffCounts(t: Table)
    ensures AllDistinct(t) <==> forall u: Name, x: Name :: Count(t, u, x) <= 1
  {
    if AllDistinct(t) {
      forall u: Name, x: Name ensures Count(t, u, x) <= 1 {
        DistinctIffCounts(ListOf(t, u));
        assert multiset(ListOf(t, u))[x] <= 1;
      }
    } else {
      var u :| u in t && !Distinct(t[u]);
      DistinctIffCounts(t[u]);
      var x: Name :| multiset(t[u])[x] > 1;
      assert Count(t, u, x) > 1;
    }
  }

  /** In order means: either table counts a pair as often as the other, and at most once. */
  lemma InvIffCounts(s: State)
    ensures Inv(s) <==> forall a: Name, b: Name :: Count(s.fromTable, a, b) == Count(s.toTable, b, a) <= 1
  {
    AllDistinctIffCounts(s.fromTable);
    AllDistinctIffCounts(s.toTable);
    assert forall t: Table, u: Name, x: Name :: Count(t, u, x) > 0 <==> x in ListOf(t, u);
  }

  datatype Call =
    | Follow(signers: set<Name>, payload: Payload)
    | SignUp(user: Name)
    | Pause(auth: set<Name>, on: bool)

  /** An aborted action changes nothing. */
  function Next(s: State, call: Call): State {
    match call
    case SignUp(user) => s.(users := s.users + {user})
    case Pause(auth, on) => if PHOENIX_ACCOUNT in auth then s.(paused := on) else s
    case Follow(signers, p) =>
      match Step(s, signers, p)
      case Some(s') => s'
      case None => s
  }

  function Run(s: State, calls: seq<Call>): State
    decreases |calls|
  {
    if calls == [] then s else Run(Next(s, calls[0]), calls[1..])
  }

  const EMPTY_FOLLOWS := State({}, map[], map[], false)

  ghost predicate AllOnlyNew(s: State, calls: seq<Call>)
    decreases |calls|
  {
    calls != [] ==>
      (calls[0].Follow? ==> OnlyNew(s, calls[0].payload)) && AllOnlyNew(Next(s, calls[0]), calls[1..])
  }

  /** In every run whose payloads follow only new names, the two tables agree. */
  lemma {:induction false} RunKeepsInv(s: State, calls: seq<Call>)
    requires Inv(s) && AllOnlyNew(s, calls)
    ensures Inv(Run(s, calls))
    decreases |calls|
  {
    if calls != [] {
      if calls[0].Follow? && Step(s, calls[0].signers, calls[0].payload).Some? {
        FollowKeepsInv(s, calls[0].signers, calls[0].payload);
      }
      RunKeepsInv(Next(s, calls[0]), calls[1..]);
    }
  }

  ghost predicate AllSettled(s: State, calls: seq<Call>)
    decreases |calls|
  {
    calls != [] ==>
      && (calls[0].Follow? && CanFollow(s, calls[0].signers, calls[0].payload) ==>
            forall b: Name :: Settled(s, calls[0].payload, b))
      && AllSettled(Next(s, calls[0]), calls[1..])
  }

  ghost predicate AlwaysInv(s: State, calls: seq<Call>)
    decreases |calls|
  {
    Inv(s) && (calls != [] ==> AlwaysInv(Next(s, calls[0]), calls[1..]))
  }

  /** For any run at all: the tables agree after each of its calls exactly when each finished payload is
      settled where it is made. */
  lemma {:induction false} RunKeepsInvIff(s: State, calls: seq<Call>)
    requires Inv(s)
    ensures AlwaysInv(s, calls) <==> AllSettled(s, calls)
    decreases |calls|
  {
    if calls != [] {
      var next := Next(s, calls[0]);
      if calls[0].Follow? && CanFollow(s, calls[0].signers, calls[0].payload) {
        FollowKeepsInvIff(s, calls[0].signers, calls[0].payload);
      } else {
        assert Inv(next);
      }
      if Inv(next) { RunKeepsInvIff(next, calls[1..]); }
    }
  }

  lemma CompactRepeated(b: Name, c: Name)
    requires b != c
    ensures UniqueInPlace([b]) == [b] && UniqueInPlace([b, b]) == [b, b] && UniqueInPlace([b, b, c]) == [b, c, c]
  {
    assert [b, b][..1] == [b] && [b, b, c][..2] == [b, b];
    assert Compact([b, b]) == [b] && Compact([b, b, c]) == [b, c];
  }

  lemma TwoFollowersAdded(t: Table, a: Name, b: Name, c: Name)
    requires b != c && a != b && ListOf(t, b) == []
    ensures ListOf(AddTo(t, a, [b, b, c]), b) == [a, a]
  {
    CompactRepeated(a, b);
    var t1 := Edit(t, b, [a], []);
    assert [] + [a] == [a] && [a] + [a] == [a, a];
    assert t1[b] == [a];
    var t2 := Edit(t1, b, [a], []);
    assert t2[b] == [a, a];
    var t3 := Edit(t2, c, [a], []);
    assert [b, b, c][1..] == [b, c] && [b, c][1..] == [c] && [c][1..] == [];
    assert AddTo(t3, a, []) == t3;
    assert AddTo(t2, a, [c]) == t3;
    assert AddTo(t1, a, [b, c]) == t3;
  }

  /** A repeated name breaks the symmetry: a follows b, b, c and unfollows b. Then a is listed as a
      follower of b, whom a's own list does not contain. */
  lemma RepeatedFollowBreaksSymmetry(a: Name, b: Name, c: Name)
    requires b != c && a != b
    ensures
      var s0, p := State({a, b, c}, map[], map[], false), Payload(a, [b, b, c], [b]);
      && Inv(s0) && Step(s0, {a}, p).Some?
      && a in ListOf(Step(s0, {a}, p).value.toTable, b)
      && b !in ListOf(Step(s0, {a}, p).value.fromTable, a)
  {
    OwnListLosesName(a, b, c);
    FollowerStays(a, b, c);
  }

  lemma OwnListLosesName(a: Name, b: Name, c: Name)
    requires b != c
    ensures Diff([], [b, b, c], [b]) == [c, c]
  {
    CompactRepeated(b, c);
    assert [] + [b, b, c] == [b, b, c] && [b][1..] == [];
    assert RemoveFirst([b, c, c], b) == [c, c];
    assert RemoveEach([c, c], []) == [c, c];
  }

  lemma FollowerStays(a: Name, b: Name, c: Name)
    requires b != c && a != b
    ensures ListOf(RemoveFrom(AddTo(map[], a, [b, b, c]), a, [b]), b) == [a]
  {
    CompactRepeated(a, b);
    TwoFollowersAdded(map[], a, b, c);
    var t := AddTo(map[], a, [b, b, c]);
    assert [a, a] + [] == [a, a] && [a][1..] == [] && [b][1..] == [];
    assert RemoveFirst([a, a], a) == [a];
    assert RemoveEach([a], []) == [a];
    var cut := Edit(t, b, [], [a]);
    assert RemoveFrom(cut, a, []) == cut;
  }

  // ---------- whose signature changes what ----------

  lemma FollowSucceedsIff(s: State, signers: set<Name>, p: Payload)
    ensures Step(s, signers, p).Some?
       <==> && !s.paused && p.vaccount in signers && p.vaccount in s.users
            && (forall b :: b in p.follows ==> b in s.users) && forall b :: b in p.unfollows ==> b in s.users
  {
  }

  /** In every run a user's list stays as it is until the user signs a call, */
  lemma {:induction false} SilentListStays(s: State, calls: seq<Call>, a: Name)
    requires forall i :: 0 <= i < |calls| && calls[i].Follow? ==> a !in calls[i].signers
    ensures ListOf(Run(s, calls).fromTable, a) == ListOf(s.fromTable, a)
    decreases |calls|
  {
    if calls != [] {
      assert calls[0].Follow? ==> a !in calls[0].signers;
      SilentListStays(Next(s, calls[0]), calls[1..], a);
    }
  }

  /** and nobody else adds or removes that user as a follower. */
  lemma OthersStayFollowers(s: State, signers: set<Name>, p: Payload, a: Name, b: Name)
    requires Inv(s) && Step(s, signers, p).Some? && a !in signers
    ensures Count(Step(s, signers, p).value.toTable, b, a) == Count(s.toTable, b, a)
    ensures Count(Step(s, signers, p).value.fromTable, a, b) == Count(s.fromTable, a, b)
  {
    ToAfterStep(s, p, b, a);
    FromAfterStep(s, signers, p, b, a);
  }

  // ---------- the code ----------

  /** One round of the loop over the followed users. */
  lemma NextFollow(users: set<Name>, t: Table, v: Name, follows: seq<Name>, i: nat)
    requires i < |follows| && AllUsers(users, follows[..i]) && follows[i] in users
    ensures AllUsers(users, follows[..i + 1])
    ensures AddTo(t, v, follows[i..]) == AddTo(Edit(t, follows[i], [v], []), v, follows[i + 1..])
  {
    assert follows[i..][0] == follows[i] && follows[i..][1..] == follows[i + 1..];
    assert follows[..i + 1] == follows[..i] + [follows[i]];
  }

  lemma NextUnfollow(users: set<Name>, t: Table, v: Name, unfollows: seq<Name>, i: nat)
    requires i < |unfollows| && AllUsers(users, unfollows[..i]) && unfollows[i] in users
    ensures AllUsers(users, unfollows[..i + 1])
    ensures RemoveFrom(t, v, unfollows[i..]) == RemoveFrom(OneRemoval(t, v, unfollows[i]), v, unfollows[i + 1..])
  {
    assert unfollows[i..][0] == unfollows[i] && unfollows[i..][1..] == unfollows[i + 1..];
    assert unfollows[..i + 1] == unfollows[..i] + [unfollows[i]];
  }

  /** The loop over the followed users; None if one of them is not a user. */
  method AddFollower(users: set<Name>, t: Table, v: Name, follows: seq<Name>) returns (result: Option<Table>)
    ensures result == if AllUsers(users, follows) then Some(AddTo(t, v, follows)) else None
  {
    var t' := t;
    for i := 0 to |follows|
      invariant AllUsers(users, follows[..i])
      invariant AddTo(t', v, follows[i..]) == AddTo(t, v, follows)
    {
      var f := follows[i];
      if f !in users { return None; }
      var list := DiffVectors(ListOf(t', f), [v], []);
      NextFollow(users, t', v, follows, i);
      t' := t'[f := list];
    }
    assert follows[..|follows|] == follows;
    result := Some(t');
  }

  method RemoveFollower(users: set<Name>, t: Table, v: Name, unfollows: seq<Name>) returns (result: Option<Table>)
    ensures result == if AllUsers(users, unfollows) then Some(RemoveFrom(t, v, unfollows)) else None
  {
    var t' := t;
    for i := 0 to |unfollows|
      invariant AllUsers(users, unfollows[..i])
      invariant RemoveFrom(t', v, unfollows[i..]) == RemoveFrom(t, v, unfollows)
    {
      var f := unfollows[i];
      if f !in users { return None; }
      NextUnfollow(users, t', v, unfollows, i);
      if f in t' {
        var list := DiffVectors(t'[f], [], [v]);
        t' := t'[f := list];
      }
    }
    assert unfollows[..|unfollows|] == unfollows;
    result := Some(t');
  }

  class FollowContract {
    var users: set<Name>
    var fromTable: Table
    var toTable: Table
    var paused: bool

    ghost function Now(): State
      reads this
    {
      State(users, fromTable, toTable, paused)
    }

    constructor ()
      ensures Now() == EMPTY_FOLLOWS
    {
      users, fromTable, toTable, paused := {}, map[], map[], false;
    }

    method FollowAction(signers: set<Name>, p: Payload) returns (r: Result<Unit>)
      modifies `fromTable, `toTable
      ensures match Step(old(Now()), signers, p)
        case Some(after) => r.Ok? && Now() == after
        case None => r.Aborted? && Now() == old(Now())
    {
      if paused { return Aborted("contract is currently under maintenance. Check back soon"); }
      if p.vaccount !in signers { return Aborted("missing vaccount signature"); }
      if p.vaccount !in users { return Aborted("user does not exist"); }
      var saved := fromTable;
      var list := DiffVectors(ListOf(fromTable, p.vaccount), p.follows, p.unfollows);
      fromTable := fromTable[p.vaccount := list];
      var added := AddFollower(users, toTable, p.vaccount, p.follows);
      if added.None? {
        fromTable := saved;
        return Aborted("user does not exist");
      }
      var removed := RemoveFollower(users, added.value, p.vaccount, p.unfollows);
      if removed.None? {
        fromTable := saved;
        return Aborted("user does not exist");
      }
      toTable := removed.value;
      r := Ok(Unit);
    }

    method Perform(call: Call)
      modifies this
      ensures Now() == Next(old(Now()), call)
    {
      match call {
        case SignUp(user) => users := users + {user};
        case Pause(auth, on) => if PHOENIX_ACCOUNT in auth { paused := on; }
        case Follow(signers, p) => var r := FollowAction(signers, p);
      }
    }

    /** Every run of the contract is a run of the machine. */
    method PerformAll(calls: seq<Call>)
      modifies this
      ensures Now() == Run(old(Now()), calls)
    {
      assert calls[0..] == calls;
      for i := 0 to |calls|
        invariant Run(Now(), calls[i..]) == Run(old(Now()), calls)
      {
        Perform(calls[i]);
        assert calls[i..][1..] == calls[i + 1..];
      }
    }
  }
}
