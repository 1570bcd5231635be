/** Posts: the list of the latest ones, kept beside each author's own list. */
module Posts {
  import opened Wrappers
  import opened Words
  import opened Names
  import opened Sequences

  const LATEST: nat := 20

  /** The constant 0.01 as a double. */
  const LEAST_PRICE: real := 5764607523034235.0 / 576460752303423488.0

  /** The value of a float. */
  datatype Float = Number(value: real) | Infinite(positive: bool) | NotANumber {
    predicate AtLeast(bound: real) {
      match this
      case Number(x) => x >= bound
      case Infinite(positive) => positive
      case NotANumber => false
    }
  }

  /** What a payload says about encryption. */
  datatype Secret = Secret(encrypted: bool, price: Float, key: seq<Byte>) {
    predicate IsComplete() {
      encrypted ==> price.AtLeast(LEAST_PRICE) && key != []
    }
  }

  /** The floats around 0.01 are 2^-30 apart. The nearest of all is below the double and is refused;
      the next one is the least that passes. */
  lemma NearestFloatIsRefused(n: nat, key: seq<Byte>)
    requires key != []
    ensures
      var nearest := 10737418;
      && Distance(nearest as real / 1073741824.0) <= Distance(n as real / 1073741824.0)
      && !Secret(true, Number(nearest as real / 1073741824.0), key).IsComplete()
      && (Secret(true, Number(n as real / 1073741824.0), key).IsComplete() <==> n > nearest)
  {
  }

  function Distance(x: real): real {
    if x < 0.01 then 0.01 - x else x - 0.01
  }

  datatype Post = Post(author: Name, encrypted: bool, price: Float)

  /** users: each author's post_indexes. posts: the post rows, which a deletion leaves. keys: the keys
      of encrypted posts. */
  datatype State = State(
    users: map<Name, seq<U64>>, posts: map<U64, Post>, keys: map<U64, seq<Byte>>,
    latest: seq<U64>, nextPostId: U64, paused: bool)

  datatype Op =
    | SignUp(user: Name)
    | Pause(auth: set<Name>, on: bool)
    | CreatePost(signers: set<Name>, author: Name, expectedId: U64, secret: Secret)
    | DeletePost(signers: set<Name>, author: Name, id: U64)
    | EditPost(signers: set<Name>, author: Name, id: U64, secret: Secret)

  function Prepend(latest: seq<U64>, id: U64): seq<U64> {
    if |latest| + 1 > LATEST then ([id] + latest)[..|latest|] else [id] + latest
  }

  predicate CanCreate(s: State, signers: set<Name>, author: Name, expectedId: U64, secret: Secret) {
    !s.paused && author in signers && author in s.users && expectedId == s.nextPostId && secret.IsComplete()
  }

  predicate OwnsPost(s: State, signers: set<Name>, author: Name, id: U64) {
    !s.paused && author in signers && author in s.users && id in s.posts && s.posts[id].author == author
  }

  function WithRow(posts: map<U64, Post>, id: U64, author: Name, secret: Secret): map<U64, Post> {
    posts[id := Post(author, secret.encrypted, secret.price)]
  }

  function WithKey(keys: map<U64, seq<Byte>>, id: U64, secret: Secret): map<U64, seq<Byte>> {
    if secret.encrypted then keys[id := secret.key] else keys
  }

  function Step(s: State, op: Op): Option<State> {
    match op
    case SignUp(user) => if user in s.users then None else Some(s.(users := s.users[user := []]))
    case Pause(auth, on) => if PHOENIX_ACCOUNT in auth then Some(s.(paused := on)) else None
    case CreatePost(signers, author, expectedId, secret) =>
      var id := s.nextPostId;
      if CanCreate(s, signers, author, expectedId, secret) && id !in s.posts && !(secret.encrypted && id in s.keys) then
        Some(State(s.users[author := s.users[author] + [id]], WithRow(s.posts, id, author, secret),
                   WithKey(s.keys, id, secret), Prepend(s.latest, id), (id + 1) % TWO_64, s.paused))
      else None
    case DeletePost(signers, author, id) =>
      if OwnsPost(s, signers, author, id) && id in s.users[author] then
        Some(s.(users := s.users[author := RemoveFirst(s.users[author], id)], keys := s.keys - {id},
                latest := RemoveFirst(s.latest, id)))
      else None
    case EditPost(signers, author, id, secret) =>
      if OwnsPost(s, signers, author, id) && secret.IsComplete() then
        Some(s.(posts := WithRow(s.posts, id, author, secret), keys := WithKey(s.keys, id, secret)))
      else None
  }

  function Run(s: State, ops: seq<Op>): State
    decreases |ops|
  {
    if ops == [] then s
    else Run(Next(s, ops[0]), ops[1..])
  }

  const EMPTY_POSTS := State(map[], map[], map[], [], 0, false)

  // ---------- the invariant ----------

  /** Listed by the author on its row. */
  predicate IsLive(s: State, id: U64) {
    id in s.posts && s.posts[id].author in s.users && id in s.users[s.posts[id].author]
  }

  ghost function Live(s: State): set<U64> {
    set id | id in s.posts && IsLive(s, id)
  }

  /** The members of live below n, newest first. */
  ghost function Descending(live: set<U64>, n: nat): seq<U64>
    requires n <= TWO_64
  {
    if n == 0 then []
    else if n - 1 in live then [n - 1] + Descending(live, n - 1)
    else Descending(live, n - 1)
  }

  ghost predicate Increasing(s: seq<U64>) {
    forall i, j :: 0 <= i < j < |s| ==> s[i] < s[j]
  }

  /** Rows have the ids 0 .. created - 1. */
  ghost predicate Numbered(s: State, created: nat) {
    created <= TWO_64 && s.nextPostId == created % TWO_64 && forall id: U64 :: id in s.posts <==> id < created
  }

  ghost predicate AuthorsAgree(s: State) {
    forall u :: u in s.users ==>
      Increasing(s.users[u]) && forall id :: id in s.users[u] ==> id in s.posts && s.posts[id].author == u
  }

  /** Every live encrypted post has its key and its price, and no key is without a post row. */
  ghost predicate KeysOk(s: State) {
    && (forall id :: id in s.keys ==> id in s.posts)
    && forall id :: id in s.posts && s.posts[id].encrypted && IsLive(s, id) ==>
         id in s.keys && Secret(true, s.posts[id].price, s.keys[id]).IsComplete()
  }

  ghost predicate LatestOk(s: State, created: nat)
    requires created <= TWO_64
  {
    |s.latest| <= LATEST && s.latest <= Descending(Live(s), created)
  }

  ghost predicate Inv(s: State, created: nat) {
    Numbered(s, created) && AuthorsAgree(s) && KeysOk(s) && LatestOk(s, created)
  }

  // ---------- facts about the sequences ----------

  lemma {:induction false} DescendingOnlyBelow(live: set<U64>, live': set<U64>, n: nat)
    requires n <= TWO_64 && forall id: U64 :: id < n ==> (id in live <==> id in live')
    ensures Descending(live, n) == Descending(live', n)
  {
    if n != 0 { DescendingOnlyBelow(live, live', n - 1); }
  }

  lemma {:induction false} DescendingMembers(live: set<U64>, n: nat)
    requires n <= TWO_64
    ensures forall id: U64 :: id in Descending(live, n) <==> id in live && id < n
    ensures forall i, j :: 0 <= i < j < |Descending(live, n)| ==> Descending(live, n)[i] > Descending(live, n)[j]
  {
    if n != 0 {
      var rest := Descending(live, n - 1);
      DescendingMembers(live, n - 1);
      assert forall j :: 0 <= j < |rest| ==> rest[j] in rest;
    }
  }

  lemma {:induction false} DescendingWithout(live: set<U64>, x: U64, n: nat)
    requires n <= TWO_64
    ensures Descending(live - {x}, n) == RemoveFirst(Descending(live, n), x)
  {
    if n != 0 {
      if n - 1 == x {
        DescendingOnlyBelow(live, live - {x}, n - 1);
        if x !in live {
          DescendingMembers(live, n);
          RemoveAt(Descending(live, n), x, |Descending(live, n)|);
        }
      } else {
        DescendingWithout(live, x, n - 1);
      }
    }
  }

  lemma {:induction false} RemoveFromPrefix(a: seq<U64>, b: seq<U64>, x: U64)
    requires a <= b
    ensures RemoveFirst(a, x) <= RemoveFirst(b, x)
  {
    if a != [] {
      assert a[1..] <= b[1..];
      RemoveFromPrefix(a[1..], b[1..], x);
    }
  }

  lemma {:induction false} RemoveShortens(s: seq<U64>, x: U64)
    ensures |RemoveFirst(s, x)| <= |s|
    ensures forall y :: y in RemoveFirst(s, x) ==> y in s
    ensures forall y :: y in s && y != x ==> y in RemoveFirst(s, x)
  {
    if s != [] {
      RemoveShortens(s[1..], x);
    }
  }

  lemma {:induction false} RemoveKeepsIncreasing(s: seq<U64>, x: U64)
    requires Increasing(s)
    ensures Increasing(RemoveFirst(s, x)) && x !in RemoveFirst(s, x)
  {
    if s != [] && s[0] != x {
      var rest := RemoveFirst(s[1..], x);
      RemoveKeepsIncreasing(s[1..], x);
      RemoveShortens(s[1..], x);
      forall j | 0 <= j < |rest| ensures s[0] < rest[j] { assert rest[j] in s[1..]; }
    }
  }

  // ---------- every step keeps it ----------

  lemma CreateKeepsInv(s: State, op: Op, created: nat)
    requires Inv(s, created) && op.CreatePost? && Step(s, op).Some?
    ensures Inv(Step(s, op).value, created + 1)
  {
    var s', id := Step(s, op).value, s.nextPostId;
    assert id == created;
    CreateKeepsLists(s, op, created);
    assert Live(s') == Live(s) + {id};
    DescendingOnlyBelow(Live(s), Live(s'), created);
  }

  lemma CreateKeepsLists(s: State, op: Op, created: nat)
    requires Numbered(s, created) && AuthorsAgree(s) && KeysOk(s) && op.CreatePost? && Step(s, op).Some?
    ensures AuthorsAgree(Step(s, op).value) && KeysOk(Step(s, op).value)
  {
    assert forall i :: 0 <= i < |s.users[op.author]| ==> s.users[op.author][i] in s.users[op.author];
  }

  lemma DeleteKeepsInv(s: State, op: Op, created: nat)
    requires Inv(s, created) && op.DeletePost? && Step(s, op).Some?
    ensures Inv(Step(s, op).value, created)
  {
    var s' := Step(s, op).value;
    RemoveShortens(s.users[op.author], op.id);
    RemoveKeepsIncreasing(s.users[op.author], op.id);
    RemoveShortens(s.latest, op.id);
    assert Live(s') == Live(s) - {op.id};
    DescendingWithout(Live(s), op.id, created);
    RemoveFromPrefix(s.latest, Descending(Live(s), created), op.id);
  }

  lemma EditKeepsInv(s: State, op: Op, created: nat)
    requires Inv(s, created) && op.EditPost? && Step(s, op).Some?
    ensures Inv(Step(s, op).value, created)
  {
    var s' := Step(s, op).value;
    assert forall id :: IsLive(s', id) <==> IsLive(s, id);
    assert Live(s') == Live(s);
  }

  /** Until the ids run out, after 2^64 posts, a creation fails only by its checks: the new id never
      meets an existing row, nor a key. */
  lemma CreateSucceedsIffAllowed(
      s: State, created: nat, signers: set<Name>, author: Name, expectedId: U64, secret: Secret)
    requires Inv(s, created) && created < TWO_64
    ensures Step(s, CreatePost(signers, author, expectedId, secret)).Some?
       <==> CanCreate(s, signers, author, expectedId, secret)
  {
  }

  // ---------- keys of deleted posts ----------

  ghost predicate KeysAreLive(s: State) {
    forall id :: id in s.keys ==> IsLive(s, id)
  }

  /** A deletion takes the key away, but a row without an author's listing can still be edited: exactly
      an encrypted edit of a deleted post leaves a key without a live post. */
  lemma KeysStayLiveIff(s: State, op: Op, created: nat)
    requires Inv(s, created) && KeysAreLive(s) && Step(s, op).Some?
    ensures KeysAreLive(Step(s, op).value) <==> !(op.EditPost? && op.secret.encrypted && !IsLive(s, op.id))
  {
    var s' := Step(s, op).value;
    match op
    case CreatePost(_, author, _, _) =>
      assert s'.users[author] == s.users[author] + [s.nextPostId];
    case DeletePost(_, author, id) =>
      RemoveShortens(s.users[author], id);
    case EditPost(_, _, id, secret) =>
      assert forall x :: IsLive(s', x) <==> IsLive(s, x);
      if secret.encrypted { assert id in s'.keys; }
    case _ =>
      assert forall x :: IsLive(s', x) <==> IsLive(s, x);
  }

  function Next(s: State, op: Op): State {
    match Step(s, op)
    case Some(s') => s'
    case None => s
  }

  function Made(s: State, op: Op): nat {
    if op.CreatePost? && Step(s, op).Some? then 1 else 0
  }

  /** How many posts a run creates. */
  function Creates(s: State, ops: seq<Op>): nat
    decreases |ops|
  {
    if ops == [] then 0 else Made(s, ops[0]) + Creates(Next(s, ops[0]), ops[1..])
  }

  predicate DeletesNothing(ops: seq<Op>) {
    forall i :: 0 <= i < |ops| ==> !ops[i].DeletePost?
  }

  lemma NextKeepsInv(s: State, op: Op, created: nat)
    requires Inv(s, created)
    ensures Inv(Next(s, op), created + Made(s, op))
    ensures !op.DeletePost? && |s.latest| == Min(created, LATEST) ==>
      |Next(s, op).latest| == Min(created + Made(s, op), LATEST)
  {
    if Step(s, op).Some? {
      match op
      case CreatePost(_, _, _, _) => CreateKeepsInv(s, op, created);
      case DeletePost(_, _, _) => DeleteKeepsInv(s, op, created);
      case EditPost(_, _, _, _) => EditKeepsInv(s, op, created);
      case _ => assert Live(Next(s, op)) == Live(s);
    }
  }

  function Min(a: nat, b: nat): nat { if a < b then a else b }

  lemma {:induction false} RunKeepsInv(s: State, ops: seq<Op>, created: nat)
    requires Inv(s, created)
    ensures Inv(Run(s, ops), created + Creates(s, ops))
    ensures DeletesNothing(ops) && |s.latest| == Min(created, LATEST) ==>
      |Run(s, ops).latest| == Min(created + Creates(s, ops), LATEST)
    decreases |ops|
  {
    if ops != [] {
      NextKeepsInv(s, ops[0], created);
      RunKeepsInv(Next(s, ops[0]), ops[1..], created + Made(s, ops[0]));
    }
  }

  /** Keys belong to live posts in every state of the run. */
  ghost predicate KeysAlwaysLive(s: State, ops: seq<Op>)
    decreases |ops|
  {
    KeysAreLive(s) && (ops != [] ==> KeysAlwaysLive(Next(s, ops[0]), ops[1..]))
  }

  /** No finished step of the run is an encrypted edit of a post that is not live. */
  predicate EditsOnlyLive(s: State, ops: seq<Op>)
    decreases |ops|
  {
    ops != [] ==>
      && (Step(s, ops[0]).Some? && ops[0].EditPost? && ops[0].secret.encrypted ==> IsLive(s, ops[0].id))
      && EditsOnlyLive(Next(s, ops[0]), ops[1..])
  }

  lemma {:induction false} RunKeepsKeysLiveIff(s: State, ops: seq<Op>, created: nat)
    requires Inv(s, created) && KeysAreLive(s)
    ensures KeysAlwaysLive(s, ops) <==> EditsOnlyLive(s, ops)
    decreases |ops|
  {
    if ops != [] {
      NextKeepsInv(s, ops[0], created);
      if Step(s, ops[0]).Some? { KeysStayLiveIff(s, ops[0], created); }
      if KeysAreLive(Next(s, ops[0])) {
        RunKeepsKeysLiveIff(Next(s, ops[0]), ops[1..], created + Made(s, ops[0]));
      }
    }
  }

  /** In every run from the empty contract keys belong to live posts throughout exactly if no finished
      step is an encrypted edit of a deleted post. */
  lemma KeysAlwaysLiveIff(ops: seq<Op>)
    ensures KeysAlwaysLive(EMPTY_POSTS, ops) <==> EditsOnlyLive(EMPTY_POSTS, ops)
  {
    RunKeepsKeysLiveIff(EMPTY_POSTS, ops, 0);
  }

  /** Such a run: sign up, post, delete the post, edit it. The key of post 0 is stored, which is no
      longer live. */
  lemma DeletedPostGetsAKey(author: Name, first: Secret, second: Secret)
    requires first.IsComplete() && second.IsComplete() && second.encrypted
    ensures
      var s := Run(EMPTY_POSTS, [SignUp(author), CreatePost({author}, author, 0, first),
                                 DeletePost({author}, author, 0), EditPost({author}, author, 0, second)]);
      0 in s.keys && s.keys[0] == second.key && !IsLive(s, 0) && s.latest == []
  {
    var (a, b) := (SignUp(author), CreatePost({author}, author, 0, first));
    var (c, d) := (DeletePost({author}, author, 0), EditPost({author}, author, 0, second));
    RunOfFour(EMPTY_POSTS, a, b, c, d);
    var made := Next(Next(EMPTY_POSTS, a), b);
    assert Next(EMPTY_POSTS, a).users[author] == [];
    assert made.users[author] == [0] && made.latest == [0];
    assert RemoveFirst([0], 0) == [];
  }

  lemma RunOfFour(s: State, a: Op, b: Op, c: Op, d: Op)
    ensures Run(s, [a, b, c, d]) == Next(Next(Next(Next(s, a), b), c), d)
  {
    assert [a, b, c, d][1..] == [b, c, d] && [b, c, d][1..] == [c, d] && [c, d][1..] == [d];
    assert Run(Next(Next(Next(s, a), b), c), [d]) == Next(Next(Next(Next(s, a), b), c), d);
    assert Run(Next(Next(s, a), b), [c, d]) == Run(Next(Next(Next(s, a), b), c), [d]);
  }

  /** In every reachable state the latest posts are the newest live ones, at most 20, newest first:
      all are live, none is missing in between, and every listed id is on the list of exactly one
      author, the one on its row. As long as nothing was deleted the list is full. */
  lemma LatestPostsAreTheNewest(ops: seq<Op>)
    ensures var s := Run(EMPTY_POSTS, ops);
      && |s.latest| <= LATEST
      && (forall i, j :: 0 <= i < j < |s.latest| ==> s.latest[i] > s.latest[j])
      && (forall id :: id in s.latest ==> IsLive(s, id))
      && (forall id: U64, x: U64 :: IsLive(s, id) && x in s.latest && id > x ==> id in s.latest)
      && (forall u, id :: u in s.users && id in s.users[u] ==> id in s.posts && s.posts[id].author == u)
      && (DeletesNothing(ops) ==> |s.latest| == Min(Creates(EMPTY_POSTS, ops), LATEST))
  {
    RunKeepsInv(EMPTY_POSTS, ops, 0);
    var s, created := Run(EMPTY_POSTS, ops), Creates(EMPTY_POSTS, ops);
    var all := Descending(Live(s), created);
    DescendingMembers(Live(s), created);
    forall id: U64, x: U64 | IsLive(s, id) && x in s.latest && id > x ensures id in s.latest {
      assert id in all;
      var i :| 0 <= i < |all| && all[i] == id;
      var j :| 0 <= j < |s.latest| && s.latest[j] == x;
      assert all[j] == x;
    }
    forall id: U64 | id in s.latest ensures IsLive(s, id) {
      assert id in all;
    }
  }

  // ---------- the code ----------

  class PostContract {
    var users: map<Name, seq<U64>>
    var posts: map<U64, Post>
    var keys: map<U64, seq<Byte>>
    var latest: seq<U64>
    var nextPostId: U64
    var paused: bool

    ghost function Now(): State
      reads this
    {
      State(users, posts, keys, latest, nextPostId, paused)
    }

    ghost predicate Ended(r: Result<Unit>, expected: Option<State>, before: State)
      reads this
    {
      match expected
      case Some(after) => r.Ok? && Now() == after
      case None => r.Aborted? && Now() == before
    }

    constructor ()
      ensures Now() == EMPTY_POSTS
    {
      users, posts, keys, latest, nextPostId, paused := map[], map[], map[], [], 0, false;
    }

    method UpdateLatestPosts(id: U64)
      modifies `latest
      ensures latest == Prepend(old(latest), id)
    {
      latest := [id] + latest;
      if |latest| > LATEST {
        latest := latest[..|latest| - 1];
      }
    }

    method RemoveFromLatestPosts(id: U64)
      modifies `latest
      ensures latest == RemoveFirst(old(latest), id)
    {
      var i := IndexOf(latest, id);
      if i < |latest| {
        latest := latest[..i] + latest[i + 1..];
      }
    }

    method Create(signers: set<Name>, author: Name, expectedId: U64, secret: Secret) returns (r: Result<Unit>)
      modifies this
      ensures Ended(r, Step(old(Now()), CreatePost(signers, author, expectedId, secret)), old(Now()))
    {
      if paused { return Aborted("contract is currently under maintenance. Check back soon"); }
      if author !in signers { return Aborted("missing vaccount signature"); }
      if author !in users { return Aborted("user does not exist"); }
      if expectedId != nextPostId { return Aborted("post id mismatch"); }
      var id, wasPosts, wasUsers, wasLatest := nextPostId, posts, users, latest;
      nextPostId := (nextPostId + 1) % TWO_64;
      if id in posts {
        nextPostId := id;
        return Aborted("key already exists");
      }
      posts := posts[id := Post(author, secret.encrypted, secret.price)];
      users := users[author := users[author] + [id]];
      UpdateLatestPosts(id);
      if secret.encrypted {
        r := CheckSecret(secret);
        if r.Ok? && id in keys { r := Aborted("key already exists"); }
        if r.Aborted? {
          nextPostId, posts, users, latest := id, wasPosts, wasUsers, wasLatest;
          return;
        }
        keys := keys[id := secret.key];
      }
      r := Ok(Unit);
    }

    /** The two checks on an encrypted post. */
    method CheckSecret(secret: Secret) returns (r: Result<Unit>)
      ensures r.Ok? <==> Secret(true, secret.price, secret.key).IsComplete()
    {
      if !secret.price.AtLeast(LEAST_PRICE) {
        return Aborted("encrypted posts require a decryption USD value of at least 0.01");
      }
      if |secret.key| == 0 { return Aborted("encrypted posts require an encrypted post_key parameter"); }
      r := Ok(Unit);
    }

    /** What updatepost does, by its flag. */
    ghost function UpdateOp(signers: set<Name>, author: Name, id: U64, secret: Secret, deletePost: bool): Op {
      if deletePost then DeletePost(signers, author, id) else EditPost(signers, author, id, secret)
    }

    method Update(signers: set<Name>, author: Name, id: U64, secret: Secret, deletePost: bool)
        returns (r: Result<Unit>)
      modifies this
      ensures Ended(r, Step(old(Now()), UpdateOp(signers, author, id, secret, deletePost)), old(Now()))
    {
      if paused { return Aborted("contract is currently under maintenance. Check back soon"); }
      if author !in signers { return Aborted("missing vaccount signature"); }
      if author !in users { return Aborted("user does not exist"); }
      if id !in posts { return Aborted("post does not exist for this author"); }
      if posts[id].author != author { return Aborted("you are not the author of this post"); }
      if deletePost {
        var own := users[author];
        var i := IndexOf(own, id);
        if i == |own| { return Aborted("post already deleted"); }
        users := users[author := own[..i] + own[i + 1..]];
        if id in keys { keys := keys - {id}; }
        RemoveFromLatestPosts(id);
      } else {
        var was := posts;
        posts := posts[id := Post(author, secret.encrypted, secret.price)];
        if secret.encrypted {
          r := CheckSecret(secret);
          if r.Aborted? {
            posts := was;
            return;
          }
          keys := keys[id := secret.key];
        }
      }
      r := Ok(Unit);
    }

    method Perform(op: Op) returns (r: Result<Unit>)
      modifies this
      ensures Ended(r, Step(old(Now()), op), old(Now()))
    {
      match op {
        case SignUp(user) =>
          if user in users {
            r := Aborted("user already exists");
          } else {
            users := users[user := []];
            r := Ok(Unit);
          }
        case Pause(auth, on) =>
          if PHOENIX_ACCOUNT !in auth {
            r := Aborted("missing authority");
          } else {
            paused := on;
            r := Ok(Unit);
          }
        case CreatePost(signers, author, expectedId, secret) => r := Create(signers, author, expectedId, secret);
        case DeletePost(signers, author, id) => r := Update(signers, author, id, Secret(false, NotANumber, []), true);
        case EditPost(signers, author, id, secret) => r := Update(signers, author, id, secret, false);
      }
    }

    /** Every run of the contract is a run of the machine. */
    method PerformAll(ops: seq<Op>)
      modifies this
      ensures Now() == Run(old(Now()), ops)
    {
      assert ops[0..] == ops;
      for i := 0 to |ops|
        invariant Run(Now(), ops[i..]) == Run(old(Now()), ops)
      {
        var r := Perform(ops[i]);
        assert ops[i..][1..] == ops[i + 1..];
      }
    }
  }
}
