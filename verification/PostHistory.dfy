/** What a run leaves of a post: its row, its key, and whether it is listed, told from the creations,
    edits and deletions of the run, each signed by the author. */
module PostHistory {
  import opened Wrappers
  import opened Words
  import opened Names
  import opened Posts

  // ---------- when a call succeeds ----------

  /** The checks of an encrypted post, and of any other none. */
  predicate Passes(secret: Secret) {
    secret.encrypted ==> secret.key != [] && CostsEnough(secret.price)
  }

  predicate CostsEnough(price: Float) {
    price == Infinite(true) || (price.Number? && price.value >= 5764607523034235.0 / 576460752303423488.0)
  }

  /** Until the ids run out a post is created exactly if the contract runs, the author signed and is a
      user, the expected id is the next one, and an encrypted post has a price and a key. */
  lemma CreateSucceedsIff(
      s: State, created: nat, signers: set<Name>, author: Name, expectedId: U64, secret: Secret)
    requires Inv(s, created) && created < TWO_64
    ensures Step(s, CreatePost(signers, author, expectedId, secret)).Some?
       <==> !s.paused && author in signers && author in s.users && expectedId == created && Passes(secret)
  {
    CreateSucceedsIffAllowed(s, created, signers, author, expectedId, secret);
  }

  /** A post is deleted exactly by its author, and only once; it is edited exactly by its author. */
  lemma ChangeSucceedsIff(s: State, created: nat, signers: set<Name>, author: Name, id: U64, secret: Secret)
    requires Inv(s, created)
    ensures Step(s, DeletePost(signers, author, id)).Some?
       <==> !s.paused && author in signers && author in s.users && id in s.users[author]
    ensures Step(s, EditPost(signers, author, id, secret)).Some?
       <==> && !s.paused && author in signers && author in s.users && id < created && s.posts[id].author == author
            && Passes(secret)
  {
  }

  // ---------- the last word on a post ----------

  /** The finished creation of this post. */
  predicate Makes(s: State, op: Op, id: U64) {
    op.CreatePost? && Step(s, op).Some? && s.nextPostId == id
  }

  /** It, or a finished edit of the post. */
  predicate Writes(s: State, op: Op, id: U64) {
    Makes(s, op, id) || (op.EditPost? && op.id == id && Step(s, op).Some?)
  }

  predicate Deletes(s: State, op: Op, id: U64) {
    op.DeletePost? && op.id == id && Step(s, op).Some?
  }

  /** What an operation makes of the last write, the last key that is still there, and the listing. */
  datatype Past = Past(write: Option<Op>, key: Option<Op>, listed: Option<Op>)

  function Tell(s: State, op: Op, id: U64, past: Past): Past {
    Past(
      if Writes(s, op, id) then Some(op) else past.write,
      if Deletes(s, op, id) then None else if Writes(s, op, id) && op.secret.encrypted then Some(op) else past.key,
      if Makes(s, op, id) then Some(op) else if Deletes(s, op, id) then None else past.listed)
  }

  function History(s: State, ops: seq<Op>, id: U64, past: Past): Past
    decreases |ops|
  {
    if ops == [] then past else History(Next(s, ops[0]), ops[1..], id, Tell(s, ops[0], id, past))
  }

  ghost predicate RowTold(s: State, id: U64, write: Option<Op>) {
    match write
    case None => id !in s.posts
    case Some(op) =>
      && (op.CreatePost? || op.EditPost?) && op.author in op.signers && Passes(op.secret)
      && id in s.posts && s.posts[id] == Post(op.author, op.secret.encrypted, op.secret.price)
  }

  ghost predicate KeyTold(s: State, id: U64, key: Option<Op>) {
    match key
    case None => id !in s.keys
    case Some(op) =>
      (op.CreatePost? || op.EditPost?) && op.secret.encrypted && op.author in op.signers
      && id in s.keys && s.keys[id] == op.secret.key
  }

  ghost predicate ListingTold(s: State, id: U64, listed: Option<Op>) {
    match listed
    case None => forall u :: u in s.users ==> id !in s.users[u]
    case Some(op) =>
      op.CreatePost? && op.author in op.signers && op.author in s.users && id in s.users[op.author]
  }

  ghost predicate Told(s: State, id: U64, past: Past) {
    RowTold(s, id, past.write) && KeyTold(s, id, past.key) && ListingTold(s, id, past.listed)
  }

  lemma StepTellsRow(s: State, op: Op, id: U64, past: Past)
    requires RowTold(s, id, past.write)
    ensures RowTold(Next(s, op), id, Tell(s, op, id, past).write)
  {
  }

  lemma StepTellsKey(s: State, op: Op, id: U64, past: Past)
    requires KeyTold(s, id, past.key)
    ensures KeyTold(Next(s, op), id, Tell(s, op, id, past).key)
  {
  }

  lemma StepTellsListing(s: State, op: Op, id: U64, past: Past, created: nat)
    requires Inv(s, created) && ListingTold(s, id, past.listed)
    ensures ListingTold(Next(s, op), id, Tell(s, op, id, past).listed)
  {
    if op.DeletePost? && Step(s, op).Some? {
      RemoveShortens(s.users[op.author], op.id);
      RemoveKeepsIncreasing(s.users[op.author], op.id);
    }
    if op.CreatePost? && Step(s, op).Some? {
      assert Next(s, op).users[op.author] == s.users[op.author] + [s.nextPostId];
    }
  }

  lemma {:induction false} RunTells(s: State, ops: seq<Op>, id: U64, past: Past, created: nat)
    requires Inv(s, created) && Told(s, id, past)
    ensures Told(Run(s, ops), id, History(s, ops, id, past))
    decreases |ops|
  {
    if ops != [] {
      StepTellsRow(s, ops[0], id, past);
      StepTellsKey(s, ops[0], id, past);
      StepTellsListing(s, ops[0], id, past, created);
      NextKeepsInv(s, ops[0], created);
      RunTells(Next(s, ops[0]), ops[1..], id, Tell(s, ops[0], id, past), created + Made(s, ops[0]));
    }
  }

  const NOTHING := Past(None, None, None)

  /** After every run: the row of a post is what its last finished creation or edit says, signed by the
      author; the stored key is that of the last encrypted one since the last deletion; and the post is on
      a list, its creator's, exactly if it was created and not deleted since. */
  lemma RunsTellPosts(ops: seq<Op>, id: U64)
    ensures
      var s, past := Run(EMPTY_POSTS, ops), History(EMPTY_POSTS, ops, id, NOTHING);
      RowTold(s, id, past.write) && KeyTold(s, id, past.key) && ListingTold(s, id, past.listed)
  {
    RunTells(EMPTY_POSTS, ops, id, NOTHING, 0);
  }

  /** An edit never changes hands: the author of a row stays its creator. */
  lemma AuthorStays(s: State, op: Op, id: U64)
    requires id in s.posts && !(op.CreatePost? && s.nextPostId == id)
    ensures id in Next(s, op).posts && Next(s, op).posts[id].author == s.posts[id].author
  {
  }
}
