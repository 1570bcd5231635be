/** The vRAM table as an abstract machine, shard by shard and with its 32-bit revision: what each
    shard row holds, which shards still wait in the residual manifest, and the backups. The class
    VramTable refines it step by step. Here are its laws over whole runs, against a plain map. */
module TableModel {
  import opened Wrappers
  import opened Words
  import opened Buckets

  datatype RowKey = RowKey(scope: U64, key: U64)

  type Rows = map<RowKey, Multihash>

  /** A shard row: what it holds, and the revision that it carries. */
  datatype Shelf = Shelf(revision: U32, rows: Rows)

  /** A backup: what its manifest holds for each of its shards. */
  datatype Snapshot = Snapshot(shards: map<nat, Rows>, nextKey: nat, configured: bool)

  /** pending: the shards still waiting in the residual manifest. */
  datatype Table = Table(
    shelves: map<nat, Shelf>, pending: map<nat, Rows>, revision: U32,
    nextKey: nat, configured: bool, snapshots: seq<Snapshot>)
  {
    predicate IsLive(x: nat) {
      x in shelves && shelves[x].revision == revision
    }

    /** A pending shard wins, then a row of the current revision; otherwise the shard is empty. */
    function Current(x: nat): Rows {
      if x in pending then pending[x] else if IsLive(x) then shelves[x].rows else map[]
    }

    /** Writing a shard leaves its row at the current revision, and the shard no longer pending. */
    function Write(x: nat, rows: Rows): Table {
      this.(shelves := shelves[x := Shelf(revision, rows)], pending := pending - {x})
    }

    /** Any access loads, creates or resets the shard. */
    function Touch(x: nat): Table {
      Write(x, Current(x))
    }

    /** What a backup saves: the pending shards, overlaid with every row of the current revision. */
    function Overlay(): map<nat, Rows> {
      pending + (map x | x in shelves && IsLive(x) :: shelves[x].rows)
    }

    function NextRevision(): U32 {
      (revision + 1) % TWO_32
    }
  }

  const EMPTY_TABLE := Table(map[], map[], 0, 0, false, [])

  datatype Op =
    | Find(k: RowKey)
    | Emplace(k: RowKey, v: Multihash)
    | Modify(k: RowKey, v: Multihash)
    | Erase(k: RowKey)
    | AvailableKey
    | Clear
    | CreateManifest
    | LoadManifest(id: nat)

  datatype Outcome = Found(value: Option<Multihash>) | Done | KeyIs(key: U64) | Failed

  function Max(a: nat, b: nat): nat { if a < b then b else a }

  function Put(rows: Rows, k: RowKey, v: Option<Multihash>): Rows {
    match v
    case Some(x) => rows[k := x]
    case None => rows - {k}
  }

  function Answer(t: Table, k: RowKey, shardOf: RowKey -> nat): Option<Multihash> {
    Lookup(t.Current(shardOf(k)), k)
  }

  /** What another contract reads, which does not look at the residual manifest. */
  function ForeignAnswer(t: Table, k: RowKey, shardOf: RowKey -> nat): Option<Multihash> {
    if t.IsLive(shardOf(k)) then Lookup(t.shelves[shardOf(k)].rows, k) else None
  }

  /** The table after the key k of its shard changed to v. */
  function WriteKey(t: Table, k: RowKey, v: Option<Multihash>, shardOf: RowKey -> nat): Table {
    t.Write(shardOf(k), Put(t.Current(shardOf(k)), k, v))
  }

  /** Changing the key in the row of a touched shard is that write. */
  lemma TouchThenWrite(t: Table, k: RowKey, v: Option<Multihash>, shardOf: RowKey -> nat)
    ensures
      var touched := t.Touch(shardOf(k));
      touched.(shelves := touched.shelves[shardOf(k) := Shelf(t.revision, Put(touched.shelves[shardOf(k)].rows, k, v))])
      == WriteKey(t, k, v, shardOf)
  {
  }

  function Step(t: Table, op: Op, shardOf: RowKey -> nat): (Table, Outcome) {
    match op
    case Find(k) => (t.Touch(shardOf(k)), Found(Answer(t, k, shardOf)))
    case Emplace(k, v) =>
      if Answer(t, k, shardOf).Some? then (t, Failed)
      else (WriteKey(t, k, Some(v), shardOf).(nextKey := Max(t.nextKey, k.key + 1), configured := true), Done)
    case Modify(k, v) =>
      if Answer(t, k, shardOf).None? then (t, Failed) else (WriteKey(t, k, Some(v), shardOf), Done)
    case Erase(k) =>
      if Answer(t, k, shardOf).None? then (t, Failed) else (WriteKey(t, k, None, shardOf), Done)
    case AvailableKey => (t, KeyIs(t.nextKey % TWO_64))
    case Clear => (t.(revision := t.NextRevision(), nextKey := 0), Done)
    case CreateManifest => (t.(snapshots := t.snapshots + [Snapshot(t.Overlay(), t.nextKey, t.configured)]), Done)
    case LoadManifest(id) =>
      if id >= |t.snapshots| then (t, Failed)
      else
        var s := t.snapshots[id];
        (Table(t.shelves, s.shards, t.NextRevision(), s.nextKey, s.configured, t.snapshots + [s]), Done)
  }

  function Counted(t: Table, n: nat): Table {
    t.(nextKey := Max(t.nextKey, n), configured := true)
  }

  /** An emplace that raises the counter first and adds the row then. */
  lemma EmplaceCountsThenAdds(t: Table, k: RowKey, v: Multihash, shardOf: RowKey -> nat)
    ensures Answer(Counted(t, k.key + 1), k, shardOf) == Answer(t, k, shardOf)
    ensures Step(t, Emplace(k, v), shardOf)
         == if Answer(t, k, shardOf).Some? then (t, Failed)
            else (WriteKey(Counted(t, k.key + 1), k, Some(v), shardOf), Done)
  {
  }

  function Run(t: Table, ops: seq<Op>, shardOf: RowKey -> nat): (Table, seq<Outcome>)
    decreases |ops|
  {
    if ops == [] then (t, [])
    else
      var (t1, o) := Step(t, ops[0], shardOf);
      var (t2, os) := Run(t1, ops[1..], shardOf);
      (t2, [o] + os)
  }

  // ---------- the plain table: a map, a counter and saved copies ----------

  datatype Plain = Plain(rows: Rows, nextKey: nat, saved: seq<(Rows, nat)>)

  const EMPTY_PLAIN := Plain(map[], 0, [])

  function PlainStep(p: Plain, op: Op): (Plain, Outcome) {
    match op
    case Find(k) => (p, Found(Lookup(p.rows, k)))
    case Emplace(k, v) =>
      if k in p.rows then (p, Failed)
      else (p.(rows := p.rows[k := v], nextKey := Max(p.nextKey, k.key + 1)), Done)
    case Modify(k, v) => if k in p.rows then (p.(rows := p.rows[k := v]), Done) else (p, Failed)
    case Erase(k) => if k in p.rows then (p.(rows := p.rows - {k}), Done) else (p, Failed)
    case AvailableKey => (p, KeyIs(p.nextKey % TWO_64))
    case Clear => (p.(rows := map[], nextKey := 0), Done)
    case CreateManifest => (p.(saved := p.saved + [(p.rows, p.nextKey)]), Done)
    case LoadManifest(id) =>
      if id < |p.saved| then (Plain(p.saved[id].0, p.saved[id].1, p.saved + [p.saved[id]]), Done) else (p, Failed)
  }

  function PlainRun(p: Plain, ops: seq<Op>): (Plain, seq<Outcome>)
    decreases |ops|
  {
    if ops == [] then (p, [])
    else
      var (p1, o) := PlainStep(p, ops[0]);
      var (p2, os) := PlainRun(p1, ops[1..]);
      (p2, [o] + os)
  }

  // ---------- how the two correspond ----------

  ghost predicate AtHome(rows: Rows, x: nat, shardOf: RowKey -> nat) {
    forall k :: k in rows ==> shardOf(k) == x
  }

  ghost predicate ShardsAtHome(shards: map<nat, Rows>, shardOf: RowKey -> nat) {
    forall x :: x in shards ==> AtHome(shards[x], x, shardOf)
  }

  /** Every shard holds only keys that belong to it. */
  ghost predicate Homed(t: Table, shardOf: RowKey -> nat) {
    && (forall x :: x in t.shelves ==> AtHome(t.shelves[x].rows, x, shardOf))
    && ShardsAtHome(t.pending, shardOf)
    && forall i :: 0 <= i < |t.snapshots| ==> ShardsAtHome(t.snapshots[i].shards, shardOf)
  }

  lemma StepKeepsHomed(t: Table, op: Op, shardOf: RowKey -> nat)
    requires Homed(t, shardOf)
    ensures Homed(Step(t, op, shardOf).0, shardOf)
  {
  }

  /** What a backup holds for a key. */
  function Saved(shards: map<nat, Rows>, k: RowKey, shardOf: RowKey -> nat): Option<Multihash> {
    if shardOf(k) in shards then Lookup(shards[shardOf(k)], k) else None
  }

  ghost predicate SameRows(t: Table, rows: Rows, shardOf: RowKey -> nat) {
    forall k: RowKey :: Answer(t, k, shardOf) == Lookup(rows, k)
  }

  ghost predicate SameSaved(shards: map<nat, Rows>, rows: Rows, shardOf: RowKey -> nat) {
    forall k: RowKey :: Saved(shards, k, shardOf) == Lookup(rows, k)
  }

  /** The plain table p is what t looks like from outside, for all scopes and in all backups. */
  ghost predicate Agrees(t: Table, p: Plain, shardOf: RowKey -> nat) {
    && SameRows(t, p.rows, shardOf) && t.nextKey == p.nextKey
    && |t.snapshots| == |p.saved|
    && forall i :: 0 <= i < |p.saved| ==>
         SameSaved(t.snapshots[i].shards, p.saved[i].0, shardOf) && t.snapshots[i].nextKey == p.saved[i].1
  }

  /** No shard outside these has a row of that revision that holds anything. */
  ghost predicate NothingAt(t: Table, revision: U32, outside: set<nat>) {
    forall x :: x in t.shelves && x !in outside && t.shelves[x].revision == revision ==> t.shelves[x].rows == map[]
  }

  ghost predicate NothingPending(t: Table) {
    forall x :: x in t.pending ==> t.pending[x] == map[]
  }

  /** A backup would save the pending shards as they are. */
  ghost predicate NoConflict(t: Table) {
    forall x :: x in t.pending && t.IsLive(x) ==> t.shelves[x].rows == t.pending[x]
  }

  /** What has to hold before the step for it to act as on a plain table. */
  ghost predicate Safe(t: Table, op: Op) {
    match op
    case Clear => NothingPending(t) && NothingAt(t, t.NextRevision(), t.pending.Keys)
    case CreateManifest => NoConflict(t)
    case LoadManifest(id) => id < |t.snapshots| ==> NothingAt(t, t.NextRevision(), t.snapshots[id].shards.Keys)
    case _ => true
  }

  /** A map that is not empty gives a key that shows it. */
  lemma SomeKey(rows: Rows) returns (k: RowKey)
    requires rows != map[]
    ensures k in rows
  {
    assert rows.Keys != {};
    k :| k in rows;
  }

  lemma DifferingKey(a: Rows, b: Rows) returns (k: RowKey)
    requires a != b
    ensures Lookup(a, k) != Lookup(b, k)
  {
    if x :| x in a && Lookup(a, x) != Lookup(b, x) {
      k := x;
    } else {
      assert b.Keys <= a.Keys ==> a.Keys == b.Keys && a == b;
      k :| k in b && k !in a;
    }
  }

  // ---------- every step, exactly ----------

  /** The table answers from these shards and from nothing else. */
  ghost predicate HoldsOnly(t: Table, shards: map<nat, Rows>, shardOf: RowKey -> nat) {
    forall k: RowKey :: Answer(t, k, shardOf) == Saved(shards, k, shardOf)
  }

  /** Moving to the next revision leaves the given shards and nothing else, if and only if no other
      row carries that revision and holds anything. */
  lemma BumpLeavesOnly(t: Table, shards: map<nat, Rows>, shardOf: RowKey -> nat)
    requires Homed(t, shardOf)
    ensures
      HoldsOnly(t.(pending := shards, revision := t.NextRevision()), shards, shardOf)
      <==> NothingAt(t, t.NextRevision(), shards.Keys)
  {
    var t' := t.(pending := shards, revision := t.NextRevision());
    if !NothingAt(t, t.NextRevision(), shards.Keys) {
      var x :| x in t.shelves && x !in shards
            && t.shelves[x].revision == t.NextRevision() && t.shelves[x].rows != map[];
      var k := SomeKey(t.shelves[x].rows);
      assert AtHome(t.shelves[x].rows, x, shardOf);
      assert Answer(t', k, shardOf).Some? && Saved(shards, k, shardOf).None?;
    }
  }

  lemma ClearIsPlain(t: Table, shardOf: RowKey -> nat)
    requires Homed(t, shardOf)
    ensures SameRows(Step(t, Clear, shardOf).0, map[], shardOf) <==> Safe(t, Clear)
  {
    var t' := Step(t, Clear, shardOf).0;
    assert t' == t.(pending := t.pending, revision := t.NextRevision()).(nextKey := 0);
    BumpLeavesOnly(t, t.pending, shardOf);
    if !NothingPending(t) {
      var x :| x in t.pending && t.pending[x] != map[];
      var k := SomeKey(t.pending[x]);
      assert AtHome(t.pending[x], x, shardOf);
      assert Answer(t', k, shardOf).Some?;
    } else {
      forall k: RowKey ensures Saved(t.pending, k, shardOf) == None {}
      forall k: RowKey
        ensures Answer(t', k, shardOf)
             == Answer(t.(pending := t.pending, revision := t.NextRevision()), k, shardOf)
      {}
    }
  }

  lemma BackupIsPlain(t: Table, rows: Rows, shardOf: RowKey -> nat)
    requires Homed(t, shardOf) && SameRows(t, rows, shardOf)
    ensures SameSaved(t.Overlay(), rows, shardOf) <==> NoConflict(t)
  {
    if !NoConflict(t) {
      var x :| x in t.pending && t.IsLive(x) && t.shelves[x].rows != t.pending[x];
      var k := DifferingKey(t.shelves[x].rows, t.pending[x]);
      assert AtHome(t.pending[x], x, shardOf) && AtHome(t.shelves[x].rows, x, shardOf);
      assert Answer(t, k, shardOf) == Lookup(t.pending[x], k);
    } else {
      forall k: RowKey ensures Saved(t.Overlay(), k, shardOf) == Lookup(rows, k) {
        assert Answer(t, k, shardOf) == Lookup(rows, k);
      }
    }
  }

  lemma RestoreIsPlain(t: Table, id: nat, rows: Rows, shardOf: RowKey -> nat)
    requires Homed(t, shardOf) && id < |t.snapshots| && SameSaved(t.snapshots[id].shards, rows, shardOf)
    ensures SameRows(Step(t, LoadManifest(id), shardOf).0, rows, shardOf) <==> Safe(t, LoadManifest(id))
  {
    var shards := t.snapshots[id].shards;
    var t', bumped := Step(t, LoadManifest(id), shardOf).0, t.(pending := shards, revision := t.NextRevision());
    BumpLeavesOnly(t, shards, shardOf);
    forall k: RowKey ensures Answer(t', k, shardOf) == Answer(bumped, k, shardOf) {}
    assert forall k: RowKey :: Saved(shards, k, shardOf) == Lookup(rows, k);
  }

  lemma WriteIsPlain(t: Table, rows: Rows, k: RowKey, v: Option<Multihash>, shardOf: RowKey -> nat)
    requires SameRows(t, rows, shardOf)
    ensures SameRows(WriteKey(t, k, v, shardOf), Put(rows, k, v), shardOf)
  {
    forall q: RowKey ensures Answer(WriteKey(t, k, v, shardOf), q, shardOf) == Lookup(Put(rows, k, v), q) {
      assert Answer(t, q, shardOf) == Lookup(rows, q);
    }
  }

  lemma TouchIsPlain(t: Table, x: nat, rows: Rows, shardOf: RowKey -> nat)
    requires SameRows(t, rows, shardOf)
    ensures SameRows(t.Touch(x), rows, shardOf)
  {
    forall q: RowKey ensures Answer(t.Touch(x), q, shardOf) == Lookup(rows, q) {
      assert Answer(t, q, shardOf) == Lookup(rows, q);
    }
  }

  /** Loading, resetting and creating shards is invisible: every step answers as the plain table
      does, and acts as it does if and only if the step is safe. */
  lemma StepIsPlain(t: Table, p: Plain, op: Op, shardOf: RowKey -> nat)
    requires Homed(t, shardOf) && Agrees(t, p, shardOf)
    ensures Step(t, op, shardOf).1 == PlainStep(p, op).1
    ensures Agrees(Step(t, op, shardOf).0, PlainStep(p, op).0, shardOf) <==> Safe(t, op)
  {
    match op
    case Find(k) =>
      assert Answer(t, k, shardOf) == Lookup(p.rows, k);
      TouchIsPlain(t, shardOf(k), p.rows, shardOf);
    case Emplace(k, v) => EmplaceIsPlain(t, p, k, v, shardOf);
    case Modify(k, v) =>
      assert Answer(t, k, shardOf) == Lookup(p.rows, k);
      WriteIsPlain(t, p.rows, k, Some(v), shardOf);
    case Erase(k) =>
      assert Answer(t, k, shardOf) == Lookup(p.rows, k);
      WriteIsPlain(t, p.rows, k, None, shardOf);
    case AvailableKey =>
    case Clear => ClearIsPlain(t, shardOf);
    case CreateManifest => CreateIsPlain(t, p, shardOf);
    case LoadManifest(id) => if id < |t.snapshots| { RestoreIsPlain(t, id, p.saved[id].0, shardOf); }
  }

  lemma EmplaceIsPlain(t: Table, p: Plain, k: RowKey, v: Multihash, shardOf: RowKey -> nat)
    requires Agrees(t, p, shardOf)
    ensures Step(t, Emplace(k, v), shardOf).1 == PlainStep(p, Emplace(k, v)).1
    ensures Agrees(Step(t, Emplace(k, v), shardOf).0, PlainStep(p, Emplace(k, v)).0, shardOf)
  {
    assert Answer(t, k, shardOf) == Lookup(p.rows, k);
    WriteIsPlain(t, p.rows, k, Some(v), shardOf);
    var written := WriteKey(t, k, Some(v), shardOf);
    forall q: RowKey, n: nat
      ensures Answer(written.(nextKey := n, configured := true), q, shardOf) == Answer(written, q, shardOf)
    {}
  }

  lemma CreateIsPlain(t: Table, p: Plain, shardOf: RowKey -> nat)
    requires Homed(t, shardOf) && Agrees(t, p, shardOf)
    ensures Agrees(Step(t, CreateManifest, shardOf).0, PlainStep(p, CreateManifest).0, shardOf) <==> NoConflict(t)
  {
    BackupIsPlain(t, p.rows, shardOf);
    var t', p' := Step(t, CreateManifest, shardOf).0, PlainStep(p, CreateManifest).0;
    forall q: RowKey ensures Answer(t', q, shardOf) == Answer(t, q, shardOf) {}
    assert t'.snapshots[|t.snapshots|].shards == t.Overlay() && p'.saved[|p.saved|].0 == p.rows;
  }

  // ---------- every run ----------

  ghost predicate RunIsSafe(t: Table, ops: seq<Op>, shardOf: RowKey -> nat)
    decreases |ops|
  {
    ops != [] ==> Safe(t, ops[0]) && RunIsSafe(Step(t, ops[0], shardOf).0, ops[1..], shardOf)
  }

  /** Refinement over runs: same answers, same rows, same backups. */
  lemma {:induction false} RunIsPlain(t: Table, p: Plain, ops: seq<Op>, shardOf: RowKey -> nat)
    requires Homed(t, shardOf) && Agrees(t, p, shardOf) && RunIsSafe(t, ops, shardOf)
    ensures Run(t, ops, shardOf).1 == PlainRun(p, ops).1
    ensures Homed(Run(t, ops, shardOf).0, shardOf)
    ensures Agrees(Run(t, ops, shardOf).0, PlainRun(p, ops).0, shardOf)
    decreases |ops|
  {
    if ops != [] {
      StepIsPlain(t, p, ops[0], shardOf);
      StepKeepsHomed(t, ops[0], shardOf);
      RunIsPlain(Step(t, ops[0], shardOf).0, PlainStep(p, ops[0]).0, ops[1..], shardOf);
    }
  }

  /** After a safe clear the rest of the run answers exactly as on a table that was never written:
      no later step sees a row from before. */
  lemma ClearForgets(t: Table, p: Plain, ops: seq<Op>, shardOf: RowKey -> nat)
    requires Homed(t, shardOf) && Agrees(t, p, shardOf)
    requires RunIsSafe(t, [Clear] + ops, shardOf)
    ensures Run(t, [Clear] + ops, shardOf).1 == [Done] + PlainRun(Plain(map[], 0, p.saved), ops).1
  {
    RunIsPlain(t, p, [Clear] + ops, shardOf);
    assert ([Clear] + ops)[1..] == ops;
  }

  // ---------- while the revision does not wrap ----------

  /** How often a run moves to the next revision. */
  function Bumps(ops: seq<Op>): nat {
    if ops == [] then 0 else Bump(ops[0]) + Bumps(ops[1..])
  }

  function Bump(op: Op): nat {
    if op.Clear? || op.LoadManifest? then 1 else 0
  }

  /** No row is newer than the table, and no pending shard has a row of the current revision. */
  ghost predicate Young(t: Table) {
    && (forall x :: x in t.shelves ==> t.shelves[x].revision <= t.revision)
    && forall x :: x in t.pending ==> !t.IsLive(x)
  }

  lemma StepStaysYoung(t: Table, op: Op, shardOf: RowKey -> nat)
    requires Young(t) && t.revision + Bump(op) < TWO_32
    ensures Young(Step(t, op, shardOf).0)
    ensures t.revision <= Step(t, op, shardOf).0.revision <= t.revision + Bump(op)
    ensures Safe(t, op) <==> (op.Clear? ==> NothingPending(t))
  {
  }

  lemma {:induction false} RunStaysYoung(t: Table, ops: seq<Op>, shardOf: RowKey -> nat)
    requires Young(t) && t.revision + Bumps(ops) < TWO_32
    ensures Young(Run(t, ops, shardOf).0)
    ensures t.revision <= Run(t, ops, shardOf).0.revision <= t.revision + Bumps(ops)
    decreases |ops|
  {
    if ops != [] {
      StepStaysYoung(t, ops[0], shardOf);
      RunStaysYoung(Step(t, ops[0], shardOf).0, ops[1..], shardOf);
    }
  }

  /** Every clear of the run happens while no pending shard holds a row. */
  ghost predicate ClearsSafely(t: Table, ops: seq<Op>, shardOf: RowKey -> nat)
    decreases |ops|
  {
    ops != [] ==>
      && (ops[0].Clear? ==> NothingPending(t))
      && ClearsSafely(Step(t, ops[0], shardOf).0, ops[1..], shardOf)
  }

  /** With fewer than 2^32 bumps the clears are all that can be unsafe. */
  lemma {:induction false} SafeWithoutWrap(t: Table, ops: seq<Op>, shardOf: RowKey -> nat)
    requires Young(t) && t.revision + Bumps(ops) < TWO_32
    ensures RunIsSafe(t, ops, shardOf) <==> ClearsSafely(t, ops, shardOf)
    decreases |ops|
  {
    if ops != [] {
      StepStaysYoung(t, ops[0], shardOf);
      SafeWithoutWrap(Step(t, ops[0], shardOf).0, ops[1..], shardOf);
    }
  }

  // ---------- snapshot and restore ----------

  lemma {:induction false} RunKeepsHomed(t: Table, ops: seq<Op>, shardOf: RowKey -> nat)
    requires Homed(t, shardOf)
    ensures Homed(Run(t, ops, shardOf).0, shardOf)
    ensures t.snapshots <= Run(t, ops, shardOf).0.snapshots
    decreases |ops|
  {
    if ops != [] {
      StepKeepsHomed(t, ops[0], shardOf);
      RunKeepsHomed(Step(t, ops[0], shardOf).0, ops[1..], shardOf);
    }
  }

  /** The table that comes back when a backup is taken, ops run, and the backup is loaded. */
  function TakeRunLoad(t: Table, ops: seq<Op>, shardOf: RowKey -> nat): Table {
    var taken := Step(t, CreateManifest, shardOf).0;
    Step(Run(taken, ops, shardOf).0, LoadManifest(|t.snapshots|), shardOf).0
  }

  /** The table just before the backup is loaded. */
  function BeforeLoad(t: Table, ops: seq<Op>, shardOf: RowKey -> nat): Table {
    Run(Step(t, CreateManifest, shardOf).0, ops, shardOf).0
  }

  lemma TakeRunLoadIs(t: Table, ops: seq<Op>, shardOf: RowKey -> nat)
    requires Homed(t, shardOf)
    ensures
      var (later, back) := (BeforeLoad(t, ops, shardOf), TakeRunLoad(t, ops, shardOf));
      && Homed(later, shardOf)
      && back.shelves == later.shelves && back.pending == t.Overlay() && back.revision == later.NextRevision()
      && back.nextKey == t.nextKey
  {
    var taken := Step(t, CreateManifest, shardOf).0;
    StepKeepsHomed(t, CreateManifest, shardOf);
    RunKeepsHomed(taken, ops, shardOf);
    assert BeforeLoad(t, ops, shardOf).snapshots[|t.snapshots|] == taken.snapshots[|t.snapshots|];
  }

  /** What has to hold for one key: the backup saved what the table answered for it, or, if the backup
      has not its shard, the run has left no row with the key under the revision that the load moves to. */
  ghost predicate ComesBack(t: Table, later: Table, k: RowKey, shardOf: RowKey -> nat) {
    var x := shardOf(k);
    if x in t.Overlay() then x in t.pending && t.IsLive(x) ==> Lookup(t.shelves[x].rows, k) == Lookup(t.pending[x], k)
    else x in later.shelves && later.shelves[x].revision == later.NextRevision() ==> k !in later.shelves[x].rows
  }

  /** Take a backup, run anything at all, load the backup: exactly when a key answers as it did. */
  lemma RestoreOfOneKeyIff(t: Table, ops: seq<Op>, k: RowKey, shardOf: RowKey -> nat)
    requires Homed(t, shardOf)
    ensures Answer(TakeRunLoad(t, ops, shardOf), k, shardOf) == Answer(t, k, shardOf)
       <==> ComesBack(t, BeforeLoad(t, ops, shardOf), k, shardOf)
  {
    TakeRunLoadIs(t, ops, shardOf);
  }

  lemma KeysComeBackIff(t: Table, later: Table, shardOf: RowKey -> nat)
    requires Homed(t, shardOf) && Homed(later, shardOf)
    ensures (forall k: RowKey :: ComesBack(t, later, k, shardOf))
       <==> NoConflict(t) && NothingAt(later, later.NextRevision(), t.Overlay().Keys)
  {
    if !NoConflict(t) {
      var x :| x in t.pending && t.IsLive(x) && t.shelves[x].rows != t.pending[x];
      var k := DifferingKey(t.shelves[x].rows, t.pending[x]);
      assert AtHome(t.pending[x], x, shardOf) && AtHome(t.shelves[x].rows, x, shardOf);
      assert !ComesBack(t, later, k, shardOf);
    } else if !NothingAt(later, later.NextRevision(), t.Overlay().Keys) {
      var x :| x in later.shelves && x !in t.Overlay()
            && later.shelves[x].revision == later.NextRevision() && later.shelves[x].rows != map[];
      var k := SomeKey(later.shelves[x].rows);
      assert AtHome(later.shelves[x].rows, x, shardOf);
      assert !ComesBack(t, later, k, shardOf);
    }
  }

  /** And exactly when every key of every scope does, for every table and every run, with any number
      of revision changes: no pending shard had a differing live row when the backup was taken, and
      when it is loaded no shard outside it has rows under the revision that comes next. */
  lemma RestoreUndoesTheRunIff(t: Table, ops: seq<Op>, shardOf: RowKey -> nat)
    requires Homed(t, shardOf)
    ensures
      var later := BeforeLoad(t, ops, shardOf);
      (forall k: RowKey :: Answer(TakeRunLoad(t, ops, shardOf), k, shardOf) == Answer(t, k, shardOf))
      <==> NoConflict(t) && NothingAt(later, later.NextRevision(), t.Overlay().Keys)
  {
    TakeRunLoadIs(t, ops, shardOf);
    KeysComeBackIff(t, BeforeLoad(t, ops, shardOf), shardOf);
    forall k: RowKey
      ensures Answer(TakeRunLoad(t, ops, shardOf), k, shardOf) == Answer(t, k, shardOf)
         <==> ComesBack(t, BeforeLoad(t, ops, shardOf), k, shardOf)
    {
      RestoreOfOneKeyIff(t, ops, k, shardOf);
    }
  }

  /** The shape of the table is fixed by its first row and comes back with a backup. */
  lemma ShapeIsFixed(t: Table, op: Op, shardOf: RowKey -> nat)
    ensures
      var (t', o) := Step(t, op, shardOf);
      t'.configured ==
        if o == Failed then t.configured
        else if op.Emplace? then true
        else if op.LoadManifest? then t.snapshots[op.id].configured
        else t.configured
    ensures TakeRunLoad(t, [], shardOf).configured == t.configured
  {
    var taken := Step(t, CreateManifest, shardOf).0;
    assert Run(taken, [], shardOf).0 == taken && taken.snapshots[|t.snapshots|].configured == t.configured;
  }

  /** While the revision does not wrap nothing can go wrong: whatever runs in between, and however far
      the table was loaded, every key answers as it did, also after unsafe clears. */
  lemma RestoreUndoesTheRun(t: Table, ops: seq<Op>, k: RowKey, shardOf: RowKey -> nat)
    requires Homed(t, shardOf) && Young(t) && t.revision + Bumps(ops) + 1 < TWO_32
    ensures Answer(TakeRunLoad(t, ops, shardOf), k, shardOf) == Answer(t, k, shardOf)
    ensures TakeRunLoad(t, ops, shardOf).nextKey == t.nextKey
  {
    TakeRunLoadIs(t, ops, shardOf);
    RunStaysYoung(Step(t, CreateManifest, shardOf).0, ops, shardOf);
    YoungComesBack(t, BeforeLoad(t, ops, shardOf), k, shardOf);
    RestoreOfOneKeyIff(t, ops, k, shardOf);
  }

  lemma YoungComesBack(t: Table, later: Table, k: RowKey, shardOf: RowKey -> nat)
    requires Young(t) && Young(later) && later.revision + 1 < TWO_32
    ensures ComesBack(t, later, k, shardOf)
  {
  }

  lemma ReadKeyComesBack(t: Table, k: RowKey, ops: seq<Op>, shardOf: RowKey -> nat)
    requires Homed(Step(t, Find(k), shardOf).0, shardOf)
    ensures Answer(TakeRunLoad(Step(t, Find(k), shardOf).0, ops, shardOf), k, shardOf) == Answer(t, k, shardOf)
  {
    RestoreOfOneKeyIff(Step(t, Find(k), shardOf).0, ops, k, shardOf);
  }

  lemma OverlayIsCurrent(t: Table, k: RowKey, shardOf: RowKey -> nat)
    requires Young(t)
    ensures Saved(t.Overlay(), k, shardOf) == Answer(t, k, shardOf)
  {
  }

  /** A clear straight after a restore removes no row at all, yet starts the keys again from zero:
      from then on an emplace under the available key fails wherever that key is taken. */
  lemma ClearAfterRestoreKeepsEverything(t: Table, id: nat, k: RowKey, shardOf: RowKey -> nat)
    requires id < |t.snapshots| && shardOf(k) in t.snapshots[id].shards
    ensures
      var cleared := Step(Step(t, LoadManifest(id), shardOf).0, Clear, shardOf).0;
      && Answer(cleared, k, shardOf) == Saved(t.snapshots[id].shards, k, shardOf)
      && Step(cleared, AvailableKey, shardOf).1 == KeyIs(0)
      && (k.key == 0 && Answer(cleared, k, shardOf).Some? ==>
            forall v: Multihash :: Step(cleared, Emplace(k, v), shardOf) == (cleared, Failed))
  {
  }

  /** The table after one row was written, backed up and restored. */
  function Restored(k: RowKey, v: Multihash, shardOf: RowKey -> nat): Table {
    var shards := map[shardOf(k) := map[k := v]];
    var backup := Snapshot(shards, k.key + 1, true);
    Table(map[shardOf(k) := Shelf(0, map[k := v])], shards, 1, k.key + 1, true, [backup, backup])
  }

  lemma RestoredIsReached(k: RowKey, v: Multihash, rest: seq<Op>, shardOf: RowKey -> nat)
    ensures
      var t, os := Run(Restored(k, v, shardOf), rest, shardOf).0, Run(Restored(k, v, shardOf), rest, shardOf).1;
      Run(EMPTY_TABLE, [Emplace(k, v), CreateManifest, LoadManifest(0)] + rest, shardOf) == (t, [Done, Done, Done] + os)
  {
    var written := Table(map[shardOf(k) := Shelf(0, map[k := v])], map[], 0, k.key + 1, true, []);
    assert Step(EMPTY_TABLE, Emplace(k, v), shardOf) == (written, Done);
    var backup := Snapshot(map[shardOf(k) := map[k := v]], k.key + 1, true);
    assert written.Overlay() == backup.shards;
    var taken := written.(snapshots := [backup]);
    assert written.snapshots + [backup] == [backup] && [backup] + [backup] == [backup, backup];
    assert Step(written, CreateManifest, shardOf) == (taken, Done);
    assert Step(taken, LoadManifest(0), shardOf) == (Restored(k, v, shardOf), Done);
    ThreeSteps(EMPTY_TABLE, written, taken, Restored(k, v, shardOf), Emplace(k, v), CreateManifest, LoadManifest(0),
      rest, shardOf);
  }

  /** A run from the empty table that shows it. */
  lemma ClearedKeyIsTaken(scope: U64, v: Multihash, w: Multihash, shardOf: RowKey -> nat)
    ensures
      var k := RowKey(scope, 0);
      var more := [Clear, AvailableKey, Emplace(k, w)];
      Run(EMPTY_TABLE, [Emplace(k, v), CreateManifest, LoadManifest(0)] + more, shardOf).1
      == [Done, Done, Done] + [Done, KeyIs(0), Failed]
  {
    var k := RowKey(scope, 0);
    var restored := Restored(k, v, shardOf);
    var cleared := restored.(revision := 2, nextKey := 0);
    RestoredIsReached(k, v, [Clear, AvailableKey, Emplace(k, w)], shardOf);
    assert Step(restored, Clear, shardOf) == (cleared, Done);
    assert Step(cleared, Emplace(k, w), shardOf) == (cleared, Failed);
    ThreeSteps(restored, cleared, cleared, cleared, Clear, AvailableKey, Emplace(k, w), [], shardOf);
    assert [Clear, AvailableKey, Emplace(k, w)] + [] == [Clear, AvailableKey, Emplace(k, w)];
  }

  lemma ThreeSteps(
      t0: Table, t1: Table, t2: Table, t3: Table, a: Op, b: Op, c: Op, rest: seq<Op>, shardOf: RowKey -> nat)
    requires Step(t0, a, shardOf).0 == t1 && Step(t1, b, shardOf).0 == t2 && Step(t2, c, shardOf).0 == t3
    ensures Run(t0, [a, b, c] + rest, shardOf).0 == Run(t3, rest, shardOf).0
    ensures Run(t0, [a, b, c] + rest, shardOf).1
         == [Step(t0, a, shardOf).1, Step(t1, b, shardOf).1, Step(t2, c, shardOf).1] + Run(t3, rest, shardOf).1
  {
    assert [a, b, c] + rest == [a] + ([b] + ([c] + rest));
    RunCons(t0, a, [b] + ([c] + rest), shardOf);
    RunCons(t1, b, [c] + rest, shardOf);
    RunCons(t2, c, rest, shardOf);
  }

  lemma RunCons(t: Table, op: Op, ops: seq<Op>, shardOf: RowKey -> nat)
    ensures Run(t, [op] + ops, shardOf).0 == Run(Step(t, op, shardOf).0, ops, shardOf).0
    ensures Run(t, [op] + ops, shardOf).1 == [Step(t, op, shardOf).1] + Run(Step(t, op, shardOf).0, ops, shardOf).1
  {
    assert ([op] + ops)[1..] == ops;
  }

  // ---------- the wrap of the revision ----------

  function Clears(n: nat): seq<Op> {
    if n == 0 then [] else [Clear] + Clears(n - 1)
  }

  lemma {:induction false} ClearsOnlyCount(t: Table, n: nat, shardOf: RowKey -> nat)
    ensures Run(t, Clears(n), shardOf).0
         == t.(revision := (t.revision + n) % TWO_32, nextKey := if n == 0 then t.nextKey else 0)
    decreases n
  {
    if n != 0 {
      ClearsOnlyCount(Step(t, Clear, shardOf).0, n - 1, shardOf);
      assert Clears(n)[1..] == Clears(n - 1);
      RevisionsAdd(t.revision, n - 1);
    }
  }

  lemma RevisionsAdd(r: U32, n: nat)
    ensures ((r + 1) % TWO_32 + n) % TWO_32 == (r + (n + 1)) % TWO_32
  {
  }

  /** After any number of clears in a row, each row keeping the revision it was written under, the
      table is the residual manifest if and only if no other row carries the revision that the
      counter has come to, modulo 2^32, and holds anything. */
  lemma ManyClears(t: Table, n: nat, shardOf: RowKey -> nat)
    requires Homed(t, shardOf)
    ensures
      HoldsOnly(Run(t, Clears(n), shardOf).0, t.pending, shardOf)
      <==> NothingAt(t, (t.revision + n) % TWO_32, t.pending.Keys)
  {
    ClearsOnlyCount(t, n, shardOf);
    var t' := Run(t, Clears(n), shardOf).0;
    if !NothingAt(t, t'.revision, t.pending.Keys) {
      var x :| x in t.shelves && x !in t.pending && t.shelves[x].revision == t'.revision && t.shelves[x].rows != map[];
      var k := SomeKey(t.shelves[x].rows);
      assert AtHome(t.shelves[x].rows, x, shardOf);
      assert Answer(t', k, shardOf).Some? && Saved(t.pending, k, shardOf).None?;
    }
  }

  /** When all rows are of the current revision, clears leave the residual manifest alone unless
      their number is a multiple of 2^32: then every row is back, so nothing may be stored outside it. */
  lemma ManyClearsOfCurrentRows(t: Table, n: nat, shardOf: RowKey -> nat)
    requires Homed(t, shardOf) && forall x :: x in t.shelves ==> t.IsLive(x)
    ensures
      HoldsOnly(Run(t, Clears(n), shardOf).0, t.pending, shardOf)
      <==> n % TWO_32 != 0 || NothingAt(t, t.revision, t.pending.Keys)
  {
    ManyClears(t, n, shardOf);
    RevisionComesBack(t.revision, n);
    AllAtOneRevision(t, (t.revision + n) % TWO_32, n % TWO_32 == 0, Run(t, Clears(n), shardOf).0, shardOf);
  }

  lemma AllAtOneRevision(t: Table, revision: U32, same: bool, t': Table, shardOf: RowKey -> nat)
    requires forall x :: x in t.shelves ==> t.IsLive(x)
    requires revision == t.revision <==> same
    requires HoldsOnly(t', t.pending, shardOf) <==> NothingAt(t, revision, t.pending.Keys)
    ensures HoldsOnly(t', t.pending, shardOf) <==> !same || NothingAt(t, t.revision, t.pending.Keys)
  {
    assert revision != t.revision ==> NothingAt(t, revision, t.pending.Keys);
  }

  lemma RevisionComesBack(r: U32, n: nat)
    ensures (r + n) % TWO_32 == r <==> n % TWO_32 == 0
  {
  }

  /** A run from the empty table that shows it: a row is written, cleared, and after 2^32 clears read again. */
  lemma ClearedRowComesBack(k: RowKey, v: Multihash, n: nat, shardOf: RowKey -> nat)
    ensures Answer(Run(Step(EMPTY_TABLE, Emplace(k, v), shardOf).0, Clears(n), shardOf).0, k, shardOf)
         == if n % TWO_32 == 0 then Some(v) else None
  {
    var t := Step(EMPTY_TABLE, Emplace(k, v), shardOf).0;
    ClearsOnlyCount(t, n, shardOf);
    RevisionComesBack(t.revision, n);
  }

  /** Two runs, one after the other. */
  lemma RunAppend(t: Table, before: seq<Op>, after: seq<Op>, shardOf: RowKey -> nat)
    ensures Run(t, before + after, shardOf).0 == Run(Run(t, before, shardOf).0, after, shardOf).0
    ensures Run(t, before + after, shardOf).1
         == Run(t, before, shardOf).1 + Run(Run(t, before, shardOf).0, after, shardOf).1
  {
    TableAfterBoth(t, before, after, shardOf);
    OutcomesOfBoth(t, before, after, shardOf);
  }

  lemma {:induction false} TableAfterBoth(t: Table, before: seq<Op>, after: seq<Op>, shardOf: RowKey -> nat)
    ensures Run(t, before + after, shardOf).0 == Run(Run(t, before, shardOf).0, after, shardOf).0
    decreases |before|
  {
    if before == [] {
      assert before + after == after;
    } else {
      var (op, rest) := (before[0], before[1..]);
      var t1 := Step(t, op, shardOf).0;
      TableAfterBoth(t1, rest, after, shardOf);
      assert before + after == [op] + (rest + after) && before == [op] + rest;
      assert Run(t, before + after, shardOf).0 == Run(t1, rest + after, shardOf).0 by {
        RunCons(t, op, rest + after, shardOf);
      }
      assert Run(t, before, shardOf).0 == Run(t1, rest, shardOf).0 by { RunCons(t, op, rest, shardOf); }
    }
  }

  lemma {:induction false} OutcomesOfBoth(t: Table, before: seq<Op>, after: seq<Op>, shardOf: RowKey -> nat)
    ensures Run(t, before + after, shardOf).1
         == Run(t, before, shardOf).1 + Run(Run(t, before, shardOf).0, after, shardOf).1
    decreases |before|
  {
    if before == [] {
      assert before + after == after;
    } else {
      var (t1, o) := Step(t, before[0], shardOf);
      OutcomesOfBoth(t1, before[1..], after, shardOf);
      assert before + after == [before[0]] + (before[1..] + after);
      RunCons(t, before[0], before[1..] + after, shardOf);
      Regroup(o, Run(t1, before[1..], shardOf).1, Run(Run(t1, before[1..], shardOf).0, after, shardOf).1);
    }
  }

  lemma Regroup(o: Outcome, a: seq<Outcome>, b: seq<Outcome>)
    ensures [o] + (a + b) == ([o] + a) + b
  {
  }

  /** The run that a restore does not undo: an empty table is backed up, a row is written and cleared
      n times, and the empty backup is loaded. With the load the revision has moved n + 1 times. */
  lemma RestoreAfterWrap(k: RowKey, v: Multihash, n: nat, shardOf: RowKey -> nat)
    ensures Answer(EMPTY_TABLE, k, shardOf) == None
    ensures Answer(TakeRunLoad(EMPTY_TABLE, [Emplace(k, v)] + Clears(n), shardOf), k, shardOf)
         == if (n + 1) % TWO_32 == 0 then Some(v) else None
  {
    var taken := Step(EMPTY_TABLE, CreateManifest, shardOf).0;
    var written := Step(taken, Emplace(k, v), shardOf).0;
    TakeRunLoadIs(EMPTY_TABLE, [Emplace(k, v)] + Clears(n), shardOf);
    RunCons(taken, Emplace(k, v), Clears(n), shardOf);
    ClearsOnlyCount(written, n, shardOf);
    RevisionsAfterZero(n);
  }

  lemma RevisionsAfterZero(n: nat)
    ensures (n % TWO_32 + 1) % TWO_32 == 0 <==> (n + 1) % TWO_32 == 0
  {
  }

  /** Backs up a row, changes it, clears n times and loads the backup. */
  function ChangeAndLoad(k: RowKey, v: Multihash, w: Multihash, n: nat): seq<Op> {
    [Emplace(k, v), CreateManifest, Modify(k, w)] + Clears(n) + [LoadManifest(0)]
  }

  /** After this run from the empty table the key answers the row of the backup; yet where the revision
      has moved on by a multiple of 2^32 the next backup saves the changed one. */
  lemma BackupCanDiffer(k: RowKey, v: Multihash, w: Multihash, n: nat, shardOf: RowKey -> nat)
    ensures
      var t := Run(EMPTY_TABLE, ChangeAndLoad(k, v, w, n), shardOf).0;
      && Answer(t, k, shardOf) == Some(v)
      && Saved(t.Overlay(), k, shardOf) == Some(if (n + 1) % TWO_32 == 0 then w else v)
  {
    var t1 := Step(EMPTY_TABLE, Emplace(k, v), shardOf).0;
    var t2 := Step(t1, CreateManifest, shardOf).0;
    var t3 := Step(t2, Modify(k, w), shardOf).0;
    assert t1.shelves == map[shardOf(k) := Shelf(0, map[k := v])];
    assert t3.shelves == map[shardOf(k) := Shelf(0, map[k := w])] by { assert map[k := v][k := w] == map[k := w]; }
    RunAppend(EMPTY_TABLE, [Emplace(k, v), CreateManifest, Modify(k, w)] + Clears(n), [LoadManifest(0)], shardOf);
    ThreeSteps(EMPTY_TABLE, t1, t2, t3, Emplace(k, v), CreateManifest, Modify(k, w), Clears(n), shardOf);
    ClearsOnlyCount(t3, n, shardOf);
    RevisionsAfterZero(n);
    LoadedOverlay(t3, (0 + n) % TWO_32, k, v, w, shardOf);
  }

  lemma LoadedOverlay(t: Table, revision: U32, k: RowKey, v: Multihash, w: Multihash, shardOf: RowKey -> nat)
    requires t.shelves == map[shardOf(k) := Shelf(0, map[k := w])]
    requires |t.snapshots| == 1 && t.snapshots[0].shards == map[shardOf(k) := map[k := v]]
    ensures forall nextKey: nat ::
      var loaded := Step(t.(revision := revision, nextKey := nextKey), LoadManifest(0), shardOf).0;
      && Answer(loaded, k, shardOf) == Some(v)
      && Saved(loaded.Overlay(), k, shardOf) == Some(if (revision + 1) % TWO_32 == 0 then w else v)
  {
  }

  /** After a backup and its restore the owner answers the row, another contract does not. */
  lemma RestoredRowIsPending(k: RowKey, v: Multihash, shardOf: RowKey -> nat)
    ensures
      var t := Run(EMPTY_TABLE, [Emplace(k, v), CreateManifest, LoadManifest(0)], shardOf).0;
      Answer(t, k, shardOf) == Some(v) && ForeignAnswer(t, k, shardOf) == None
  {
    RestoredIsReached(k, v, [], shardOf);
    assert [Emplace(k, v), CreateManifest, LoadManifest(0)] + []
        == [Emplace(k, v), CreateManifest, LoadManifest(0)];
  }

  // ---------- fresh keys ----------

  ghost predicate KeysBelow(rows: Rows, bound: nat) {
    forall k :: k in rows ==> k.key < bound
  }

  /** Every stored key is below the next one, in the table and in each backup. */
  ghost predicate Fresh(p: Plain) {
    && KeysBelow(p.rows, p.nextKey) && p.nextKey <= TWO_64
    && forall i :: 0 <= i < |p.saved| ==> KeysBelow(p.saved[i].0, p.saved[i].1) && p.saved[i].1 <= TWO_64
  }

  lemma {:induction false} RunKeepsFresh(p: Plain, ops: seq<Op>)
    requires Fresh(p)
    ensures Fresh(PlainRun(p, ops).0)
    decreases |ops|
  {
    if ops != [] { RunKeepsFresh(PlainStep(p, ops[0]).0, ops[1..]); }
  }

  /** Every key that the table answers is below its counter. */
  ghost predicate FreshTable(t: Table, shardOf: RowKey -> nat) {
    forall k: RowKey :: Answer(t, k, shardOf).Some? ==> k.key < t.nextKey
  }

  /** A clear restarts the counter, so the keys stay fresh if and only if the clear is safe. */
  lemma ClearKeepsFreshIff(t: Table, shardOf: RowKey -> nat)
    requires Homed(t, shardOf)
    ensures FreshTable(Step(t, Clear, shardOf).0, shardOf) <==> Safe(t, Clear)
  {
    ClearIsPlain(t, shardOf);
    var t' := Step(t, Clear, shardOf).0;
    assert FreshTable(t', shardOf) <==> SameRows(t', map[], shardOf) by {
      forall k: RowKey ensures Answer(t', k, shardOf).Some? <==> Answer(t', k, shardOf) != Lookup(map[], k) {}
    }
  }

  /** In every table reached by a safe run whose counter is below 2^64 the available key is unused in
      every scope, so an emplace under it cannot fail and moves the counter up by one. */
  lemma AvailableKeyIsUnused(ops: seq<Op>, shardOf: RowKey -> nat, scope: U64, v: Multihash)
    requires RunIsSafe(EMPTY_TABLE, ops, shardOf)
    ensures
      var t := Run(EMPTY_TABLE, ops, shardOf).0;
      var k := Step(t, AvailableKey, shardOf).1.key;
      FreshTable(t, shardOf)
      && (t.nextKey < TWO_64 ==>
            var (t', o) := Step(t, Emplace(RowKey(scope, k), v), shardOf);
            o == Done && t'.nextKey == t.nextKey + 1)
  {
    RunIsPlain(EMPTY_TABLE, EMPTY_PLAIN, ops, shardOf);
    RunKeepsFresh(EMPTY_PLAIN, ops);
    var t, p := Run(EMPTY_TABLE, ops, shardOf).0, PlainRun(EMPTY_PLAIN, ops).0;
    assert forall k: RowKey :: Answer(t, k, shardOf) == Lookup(p.rows, k);
  }
}
