/** The pledges as rows of a vRAM table: every run of the pledges is a run of that table, in which each
    read answers the pledge as it was and no write fails. */
module PledgeStore {
  import opened Wrappers
  import opened Words
  import opened Names
  import opened PledgeModel
  import opened Buckets
  import T = TableModel

  /** The content address of a packed row. */
  type Packing = Pledge -> Multihash

  /** The table keeps exactly the pledges, in one scope and under their ids, and counts the ids. */
  ghost predicate Stores(t: T.Table, scope: U64, s: System, pack: Packing, shardOf: T.RowKey -> nat) {
    && t.nextKey == s.nextId
    && (forall k :: k in s.pledges ==>
          T.Answer(t, T.RowKey(scope, s.pledges[k].id), shardOf) == Some(pack(s.pledges[k])))
    && forall id: U64 :: T.Answer(t, T.RowKey(scope, id), shardOf).Some? ==> IdTaken(s.pledges, id)
  }

  lemma EmptyStores(scope: U64, pack: Packing, shardOf: T.RowKey -> nat)
    ensures Stores(T.EMPTY_TABLE, scope, EMPTY_SYSTEM, pack, shardOf)
  {
  }

  // ---------- one write ----------

  lemma WriteAnswers(t: T.Table, k: T.RowKey, v: Multihash, shardOf: T.RowKey -> nat, q: T.RowKey)
    ensures T.Answer(T.WriteKey(t, k, Some(v), shardOf), q, shardOf)
         == if q == k then Some(v) else T.Answer(t, q, shardOf)
  {
  }

  /** The new pledge's id is the available key of the table. It is an emplace under that key, succeeds
      and fails with it, and takes the counter along. */
  lemma NewPledgeIsAnEmplace(
      t: T.Table, scope: U64, s: System, signers: set<Name>, p: Payload, now: nat,
      pack: Packing, shardOf: T.RowKey -> nat)
    requires Stores(t, scope, s, pack, shardOf) && CanPledge(s, signers, p) && p.Key() !in s.pledges
    ensures
      var key := T.Step(t, T.AvailableKey, shardOf).1.key;
      var (t', o) := T.Step(t, T.Emplace(T.RowKey(scope, key), pack(NewPledge(key, p, now))), shardOf);
      && (o == T.Done <==> PledgeStep(s, signers, p, now).Some?)
      && (o == T.Done ==> Stores(t', scope, PledgeStep(s, signers, p, now).value, pack, shardOf))
  {
    var id: U64 := s.nextId % TWO_64;
    NotTaken(t, scope, s, pack, shardOf, id);
    if !IdTaken(s.pledges, id) {
      var (k, made, n) := (T.RowKey(scope, id), NewPledge(id, p, now), T.Max(t.nextKey, id + 1));
      EmplaceIsStored(t, scope, s, pack, shardOf, p.Key(), made, n);
      assert PledgeStep(s, signers, p, now) == Some(s.(pledges := s.pledges[p.Key() := made], nextId := n));
      assert T.Step(t, T.Emplace(k, pack(made)), shardOf)
          == (T.WriteKey(t, k, Some(pack(made)), shardOf).(nextKey := n, configured := true), T.Done);
    }
  }

  lemma EmplaceIsStored(
      t: T.Table, scope: U64, s: System, pack: Packing, shardOf: T.RowKey -> nat, pair: Pair, made: Pledge, n: nat)
    requires Stores(t, scope, s, pack, shardOf) && pair !in s.pledges && !IdTaken(s.pledges, made.id)
    ensures
      var written := T.WriteKey(t, T.RowKey(scope, made.id), Some(pack(made)), shardOf);
      Stores(written.(nextKey := n, configured := true), scope,
        s.(pledges := s.pledges[pair := made], nextId := n), pack, shardOf)
  {
    var written := T.WriteKey(t, T.RowKey(scope, made.id), Some(pack(made)), shardOf);
    StoresWritten(t, scope, s, pack, shardOf, pair, made);
    StoresCounted(written, scope, s.(pledges := s.pledges[pair := made]), pack, shardOf, n);
  }

  lemma NotTaken(t: T.Table, scope: U64, s: System, pack: Packing, shardOf: T.RowKey -> nat, id: U64)
    requires Stores(t, scope, s, pack, shardOf)
    ensures IdTaken(s.pledges, id) <==> T.Answer(t, T.RowKey(scope, id), shardOf).Some?
  {
  }

  lemma StoresCounted(t: T.Table, scope: U64, s: System, pack: Packing, shardOf: T.RowKey -> nat, n: nat)
    requires Stores(t, scope, s, pack, shardOf)
    ensures Stores(t.(nextKey := n, configured := true), scope, s.(nextId := n), pack, shardOf)
  {
    var t' := t.(nextKey := n, configured := true);
    forall q: T.RowKey ensures T.Answer(t', q, shardOf) == T.Answer(t, q, shardOf) {}
  }

  /** The pledge of a pair is written under its id, which no other pair has. */
  lemma StoresWritten(
      t: T.Table, scope: U64, s: System, pack: Packing, shardOf: T.RowKey -> nat, pair: Pair, p: Pledge)
    requires Stores(t, scope, s, pack, shardOf)
    requires pair in s.pledges ==> s.pledges[pair].id == p.id
    requires forall j :: j in s.pledges && s.pledges[j].id == p.id ==> j == pair
    ensures
      var t' := T.WriteKey(t, T.RowKey(scope, p.id), Some(pack(p)), shardOf);
      Stores(t', scope, s.(pledges := s.pledges[pair := p]), pack, shardOf)
  {
    var t' := T.WriteKey(t, T.RowKey(scope, p.id), Some(pack(p)), shardOf);
    var after := s.pledges[pair := p];
    forall q: T.RowKey
      ensures T.Answer(t', q, shardOf) == if q == T.RowKey(scope, p.id) then Some(pack(p)) else T.Answer(t, q, shardOf)
    {
      WriteAnswers(t, T.RowKey(scope, p.id), pack(p), shardOf, q);
    }
    forall id: U64 | T.Answer(t', T.RowKey(scope, id), shardOf).Some? ensures IdTaken(after, id) {
      if id == p.id {
        assert pair in after && after[pair].id == id;
      } else {
        var k :| k in s.pledges && s.pledges[k].id == id;
        assert k in after && after[k].id == id;
      }
    }
  }

  /** A changed pledge is read and then modified. */
  function ReadAndModify(scope: U64, p: Pledge, pack: Packing): seq<T.Op> {
    [T.Find(T.RowKey(scope, p.id)), T.Modify(T.RowKey(scope, p.id), pack(p))]
  }

  lemma FindKeepsStores(t: T.Table, scope: U64, s: System, pack: Packing, shardOf: T.RowKey -> nat, k: T.RowKey)
    requires Stores(t, scope, s, pack, shardOf)
    ensures Stores(t.Touch(shardOf(k)), scope, s, pack, shardOf)
  {
    forall q: T.RowKey ensures T.Answer(t.Touch(shardOf(k)), q, shardOf) == T.Answer(t, q, shardOf) {}
  }

  lemma RunOfTwo(t: T.Table, a: T.Op, b: T.Op, shardOf: T.RowKey -> nat)
    ensures
      var (t1, o1) := T.Step(t, a, shardOf);
      var (t2, o2) := T.Step(t1, b, shardOf);
      T.Run(t, [a, b], shardOf) == (t2, [o1, o2])
  {
    var (t1, o1) := T.Step(t, a, shardOf);
    var (t2, o2) := T.Step(t1, b, shardOf);
    assert [a, b][1..] == [b] && [b][1..] == [];
    assert T.Run(t1, [b], shardOf) == (t2, [o2]) by { assert [o2] + [] == [o2]; }
    assert [o1] + [o2] == [o1, o2];
  }

  /** The read answers the pledge as it was, and the write succeeds. */
  lemma ChangeIsAModify(
      t: T.Table, scope: U64, s: System, pack: Packing, shardOf: T.RowKey -> nat, pair: Pair, p: Pledge)
    requires Inv(s) && Stores(t, scope, s, pack, shardOf) && pair in s.pledges && p.id == s.pledges[pair].id
    ensures
      var (t', os) := T.Run(t, ReadAndModify(scope, p, pack), shardOf);
      && os == [T.Found(Some(pack(s.pledges[pair]))), T.Done]
      && Stores(t', scope, s.(pledges := s.pledges[pair := p]), pack, shardOf)
  {
    var k := T.RowKey(scope, p.id);
    FindKeepsStores(t, scope, s, pack, shardOf, k);
    StoresWritten(t.Touch(shardOf(k)), scope, s, pack, shardOf, pair, p);
    RunOfTwo(t, T.Find(k), T.Modify(k, pack(p)), shardOf);
  }

  // ---------- every step ----------

  /** The pair whose pledge a step changes. */
  function PairOf(s: System, op: Op): Option<Pair> {
    match op
    case SubmitPledge(_, p, _) => Some(p.Key())
    case Renew(_, pair, _, _) => Some(pair)
    case Fire(id, _) => if id in s.timers then Some(s.timers[id].pair) else None
    case Pause(_, _) => None
    case Token(_) => None
  }

  /** What a step does on the table; an aborted one does nothing. */
  ghost function TableOps(s: System, op: Op, scope: U64, pack: Packing): seq<T.Op> {
    if Step(s, op).None? || PairOf(s, op).None? || PairOf(s, op).value !in Step(s, op).value.pledges then []
    else
      var pair, after := PairOf(s, op).value, Step(s, op).value.pledges;
      if pair in s.pledges then ReadAndModify(scope, after[pair], pack)
      else [T.AvailableKey, T.Emplace(T.RowKey(scope, after[pair].id), pack(after[pair]))]
  }

  /** What these operations must answer. */
  ghost function TableAnswers(s: System, op: Op, pack: Packing): seq<T.Outcome> {
    if Step(s, op).None? || PairOf(s, op).None? || PairOf(s, op).value !in Step(s, op).value.pledges then []
    else
      var pair, after := PairOf(s, op).value, Step(s, op).value.pledges;
      if pair in s.pledges then [T.Found(Some(pack(s.pledges[pair]))), T.Done] else [T.KeyIs(after[pair].id), T.Done]
  }

  /** A finished step changes the pledge of its pair only, and the id of no pledge. */
  lemma StepChangesOnePledge(s: System, op: Op)
    requires Step(s, op).Some?
    ensures
      var (s', pair) := (Step(s, op).value, PairOf(s, op));
      && (pair.None? ==> s'.pledges == s.pledges && s'.nextId == s.nextId)
      && (pair.Some? ==> pair.value in s'.pledges && s'.pledges == s.pledges[pair.value := s'.pledges[pair.value]])
      && (pair.Some? && pair.value in s.pledges ==>
            s'.pledges[pair.value].id == s.pledges[pair.value].id && s'.nextId == s.nextId)
      && (pair.Some? && pair.value !in s.pledges ==> op.SubmitPledge?)
  {
  }

  lemma NewPledgeIsStored(t: T.Table, scope: U64, s: System, op: Op, pack: Packing, shardOf: T.RowKey -> nat)
    requires Stores(t, scope, s, pack, shardOf) && op.SubmitPledge? && Step(s, op).Some?
    requires op.payload.Key() !in s.pledges
    ensures
      var p := Step(s, op).value.pledges[op.payload.Key()];
      var (t', os) := T.Run(t, [T.AvailableKey, T.Emplace(T.RowKey(scope, p.id), pack(p))], shardOf);
      os == [T.KeyIs(p.id), T.Done] && Stores(t', scope, Step(s, op).value, pack, shardOf)
  {
    var p := Step(s, op).value.pledges[op.payload.Key()];
    NewPledgeIsAnEmplace(t, scope, s, op.signers, op.payload, op.now, pack, shardOf);
    RunOfTwo(t, T.AvailableKey, T.Emplace(T.RowKey(scope, p.id), pack(p)), shardOf);
  }

  lemma StepIsStored(t: T.Table, scope: U64, s: System, op: Op, pack: Packing, shardOf: T.RowKey -> nat)
    requires Inv(s) && Stores(t, scope, s, pack, shardOf)
    ensures
      var (t', os) := T.Run(t, TableOps(s, op, scope, pack), shardOf);
      os == TableAnswers(s, op, pack) && Stores(t', scope, Next(s, op), pack, shardOf)
  {
    if Step(s, op).Some? {
      var s' := Step(s, op).value;
      StepChangesOnePledge(s, op);
      if PairOf(s, op).Some? {
        var pair := PairOf(s, op).value;
        if pair in s.pledges {
          ChangeIsAModify(t, scope, s, pack, shardOf, pair, s'.pledges[pair]);
        } else {
          NewPledgeIsStored(t, scope, s, op, pack, shardOf);
        }
      }
    }
  }

  // ---------- every run ----------

  ghost function AllTableOps(s: System, ops: seq<Op>, scope: U64, pack: Packing): seq<T.Op>
    decreases |ops|
  {
    if ops == [] then [] else TableOps(s, ops[0], scope, pack) + AllTableOps(Next(s, ops[0]), ops[1..], scope, pack)
  }

  ghost function AllTableAnswers(s: System, ops: seq<Op>, pack: Packing): seq<T.Outcome>
    decreases |ops|
  {
    if ops == [] then [] else TableAnswers(s, ops[0], pack) + AllTableAnswers(Next(s, ops[0]), ops[1..], pack)
  }

  lemma {:induction false} RunFromIsStored(
      t: T.Table, scope: U64, s: System, ops: seq<Op>, pack: Packing, shardOf: T.RowKey -> nat)
    requires Inv(s) && Stores(t, scope, s, pack, shardOf)
    ensures
      var (t', os) := T.Run(t, AllTableOps(s, ops, scope, pack), shardOf);
      os == AllTableAnswers(s, ops, pack) && Stores(t', scope, Run(s, ops), pack, shardOf)
    decreases |ops|
  {
    if ops != [] {
      var first := TableOps(s, ops[0], scope, pack);
      var next := Next(s, ops[0]);
      StepIsStored(t, scope, s, ops[0], pack, shardOf);
      if Step(s, ops[0]).Some? { StepKeepsInv(s, ops[0]); }
      RunFromIsStored(T.Run(t, first, shardOf).0, scope, next, ops[1..], pack, shardOf);
      T.RunAppend(t, first, AllTableOps(next, ops[1..], scope, pack), shardOf);
    }
  }

  /** Whatever is pledged, updated, renewed and fired, and however rows are packed and sharded: the
      calls that the run makes on the table, starting from an empty one, all succeed, each new id is
      the available key and each read answers the pledge as it was; and at the end the table keeps
      exactly the pledges. */
  lemma RunIsStored(ops: seq<Op>, scope: U64, pack: Packing, shardOf: T.RowKey -> nat)
    ensures
      var (t, os) := T.Run(T.EMPTY_TABLE, AllTableOps(EMPTY_SYSTEM, ops, scope, pack), shardOf);
      && os == AllTableAnswers(EMPTY_SYSTEM, ops, pack)
      && Stores(t, scope, Run(EMPTY_SYSTEM, ops), pack, shardOf)
  {
    EmptyStores(scope, pack, shardOf);
    RunFromIsStored(T.EMPTY_TABLE, scope, EMPTY_SYSTEM, ops, pack, shardOf);
  }
}
