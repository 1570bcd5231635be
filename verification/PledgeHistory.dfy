/** What a run leaves behind: each row of the pledges table and each timer, told from the calls,
    renewals and payments of the run alone. */
module PledgeHistory {
  import opened Wrappers
  import opened Words
  import opened Names
  import opened PledgeModel
  import opened PledgeLaws
  import L = Ledger

  /** Thirty days of 24 hours, in microseconds. */
  lemma ThirtyDays()
    ensures DAYS_30 == 30 * 24 * 60 * 60 * 1_000_000 && SECOND == 1_000_000
  {
  }

  // ---------- timers ----------

  /** A finished renewal, by a call or by a callback, schedules the next one exactly if the pledge renews
      automatically: one second after the end of the thirty days. It leaves all other timers alone. */
  lemma RenewalSchedules(s: System, op: Op, pair: Pair)
    requires Inv(s) && PaymentTime(s, op, pair).Some?
    ensures
      var (p, now, after) := (s.pledges[pair], PaymentTime(s, op, pair).value, Next(s, op).timers);
      && (p.autorenew ==> p.id in after && after[p.id] == Timer(pair, now + DAYS_30 + SECOND, now))
      && (!p.autorenew ==> after == s.timers)
      && forall id: U64 :: id != p.id ==>
           (id in after <==> id in s.timers) && (id in after ==> after[id] == s.timers[id])
  {
    if op.Fire? { assert TimerOk(s, op.id); }
    assert PledgeOk(pair, s.pledges[pair], s.nextId);
    WholeSeconds();
  }

  lemma WholeSeconds()
    ensures DelaySeconds(DAYS_30) * SECOND == DAYS_30 + SECOND
  {
  }

  /** Nothing else touches a timer. */
  lemma OnlyRenewalsSchedule(s: System, op: Op)
    requires forall pair: Pair :: PaymentTime(s, op, pair).None?
    ensures Next(s, op).timers == s.timers
  {
    if op.Renew? { assert PaymentTime(s, op, op.pair).None?; }
    if op.Fire? && op.id in s.timers { assert PaymentTime(s, op, s.timers[op.id].pair).None?; }
  }

  /** When the pair was last renewed while it renewed automatically. */
  function LastAutomatic(s: System, ops: seq<Op>, pair: Pair, before: Option<nat>): Option<nat>
    decreases |ops|
  {
    if ops == [] then before
    else LastAutomatic(Next(s, ops[0]), ops[1..], pair, AutomaticTime(s, ops[0], pair, before))
  }

  function AutomaticTime(s: System, op: Op, pair: Pair, before: Option<nat>): Option<nat> {
    if PaymentTime(s, op, pair).Some? && pair in s.pledges && s.pledges[pair].autorenew then PaymentTime(s, op, pair)
    else before
  }

  /** The pair has a timer exactly if it was ever renewed while it renewed automatically, and it is the
      timer of the last such renewal. */
  ghost predicate Awaits(s: System, pair: Pair, last: Option<nat>) {
    match last
    case None => pair in s.pledges ==> s.pledges[pair].id !in s.timers
    case Some(t) =>
      && pair in s.pledges && s.pledges[pair].id in s.timers
      && s.timers[s.pledges[pair].id] == Timer(pair, t + DAYS_30 + SECOND, t)
  }

  lemma OtherPairs(s: System, op: Op, pair: Pair, other: Pair)
    requires Inv(s) && PaymentTime(s, op, other).Some? && other != pair && pair in s.pledges
    ensures pair in Next(s, op).pledges && Next(s, op).pledges[pair] == s.pledges[pair]
    ensures s.pledges[pair].id != s.pledges[other].id
  {
  }

  lemma PaymentKeepsAwaits(s: System, op: Op, pair: Pair, other: Pair, last: Option<nat>)
    requires Inv(s) && Awaits(s, pair, last) && PaymentTime(s, op, other).Some? && other != pair
    ensures Awaits(Next(s, op), pair, AutomaticTime(s, op, pair, last))
  {
    RenewalSchedules(s, op, other);
    OnePayment(s, op, pair, other);
    if pair in s.pledges { OtherPairs(s, op, pair, other); }
  }

  /** One operation pays for one pair. */
  lemma OnePayment(s: System, op: Op, pair: Pair, other: Pair)
    requires PaymentTime(s, op, other).Some? && other != pair
    ensures PaymentTime(s, op, pair).None? && (pair in Next(s, op).pledges <==> pair in s.pledges)
  {
  }

  lemma NewPledgeHasNoTimer(s: System, op: Op, pair: Pair)
    requires Inv(s) && op.SubmitPledge? && Step(s, op).Some? && pair in Next(s, op).pledges
    ensures pair in s.pledges ==> Next(s, op).pledges[pair].id == s.pledges[pair].id
    ensures pair !in s.pledges ==> Next(s, op).pledges[pair].id !in s.timers
  {
    var id := Next(s, op).pledges[pair].id;
    if pair !in s.pledges { assert TimerOk(s, id); }
  }

  lemma StepKeepsAwaits(s: System, op: Op, pair: Pair, last: Option<nat>)
    requires Inv(s) && Awaits(s, pair, last)
    ensures Awaits(Next(s, op), pair, AutomaticTime(s, op, pair, last))
  {
    if other: Pair :| PaymentTime(s, op, other).Some? {
      if other == pair { RenewalSchedules(s, op, pair); } else { PaymentKeepsAwaits(s, op, pair, other, last); }
    } else {
      OnlyRenewalsSchedule(s, op);
      PledgesWithoutPayment(s, op, pair);
      if op.SubmitPledge? && Step(s, op).Some? && pair in Next(s, op).pledges { NewPledgeHasNoTimer(s, op, pair); }
    }
  }

  lemma PledgesWithoutPayment(s: System, op: Op, pair: Pair)
    requires forall other: Pair :: PaymentTime(s, op, other).None?
    ensures !op.SubmitPledge? ==> Next(s, op).pledges == s.pledges
    ensures pair in s.pledges ==> pair in Next(s, op).pledges && Next(s, op).pledges[pair].id == s.pledges[pair].id
  {
    if op.Renew? { assert PaymentTime(s, op, op.pair).None?; }
    if op.Fire? && op.id in s.timers { assert PaymentTime(s, op, s.timers[op.id].pair).None?; }
  }

  lemma {:induction false} RunKeepsAwaits(s: System, ops: seq<Op>, pair: Pair, last: Option<nat>)
    requires Inv(s) && Awaits(s, pair, last)
    ensures Awaits(Run(s, ops), pair, LastAutomatic(s, ops, pair, last))
    decreases |ops|
  {
    if ops != [] {
      StepKeepsAwaits(s, ops[0], pair, last);
      if Step(s, ops[0]).Some? { StepKeepsInv(s, ops[0]); }
      RunKeepsAwaits(Next(s, ops[0]), ops[1..], pair, AutomaticTime(s, ops[0], pair, last));
    }
  }

  /** After every run: a pledge has a timer if and only if it was ever renewed while it renewed
      automatically, and that timer is due one second after the thirty days of the last such renewal. */
  lemma TimersTellRenewals(ops: seq<Op>, pair: Pair)
    ensures
      var s, last := Run(EMPTY_SYSTEM, ops), LastAutomatic(EMPTY_SYSTEM, ops, pair, None);
      pair in s.pledges ==>
        && (s.pledges[pair].id in s.timers <==> last.Some?)
        && (last.Some? ==>
              s.timers[s.pledges[pair].id] == Timer(pair, last.value + DAYS_30 + SECOND, last.value))
  {
    RunKeepsAwaits(EMPTY_SYSTEM, ops, pair, None);
  }

  // ---------- rows ----------

  /** The running cycle: when it started, what it costs, and whether it was paid. */
  datatype Cycle = Cycle(start: nat, quantity: Asset, paid: bool)

  /** The first call starts a cycle that is not paid; a payment starts one at the price of the last call. */
  function CycleAfter(s: System, op: Op, pair: Pair, before: Option<Cycle>, price: Option<Op>): Option<Cycle> {
    if Calls(s, op, pair) && before.None? then Some(Cycle(op.now, op.payload.quantity, false))
    else if PaymentTime(s, op, pair).Some? && price.Some? && price.value.SubmitPledge? then
      Some(Cycle(PaymentTime(s, op, pair).value, price.value.payload.quantity, true))
    else before
  }

  function LastCycle(s: System, ops: seq<Op>, pair: Pair, before: Option<Cycle>, price: Option<Op>): Option<Cycle>
    decreases |ops|
  {
    if ops == [] then before
    else
      LastCycle(Next(s, ops[0]), ops[1..], pair, CycleAfter(s, ops[0], pair, before, price),
        if Calls(s, ops[0], pair) then Some(ops[0]) else price)
  }

  ghost predicate RunsCycle(s: System, pair: Pair, cycle: Option<Cycle>) {
    match cycle
    case None => pair !in s.pledges
    case Some(c) =>
      && pair in s.pledges && s.pledges[pair].cycleStart == c.start && s.pledges[pair].quantity == c.quantity
      && s.pledges[pair].paid == c.paid
  }

  lemma StepRunsCycle(s: System, op: Op, pair: Pair, cycle: Option<Cycle>, price: Option<Op>)
    requires RunsCycle(s, pair, cycle) && FollowsCall(s, pair, price)
    ensures RunsCycle(Next(s, op), pair, CycleAfter(s, op, pair, cycle, price))
  {
  }

  lemma {:induction false} RunRunsCycle(s: System, ops: seq<Op>, pair: Pair, cycle: Option<Cycle>, price: Option<Op>)
    requires RunsCycle(s, pair, cycle) && FollowsCall(s, pair, price)
    ensures RunsCycle(Run(s, ops), pair, LastCycle(s, ops, pair, cycle, price))
    decreases |ops|
  {
    if ops != [] {
      StepRunsCycle(s, ops[0], pair, cycle, price);
      StepFollowsCall(s, ops[0], pair, price);
      RunRunsCycle(Next(s, ops[0]), ops[1..], pair, CycleAfter(s, ops[0], pair, cycle, price),
        if Calls(s, ops[0], pair) then Some(ops[0]) else price);
    }
  }

  /** After every run the row of a pair is told by the run: until the first payment its cycle started
      with the first call and costs what that call said; from then on it started with the last payment
      and costs what was charged. It takes thirty days. */
  lemma RowsTellCycles(ops: seq<Op>, pair: Pair)
    ensures
      var s, cycle := Run(EMPTY_SYSTEM, ops), LastCycle(EMPTY_SYSTEM, ops, pair, None, None);
      && (pair in s.pledges <==> cycle.Some?)
      && (cycle.Some? ==>
            var p := s.pledges[pair];
            && p.payer == pair.payer && p.creator == pair.creator && p.cycleUs == DAYS_30
            && Cycle(p.cycleStart, p.quantity, p.paid) == cycle.value)
  {
    RunRunsCycle(EMPTY_SYSTEM, ops, pair, None, None);
    RunKeepsInv(EMPTY_SYSTEM, ops);
    var s := Run(EMPTY_SYSTEM, ops);
    if pair in s.pledges { assert PledgeOk(pair, s.pledges[pair], s.nextId); }
  }

  /** What a finished call writes: the next cycle and the renewal flag of the pair's pledge, and for a new
      pledge the whole row, under the counted id, with the first cycle at the same price. */
  lemma CallWrites(s: System, op: Op)
    requires op.SubmitPledge? && Step(s, op).Some?
    ensures
      var (s', was, p) := (Step(s, op).value, op.payload.Key() in s.pledges, op.payload);
      && p.Key() in s'.pledges
      && var row := s'.pledges[p.Key()];
         && row.nextQuantity == p.quantity && row.autorenew == p.autorenew && row.nextDelete == (was && p.nextDelete)
         && (!was ==> row == Pledge(s.nextId % TWO_64, p.vaccount, p.to, DAYS_30, p.quantity, op.now, p.autorenew,
                                    DAYS_30, p.quantity, false, false))
         && s'.nextId == if was || row.id < s.nextId then s.nextId else row.id + 1
  {
  }

  /** A callback finishes exactly when it is due, the contract runs, the pledge still renews
      automatically, its cycle is over and the ledger lets the pair pay. */
  lemma CallbackSucceedsIff(s: System, id: U64, now: nat)
    requires Inv(s) && L.Sound(s.ledger)
    ensures Step(s, Fire(id, now)).Some?
       <==> && id in s.timers && now >= s.timers[id].due && !s.paused
            && s.timers[id].pair in s.pledges
            && var p := s.pledges[s.timers[id].pair];
               && p.autorenew && now > p.cycleStart + DAYS_30
               && Payable(s.ledger, s.timers[id].pair, p.nextQuantity.amount)
  {
    if id in s.timers {
      assert TimerOk(s, id);
      DropTimerKeepsInv(s, id);
      RenewalSucceedsIff(s.(timers := s.timers - {id}), {}, s.timers[id].pair, id, now);
    }
  }

  /** A pause needs the authority of the membership contract, and stops pledges and renewals. */
  lemma PauseStopsPledges(s: System, op: Op)
    requires Step(s, op).Some?
    ensures s.paused ==> op.Pause? || op.Token?
    ensures Step(s, op).value.paused != s.paused ==> op.Pause? && PHOENIX_ACCOUNT in op.auth
  {
  }
}
