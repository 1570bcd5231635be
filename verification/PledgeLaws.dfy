/** What holds of pledges over every run: spacing and authorisation of payments, exact amounts,
    timers, fresh ids, and the backing of balances. */
module PledgeLaws {
  import opened Wrappers
  import opened Words
  import opened Names
  import opened Fees
  import opened PledgeModel
  import L = Ledger

  // ---------- one payment, on the ledger ----------

  function Balance(ledger: L.State, owner: Name): int {
    L.BalanceOf(ledger.accounts, owner, WEOSDT).amount
  }

  function When(b: bool, amount: int): int { if b then amount else 0 }

  lemma PartsMove(ledger: L.State, pair: Pair, amount: nat, fee: nat, x: Name)
    requires fee <= amount && PayParts(ledger, pair, amount, fee).Some?
    ensures Balance(PayParts(ledger, pair, amount, fee).value, x)
         == Balance(ledger, x)
          - When(x == pair.payer, amount) + When(x == pair.creator, amount - fee) + When(x == FEES, fee)
    ensures amount > fee ==> pair.payer != pair.creator
    ensures fee > 0 ==> pair.payer != FEES
  {
  }

  /** The fee is less than the amount, nothing for less than 50 units, and one fiftieth rounded down below 2^53. */
  ghost predicate IsFee(amount: nat, fee: nat) {
    fee < amount && (fee > 0 <==> amount >= 50) && (amount < TWO_53 ==> fee == amount / 50)
  }

  lemma FeeFacts(amount: nat)
    requires amount > 0
    ensures IsFee(amount, FeeOf(amount))
  {
    FeeIsBounded(amount);
    if amount < TWO_53 { FeeIsExact(amount); }
  }

  /** A renewal takes exactly the pledged quantity from the payer, and splits it between the creator
      and the fees account. All other accounts keep their balance. It holds for every account x, also
      for a creator who is the fees account. */
  lemma RenewalMovesExactly(s: System, signers: set<Name>, pair: Pair, id: U64, now: nat, x: Name)
    requires Inv(s) && RenewStep(s, signers, pair, id, now).Some?
    ensures
      var (q, after) := (s.pledges[pair].nextQuantity.amount, RenewStep(s, signers, pair, id, now).value.ledger);
      var fee := FeeOf(q);
      && IsFee(q, fee) && pair.payer != pair.creator
      && Balance(after, x)
         == Balance(s.ledger, x) - When(x == pair.payer, q) + When(x == pair.creator, q - fee) + When(x == FEES, fee)
      && (x == pair.payer ==> Balance(after, x) == Balance(s.ledger, x) - q)
  {
    var q := s.pledges[pair].nextQuantity.amount;
    assert PledgeOk(pair, s.pledges[pair], s.nextId);
    FeeFacts(q);
    PartsMove(s.ledger, pair, q, FeeOf(q), x);
  }

  /** So a pledge to oneself is never renewed, nor one of the fees account that costs a fee. */
  lemma UnpayablePledgeIsNeverRenewed(s: System, signers: set<Name>, pair: Pair, id: U64, now: nat)
    requires Inv(s) && pair in s.pledges
    requires pair.payer == pair.creator || (pair.payer == FEES && s.pledges[pair].nextQuantity.amount >= 50)
    ensures RenewStep(s, signers, pair, id, now).None?
  {
    if RenewStep(s, signers, pair, id, now).Some? {
      var q := s.pledges[pair].nextQuantity.amount;
      assert PledgeOk(pair, s.pledges[pair], s.nextId);
      FeeFacts(q);
      PartsMove(s.ledger, pair, q, FeeOf(q), pair.payer);
    }
  }

  // ---------- when a payment can be made ----------

  /** What a payment needs of the ledger: two different users and a balance that covers it, and with a
      fee also the fees account, as a user that does not pay itself. */
  predicate Payable(ledger: L.State, pair: Pair, amount: int) {
    && !ledger.paused && pair.payer != pair.creator && pair.payer in ledger.users && pair.creator in ledger.users
    && L.Covers(ledger, pair.payer, Asset(amount, WEOSDT))
    && (amount >= 50 ==> pair.payer != FEES && FEES in ledger.users)
  }

  /** After the creator's part is paid, the row still covers the fee if it covered both. */
  lemma FirstPartLeavesTheFee(ledger: L.State, pair: Pair, net: int, fee: int)
    requires L.Sound(ledger) && net > 0 && PayOne(ledger, pair.payer, pair.creator, net).Some?
    ensures
      var paid := PayOne(ledger, pair.payer, pair.creator, net).value;
      && L.Sound(paid) && paid.users == ledger.users && paid.paused == ledger.paused
      && (L.Covers(paid, pair.payer, Asset(fee, WEOSDT)) <==> L.Covers(ledger, pair.payer, Asset(net + fee, WEOSDT)))
  {
    L.TransferKeepsSound(ledger, pair.payer, pair.creator, Asset(net, WEOSDT));
    FirstPartCovers(ledger, pair, net, fee);
  }

  lemma FirstPartCovers(ledger: L.State, pair: Pair, net: int, fee: int)
    requires net > 0 && PayOne(ledger, pair.payer, pair.creator, net).Some?
    ensures
      var paid := PayOne(ledger, pair.payer, pair.creator, net).value;
      && paid.users == ledger.users && paid.paused == ledger.paused
      && (L.Covers(paid, pair.payer, Asset(fee, WEOSDT)) <==> L.Covers(ledger, pair.payer, Asset(net + fee, WEOSDT)))
  {
  }

  lemma PartsNeed(ledger: L.State, pair: Pair, amount: nat, fee: nat)
    requires L.Sound(ledger) && fee < amount && (fee > 0 <==> amount >= 50)
    ensures PayParts(ledger, pair, amount, fee).Some? <==> Payable(ledger, pair, amount)
  {
    L.TransferSucceedsIff(ledger, pair.payer, pair.creator, amount - fee);
    if PayOne(ledger, pair.payer, pair.creator, amount - fee).Some? {
      FirstPartLeavesTheFee(ledger, pair, amount - fee, fee);
      if fee > 0 {
        L.TransferSucceedsIff(PayOne(ledger, pair.payer, pair.creator, amount - fee).value, pair.payer, FEES, fee);
      }
    }
  }

  lemma PaymentNeeds(ledger: L.State, pair: Pair, amount: nat)
    requires L.Sound(ledger) && amount > 0
    ensures Pay(ledger, pair, amount).Some? <==> Payable(ledger, pair, amount)
  {
    FeeFacts(amount);
    PartsNeed(ledger, pair, amount, FeeOf(amount));
  }

  /** A renewal finishes exactly when its own checks pass and the ledger lets the pair pay. */
  lemma RenewalSucceedsIff(s: System, signers: set<Name>, pair: Pair, id: U64, now: nat)
    requires Inv(s) && L.Sound(s.ledger)
    ensures RenewStep(s, signers, pair, id, now).Some?
       <==> && !s.paused && pair in s.pledges && s.pledges[pair].id == id
            && (s.pledges[pair].autorenew || pair.payer in signers)
            && (s.pledges[pair].paid ==> now > s.pledges[pair].cycleStart + DAYS_30)
            && Payable(s.ledger, pair, s.pledges[pair].nextQuantity.amount)
  {
    if pair in s.pledges {
      assert PledgeOk(pair, s.pledges[pair], s.nextId);
      PaymentNeeds(s.ledger, pair, s.pledges[pair].nextQuantity.amount);
    }
  }

  // ---------- pledging ----------

  /** While the id counter is below 2^64 a pledge succeeds exactly when its checks pass: the new id
      is never in use. */
  lemma PledgeSucceedsIffAllowed(s: System, signers: set<Name>, p: Payload, now: nat)
    requires Inv(s) && s.nextId < TWO_64
    ensures Step(s, SubmitPledge(signers, p, now)).Some?
       <==> && !s.paused && p.vaccount in signers && p.vaccount in s.ledger.users && p.to in s.ledger.users
            && p.quantity.symbol == WEOSDT && p.quantity.amount > 0
  {
  }

  /** A new pledge need not wait: as soon as it is made it can be paid if the payer can pay at all,
      and then again only after 30 days. */
  lemma NewPledgeIsPayableAtOnce(s: System, signers: set<Name>, p: Payload, now: nat)
    requires Inv(s) && L.Sound(s.ledger) && p.Key() !in s.pledges && PledgeStep(s, signers, p, now).Some?
    ensures
      var s' := PledgeStep(s, signers, p, now).value;
      var paid := RenewStep(s', {p.vaccount}, p.Key(), s'.pledges[p.Key()].id, now);
      && (paid.Some? <==> Payable(s.ledger, p.Key(), p.quantity.amount))
      && (paid.Some? ==> forall later: nat ::
            CanRenew(paid.value, {p.vaccount}, p.Key(), s'.pledges[p.Key()].id, later) <==> later > now + DAYS_30)
  {
    PaymentNeeds(s.ledger, p.Key(), p.quantity.amount);
  }

  /** A pledge call moves no tokens, never touches the running cycle of an existing pledge, and
      never touches the pledge of another pair. */
  lemma UpdateKeepsTheCycle(s: System, signers: set<Name>, p: Payload, now: nat, k: Pair)
    requires PledgeStep(s, signers, p, now).Some? && k in s.pledges
    ensures
      var s' := PledgeStep(s, signers, p, now).value;
      && s'.ledger == s.ledger && s'.timers == s.timers && k in s'.pledges
      && s'.pledges[k].id == s.pledges[k].id && s'.pledges[k].quantity == s.pledges[k].quantity
      && s'.pledges[k].cycleStart == s.pledges[k].cycleStart && s'.pledges[k].CycleEnd() == s.pledges[k].CycleEnd()
      && s'.pledges[k].paid == s.pledges[k].paid
      && (k != p.Key() ==> s'.pledges[k] == s.pledges[k])
  {
  }

  // ---------- spacing of payments ----------

  /** When this step pays for the pair: the time of a finished renewal. */
  function PaymentTime(s: System, op: Op, pair: Pair): Option<nat> {
    if Step(s, op).None? then None
    else if op.Renew? && op.pair == pair then Some(op.now)
    else if op.Fire? && s.timers[op.id].pair == pair then Some(op.now)
    else None
  }

  function PaymentTimes(s: System, ops: seq<Op>, pair: Pair): seq<nat>
    decreases |ops|
  {
    if ops == [] then []
    else
      (match PaymentTime(s, ops[0], pair) case Some(t) => [t] case None => [])
      + PaymentTimes(Next(s, ops[0]), ops[1..], pair)
  }

  /** The state remembers the last payment of the pair. */
  ghost predicate LastPaid(s: System, pair: Pair, last: Option<nat>) {
    match last
    case None => pair in s.pledges ==> !s.pledges[pair].paid
    case Some(t) => pair in s.pledges && s.pledges[pair].paid && s.pledges[pair].cycleStart == t
  }

  ghost predicate Spaced(last: Option<nat>, times: seq<nat>)
    decreases |times|
  {
    times == [] || ((last.Some? ==> times[0] > last.value + DAYS_30) && Spaced(Some(times[0]), times[1..]))
  }

  lemma StepKeepsLastPaid(s: System, op: Op, pair: Pair, last: Option<nat>)
    requires Inv(s) && LastPaid(s, pair, last)
    ensures PaymentTime(s, op, pair).None? ==> LastPaid(Next(s, op), pair, last)
    ensures PaymentTime(s, op, pair).Some? ==>
      && LastPaid(Next(s, op), pair, PaymentTime(s, op, pair))
      && (last.Some? ==> PaymentTime(s, op, pair).value > last.value + DAYS_30)
  {
  }

  lemma {:induction false} RunSpacesPayments(s: System, ops: seq<Op>, pair: Pair, last: Option<nat>)
    requires Inv(s) && LastPaid(s, pair, last)
    ensures Spaced(last, PaymentTimes(s, ops, pair))
    decreases |ops|
  {
    if ops != [] {
      StepKeepsLastPaid(s, ops[0], pair, last);
      if Step(s, ops[0]).Some? { StepKeepsInv(s, ops[0]); }
      var rest := PaymentTimes(Next(s, ops[0]), ops[1..], pair);
      match PaymentTime(s, ops[0], pair) {
        case Some(t) =>
          RunSpacesPayments(Next(s, ops[0]), ops[1..], pair, Some(t));
          assert ([t] + rest)[1..] == rest;
        case None =>
          RunSpacesPayments(Next(s, ops[0]), ops[1..], pair, last);
          assert [] + rest == rest;
      }
    }
  }

  lemma {:induction false} SpacedSpan(last: Option<nat>, times: seq<nat>)
    requires Spaced(last, times) && times != []
    ensures times[|times| - 1] - times[0] >= (|times| - 1) * (DAYS_30 + 1)
    decreases |times|
  {
    if |times| > 1 {
      SpacedSpan(Some(times[0]), times[1..]);
    }
  }

  /** In every run, n payments of one payer to one creator span more than n - 1 times 30 days. No
      order of the clock readings is assumed. */
  lemma PaymentsAreSpaced(ops: seq<Op>, pair: Pair)
    ensures var times := PaymentTimes(EMPTY_SYSTEM, ops, pair);
      && (|times| >= 2 ==> times[|times| - 1] - times[0] > (|times| - 1) * DAYS_30)
      && forall i :: 0 <= i < |times| - 1 ==> times[i + 1] > times[i] + DAYS_30
  {
    var times := PaymentTimes(EMPTY_SYSTEM, ops, pair);
    RunSpacesPayments(EMPTY_SYSTEM, ops, pair, None);
    if times != [] { SpacedSpan(None, times); }
    SpacedGaps(None, times);
  }

  lemma {:induction false} SpacedGaps(last: Option<nat>, times: seq<nat>)
    requires Spaced(last, times)
    ensures forall i :: 0 <= i < |times| - 1 ==> times[i + 1] > times[i] + DAYS_30
    decreases |times|
  {
    if times != [] {
      SpacedGaps(Some(times[0]), times[1..]);
      forall i | 0 <= i < |times| - 1 ensures times[i + 1] > times[i] + DAYS_30 {
        if i > 0 { assert times[1..][i] > times[1..][i - 1] + DAYS_30; }
      }
    }
  }

  // ---------- authorised amounts ----------

  /** The most recent pledge call for the pair that went through, in a run. */
  function LastCall(s: System, ops: seq<Op>, pair: Pair, before: Option<Op>): Option<Op>
    decreases |ops|
  {
    if ops == [] then before
    else LastCall(Next(s, ops[0]), ops[1..], pair, if Calls(s, ops[0], pair) then Some(ops[0]) else before)
  }

  predicate Calls(s: System, op: Op, pair: Pair) {
    op.SubmitPledge? && op.payload.Key() == pair && Step(s, op).Some?
  }

  /** The payer signed the last call, and the pledge does what that call says. */
  ghost predicate FollowsCall(s: System, pair: Pair, call: Option<Op>) {
    match call
    case None => pair !in s.pledges
    case Some(c) =>
      && c.SubmitPledge? && c.payload.Key() == pair && pair.payer in c.signers && c.payload.quantity.amount > 0
      && pair in s.pledges && s.pledges[pair].nextQuantity == c.payload.quantity
      && s.pledges[pair].autorenew == c.payload.autorenew
  }

  lemma StepFollowsCall(s: System, op: Op, pair: Pair, before: Option<Op>)
    requires FollowsCall(s, pair, before)
    ensures FollowsCall(Next(s, op), pair, if Calls(s, op, pair) then Some(op) else before)
  {
  }

  lemma {:induction false} RunFollowsLastCall(s: System, ops: seq<Op>, pair: Pair, before: Option<Op>)
    requires FollowsCall(s, pair, before)
    ensures FollowsCall(Run(s, ops), pair, LastCall(s, ops, pair, before))
    ensures LastCall(s, ops, pair, before).Some? ==>
      LastCall(s, ops, pair, before) == before || LastCall(s, ops, pair, before).value in ops
    decreases |ops|
  {
    if ops != [] {
      StepFollowsCall(s, ops[0], pair, before);
      RunFollowsLastCall(Next(s, ops[0]), ops[1..], pair, if Calls(s, ops[0], pair) then Some(ops[0]) else before);
    }
  }

  /** There is a pledge exactly if the run has a finished call of its payer for that creator, signed
      by the payer; what the next cycle costs and whether it renews by itself is what the last one says. */
  lemma PledgeIsSigned(ops: seq<Op>, pair: Pair)
    ensures
      var s, call := Run(EMPTY_SYSTEM, ops), LastCall(EMPTY_SYSTEM, ops, pair, None);
      && (pair in s.pledges <==> call.Some?)
      && (call.Some? ==>
            && call.value in ops && call.value.SubmitPledge? && call.value.payload.Key() == pair
            && pair.payer in call.value.signers
            && s.pledges[pair].nextQuantity == call.value.payload.quantity
            && s.pledges[pair].autorenew == call.value.payload.autorenew)
  {
    RunFollowsLastCall(EMPTY_SYSTEM, ops, pair, None);
  }

  function SignersOf(op: Op): set<Name> {
    if op.Renew? then op.signers else {}
  }

  /** Every payment, by a renewal or by a timer, after any run: the payer signed the most recent
      pledge call for this creator, its positive quantity is what the payer is charged, and the payer
      also signed the renewal or that call asked for automatic renewal. */
  lemma PaymentIsAuthorised(ops: seq<Op>, op: Op, pair: Pair)
    ensures
      var s := Run(EMPTY_SYSTEM, ops);
      var call := LastCall(EMPTY_SYSTEM, ops, pair, None);
      PaymentTime(s, op, pair).Some? ==>
        && call.Some? && call.value in ops && call.value.SubmitPledge? && call.value.payload.Key() == pair
        && pair.payer in call.value.signers && call.value.payload.quantity.amount > 0
        && (pair.payer in SignersOf(op) || call.value.payload.autorenew)
        && Balance(Next(s, op).ledger, pair.payer)
           == Balance(s.ledger, pair.payer) - call.value.payload.quantity.amount
  {
    var s := Run(EMPTY_SYSTEM, ops);
    RunKeepsInv(EMPTY_SYSTEM, ops);
    RunFollowsLastCall(EMPTY_SYSTEM, ops, pair, None);
    if PaymentTime(s, op, pair).Some? {
      if op.Renew? {
        RenewalMovesExactly(s, op.signers, pair, op.id, op.now, pair.payer);
      } else {
        var fired := s.(timers := s.timers - {op.id});
        DropTimerKeepsInv(s, op.id);
        RenewalMovesExactly(fired, {}, pair, op.id, op.now, pair.payer);
      }
    }
  }

  // ---------- timers ----------

  /** A callback that fires when it is due is stopped by the running-cycle check only if the pledge
      was renewed since the timer was set. Otherwise it succeeds exactly when the contract runs, the
      pledge still renews automatically, and the ledger lets the pair pay. */
  lemma TimerPassesTheCycleCheck(s: System, id: U64, now: nat)
    requires Inv(s) && L.Sound(s.ledger) && id in s.timers && now >= s.timers[id].due
    ensures TimerOk(s, id)
    ensures
      var t := s.timers[id];
      var p := s.pledges[t.pair];
      p.cycleStart == t.cycle ==>
        && now > p.CycleEnd()
        && (FireStep(s, id, now).Some?
            <==> !s.paused && p.autorenew && Payable(s.ledger, t.pair, p.nextQuantity.amount))
  {
    assert TimerOk(s, id);
    PaymentNeeds(s.ledger, s.timers[id].pair, s.pledges[s.timers[id].pair].nextQuantity.amount);
  }

  // ---------- backing, with pledges in the run ----------

  ghost predicate SystemBacked(s: System) {
    L.Backed(s.ledger) && forall k :: k in s.pledges ==> k.payer != PHOENIX
  }

  predicate PhoenixIsSilent(op: Op) {
    match op
    case SubmitPledge(signers, _, _) => PHOENIX !in signers
    case Renew(_, _, _, _) => true
    case Fire(_, _) => true
    case Pause(_, _) => true
    case Token(op') => L.LeavesPhoenixAlone(op')
  }

  lemma PayOneKeepsBacked(ledger: L.State, from: Name, to: Name, amount: int)
    requires L.Sound(ledger) && PayOne(ledger, from, to, amount).Some?
    ensures var after := PayOne(ledger, from, to, amount).value;
      L.Sound(after) && (from != PHOENIX && L.Backed(ledger) ==> L.Backed(after))
  {
    if amount > 0 {
      PayOneIsATransfer(ledger, from, to, amount, "");
      L.NextKeepsSoundAndBacked(ledger, L.Transfer({PHOENIX_ACCOUNT}, from, to, Asset(amount, WEOSDT), ""));
    }
  }

  lemma PartsKeepBacked(ledger: L.State, paid: L.State, after: L.State, pair: Pair, net: int, fee: int)
    requires L.Sound(ledger)
    requires PayOne(ledger, pair.payer, pair.creator, net) == Some(paid)
    requires PayOne(paid, pair.payer, FEES, fee) == Some(after)
    ensures L.Sound(after) && (pair.payer != PHOENIX && L.Backed(ledger) ==> L.Backed(after))
  {
    PayOneKeepsBacked(ledger, pair.payer, pair.creator, net);
    PayOneKeepsBacked(paid, pair.payer, FEES, fee);
  }

  lemma PartsSplit(ledger: L.State, after: L.State, pair: Pair, amount: nat, fee: nat) returns (paid: L.State)
    requires PayParts(ledger, pair, amount, fee) == Some(after)
    ensures PayOne(ledger, pair.payer, pair.creator, amount - fee) == Some(paid)
    ensures PayOne(paid, pair.payer, FEES, fee) == Some(after)
  {
    paid := PayOne(ledger, pair.payer, pair.creator, amount - fee).value;
  }

  lemma PayKeepsBacked(ledger: L.State, after: L.State, pair: Pair, amount: nat, fee: nat)
    requires L.Sound(ledger) && PayParts(ledger, pair, amount, fee) == Some(after)
    ensures L.Sound(after) && (pair.payer != PHOENIX && L.Backed(ledger) ==> L.Backed(after))
  {
    var paid := PartsSplit(ledger, after, pair, amount, fee);
    PartsKeepBacked(ledger, paid, after, pair, amount - fee, fee);
  }

  lemma RenewKeepsBacked(s: System, signers: set<Name>, pair: Pair, id: U64, now: nat)
    requires L.Sound(s.ledger) && RenewStep(s, signers, pair, id, now).Some?
    ensures var s' := RenewStep(s, signers, pair, id, now).value;
      L.Sound(s'.ledger) && (SystemBacked(s) ==> SystemBacked(s'))
  {
    var q := s.pledges[pair].nextQuantity.amount;
    PayKeepsBacked(s.ledger, RenewStep(s, signers, pair, id, now).value.ledger, pair, q, FeeOf(q));
  }

  lemma StepKeepsBacked(s: System, op: Op)
    requires L.Sound(s.ledger)
    ensures L.Sound(Next(s, op).ledger)
    ensures SystemBacked(s) && PhoenixIsSilent(op) ==> SystemBacked(Next(s, op))
  {
    if Step(s, op).Some? {
      match op
      case SubmitPledge(_, _, _) =>
      case Renew(signers, pair, id, now) => RenewKeepsBacked(s, signers, pair, id, now);
      case Fire(id, now) => RenewKeepsBacked(s.(timers := s.timers - {id}), {}, s.timers[id].pair, id, now);
      case Pause(_, _) =>
      case Token(op') => L.NextKeepsSoundAndBacked(s.ledger, op');
    }
  }

  /** Balances stay non-negative and add up to the supply in every run of both contracts together,
      renewals and their timers included; while PHOENIX signs nothing, real tokens back all other
      balances too. */
  lemma {:induction false} RunKeepsBacked(s: System, ops: seq<Op>)
    requires L.Sound(s.ledger)
    ensures L.Sound(Run(s, ops).ledger)
    ensures SystemBacked(s) && (forall i :: 0 <= i < |ops| ==> PhoenixIsSilent(ops[i])) ==> SystemBacked(Run(s, ops))
    decreases |ops|
  {
    if ops != [] {
      StepKeepsBacked(s, ops[0]);
      RunKeepsBacked(Next(s, ops[0]), ops[1..]);
    }
  }

  /** So at any point of such a run a withdrawal is paid out exactly when its checks pass and the
      balance covers it. */
  lemma WithdrawalIsHonouredBesidesPledges(
      ops: seq<Op>, signers: set<Name>, vaccount: Name, toAccount: Name, accountExists: bool, q: Asset)
    requires forall i :: 0 <= i < |ops| ==> PhoenixIsSilent(ops[i])
    ensures
      var s := Run(EMPTY_SYSTEM, ops);
      Step(s, Token(L.Withdraw(signers, vaccount, toAccount, accountExists, q))).Some?
      <==> && !s.ledger.paused && vaccount in signers && vaccount in s.ledger.users && accountExists
           && q.symbol == WEOSDT && q.amount > 0 && L.Covers(s.ledger, vaccount, q)
           && L.CanLeave(s.ledger, vaccount, toAccount, q)
  {
    L.EmptyLedgerIsSound();
    RunKeepsBacked(EMPTY_SYSTEM, ops);
    var s := Run(EMPTY_SYSTEM, ops);
    if !s.ledger.paused {
      L.RedeemIsHonoured(s.ledger, vaccount, toAccount, q);
    }
  }

  // ---------- which pledges are ever paid ----------

  /** After this run the operation charges q to the pair. */
  predicate Charges(ops: seq<Op>, op: Op, pair: Pair, q: Asset) {
    var s := Run(EMPTY_SYSTEM, ops);
    PaymentTime(s, op, pair).Some? && pair in s.pledges && s.pledges[pair].nextQuantity == q
  }

  ghost predicate PaidInSomeRun(pair: Pair, q: Asset) {
    exists ops: seq<Op>, op: Op :: Charges(ops, op, pair, q)
  }

  lemma ChargeNeeds(ops: seq<Op>, op: Op, pair: Pair, q: Asset)
    requires Charges(ops, op, pair, q)
    ensures q.symbol == WEOSDT && 0 < q.amount <= MAX_AMOUNT
    ensures Payable(Run(EMPTY_SYSTEM, ops).ledger, pair, q.amount)
  {
    var s := Run(EMPTY_SYSTEM, ops);
    RunKeepsInv(EMPTY_SYSTEM, ops);
    L.EmptyLedgerIsSound();
    RunKeepsBacked(EMPTY_SYSTEM, ops);
    assert PledgeOk(pair, s.pledges[pair], s.nextId);
    PaymentNeeds(s.ledger, pair, q.amount);
    L.HeldIsAtLeast(s.ledger, L.AccountKey(pair.payer, WEOSDT.code));
  }

  function Tokens(ops: seq<L.Op>): seq<Op> {
    if ops == [] then [] else [Token(ops[0])] + Tokens(ops[1..])
  }

  lemma {:induction false} TokensThenOne(s: System, ops: seq<L.Op>, op: Op)
    ensures Run(s, Tokens(ops) + [op]) == Next(s.(ledger := L.Run(s.ledger, ops)), op)
    decreases |ops|
  {
    if ops == [] {
      assert [op][1..] == [];
      assert Tokens(ops) + [op] == [op];
    } else {
      TokensThenOne(Next(s, Token(ops[0])), ops[1..], op);
      assert (Tokens(ops) + [op])[1..] == Tokens(ops[1..]) + [op];
    }
  }

  /** The first pledge of all is charged at once if the ledger lets the pair pay. */
  lemma FirstPledgeIsPaid(ledger: L.State, p: Payload)
    requires L.Sound(ledger) && Payable(ledger, p.Key(), p.quantity.amount)
    requires p.quantity.symbol == WEOSDT && p.quantity.amount > 0
    ensures
      var s := Next(EMPTY_SYSTEM.(ledger := ledger), SubmitPledge({p.vaccount}, p, 0));
      && PaymentTime(s, Renew({p.vaccount}, p.Key(), 0, 0), p.Key()).Some?
      && p.Key() in s.pledges && s.pledges[p.Key()].nextQuantity == p.quantity
  {
    NewPledgeIsPayableAtOnce(EMPTY_SYSTEM.(ledger := ledger), {p.vaccount}, p, 0);
  }

  lemma LedgerIsSound(funds: seq<L.Op>)
    ensures L.Sound(L.Run(L.EMPTY_LEDGER, funds))
  {
    L.EmptyLedgerIsSound();
    L.RunKeepsSoundAndBacked(L.EMPTY_LEDGER, funds);
  }

  lemma PledgeThenRenew(funds: seq<L.Op>, p: Payload)
    requires Payable(L.Run(L.EMPTY_LEDGER, funds), p.Key(), p.quantity.amount)
    requires p.quantity.symbol == WEOSDT && p.quantity.amount > 0
    ensures PaidInSomeRun(p.Key(), p.quantity)
  {
    var call, ledger := SubmitPledge({p.vaccount}, p, 0), L.Run(L.EMPTY_LEDGER, funds);
    LedgerIsSound(funds);
    FirstPledgeIsPaid(ledger, p);
    TokensThenOne(EMPTY_SYSTEM, funds, call);
    assert EMPTY_SYSTEM.ledger == L.EMPTY_LEDGER;
    assert Charges(Tokens(funds) + [call], Renew({p.vaccount}, p.Key(), 0, 0), p.Key(), p.quantity);
  }

  /** A pledge is paid in some run exactly if its payer is not its creator, nor the fees account where
      a fee is due, and its positive quantity is within the range of assets. A pledge call checks none
      of these but the sign: the others are accepted, and every renewal of them aborts. */
  lemma PaidInSomeRunIff(pair: Pair, q: Asset)
    ensures PaidInSomeRun(pair, q)
       <==> q.symbol == WEOSDT && 0 < q.amount <= MAX_AMOUNT
            && pair.payer != pair.creator && (q.amount >= 50 ==> pair.payer != FEES)
  {
    if PaidInSomeRun(pair, q) {
      var ops, op :| Charges(ops, op, pair, q);
      ChargeNeeds(ops, op, pair, q);
    }
    if && q.symbol == WEOSDT && 0 < q.amount <= MAX_AMOUNT
       && pair.payer != pair.creator && (q.amount >= 50 ==> pair.payer != FEES)
    {
      L.HandOutGives(pair.payer, pair.creator, q);
      PledgeThenRenew(L.HandOut(pair.payer, pair.creator, q), Payload(pair.payer, pair.creator, q, false, false));
    }
  }

  /** Such a call is accepted all the same, for every pair of users and every positive quantity. */
  lemma UnpayablePledgeIsAccepted(pair: Pair, q: Asset)
    requires q.symbol == WEOSDT && q.amount > 0
    ensures
      var p := Payload(pair.payer, pair.creator, q, false, false);
      var ops := Tokens([L.SignUp(pair.payer), L.SignUp(pair.creator)]) + [SubmitPledge({pair.payer}, p, 0)];
      pair in Run(EMPTY_SYSTEM, ops).pledges && Run(EMPTY_SYSTEM, ops).pledges[pair].nextQuantity == q
  {
    var p := Payload(pair.payer, pair.creator, q, false, false);
    var ops := [L.SignUp(pair.payer), L.SignUp(pair.creator)];
    TokensThenOne(EMPTY_SYSTEM, ops, SubmitPledge({pair.payer}, p, 0));
    L.RunOfTwo(L.EMPTY_LEDGER, ops[0], ops[1]);
  }
}
