/** Recurring pledges, on top of the token ledger, as a machine whose steps finish or abort as a
    whole: one pledge for each ordered pair of payer and creator. */
module PledgeModel {
  import opened Wrappers
  import opened Words
  import opened Names
  import opened Fees
  import L = Ledger

  const DAYS_30: nat := 2_592_000_000_000   // microseconds
  const SECOND: nat := 1_000_000

  datatype Pair = Pair(payer: Name, creator: Name)

  datatype Pledge = Pledge(
    id: U64, payer: Name, creator: Name, cycleUs: nat, quantity: Asset, cycleStart: nat, autorenew: bool,
    nextCycleUs: nat, nextQuantity: Asset, nextDelete: bool, paid: bool)
  {
    function CycleEnd(): nat { cycleStart + cycleUs }
  }

  datatype Payload = Payload(vaccount: Name, to: Name, quantity: Asset, autorenew: bool, nextDelete: bool) {
    function Key(): Pair { Pair(vaccount, to) }
  }

  /** A scheduled renewal; cycle is the start of the cycle that it was scheduled in. */
  datatype Timer = Timer(pair: Pair, due: nat, cycle: nat)

  datatype System = System(
    pledges: map<Pair, Pledge>, nextId: nat, timers: map<U64, Timer>, paused: bool, ledger: L.State)

  datatype Op =
    | SubmitPledge(signers: set<Name>, payload: Payload, now: nat)
    | Renew(signers: set<Name>, pair: Pair, id: U64, now: nat)
    | Fire(id: U64, now: nat)
    | Pause(auth: set<Name>, on: bool)
    | Token(op: L.Op)

  // ---------- pledging ----------

  predicate IdTaken(pledges: map<Pair, Pledge>, id: U64) {
    exists k :: k in pledges && pledges[k].id == id
  }

  predicate CanPledge(s: System, signers: set<Name>, p: Payload) {
    && !s.paused && p.vaccount in signers && p.vaccount in s.ledger.users && p.to in s.ledger.users
    && p.quantity.symbol == WEOSDT && p.quantity.amount > 0
  }

  function NewPledge(id: U64, p: Payload, now: nat): Pledge {
    Pledge(id, p.vaccount, p.to, DAYS_30, p.quantity, now, p.autorenew, DAYS_30, p.quantity, false, false)
  }

  function Updated(was: Pledge, p: Payload): Pledge {
    was.(nextQuantity := p.quantity, autorenew := p.autorenew, nextDelete := p.nextDelete)
  }

  function PledgeStep(s: System, signers: set<Name>, p: Payload, now: nat): Option<System> {
    if !CanPledge(s, signers, p) then None
    else if p.Key() in s.pledges then
      Some(s.(pledges := s.pledges[p.Key() := Updated(s.pledges[p.Key()], p)]))
    else
      var id := s.nextId % TWO_64;
      if IdTaken(s.pledges, id) then None
      else Some(s.(pledges := s.pledges[p.Key() := NewPledge(id, p, now)],
                   nextId := if s.nextId < id + 1 then id + 1 else s.nextId))
  }

  // ---------- renewing and paying ----------

  /** (cycle end - now).to_seconds() + 1, where the division drops the fraction. */
  function DelaySeconds(remainingUs: nat): nat {
    remainingUs / SECOND + 1
  }

  /** An inline transfer action under the authority of the membership contract. */
  function PayOne(ledger: L.State, from: Name, to: Name, amount: int): Option<L.State> {
    if amount <= 0 then Some(ledger)
    else L.TransferAction(ledger, from, to, Asset(amount, WEOSDT))
  }

  /** The creator's part first, then the fee; if either cannot be paid, nothing is. */
  function PayParts(ledger: L.State, pair: Pair, amount: nat, fee: nat): Option<L.State> {
    match PayOne(ledger, pair.payer, pair.creator, amount - fee)
    case None => None
    case Some(paid) => PayOne(paid, pair.payer, FEES, fee)
  }

  function Pay(ledger: L.State, pair: Pair, amount: nat): Option<L.State> {
    PayParts(ledger, pair, amount, FeeOf(amount))
  }

  lemma PayOneIsATransfer(ledger: L.State, from: Name, to: Name, amount: nat, memo: string)
    requires amount > 0 && |memo| <= 256
    ensures PayOne(ledger, from, to, amount)
         == L.Step(ledger, L.Transfer({PHOENIX_ACCOUNT}, from, to, Asset(amount, WEOSDT), memo))
  {
  }

  function NextCycle(p: Pledge, now: nat): Pledge {
    p.(cycleStart := now, quantity := p.nextQuantity, cycleUs := p.nextCycleUs, paid := true)
  }

  predicate CanRenew(s: System, signers: set<Name>, pair: Pair, id: U64, now: nat) {
    && !s.paused && pair in s.pledges && s.pledges[pair].id == id
    && (s.pledges[pair].autorenew || pair.payer in signers)
    && (s.pledges[pair].paid ==> now > s.pledges[pair].CycleEnd())
  }

  function NextTimer(pair: Pair, p: Pledge, now: nat): Timer
    requires p.cycleStart == now
  {
    Timer(pair, now + DelaySeconds(p.CycleEnd() - now) * SECOND, now)
  }

  function ScheduledTimers(timers: map<U64, Timer>, id: U64, pair: Pair, p: Pledge, now: nat): map<U64, Timer>
    requires p.cycleStart == now
  {
    if p.autorenew then timers[id := NextTimer(pair, p, now)] else timers
  }

  function CycleStep(s: System, pair: Pair, id: U64, now: nat): Option<System>
    requires pair in s.pledges
  {
    var p := NextCycle(s.pledges[pair], now);
    if p.quantity.amount < 0 then None
    else
      match Pay(s.ledger, pair, p.quantity.amount)
      case None => None
      case Some(ledger) =>
        Some(s.(pledges := s.pledges[pair := p], ledger := ledger,
                timers := ScheduledTimers(s.timers, id, pair, p, now)))
  }

  function RenewStep(s: System, signers: set<Name>, pair: Pair, id: U64, now: nat): Option<System> {
    if CanRenew(s, signers, pair, id, now) then CycleStep(s, pair, id, now) else None
  }

  /** A callback is never early. It carries no signature. */
  function FireStep(s: System, id: U64, now: nat): Option<System> {
    if id in s.timers && now >= s.timers[id].due
    then RenewStep(s.(timers := s.timers - {id}), {}, s.timers[id].pair, id, now)
    else None
  }

  function Step(s: System, op: Op): Option<System> {
    match op
    case SubmitPledge(signers, p, now) => PledgeStep(s, signers, p, now)
    case Renew(signers, pair, id, now) => RenewStep(s, signers, pair, id, now)
    case Fire(id, now) => FireStep(s, id, now)
    case Pause(auth, on) => if PHOENIX_ACCOUNT in auth then Some(s.(paused := on)) else None
    case Token(op') =>
      (match L.Step(s.ledger, op')
       case None => None
       case Some(ledger) => Some(s.(ledger := ledger)))
  }

  function Next(s: System, op: Op): System {
    match Step(s, op)
    case Some(s') => s'
    case None => s
  }

  function Run(s: System, ops: seq<Op>): System
    decreases |ops|
  {
    if ops == [] then s else Run(Next(s, ops[0]), ops[1..])
  }

  const EMPTY_SYSTEM := System(map[], 0, map[], false, L.EMPTY_LEDGER)

  // ---------- invariants ----------

  ghost predicate PledgeOk(k: Pair, p: Pledge, nextId: nat) {
    && p.payer == k.payer && p.creator == k.creator && p.id < nextId
    && p.cycleUs == DAYS_30 && p.nextCycleUs == DAYS_30
    && p.nextQuantity.symbol == WEOSDT && p.nextQuantity.amount > 0
  }

  ghost predicate TimerOk(s: System, id: U64) {
    id in s.timers ==>
      var t := s.timers[id];
      && t.pair in s.pledges && s.pledges[t.pair].id == id && s.pledges[t.pair].paid
      && t.cycle + DAYS_30 < t.due <= t.cycle + DAYS_30 + SECOND
  }

  ghost predicate Inv(s: System) {
    && s.nextId <= TWO_64
    && (forall k :: k in s.pledges ==> PledgeOk(k, s.pledges[k], s.nextId))
    && (forall j, k :: j in s.pledges && k in s.pledges && s.pledges[j].id == s.pledges[k].id ==> j == k)
    && (forall id: U64 :: TimerOk(s, id))
  }

  /** The delay ends after the cycle, by at most one second. */
  lemma TimerIsNeverEarly(now: nat, remainingUs: nat)
    ensures now + remainingUs < now + DelaySeconds(remainingUs) * SECOND <= now + remainingUs + SECOND
  {
  }

  lemma PledgeKeepsInv(s: System, signers: set<Name>, p: Payload, now: nat)
    requires Inv(s) && PledgeStep(s, signers, p, now).Some?
    ensures Inv(PledgeStep(s, signers, p, now).value)
  {
    var s' := PledgeStep(s, signers, p, now).value;
    forall id: U64 ensures TimerOk(s', id) { assert TimerOk(s, id); }
  }

  lemma RenewKeepsInv(s: System, signers: set<Name>, pair: Pair, id: U64, now: nat)
    requires Inv(s) && RenewStep(s, signers, pair, id, now).Some?
    ensures Inv(RenewStep(s, signers, pair, id, now).value)
  {
    var s' := RenewStep(s, signers, pair, id, now).value;
    TimerIsNeverEarly(now, DAYS_30);
    forall x: U64 ensures TimerOk(s', x) { assert TimerOk(s, x); }
  }

  lemma DropTimerKeepsInv(s: System, id: U64)
    requires Inv(s)
    ensures Inv(s.(timers := s.timers - {id}))
  {
    forall x: U64 ensures TimerOk(s.(timers := s.timers - {id}), x) { assert TimerOk(s, x); }
  }

  lemma StepKeepsInv(s: System, op: Op)
    requires Inv(s) && Step(s, op).Some?
    ensures Inv(Step(s, op).value)
  {
    match op
    case SubmitPledge(signers, p, now) => PledgeKeepsInv(s, signers, p, now);
    case Renew(signers, pair, id, now) => RenewKeepsInv(s, signers, pair, id, now);
    case Fire(id, now) =>
      var s0 := s.(timers := s.timers - {id});
      DropTimerKeepsInv(s, id);
      RenewKeepsInv(s0, {}, s.timers[id].pair, id, now);
    case Pause(_, _) => forall x: U64 ensures TimerOk(Step(s, op).value, x) { assert TimerOk(s, x); }
    case Token(_) => forall x: U64 ensures TimerOk(Step(s, op).value, x) { assert TimerOk(s, x); }
  }

  lemma {:induction false} RunKeepsInv(s: System, ops: seq<Op>)
    requires Inv(s)
    ensures Inv(Run(s, ops))
    decreases |ops|
  {
    if ops != [] {
      if Step(s, ops[0]).Some? { StepKeepsInv(s, ops[0]); }
      RunKeepsInv(Next(s, ops[0]), ops[1..]);
    }
  }
}
