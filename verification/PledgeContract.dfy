/** The pledge actions of the membership contract: three tables and the timers changed in place,
    payments as inline actions of the token contract. */
module PledgeContract {
  import opened Wrappers
  import opened Words
  import opened Names
  import opened Fees
  import opened PledgeModel
  import opened Relations
  import L = Ledger
  import TokenContract

  const MAINTENANCE := "contract is currently under maintenance. Check back soon"

  class PledgeContract {
    const token: TokenContract.TokenContract
    var pledges: map<U64, Pledge>
    var pledgesFrom: Relations
    var pledgesTo: Relations
    var nextId: nat
    var timers: map<U64, Timer>
    var paused: bool
    ghost var pairs: map<Pair, Pledge>

    ghost function Now(): System
      reads this, token
    {
      System(pairs, nextId, timers, paused, token.Now())
    }

    /** The three tables agree: they are three views of one map from pairs to pledges. */
    ghost predicate TablesAgree()
      reads `pledges, `pledgesFrom, `pledgesTo, `pairs
    {
      && SamePledges(pledges, pairs)
      && Mirrors(pledgesFrom, pairs, true)
      && Mirrors(pledgesTo, pairs, false)
    }

    ghost predicate Valid()
      reads this, token
    {
      TablesAgree() && Inv(Now())
    }

    ghost predicate Ended(r: Result<Unit>, expected: Option<System>, before: System)
      reads this, token
    {
      match expected
      case Some(after) => r.Ok? && Now() == after
      case None => r.Aborted? && Now() == before
    }

    constructor (token: TokenContract.TokenContract)
      ensures Valid() && this.token == token && Now() == System(map[], 0, map[], false, token.Now())
    {
      this.token := token;
      pledges, pledgesFrom, pledgesTo, pairs := map[], map[], map[], map[];
      nextId, timers, paused := 0, map[], false;
    }

    method SubmitPledgeAction(signers: set<Name>, payload: Payload, now: nat) returns (r: Result<Unit>)
      requires Valid()
      modifies this
      ensures Valid() && Ended(r, Step(old(Now()), SubmitPledge(signers, payload, now)), old(Now()))
    {
      if paused { return Aborted(MAINTENANCE); }
      if payload.vaccount !in signers { return Aborted("missing vaccount signature"); }
      if payload.vaccount !in token.users || payload.to !in token.users { return Aborted("user does not exist"); }
      if !payload.quantity.symbol.IsValid() { WeosdtIsValid(); return Aborted("invalid weosdt_quantity"); }
      if payload.quantity.symbol != WEOSDT { return Aborted("invalid token symbol for weosdt_quantity"); }
      if payload.quantity.amount <= 0 { return Aborted("weosdt_quantity must be > 0"); }
      r := RecordPledge(signers, payload, now);
      if r.Ok? { StepKeepsInv(old(Now()), SubmitPledge(signers, payload, now)); }
    }

    /** Updates the pledge that the payer's list names for this creator, or makes a new one. */
    method RecordPledge(ghost signers: set<Name>, payload: Payload, now: nat) returns (r: Result<Unit>)
      requires TablesAgree() && CanPledge(Now(), signers, payload)
      modifies `pledges, `pairs, `nextId, `pledgesFrom, `pledgesTo
      ensures TablesAgree() && Ended(r, PledgeStep(old(Now()), signers, payload, now), old(Now()))
    {
      var tos := LinksOf(pledgesFrom, payload.vaccount);
      var i := FindLink(tos, payload.to);
      NamedIffPledged(pledgesFrom, pairs, true, payload.vaccount, payload.to);
      if i == |tos| {
        var id := AvailablePledgeId();
        if id in pledges {
          r := Aborted("key already exists");
        } else {
          CreatePledge(id, payload, now);
          r := Ok(Unit);
        }
      } else {
        assert Link(payload.to, tos[i].pledgeId) in tos;
        UpdatePledge(tos[i].pledgeId, payload);
        r := Ok(Unit);
      }
    }

    /** The pledges table hands out its next key, cut to 64 bits. */
    function AvailablePledgeId(): (id: U64)
      reads this
      ensures id < TWO_64 && (nextId < TWO_64 ==> id == nextId)
    {
      nextId % TWO_64
    }

    method CreatePledge(id: U64, payload: Payload, now: nat)
      requires TablesAgree() && id !in pledges && payload.Key() !in pairs
      modifies `pledges, `pairs, `nextId, `pledgesFrom, `pledgesTo
      ensures TablesAgree() && pairs == old(pairs)[payload.Key() := NewPledge(id, payload, now)]
      ensures nextId == if old(nextId) < id + 1 then id + 1 else old(nextId)
    {
      var p := NewPledge(id, payload, now);
      WriteKeepsSamePledges(pledges, pairs, payload.Key(), p);
      pledges := pledges[id := p];
      if nextId < id + 1 {
        nextId := id + 1;
      }
      NamedIffPledged(pledgesFrom, pairs, true, payload.vaccount, payload.to);
      NamedIffPledged(pledgesTo, pairs, false, payload.to, payload.vaccount);
      AddKeepsMirrors(pledgesFrom, pairs, true, payload.vaccount, payload.to, p);
      AddKeepsMirrors(pledgesTo, pairs, false, payload.to, payload.vaccount, p);
      pledgesFrom := UpsertLink(pledgesFrom, payload.vaccount, Link(payload.to, id));
      pledgesTo := UpsertLink(pledgesTo, payload.to, Link(payload.vaccount, id));
      pairs := pairs[payload.Key() := p];
    }

    method UpdatePledge(id: U64, payload: Payload)
      requires TablesAgree() && payload.Key() in pairs && pairs[payload.Key()].id == id
      modifies `pledges, `pairs
      ensures TablesAgree() && pairs == old(pairs)[payload.Key() := Updated(old(pairs)[payload.Key()], payload)]
    {
      var p := pledges[id];
      p := p.(nextQuantity := payload.quantity, autorenew := payload.autorenew, nextDelete := payload.nextDelete);
      StorePledge(id, p, payload.Key());
    }

    /** Writes back a changed row whose id and endpoints are what they were. */
    method StorePledge(id: U64, p: Pledge, ghost k: Pair)
      requires TablesAgree() && k in pairs && pairs[k].id == id
      requires p.id == id && p.payer == k.payer && p.creator == k.creator
      modifies `pledges, `pairs
      ensures TablesAgree() && pairs == old(pairs)[k := p] && pledges == old(pledges)[id := p]
    {
      WriteKeepsSamePledges(pledges, pairs, k, p);
      UpdateKeepsMirrors(pledgesFrom, pairs, true, k, p);
      UpdateKeepsMirrors(pledgesTo, pairs, false, k, p);
      pledges := pledges[id := p];
      pairs := pairs[k := p];
    }

    method RenewPledge(signers: set<Name>, vaccount: Name, to: Name, id: U64, now: nat) returns (r: Result<Unit>)
      requires Valid()
      modifies this, token
      ensures Valid() && Ended(r, Step(old(Now()), Renew(signers, Pair(vaccount, to), id, now)), old(Now()))
    {
      if paused { return Aborted(MAINTENANCE); }
      if id !in pledges { return Aborted("pledge does not exist"); }
      var pledge := pledges[id];
      if pledge.creator != to { return Aborted("wrong subscriber account"); }
      if pledge.payer != vaccount { return Aborted("you are not the sender of this pledge"); }
      if !pledge.autorenew && pledge.payer !in signers { return Aborted("missing vaccount signature"); }
      if pledge.paid && now <= pledge.cycleStart + pledge.cycleUs { return Aborted("current pledge is still running"); }
      assert PledgeOk(Pair(vaccount, to), pairs[Pair(vaccount, to)], nextId);
      r := RunCycle(id, Pair(vaccount, to), now);
      if r.Ok? { StepKeepsInv(old(Now()), Renew(signers, Pair(vaccount, to), id, now)); }
    }

    /** Starts the next cycle and pays for it. */
    method RunCycle(id: U64, ghost k: Pair, now: nat) returns (r: Result<Unit>)
      requires TablesAgree() && k in pairs && pairs[k].id == id
      requires pairs[k].nextQuantity.amount > 0 && pairs[k].nextQuantity.symbol == WEOSDT
      modifies `pledges, `pairs, `timers, token
      ensures TablesAgree()
      ensures Ended(r, CycleStep(old(Now()), k, id, now), old(Now()))
    {
      var pledge, saved := pledges[id], pledges;
      var renewed :=
        pledge.(cycleStart := now, quantity := pledge.nextQuantity, cycleUs := pledge.nextCycleUs, paid := true);
      StorePledge(id, renewed, k);
      r := PayPledge(id, k, now);
      if r.Aborted? {
        pledges, pairs := saved, old(pairs);
      }
    }

    /** Two inline transfers, which succeed or fail together, and the timer of the next renewal. */
    method PayPledge(id: U64, ghost k: Pair, now: nat) returns (r: Result<Unit>)
      requires TablesAgree() && id in pledges
      requires pledges[id].quantity.amount > 0 && pledges[id].quantity.symbol == WEOSDT
      requires k == Pair(pledges[id].payer, pledges[id].creator) && pledges[id].cycleStart == now
      modifies `timers, token
      ensures match Pay(old(token.Now()), k, pledges[id].quantity.amount)
        case Some(after) =>
          r.Ok? && token.Now() == after && timers == ScheduledTimers(old(timers), id, k, pledges[id], now)
        case None => r.Aborted? && token.Now() == old(token.Now()) && timers == old(timers)
    {
      var pledge := pledges[id];
      var quantity := pledge.quantity;
      var fees := FeeOf(quantity.amount);
      r := InlineTransfers(k, pledge.payer, pledge.creator, quantity.amount, fees);
      if r.Ok? && pledge.autorenew {
        ScheduleRenewal(id, now);
      }
    }

    method InlineTransfers(ghost k: Pair, payer: Name, creator: Name, amount: nat, fees: nat) returns (r: Result<Unit>)
      requires k == Pair(payer, creator)
      modifies token
      ensures match PayParts(old(token.Now()), k, amount, fees)
        case Some(after) => r.Ok? && token.Now() == after
        case None => r.Aborted? && token.Now() == old(token.Now())
    {
      var saved := token.accounts;
      r := Ok(Unit);
      if amount - fees > 0 {
        r := token.TransferAction({PHOENIX_ACCOUNT}, payer, creator, Asset(amount - fees, WEOSDT), "subscription");
      }
      if r.Ok? && fees > 0 {
        r := token.TransferAction({PHOENIX_ACCOUNT}, payer, FEES, Asset(fees, WEOSDT), "subscription fees");
      }
      if r.Aborted? {
        token.accounts := saved;
      }
    }

    method ScheduleRenewal(id: U64, now: nat)
      requires id in pledges && pledges[id].cycleStart == now
      modifies `timers
      ensures timers == old(timers)[id := NextTimer(Pair(pledges[id].payer, pledges[id].creator), pledges[id], now)]
    {
      var pledge := pledges[id];
      var seconds := (pledge.cycleStart + pledge.cycleUs - now) / SECOND + 1;
      timers := timers[id := Timer(Pair(pledge.payer, pledge.creator), now + seconds * SECOND, pledge.cycleStart)];
    }

    /** The scheduler calls back, not before the timer is due. */
    method TimerCallback(id: U64, now: nat) returns (r: Result<Unit>)
      requires Valid() && id in timers && now >= timers[id].due
      modifies this, token
      ensures Valid() && Ended(r, Step(old(Now()), Fire(id, now)), old(Now()))
    {
      var timer := timers[id];
      var saved := timers;
      ghost var before := Now();
      DropTimerKeepsInv(before, id);
      timers := timers - {id};
      r := RenewPledge({}, timer.pair.payer, timer.pair.creator, id, now);
      if r.Aborted? {
        timers := saved;
        assert Now() == before;
      }
    }

    method PauseContract(auth: set<Name>, on: bool) returns (r: Result<Unit>)
      requires Valid()
      modifies `paused
      ensures Valid() && Ended(r, Step(old(Now()), Pause(auth, on)), old(Now()))
    {
      if PHOENIX_ACCOUNT !in auth { return Aborted("missing authority"); }
      paused := on;
      r := Ok(Unit);
      StepKeepsInv(old(Now()), Pause(auth, on));
    }

    method TokenAction(op: L.Op) returns (r: Result<Unit>)
      requires Valid()
      modifies token
      ensures Valid() && Ended(r, Step(old(Now()), Token(op)), old(Now()))
    {
      r := token.Perform(op);
      if r.Ok? { StepKeepsInv(old(Now()), Token(op)); }
    }

    method Perform(op: Op) returns (r: Result<Unit>)
      requires Valid()
      modifies this, token
      ensures Valid() && Ended(r, Step(old(Now()), op), old(Now()))
    {
      match op {
        case SubmitPledge(signers, payload, now) => r := SubmitPledgeAction(signers, payload, now);
        case Renew(signers, pair, id, now) => r := RenewPledge(signers, pair.payer, pair.creator, id, now);
        case Fire(id, now) =>
          if id in timers && now >= timers[id].due {
            r := TimerCallback(id, now);
          } else {
            r := Aborted("not due");
          }
        case Pause(auth, on) => r := PauseContract(auth, on);
        case Token(op') => r := TokenAction(op');
      }
    }

    /** Every run of the two contracts is a run of the machine, with the three tables in agreement. */
    method PerformAll(ops: seq<Op>)
      requires Valid()
      modifies this, token
      ensures Valid() && Now() == Run(old(Now()), ops)
    {
      assert ops[0..] == ops;
      for i := 0 to |ops|
        invariant Valid() && Run(Now(), ops[i..]) == Run(old(Now()), ops)
      {
        var r := Perform(ops[i]);
        assert ops[i..][1..] == ops[i + 1..];
      }
    }
  }
}
