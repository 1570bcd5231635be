/** Whose word moves whose tokens: what each finished action of the token contract does to every
    balance, who had to authorise it, and which account a memo credits. */
module TokenLaws {
  import opened Wrappers
  import opened Words
  import opened Names
  import opened Memos
  import opened Ledger

  function Balance(s: State, owner: Name, symbol: Symbol): int {
    BalanceOf(s.accounts, owner, symbol).amount
  }

  /** What a movement of q means for one balance. */
  function Flow(from: Name, to: Name, q: Asset, owner: Name, symbol: Symbol): int {
    if symbol.code != q.symbol.code then 0
    else (if owner == to then q.amount else 0) - (if owner == from then q.amount else 0)
  }

  // ---------- what each action does ----------

  lemma MoveFlows(s: State, from: Name, to: Name, q: Asset, owner: Name, symbol: Symbol)
    requires Move(s, from, to, q).Some?
    ensures
      var s' := Move(s, from, to, q).value;
      && Balance(s', owner, symbol) == Balance(s, owner, symbol) + Flow(from, to, q, owner, symbol)
      && s' == s.(accounts := s'.accounts) && q.amount > 0
  {
    MoveIsExact(s, from, to, q, owner, symbol);
  }

  /** Every finished action, every balance, and the real tokens. */
  lemma ActionFlows(s: State, op: Op, owner: Name, symbol: Symbol)
    requires Step(s, op).Some?
    ensures
      var s' := Step(s, op).value;
      var change := Balance(s', owner, symbol) - Balance(s, owner, symbol);
      match op
      case Issue(_, to, q, _) => change == (if owner == to && symbol.code == q.symbol.code then q.amount else 0)
      case Transfer(_, from, to, q, _) => change == Flow(from, to, q, owner, symbol)
      case TransferV(_, from, to, q, _) => change == Flow(from, to, q, owner, symbol)
      case Withdraw(_, v, _, _, q) =>
        change == Flow(v, PHOENIX, q, owner, symbol) && s'.custody == s.custody - q.amount
      case Payout(_, _, _) =>
        var fees := BalanceOf(s.accounts, FEES, WEOSDT);
        change == Flow(FEES, PHOENIX, fees, owner, symbol) && s'.custody == s.custody - fees.amount
      case Incoming(contract, from, to, q, memo) => IncomingFlows(s, s', contract, from, to, q, memo, owner, symbol)
      case _ => change == 0
  {
    match op
    case Transfer(_, from, to, q, _) => MoveFlows(s, from, to, q, owner, symbol);
    case TransferV(_, from, to, q, _) => MoveFlows(s, from, to, q, owner, symbol);
    case Withdraw(_, v, _, _, q) => MoveFlows(s, v, PHOENIX, q, owner, symbol);
    case Payout(_, _, _) => MoveFlows(s, FEES, PHOENIX, BalanceOf(s.accounts, FEES, WEOSDT), owner, symbol);
    case Incoming(contract, from, to, q, memo) => ReceiptFlows(s, contract, from, to, q, memo, owner, symbol);
    case _ =>
  }

  lemma ActionFrames(s: State, op: Op)
    requires Step(s, op).Some?
    ensures !op.Withdraw? && !op.Payout? && !op.Incoming? ==> Step(s, op).value.custody == s.custody
    ensures Step(s, op).value.paused == s.paused
    ensures Step(s, op).value.users == if op.SignUp? then s.users + {op.user} else s.users
  {
  }

  /** A real transfer to this contract adds to the real tokens. Unless it comes from the staking account
      it is a deposit: it moves the amount from PHOENIX to the one whom the memo names. */
  ghost predicate IncomingFlows(
      s: State, s': State, contract: Name, from: Name, to: Name, q: Asset, memo: string, owner: Name, symbol: Symbol)
  {
    var change := Balance(s', owner, symbol) - Balance(s, owner, symbol);
    if contract != WEOSDT_CONTRACT || q.symbol != WEOSDT || to != SELF then change == 0 && s'.custody == s.custody
    else
      && from != SELF && q.amount > 0 && s'.custody == s.custody + q.amount
      && if from == STAKE then change == 0
         else exists n: string :: Spells(memo, n) && NameOf(n).Some? && NameOf(n).value in s.users
                && change == Flow(PHOENIX, NameOf(n).value, q, owner, symbol)
  }

  /** The memo is a deposit to n: "deposit n", with at most one space after it. */
  predicate Spells(memo: string, n: string) {
    SpaceFree(n) && ((n != "" && memo == "deposit " + n) || memo == "deposit " + n + " ")
  }

  lemma ReceiptFlows(
      s: State, contract: Name, from: Name, to: Name, q: Asset, memo: string, owner: Name, symbol: Symbol)
    requires Step(s, Incoming(contract, from, to, q, memo)).Some?
    ensures IncomingFlows(s, Step(s, Incoming(contract, from, to, q, memo)).value, contract, from, to, q, memo,
      owner, symbol)
  {
    if IsDeposit(contract, from, to, q) {
      var n := Named(memo);
      MoveFlows(ReceiveReal(s, contract, from, to, q).value, PHOENIX, NameOf(n).value, q, owner, symbol);
    }
  }

  lemma Named(memo: string) returns (n: string)
    requires Depositor(memo).Some?
    ensures Spells(memo, n) && NameOf(n) == Depositor(memo)
  {
    n := Split(memo)[1];
    assert Split(memo) == ["deposit", n];
    DepositMemo(memo, n);
  }

  lemma NamedOnly(memo: string, n: string)
    requires Spells(memo, n)
    ensures Depositor(memo) == NameOf(n)
  {
    DepositMemo(memo, n);
    assert Split(memo) == ["deposit", n];
  }

  // ---------- deposits ----------

  /** A real WEOSDT transfer from outside succeeds exactly if the contract runs, the memo spells a
      user, and the row of PHOENIX covers the positive amount. */
  lemma DepositSucceedsIff(s: State, from: Name, q: Asset, memo: string)
    requires Sound(s) && from != SELF && from != STAKE && q.symbol == WEOSDT
    ensures Step(s, Incoming(WEOSDT_CONTRACT, from, SELF, q, memo)).Some?
       <==> && !s.paused && q.amount > 0 && Covers(s, PHOENIX, q)
            && exists n: string :: Spells(memo, n) && NameOf(n).Some? && NameOf(n).value in s.users
  {
    if Depositor(memo).Some? {
      var n := Named(memo);
      ReceiptSucceedsIff(s, from, q, NameOf(n).value);
    }
    if n: string :| Spells(memo, n) && NameOf(n).Some? && NameOf(n).value in s.users {
      NamedOnly(memo, n);
      ReceiptSucceedsIff(s, from, q, NameOf(n).value);
    }
  }

  lemma ReceiptSucceedsIff(s: State, from: Name, q: Asset, v: Name)
    requires Sound(s) && from != SELF && from != STAKE && q.symbol == WEOSDT
    ensures Receive(s, WEOSDT_CONTRACT, from, SELF, q, Some(v)).Some?
       <==> !s.paused && q.amount > 0 && Covers(s, PHOENIX, q) && v in s.users
  {
    WeosdtIsValid();
    if q.amount > 0 {
      var received := ReceiveReal(s, WEOSDT_CONTRACT, from, SELF, q).value;
      if Covers(s, PHOENIX, q) {
        HeldIsAtLeast(s, AccountKey(PHOENIX, WEOSDT.code));
        MoveSucceedsIffCovered(received, PHOENIX, v, q);
      }
    }
  }

  // ---------- who has to agree ----------

  /** A balance falls only if its owner signed, or one of the two contracts moved it: by a direct
      transfer, by the payout of the fees, or, for PHOENIX, by a deposit to someone else. */
  lemma BalanceFallsOnlyByItsOwner(s: State, op: Op, owner: Name, symbol: Symbol)
    requires Step(s, op).Some? && Balance(Step(s, op).value, owner, symbol) < Balance(s, owner, symbol)
    ensures match op
      case TransferV(signers, from, _, _, _) => owner == from && owner in signers
      case Withdraw(signers, v, _, _, _) => owner == v && owner in signers
      case Transfer(auth, from, _, _, _) => owner == from && (SELF in auth || PHOENIX_ACCOUNT in auth)
      case Payout(auth, _, _) => owner == FEES && SELF in auth
      case Incoming(contract, from, to, q, _) =>
        owner == PHOENIX && contract == WEOSDT_CONTRACT && to == SELF && q.symbol == WEOSDT
      case _ => false
  {
    ActionFlows(s, op, owner, symbol);
  }

  /** The owner has not signed this, and neither contract takes tokens from the owner. */
  predicate LeavesAlone(op: Op, owner: Name) {
    match op
    case TransferV(signers, _, _, _, _) => owner !in signers
    case Withdraw(signers, _, _, _, _) => owner !in signers
    case Transfer(auth, from, _, _, _) => owner != from || (SELF !in auth && PHOENIX_ACCOUNT !in auth)
    case Payout(auth, _, _) => owner != FEES || SELF !in auth
    case _ => true
  }

  /** In every run, finished and aborted actions mixed, a balance never falls while its owner signs
      nothing and no contract takes from it. */
  lemma {:induction false} SilentBalanceNeverFalls(s: State, ops: seq<Op>, owner: Name, symbol: Symbol)
    requires owner != PHOENIX && forall i :: 0 <= i < |ops| ==> LeavesAlone(ops[i], owner)
    ensures Balance(Run(s, ops), owner, symbol) >= Balance(s, owner, symbol)
    decreases |ops|
  {
    if ops != [] {
      var next := Next(s, ops[0]);
      assert LeavesAlone(ops[0], owner);
      if Balance(next, owner, symbol) < Balance(s, owner, symbol) {
        BalanceFallsOnlyByItsOwner(s, ops[0], owner, symbol);
      }
      SilentBalanceNeverFalls(next, ops[1..], owner, symbol);
    }
  }

  /** A transfer by a vaccount needs its own signature. */
  lemma TransferVSucceedsIff(s: State, signers: set<Name>, from: Name, to: Name, amount: int, memo: string)
    requires Sound(s) && amount > 0
    ensures Step(s, TransferV(signers, from, to, Asset(amount, WEOSDT), memo)).Some?
       <==> && !s.paused && from in signers && |memo| <= 256 && from != to && from in s.users && to in s.users
            && Covers(s, from, Asset(amount, WEOSDT))
  {
    TransferSucceedsIff(s, from, to, amount);
  }

  /** A direct transfer needs the authority of one of the two contracts. */
  lemma TransferNeedsAContract(s: State, auth: set<Name>, from: Name, to: Name, amount: int, memo: string)
    requires Sound(s) && amount > 0
    ensures Step(s, Transfer(auth, from, to, Asset(amount, WEOSDT), memo)).Some?
       <==> && !s.paused && (SELF in auth || PHOENIX_ACCOUNT in auth) && |memo| <= 256 && from != to
            && from in s.users && to in s.users && Covers(s, from, Asset(amount, WEOSDT))
  {
    TransferSucceedsIff(s, from, to, amount);
  }

  lemma RedeemSucceedsIff(s: State, v: Name, toAccount: Name, q: Asset)
    requires Sound(s) && !s.paused && q.symbol == WEOSDT
    ensures Redeem(s, v, toAccount, q).Some?
       <==> q.amount > 0 && Covers(s, v, q) && toAccount != SELF && q.amount <= s.custody
  {
    WeosdtIsValid();
    if q.amount > 0 && Covers(s, v, q) {
      HeldIsAtLeast(s, AccountKey(v, WEOSDT.code));
      MoveSucceedsIffCovered(s, v, PHOENIX, q);
    }
  }

  /** A withdrawal needs the signature of its vaccount, a covering balance, and the real tokens; backed or
      not, whatever happened before. */
  lemma WithdrawSucceedsIff(s: State, signers: set<Name>, v: Name, toAccount: Name, accountExists: bool, q: Asset)
    requires Sound(s)
    ensures Step(s, Withdraw(signers, v, toAccount, accountExists, q)).Some?
       <==> && !s.paused && v in signers && v in s.users && accountExists && q.symbol == WEOSDT && q.amount > 0
            && Covers(s, v, q) && toAccount != SELF && q.amount <= s.custody
  {
    if !s.paused && q.symbol == WEOSDT { RedeemSucceedsIff(s, v, toAccount, q); }
  }

  lemma PayoutSucceedsIff(s: State, auth: set<Name>, toAccount: Name, accountExists: bool)
    requires Sound(s)
    ensures
      var fees := BalanceOf(s.accounts, FEES, WEOSDT);
      Step(s, Payout(auth, toAccount, accountExists)).Some?
      <==> && !s.paused && SELF in auth && FEES in s.users && accountExists && toAccount != SELF
           && fees.symbol == WEOSDT && 0 < fees.amount <= s.custody
  {
    var fees := BalanceOf(s.accounts, FEES, WEOSDT);
    if !s.paused && fees.symbol == WEOSDT { RedeemSucceedsIff(s, FEES, toAccount, fees); }
  }

  /** What is no deposit: a notification about another symbol, or of a transfer from this contract or the
      staking account, is let through while the contract runs; WEOSDT from anywhere else, or of which
      this contract is not the receiver, is refused. */
  lemma OtherTransferSucceedsIff(s: State, contract: Name, from: Name, to: Name, q: Asset, memo: string)
    requires !(contract == WEOSDT_CONTRACT && to == SELF && q.symbol == WEOSDT)
    ensures Step(s, Incoming(contract, from, to, q, memo)).Some?
       <==> !s.paused && (from == SELF || from == STAKE || q.symbol != WEOSDT)
  {
  }

  lemma RealTransferSucceedsIff(s: State, from: Name, q: Asset, memo: string)
    requires q.symbol == WEOSDT && (from == STAKE || from == SELF)
    ensures Step(s, Incoming(WEOSDT_CONTRACT, from, SELF, q, memo)).Some?
       <==> !s.paused && from == STAKE && q.amount > 0
  {
  }

  lemma CreateSucceedsIff(s: State, auth: set<Name>, issuer: Name, m: Asset)
    ensures Step(s, Create(auth, issuer, m)).Some?
       <==> SELF in auth && m.symbol.IsValid() && 0 < m.amount <= 4611686018427387903 && m.symbol.code !in s.stats
  {
  }

  lemma OpenSucceedsIff(s: State, auth: set<Name>, owner: Name, symbol: Symbol)
    ensures Step(s, Open(auth, owner, symbol)).Some?
       <==> && !s.paused && PHOENIX_ACCOUNT in auth && owner in s.users && symbol.code in s.stats
            && s.stats[symbol.code].supply.symbol == symbol
    ensures Step(s, Open(auth, owner, symbol)).Some? ==>
      AccountKey(owner, symbol.code) in Step(s, Open(auth, owner, symbol)).value.accounts
  {
  }

  // ---------- supplies and rows ----------

  /** A supply changes only by an issue of this contract, within the maximum that its creation fixed;
      and only this contract creates symbols, with nothing issued yet. */
  lemma SuppliesChangeOnlyByTheContract(s: State, op: Op, code: U64)
    requires Step(s, op).Some?
    ensures
      var s' := Step(s, op).value;
      if code !in s'.stats then code !in s.stats
      else if code !in s.stats then
        && op.Create? && SELF in op.auth && op.maximum.symbol.code == code
        && 0 < op.maximum.amount <= MAX_AMOUNT && op.maximum.symbol.IsValid()
        && s'.stats[code] == Stat(Asset(0, op.maximum.symbol), op.maximum, op.issuer)
      else
        var (was, now) := (s.stats[code], s'.stats[code]);
        && now == was.(supply := now.supply) && now.supply.symbol == was.supply.symbol
        && (now != was ==>
              && op.Issue? && SELF in op.auth && op.to == PHOENIX && op.quantity.symbol == was.supply.symbol
              && now.supply.amount == was.supply.amount + op.quantity.amount <= was.maxSupply.amount)
  {
    if op.Incoming? { ActionFlows(s, op, PHOENIX, WEOSDT); }
  }

  /** An account row appears with the first tokens or when the membership contract opens it, for a user
      and an existing symbol, and never goes away. */
  lemma RowsAppear(s: State, op: Op, k: AccountKey)
    requires Step(s, op).Some?
    ensures k in s.accounts ==> k in Step(s, op).value.accounts
    ensures k !in s.accounts && k in Step(s, op).value.accounts ==>
      match op
      case Open(auth, owner, symbol) =>
        && PHOENIX_ACCOUNT in auth && k == AccountKey(owner, symbol.code) && owner in s.users && !s.paused
        && symbol.code in s.stats && s.stats[symbol.code].supply.symbol == symbol
        && Step(s, op).value.accounts[k] == Asset(0, symbol)
      case _ => Step(s, op).value.accounts[k].amount > 0
  {
  }

  /** A paused contract does nothing but create symbols. */
  lemma PausedDoesNothing(s: State, op: Op)
    requires s.paused && Step(s, op).Some?
    ensures op.Create? || op.SignUp?
  {
  }
}
