/** The token contract: supply and balance rows changed in place by its actions, each of which
    either finishes or is rolled back as a whole. */
module TokenContract {
  import opened Wrappers
  import opened Words
  import opened Names
  import opened Memos
  import opened Ledger

  class TokenContract {
    var stats: map<U64, Stat>
    var accounts: Accounts
    var users: set<Name>
    var paused: bool
    var custody: nat

    ghost function Now(): State
      reads this
    {
      State(stats, accounts, users, paused, custody)
    }

    /** The action ended as the ledger machine says: with its new state, or aborted with nothing changed. */
    ghost predicate Ended(r: Result<Unit>, expected: Option<State>, before: State)
      reads this
    {
      match expected
      case Some(after) => r.Ok? && Now() == after
      case None => r.Aborted? && Now() == before
    }

    constructor ()
      ensures Now() == EMPTY_LEDGER
    {
      stats, accounts, users, paused, custody := map[], map[], {}, false, 0;
    }

    method CreateToken(auth: set<Name>, issuer: Name, maximum: Asset) returns (r: Result<Unit>)
      modifies `stats
      ensures Ended(r, Step(old(Now()), Create(auth, issuer, maximum)), old(Now()))
    {
      if SELF !in auth { return Aborted("missing authority"); }
      var sym := maximum.symbol;
      if !sym.IsValid() { return Aborted("invalid symbol name"); }
      if !maximum.IsValid() { return Aborted("invalid supply"); }
      if maximum.amount <= 0 { return Aborted("max-supply must be positive"); }
      if sym.code in stats { return Aborted("token with symbol already exists"); }
      stats := stats[sym.code := Stat(Asset(0, sym), maximum, issuer)];
      r := Ok(Unit);
    }

    method IssueTokens(auth: set<Name>, to: Name, quantity: Asset, memo: string) returns (r: Result<Unit>)
      modifies `stats, `accounts
      ensures Ended(r, Step(old(Now()), Issue(auth, to, quantity, memo)), old(Now()))
    {
      if paused { return Aborted("contract is currently under maintenance. Check back soon"); }
      if !quantity.symbol.IsValid() { return Aborted("invalid symbol name"); }
      if |memo| > 256 { return Aborted("memo has more than 256 bytes"); }
      var code, saved := quantity.symbol.code, stats;
      if code !in stats { return Aborted("token with symbol does not exist, create token before issue"); }
      var st := stats[code];
      if st.issuer !in auth { return Aborted("missing authority"); }
      if !quantity.IsValid() { return Aborted("invalid quantity"); }
      if quantity.amount <= 0 { return Aborted("must issue positive quantity"); }
      if quantity.symbol != st.supply.symbol { return Aborted("symbol precision mismatch"); }
      if quantity.amount > st.maxSupply.amount - st.supply.amount {
        return Aborted("quantity exceeds available supply");
      }
      stats := stats[code := st.(supply := Asset(st.supply.amount + quantity.amount, st.supply.symbol))];
      if st.issuer != SELF { stats := saved; return Aborted("only phoenix account may issue"); }
      if to != PHOENIX { stats := saved; return Aborted("only phoenix vaccount may receive new supply"); }
      if PHOENIX !in users { stats := saved; return Aborted("user does not exist"); }
      r := AddBalance(to, quantity);
      if r.Aborted? { stats := saved; }
    }

    method TransferAction(auth: set<Name>, from: Name, to: Name, quantity: Asset, memo: string)
        returns (r: Result<Unit>)
      modifies `accounts
      ensures Ended(r, Step(old(Now()), Transfer(auth, from, to, quantity, memo)), old(Now()))
    {
      if paused { return Aborted("contract is currently under maintenance. Check back soon"); }
      if SELF !in auth && PHOENIX_ACCOUNT !in auth {
        return Aborted("use the transferv action for transfers from vaccounts");
      }
      if from == to { return Aborted("cannot transfer to self"); }
      if from !in users || to !in users { return Aborted("user does not exist"); }
      if |memo| > 256 { return Aborted("memo has more than 256 bytes"); }
      r := MoveTokens(from, to, quantity);
    }

    /** The vaccount's own transfer is an inline transfer action of the contract. */
    method TransferVAction(signers: set<Name>, vaccount: Name, to: Name, quantity: Asset, memo: string)
        returns (r: Result<Unit>)
      modifies `accounts
      ensures Ended(r, Step(old(Now()), TransferV(signers, vaccount, to, quantity, memo)), old(Now()))
    {
      if paused { return Aborted("contract is currently under maintenance. Check back soon"); }
      if vaccount !in signers { return Aborted("missing vaccount signature"); }
      r := TransferAction({SELF}, vaccount, to, quantity, memo);
    }

    method OpenAccount(auth: set<Name>, owner: Name, symbol: Symbol) returns (r: Result<Unit>)
      modifies `accounts
      ensures Ended(r, Step(old(Now()), Open(auth, owner, symbol)), old(Now()))
    {
      if paused { return Aborted("contract is currently under maintenance. Check back soon"); }
      if PHOENIX_ACCOUNT !in auth { return Aborted("missing authority"); }
      if owner !in users { return Aborted("user does not exist"); }
      if symbol.code !in stats { return Aborted("symbol does not exist"); }
      if stats[symbol.code].supply.symbol != symbol { return Aborted("symbol precision mismatch"); }
      var k := AccountKey(owner, symbol.code);
      if k !in accounts {
        accounts := accounts[k := Asset(0, symbol)];
      }
      r := Ok(Unit);
    }

    method WithdrawV(signers: set<Name>, vaccount: Name, toAccount: Name, accountExists: bool, quantity: Asset)
        returns (r: Result<Unit>)
      modifies `accounts, `custody
      ensures Ended(r, Step(old(Now()), Withdraw(signers, vaccount, toAccount, accountExists, quantity)), old(Now()))
    {
      if paused { return Aborted("contract is currently under maintenance. Check back soon"); }
      if vaccount !in signers { return Aborted("missing vaccount signature"); }
      if vaccount !in users { return Aborted("user does not exist"); }
      if !accountExists { return Aborted("withdrawal eos account does not exist"); }
      if !quantity.symbol.IsValid() { WeosdtIsValid(); return Aborted("invalid quantity"); }
      if quantity.symbol != WEOSDT { return Aborted("invalid token symbol"); }
      if quantity.amount <= 0 { return Aborted("amount must be positive"); }
      var saved := accounts;
      r := MoveTokens(vaccount, PHOENIX, quantity);
      if r.Ok? {
        r := SendRealTokens(toAccount, quantity, "Phoenix Withdraw");
        if r.Aborted? { accounts := saved; }
      }
    }

    method PayoutFees(auth: set<Name>, toAccount: Name, accountExists: bool) returns (r: Result<Unit>)
      modifies `accounts, `custody
      ensures Ended(r, Step(old(Now()), Payout(auth, toAccount, accountExists)), old(Now()))
    {
      if paused { return Aborted("contract is currently under maintenance. Check back soon"); }
      if SELF !in auth { return Aborted("missing authority"); }
      if FEES !in users { return Aborted("user does not exist"); }
      if !accountExists { return Aborted("withdrawal eos account does not exist"); }
      var fees := BalanceOf(accounts, FEES, WEOSDT);
      var saved := accounts;
      r := MoveTokens(FEES, PHOENIX, fees);
      if r.Ok? {
        r := SendRealTokens(toAccount, fees, "fees payout");
        if r.Aborted? { accounts := saved; }
      }
    }

    /** The shared movement of virtual tokens: take from one row, then add to another. */
    method MoveTokens(from: Name, to: Name, quantity: Asset) returns (r: Result<Unit>)
      modifies `accounts
      ensures Ended(r, Move(old(Now()), from, to, quantity), old(Now()))
    {
      var code := quantity.symbol.code;
      if code !in stats { return Aborted("unable to find key"); }
      if !quantity.IsValid() { return Aborted("invalid quantity"); }
      if quantity.amount <= 0 { return Aborted("must transfer positive quantity"); }
      if quantity.symbol != stats[code].supply.symbol { return Aborted("symbol precision mismatch"); }
      var saved := accounts;
      r := SubBalance(from, quantity);
      if r.Ok? {
        r := AddBalance(to, quantity);
        if r.Aborted? { accounts := saved; }
      }
    }

    method AddBalance(owner: Name, value: Asset) returns (r: Result<Unit>)
      modifies `accounts
      ensures match Credit(old(accounts), owner, value)
              case Some(after) => r.Ok? && accounts == after
              case None => r.Aborted? && accounts == old(accounts)
    {
      var k := AccountKey(owner, value.symbol.code);
      if k !in accounts {
        accounts := accounts[k := value];
      } else {
        var balance := accounts[k];
        if balance.symbol != value.symbol { return Aborted("attempt to add asset with different symbol"); }
        if balance.amount + value.amount > MAX_AMOUNT { return Aborted("addition overflow"); }
        accounts := accounts[k := balance.(amount := balance.amount + value.amount)];
      }
      r := Ok(Unit);
    }

    method SubBalance(owner: Name, value: Asset) returns (r: Result<Unit>)
      modifies `accounts
      ensures match Debit(old(accounts), owner, value)
              case Some(after) => r.Ok? && accounts == after
              case None => r.Aborted? && accounts == old(accounts)
    {
      var k := AccountKey(owner, value.symbol.code);
      if k !in accounts { return Aborted("no balance object found"); }
      var balance := accounts[k];
      if balance.amount < value.amount { return Aborted("overdrawn balance"); }
      if balance.symbol != value.symbol { return Aborted("attempt to subtract asset with different symbol"); }
      accounts := accounts[k := balance.(amount := balance.amount - value.amount)];
      r := Ok(Unit);
    }

    /** An inline transfer by the real token contract, which notifies this one in turn. */
    method SendRealTokens(toAccount: Name, quantity: Asset, memo: string) returns (r: Result<Unit>)
      modifies `custody, `accounts
      ensures Ended(r, SendReal(old(Now()), toAccount, quantity), old(Now()))
    {
      if quantity.symbol != WEOSDT || quantity.amount <= 0 || toAccount == SELF || quantity.amount > custody {
        return Aborted("refused by the token contract");
      }
      var saved := custody;
      custody := custody - quantity.amount;
      r := OnTransferNotice(WEOSDT_CONTRACT, SELF, toAccount, quantity, memo);
      if r.Aborted? { custody := saved; }
    }

    method OnTransferNotice(contract: Name, from: Name, to: Name, quantity: Asset, memo: string)
        returns (r: Result<Unit>)
      modifies `accounts
      ensures Ended(r, OnTransfer(old(Now()), contract, from, to, quantity, Depositor(memo)), old(Now()))
    {
      if paused { return Aborted("contract is currently under maintenance. Check back soon"); }
      if from == SELF || from == STAKE { return Ok(Unit); }
      if quantity.symbol != WEOSDT { return Ok(Unit); }
      if contract != WEOSDT_CONTRACT { return Aborted("WEOSDT contract mismatch"); }
      if to != SELF { return Aborted("contract is not involved in this transfer"); }
      var parts := ParseMemo(memo);
      if |parts| != 2 { return Aborted("invalid memo"); }
      if parts[0] != "deposit" { return Aborted("invalid memo 1"); }
      var depositor := NameOf(parts[1]);
      if depositor.None? { return Aborted("not a name"); }
      if depositor.value !in users { return Aborted("user does not exist"); }
      r := MoveTokens(PHOENIX, depositor.value, quantity);
    }

    method IncomingTransfer(contract: Name, from: Name, to: Name, quantity: Asset, memo: string)
        returns (r: Result<Unit>)
      modifies `accounts, `custody
      ensures Ended(r, Step(old(Now()), Incoming(contract, from, to, quantity, memo)), old(Now()))
    {
      var saved := custody;
      if contract == WEOSDT_CONTRACT && quantity.symbol == WEOSDT && to == SELF {
        if quantity.amount <= 0 || from == SELF { return Aborted("refused by the token contract"); }
        custody := custody + quantity.amount;
      }
      r := OnTransferNotice(contract, from, to, quantity, memo);
      if r.Aborted? { custody := saved; }
    }

    method SignUpUser(user: Name) returns (r: Result<Unit>)
      modifies `users
      ensures Ended(r, Step(old(Now()), SignUp(user)), old(Now()))
    {
      users := users + {user};
      r := Ok(Unit);
    }

    method Perform(op: Op) returns (r: Result<Unit>)
      modifies this
      ensures Ended(r, Step(old(Now()), op), old(Now()))
    {
      match op {
        case Create(auth, issuer, m) => r := CreateToken(auth, issuer, m);
        case Issue(auth, to, q, memo) => r := IssueTokens(auth, to, q, memo);
        case Transfer(auth, from, to, q, memo) => r := TransferAction(auth, from, to, q, memo);
        case TransferV(signers, v, to, q, memo) => r := TransferVAction(signers, v, to, q, memo);
        case Open(auth, owner, symbol) => r := OpenAccount(auth, owner, symbol);
        case Withdraw(signers, v, to, accountExists, q) => r := WithdrawV(signers, v, to, accountExists, q);
        case Payout(auth, to, accountExists) => r := PayoutFees(auth, to, accountExists);
        case Incoming(contract, from, to, q, memo) => r := IncomingTransfer(contract, from, to, q, memo);
        case SignUp(user) => r := SignUpUser(user);
      }
    }

    /** Every run of the contract is a run of the ledger machine. */
    method PerformAll(ops: seq<Op>)
      modifies this
      ensures Now() == Run(old(Now()), ops)
    {
      assert ops[0..] == ops;
      for i := 0 to |ops|
        invariant Run(Now(), ops[i..]) == Run(old(Now()), ops)
      {
        var r := Perform(ops[i]);
        assert ops[i..][1..] == ops[i + 1..];
      }
    }
  }
}
