/** The virtual token ledger as a machine whose steps either finish or abort as a whole, and its
    laws: conservation, the supply cap, and the backing of balances by real tokens. */
module Ledger {
  import opened Wrappers
  import opened Memos
  import opened Names
  import opened Sums
  import opened Words

  datatype Stat = Stat(supply: Asset, maxSupply: Asset, issuer: Name)

  /** A balance row: the accounts table has one scope per owner and is keyed by symbol code. */
  datatype AccountKey = AccountKey(owner: Name, code: U64)

  type Accounts = map<AccountKey, Asset>

  /** custody: the real WEOSDT that the contract holds. users: the users table of the membership contract. */
  datatype State = State(stats: map<U64, Stat>, accounts: Accounts, users: set<Name>, paused: bool, custody: nat)

  datatype Op =
    | Create(auth: set<Name>, issuer: Name, maximum: Asset)
    | Issue(auth: set<Name>, to: Name, quantity: Asset, memo: string)
    | Transfer(auth: set<Name>, from: Name, to: Name, quantity: Asset, memo: string)
    | TransferV(signers: set<Name>, vaccount: Name, to: Name, quantity: Asset, memo: string)
    | Open(auth: set<Name>, owner: Name, symbol: Symbol)
    | Withdraw(signers: set<Name>, vaccount: Name, toAccount: Name, accountExists: bool, quantity: Asset)
    | Payout(auth: set<Name>, toAccount: Name, accountExists: bool)
    | Incoming(contract: Name, from: Name, to: Name, quantity: Asset, memo: string)
    | SignUp(user: Name)

  // ---------- balances ----------

  function Debit(accounts: Accounts, owner: Name, q: Asset): Option<Accounts> {
    var k := AccountKey(owner, q.symbol.code);
    if k in accounts && accounts[k].amount >= q.amount && accounts[k].symbol == q.symbol
    then Some(accounts[k := Asset(accounts[k].amount - q.amount, q.symbol)])
    else None
  }

  function Credit(accounts: Accounts, owner: Name, q: Asset): Option<Accounts> {
    var k := AccountKey(owner, q.symbol.code);
    if k !in accounts then Some(accounts[k := q])
    else if accounts[k].symbol == q.symbol && accounts[k].amount + q.amount <= MAX_AMOUNT
    then Some(accounts[k := Asset(accounts[k].amount + q.amount, q.symbol)])
    else None
  }

  function Move(s: State, from: Name, to: Name, q: Asset): Option<State> {
    if q.symbol.code in s.stats && q.IsValid() && q.amount > 0 && q.symbol == s.stats[q.symbol.code].supply.symbol then
      match Debit(s.accounts, from, q)
      case None => None
      case Some(debited) =>
        match Credit(debited, to, q)
        case None => None
        case Some(credited) => Some(s.(accounts := credited))
    else None
  }

  function BalanceOf(accounts: Accounts, owner: Name, symbol: Symbol): Asset {
    var k := AccountKey(owner, symbol.code);
    if k in accounts then accounts[k] else Asset(0, symbol)
  }

  // ---------- real tokens ----------

  /** The name a memo deposits to; None where the handler aborts. */
  function Depositor(memo: string): Option<Name> {
    var parts := Split(memo);
    if |parts| == 2 && parts[0] == "deposit" then NameOf(parts[1]) else None
  }

  predicate IsDeposit(contract: Name, from: Name, to: Name, q: Asset) {
    from != SELF && from != STAKE && q.symbol == WEOSDT && contract == WEOSDT_CONTRACT && to == SELF
  }

  /** The notification handler, run after any token contract moved tokens from or to this one;
      depositor is what the memo names. */
  function OnTransfer(
      s: State, contract: Name, from: Name, to: Name, q: Asset, depositor: Option<Name>): Option<State>
  {
    if s.paused then None
    else if from == SELF || from == STAKE || q.symbol != WEOSDT then Some(s)
    else if !IsDeposit(contract, from, to, q) then None
    else
      match depositor
      case None => None
      case Some(name) => if name in s.users then Move(s, PHOENIX, name, q) else None
  }

  /** The real token contract: it refuses non-positive amounts, transfers to oneself and overdrafts. */
  function SendReal(s: State, to: Name, q: Asset): Option<State> {
    if q.symbol == WEOSDT && q.amount > 0 && to != SELF && q.amount <= s.custody
    then OnTransfer(s.(custody := s.custody - q.amount), WEOSDT_CONTRACT, SELF, to, q, None)
    else None
  }

  function ReceiveReal(s: State, contract: Name, from: Name, to: Name, q: Asset): Option<State> {
    if contract != WEOSDT_CONTRACT || q.symbol != WEOSDT || to != SELF then Some(s)
    else if q.amount > 0 && from != SELF then Some(s.(custody := s.custody + q.amount))
    else None
  }

  // ---------- the actions ----------

  function CreateToken(s: State, auth: set<Name>, issuer: Name, m: Asset): Option<State> {
    if SELF in auth && m.symbol.IsValid() && m.IsValid() && m.amount > 0 && m.symbol.code !in s.stats
    then Some(s.(stats := s.stats[m.symbol.code := Stat(Asset(0, m.symbol), m, issuer)]))
    else None
  }

  function RaiseSupply(s: State, q: Asset): map<U64, Stat>
    requires q.symbol.code in s.stats
  {
    var st := s.stats[q.symbol.code];
    s.stats[q.symbol.code := st.(supply := Asset(st.supply.amount + q.amount, st.supply.symbol))]
  }

  function IssueTokens(s: State, auth: set<Name>, to: Name, q: Asset, memo: string): Option<State> {
    if !CanIssue(s, auth, to, q, memo) then None
    else
      match Credit(s.accounts, to, q)
      case None => None
      case Some(credited) => Some(s.(stats := RaiseSupply(s, q), accounts := credited))
  }

  function OpenRow(s: State, auth: set<Name>, owner: Name, symbol: Symbol): Option<State> {
    if !s.paused && PHOENIX_ACCOUNT in auth && owner in s.users
       && symbol.code in s.stats && s.stats[symbol.code].supply.symbol == symbol
    then
      var k := AccountKey(owner, symbol.code);
      Some(if k in s.accounts then s else s.(accounts := s.accounts[k := Asset(0, symbol)]))
    else None
  }

  predicate CanWithdraw(s: State, signers: set<Name>, vaccount: Name, accountExists: bool, q: Asset) {
    !s.paused && vaccount in signers && vaccount in s.users && accountExists && q.symbol == WEOSDT && q.amount > 0
  }

  /** Virtual tokens go back to PHOENIX, real ones out to the account. */
  function Redeem(s: State, vaccount: Name, toAccount: Name, q: Asset): Option<State> {
    match Move(s, vaccount, PHOENIX, q)
    case None => None
    case Some(moved) => SendReal(moved, toAccount, q)
  }

  function Step(s: State, op: Op): Option<State> {
    match op
    case Create(auth, issuer, m) => CreateToken(s, auth, issuer, m)
    case Issue(auth, to, q, memo) => IssueTokens(s, auth, to, q, memo)
    case Transfer(auth, from, to, q, memo) =>
      if (SELF in auth || PHOENIX_ACCOUNT in auth) && |memo| <= 256 then TransferAction(s, from, to, q) else None
    case TransferV(signers, from, to, q, memo) =>
      if from in signers && |memo| <= 256 then TransferAction(s, from, to, q) else None
    case Open(auth, owner, symbol) => OpenRow(s, auth, owner, symbol)
    case Withdraw(signers, vaccount, toAccount, accountExists, q) =>
      if CanWithdraw(s, signers, vaccount, accountExists, q) then Redeem(s, vaccount, toAccount, q) else None
    case Payout(auth, toAccount, accountExists) =>
      if !s.paused && SELF in auth && FEES in s.users && accountExists
      then Redeem(s, FEES, toAccount, BalanceOf(s.accounts, FEES, WEOSDT))
      else None
    case Incoming(contract, from, to, q, memo) => Receive(s, contract, from, to, q, Depositor(memo))
    case SignUp(user) => Some(s.(users := s.users + {user}))
  }

  function Receive(s: State, contract: Name, from: Name, to: Name, q: Asset, depositor: Option<Name>): Option<State> {
    match ReceiveReal(s, contract, from, to, q)
    case None => None
    case Some(received) => OnTransfer(received, contract, from, to, q, depositor)
  }

  predicate CanIssue(s: State, auth: set<Name>, to: Name, q: Asset, memo: string) {
    && !s.paused && q.symbol.IsValid() && |memo| <= 256
    && q.symbol.code in s.stats
    && var st := s.stats[q.symbol.code];
       && st.issuer in auth && q.IsValid() && q.amount > 0 && q.symbol == st.supply.symbol
       && q.amount <= st.maxSupply.amount - st.supply.amount
       && st.issuer == SELF && to == PHOENIX && PHOENIX in s.users
  }

  function TransferAction(s: State, from: Name, to: Name, q: Asset): Option<State> {
    if !s.paused && from != to && from in s.users && to in s.users then Move(s, from, to, q) else None
  }

  /** An aborted action changes nothing. */
  function Next(s: State, op: Op): State {
    match Step(s, op)
    case Some(s') => s'
    case None => s
  }

  function Run(s: State, ops: seq<Op>): State
    decreases |ops|
  {
    if ops == [] then s else Run(Next(s, ops[0]), ops[1..])
  }

  // ---------- totals ----------

  ghost function Holdings(accounts: Accounts, code: U64, except: set<Name>): map<AccountKey, int> {
    map k | k in accounts && k.code == code && k.owner !in except :: accounts[k].amount
  }

  /** All balances of one symbol, leaving out some owners. */
  ghost function Held(accounts: Accounts, code: U64, except: set<Name>): int {
    Sum(Holdings(accounts, code, except))
  }

  /** q counted when it falls on an owner and a symbol that the total includes. */
  function Counted(owner: Name, q: Asset, code: U64, except: set<Name>): int {
    if q.symbol.code == code && owner !in except then q.amount else 0
  }

  lemma HeldAfterWrite(accounts: Accounts, k: AccountKey, a: Asset, code: U64, except: set<Name>)
    ensures Held(accounts[k := a], code, except)
         == Held(accounts, code, except)
          + if k.code == code && k.owner !in except
            then a.amount - (if k in accounts then accounts[k].amount else 0)
            else 0
  {
    var before, after := Holdings(accounts, code, except), Holdings(accounts[k := a], code, except);
    if k.code == code && k.owner !in except {
      assert after == before[k := a.amount];
      SumUpdate(before, k, a.amount);
    } else {
      assert after == before;
    }
  }

  lemma HeldAfterDebit(accounts: Accounts, owner: Name, q: Asset, code: U64, except: set<Name>)
    requires Debit(accounts, owner, q).Some?
    ensures Held(Debit(accounts, owner, q).value, code, except)
         == Held(accounts, code, except) - Counted(owner, q, code, except)
  {
    var k := AccountKey(owner, q.symbol.code);
    HeldAfterWrite(accounts, k, Asset(accounts[k].amount - q.amount, q.symbol), code, except);
  }

  lemma HeldAfterCredit(accounts: Accounts, owner: Name, q: Asset, code: U64, except: set<Name>)
    requires Credit(accounts, owner, q).Some?
    ensures Held(Credit(accounts, owner, q).value, code, except)
         == Held(accounts, code, except) + Counted(owner, q, code, except)
  {
    var k := AccountKey(owner, q.symbol.code);
    HeldAfterWrite(accounts, k, Credit(accounts, owner, q).value[k], code, except);
  }

  lemma HeldAfterMove(s: State, from: Name, to: Name, q: Asset, code: U64, except: set<Name>)
    requires Move(s, from, to, q).Some?
    ensures Held(Move(s, from, to, q).value.accounts, code, except)
         == Held(s.accounts, code, except) - Counted(from, q, code, except) + Counted(to, q, code, except)
  {
    HeldAfterDebit(s.accounts, from, q, code, except);
    HeldAfterCredit(Debit(s.accounts, from, q).value, to, q, code, except);
  }

  /** A movement takes q from one row and adds it to another; every other row, the supplies, the
      users and the real tokens stay as they are. */
  lemma MoveIsExact(s: State, from: Name, to: Name, q: Asset, owner: Name, symbol: Symbol)
    requires Move(s, from, to, q).Some?
    ensures
      var s' := Move(s, from, to, q).value;
      && s'.stats == s.stats && s'.users == s.users && s'.custody == s.custody && s'.paused == s.paused
      && BalanceOf(s'.accounts, owner, symbol).amount
         == BalanceOf(s.accounts, owner, symbol).amount
          - (if owner == from && symbol.code == q.symbol.code then q.amount else 0)
          + (if owner == to && symbol.code == q.symbol.code then q.amount else 0)
  {
  }

  // ---------- conservation and the supply cap ----------

  ghost predicate RowsOk(s: State) {
    forall k :: k in s.accounts ==>
      k.code in s.stats && s.accounts[k].symbol == s.stats[k.code].supply.symbol && s.accounts[k].amount >= 0
  }

  ghost predicate StatsOk(s: State) {
    forall c :: c in s.stats ==>
      var st := s.stats[c];
      && st.supply.symbol.code == c && st.maxSupply.symbol == st.supply.symbol && st.supply.symbol.IsValid()
      && 0 <= st.supply.amount <= st.maxSupply.amount <= MAX_AMOUNT
  }

  ghost predicate Conserved(s: State) {
    forall c :: c in s.stats ==> Held(s.accounts, c, {}) == s.stats[c].supply.amount
  }

  /** Balances are non-negative and sum to the supply, which is within its maximum, for each symbol. */
  ghost predicate Sound(s: State) {
    RowsOk(s) && StatsOk(s) && Conserved(s)
  }

  lemma HeldIsAtLeast(s: State, k: AccountKey)
    requires RowsOk(s) && k in s.accounts
    ensures 0 <= s.accounts[k].amount <= Held(s.accounts, k.code, {})
  {
    OneIsAtMostSum(Holdings(s.accounts, k.code, {}), k);
  }

  /** In a sound ledger a movement that passes its checks never runs out of the asset range: it
      happens exactly when the sender's row covers it. Also when the sender is the receiver. */
  lemma MoveSucceedsIffCovered(s: State, from: Name, to: Name, q: Asset)
    requires Sound(s)
    requires q.symbol.code in s.stats && q.IsValid() && q.amount > 0 && q.symbol == s.stats[q.symbol.code].supply.symbol
    ensures Move(s, from, to, q).Some?
       <==> var k := AccountKey(from, q.symbol.code);
            k in s.accounts && s.accounts[k].amount >= q.amount
  {
    if Debit(s.accounts, from, q).Some? {
      var debited := s.(accounts := Debit(s.accounts, from, q).value);
      HeldAfterDebit(s.accounts, from, q, q.symbol.code, {});
      var k := AccountKey(to, q.symbol.code);
      if k in debited.accounts { HeldIsAtLeast(debited, k); }
    }
  }

  /** Likewise the new supply always fits into the row of PHOENIX: only this contract issues, under
      its own authority, only to PHOENIX, and never past the maximum. */
  lemma IssueSucceedsIffAllowed(s: State, auth: set<Name>, to: Name, q: Asset, memo: string)
    requires Sound(s)
    ensures IssueTokens(s, auth, to, q, memo).Some?
       <==> && !s.paused && SELF in auth && to == PHOENIX && PHOENIX in s.users && |memo| <= 256 && q.amount > 0
            && q.symbol.code in s.stats
            && var st := s.stats[q.symbol.code];
               st.issuer == SELF && st.supply.symbol == q.symbol && st.supply.amount + q.amount <= st.maxSupply.amount
  {
    var k := AccountKey(to, q.symbol.code);
    if CanIssue(s, auth, to, q, memo) && k in s.accounts { HeldIsAtLeast(s, k); }
  }

  lemma MoveKeepsRows(s: State, from: Name, to: Name, q: Asset)
    requires RowsOk(s) && Move(s, from, to, q).Some?
    ensures RowsOk(Move(s, from, to, q).value)
  {
  }

  lemma MoveKeepsSound(s: State, from: Name, to: Name, q: Asset)
    requires Sound(s) && Move(s, from, to, q).Some?
    ensures Sound(Move(s, from, to, q).value)
  {
    MoveKeepsRows(s, from, to, q);
    forall c | c in s.stats ensures Held(Move(s, from, to, q).value.accounts, c, {}) == s.stats[c].supply.amount {
      HeldAfterMove(s, from, to, q, c, {});
    }
  }

  lemma ReceiveKeepsSound(s: State, contract: Name, from: Name, to: Name, q: Asset, depositor: Option<Name>)
    requires Sound(s) && Receive(s, contract, from, to, q, depositor).Some?
    ensures Sound(Receive(s, contract, from, to, q, depositor).value)
  {
    var received := ReceiveReal(s, contract, from, to, q).value;
    assert Sound(received);
    if IsDeposit(contract, from, to, q) {
      MoveKeepsSound(received, PHOENIX, depositor.value, q);
    }
  }

  lemma RedeemKeepsSound(s: State, vaccount: Name, toAccount: Name, q: Asset)
    requires Sound(s) && Redeem(s, vaccount, toAccount, q).Some?
    ensures Sound(Redeem(s, vaccount, toAccount, q).value)
  {
    MoveKeepsSound(s, vaccount, PHOENIX, q);
  }

  lemma IssueKeepsSound(s: State, auth: set<Name>, to: Name, q: Asset, memo: string)
    requires Sound(s) && IssueTokens(s, auth, to, q, memo).Some?
    ensures Sound(IssueTokens(s, auth, to, q, memo).value)
  {
    var s' := IssueTokens(s, auth, to, q, memo).value;
    RaiseKeepsStats(s, s', q);
    forall c | c in s.stats ensures Held(s'.accounts, c, {}) == s'.stats[c].supply.amount {
      HeldAfterCredit(s.accounts, to, q, c, {});
    }
  }

  lemma RaiseKeepsStats(s: State, s': State, q: Asset)
    requires RowsOk(s) && StatsOk(s) && q.symbol.code in s.stats && q.symbol == s.stats[q.symbol.code].supply.symbol
    requires 0 < q.amount <= s.stats[q.symbol.code].maxSupply.amount - s.stats[q.symbol.code].supply.amount
    requires s'.stats == RaiseSupply(s, q)
    requires exists to: Name :: Credit(s.accounts, to, q) == Some(s'.accounts)
    ensures RowsOk(s') && StatsOk(s')
  {
  }

  lemma CreateKeepsSound(s: State, auth: set<Name>, issuer: Name, m: Asset)
    requires Sound(s) && CreateToken(s, auth, issuer, m).Some?
    ensures Sound(CreateToken(s, auth, issuer, m).value)
  {
  }

  lemma OpenKeepsSound(s: State, auth: set<Name>, owner: Name, symbol: Symbol)
    requires Sound(s) && OpenRow(s, auth, owner, symbol).Some?
    ensures Sound(OpenRow(s, auth, owner, symbol).value)
  {
    var s' := OpenRow(s, auth, owner, symbol).value;
    forall c | c in s.stats ensures Held(s'.accounts, c, {}) == s.stats[c].supply.amount {
      HeldAfterWrite(s.accounts, AccountKey(owner, symbol.code), Asset(0, symbol), c, {});
    }
  }

  lemma TransferKeepsSound(s: State, from: Name, to: Name, q: Asset)
    requires Sound(s) && TransferAction(s, from, to, q).Some?
    ensures Sound(TransferAction(s, from, to, q).value)
  {
    MoveKeepsSound(s, from, to, q);
  }

  lemma SignUpKeepsSound(s: State, users: set<Name>)
    requires Sound(s)
    ensures Sound(s.(users := users))
  {
  }

  lemma StepKeepsSound(s: State, op: Op)
    requires Sound(s) && Step(s, op).Some?
    ensures Sound(Step(s, op).value)
  {
    match op
    case Create(auth, issuer, m) => CreateKeepsSound(s, auth, issuer, m);
    case Issue(auth, to, q, memo) => IssueKeepsSound(s, auth, to, q, memo);
    case Transfer(_, from, to, q, _) => TransferKeepsSound(s, from, to, q);
    case TransferV(_, from, to, q, _) => TransferKeepsSound(s, from, to, q);
    case Open(auth, owner, symbol) => OpenKeepsSound(s, auth, owner, symbol);
    case Withdraw(_, v, to, _, q) => RedeemKeepsSound(s, v, to, q);
    case Payout(_, to, _) => RedeemKeepsSound(s, FEES, to, BalanceOf(s.accounts, FEES, WEOSDT));
    case Incoming(c, from, to, q, memo) => ReceiveKeepsSound(s, c, from, to, q, Depositor(memo));
    case SignUp(user) => SignUpKeepsSound(s, s.users + {user});
  }

  // ---------- custody ----------

  /** What the contract holds beyond the balances of everyone but PHOENIX. */
  ghost function Cover(s: State): int {
    s.custody - Held(s.accounts, WEOSDT.code, {PHOENIX})
  }

  function Weosdt(q: Asset): int {
    if q.symbol.code == WEOSDT.code then q.amount else 0
  }

  function TransferChange(from: Name, to: Name, q: Asset): int {
    (if to == PHOENIX then Weosdt(q) else 0) - (if from == PHOENIX then Weosdt(q) else 0)
  }

  /** How one finished step changes the cover. */
  function CoverChange(s: State, op: Op): int {
    match op
    case Transfer(_, from, to, q, _) => TransferChange(from, to, q)
    case TransferV(_, from, to, q, _) => TransferChange(from, to, q)
    case Withdraw(_, v, _, _, q) => if v == PHOENIX then -q.amount else 0
    case Incoming(contract, from, to, q, memo) => ReceiptChange(contract, from, to, q, Depositor(memo))
    case _ => 0
  }

  /** Only a transfer that the handler ignores, or a deposit to PHOENIX itself, adds to the cover. */
  function ReceiptChange(contract: Name, from: Name, to: Name, q: Asset, depositor: Option<Name>): int {
    if contract != WEOSDT_CONTRACT || q.symbol != WEOSDT || to != SELF then 0
    else if from == STAKE || depositor == Some(PHOENIX) then q.amount
    else 0
  }

  lemma RedeemChangesCover(s: State, vaccount: Name, toAccount: Name, q: Asset)
    requires Redeem(s, vaccount, toAccount, q).Some?
    ensures q.symbol == WEOSDT
    ensures Cover(Redeem(s, vaccount, toAccount, q).value) == Cover(s) - if vaccount == PHOENIX then q.amount else 0
  {
    HeldAfterMove(s, vaccount, PHOENIX, q, WEOSDT.code, {PHOENIX});
  }

  lemma ReceiveChangesCover(s: State, contract: Name, from: Name, to: Name, q: Asset, depositor: Option<Name>)
    requires Receive(s, contract, from, to, q, depositor).Some?
    ensures Cover(Receive(s, contract, from, to, q, depositor).value)
         == Cover(s) + ReceiptChange(contract, from, to, q, depositor)
  {
    if IsDeposit(contract, from, to, q) {
      var received := ReceiveReal(s, contract, from, to, q).value;
      HeldAfterMove(received, PHOENIX, depositor.value, q, WEOSDT.code, {PHOENIX});
    }
  }

  lemma TransferChangesCover(s: State, from: Name, to: Name, q: Asset)
    requires TransferAction(s, from, to, q).Some?
    ensures Cover(TransferAction(s, from, to, q).value) == Cover(s) + TransferChange(from, to, q)
  {
    HeldAfterMove(s, from, to, q, WEOSDT.code, {PHOENIX});
  }

  lemma StepChangesCover(s: State, op: Op)
    requires Step(s, op).Some?
    ensures Cover(Step(s, op).value) == Cover(s) + CoverChange(s, op)
  {
    match op
    case Issue(_, to, q, _) => HeldAfterCredit(s.accounts, to, q, WEOSDT.code, {PHOENIX});
    case Transfer(_, from, to, q, _) => TransferChangesCover(s, from, to, q);
    case TransferV(_, from, to, q, _) => TransferChangesCover(s, from, to, q);
    case Open(_, owner, symbol) =>
      HeldAfterWrite(s.accounts, AccountKey(owner, symbol.code), Asset(0, symbol), WEOSDT.code, {PHOENIX});
    case Withdraw(_, v, to, _, q) => RedeemChangesCover(s, v, to, q);
    case Payout(_, to, _) => RedeemChangesCover(s, FEES, to, BalanceOf(s.accounts, FEES, WEOSDT));
    case Incoming(c, from, to, q, memo) => ReceiveChangesCover(s, c, from, to, q, Depositor(memo));
    case _ =>
  }

  /** Every balance but PHOENIX's is backed by real tokens. */
  ghost predicate Backed(s: State) {
    Cover(s) >= 0
  }

  /** PHOENIX signs nothing, and no direct transfer takes tokens from it. */
  predicate LeavesPhoenixAlone(op: Op) {
    match op
    case Transfer(_, from, _, _, _) => from != PHOENIX
    case TransferV(signers, _, _, _, _) => PHOENIX !in signers
    case Withdraw(signers, _, _, _, _) => PHOENIX !in signers
    case _ => true
  }

  lemma SilenceKeepsCover(s: State, op: Op)
    requires LeavesPhoenixAlone(op) && Step(s, op).Some?
    ensures CoverChange(s, op) >= 0
  {
  }

  lemma NextKeepsSoundAndBacked(s: State, op: Op)
    requires Sound(s)
    ensures Sound(Next(s, op))
    ensures Backed(s) && LeavesPhoenixAlone(op) ==> Backed(Next(s, op))
  {
    if Step(s, op).Some? {
      StepKeepsSound(s, op);
      StepChangesCover(s, op);
      if LeavesPhoenixAlone(op) { SilenceKeepsCover(s, op); }
    }
  }

  lemma {:induction false} RunKeepsSoundAndBacked(s: State, ops: seq<Op>)
    requires Sound(s)
    ensures Sound(Run(s, ops))
    ensures Backed(s) && (forall i :: 0 <= i < |ops| ==> LeavesPhoenixAlone(ops[i])) ==> Backed(Run(s, ops))
    decreases |ops|
  {
    if ops != [] {
      NextKeepsSoundAndBacked(s, ops[0]);
      RunKeepsSoundAndBacked(Next(s, ops[0]), ops[1..]);
    }
  }

  /** When PHOENIX does sign a transfer to someone else, the backing survives exactly when the cover
      pays for it; with no cover at all any such transfer breaks it. */
  lemma PhoenixMaySpendOnlyTheCover(s: State, signers: set<Name>, to: Name, q: Asset, memo: string)
    requires q.symbol == WEOSDT && Step(s, TransferV(signers, PHOENIX, to, q, memo)).Some?
    ensures Backed(Step(s, TransferV(signers, PHOENIX, to, q, memo)).value) <==> q.amount <= Cover(s)
  {
    StepChangesCover(s, TransferV(signers, PHOENIX, to, q, memo));
  }

  const EMPTY_LEDGER := State(map[], map[], {}, false, 0)

  /** A row of this owner covers q. */
  predicate Covers(s: State, owner: Name, q: Asset) {
    var k := AccountKey(owner, q.symbol.code);
    k in s.accounts && s.accounts[k].symbol == q.symbol && s.accounts[k].amount >= q.amount
  }

  // ---------- transfers of WEOSDT ----------

  /** In a sound ledger a transfer needs two different users and a row that covers it, nothing else. */
  lemma TransferSucceedsIff(s: State, from: Name, to: Name, amount: int)
    requires Sound(s) && amount > 0
    ensures TransferAction(s, from, to, Asset(amount, WEOSDT)).Some?
       <==> !s.paused && from != to && from in s.users && to in s.users && Covers(s, from, Asset(amount, WEOSDT))
  {
    var (q, k) := (Asset(amount, WEOSDT), AccountKey(from, WEOSDT.code));
    WeosdtIsValid();
    if Covers(s, from, q) {
      HeldIsAtLeast(s, k);
      assert q.IsValid();
      MoveSucceedsIffCovered(s, from, to, q);
    }
  }

  // ---------- tokens without backing ----------

  /** PHOENIX hands a whole new supply to one user. */
  function HandOut(user: Name, other: Name, q: Asset): seq<Op> {
    [SignUp(PHOENIX), SignUp(FEES), SignUp(user), SignUp(other), Create({SELF}, SELF, q),
     Issue({SELF}, PHOENIX, q, ""), TransferV({PHOENIX}, PHOENIX, user, q, "")]
  }

  lemma RunOfTwo(s: State, a: Op, b: Op)
    ensures Run(s, [a, b]) == Next(Next(s, a), b)
  {
    assert Run(Next(s, a), [b]) == Next(Next(s, a), b);
    assert [a, b][1..] == [b];
  }

  lemma SevenInPairs(a: Op, b: Op, c: Op, d: Op, e: Op, f: Op, g: Op)
    ensures [a, b] + ([c, d] + ([e, f] + [g])) == [a, b, c, d, e, f, g]
  {
  }

  lemma RunOfSeven(s: State, a: Op, b: Op, c: Op, d: Op, e: Op, f: Op, g: Op)
    ensures Run(s, [a, b, c, d, e, f, g]) == Next(Next(Next(Next(Next(Next(Next(s, a), b), c), d), e), f), g)
  {
    SevenInPairs(a, b, c, d, e, f, g);
    var (s2, s4) := (Run(s, [a, b]), Run(Run(s, [a, b]), [c, d]));
    RunSplits(s, [a, b], [c, d] + ([e, f] + [g]));
    RunSplits(s2, [c, d], [e, f] + [g]);
    RunSplits(s4, [e, f], [g]);
    RunOfTwo(s, a, b);
    RunOfTwo(s2, c, d);
    RunOfTwo(s4, e, f);
    assert [g][1..] == [];
  }

  lemma {:induction false} RunSplits(s: State, before: seq<Op>, after: seq<Op>)
    ensures Run(s, before + after) == Run(Run(s, before), after)
    decreases |before|
  {
    if before == [] {
      assert before + after == after;
    } else {
      RunSplits(Next(s, before[0]), before[1..], after);
      assert (before + after)[0] == before[0] && (before + after)[1..] == before[1..] + after;
    }
  }

  lemma HandOutGives(user: Name, other: Name, q: Asset)
    requires q.symbol == WEOSDT && 0 < q.amount <= MAX_AMOUNT
    ensures var s := Run(EMPTY_LEDGER, HandOut(user, other, q));
      Covers(s, user, q) && s.users == {PHOENIX, FEES, user, other} && !s.paused && s.custody == 0
  {
    WeosdtIsValid();
    var steps := HandOut(user, other, q);
    RunOfSeven(EMPTY_LEDGER, steps[0], steps[1], steps[2], steps[3], steps[4], steps[5], steps[6]);
    var signed := State(map[], map[], {PHOENIX, FEES, user, other}, false, 0);
    assert Next(Next(Next(Next(EMPTY_LEDGER, steps[0]), steps[1]), steps[2]), steps[3]) == signed;
    var issued := CreateAndIssue(signed, q);
    HandOverAll(issued, user, q);
  }

  lemma CreateAndIssue(s: State, q: Asset) returns (issued: State)
    requires q.symbol == WEOSDT && q.IsValid() && q.amount > 0
    requires s.stats == map[] && s.accounts == map[] && !s.paused && PHOENIX in s.users
    ensures issued == s.(
      stats := map[WEOSDT.code := Stat(q, q, SELF)], accounts := map[AccountKey(PHOENIX, WEOSDT.code) := q])
    ensures Next(Next(s, Create({SELF}, SELF, q)), Issue({SELF}, PHOENIX, q, "")) == issued
  {
    var created := s.(stats := map[WEOSDT.code := Stat(Asset(0, WEOSDT), q, SELF)]);
    assert Next(s, Create({SELF}, SELF, q)) == created;
    issued := s.(
      stats := map[WEOSDT.code := Stat(q, q, SELF)], accounts := map[AccountKey(PHOENIX, WEOSDT.code) := q]);
    assert Next(created, Issue({SELF}, PHOENIX, q, "")) == issued;
  }

  lemma HandOverAll(s: State, user: Name, q: Asset)
    requires q.symbol == WEOSDT && q.IsValid() && q.amount > 0
    requires !s.paused && PHOENIX in s.users && user in s.users
    requires s.stats == map[WEOSDT.code := Stat(q, q, SELF)]
    requires s.accounts == map[AccountKey(PHOENIX, WEOSDT.code) := q]
    ensures var s' := Next(s, TransferV({PHOENIX}, PHOENIX, user, q, ""));
      Covers(s', user, q) && s'.users == s.users && s'.paused == s.paused && s'.custody == s.custody
  {
  }

  /** Silence of PHOENIX is needed for what follows: after this run of allowed actions the user can
      withdraw by every check and the balance covers it, and the withdrawal still aborts. */
  lemma CoveredWithdrawalCanFail(user: Name, toAccount: Name, q: Asset)
    requires q.symbol == WEOSDT && 0 < q.amount <= MAX_AMOUNT
    ensures
      var s := Run(EMPTY_LEDGER, HandOut(user, user, q));
      && !s.paused && user in s.users && Covers(s, user, q)
      && Step(s, Withdraw({user}, user, toAccount, true, q)).None?
  {
    HandOutGives(user, user, q);
  }

  lemma RedeemIsHonoured(s: State, vaccount: Name, toAccount: Name, q: Asset)
    requires Sound(s) && Backed(s) && !s.paused
    ensures Redeem(s, vaccount, toAccount, q).Some?
       <==> q.symbol == WEOSDT && q.amount > 0 && Covers(s, vaccount, q) && CanLeave(s, vaccount, toAccount, q)
  {
    var k := AccountKey(vaccount, q.symbol.code);
    if q.symbol == WEOSDT && q.amount > 0 && Covers(s, vaccount, q) {
      HeldIsAtLeast(s, k);
      assert q.IsValid();
      MoveSucceedsIffCovered(s, vaccount, PHOENIX, q);
      if vaccount != PHOENIX { HoldingsExceptPhoenix(s, k); }
    }
  }

  /** The real tokens leave the contract. PHOENIX, whose balance nothing backs, gets no more than is there. */
  predicate CanLeave(s: State, vaccount: Name, toAccount: Name, q: Asset) {
    toAccount != SELF && (vaccount == PHOENIX ==> q.amount <= s.custody)
  }

  /** While PHOENIX stays silent, a withdrawal to another account succeeds exactly when its own checks
      pass and the balance allows it: it never fails because the contract lacks real tokens. Only for
      PHOENIX itself these are one more condition. */
  lemma WithdrawalIsHonoured(
      ops: seq<Op>, signers: set<Name>, vaccount: Name, toAccount: Name, accountExists: bool, q: Asset)
    requires forall i :: 0 <= i < |ops| ==> LeavesPhoenixAlone(ops[i])
    ensures
      var s := Run(EMPTY_LEDGER, ops);
      Step(s, Withdraw(signers, vaccount, toAccount, accountExists, q)).Some?
      <==> && !s.paused && vaccount in signers && vaccount in s.users && accountExists
           && q.symbol == WEOSDT && q.amount > 0 && Covers(s, vaccount, q) && CanLeave(s, vaccount, toAccount, q)
  {
    EmptyLedgerIsSound();
    RunKeepsSoundAndBacked(EMPTY_LEDGER, ops);
    var s := Run(EMPTY_LEDGER, ops);
    if !s.paused {
      RedeemIsHonoured(s, vaccount, toAccount, q);
    }
  }

  /** A withdrawal undoes a deposit: the amount just deposited can be taken out again to any account but
      the contract's own, and then every balance and the real tokens held are what they were. */
  lemma WithdrawalUndoesDeposit(
      s: State, from: Name, v: Name, toAccount: Name, q: Asset, owner: Name, symbol: Symbol)
    requires Sound(s)
    requires IsDeposit(WEOSDT_CONTRACT, from, SELF, q)
    ensures Receive(s, WEOSDT_CONTRACT, from, SELF, q, Some(v)).Some? ==>
      var out := Redeem(Receive(s, WEOSDT_CONTRACT, from, SELF, q, Some(v)).value, v, toAccount, q);
      && (out.Some? <==> toAccount != SELF)
      && (out.Some? ==>
            && out.value.custody == s.custody
            && BalanceOf(out.value.accounts, owner, symbol).amount == BalanceOf(s.accounts, owner, symbol).amount)
  {
    if Receive(s, WEOSDT_CONTRACT, from, SELF, q, Some(v)).Some? {
      var received := ReceiveReal(s, WEOSDT_CONTRACT, from, SELF, q).value;
      var deposited := Receive(s, WEOSDT_CONTRACT, from, SELF, q, Some(v)).value;
      ReceiveKeepsSound(s, WEOSDT_CONTRACT, from, SELF, q, Some(v));
      MoveIsExact(received, PHOENIX, v, q, v, q.symbol);
      MoveIsExact(received, PHOENIX, v, q, owner, symbol);
      BalancesAreNonNegative(s, v, q.symbol);
      MoveSucceedsIffCovered(deposited, v, PHOENIX, q);
      MoveIsExact(deposited, v, PHOENIX, q, owner, symbol);
    }
  }

  lemma BalancesAreNonNegative(s: State, owner: Name, symbol: Symbol)
    requires RowsOk(s)
    ensures BalanceOf(s.accounts, owner, symbol).amount >= 0
  {
  }

  /** The same for the payout of the fees, whenever there are any. */
  lemma PayoutIsHonoured(ops: seq<Op>, auth: set<Name>, toAccount: Name, accountExists: bool)
    requires forall i :: 0 <= i < |ops| ==> LeavesPhoenixAlone(ops[i])
    ensures
      var s := Run(EMPTY_LEDGER, ops);
      var fees := BalanceOf(s.accounts, FEES, WEOSDT);
      Step(s, Payout(auth, toAccount, accountExists)).Some?
      <==> !s.paused && SELF in auth && FEES in s.users && accountExists && toAccount != SELF
           && fees.symbol == WEOSDT && fees.amount > 0
  {
    EmptyLedgerIsSound();
    RunKeepsSoundAndBacked(EMPTY_LEDGER, ops);
    var s := Run(EMPTY_LEDGER, ops);
    if !s.paused {
      RedeemIsHonoured(s, FEES, toAccount, BalanceOf(s.accounts, FEES, WEOSDT));
    }
  }

  lemma HoldingsExceptPhoenix(s: State, k: AccountKey)
    requires RowsOk(s) && k in s.accounts && k.owner != PHOENIX && k.code == WEOSDT.code
    ensures s.accounts[k].amount <= Held(s.accounts, WEOSDT.code, {PHOENIX})
  {
    OneIsAtMostSum(Holdings(s.accounts, WEOSDT.code, {PHOENIX}), k);
  }

  lemma EmptyLedgerIsSound()
    ensures Sound(EMPTY_LEDGER) && Backed(EMPTY_LEDGER)
  {
  }
}
