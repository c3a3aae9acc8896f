/** Gas and fees (kernel/gaspool.go, kernel/state_transition.go, kernel/state_processor.go): what
    is bought, refunded and paid over a block. The virtual machine is a parameter. */
module Gas {
  import opened Bytes
  import opened Bags

  const MAX_UINT64: nat := TWO64 - 1
  const TX_GAS: nat := 21000
  const TX_GAS_CONTRACT_CREATION: nat := 53000
  const TX_DATA_ZERO_GAS: nat := 4
  const TX_DATA_NON_ZERO_GAS: nat := 68

  type Address = nat

  /** Accounts, and the refund counter of the running transaction. */
  datatype State = State(balances: map<Address, nat>, nonces: map<Address, nat>, refund: nat)

  function Balance(s: State, a: Address): nat { if a in s.balances then s.balances[a] else 0 }

  function Nonce(s: State, a: Address): nat { if a in s.nonces then s.nonces[a] else 0 }

  function Credit(s: State, a: Address, amount: nat): State { s.(balances := s.balances[a := Balance(s, a) + amount]) }

  function Debit(s: State, a: Address, amount: nat): State
    requires amount <= Balance(s, a)
  {
    s.(balances := s.balances[a := Balance(s, a) - amount])
  }

  /** All the money there is. */
  ghost function Supply(s: State): nat { Sum(s.balances) }

  lemma CreditSupply(s: State, a: Address, amount: nat)
    ensures Supply(Credit(s, a, amount)) == Supply(s) + amount
  {
    SumSet(s.balances, a, Balance(s, a) + amount);
  }

  lemma DebitSupply(s: State, a: Address, amount: nat)
    requires amount <= Balance(s, a)
    ensures Supply(Debit(s, a, amount)) + amount == Supply(s)
  {
    SumSet(s.balances, a, Balance(s, a) - amount);
  }

  datatype Message = Message(from: Address, to: Option<Address>, gasPrice: nat, gas: Uint64, value: nat, nonce: nat,
                             checkNonce: bool, data: Blob)

  datatype VmError = NoError | InsufficientBalance | OtherError

  /** What running a message leaves: the state, the gas not spent, and an error. */
  datatype Ran = Ran(state: State, gas: nat, error: VmError)

  type Evm = (Message, State, nat) -> Ran

  /** The machine returns no more gas than it got. */
  ghost predicate Fair(evm: Evm) { forall m, s, g :: evm(m, s, g).gas <= g }

  /** The machine moves money without making or burning any. */
  ghost predicate Conserving(evm: Evm) { forall m, s, g :: Supply(evm(m, s, g).state) == Supply(s) }

  /** What all transactions of a block have in common. */
  datatype Setting = Setting(evm: Evm, coinbase: Address, homestead: bool)

  datatype Error = NonceTooHigh | NonceTooLow | NoFunds | GasLimitReached | OutOfGas | CannotTransfer

  // --- the pool ---

  class GasPool {
    var gas: nat

    ghost predicate Valid() reads this { gas <= MAX_UINT64 }

    constructor ()
      ensures Valid() && gas == 0
    {
      gas := 0;
    }

    /** Adding beyond the word size would be a fault: no caller does. */
    method AddGas(amount: nat)
      requires Valid() && gas <= MAX_UINT64 - amount
      modifies this
      ensures Valid() && gas == old(gas) + amount
    {
      gas := gas + amount;
    }

    method SubGas(amount: nat) returns (ok: bool)
      requires Valid()
      modifies this
      ensures Valid() && (ok <==> amount <= old(gas)) && gas == if ok then old(gas) - amount else old(gas)
    {
      if gas < amount { return false; }
      gas := gas - amount;
      return true;
    }
  }

  // --- intrinsic gas ---

  function NonZero(data: Blob): nat {
    if data == [] then 0 else NonZero(data[..|data| - 1]) + if data[|data| - 1] != 0 then 1 else 0
  }

  lemma {:induction false} NonZeroBound(data: Blob)
    ensures NonZero(data) <= |data|
    decreases |data|
  {
    if data != [] { NonZeroBound(data[..|data| - 1]); }
  }

  /** The price of a transaction before it runs. */
  function Intrinsic(data: Blob, creation: bool, homestead: bool): nat {
    NonZeroBound(data);
    (if creation && homestead then TX_GAS_CONTRACT_CREATION else TX_GAS)
    + NonZero(data) * TX_DATA_NON_ZERO_GAS + (|data| - NonZero(data)) * TX_DATA_ZERO_GAS
  }

  /** The positions of the bytes that are zero, or that are not. */
  ghost function Places(data: Blob, zero: bool): set<int> {
    set i | 0 <= i < |data| && (data[i] == 0) == zero
  }

  lemma {:induction false} NonZeroCounts(data: Blob)
    ensures NonZero(data) == |Places(data, false)| && |data| - NonZero(data) == |Places(data, true)|
    decreases |data|
  {
    if data == [] {
      assert Places(data, false) == {} && Places(data, true) == {};
    } else {
      hide Places;
      var n := |data| - 1;
      NonZeroCounts(data[..n]);
      PlacesNext(data, n, data[n] == 0);
    }
  }

  lemma PlacesNext(data: Blob, n: nat, last: bool)
    requires n == |data| - 1 && last == (data[n] == 0)
    ensures |Places(data, last)| == |Places(data[..n], last)| + 1 && |Places(data, !last)| == |Places(data[..n], !last)|
  {
    assert Places(data, last) == Places(data[..n], last) + {n};
    assert Places(data, !last) == Places(data[..n], !last);
  }

  /** 21000, or 53000 for a contract since Homestead, and 68 or 4 for each byte. */
  lemma IntrinsicIs(data: Blob, creation: bool, homestead: bool)
    ensures Intrinsic(data, creation, homestead) ==
      (if creation && homestead then 53000 else 21000) + 68 * |Places(data, false)| + 4 * |Places(data, true)|
  {
    hide Places;
    NonZeroCounts(data);
  }

  /** Fails exactly when the price does not fit a word. */
  method IntrinsicGas(data: Blob, creation: bool, homestead: bool) returns (r: Option<nat>)
    ensures var price := Intrinsic(data, creation, homestead); r == if price <= MAX_UINT64 then Some(price) else None
  {
    NonZeroBound(data);
    var gas := if creation && homestead then TX_GAS_CONTRACT_CREATION else TX_GAS;
    if |data| > 0 {
      var nz := 0;
      for i := 0 to |data|
        invariant nz == NonZero(data[..i])
      {
        assert data[..i + 1][..i] == data[..i];
        if data[i] != 0 { nz := nz + 1; }
      }
      assert data[..|data|] == data;
      if (MAX_UINT64 - gas) / TX_DATA_NON_ZERO_GAS < nz { return None; }
      gas := gas + nz * TX_DATA_NON_ZERO_GAS;
      var z := |data| - nz;
      if (MAX_UINT64 - gas) / TX_DATA_ZERO_GAS < z { return None; }
      gas := gas + z * TX_DATA_ZERO_GAS;
    }
    return Some(gas);
  }

  // --- one transaction ---

  /** The refund: what the counter holds, but at most half of what was used. */
  function Refund(used: nat, counter: nat): (r: nat)
    ensures r <= used / 2 && r <= counter && (r == used / 2 || r == counter)
  {
    if used / 2 > counter then counter else used / 2
  }

  /** Gas finally charged for a run that started with `gas` and left `left`. */
  function Charged(gas: nat, left: nat, counter: nat): (r: nat)
    requires left <= gas
    ensures r <= gas && 2 * r >= gas - left
  {
    gas - left - Refund(gas - left, counter)
  }

  /** After the run: the sender gets the rest back, the miner gets the fee. */
  function Settled(s: State, m: Message, coinbase: Address, used: nat): State
    requires used <= m.gas
  {
    Credit(Credit(s, m.from, (m.gas - used) * m.gasPrice), coinbase, used * m.gasPrice)
  }

  /** The state the machine runs on: gas paid for, and the nonce raised for a call. */
  function Bought(s: State, m: Message): State
    requires m.gas * m.gasPrice <= Balance(s, m.from)
  {
    var d := Debit(s, m.from, m.gas * m.gasPrice);
    if m.to.None? then d else d.(nonces := d.nonces[m.from := Nonce(d, m.from) + 1])
  }

  /** Before the run the sender has paid for all the gas, and a call has raised the sender's nonce;
      nothing else has changed. */
  ghost predicate Prepaid(s: State, b: State, m: Message) {
    && (forall a :: Balance(b, a) == Balance(s, a) - if a == m.from then m.gas * m.gasPrice else 0)
    && (forall a :: Nonce(b, a) == Nonce(s, a) + if a == m.from && m.to.Some? then 1 else 0)
    && b.refund == s.refund
  }

  lemma BoughtIs(s: State, m: Message)
    requires m.gas * m.gasPrice <= Balance(s, m.from)
    ensures Prepaid(s, Bought(s, m), m)
  {}

  /** After it the sender gets back the price of the gas left, the miner gets the price of the gas
      used, and nothing else changes. */
  ghost predicate Paid(ran: State, s: State, m: Message, coinbase: Address, used: nat) {
    && used <= m.gas && s.nonces == ran.nonces && s.refund == ran.refund
    && forall a :: Balance(s, a) == Balance(ran, a) + Share(m, coinbase, used, a)
  }

  /** What an account gets when a message is settled. */
  function Share(m: Message, coinbase: Address, used: nat, a: Address): nat
    requires used <= m.gas
  {
    (if a == m.from then (m.gas - used) * m.gasPrice else 0) + (if a == coinbase then used * m.gasPrice else 0)
  }

  lemma SettledPays(ran: State, m: Message, coinbase: Address, used: nat)
    requires used <= m.gas
    ensures Paid(ran, Settled(ran, m, coinbase, used), m, coinbase, used)
  {
    hide Balance, Credit;
    var back, fee := (m.gas - used) * m.gasPrice, used * m.gasPrice;
    CreditIs(ran, m.from, back);
    CreditIs(Credit(ran, m.from, back), coinbase, fee);
  }

  lemma CreditIs(s: State, a: Address, amount: nat)
    ensures var t := Credit(s, a, amount);
      && t.nonces == s.nonces && t.refund == s.refund
      && forall b :: Balance(t, b) == Balance(s, b) + if b == a then amount else 0
  {}

  /** Account by account: who gains what over what the machine left. */
  lemma FeeFlow(ran: State, s: State, m: Message, coinbase: Address, used: nat)
    requires Paid(ran, s, m, coinbase, used)
    ensures coinbase != m.from ==>
      && Balance(s, coinbase) == Balance(ran, coinbase) + used * m.gasPrice
      && Balance(s, m.from) == Balance(ran, m.from) + (m.gas - used) * m.gasPrice
    ensures coinbase == m.from ==> Balance(s, m.from) == Balance(ran, m.from) + m.gas * m.gasPrice
    ensures forall a :: a != m.from && a != coinbase ==> Balance(s, a) == Balance(ran, a)
  {
    Split(m.gas, used, m.gasPrice);
  }

  /** Half of what was spent is the most that the counter can bring back. */
  predicate ChargedFor(gas: nat, ran: Ran, used: nat) {
    var spent := gas - ran.gas;
    used == spent - if spent / 2 <= ran.state.refund then spent / 2 else ran.state.refund
  }

  lemma BoughtSupply(s: State, m: Message)
    requires m.gas * m.gasPrice <= Balance(s, m.from)
    ensures Supply(Bought(s, m)) + m.gas * m.gasPrice == Supply(s)
  {
    DebitSupply(s, m.from, m.gas * m.gasPrice);
  }

  /** What the sender pays, gets back and the miner earns adds up: the money supply changes by
      what the machine changes it by. */
  lemma FeesConserve(s: State, m: Message, coinbase: Address, ran: State, used: nat)
    requires m.gas * m.gasPrice <= Balance(s, m.from) && used <= m.gas
    ensures Supply(Settled(ran, m, coinbase, used)) - Supply(s) == Supply(ran) - Supply(Bought(s, m))
  {
    hide Supply, Credit, Bought, Balance;
    BoughtSupply(s, m);
    Split(m.gas, used, m.gasPrice);
    CreditSupply(ran, m.from, (m.gas - used) * m.gasPrice);
    CreditSupply(Credit(ran, m.from, (m.gas - used) * m.gasPrice), coinbase, used * m.gasPrice);
  }

  lemma Split(gas: nat, used: nat, price: nat)
    requires used <= gas
    ensures (gas - used) * price + used * price == gas * price
  {}

  // --- which messages are accepted ---

  function Price(c: Setting, m: Message): nat { Intrinsic(m.data, m.to.None?, c.homestead) }

  /** Gas can be bought and the intrinsic gas paid. */
  predicate Payable(c: Setting, s: State, m: Message) {
    m.gas * m.gasPrice <= Balance(s, m.from) && Price(c, m) <= m.gas
  }

  /** What the machine makes of a message. */
  function RanOn(c: Setting, s: State, m: Message): Ran
    requires Payable(c, s, m)
  {
    c.evm(m, Bought(s, m), m.gas - Price(c, m))
  }

  /** The nonce fits, gas can be paid for and is left in the block, and value can be moved. */
  predicate Acceptable(c: Setting, s: State, m: Message, pool: nat) {
    && (m.checkNonce ==> Nonce(s, m.from) == m.nonce) && Payable(c, s, m) && m.gas <= pool
    && !RanOn(c, s, m).error.InsufficientBalance?
  }

  /** The first reason not to accept a message. */
  function Objection(c: Setting, s: State, m: Message, pool: nat): (r: Option<Error>)
    ensures r.None? <==> Acceptable(c, s, m, pool)
  {
    if m.checkNonce && Nonce(s, m.from) < m.nonce then Some(NonceTooHigh)
    else if m.checkNonce && Nonce(s, m.from) > m.nonce then Some(NonceTooLow)
    else if Balance(s, m.from) < m.gas * m.gasPrice then Some(NoFunds)
    else if pool < m.gas then Some(GasLimitReached)
    else if m.gas < Price(c, m) then Some(OutOfGas)
    else if RanOn(c, s, m).error.InsufficientBalance? then Some(CannotTransfer)
    else None
  }

  /** What the machine changes the money supply by. */
  ghost function Minted(c: Setting, s: State, m: Message): int {
    if Payable(c, s, m) then Supply(RanOn(c, s, m).state) - Supply(Bought(s, m)) else 0
  }

  class StateTransition {
    const gp: GasPool
    const msg: Message
    const evm: Evm
    const coinbase: Address
    const homestead: bool
    var state: State
    var gas: nat
    var initialGas: nat

    constructor (gp: GasPool, msg: Message, evm: Evm, coinbase: Address, homestead: bool, state: State)
      ensures this.gp == gp && this.msg == msg && this.evm == evm && this.coinbase == coinbase
      ensures this.homestead == homestead
      ensures this.state == state && gas == 0 && initialGas == 0
    {
      this.gp, this.msg, this.evm, this.coinbase, this.homestead := gp, msg, evm, coinbase, homestead;
      this.state, gas, initialGas := state, 0, 0;
    }

    ghost function Env(): Setting { Setting(evm, coinbase, homestead) }

    method BuyGas() returns (err: Option<Error>)
      requires gp.Valid() && gas == 0
      modifies this, gp
      ensures gp.Valid() && gp.gas <= old(gp.gas)
      ensures err ==
        if Balance(old(state), msg.from) < msg.gas * msg.gasPrice then Some(NoFunds)
        else if old(gp.gas) < msg.gas then Some(GasLimitReached)
        else None
      ensures err.None? ==> gp.gas == old(gp.gas) - msg.gas && gas == initialGas == msg.gas
      ensures err.None? ==> state == Debit(old(state), msg.from, msg.gas * msg.gasPrice)
      ensures err.Some? ==> state == old(state) && gp.gas == old(gp.gas)
    {
      var mgval := msg.gas * msg.gasPrice;
      if Balance(state, msg.from) < mgval { return Some(NoFunds); }
      var ok := gp.SubGas(msg.gas);
      if !ok { return Some(GasLimitReached); }
      gas := gas + msg.gas;
      initialGas := msg.gas;
      state := Debit(state, msg.from, mgval);
      return None;
    }

    method PreCheck() returns (err: Option<Error>)
      requires gp.Valid() && gas == 0
      modifies this, gp
      ensures gp.Valid() && gp.gas <= old(gp.gas)
      ensures err.None? <==>
        && (msg.checkNonce ==> Nonce(old(state), msg.from) == msg.nonce)
        && msg.gas * msg.gasPrice <= Balance(old(state), msg.from) && msg.gas <= old(gp.gas)
      ensures err.Some? ==> err == Objection(Env(), old(state), msg, old(gp.gas))
      ensures err.None? ==> gp.gas == old(gp.gas) - msg.gas && gas == initialGas == msg.gas
      ensures err.None? ==> state == Debit(old(state), msg.from, msg.gas * msg.gasPrice)
      ensures err.Some? ==> state == old(state) && gp.gas == old(gp.gas)
    {
      hide Intrinsic, Bought;
      if msg.checkNonce {
        var nonce := Nonce(state, msg.from);
        if nonce < msg.nonce { return Some(NonceTooHigh); }
        if nonce > msg.nonce { return Some(NonceTooLow); }
      }
      err := BuyGas();
    }

    method RefundGas()
      requires gp.Valid() && gas <= initialGas == msg.gas && gp.gas + msg.gas <= MAX_UINT64
      modifies this, gp
      ensures initialGas == old(initialGas) && gas == initialGas - Charged(old(initialGas), old(gas), old(state).refund)
      ensures state == Credit(old(state), msg.from, gas * msg.gasPrice) && gp.Valid() && gp.gas == old(gp.gas) + gas
    {
      var refund := (initialGas - gas) / 2;
      if refund > state.refund { refund := state.refund; }
      gas := gas + refund;
      state := Credit(state, msg.from, gas * msg.gasPrice);
      gp.AddGas(gas);
    }

    /** Everything before the machine runs: checks, payment, intrinsic gas and the nonce. */
    method Prepare() returns (err: Option<Error>)
      requires gp.Valid() && gas == 0
      modifies this, gp
      ensures gp.Valid() && gp.gas <= old(gp.gas)
      ensures err.None? <==>
        && (msg.checkNonce ==> Nonce(old(state), msg.from) == msg.nonce)
        && Payable(Env(), old(state), msg) && msg.gas <= old(gp.gas)
      ensures err.Some? ==> err == Objection(Env(), old(state), msg, old(gp.gas))
      ensures err.None? ==> state == Bought(old(state), msg) && gp.gas == old(gp.gas) - msg.gas
      ensures err.None? ==> gas + Price(Env(), msg) == initialGas == msg.gas
    {
      hide Balance, Nonce, NonZero, Intrinsic;
      err := PreCheck();
      if err.Some? { return; }
      var intrinsic := IntrinsicGas(msg.data, msg.to.None?, homestead);
      if intrinsic.None? || gas < intrinsic.value { return Some(OutOfGas); }
      gas := gas - intrinsic.value;
      if msg.to.Some? { state := state.(nonces := state.nonces[msg.from := Nonce(state, msg.from) + 1]); }
    }

    /** Runs the message. What is charged goes from the sender to the miner, and the pool loses
        exactly that much gas. */
    method TransitionDb() returns (used: nat, failed: bool, err: Option<Error>)
      requires gp.Valid() && gas == 0 && Fair(evm)
      modifies this, gp
      ensures gp.Valid() && gp.gas <= old(gp.gas)
      ensures err == Objection(Env(), old(state), msg, old(gp.gas))
      ensures err.None? ==> used <= msg.gas && gp.gas == old(gp.gas) - used
      ensures err.None? ==> Supply(state) == Supply(old(state)) + Minted(Env(), old(state), msg)
      ensures err.None? ==> Performed(Env(), old(state), state, msg, used, failed)
      ensures err.None? ==>
        var ran := RanOn(Env(), old(state), msg);
        Paid(ran.state, state, msg, coinbase, used) && ChargedFor(msg.gas, ran, used)
    {
      hide Supply, Charged, Balance, Credit, Nonce, Bought, Intrinsic, Paid, ChargedFor;
      used, failed := 0, false;
      err := Prepare();
      if err.Some? { return; }
      var ran := evm(msg, state, gas);
      state, gas := ran.state, ran.gas;
      if ran.error.InsufficientBalance? { return 0, false, Some(CannotTransfer); }
      RefundGas();
      used := initialGas - gas;
      state := Credit(state, coinbase, used * msg.gasPrice);
      FeesConserve(old(state), msg, coinbase, ran.state, used);
      SettledPays(ran.state, msg, coinbase, used);
      ChargedIs(msg.gas, ran, used);
      failed := !ran.error.NoError?;
      err := None;
    }
  }

  lemma ChargedIs(gas: nat, ran: Ran, used: nat)
    requires ran.gas <= gas && used == Charged(gas, ran.gas, ran.state.refund)
    ensures ChargedFor(gas, ran, used)
  {}

  /** A message was paid for, run and settled. */
  ghost predicate Performed(c: Setting, s: State, s': State, m: Message, used: nat, failed: bool) {
    && Payable(c, s, m)
    && var ran := RanOn(c, s, m);
      && ran.gas <= m.gas && used == Charged(m.gas, ran.gas, ran.state.refund) && (failed <==> !ran.error.NoError?)
      && s' == Settled(ran.state, m, c.coinbase, used)
  }

  // --- a block ---

  datatype Receipt = Receipt(failed: bool, cumulative: nat, gasUsed: nat)

  function SumGas(rs: seq<Receipt>): nat { if rs == [] then 0 else SumGas(rs[..|rs| - 1]) + rs[|rs| - 1].gasUsed }

  /** Each receipt records the gas used up to and including its transaction. */
  ghost predicate Cumulative(rs: seq<Receipt>) {
    forall j :: 0 <= j < |rs| ==> rs[j].cumulative == SumGas(rs[..j + 1])
  }

  lemma CumulativePush(rs: seq<Receipt>, r: Receipt)
    requires Cumulative(rs) && r.cumulative == SumGas(rs) + r.gasUsed
    ensures Cumulative(rs + [r]) && SumGas(rs + [r]) == r.cumulative
  {
    var all := rs + [r];
    assert all[..|rs|] == rs;
    forall j | 0 <= j < |all| ensures all[j].cumulative == SumGas(all[..j + 1]) {
      if j < |rs| { assert all[..j + 1] == rs[..j + 1]; } else { assert all[..j + 1] == all; }
    }
  }

  /** One step of a block: the message is performed and the refund counter cleared. */
  ghost predicate Step(c: Setting, s: State, s': State, m: Message, r: Receipt) {
    exists mid :: Performed(c, s, mid, m, r.gasUsed, r.failed) && s' == mid.(refund := 0)
  }

  /** A step pays out what a single message does. */
  lemma StepPays(c: Setting, s: State, s': State, m: Message, r: Receipt)
    requires Step(c, s, s', m, r)
    ensures Payable(c, s, m) && Prepaid(s, Bought(s, m), m) && ChargedFor(m.gas, RanOn(c, s, m), r.gasUsed)
    ensures var ran := RanOn(c, s, m).state; Paid(ran, s'.(refund := ran.refund), m, c.coinbase, r.gasUsed)
  {
    hide Balance, Charged, Bought, Intrinsic, Credit, Prepaid, Paid, ChargedFor;
    var mid :| Performed(c, s, mid, m, r.gasUsed, r.failed) && s' == mid.(refund := 0);
    BoughtIs(s, m);
    ChargedIs(m.gas, RanOn(c, s, m), r.gasUsed);
    SettledPays(RanOn(c, s, m).state, m, c.coinbase, r.gasUsed);
    PaidRefund(RanOn(c, s, m).state, mid, m, c.coinbase, r.gasUsed);
    assert s'.(refund := RanOn(c, s, m).state.refund) == mid;
  }

  lemma PaidRefund(ran: State, s: State, m: Message, coinbase: Address, used: nat)
    requires Paid(ran, s, m, coinbase, used)
    ensures s.refund == ran.refund
  {}

  /** Applies one transaction and writes its receipt. */
  method ApplyTransaction(gp: GasPool, msg: Message, c: Setting, s: State, usedGas0: nat)
    returns (receipt: Receipt, s': State, usedGas: nat, err: Option<Error>)
    requires gp.Valid() && Fair(c.evm)
    modifies gp
    ensures gp.Valid() && err == Objection(c, s, msg, old(gp.gas))
    ensures err.None? ==> receipt.gasUsed <= msg.gas && usedGas == usedGas0 + receipt.gasUsed == receipt.cumulative
    ensures err.None? ==> gp.gas == old(gp.gas) - receipt.gasUsed && Supply(s') == Supply(s) + Minted(c, s, msg)
    ensures err.None? ==> Step(c, s, s', msg, receipt)
  {
    hide Objection, Minted, Fair, Performed;
    var st := new StateTransition(gp, msg, c.evm, c.coinbase, c.homestead, s);
    assert st.Env() == c;
    var gas, failed;
    gas, failed, err := st.TransitionDb();
    usedGas := usedGas0 + gas;
    s' := st.state.(refund := 0);
    receipt := Receipt(failed, usedGas, gas);
  }

  /** What happened in a block so far: the receipts, and the states and the gas left in the pool
      before the first and after each transaction. */
  datatype Trace = Trace(states: seq<State>, pools: seq<nat>, receipts: seq<Receipt>)

  /** Each transaction was acceptable and performed on the state the last one left. After each of
      them the pool and the gas used so far add up to the gas limit. */
  ghost predicate Course(c: Setting, t: Trace, txs: seq<Message>, gasLimit: nat, s0: State) {
    var n := |t.receipts|;
    && n <= |txs| && |t.states| == |t.pools| == n + 1 && t.states[0] == s0 && t.pools[0] == gasLimit
    && forall i :: 0 <= i < n ==> Went(c, t, txs, gasLimit, i)
  }

  lemma CourseNone(c: Setting, txs: seq<Message>, gasLimit: nat, s0: State)
    ensures Course(c, Trace([s0], [gasLimit], []), txs, gasLimit, s0)
  {}

  lemma CourseNext(c: Setting, t: Trace, txs: seq<Message>, gasLimit: nat, s0: State, s': State, r: Receipt, pool: nat)
    requires Course(c, t, txs, gasLimit, s0) && |t.receipts| < |txs|
    requires var n := |t.receipts|;
      && Step(c, t.states[n], s', txs[n], r) && Acceptable(c, t.states[n], txs[n], t.pools[n])
      && pool == t.pools[n] - r.gasUsed && r.gasUsed <= txs[n].gas && pool + r.cumulative == gasLimit
    ensures Course(c, Trace(t.states + [s'], t.pools + [pool], t.receipts + [r]), txs, gasLimit, s0)
  {
    hide Step, Acceptable;
    var n, u := |t.receipts|, Trace(t.states + [s'], t.pools + [pool], t.receipts + [r]);
    forall i | 0 <= i <= n ensures Went(c, u, txs, gasLimit, i) {
      if i < n { assert Went(c, t, txs, gasLimit, i); }
    }
  }

  /** Transaction `i` of a course. */
  ghost predicate Went(c: Setting, t: Trace, txs: seq<Message>, gasLimit: nat, i: nat)
    requires i < |t.receipts| <= |txs| && |t.states| == |t.pools| == |t.receipts| + 1
  {
    var r := t.receipts[i];
    && Step(c, t.states[i], t.states[i + 1], txs[i], r) && Acceptable(c, t.states[i], txs[i], t.pools[i])
    && t.pools[i + 1] == t.pools[i] - r.gasUsed && r.gasUsed <= txs[i].gas && t.pools[i + 1] + r.cumulative == gasLimit
  }

  lemma CourseEnds(c: Setting, t: Trace, txs: seq<Message>, gasLimit: nat, s0: State)
    requires Course(c, t, txs, gasLimit, s0)
    ensures |t.receipts| <= |txs| && |t.states| == |t.pools| == |t.receipts| + 1
  {}

  /** What the machine changes the money supply by in the first `n` transactions. */
  ghost function MintedBy(c: Setting, t: Trace, txs: seq<Message>, n: nat): int
    requires n <= |txs| && n <= |t.states|
  {
    if n == 0 then 0 else MintedBy(c, t, txs, n - 1) + Minted(c, t.states[n - 1], txs[n - 1])
  }

  lemma StepSupply(c: Setting, s: State, s': State, m: Message, r: Receipt)
    requires Step(c, s, s', m, r)
    ensures Supply(s') == Supply(s) + Minted(c, s, m)
    ensures Conserving(c.evm) ==> Minted(c, s, m) == 0
  {
    hide Balance, Charged, Bought, Intrinsic, Credit;
    var mid :| Performed(c, s, mid, m, r.gasUsed, r.failed) && s' == mid.(refund := 0);
    FeesConserve(s, m, c.coinbase, RanOn(c, s, m).state, r.gasUsed);
  }

  /** Over a block the money supply changes by what the machine changes it by, and not at all on a
      machine that conserves it. */
  lemma {:induction false} CourseSupply(c: Setting, t: Trace, txs: seq<Message>, gasLimit: nat, s0: State, n: nat)
    requires Course(c, t, txs, gasLimit, s0) && n <= |t.receipts|
    ensures Supply(t.states[n]) == Supply(s0) + MintedBy(c, t, txs, n)
    ensures Conserving(c.evm) ==> Supply(t.states[n]) == Supply(s0)
  {
    hide Supply, Step, Acceptable, Minted;
    if n > 0 {
      CourseSupply(c, t, txs, gasLimit, s0, n - 1);
      assert Went(c, t, txs, gasLimit, n - 1);
      StepSupply(c, t.states[n - 1], t.states[n], txs[n - 1], t.receipts[n - 1]);
    }
  }

  /** Blocks run one way only. */
  lemma {:induction false} CourseUnique(c: Setting, t: Trace, t': Trace, txs: seq<Message>, gasLimit: nat, s0: State,
                                        n: nat)
    requires Course(c, t, txs, gasLimit, s0) && Course(c, t', txs, gasLimit, s0)
    requires n <= |t.receipts| && n <= |t'.receipts|
    ensures t.states[n] == t'.states[n] && t.pools[n] == t'.pools[n] && t.receipts[..n] == t'.receipts[..n]
  {
    hide Step, Acceptable;
    if n > 0 {
      var k := n - 1;
      CourseUnique(c, t, t', txs, gasLimit, s0, k);
      assert Went(c, t, txs, gasLimit, k) && Went(c, t', txs, gasLimit, k);
      StepUnique(c, t.states[k], t.states[k + 1], t'.states[k + 1], txs[k], t.receipts[k], t'.receipts[k]);
      assert t.receipts[k] == t'.receipts[k];
      assert t.receipts[..n] == t.receipts[..k] + [t.receipts[k]];
      assert t'.receipts[..n] == t'.receipts[..k] + [t'.receipts[k]];
    }
  }

  lemma StepUnique(c: Setting, s: State, a: State, b: State, m: Message, r: Receipt, q: Receipt)
    requires Step(c, s, a, m, r) && Step(c, s, b, m, q)
    ensures a == b && r.gasUsed == q.gasUsed && r.failed == q.failed
  {
    hide Charged, Bought, Intrinsic, Settled, Balance;
  }

  /** A block that gets to an unacceptable transaction does not get past it in any other way. */
  lemma Rejected(c: Setting, t: Trace, t': Trace, txs: seq<Message>, gasLimit: nat, s0: State)
    requires Course(c, t, txs, gasLimit, s0) && Course(c, t', txs, gasLimit, s0)
    requires var n := |t.receipts|; n < |txs| && !Acceptable(c, t.states[n], txs[n], t.pools[n])
    ensures |t'.receipts| <= |t.receipts|
  {
    hide Step, Acceptable;
    var n := |t.receipts|;
    if n < |t'.receipts| {
      assert Went(c, t', txs, gasLimit, n);
      CourseUnique(c, t, t', txs, gasLimit, s0, n);
    }
  }

  /** Runs the transactions of a block, up to the first that is not acceptable. */
  method Process(txs: seq<Message>, gasLimit: Uint64, c: Setting, s0: State)
    returns (receipts: seq<Receipt>, s: State, usedGas: nat, err: Option<Error>, ghost trace: Trace)
    requires Fair(c.evm)
    ensures Course(c, trace, txs, gasLimit, s0)
    ensures err.None? ==> |receipts| == |txs| && receipts == trace.receipts && s == trace.states[|txs|]
    ensures err.None? ==> Cumulative(receipts) && usedGas == SumGas(receipts) <= gasLimit
    ensures err.None? ==> Supply(s) == Supply(s0) + MintedBy(c, trace, txs, |txs|)
    ensures err.Some? ==> receipts == [] && usedGas == 0
    ensures err.Some? ==>
      var n := |trace.receipts|; n < |txs| && err == Objection(c, trace.states[n], txs[n], trace.pools[n])
  {
    hide Supply, Fair, Cumulative, SumGas, Course, Step, Acceptable, Objection, Minted;
    var gp := new GasPool();
    gp.AddGas(gasLimit);
    receipts, s, usedGas, err := [], s0, 0, None;
    trace := Trace([s0], [gasLimit], []);
    CourseNone(c, txs, gasLimit, s0);
    Start();
    for i := 0 to |txs|
      invariant gp.Valid() && fresh(gp) && gp.gas + usedGas == gasLimit && |receipts| == i && receipts == trace.receipts
      invariant Cumulative(receipts) && usedGas == SumGas(receipts) && Course(c, trace, txs, gasLimit, s0)
      invariant |trace.states| == |trace.pools| == i + 1 && s == trace.states[i] && gp.gas == trace.pools[i]
    {
      var receipt;
      receipt, s, usedGas, err := ApplyTransaction(gp, txs[i], c, s, usedGas);
      if err.Some? { return [], s, 0, err, trace; }
      CumulativePush(receipts, receipt);
      CourseNext(c, trace, txs, gasLimit, s0, s, receipt, gp.gas);
      receipts := receipts + [receipt];
      trace := Trace(trace.states + [s], trace.pools + [gp.gas], receipts);
    }
    CourseSupply(c, trace, txs, gasLimit, s0, |txs|);
    return receipts, s, usedGas, None, trace;
  }

  lemma Start()
    ensures Cumulative([]) && SumGas([]) == 0
  {}

  // --- receipts that carry running totals only ---

  /** The totals are words. */
  predicate Words(rs: seq<Receipt>) { forall j :: 0 <= j < |rs| ==> rs[j].cumulative < TWO64 }

  /** `out` is `rs` with amounts of gas that add up to the totals, in word arithmetic. */
  ghost predicate AddsUp(rs: seq<Receipt>, out: seq<Receipt>) {
    && |out| == |rs|
    && forall j :: 0 <= j < |rs| ==>
      && out[j] == rs[j].(gasUsed := out[j].gasUsed) && out[j].gasUsed < TWO64
      && SumGas(out[..j + 1]) % TWO64 == rs[j].cumulative
  }

  /** The totals never fall. */
  predicate Rising(rs: seq<Receipt>) { forall j :: 0 < j < |rs| ==> rs[j - 1].cumulative <= rs[j].cumulative }

  lemma AddsUpNext(rs: seq<Receipt>, out: seq<Receipt>, j: nat, gas: nat)
    requires j < |rs| && Words(rs) && AddsUp(rs[..j], out)
    requires gas == if j == 0 then rs[0].cumulative else (rs[j].cumulative - rs[j - 1].cumulative) % TWO64
    ensures AddsUp(rs[..j + 1], out + [rs[j].(gasUsed := gas)])
  {
    hide SumGas;
    var all := out + [rs[j].(gasUsed := gas)];
    SumLast(all, j);
    assert all[..j] == out && rs[..j + 1][..j] == rs[..j];
    if j > 0 {
      assert out[..j - 1 + 1] == out && rs[..j][j - 1] == rs[j - 1];
      WordStep(SumGas(out), rs[j - 1].cumulative, rs[j].cumulative);
    } else {
      SmallMod(gas);
    }
    forall k | 0 <= k < j ensures SumGas(all[..k + 1]) % TWO64 == rs[k].cumulative {
      assert all[..k + 1] == out[..k + 1] && rs[..j][k] == rs[k];
    }
  }

  lemma WordStep(sum: nat, a: nat, b: nat)
    requires sum % TWO64 == a && b < TWO64
    ensures (sum + (b - a) % TWO64) % TWO64 == b
  {
    var q := sum / TWO64;
    assert sum == q * TWO64 + a;
    if b >= a {
      SmallMod(b - a);
      ModShift(q, b);
    } else {
      ModShift(-1, b - a + TWO64);
      ModShift(q + 1, b);
    }
  }

  lemma ModShift(q: int, x: nat)
    requires x < TWO64
    ensures (q * TWO64 + x) % TWO64 == x
  {}

  /** Rebuilds the gas of each transaction from the running totals. */
  method SetReceiptsData(rs: seq<Receipt>) returns (out: seq<Receipt>)
    requires Words(rs)
    ensures AddsUp(rs, out)
    ensures Cumulative(out) <==> Rising(rs)
  {
    hide AddsUp, Words;
    out := [];
    AddsUpNone(rs);
    for j := 0 to |rs|
      invariant AddsUp(rs[..j], out)
    {
      var gas := if j == 0 then rs[0].cumulative else (rs[j].cumulative - rs[j - 1].cumulative) % TWO64;
      AddsUpNext(rs, out, j, gas);
      out := out + [rs[j].(gasUsed := gas)];
    }
    assert rs[..|rs|] == rs;
    RisingIff(rs, out);
  }

  lemma AddsUpNone(rs: seq<Receipt>)
    ensures AddsUp(rs[..0], [])
  {}

  /** The amounts are the differences of the totals. */
  lemma Amount(rs: seq<Receipt>, out: seq<Receipt>, j: nat)
    requires AddsUp(rs, out) && Words(rs) && 0 < j < |rs|
    ensures out[j].gasUsed == (rs[j].cumulative - rs[j - 1].cumulative) % TWO64
  {
    hide SumGas;
    SumLast(out, j);
    assert SumGas(out[..j - 1 + 1]) % TWO64 == rs[j - 1].cumulative;
    WordDiff(SumGas(out[..j]), out[j].gasUsed);
  }

  lemma WordDiff(sum: nat, x: nat)
    requires x < TWO64
    ensures ((sum + x) % TWO64 - sum % TWO64) % TWO64 == x
  {
    var p, q := sum / TWO64, (sum + x) / TWO64;
    assert sum == p * TWO64 + sum % TWO64 && sum + x == q * TWO64 + (sum + x) % TWO64;
    var d := (sum + x) % TWO64 - sum % TWO64;
    assert d == (p - q) * TWO64 + x;
    ModShift(p - q, x);
  }

  lemma RisingIff(rs: seq<Receipt>, out: seq<Receipt>)
    requires AddsUp(rs, out) && Words(rs)
    ensures Cumulative(out) <==> Rising(rs)
  {
    hide SumGas, AddsUp;
    Totals(rs, out);
    if Cumulative(out) {
      forall j | 0 < j < |rs| ensures rs[j - 1].cumulative <= rs[j].cumulative {
        SumLast(out, j);
        assert out[j - 1].cumulative == SumGas(out[..j - 1 + 1]);
      }
    }
    if Rising(rs) {
      forall j | 0 <= j < |out| ensures out[j].cumulative == SumGas(out[..j + 1]) { RisingSum(rs, out, j); }
    }
  }

  lemma Totals(rs: seq<Receipt>, out: seq<Receipt>)
    requires AddsUp(rs, out)
    ensures |rs| == |out| && forall j :: 0 <= j < |rs| ==> out[j].cumulative == rs[j].cumulative
  {}

  lemma {:induction false} RisingSum(rs: seq<Receipt>, out: seq<Receipt>, j: nat)
    requires AddsUp(rs, out) && Words(rs) && Rising(rs) && j < |rs|
    ensures SumGas(out[..j + 1]) == rs[j].cumulative
  {
    hide SumGas;
    SumLast(out, j);
    if j == 0 {
      SmallMod(out[0].gasUsed);
    } else {
      RisingSum(rs, out, j - 1);
      Amount(rs, out, j);
      assert rs[j - 1].cumulative <= rs[j].cumulative;
      SmallMod(rs[j].cumulative - rs[j - 1].cumulative);
    }
  }

  /** Receipts `full` of a processed block are what is rebuilt from their totals. */
  lemma RebuiltIsRecorded(full: seq<Receipt>, rs: seq<Receipt>, out: seq<Receipt>)
    requires Cumulative(full) && SumGas(full) < TWO64 && AddsUp(rs, out)
    requires |rs| == |full| && forall j :: 0 <= j < |rs| ==> rs[j] == full[j].(gasUsed := rs[j].gasUsed)
    ensures out == full
  {
    hide SumGas, AddsUp, Cumulative;
    SameLength(rs, out);
    forall j | 0 <= j < |full| ensures out[j] == full[j] { RebuiltAt(full, rs, out, j); }
  }

  lemma SameLength(rs: seq<Receipt>, out: seq<Receipt>)
    requires AddsUp(rs, out)
    ensures |out| == |rs| && forall j :: 0 <= j < |rs| ==> out[j] == rs[j].(gasUsed := out[j].gasUsed)
  {}

  lemma RebuiltAt(full: seq<Receipt>, rs: seq<Receipt>, out: seq<Receipt>, j: nat)
    requires Cumulative(full) && SumGas(full) < TWO64 && AddsUp(rs, out) && |rs| == |full| && j < |rs|
    requires forall j :: 0 <= j < |rs| ==> rs[j].cumulative == full[j].cumulative
    ensures out[j].gasUsed == full[j].gasUsed
  {
    hide SumGas, AddsUp, Cumulative, Words;
    SameLength(rs, out);
    TotalsFit(full);
    SameWords(full, rs);
    Difference(full, j);
    if j == 0 { FirstAmount(rs, out); } else { Amount(rs, out, j); }
  }

  lemma SameWords(full: seq<Receipt>, rs: seq<Receipt>)
    requires Words(full) && |rs| == |full| && forall j :: 0 <= j < |rs| ==> rs[j].cumulative == full[j].cumulative
    ensures Words(rs)
  {}

  lemma FirstAmount(rs: seq<Receipt>, out: seq<Receipt>)
    requires AddsUp(rs, out) && rs != []
    ensures out[0].gasUsed == rs[0].cumulative
  {
    hide SumGas;
    SumLast(out, 0);
    SmallMod(out[0].gasUsed);
  }

  /** A recorded amount is the difference of the totals around it. */
  lemma Difference(full: seq<Receipt>, j: nat)
    requires Cumulative(full) && SumGas(full) < TWO64 && j < |full|
    ensures full[j].gasUsed ==
      if j == 0 then full[0].cumulative else (full[j].cumulative - full[j - 1].cumulative) % TWO64
  {
    hide SumGas;
    SumLast(full, j);
    SumPrefix(full, j + 1);
    if j > 0 {
      assert full[j - 1].cumulative == SumGas(full[..j - 1 + 1]);
      SmallMod(full[j].gasUsed);
    }
  }

  /** Receipts that are sent without their gas come back as the block's own. */
  method ReceiptsRoundTrip(txs: seq<Message>, gasLimit: Uint64, c: Setting, s0: State)
    returns (receipts: seq<Receipt>, rebuilt: seq<Receipt>, err: Option<Error>)
    requires Fair(c.evm)
    ensures err.None? ==> |receipts| == |txs| && rebuilt == receipts
  {
    hide Supply, Fair, Cumulative, SumGas, Step, AddsUp, Course, Objection, MintedBy;
    var s, usedGas;
    ghost var trace;
    receipts, s, usedGas, err, trace := Process(txs, gasLimit, c, s0);
    CourseEnds(c, trace, txs, gasLimit, s0);
    rebuilt := [];
    if err.None? {
      var sent := seq(|receipts|, j requires 0 <= j < |receipts| => receipts[j].(gasUsed := 0));
      TotalsFit(receipts);
      rebuilt := SetReceiptsData(sent);
      RebuiltIsRecorded(receipts, sent, rebuilt);
    }
  }

  lemma TotalsFit(rs: seq<Receipt>)
    requires Cumulative(rs) && SumGas(rs) < TWO64
    ensures Words(rs)
  {
    hide SumGas;
    forall j | 0 <= j < |rs| ensures rs[j].cumulative < TWO64 { SumPrefix(rs, j + 1); }
  }

  lemma SumLast(rs: seq<Receipt>, j: nat)
    requires j < |rs|
    ensures SumGas(rs[..j + 1]) == SumGas(rs[..j]) + rs[j].gasUsed && (j == 0 ==> SumGas(rs[..j]) == 0)
  {
    assert rs[..j + 1][..j] == rs[..j];
  }

  lemma SmallMod(x: nat)
    requires x < TWO64
    ensures x % TWO64 == x
  {}

  lemma {:induction false} SumPrefix(rs: seq<Receipt>, n: nat)
    requires n <= |rs|
    ensures SumGas(rs[..n]) <= SumGas(rs)
    decreases |rs|
  {
    if n < |rs| {
      SumPrefix(rs[..|rs| - 1], n);
      assert rs[..|rs| - 1][..n] == rs[..n];
    } else {
      assert rs[..n] == rs;
    }
  }
}
