/**
 * The token operations as functions on what a reader sees: the accounts and the
 * pool reserves (pkg/token/apt.go, npt.go, amm.go).
 */
module Ledger {
  import opened Wrappers
  import opened AccountCodec
  import opened StateDB
  import opened Amm

  datatype Token = APT | NPT

  datatype Error =
    | ErrZeroAmount
    | ErrInsufficientBalance
    | ErrInvalidChainID
    | ErrNonceTooLow
    | ErrNonceTooHigh
    | ErrIntrinsicGas
    | ErrBlockGasLimit
    | ErrInvalidTxType
    | ErrInvalidTxRecipient
    | ErrInvalidSwap

  /** Accounts and pool reserves. */
  datatype Book = Book(view: Accounts, pool: Pool)

  function Balance(a: Account, t: Token): nat {
    if t.APT? then a.apt else a.npt
  }

  function WithBalance(a: Account, t: Token, amount: nat): Account {
    if t.APT? then WithBalances(a, amount, a.npt) else WithBalances(a, a.apt, amount)
  }

  function BalanceOf(b: Book, t: Token, addr: Address): nat {
    Balance(AccountAt(b.view, addr), t)
  }

  function Put(b: Book, addr: Address, a: Account): Book {
    Book(b.view[addr := a], b.pool)
  }

  /** AddBalance: creates the account if it is missing. */
  function Credit(b: Book, t: Token, addr: Address, amount: nat): Book {
    var a := AccountAt(b.view, addr);
    Put(b, addr, WithBalance(a, t, Balance(a, t) + amount))
  }

  /** SubBalance, where it does not panic. */
  function Debit(b: Book, t: Token, addr: Address, amount: nat): Book
    requires BalanceOf(b, t, addr) >= amount
  {
    var a := AccountAt(b.view, addr);
    Put(b, addr, WithBalance(a, t, Balance(a, t) - amount))
  }

  function SetNonceOf(b: Book, addr: Address, nonce: uint64): Book {
    Put(b, addr, WithNonce(AccountAt(b.view, addr), nonce))
  }

  /** GetOrNewStateObject: the account exists afterwards. */
  function Touch(b: Book, addr: Address): Book {
    Put(b, addr, AccountAt(b.view, addr))
  }

  function Mint(b: Book, t: Token, addr: Address, amount: nat): Result<Book, Error> {
    if amount == 0 then Err(ErrZeroAmount) else Ok(Credit(b, t, addr, amount))
  }

  function Burn(b: Book, t: Token, addr: Address, amount: nat): Result<Book, Error> {
    if amount == 0 then Err(ErrZeroAmount)
    else if BalanceOf(b, t, addr) < amount then Err(ErrInsufficientBalance)
    else Ok(Debit(b, t, addr, amount))
  }

  /** A transfer to oneself succeeds before any balance is looked at. */
  function Transfer(b: Book, t: Token, from: Address, to: Address, amount: nat): Result<Book, Error> {
    if amount == 0 then Err(ErrZeroAmount)
    else if from == to then Ok(b)
    else if BalanceOf(b, t, from) < amount then Err(ErrInsufficientBalance)
    else Ok(Credit(Debit(b, t, from, amount), t, to, amount))
  }

  function Reserve(p: Pool, t: Token): nat {
    if t.APT? then p.apt else p.npt
  }

  function Other(t: Token): Token {
    if t.APT? then NPT else APT
  }

  function MakePool(t: Token, reserve: nat, other: nat): Pool {
    if t.APT? then Pool(reserve, other) else Pool(other, reserve)
  }

  /** The end of a swap that pays out: balances and reserves move, unless the seller cannot pay. */
  function Settle(b: Book, sold: Token, from: Address, input: nat, output: nat): (Book, Option<Error>)
    requires output <= Reserve(b.pool, Other(sold))
  {
    if BalanceOf(b, sold, from) < input then (b, Some(ErrInsufficientBalance))
    else
      (Book(Credit(Debit(b, sold, from, input), Other(sold), from, output).view,
            MakePool(sold, Reserve(b.pool, sold) + input, Reserve(b.pool, Other(sold)) - output)), None)
  }

  /**
   * SwapAPTForNPT (selling APT) and SwapNPTForAPT (selling NPT).  Loading the
   * pool creates its account even when the swap is then refused.
   */
  function SwapTokens(b: Book, sold: Token, from: Address, input: nat, m: FeeMultiplier): (Book, Option<Error>) {
    var out := SwapOutput(Reserve(b.pool, sold), Reserve(b.pool, Other(sold)), input, m);
    if out.None? then (Touch(b, AMM_POOL_ADDRESS), Some(ErrZeroAmount))
    else
      SwapKeepsProduct(Reserve(b.pool, sold), Reserve(b.pool, Other(sold)), input, m);
      Settle(Touch(b, AMM_POOL_ADDRESS), sold, from, input, out.value)
  }

  // ---- Totals ----

  /** Sum of one token over all accounts. */
  ghost function Sum(m: Accounts, t: Token): nat {
    if m == map[] then 0
    else
      var a :| a in m;
      Balance(m[a], t) + Sum(m - {a}, t)
  }

  /** All of one token: the accounts' balances and the pool's reserve. */
  ghost function Total(b: Book, t: Token): nat {
    Sum(b.view, t) + Reserve(b.pool, t)
  }

  lemma {:induction false} SumWithout(m: Accounts, t: Token, k: Address)
    requires k in m
    ensures Sum(m, t) == Balance(m[k], t) + Sum(m - {k}, t)
    decreases |m|
  {
    var a :| a in m && Sum(m, t) == Balance(m[a], t) + Sum(m - {a}, t);
    if a != k {
      SumWithout(m - {a}, t, k);
      SumWithout(m - {k}, t, a);
      assert m - {a} - {k} == m - {k} - {a};
    }
  }

  /** Replacing one account changes the sum by the difference of its balances. */
  lemma SumPut(m: Accounts, t: Token, k: Address, a: Account)
    ensures Sum(m[k := a], t) == Sum(m, t) - Balance(AccountAt(m, k), t) + Balance(a, t)
    ensures Sum(m, t) >= Balance(AccountAt(m, k), t)
  {
    SumWithout(m[k := a], t, k);
    assert m[k := a] - {k} == m - {k};
    if k in m {
      SumWithout(m, t, k);
    } else {
      assert m - {k} == m;
    }
  }

  lemma CreditTotal(b: Book, t: Token, addr: Address, amount: nat)
    ensures Total(Credit(b, t, addr, amount), t) == Total(b, t) + amount
    ensures Total(Credit(b, t, addr, amount), Other(t)) == Total(b, Other(t))
  {
    var a := AccountAt(b.view, addr);
    var c := WithBalance(a, t, Balance(a, t) + amount);
    SumPut(b.view, t, addr, c);
    SumPut(b.view, Other(t), addr, c);
  }

  lemma DebitTotal(b: Book, t: Token, addr: Address, amount: nat)
    requires BalanceOf(b, t, addr) >= amount
    ensures Total(b, t) >= amount && Total(Debit(b, t, addr, amount), t) == Total(b, t) - amount
    ensures Total(Debit(b, t, addr, amount), Other(t)) == Total(b, Other(t))
  {
    var a := AccountAt(b.view, addr);
    var c := WithBalance(a, t, Balance(a, t) - amount);
    SumPut(b.view, t, addr, c);
    SumPut(b.view, Other(t), addr, c);
  }

  lemma NonceTotal(b: Book, addr: Address, nonce: uint64, t: Token)
    ensures Total(SetNonceOf(b, addr, nonce), t) == Total(b, t)
  {
    SumPut(b.view, t, addr, WithNonce(AccountAt(b.view, addr), nonce));
  }

  lemma TouchTotal(b: Book, addr: Address, t: Token)
    ensures Total(Touch(b, addr), t) == Total(b, t)
  {
    SumPut(b.view, t, addr, AccountAt(b.view, addr));
  }

  /** A transfer moves, creates and destroys nothing. */
  lemma TransferTotal(b: Book, t: Token, from: Address, to: Address, amount: nat, u: Token)
    requires Transfer(b, t, from, to, amount).Ok?
    ensures Total(Transfer(b, t, from, to, amount).value, u) == Total(b, u)
  {
    if from != to {
      DebitTotal(b, t, from, amount);
      CreditTotal(Debit(b, t, from, amount), t, to, amount);
    }
  }

  /** A swap, accepted or refused, keeps the total of both tokens. */
  lemma SwapTotal(b: Book, sold: Token, from: Address, input: nat, m: FeeMultiplier, u: Token)
    ensures Total(SwapTokens(b, sold, from, input, m).0, u) == Total(b, u)
  {
    var touched := Touch(b, AMM_POOL_ADDRESS);
    TouchTotal(b, AMM_POOL_ADDRESS, u);
    if SwapTokens(b, sold, from, input, m).1.None? {
      SwapKeepsProduct(Reserve(b.pool, sold), Reserve(b.pool, Other(sold)), input, m);
      var out := SwapOutput(Reserve(b.pool, sold), Reserve(b.pool, Other(sold)), input, m).value;
      DebitTotal(touched, sold, from, input);
      CreditTotal(Debit(touched, sold, from, input), Other(sold), from, out);
    }
  }

  /** Two books that give every address the same account, and have the same pool. */
  ghost predicate SameAccounts(b: Book, c: Book) {
    b.pool == c.pool && forall a :: AccountAt(b.view, a) == AccountAt(c.view, a)
  }

  /** A refused swap changes no account and no reserve; at most the pool's account now exists. */
  lemma RefusedSwap(b: Book, sold: Token, from: Address, input: nat, m: FeeMultiplier)
    requires SwapTokens(b, sold, from, input, m).1.Some?
    ensures SameAccounts(b, SwapTokens(b, sold, from, input, m).0)
  {
  }

  // ---- What a swap moves ----

  /** The balances of an account differ by so much, and nothing else of it does. */
  ghost predicate Moved(was: Account, now: Account, apt: int, npt: int) {
    && now.apt == was.apt + apt && now.npt == was.npt + npt
    && now.nonce == was.nonce && now.codeHash == was.codeHash && now.storageRoot == was.storageRoot
  }

  /** The seller gives the input for o of the other token, the reserves take the other side, and nobody else changes. */
  ghost predicate Swapped(b: Book, c: Book, sold: Token, from: Address, input: nat, o: nat) {
    && (forall a :: a != from ==> AccountAt(c.view, a) == AccountAt(b.view, a))
    && (sold == APT ==> Moved(AccountAt(b.view, from), AccountAt(c.view, from), 0 - input, o)
                        && c.pool.apt == b.pool.apt + input && c.pool.npt + o == b.pool.npt)
    && (sold == NPT ==> Moved(AccountAt(b.view, from), AccountAt(c.view, from), o, 0 - input)
                        && c.pool.npt == b.pool.npt + input && c.pool.apt + o == b.pool.apt)
  }

  /** A swap goes through exactly when the pool pays for the input and the seller has it. */
  lemma SwapMeans(b: Book, sold: Token, from: Address, input: nat, m: FeeMultiplier)
    ensures var x, y := if sold == APT then b.pool.apt else b.pool.npt, if sold == APT then b.pool.npt else b.pool.apt;
            var has := if sold == APT then AccountAt(b.view, from).apt else AccountAt(b.view, from).npt;
            var (c, e) := SwapTokens(b, sold, from, input, m);
            && (e == Some(ErrZeroAmount) <==> forall o: nat :: !Pays(x, y, input, m, o))
            && (e == Some(ErrInsufficientBalance) <==> has < input && exists o: nat :: Pays(x, y, input, m, o))
            && (e.Some? ==> e.value in {ErrZeroAmount, ErrInsufficientBalance} && SameAccounts(b, c))
            && (e.None? ==> forall o: nat :: Pays(x, y, input, m, o) ==> Swapped(b, c, sold, from, input, o))
  {
    var x, y := Reserve(b.pool, sold), Reserve(b.pool, Other(sold));
    OutputPays(x, y, input, m);
    var out := SwapOutput(x, y, input, m);
    assert out.Some? ==> Pays(x, y, input, m, out.value);
  }
}
