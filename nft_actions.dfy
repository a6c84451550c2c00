/**
 * The actions of the `ertc.nft` contract as functions on the tables: which
 * `check` aborts an action first, what the tables are when it completes,
 * and the proof that every action keeps the tables consistent.
 */
module NftActions {
  import opened NftKeys
  import opened NftTables

  const SYMBOL_EXISTS := "token with symbol already exists"
  const NOT_WHOLE := "quantity must be a whole number"
  const MEMO_TOO_LONG := "memo has more than 256 bytes"
  const NAME_TOO_LONG := "name has more than 32 bytes"
  const NO_SYMBOL := "token with symbol does not exist. create token before issue"
  const NOT_POSITIVE := "must issue positive quantity of NFT"
  const PRECISION_MISMATCH := "symbol precision mismatch"
  const COUNT_MISMATCH := "mismatch between number of tokens and coords provided"
  const TO_SELF := "cannot transfer to self"
  const NO_SUCH_ID := "token with specified ID does not exist"
  const NOT_OWNER := "sender does not own token with specified ID"
  const NOT_ENOUGH := "not enough tokens found"

  // ---------------------------------------------------------------------------
  // create
  // ---------------------------------------------------------------------------

  /** The currency `create` adds: supply 0 of the code at precision 0. */
  function NewCurrency(issuer: Name, code: SymbolCode): Stats
  {
    Stats(Asset(0, Symbol(code, 0)), issuer)
  }

  /** `create` adds the currency, unless one with that code exists. */
  lemma CreatePreserves(currencies: Currencies, accounts: Accounts, tokens: seq<Token>, issuer: Name, code: SymbolCode)
    requires Consistent(currencies, accounts, tokens) && code !in currencies
    ensures Consistent(currencies[code := NewCurrency(issuer, code)], accounts, tokens)
  {
    var cs := currencies[code := NewCurrency(issuer, code)];
    assert forall i | 0 <= i < |tokens| :: tokens[i].value.symbol.code != code;
    CountNone(tokens, Issued(code));
    assert Supplies(cs, tokens);
  }

  // ---------------------------------------------------------------------------
  // issue
  // ---------------------------------------------------------------------------

  /** The checks of `issue`, in the order they run; the last is the mint loop. */
  function IssueOutcome(currencies: Currencies, tokens: seq<Token>, to: Name, quantity: Asset,
                        coords: seq<Point>, tknName: string, memo: string): Outcome
  {
    var code := quantity.symbol.code;
    if quantity.symbol.precision != 0 then Failed(NOT_WHOLE)
    else if |memo| > MEMO_LIMIT then Failed(MEMO_TOO_LONG)
    else if |tknName| > NAME_LIMIT then Failed(NAME_TOO_LONG)
    else if code !in currencies then Failed(NO_SYMBOL)
    else if quantity.amount <= 0 then Failed(NOT_POSITIVE)
    else if quantity.symbol != currencies[code].supply.symbol then Failed(PRECISION_MISMATCH)
    else if quantity.amount != |coords| then Failed(COUNT_MISMATCH)
    else MintAll(tokens, to, Unit(quantity), coords, tknName).outcome
  }

  /** The value of every token `issue` mints. */
  function Unit(quantity: Asset): Asset
  {
    Asset(1, quantity.symbol)
  }

  /**
   * On consistent tables `issue` completes exactly when its checks pass and
   * the points are fresh; it then mints one token of value 1 per point for
   * `to`, in order, raises the supply and `to`'s balance by the amount, and
   * the tables stay consistent.
   */
  lemma IssuePreserves(currencies: Currencies, accounts: Accounts, tokens: seq<Token>, to: Name,
                       quantity: Asset, coords: seq<Point>, tknName: string, memo: string)
    requires Consistent(currencies, accounts, tokens)
    ensures var code := quantity.symbol.code;
      (IssueOutcome(currencies, tokens, to, quantity, coords, tknName, memo) == Ok) <==>
        (&& quantity.symbol.precision == 0 && |memo| <= MEMO_LIMIT && |tknName| <= NAME_LIMIT
         && code in currencies && quantity.symbol == currencies[code].supply.symbol
         && quantity.amount == |coords| > 0
         && FreshCoords(tokens, coords) && |tokens| + |coords| <= NO_AVAILABLE_PRIMARY_KEY)
    ensures IssueOutcome(currencies, tokens, to, quantity, coords, tknName, memo) == Ok ==>
      var minted := MintAll(tokens, to, Unit(quantity), coords, tknName).tokens;
      && minted == tokens + NewTokens(|tokens|, to, Unit(quantity), coords, tknName)
      && Consistent(Raised(currencies, quantity), Credited(accounts, to, quantity), minted)
  {
    MintAllAppends(tokens, to, Unit(quantity), coords, tknName);
    if IssueOutcome(currencies, tokens, to, quantity, coords, tknName, memo) == Ok {
      IssueKeeps(currencies, accounts, tokens, to, quantity, coords, tknName);
    }
  }

  lemma IssueKeeps(currencies: Currencies, accounts: Accounts, tokens: seq<Token>, to: Name,
                   quantity: Asset, coords: seq<Point>, tknName: string)
    requires Consistent(currencies, accounts, tokens)
    requires quantity.symbol.code in currencies && quantity.symbol == currencies[quantity.symbol.code].supply.symbol
    requires quantity.amount == |coords| && FreshCoords(tokens, coords) && |tokens| + |coords| <= NO_AVAILABLE_PRIMARY_KEY
    ensures Consistent(Raised(currencies, quantity), Credited(accounts, to, quantity),
                       tokens + NewTokens(|tokens|, to, Unit(quantity), coords, tknName))
  {
    var added := NewTokens(|tokens|, to, Unit(quantity), coords, tknName);
    GrownDense(tokens, to, Unit(quantity), coords, tknName);
    AddedCoordsDistinct(tokens, coords, added);
    AddedValues(currencies, tokens, quantity, added);
    NewTokensCounts(|tokens|, to, Unit(quantity), coords, tknName);
    AddedCounted(currencies, accounts, tokens, to, quantity, coords, added);
    RaisedCreditedKeyed(currencies, accounts, to, quantity);
  }

  lemma AddedCoordsDistinct(tokens: seq<Token>, coords: seq<Point>, added: seq<Token>)
    requires DistinctCoords(tokens) && FreshCoords(tokens, coords)
    requires |added| == |coords| && forall k | 0 <= k < |added| :: added[k].coords == coords[k]
    ensures DistinctCoords(tokens + added)
  {
    var g := tokens + added;
    forall i, j | 0 <= i < j < |g|
      ensures g[i].coords != g[j].coords
    {
      if j < |tokens| {
        assert g[i] == tokens[i] && g[j] == tokens[j];
      } else if i < |tokens| {
        assert g[i] == tokens[i] && g[j] == added[j - |tokens|];
      } else {
        assert g[i] == added[i - |tokens|] && g[j] == added[j - |tokens|];
      }
    }
  }

  lemma AddedValues(currencies: Currencies, tokens: seq<Token>, quantity: Asset, added: seq<Token>)
    requires TokenValues(currencies, tokens)
    requires quantity.symbol.code in currencies && quantity.symbol == currencies[quantity.symbol.code].supply.symbol
    requires forall k | 0 <= k < |added| :: added[k].value == Unit(quantity)
    ensures TokenValues(Raised(currencies, quantity), tokens + added)
  {
    var cs := Raised(currencies, quantity);
    var g := tokens + added;
    assert forall c | c in currencies :: c in cs && cs[c].supply.symbol == currencies[c].supply.symbol;
    forall i | 0 <= i < |g|
      ensures g[i].value.amount == 1 && g[i].value.symbol.code in cs && cs[g[i].value.symbol.code].supply.symbol == g[i].value.symbol
    {
      if i < |tokens| {
        assert g[i] == tokens[i];
      } else {
        assert g[i] == added[i - |tokens|];
      }
    }
  }

  lemma NewTokensCounts(start: nat, owner: Name, value: Asset, coords: seq<Point>, tknName: string)
    requires start + |coords| <= TWO_64
    ensures forall k: Tally :: Count(NewTokens(start, owner, value, coords, tknName), k) == if CountsAs(owner, value, k) then |coords| else 0
  {
    forall k: Tally
      ensures Count(NewTokens(start, owner, value, coords, tknName), k) == if CountsAs(owner, value, k) then |coords| else 0
    {
      NewTokensCount(start, owner, value, coords, tknName, k);
    }
  }

  lemma AddedCounted(currencies: Currencies, accounts: Accounts, tokens: seq<Token>, to: Name, quantity: Asset,
                     coords: seq<Point>, added: seq<Token>)
    requires Supplies(currencies, tokens) && Balances(accounts, tokens)
    requires quantity.symbol.code in currencies && quantity.amount == |coords|
    requires forall k: Tally :: Count(added, k) == if CountsAs(to, Unit(quantity), k) then |coords| else 0
    ensures Supplies(Raised(currencies, quantity), tokens + added)
    ensures Balances(Credited(accounts, to, quantity), tokens + added)
  {
    var cs := Raised(currencies, quantity);
    var acc := Credited(accounts, to, quantity);
    forall c | c in cs
      ensures cs[c].supply.amount == Count(tokens + added, Issued(c))
    {
      CountConcat(tokens, added, Issued(c));
    }
    forall o: Name, c: SymbolCode
      ensures BalanceOf(acc, o, c) == Count(tokens + added, Held(o, c))
    {
      CountConcat(tokens, added, Held(o, c));
      CreditedBalance(accounts, to, quantity, o, c);
    }
  }

  /** Raising a supply and crediting a balance keep every row under its own key. */
  lemma RaisedCreditedKeyed(currencies: Currencies, accounts: Accounts, to: Name, quantity: Asset)
    requires Keyed(currencies, accounts) && quantity.symbol.code in currencies
    ensures Keyed(Raised(currencies, quantity), Credited(accounts, to, quantity))
  {
    var cs := Raised(currencies, quantity);
    assert forall c | c in cs :: c in currencies && cs[c].supply.symbol == currencies[c].supply.symbol;
  }

  // ---------------------------------------------------------------------------
  // transferid
  // ---------------------------------------------------------------------------

  /** The checks of `transferid`, in the order they run; the last is `sub_balance`'s. */
  function TransferIdOutcome(accounts: Accounts, tokens: seq<Token>, from: Name, to: Name, id: Uint64, memo: string): Outcome
  {
    var i := FindToken(tokens, id);
    if from == to then Failed(TO_SELF)
    else if |memo| > MEMO_LIMIT then Failed(MEMO_TOO_LONG)
    else if i == |tokens| then Failed(NO_SUCH_ID)
    else if tokens[i].owner != from then Failed(NOT_OWNER)
    else SubBalanceCheck(accounts, from, tokens[i].value)
  }

  /**
   * On consistent tables `transferid` completes exactly when `from` and `to`
   * differ, the memo fits and the token exists and is `from`'s (the balance
   * check that follows cannot fail); it then hands that one token to `to`,
   * moves its value between the two balances, and the tables stay consistent.
   */
  lemma TransferIdPreserves(currencies: Currencies, accounts: Accounts, tokens: seq<Token>,
                            from: Name, to: Name, id: Uint64, memo: string)
    requires Consistent(currencies, accounts, tokens)
    ensures TransferIdOutcome(accounts, tokens, from, to, id, memo) == Ok
        <==> from != to && |memo| <= MEMO_LIMIT && id < |tokens| && tokens[id].owner == from
    ensures TransferIdOutcome(accounts, tokens, from, to, id, memo) == Ok ==>
      && (from, tokens[id].value.symbol.code) in accounts
      && Consistent(currencies, Credited(Debited(accounts, from, tokens[id].value), to, tokens[id].value),
                    Reassigned(tokens, [id], to))
  {
    FindDense(tokens, id);
    if from != to && id < |tokens| && tokens[id].owner == from {
      var t := tokens[id];
      assert Count(tokens, Held(from, t.value.symbol.code)) >= 1 by {
        CountUpdate(tokens, id, t.(owner := to), Held(from, t.value.symbol.code));
      }
      assert BalanceOf(accounts, from, t.value.symbol.code) == Count(tokens, Held(from, t.value.symbol.code));
      TransferKeeps(currencies, accounts, tokens, from, to, [id], t.value);
    }
  }

  // ---------------------------------------------------------------------------
  // transfer
  // ---------------------------------------------------------------------------

  /** The checks of `transfer`, in the order they run; the last is `sub_balance`'s. */
  function TransferOutcome(accounts: Accounts, tokens: seq<Token>, from: Name, to: Name, quantity: Asset, memo: string): Outcome
  {
    if from == to then Failed(TO_SELF)
    else if |memo| > MEMO_LIMIT then Failed(MEMO_TOO_LONG)
    else if |Chosen(tokens, quantity.symbol, from, quantity.amount)| != quantity.amount then Failed(NOT_ENOUGH)
    else SubBalanceCheck(accounts, from, quantity)
  }

  /**
   * On consistent tables `transfer` completes exactly when `from` and `to`
   * differ, the memo fits, `from` holds at least `quantity.amount` tokens of
   * the symbol and, for a zero quantity, has a balance row of its code; it
   * then hands the chosen tokens to `to`, moves `quantity` between the two
   * balances, and the tables stay consistent.
   */
  lemma TransferPreserves(currencies: Currencies, accounts: Accounts, tokens: seq<Token>,
                          from: Name, to: Name, quantity: Asset, memo: string)
    requires Consistent(currencies, accounts, tokens)
    ensures var available := |MatchingUpTo(tokens, quantity.symbol, from, |tokens|)|;
      (TransferOutcome(accounts, tokens, from, to, quantity, memo) == Ok) <==>
        (&& from != to && |memo| <= MEMO_LIMIT && 0 <= quantity.amount <= available
         && (quantity.amount == 0 ==> (from, quantity.symbol.code) in accounts))
    ensures TransferOutcome(accounts, tokens, from, to, quantity, memo) == Ok ==>
      && (from, quantity.symbol.code) in accounts
      && Consistent(currencies, Credited(Debited(accounts, from, quantity), to, quantity),
                    Reassigned(tokens, Chosen(tokens, quantity.symbol, from, quantity.amount), to))
  {
    var sym := quantity.symbol;
    var m := MatchingUpTo(tokens, sym, from, |tokens|);
    var its := Chosen(tokens, sym, from, quantity.amount);
    ChosenFirst(tokens, sym, from, quantity.amount);
    MatchingCounted(tokens, sym, from, |tokens|);
    assert tokens[..|tokens|] == tokens;
    assert BalanceOf(accounts, from, sym.code) == Count(tokens, Held(from, sym.code));
    if from != to && 0 <= quantity.amount <= |m| && (quantity.amount == 0 ==> (from, sym.code) in accounts) {
      assert |its| == quantity.amount;
      if quantity.amount > 0 {
        TransferKeeps(currencies, accounts, tokens, from, to, its, Asset(quantity.amount, sym));
      } else {
        ZeroTransferKeeps(currencies, accounts, tokens, from, to, quantity);
      }
    }
  }

  /** Reassigning distinct tokens of one value's symbol and moving their number between the balances keeps the tables consistent. */
  lemma TransferKeeps(currencies: Currencies, accounts: Accounts, tokens: seq<Token>,
                      from: Name, to: Name, its: seq<nat>, value: Asset)
    requires Consistent(currencies, accounts, tokens) && from != to
    requires forall j | 0 <= j < |its| :: its[j] < |tokens| && Selectable(tokens[its[j]], value.symbol, from)
    requires forall a, b | 0 <= a < b < |its| :: its[a] < its[b]
    requires value.amount == |its| > 0
    ensures (from, value.symbol.code) in accounts
    ensures Consistent(currencies, Credited(Debited(accounts, from, value), to, value), Reassigned(tokens, its, to))
  {
    var code := value.symbol.code;
    var r := Reassigned(tokens, its, to);
    ReassignedRows(tokens, its, to);
    ReassignedCount(tokens, its, value.symbol, from, to, Held(from, code));
    assert BalanceOf(accounts, from, code) == Count(tokens, Held(from, code));
    OwnersOnlyChange(currencies, tokens, r);
    MovedSupplies(currencies, tokens, its, value.symbol, from, to);
    MovedBalances(accounts, tokens, its, from, to, value);
    DebitedCreditedKeyed(currencies, accounts, from, to, value);
  }

  /** Rows that differ from the old ones in their owner only keep ids, coords and values as they were. */
  lemma OwnersOnlyChange(currencies: Currencies, tokens: seq<Token>, r: seq<Token>)
    requires DenseIds(tokens) && DistinctCoords(tokens) && TokenValues(currencies, tokens)
    requires |r| == |tokens|
    requires forall i | 0 <= i < |tokens| :: r[i] == tokens[i] || r[i] == tokens[i].(owner := r[i].owner)
    ensures DenseIds(r) && DistinctCoords(r) && TokenValues(currencies, r)
  {
    assert forall i | 0 <= i < |r| :: r[i].id == tokens[i].id && r[i].coords == tokens[i].coords && r[i].value == tokens[i].value;
  }

  lemma MovedSupplies(currencies: Currencies, tokens: seq<Token>, its: seq<nat>, sym: Symbol, from: Name, to: Name)
    requires Supplies(currencies, tokens) && from != to
    requires forall j | 0 <= j < |its| :: its[j] < |tokens| && Selectable(tokens[its[j]], sym, from)
    requires forall a, b | 0 <= a < b < |its| :: its[a] != its[b]
    ensures Supplies(currencies, Reassigned(tokens, its, to))
  {
    forall c | c in currencies
      ensures currencies[c].supply.amount == Count(Reassigned(tokens, its, to), Issued(c))
    {
      ReassignedCount(tokens, its, sym, from, to, Issued(c));
    }
  }

  lemma MovedBalances(accounts: Accounts, tokens: seq<Token>, its: seq<nat>, from: Name, to: Name, value: Asset)
    requires Balances(accounts, tokens) && from != to && value.amount == |its|
    requires (from, value.symbol.code) in accounts
    requires forall j | 0 <= j < |its| :: its[j] < |tokens| && Selectable(tokens[its[j]], value.symbol, from)
    requires forall a, b | 0 <= a < b < |its| :: its[a] != its[b]
    ensures Balances(Credited(Debited(accounts, from, value), to, value), Reassigned(tokens, its, to))
  {
    var acc := Credited(Debited(accounts, from, value), to, value);
    forall o: Name, c: SymbolCode
      ensures BalanceOf(acc, o, c) == Count(Reassigned(tokens, its, to), Held(o, c))
    {
      ReassignedCount(tokens, its, value.symbol, from, to, Held(o, c));
      DebitedBalance(accounts, from, value, o, c);
      CreditedBalance(Debited(accounts, from, value), to, value, o, c);
    }
  }

  /** Debiting and crediting a balance keep every row under its own key. */
  lemma DebitedCreditedKeyed(currencies: Currencies, accounts: Accounts, from: Name, to: Name, value: Asset)
    requires Keyed(currencies, accounts) && (from, value.symbol.code) in accounts
    ensures Keyed(currencies, Credited(Debited(accounts, from, value), to, value))
  {
  }

  /** A transfer of nothing changes no balance and no token, and keeps the tables consistent. */
  lemma ZeroTransferKeeps(currencies: Currencies, accounts: Accounts, tokens: seq<Token>,
                          from: Name, to: Name, quantity: Asset)
    requires Consistent(currencies, accounts, tokens)
    requires quantity.amount == 0 && (from, quantity.symbol.code) in accounts
    ensures Consistent(currencies, Credited(Debited(accounts, from, quantity), to, quantity),
                       Reassigned(tokens, Chosen(tokens, quantity.symbol, from, quantity.amount), to))
  {
    var acc := Credited(Debited(accounts, from, quantity), to, quantity);
    forall o: Name, c: SymbolCode
      ensures BalanceOf(acc, o, c) == BalanceOf(accounts, o, c)
    {
      DebitedBalance(accounts, from, quantity, o, c);
      CreditedBalance(Debited(accounts, from, quantity), to, quantity, o, c);
    }
  }

  /**
   * With a zero quantity `transfer` moves no token, and when `to` had no row
   * of the code it now has one holding zero.
   */
  lemma ZeroTransferOpensRow(currencies: Currencies, accounts: Accounts, tokens: seq<Token>,
                             from: Name, to: Name, quantity: Asset, memo: string)
    requires Consistent(currencies, accounts, tokens)
    requires quantity.amount == 0 && TransferOutcome(accounts, tokens, from, to, quantity, memo) == Ok
    ensures Reassigned(tokens, Chosen(tokens, quantity.symbol, from, quantity.amount), to) == tokens
    ensures var after := Credited(Debited(accounts, from, quantity), to, quantity);
      && (to, quantity.symbol.code) in after
      && ((to, quantity.symbol.code) !in accounts ==> after[(to, quantity.symbol.code)] == Account(quantity))
  {
    TransferPreserves(currencies, accounts, tokens, from, to, quantity, memo);
  }
}
