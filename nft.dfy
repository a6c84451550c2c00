/**
 * The `nft` contract: its three tables as fields of one object, its actions
 * `create`, `issue`, `transferid` and `transfer`, and the helpers `mint`,
 * `sub_balance`, `add_balance`, `sub_supply` and `add_supply`.
 *
 * Every failed `check` aborts the whole action and the host discards all
 * its table writes; an action here saves the tables it may have written
 * before a later check and puts them back when that check fails, so a
 * failed action leaves every table as it was.
 */
module NftLedger {
  import opened NftKeys
  import opened NftTables
  import opened NftActions

  class Nft {
    /** The `stat` tables: one currency per symbol code. */
    var currencies: Currencies
    /** The `accounts` tables: one row per owner and symbol code. */
    var accounts: Accounts
    /** The `token` table, in primary-key order. */
    var tokens: seq<Token>

    ghost predicate Valid()
      reads this
    {
      Consistent(currencies, accounts, tokens)
    }

    /** A freshly deployed contract: all tables empty. */
    constructor()
      ensures Valid()
      ensures currencies == map[] && accounts == map[] && tokens == []
    {
      currencies := map[];
      accounts := map[];
      tokens := [];
      EmptyConsistent();
    }

    // -------------------------------------------------------------------------
    // Helpers
    // -------------------------------------------------------------------------

    /** `add_supply`: `modify` needs the currency row, which the caller has checked exists. */
    method AddSupply(quantity: Asset) returns (out: Outcome)
      modifies this
      ensures out == if quantity.symbol.code in old(currencies) then Ok else Failed(END_ITERATOR)
      ensures out.Ok? ==> currencies == Raised(old(currencies), quantity)
      ensures out.Failed? ==> currencies == old(currencies)
      ensures accounts == old(accounts) && tokens == old(tokens)
    {
      var code := quantity.symbol.code;
      if code !in currencies {
        return Failed(END_ITERATOR);
      }
      var st := currencies[code];
      currencies := currencies[code := st.(supply := st.supply.(amount := st.supply.amount + quantity.amount))];
      return Ok;
    }

    /** `sub_supply`, which no action calls. */
    method SubSupply(quantity: Asset) returns (out: Outcome)
      modifies this
      ensures out == if quantity.symbol.code in old(currencies) then Ok else Failed(END_ITERATOR)
      ensures out.Ok? ==> currencies == Lowered(old(currencies), quantity)
      ensures out.Failed? ==> currencies == old(currencies)
      ensures accounts == old(accounts) && tokens == old(tokens)
    {
      var code := quantity.symbol.code;
      if code !in currencies {
        return Failed(END_ITERATOR);
      }
      var st := currencies[code];
      currencies := currencies[code := st.(supply := st.supply.(amount := st.supply.amount - quantity.amount))];
      return Ok;
    }

    /** `add_balance`: opens a row holding `value`, or adds `value` to the existing one. */
    method AddBalance(owner: Name, value: Asset)
      modifies this
      ensures accounts == Credited(old(accounts), owner, value)
      ensures currencies == old(currencies) && tokens == old(tokens)
    {
      var key := (owner, value.symbol.code);
      if key !in accounts {
        accounts := accounts[key := Account(value)];
      } else {
        var a := accounts[key];
        accounts := accounts[key := Account(a.balance.(amount := a.balance.amount + value.amount))];
      }
    }

    /** `sub_balance`: fails without a row or with too little; erases a row it empties. */
    method SubBalance(owner: Name, value: Asset) returns (out: Outcome)
      modifies this
      ensures out == SubBalanceCheck(old(accounts), owner, value)
      ensures out.Ok? ==> accounts == Debited(old(accounts), owner, value)
      ensures out.Failed? ==> accounts == old(accounts)
      ensures currencies == old(currencies) && tokens == old(tokens)
    {
      var key := (owner, value.symbol.code);
      if key !in accounts {
        return Failed(NO_BALANCE);
      }
      var from := accounts[key];
      if from.balance.amount < value.amount {
        return Failed(OVERDRAWN);
      }
      if from.balance.amount == value.amount {
        accounts := accounts - {key};
      } else {
        accounts := accounts[key := Account(from.balance.(amount := from.balance.amount - value.amount))];
      }
      return Ok;
    }

    /** `mint`: refuses coords whose coords id is in the `bycoords` index, else appends a row. */
    method Mint(owner: Name, value: Asset, coords: Point, tknName: string) returns (out: Outcome)
      modifies this
      ensures out == MintCheck(old(tokens), coords)
      ensures out.Ok? ==> tokens == Minted(old(tokens), owner, value, coords, tknName)
      ensures out.Failed? ==> tokens == old(tokens)
      ensures currencies == old(currencies) && accounts == old(accounts)
    {
      if exists i | 0 <= i < |tokens| :: ToCoordsId(tokens[i].coords) == ToCoordsId(coords) {
        return Failed(NOT_UNIQUE);
      }
      var id := AvailablePrimaryKey(tokens);
      if id >= NO_AVAILABLE_PRIMARY_KEY {
        return Failed(NONE_LEFT);
      }
      tokens := tokens + [Token(id, coords, owner, value, tknName)];
      return Ok;
    }

    /** The loop of `issue` that mints one token per point; a failing `mint` aborts it. */
    method MintEach(owner: Name, value: Asset, coords: seq<Point>, tknName: string) returns (out: Outcome)
      modifies this
      ensures out == MintAll(old(tokens), owner, value, coords, tknName).outcome
      ensures out.Ok? ==> tokens == MintAll(old(tokens), owner, value, coords, tknName).tokens
      ensures out.Failed? ==> tokens == old(tokens)
      ensures currencies == old(currencies) && accounts == old(accounts)
    {
      var saved := tokens;
      var k := 0;
      while k < |coords|
        invariant 0 <= k <= |coords|
        invariant saved == old(tokens)
        invariant MintAll(old(tokens), owner, value, coords[..k], tknName) == Minting(Ok, tokens)
        invariant currencies == old(currencies) && accounts == old(accounts)
      {
        assert coords[..k + 1][..k] == coords[..k];
        out := Mint(owner, value, coords[k], tknName);
        if out.Failed? {
          MintAllFailureSticks(old(tokens), owner, value, coords, k + 1, tknName);
          tokens := saved;
          return;
        }
        k := k + 1;
      }
      assert coords[..k] == coords;
      out := Ok;
    }

    /** The scan of `transfer`: rows of the symbol owned by `from`, in index order, until `found` reaches the amount. */
    method Collect(quantity: Asset, from: Name) returns (its: seq<nat>, found: int)
      ensures its == Chosen(tokens, quantity.symbol, from, quantity.amount)
      ensures found == |its|
    {
      its := [];
      found := 0;
      var it := 0;
      while it < |tokens| && found < quantity.amount
        invariant 0 <= it <= |tokens|
        invariant its == MatchingUpTo(tokens, quantity.symbol, from, it)
        invariant found == |its|
        invariant quantity.amount <= 0 ==> it == 0
        invariant 0 < quantity.amount ==> found <= quantity.amount
      {
        if tokens[it].value.symbol == quantity.symbol && tokens[it].owner == from {
          its := its + [it];
          found := found + 1;
        }
        it := it + 1;
      }
      MatchingExtends(tokens, quantity.symbol, from, it, |tokens|);
    }

    /** The `modify` loop of `transfer`: each collected row gets owner `to`. */
    method Reassign(its: seq<nat>, to: Name)
      requires forall j | 0 <= j < |its| :: its[j] < |tokens|
      modifies this
      ensures tokens == Reassigned(old(tokens), its, to)
      ensures currencies == old(currencies) && accounts == old(accounts)
    {
      var k := 0;
      while k < |its|
        invariant 0 <= k <= |its|
        invariant tokens == Reassigned(old(tokens), its[..k], to)
        invariant currencies == old(currencies) && accounts == old(accounts)
      {
        assert its[..k + 1][..k] == its[..k];
        var i := its[k];
        tokens := tokens[i := tokens[i].(owner := to)];
        k := k + 1;
      }
      assert its[..k] == its;
    }

    // -------------------------------------------------------------------------
    // Actions
    // -------------------------------------------------------------------------

    /** `create`: a new currency of the code with supply 0 and the given issuer. */
    method Create(issuer: Name, code: SymbolCode) returns (out: Outcome)
      requires Valid()
      modifies this
      ensures Valid()
      ensures out == if code in old(currencies) then Failed(SYMBOL_EXISTS) else Ok
      ensures out.Ok? ==> currencies == old(currencies)[code := NewCurrency(issuer, code)]
      ensures out.Failed? ==> currencies == old(currencies)
      ensures accounts == old(accounts) && tokens == old(tokens)
    {
      if code in currencies {
        return Failed(SYMBOL_EXISTS);
      }
      CreatePreserves(currencies, accounts, tokens, issuer, code);
      currencies := currencies[code := Stats(Asset(0, Symbol(code, 0)), issuer)];
      return Ok;
    }

    /** `issue`: raises the supply, mints one token per point for `to`, and credits `to`. */
    method Issue(to: Name, quantity: Asset, coords: seq<Point>, tknName: string, memo: string) returns (out: Outcome)
      requires Valid()
      modifies this
      ensures Valid()
      ensures out == IssueOutcome(old(currencies), old(tokens), to, quantity, coords, tknName, memo)
      ensures out.Ok? ==>
        && quantity.symbol.code in old(currencies)
        && currencies == Raised(old(currencies), quantity)
        && accounts == Credited(old(accounts), to, quantity)
        && |old(tokens)| + |coords| <= NO_AVAILABLE_PRIMARY_KEY
        && tokens == old(tokens) + NewTokens(|old(tokens)|, to, Unit(quantity), coords, tknName)
      ensures out.Failed? ==> currencies == old(currencies) && accounts == old(accounts) && tokens == old(tokens)
    {
      var symbol := quantity.symbol;
      if symbol.precision != 0 {
        return Failed(NOT_WHOLE);
      }
      if |memo| > MEMO_LIMIT {
        return Failed(MEMO_TOO_LONG);
      }
      if |tknName| > NAME_LIMIT {
        return Failed(NAME_TOO_LONG);
      }
      if symbol.code !in currencies {
        return Failed(NO_SYMBOL);
      }
      var st := currencies[symbol.code];
      if quantity.amount <= 0 {
        return Failed(NOT_POSITIVE);
      }
      if symbol != st.supply.symbol {
        return Failed(PRECISION_MISMATCH);
      }
      IssuePreserves(currencies, accounts, tokens, to, quantity, coords, tknName, memo);
      var saved := currencies;
      out := AddSupply(quantity);
      if quantity.amount != |coords| {
        currencies := saved;
        return Failed(COUNT_MISMATCH);
      }
      out := MintEach(to, Unit(quantity), coords, tknName);
      if out.Failed? {
        currencies := saved;
        return;
      }
      AddBalance(to, quantity);
    }

    /** `transferid`: hands one token of `from` to `to` and moves its value between their balances. */
    method TransferId(from: Name, to: Name, id: Uint64, memo: string) returns (out: Outcome)
      requires Valid()
      modifies this
      ensures Valid()
      ensures out == TransferIdOutcome(old(accounts), old(tokens), from, to, id, memo)
      ensures out.Ok? ==>
        && id < |old(tokens)| && (from, old(tokens)[id].value.symbol.code) in old(accounts)
        && tokens == old(tokens)[id := old(tokens)[id].(owner := to)]
        && accounts == Credited(Debited(old(accounts), from, old(tokens)[id].value), to, old(tokens)[id].value)
      ensures out.Failed? ==> accounts == old(accounts) && tokens == old(tokens)
      ensures currencies == old(currencies)
    {
      if from == to {
        return Failed(TO_SELF);
      }
      if |memo| > MEMO_LIMIT {
        return Failed(MEMO_TOO_LONG);
      }
      var i := FindToken(tokens, id);
      if i == |tokens| {
        return Failed(NO_SUCH_ID);
      }
      if tokens[i].owner != from {
        return Failed(NOT_OWNER);
      }
      var st := tokens[i];
      var t0 := tokens;
      tokens := tokens[i := st.(owner := to)];
      out := SubBalance(from, st.value);
      if out.Failed? {
        tokens := t0;
        return;
      }
      AddBalance(to, st.value);
      FindDense(t0, id);
      TransferIdPreserves(currencies, old(accounts), t0, from, to, id, memo);
      assert Reassigned(t0, [i], to) == tokens by {
        assert [i][..0] == [];
      }
    }

    /** `transfer`: hands the first `quantity.amount` tokens of the symbol from `from` to `to`. */
    method Transfer(from: Name, to: Name, quantity: Asset, memo: string) returns (out: Outcome)
      requires Valid()
      modifies this
      ensures Valid()
      ensures out == TransferOutcome(old(accounts), old(tokens), from, to, quantity, memo)
      ensures out.Ok? ==>
        && (from, quantity.symbol.code) in old(accounts)
        && tokens == Reassigned(old(tokens), Chosen(old(tokens), quantity.symbol, from, quantity.amount), to)
        && accounts == Credited(Debited(old(accounts), from, quantity), to, quantity)
      ensures out.Failed? ==> accounts == old(accounts) && tokens == old(tokens)
      ensures currencies == old(currencies)
    {
      if from == to {
        return Failed(TO_SELF);
      }
      if |memo| > MEMO_LIMIT {
        return Failed(MEMO_TOO_LONG);
      }
      var its, found := Collect(quantity, from);
      if found != quantity.amount {
        return Failed(NOT_ENOUGH);
      }
      ChosenFirst(tokens, quantity.symbol, from, quantity.amount);
      var saved := tokens;
      Reassign(its, to);
      out := SubBalance(from, quantity);
      if out.Failed? {
        tokens := saved;
        return;
      }
      AddBalance(to, quantity);
      TransferPreserves(currencies, old(accounts), old(tokens), from, to, quantity, memo);
    }
  }
}
