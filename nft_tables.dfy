/**
 * The tables of the `ertc.nft` contract as values, the change each helper
 * makes to them, and the consistency the actions keep between them: every
 * balance counts its owner's tokens of that symbol, every supply counts the
 * tokens of its symbol, token ids are allocated densely from 0, and no two
 * tokens share coordinates.
 *
 * The `token` table is a sequence of rows in primary-key order.  The
 * `bysymbol` index orders rows by symbol code and, among rows of one code,
 * by primary key, so the rows of one code are met in the order of this
 * sequence.
 */
module NftTables {
  import opened NftKeys

  /** The fate of an action: it completes, or a `check` aborts it with a message. */
  datatype Outcome = Ok | Failed(reason: string)

  type Currencies = map<SymbolCode, Stats>

  /** Account rows, one table per owner keyed by symbol code. */
  type Accounts = map<(Name, SymbolCode), Account>

  const MEMO_LIMIT: nat := 256
  const NAME_LIMIT: nat := 32

  /** `multi_index` refuses to allocate a primary key from this value on. */
  const NO_AVAILABLE_PRIMARY_KEY: nat := TWO_64 - 2

  const NONE_LEFT := "next primary key in table is at maximum allowed value"
  const NOT_UNIQUE := "token coordinates are not unique"
  const NO_BALANCE := "no balance object found"
  const OVERDRAWN := "overdrawn balance"
  const END_ITERATOR := "cannot pass end iterator to modify"

  // ---------------------------------------------------------------------------
  // Counting tokens
  // ---------------------------------------------------------------------------

  /** What a count ranges over: the tokens one owner holds of one code, or all tokens of one code. */
  datatype Tally = Held(holder: Name, code: SymbolCode) | Issued(code: SymbolCode)

  predicate CountsAs(owner: Name, value: Asset, k: Tally)
  {
    match k
    case Held(o, c) => owner == o && value.symbol.code == c
    case Issued(c) => value.symbol.code == c
  }

  predicate Counts(t: Token, k: Tally)
  {
    CountsAs(t.owner, t.value, k)
  }

  function Count(tokens: seq<Token>, k: Tally): nat
  {
    if tokens == [] then 0
    else Count(tokens[..|tokens| - 1], k) + (if Counts(tokens[|tokens| - 1], k) then 1 else 0)
  }

  lemma {:induction false} CountConcat(s: seq<Token>, u: seq<Token>, k: Tally)
    ensures Count(s + u, k) == Count(s, k) + Count(u, k)
    decreases |u|
  {
    if u == [] {
      assert s + u == s;
    } else {
      var init := u[..|u| - 1];
      assert (s + u)[..|s + u| - 1] == s + init;
      CountConcat(s, init, k);
    }
  }

  /** Replacing one row changes a count by what the old and the new row contribute. */
  lemma {:induction false} CountUpdate(s: seq<Token>, i: nat, x: Token, k: Tally)
    requires i < |s|
    ensures Count(s[i := x], k) + (if Counts(s[i], k) then 1 else 0)
         == Count(s, k) + (if Counts(x, k) then 1 else 0)
    decreases |s|
  {
    var t := s[i := x];
    if i == |s| - 1 {
      assert t[..|t| - 1] == s[..|s| - 1];
    } else {
      assert t[..|t| - 1] == s[..|s| - 1][i := x];
      CountUpdate(s[..|s| - 1], i, x, k);
    }
  }

  /** A count sees only owners and values. */
  lemma {:induction false} CountSameHoldings(s: seq<Token>, u: seq<Token>, k: Tally)
    requires |s| == |u|
    requires forall i | 0 <= i < |s| :: s[i].owner == u[i].owner && s[i].value == u[i].value
    ensures Count(s, k) == Count(u, k)
    decreases |s|
  {
    if s != [] {
      CountSameHoldings(s[..|s| - 1], u[..|u| - 1], k);
    }
  }

  lemma {:induction false} CountNone(s: seq<Token>, k: Tally)
    requires forall i | 0 <= i < |s| :: !Counts(s[i], k)
    ensures Count(s, k) == 0
    decreases |s|
  {
    if s != [] {
      CountNone(s[..|s| - 1], k);
    }
  }

  // ---------------------------------------------------------------------------
  // Balances
  // ---------------------------------------------------------------------------

  /** The amount of an owner's balance row of a code, 0 where there is no row. */
  function BalanceOf(accounts: Accounts, owner: Name, code: SymbolCode): int
  {
    if (owner, code) in accounts then accounts[(owner, code)].balance.amount else 0
  }

  /** `add_balance`: a new row holding `value`, or `value` added to the existing row. */
  function Credited(accounts: Accounts, owner: Name, value: Asset): Accounts
  {
    var key := (owner, value.symbol.code);
    if key in accounts then
      var b := accounts[key].balance;
      accounts[key := Account(b.(amount := b.amount + value.amount))]
    else
      accounts[key := Account(value)]
  }

  /** The checks of `sub_balance`: the row must exist and cover `value`. */
  function SubBalanceCheck(accounts: Accounts, owner: Name, value: Asset): Outcome
  {
    var key := (owner, value.symbol.code);
    if key !in accounts then Failed(NO_BALANCE)
    else if accounts[key].balance.amount < value.amount then Failed(OVERDRAWN)
    else Ok
  }

  /** `sub_balance` once its checks pass: the row is erased when it is used up, else decremented. */
  function Debited(accounts: Accounts, owner: Name, value: Asset): Accounts
    requires (owner, value.symbol.code) in accounts
  {
    var key := (owner, value.symbol.code);
    var b := accounts[key].balance;
    if b.amount == value.amount then accounts - {key}
    else accounts[key := Account(b.(amount := b.amount - value.amount))]
  }

  /**
   * `add_balance` creates a row equal to `value` when there is none, adds to
   * it otherwise, and touches no other row.
   */
  lemma CreditedRows(accounts: Accounts, owner: Name, value: Asset)
    ensures var r := Credited(accounts, owner, value); var key := (owner, value.symbol.code);
      && key in r
      && (key !in accounts ==> r[key] == Account(value))
      && (key in accounts ==> r[key].balance == accounts[key].balance.(amount := accounts[key].balance.amount + value.amount))
      && (forall k :: k != key ==> (k in r <==> k in accounts))
      && (forall k | k in accounts && k != key :: r[k] == accounts[k])
  {
  }

  /** `add_balance` raises one balance by the value's amount and no other. */
  lemma CreditedBalance(accounts: Accounts, owner: Name, value: Asset, o: Name, c: SymbolCode)
    ensures BalanceOf(Credited(accounts, owner, value), o, c)
         == BalanceOf(accounts, o, c) + (if o == owner && c == value.symbol.code then value.amount else 0)
  {
  }

  /**
   * `sub_balance` fails exactly when the row is missing or short; otherwise it
   * erases the row when the balance equals `value`, decrements it otherwise,
   * and touches no other row.
   */
  lemma DebitedRows(accounts: Accounts, owner: Name, value: Asset)
    ensures var key := (owner, value.symbol.code);
      SubBalanceCheck(accounts, owner, value) == Ok <==> key in accounts && accounts[key].balance.amount >= value.amount
    ensures var key := (owner, value.symbol.code);
      key in accounts ==>
        var r := Debited(accounts, owner, value);
        && (accounts[key].balance.amount == value.amount <==> key !in r)
        && (key in r ==> r[key].balance == accounts[key].balance.(amount := accounts[key].balance.amount - value.amount))
        && (forall k :: k != key ==> (k in r <==> k in accounts))
        && (forall k | k in accounts && k != key :: r[k] == accounts[k])
  {
  }

  /** `sub_balance` lowers one balance by the value's amount and no other. */
  lemma DebitedBalance(accounts: Accounts, owner: Name, value: Asset, o: Name, c: SymbolCode)
    requires (owner, value.symbol.code) in accounts
    ensures BalanceOf(Debited(accounts, owner, value), o, c)
         == BalanceOf(accounts, o, c) - (if o == owner && c == value.symbol.code then value.amount else 0)
  {
  }

  // ---------------------------------------------------------------------------
  // Supplies
  // ---------------------------------------------------------------------------

  /** `add_supply` on an existing currency: the supply grows by `quantity`. */
  function Raised(currencies: Currencies, quantity: Asset): Currencies
    requires quantity.symbol.code in currencies
  {
    var st := currencies[quantity.symbol.code];
    currencies[quantity.symbol.code := st.(supply := st.supply.(amount := st.supply.amount + quantity.amount))]
  }

  /** `sub_supply` on an existing currency: the supply shrinks by `quantity`. */
  function Lowered(currencies: Currencies, quantity: Asset): Currencies
    requires quantity.symbol.code in currencies
  {
    var st := currencies[quantity.symbol.code];
    currencies[quantity.symbol.code := st.(supply := st.supply.(amount := st.supply.amount - quantity.amount))]
  }

  /** Lowering a supply by what raising it added gives back the currencies. */
  lemma LoweredUndoesRaised(currencies: Currencies, quantity: Asset)
    requires quantity.symbol.code in currencies
    ensures Lowered(Raised(currencies, quantity), quantity) == currencies
  {
    var c := quantity.symbol.code;
    var r := Lowered(Raised(currencies, quantity), quantity);
    assert r[c] == currencies[c];
    assert forall d | d in currencies :: r[d] == currencies[d];
  }

  // ---------------------------------------------------------------------------
  // Minting
  // ---------------------------------------------------------------------------

  /** `available_primary_key`: one past the largest id, or 0 for an empty table. */
  function AvailablePrimaryKey(tokens: seq<Token>): nat
  {
    if tokens == [] then 0 else tokens[|tokens| - 1].id + 1
  }

  /** The `bycoords` lookup of `mint`: some row has the coords id of `p`. */
  predicate CoordsTaken(tokens: seq<Token>, p: Point)
  {
    exists i | 0 <= i < |tokens| :: ToCoordsId(tokens[i].coords) == ToCoordsId(p)
  }

  /** The coords-id lookup finds exactly the rows at point `p`. */
  lemma CoordsTakenAt(tokens: seq<Token>, p: Point)
    ensures CoordsTaken(tokens, p) <==> exists i | 0 <= i < |tokens| :: tokens[i].coords == p
  {
    forall i | 0 <= i < |tokens|
      ensures ToCoordsId(tokens[i].coords) == ToCoordsId(p) <==> tokens[i].coords == p
    {
      CoordsIdInjective(tokens[i].coords, p);
    }
  }

  /** The checks of `mint`, in order: unique coords, then a free primary key. */
  function MintCheck(tokens: seq<Token>, p: Point): Outcome
  {
    if CoordsTaken(tokens, p) then Failed(NOT_UNIQUE)
    else if AvailablePrimaryKey(tokens) >= NO_AVAILABLE_PRIMARY_KEY then Failed(NONE_LEFT)
    else Ok
  }

  /** `mint` once its checks pass: a new row at the next primary key. */
  function Minted(tokens: seq<Token>, owner: Name, value: Asset, p: Point, tknName: string): seq<Token>
    requires AvailablePrimaryKey(tokens) < NO_AVAILABLE_PRIMARY_KEY
  {
    tokens + [Token(AvailablePrimaryKey(tokens), p, owner, value, tknName)]
  }

  datatype Minting = Minting(outcome: Outcome, tokens: seq<Token>)

  /** The mint loop of `issue`: one `mint` per point, in order, stopping at the first failure. */
  function MintAll(tokens: seq<Token>, owner: Name, value: Asset, coords: seq<Point>, tknName: string): Minting
    decreases |coords|
  {
    if coords == [] then Minting(Ok, tokens)
    else
      var m := MintAll(tokens, owner, value, coords[..|coords| - 1], tknName);
      var p := coords[|coords| - 1];
      if m.outcome.Failed? then m
      else if MintCheck(m.tokens, p).Failed? then Minting(MintCheck(m.tokens, p), m.tokens)
      else Minting(Ok, Minted(m.tokens, owner, value, p, tknName))
  }

  /** The points are pairwise distinct and none is the point of an existing row. */
  predicate FreshCoords(tokens: seq<Token>, coords: seq<Point>)
  {
    && (forall i, k | 0 <= i < |tokens| && 0 <= k < |coords| :: tokens[i].coords != coords[k])
    && (forall j, k | 0 <= j < k < |coords| :: coords[j] != coords[k])
  }

  /** The rows a successful mint loop appends: consecutive ids, one per point. */
  function NewTokens(start: nat, owner: Name, value: Asset, coords: seq<Point>, tknName: string): (r: seq<Token>)
    requires start + |coords| <= TWO_64
    ensures |r| == |coords|
    ensures forall k | 0 <= k < |r| :: r[k] == Token(start + k, coords[k], owner, value, tknName)
  {
    seq(|coords|, k requires 0 <= k < |coords| => Token(start + k, coords[k], owner, value, tknName))
  }

  /** Ids are the positions of the rows: allocated from 0 and never erased. */
  ghost predicate DenseIds(tokens: seq<Token>)
  {
    forall i | 0 <= i < |tokens| :: TokenKey(tokens[i]) == i
  }

  /** With dense ids the next primary key is the number of rows, past every id. */
  lemma NextKeyIsCount(tokens: seq<Token>)
    requires DenseIds(tokens)
    ensures AvailablePrimaryKey(tokens) == |tokens|
    ensures forall i | 0 <= i < |tokens| :: tokens[i].id < AvailablePrimaryKey(tokens)
  {
  }

  /**
   * The mint loop succeeds exactly when the points are fresh and the key
   * space holds them, and then appends one row per point with owner, value
   * and name as given and ids counting up from the number of rows.
   */
  lemma {:induction false} MintAllAppends(tokens: seq<Token>, owner: Name, value: Asset, coords: seq<Point>, tknName: string)
    requires DenseIds(tokens) && |tokens| <= NO_AVAILABLE_PRIMARY_KEY
    ensures MintAll(tokens, owner, value, coords, tknName).outcome == Ok
        <==> FreshCoords(tokens, coords) && |tokens| + |coords| <= NO_AVAILABLE_PRIMARY_KEY
    ensures MintAll(tokens, owner, value, coords, tknName).outcome == Ok ==>
        MintAll(tokens, owner, value, coords, tknName).tokens == tokens + NewTokens(|tokens|, owner, value, coords, tknName)
    decreases |coords|
  {
    if coords != [] {
      var init := coords[..|coords| - 1];
      var p := coords[|coords| - 1];
      MintAllAppends(tokens, owner, value, init, tknName);
      var m := MintAll(tokens, owner, value, init, tknName);
      FreshInit(tokens, coords);
      if m.outcome.Failed? {
        assert MintAll(tokens, owner, value, coords, tknName) == m;
        assert !(FreshCoords(tokens, coords) && |tokens| + |coords| <= NO_AVAILABLE_PRIMARY_KEY);
      } else {
        var grown := tokens + NewTokens(|tokens|, owner, value, init, tknName);
        assert m.tokens == grown;
        GrownDense(tokens, owner, value, init, tknName);
        CoordsTakenAt(grown, p);
        FreshGrown(tokens, owner, value, coords, tknName);
        assert AvailablePrimaryKey(grown) == |tokens| + |init|;
        if MintCheck(grown, p) == Ok {
          AppendNew(tokens, owner, value, coords, tknName);
          assert MintAll(tokens, owner, value, coords, tknName).tokens == Minted(grown, owner, value, p, tknName);
          assert FreshCoords(tokens, coords) && |tokens| + |coords| <= NO_AVAILABLE_PRIMARY_KEY;
        } else {
          assert MintAll(tokens, owner, value, coords, tknName).outcome == MintCheck(grown, p);
          assert !(FreshCoords(tokens, coords) && |tokens| + |coords| <= NO_AVAILABLE_PRIMARY_KEY);
        }
      }
    }
  }

  lemma FreshInit(tokens: seq<Token>, coords: seq<Point>)
    requires coords != []
    ensures FreshCoords(tokens, coords) ==> FreshCoords(tokens, coords[..|coords| - 1])
  {
    var init := coords[..|coords| - 1];
    assert forall k | 0 <= k < |init| :: init[k] == coords[k];
  }

  lemma GrownDense(tokens: seq<Token>, owner: Name, value: Asset, coords: seq<Point>, tknName: string)
    requires DenseIds(tokens) && |tokens| + |coords| <= NO_AVAILABLE_PRIMARY_KEY
    ensures DenseIds(tokens + NewTokens(|tokens|, owner, value, coords, tknName))
    ensures AvailablePrimaryKey(tokens + NewTokens(|tokens|, owner, value, coords, tknName)) == |tokens| + |coords|
  {
    var g := tokens + NewTokens(|tokens|, owner, value, coords, tknName);
    assert forall i | |tokens| <= i < |g| :: g[i].id == i;
    NextKeyIsCount(g);
  }

  /** The new point is fresh for the grown table exactly when it is fresh for the original one and the earlier points. */
  lemma FreshGrown(tokens: seq<Token>, owner: Name, value: Asset, coords: seq<Point>, tknName: string)
    requires coords != [] && |tokens| + |coords| <= NO_AVAILABLE_PRIMARY_KEY + 1
    requires FreshCoords(tokens, coords[..|coords| - 1])
    ensures var init := coords[..|coords| - 1];
      var g := tokens + NewTokens(|tokens|, owner, value, init, tknName);
      (!exists i | 0 <= i < |g| :: g[i].coords == coords[|coords| - 1]) <==> FreshCoords(tokens, coords)
  {
    var init := coords[..|coords| - 1];
    var p := coords[|coords| - 1];
    var g := tokens + NewTokens(|tokens|, owner, value, init, tknName);
    assert forall i | 0 <= i < |tokens| :: g[i] == tokens[i];
    assert forall k | 0 <= k < |init| :: g[|tokens| + k].coords == init[k] == coords[k];
    if !exists i | 0 <= i < |g| :: g[i].coords == p {
      forall i, k | 0 <= i < |tokens| && 0 <= k < |coords|
        ensures tokens[i].coords != coords[k]
      {
        if k < |init| {
          assert init[k] == coords[k];
        } else {
          assert g[i].coords != p;
        }
      }
      forall j, k | 0 <= j < k < |coords|
        ensures coords[j] != coords[k]
      {
        if k < |init| {
          assert init[j] == coords[j] && init[k] == coords[k];
        } else {
          assert g[|tokens| + j].coords != p;
        }
      }
    }
    if FreshCoords(tokens, coords) {
      forall i | 0 <= i < |g|
        ensures g[i].coords != p
      {
        if i < |tokens| {
          assert tokens[i].coords != coords[|coords| - 1];
        } else {
          assert g[i].coords == coords[i - |tokens|];
        }
      }
    }
  }

  lemma AppendNew(tokens: seq<Token>, owner: Name, value: Asset, coords: seq<Point>, tknName: string)
    requires coords != [] && |tokens| + |coords| <= NO_AVAILABLE_PRIMARY_KEY
    ensures var init := coords[..|coords| - 1];
      var g := tokens + NewTokens(|tokens|, owner, value, init, tknName);
      g + [Token(|tokens| + |init|, coords[|coords| - 1], owner, value, tknName)]
        == tokens + NewTokens(|tokens|, owner, value, coords, tknName)
  {
    var init := coords[..|coords| - 1];
    var a := NewTokens(|tokens|, owner, value, init, tknName);
    var b := NewTokens(|tokens|, owner, value, coords, tknName);
    assert a + [Token(|tokens| + |init|, coords[|coords| - 1], owner, value, tknName)] == b;
  }

  /** Once a mint of the loop fails, the later points do not change the outcome. */
  lemma {:induction false} MintAllFailureSticks(tokens: seq<Token>, owner: Name, value: Asset, coords: seq<Point>, n: nat, tknName: string)
    requires n <= |coords|
    requires MintAll(tokens, owner, value, coords[..n], tknName).outcome.Failed?
    ensures MintAll(tokens, owner, value, coords, tknName) == MintAll(tokens, owner, value, coords[..n], tknName)
    decreases |coords| - n
  {
    if n < |coords| {
      assert coords[..n + 1][..n] == coords[..n];
      MintAllFailureSticks(tokens, owner, value, coords, n + 1, tknName);
    } else {
      assert coords[..n] == coords;
    }
  }

  /** The rows a successful mint loop appends hold `value` for `owner`, one per point. */
  lemma NewTokensCount(start: nat, owner: Name, value: Asset, coords: seq<Point>, tknName: string, k: Tally)
    requires start + |coords| <= TWO_64
    ensures Count(NewTokens(start, owner, value, coords, tknName), k) == if CountsAs(owner, value, k) then |coords| else 0
  {
    var r := NewTokens(start, owner, value, coords, tknName);
    if CountsAs(owner, value, k) {
      CountAll(r, k);
    } else {
      CountNone(r, k);
    }
  }

  lemma {:induction false} CountAll(s: seq<Token>, k: Tally)
    requires forall i | 0 <= i < |s| :: Counts(s[i], k)
    ensures Count(s, k) == |s|
    decreases |s|
  {
    if s != [] {
      CountAll(s[..|s| - 1], k);
    }
  }

  // ---------------------------------------------------------------------------
  // Looking up and reassigning tokens
  // ---------------------------------------------------------------------------

  /** `tokens.find(id)`: the position of the row with that id, or the end. */
  function FindToken(tokens: seq<Token>, id: Uint64): (r: nat)
    ensures r <= |tokens|
    ensures r < |tokens| ==> tokens[r].id == id
    ensures r == |tokens| ==> forall i | 0 <= i < |tokens| :: tokens[i].id != id
  {
    if tokens == [] then 0
    else if tokens[0].id == id then 0
    else 1 + FindToken(tokens[1..], id)
  }

  /** With dense ids a token exists exactly when its id is below the row count, at that position. */
  lemma FindDense(tokens: seq<Token>, id: Uint64)
    requires DenseIds(tokens)
    ensures FindToken(tokens, id) == if id < |tokens| then id else |tokens|
  {
    var r := FindToken(tokens, id);
    if id < |tokens| {
      assert tokens[id].id == id;
    }
  }

  predicate Selectable(t: Token, sym: Symbol, from: Name)
  {
    t.value.symbol == sym && t.owner == from
  }

  /** The positions below `n`, in index order, of rows of symbol `sym` owned by `from`. */
  function MatchingUpTo(tokens: seq<Token>, sym: Symbol, from: Name, n: nat): (r: seq<nat>)
    requires n <= |tokens|
    ensures forall j | 0 <= j < |r| :: r[j] < n && Selectable(tokens[r[j]], sym, from)
  {
    if n == 0 then []
    else MatchingUpTo(tokens, sym, from, n - 1) + (if Selectable(tokens[n - 1], sym, from) then [n - 1] else [])
  }

  /** The rows `transfer` picks: the first `amount` matching rows, or all of them when fewer. */
  function Chosen(tokens: seq<Token>, sym: Symbol, from: Name, amount: int): seq<nat>
  {
    var m := MatchingUpTo(tokens, sym, from, |tokens|);
    if amount <= 0 then [] else if amount <= |m| then m[..amount] else m
  }

  /** Matching positions ascend, and every matching position below `n` is among them. */
  lemma {:induction false} MatchingAscends(tokens: seq<Token>, sym: Symbol, from: Name, n: nat)
    requires n <= |tokens|
    ensures var r := MatchingUpTo(tokens, sym, from, n);
      && (forall a, b | 0 <= a < b < |r| :: r[a] < r[b])
      && (forall i | 0 <= i < n && Selectable(tokens[i], sym, from) :: i in r)
    decreases n
  {
    if n > 0 {
      MatchingAscends(tokens, sym, from, n - 1);
    }
  }

  /** Scanning further only extends the matching positions found so far. */
  lemma {:induction false} MatchingExtends(tokens: seq<Token>, sym: Symbol, from: Name, a: nat, b: nat)
    requires a <= b <= |tokens|
    ensures var ra := MatchingUpTo(tokens, sym, from, a);
      var rb := MatchingUpTo(tokens, sym, from, b);
      |ra| <= |rb| && rb[..|ra|] == ra
    decreases b - a
  {
    if a < b {
      MatchingExtends(tokens, sym, from, a, b - 1);
      var ra := MatchingUpTo(tokens, sym, from, a);
      var rp := MatchingUpTo(tokens, sym, from, b - 1);
      var rb := MatchingUpTo(tokens, sym, from, b);
      assert rb[..|rp|] == rp;
      assert rb[..|ra|] == rp[..|ra|];
    }
  }

  /** No more rows match than the owner holds of the symbol's code. */
  lemma {:induction false} MatchingCounted(tokens: seq<Token>, sym: Symbol, from: Name, n: nat)
    requires n <= |tokens|
    ensures |MatchingUpTo(tokens, sym, from, n)| <= Count(tokens[..n], Held(from, sym.code))
    decreases n
  {
    if n > 0 {
      MatchingCounted(tokens, sym, from, n - 1);
      assert tokens[..n][..n - 1] == tokens[..n - 1];
    }
  }

  /**
   * `transfer` picks matching rows only, no row twice, and never skips a
   * matching row in favour of a later one.
   */
  lemma ChosenFirst(tokens: seq<Token>, sym: Symbol, from: Name, amount: int)
    ensures var r := Chosen(tokens, sym, from, amount);
      && |r| <= (if amount <= 0 then 0 else amount)
      && (forall j | 0 <= j < |r| :: r[j] < |tokens| && Selectable(tokens[r[j]], sym, from))
      && (forall a, b | 0 <= a < b < |r| :: r[a] < r[b])
      && (forall i | 0 <= i < |tokens| && Selectable(tokens[i], sym, from) && i !in r ::
            |r| == (if amount <= 0 then 0 else amount) && forall j | 0 <= j < |r| :: r[j] < i)
  {
    var m := MatchingUpTo(tokens, sym, from, |tokens|);
    MatchingAscends(tokens, sym, from, |tokens|);
    var r := Chosen(tokens, sym, from, amount);
    if 0 < amount <= |m| {
      assert forall j | 0 <= j < |r| :: r[j] == m[j];
      forall i | 0 <= i < |tokens| && Selectable(tokens[i], sym, from) && i !in r
        ensures forall j | 0 <= j < |r| :: r[j] < i
      {
        var p :| 0 <= p < |m| && m[p] == i;
        assert p >= amount;
      }
    }
  }

  /** The order of the `bysymbol` index: by symbol code, then, among equal codes, by primary key. */
  predicate BySymbolBefore(a: Token, b: Token)
  {
    TokenSymbolKey(a) < TokenSymbolKey(b) || (TokenSymbolKey(a) == TokenSymbolKey(b) && TokenKey(a) < TokenKey(b))
  }

  /**
   * With dense ids, the rows `transfer` may pick all sit under the requested
   * code in the `bysymbol` index, and there their index order is their
   * position order; so the picks come in index order, and every matching row
   * left out comes after all of them in that index.
   */
  lemma ChosenInIndexOrder(tokens: seq<Token>, sym: Symbol, from: Name, amount: int)
    requires DenseIds(tokens)
    ensures forall i, j | 0 <= i < |tokens| && 0 <= j < |tokens| && Selectable(tokens[i], sym, from) && Selectable(tokens[j], sym, from) ::
      TokenSymbolKey(tokens[i]) == sym.code && (BySymbolBefore(tokens[i], tokens[j]) <==> i < j)
    ensures var r := Chosen(tokens, sym, from, amount);
      && (forall a, b | 0 <= a < b < |r| :: BySymbolBefore(tokens[r[a]], tokens[r[b]]))
      && (forall i | 0 <= i < |tokens| && Selectable(tokens[i], sym, from) && i !in r ::
            forall j | 0 <= j < |r| :: BySymbolBefore(tokens[r[j]], tokens[i]))
  {
    ChosenFirst(tokens, sym, from, amount);
  }

  /** The `modify` loop of `transfer`: each picked row gets owner `to`, in order. */
  function Reassigned(tokens: seq<Token>, its: seq<nat>, to: Name): (r: seq<Token>)
    requires forall j | 0 <= j < |its| :: its[j] < |tokens|
    ensures |r| == |tokens|
  {
    if its == [] then tokens
    else
      var prev := Reassigned(tokens, its[..|its| - 1], to);
      var i := its[|its| - 1];
      prev[i := prev[i].(owner := to)]
  }

  /** The picked rows, and only those, change owner; nothing else about any row changes. */
  lemma {:induction false} ReassignedRows(tokens: seq<Token>, its: seq<nat>, to: Name)
    requires forall j | 0 <= j < |its| :: its[j] < |tokens|
    ensures forall i | 0 <= i < |tokens| ::
      Reassigned(tokens, its, to)[i] == if i in its then tokens[i].(owner := to) else tokens[i]
    decreases |its|
  {
    if its != [] {
      var init := its[..|its| - 1];
      ReassignedRows(tokens, init, to);
      assert forall i :: i in its <==> i in init || i == its[|its| - 1];
    }
  }

  /** Reassigning distinct rows of `from`'s symbol moves their count from `from` to `to`. */
  lemma {:induction false} ReassignedCount(tokens: seq<Token>, its: seq<nat>, sym: Symbol, from: Name, to: Name, k: Tally)
    requires from != to
    requires forall j | 0 <= j < |its| :: its[j] < |tokens| && Selectable(tokens[its[j]], sym, from)
    requires forall a, b | 0 <= a < b < |its| :: its[a] != its[b]
    ensures Count(Reassigned(tokens, its, to), k) + (if k == Held(from, sym.code) then |its| else 0)
         == Count(tokens, k) + (if k == Held(to, sym.code) then |its| else 0)
    decreases |its|
  {
    if its != [] {
      var init := its[..|its| - 1];
      var i := its[|its| - 1];
      assert forall j | 0 <= j < |init| :: init[j] == its[j];
      ReassignedCount(tokens, init, sym, from, to, k);
      var prev := Reassigned(tokens, init, to);
      ReassignedRows(tokens, init, to);
      assert i !in init by {
        assert forall j | 0 <= j < |init| :: init[j] != i;
      }
      assert prev[i] == tokens[i];
      CountUpdate(prev, i, prev[i].(owner := to), k);
    }
  }

  // ---------------------------------------------------------------------------
  // Consistency of the tables
  // ---------------------------------------------------------------------------

  /** Every coordinate pair belongs to at most one token. */
  ghost predicate DistinctCoords(tokens: seq<Token>)
  {
    forall i, j | 0 <= i < j < |tokens| :: tokens[i].coords != tokens[j].coords
  }

  /** Every token is worth 1 of an existing currency's symbol. */
  ghost predicate TokenValues(currencies: Currencies, tokens: seq<Token>)
  {
    forall i | 0 <= i < |tokens| ::
      && tokens[i].value.amount == 1
      && tokens[i].value.symbol.code in currencies
      && currencies[tokens[i].value.symbol.code].supply.symbol == tokens[i].value.symbol
  }

  /** Rows sit under their own primary keys. */
  ghost predicate Keyed(currencies: Currencies, accounts: Accounts)
  {
    && (forall c | c in currencies :: StatsKey(currencies[c]) == c)
    && (forall k | k in accounts :: AccountKey(accounts[k]) == k.1)
  }

  /** Every supply is the number of tokens of its currency. */
  ghost predicate Supplies(currencies: Currencies, tokens: seq<Token>)
  {
    forall c | c in currencies :: currencies[c].supply.amount == Count(tokens, Issued(c))
  }

  /** Every balance, 0 where there is no row, is the number of tokens its owner holds of its code. */
  ghost predicate Balances(accounts: Accounts, tokens: seq<Token>)
  {
    forall o: Name, c: SymbolCode :: BalanceOf(accounts, o, c) == Count(tokens, Held(o, c))
  }

  ghost predicate Consistent(currencies: Currencies, accounts: Accounts, tokens: seq<Token>)
  {
    && DenseIds(tokens)
    && |tokens| <= NO_AVAILABLE_PRIMARY_KEY
    && DistinctCoords(tokens)
    && TokenValues(currencies, tokens)
    && Keyed(currencies, accounts)
    && Supplies(currencies, tokens)
    && Balances(accounts, tokens)
  }

  /** The empty tables are consistent. */
  lemma EmptyConsistent()
    ensures Consistent(map[], map[], [])
  {
  }

  /** The supply of a currency, as a sum of balances over a list of owners. */
  function SumBalances(accounts: Accounts, owners: seq<Name>, c: SymbolCode): int
  {
    if owners == [] then 0
    else SumBalances(accounts, owners[..|owners| - 1], c) + BalanceOf(accounts, owners[|owners| - 1], c)
  }

  function SumHeld(tokens: seq<Token>, owners: seq<Name>, c: SymbolCode): nat
  {
    if owners == [] then 0
    else SumHeld(tokens, owners[..|owners| - 1], c) + Count(tokens, Held(owners[|owners| - 1], c))
  }

  /**
   * Supply equals the sum of balances: over any list of distinct owners that
   * includes every holder of the currency, the balances add up to the supply.
   */
  lemma {:induction false} SupplyIsSumOfBalances(currencies: Currencies, accounts: Accounts, tokens: seq<Token>, c: SymbolCode, owners: seq<Name>)
    requires Consistent(currencies, accounts, tokens) && c in currencies
    requires forall a, b | 0 <= a < b < |owners| :: owners[a] != owners[b]
    requires forall i | 0 <= i < |tokens| && tokens[i].value.symbol.code == c :: tokens[i].owner in owners
    ensures currencies[c].supply.amount == SumBalances(accounts, owners, c)
  {
    SumBalancesHeld(accounts, tokens, owners, c);
    SumHeldCount(tokens, owners, c);
  }

  lemma {:induction false} SumBalancesHeld(accounts: Accounts, tokens: seq<Token>, owners: seq<Name>, c: SymbolCode)
    requires Balances(accounts, tokens)
    ensures SumBalances(accounts, owners, c) == SumHeld(tokens, owners, c)
    decreases |owners|
  {
    if owners != [] {
      SumBalancesHeld(accounts, tokens, owners[..|owners| - 1], c);
      assert BalanceOf(accounts, owners[|owners| - 1], c) == Count(tokens, Held(owners[|owners| - 1], c));
    }
  }

  /** Over distinct owners covering every holder, the holdings add up to the tokens of the code. */
  lemma {:induction false} SumHeldCount(tokens: seq<Token>, owners: seq<Name>, c: SymbolCode)
    requires forall a, b | 0 <= a < b < |owners| :: owners[a] != owners[b]
    requires forall i | 0 <= i < |tokens| && tokens[i].value.symbol.code == c :: tokens[i].owner in owners
    ensures SumHeld(tokens, owners, c) == Count(tokens, Issued(c))
    decreases |tokens|
  {
    if tokens != [] {
      var init := tokens[..|tokens| - 1];
      var t := tokens[|tokens| - 1];
      assert forall i | 0 <= i < |init| :: init[i] == tokens[i];
      SumHeldCount(init, owners, c);
      SumHeldSnoc(init, t, owners, c);
      assert init + [t] == tokens;
      assert Count(tokens, Issued(c)) == Count(init, Issued(c)) + (if t.value.symbol.code == c then 1 else 0);
      assert t.value.symbol.code == c ==> t.owner in owners;
      assert SumHeld(tokens, owners, c) == SumHeld(init, owners, c) + (if t.value.symbol.code == c && t.owner in owners then 1 else 0);
      assert SumHeld(init, owners, c) == Count(init, Issued(c));
    } else {
      SumHeldNothing(owners, c);
    }
  }

  lemma {:induction false} SumHeldNothing(owners: seq<Name>, c: SymbolCode)
    ensures SumHeld([], owners, c) == 0
    decreases |owners|
  {
    if owners != [] {
      SumHeldNothing(owners[..|owners| - 1], c);
    }
  }

  lemma {:induction false} SumHeldSnoc(s: seq<Token>, t: Token, owners: seq<Name>, c: SymbolCode)
    requires forall a, b | 0 <= a < b < |owners| :: owners[a] != owners[b]
    ensures SumHeld(s + [t], owners, c) == SumHeld(s, owners, c) + (if t.value.symbol.code == c && t.owner in owners then 1 else 0)
    decreases |owners|
  {
    if owners != [] {
      var init := owners[..|owners| - 1];
      var o := owners[|owners| - 1];
      assert forall a, b | 0 <= a < b < |init| :: init[a] == owners[a] && init[b] == owners[b];
      SumHeldSnoc(s, t, init, c);
      assert (s + [t])[..|s|] == s;
      assert Count(s + [t], Held(o, c)) == Count(s, Held(o, c)) + (if Counts(t, Held(o, c)) then 1 else 0);
      assert t.owner in owners <==> t.owner in init || t.owner == o;
      assert o !in init by {
        assert forall a | 0 <= a < |init| :: init[a] == owners[a] != o;
      }
    }
  }
}
