/**
 * The row types of the `ertc.nft` contract and the key-packing helpers of
 * its `token` row: `to_coords_id`, `get_global_id` and `get_unique_name`,
 * together with the primary keys that the contract's tables are indexed by.
 *
 * An EOSIO `name` and a `symbol_code` are 64-bit values; the model keeps
 * them as those values.  A 128-bit key built by shifting one 64-bit field
 * left by 64 and OR-ing in another is the number `high * 2^64 + low`,
 * because the two halves occupy disjoint bits.
 */
module NftKeys {

  const TWO_64: nat := 0x1_0000_0000_0000_0000

  type Uint64 = x: nat | x < TWO_64
  type Uint128 = x: nat | x < TWO_64 * TWO_64

  /** `eosio::name`, as its 64-bit value. */
  type Name = Uint64

  /** The raw 64-bit value of an `eosio::symbol_code`. */
  type SymbolCode = Uint64

  /** `eosio::symbol`: a code and a decimal precision. */
  datatype Symbol = Symbol(code: SymbolCode, precision: nat)

  /** `eosio::asset`: an amount of a symbol. */
  datatype Asset = Asset(amount: int, symbol: Symbol)

  /** `struct point` of the NFT contract: two unsigned 64-bit coordinates. */
  datatype Point = Point(latitude: Uint64, longitude: Uint64)

  /** The `token` row: one non-fungible token. */
  datatype Token = Token(id: Uint64, coords: Point, owner: Name, value: Asset, tokenName: string)

  /** The `account` row: one balance of one owner. */
  datatype Account = Account(balance: Asset)

  /** The `stats` row: one currency. */
  datatype Stats = Stats(supply: Asset, issuer: Name)

  // ---------------------------------------------------------------------------
  // Primary keys
  // ---------------------------------------------------------------------------

  /** `token::primary_key`: tokens are keyed by their id. */
  function TokenKey(t: Token): (k: Uint64)
    ensures k == t.id
  {
    t.id
  }

  /** `account::primary_key`: a balance row is keyed by the code of its symbol. */
  function AccountKey(a: Account): (k: SymbolCode)
    ensures k == a.balance.symbol.code
  {
    a.balance.symbol.code
  }

  /** `stats::primary_key`: a currency row is keyed by the code of its supply's symbol. */
  function StatsKey(s: Stats): (k: SymbolCode)
    ensures k == s.supply.symbol.code
  {
    s.supply.symbol.code
  }

  /** `token::get_symbol`: the key of the `bysymbol` index. */
  function TokenSymbolKey(t: Token): (k: SymbolCode)
    ensures k == t.value.symbol.code
  {
    t.value.symbol.code
  }

  // ---------------------------------------------------------------------------
  // 128-bit packing
  // ---------------------------------------------------------------------------

  /** `(high << 64) | low` on 128-bit values. */
  function Pack(high: Uint64, low: Uint64): (r: Uint128)
    ensures r / TWO_64 == high && r % TWO_64 == low
  {
    high * TWO_64 + low
  }

  /** The two halves of a packed key determine it. */
  lemma PackInjective(h1: Uint64, l1: Uint64, h2: Uint64, l2: Uint64)
    ensures Pack(h1, l1) == Pack(h2, l2) <==> h1 == h2 && l1 == l2
  {
  }

  /** `token::to_coords_id`: latitude in the high half, longitude in the low half. */
  function ToCoordsId(coords: Point): (r: Uint128)
    ensures r / TWO_64 == coords.latitude && r % TWO_64 == coords.longitude
  {
    Pack(coords.latitude, coords.longitude)
  }

  /** The point a coords id was built from. */
  function CoordsOfId(key: Uint128): (p: Point)
    ensures ToCoordsId(p) == key
  {
    Point(key / TWO_64, key % TWO_64)
  }

  /** Unpacking a coords id gives back the point. */
  lemma CoordsIdRoundTrip(p: Point)
    ensures CoordsOfId(ToCoordsId(p)) == p
  {
  }

  /** Two points have the same coords id exactly when they are the same point. */
  lemma CoordsIdInjective(p: Point, q: Point)
    ensures ToCoordsId(p) == ToCoordsId(q) <==> p == q
  {
    CoordsIdRoundTrip(p);
    CoordsIdRoundTrip(q);
  }

  /** `token::get_global_id`: the contract account in the high half, the token id in the low half. */
  function GetGlobalId(t: Token, self: Name): (r: Uint128)
    ensures r / TWO_64 == self && r % TWO_64 == t.id
  {
    Pack(self, t.id)
  }

  /** Global ids differ whenever the contract account or the token id does. */
  lemma GlobalIdInjective(t: Token, self: Name, u: Token, other: Name)
    ensures GetGlobalId(t, self) == GetGlobalId(u, other) <==> self == other && t.id == u.id
  {
    PackInjective(self, t.id, other, u.id);
  }

  // ---------------------------------------------------------------------------
  // Unique names
  // ---------------------------------------------------------------------------

  predicate IsDigit(c: char)
  {
    '0' <= c <= '9'
  }

  predicate AllDigits(s: string)
  {
    forall i | 0 <= i < |s| :: IsDigit(s[i])
  }

  /** The form `std::to_string` gives an unsigned number: digits, no leading zero. */
  predicate IsDecimal(s: string)
  {
    |s| > 0 && AllDigits(s) && (|s| > 1 ==> s[0] != '0')
  }

  function DigitChar(d: nat): (c: char)
    requires d < 10
    ensures IsDigit(c) && c as int - '0' as int == d
  {
    ('0' as int + d) as char
  }

  /** `std::to_string` of an unsigned integer. */
  function DecimalString(n: nat): (s: string)
    ensures IsDecimal(s)
    ensures n < 10 <==> |s| == 1
    decreases n
  {
    if n < 10 then [DigitChar(n)] else DecimalString(n / 10) + [DigitChar(n % 10)]
  }

  /** The number a string of decimal digits denotes: the reference for `DecimalString`. */
  function DecimalValue(s: string): nat
    requires AllDigits(s)
  {
    if s == [] then 0 else DecimalValue(s[..|s| - 1]) * 10 + (s[|s| - 1] as int - '0' as int)
  }

  /** Reading back the digits `DecimalString` writes gives the number. */
  lemma {:induction false} DecimalValueOfString(n: nat)
    ensures DecimalValue(DecimalString(n)) == n
    decreases n
  {
    if n >= 10 {
      var s := DecimalString(n);
      DecimalValueOfString(n / 10);
      assert s[..|s| - 1] == DecimalString(n / 10);
    }
  }

  /** A string in decimal form is the one `DecimalString` writes for its value. */
  lemma {:induction false} DecimalStringOfValue(s: string)
    requires IsDecimal(s)
    ensures DecimalString(DecimalValue(s)) == s
    decreases |s|
  {
    var init := s[..|s| - 1];
    var d := s[|s| - 1] as int - '0' as int;
    if |s| == 1 {
      assert DecimalValue(s) == d;
    } else {
      assert init[0] == s[0];
      assert DecimalValue(init) > 0 by {
        LeadingDigitPositive(init);
      }
      DecimalStringOfValue(init);
      var n := DecimalValue(s);
      assert n == DecimalValue(init) * 10 + d;
      assert n / 10 == DecimalValue(init) && n % 10 == d;
      assert DigitChar(d) == s[|s| - 1];
      assert s == init + [s[|s| - 1]];
    }
  }

  lemma {:induction false} LeadingDigitPositive(s: string)
    requires |s| > 0 && AllDigits(s) && s[0] != '0'
    ensures DecimalValue(s) > 0
    decreases |s|
  {
    if |s| > 1 {
      var init := s[..|s| - 1];
      assert init[0] == s[0];
      LeadingDigitPositive(init);
    }
  }

  /** Different numbers are written differently. */
  lemma DecimalStringInjective(m: nat, n: nat)
    ensures DecimalString(m) == DecimalString(n) <==> m == n
  {
    DecimalValueOfString(m);
    DecimalValueOfString(n);
  }

  /** `token::get_unique_name`: the token name, a `#`, and the decimal id. */
  function GetUniqueName(t: Token): (r: string)
    ensures |r| > |t.tokenName| && r[|t.tokenName|] == '#'
    ensures r[..|t.tokenName|] == t.tokenName && r[|t.tokenName| + 1..] == DecimalString(t.id)
  {
    t.tokenName + "#" + DecimalString(t.id)
  }

  /** The position of the last `c` in `s`, if any. */
  function LastIndexOf(s: string, c: char): (r: int)
    ensures -1 <= r < |s|
    ensures 0 <= r ==> s[r] == c
    ensures forall i | r < i < |s| :: s[i] != c
  {
    if s == [] then -1
    else if s[|s| - 1] == c then |s| - 1
    else LastIndexOf(s[..|s| - 1], c)
  }

  /** Splits a unique name at its last `#` into the token name and the id. */
  function ParseUniqueName(u: string): (r: Option<(string, nat)>)
  {
    var p := LastIndexOf(u, '#');
    if p < 0 || !IsDecimal(u[p + 1..]) then None
    else Some((u[..p], DecimalValue(u[p + 1..])))
  }

  datatype Option<T> = None | Some(value: T)

  /**
   * The unique name gives back both the token name and the id, even when the
   * token name itself contains `#`, because the digits after the separator
   * never do.
   */
  lemma UniqueNameRoundTrip(t: Token)
    ensures ParseUniqueName(GetUniqueName(t)) == Some((t.tokenName, t.id as nat))
  {
    var u := GetUniqueName(t);
    var k := |t.tokenName|;
    var digits := DecimalString(t.id);
    assert forall i | k < i < |u| :: u[i] == digits[i - k - 1] && u[i] != '#';
    assert LastIndexOf(u, '#') == k;
    DecimalValueOfString(t.id);
  }

  /** Two tokens have the same unique name exactly when their names and ids agree. */
  lemma UniqueNameInjective(t: Token, u: Token)
    ensures GetUniqueName(t) == GetUniqueName(u) <==> t.tokenName == u.tokenName && t.id == u.id
  {
    if GetUniqueName(t) == GetUniqueName(u) {
      UniqueNameRoundTrip(t);
      UniqueNameRoundTrip(u);
    }
  }
}
