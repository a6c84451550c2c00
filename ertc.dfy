/**
 * The `ertc` contract: the validation workflow in front of the NFT ledger.
 *
 * A creator files a validation (a polygon of coordinates and an emission
 * amount); the contract account approves it and then issues it, which sends
 * one or two `issue` actions to the NFT contract splitting the points between
 * the fund and the creator by the fund share held in the `params` singleton.
 * The state of a validation is a `uint8` whose named values are `waiting`,
 * `validated`, `issued` and `canceled`.
 */
module Ertc {
  import opened NftKeys
  import opened NftTables

  const TWO_63: nat := 0x8000_0000_0000_0000

  type Int64 = x: int | -0x8000_0000_0000_0000 <= x < 0x8000_0000_0000_0000
  type Uint8 = x: nat | x < 256

  /** `struct point` of this contract: two signed 64-bit coordinates. */
  datatype EPoint = EPoint(latitude: Int64, longitude: Int64)

  /** The `validation` row; `timestamp` is the block time in seconds, an input here. */
  datatype Validation = Validation(
    id: Uint64,
    coordinates: seq<EPoint>,
    amount: Int64,
    creator: Name,
    timestamp: nat,
    state: Uint8)

  /** `validation::state_t`. */
  const WAITING: Uint8 := 0
  const VALIDATED: Uint8 := 1
  const ISSUED: Uint8 := 2
  const CANCELED: Uint8 := 3

  /** `eosio::extended_symbol`: a symbol and the token contract that issues it. */
  datatype ExtendedSymbol = ExtendedSymbol(symbol: Symbol, contract: Name)

  /** The `params` singleton. */
  datatype Params = Params(fundShare: Uint8, fundSymbol: ExtendedSymbol, fundAccount: Name)

  /** One inline `issue` action sent to the token contract. */
  datatype IssueCall = IssueCall(
    contract: Name,
    to: Name,
    quantity: Asset,
    coords: seq<EPoint>,
    tokenName: Uint64,
    memo: string)

  const EXISTS := "validation with such id already exists"
  const WRONG_COORDS := "coordinates are wrong"
  const ZERO_AMOUNT := "zero emission amount"
  const NOT_EXIST := "validation does not exist"
  const PK_CHANGED := "updater cannot change primary key when modifying an object"
  const WRONG_STATE := "wrong validation state"
  const AMOUNT_MISMATCH := "emission amount does not equal points quantity"

  // ---------------------------------------------------------------------------
  // Parameters
  // ---------------------------------------------------------------------------

  /** The 64-bit values of the names `ertc.nft` and `ertc.fund` and of the symbol code `ERTC`. */
  const ERTC_NFT: Name := 0x55f2_804d_7900_0000
  const ERTC_FUND: Name := 0x55f2_802f_5348_0000
  const ERTC: SymbolCode := 0x4354_5245

  /** `DEFAULT_PARAMS`: 40 per cent to `ertc.fund`, in `ERTC` of the `ertc.nft` contract. */
  function DefaultParams(): (p: Params)
    ensures p.fundShare == 40
  {
    Params(40, ExtendedSymbol(Symbol(ERTC, 0), ERTC_NFT), ERTC_FUND)
  }

  /** What `get_or_create` reads: the stored parameters, or the defaults when none are stored. */
  function ParamsOrDefault(p: Option<Params>): (r: Params)
    ensures p.Some? ==> r == p.value
    ensures p.None? ==> r == DefaultParams()
  {
    if p.Some? then p.value else DefaultParams()
  }

  // ---------------------------------------------------------------------------
  // The fund split
  // ---------------------------------------------------------------------------

  /** `amount * fund_share / 100` for non-negative operands, where truncation and flooring agree. */
  function FundCut(amount: nat, share: nat): (r: nat)
    ensures r * 100 <= amount * share < r * 100 + 100
    ensures share <= 100 ==> r <= amount
  {
    amount * share / 100
  }

  /**
   * The split of `amount` points is defined when the 64-bit product
   * `amount * fund_share` does not overflow and `points.begin() + fund_cut`
   * stays within the points.
   */
  predicate SplitDefined(amount: nat, share: nat)
  {
    amount * share < TWO_63 && FundCut(amount, share) <= amount
  }

  /** The fund gets the leading `FundCut` points, the creator the rest. */
  function IssueCalls(p: Params, v: Validation, points: seq<EPoint>): (r: seq<IssueCall>)
    requires FundCut(|points|, p.fundShare) <= |points|
    ensures 1 <= |r| <= 2
    ensures |r| == 2 <==> FundCut(|points|, p.fundShare) > 0
    ensures |r| == 2 ==> r[0].to == p.fundAccount && r[0].quantity.amount == FundCut(|points|, p.fundShare)
    ensures r[|r| - 1].to == v.creator
    ensures r[|r| - 1].quantity.amount == |points| - FundCut(|points|, p.fundShare)
    ensures (if |r| == 2 then r[0].coords else []) + r[|r| - 1].coords == points
    ensures forall k | 0 <= k < |r| ::
      && r[k].quantity.amount == |r[k].coords|
      && r[k].quantity.symbol == p.fundSymbol.symbol
      && r[k].contract == p.fundSymbol.contract
      && r[k].tokenName == v.id
      && r[k].memo == ""
  {
    var cut := FundCut(|points|, p.fundShare);
    var sym := p.fundSymbol;
    var creatorCall := IssueCall(sym.contract, v.creator, Asset(|points| - cut, sym.symbol), points[cut..], v.id, "");
    assert points[..cut] + points[cut..] == points;
    if cut > 0 then
      [IssueCall(sym.contract, p.fundAccount, Asset(cut, sym.symbol), points[..cut], v.id, ""), creatorCall]
    else
      [creatorCall]
  }

  /** The default share splits 10 points 4 to the fund and 6 to the creator. */
  lemma DefaultSplitExample(v: Validation, points: seq<EPoint>)
    requires |points| == 10
    ensures |IssueCalls(DefaultParams(), v, points)| == 2
    ensures IssueCalls(DefaultParams(), v, points)[0].coords == points[..4]
    ensures IssueCalls(DefaultParams(), v, points)[1].coords == points[4..]
  {
    var r := IssueCalls(DefaultParams(), v, points);
    assert FundCut(10, 40) == 4;
    assert r[0].coords + r[1].coords == points;
  }

  /**
   * Above 100 per cent the fund's cut reaches the amount, and passes it once
   * the excess share is worth at least one point, so the split would run
   * past the points; below that it takes them all and leaves the creator none.
   */
  lemma ShareAboveHundredOverruns(amount: nat, share: nat)
    requires 100 < share && 0 < amount
    ensures FundCut(amount, share) >= amount
    ensures FundCut(amount, share) > amount <==> amount * (share - 100) >= 100
  {
    var r := FundCut(amount, share);
    var extra := amount * (share - 100);
    assert amount * share == amount * 100 + extra;
    assert extra >= amount;
  }

  // ---------------------------------------------------------------------------
  // Lifecycle
  // ---------------------------------------------------------------------------

  /** A state change an action other than `change` may make: none, or forward up to `issued`. */
  predicate Allowed(s: Uint8, t: Uint8)
  {
    s == t || s < t <= ISSUED
  }

  /** Every row is kept, its state only moves as `Allowed` permits, and every new row is `waiting`. */
  ghost predicate Advances(before: map<Uint64, Validation>, after: map<Uint64, Validation>)
  {
    && (forall id | id in before :: id in after && Allowed(before[id].state, after[id].state))
    && (forall id | id in after && id !in before :: after[id].state == WAITING)
  }

  /**
   * Over any run of such actions every row is kept and only moves forward,
   * every row added along the way ends at most `issued`, and no row becomes
   * `canceled`.
   */
  lemma {:induction false} AdvancesAlongTrace(trace: seq<map<Uint64, Validation>>)
    requires |trace| > 0
    requires forall i | 0 <= i < |trace| - 1 :: Advances(trace[i], trace[i + 1])
    ensures forall id | id in trace[0] :: id in trace[|trace| - 1] && Allowed(trace[0][id].state, trace[|trace| - 1][id].state)
    ensures forall id | id in trace[|trace| - 1] && id !in trace[0] :: trace[|trace| - 1][id].state <= ISSUED
    ensures forall id | id in trace[|trace| - 1] && (id in trace[0] ==> trace[0][id].state != CANCELED) ::
      trace[|trace| - 1][id].state != CANCELED
    decreases |trace|
  {
    if |trace| > 1 {
      var init := trace[..|trace| - 1];
      assert forall i | 0 <= i < |init| :: init[i] == trace[i];
      AdvancesAlongTrace(init);
      assert Advances(trace[|trace| - 2], trace[|trace| - 1]);
    }
  }

  /** From a freshly deployed contract, no run of such actions ever cancels a validation. */
  lemma NeverCanceledFromDeployment(trace: seq<map<Uint64, Validation>>)
    requires |trace| > 0 && trace[0] == map[]
    requires forall i | 0 <= i < |trace| - 1 :: Advances(trace[i], trace[i + 1])
    ensures var last := trace[|trace| - 1]; forall id | id in last :: last[id].state <= ISSUED
  {
    AdvancesAlongTrace(trace);
    var last := trace[|trace| - 1];
    forall id | id in last
      ensures last[id].state <= ISSUED
    {
      assert id !in trace[0];
    }
  }

  /** The table is keyed by the id field of its rows. */
  ghost predicate KeysMatch(validations: map<Uint64, Validation>)
  {
    forall id | id in validations :: validations[id].id == id
  }

  class Ertc {
    /** The `validation` table. */
    var validations: map<Uint64, Validation>
    /** The `params` singleton: absent until first written. */
    var parameters: Option<Params>

    ghost predicate Valid()
      reads this
    {
      KeysMatch(validations)
    }

    constructor()
      ensures Valid()
      ensures validations == map[] && parameters == None
    {
      validations := map[];
      parameters := None;
    }

    /** `create`: files a new validation in state `waiting`, stamped with `now`. */
    method Create(creator: Name, id: Uint64, coords: seq<EPoint>, amount: Int64, now: nat) returns (out: Outcome)
      requires Valid()
      modifies this
      ensures Valid()
      ensures out == (
        if id in old(validations) then Failed(EXISTS)
        else if |coords| < 3 then Failed(WRONG_COORDS)
        else if amount <= 0 then Failed(ZERO_AMOUNT)
        else Ok)
      ensures out.Ok? ==> validations == old(validations)[id := Validation(id, coords, amount, creator, now, WAITING)]
      ensures out.Failed? ==> validations == old(validations)
      ensures Advances(old(validations), validations)
      ensures parameters == old(parameters)
    {
      if id in validations {
        return Failed(EXISTS);
      }
      if !ValidateCoordinates(coords) {
        return Failed(WRONG_COORDS);
      }
      if amount <= 0 {
        return Failed(ZERO_AMOUNT);
      }
      validations := validations[id := Validation(id, coords, amount, creator, now, WAITING)];
      return Ok;
    }

    /**
     * `change`: replaces a stored row by the given one, state included.  The id
     * comparison in the source compares the stored row with its own key and
     * always holds; the table's `modify` refuses an `object` with another id.
     */
    method Change(id: Uint64, row: Validation) returns (out: Outcome)
      requires Valid()
      modifies this
      ensures Valid()
      ensures out == (
        if id !in old(validations) then Failed(NOT_EXIST)
        else if row.id != id then Failed(PK_CHANGED)
        else Ok)
      ensures out.Ok? ==> validations == old(validations)[id := row]
      ensures out.Failed? ==> validations == old(validations)
      ensures parameters == old(parameters)
    {
      if id !in validations {
        return Failed(NOT_EXIST);
      }
      var it := validations[id];
      assert it.id == id;
      if row.id != id {
        return Failed(PK_CHANGED);
      }
      validations := validations[id := row];
      return Ok;
    }

    /** `approve`: moves a `waiting` validation to `validated`. */
    method Approve(id: Uint64) returns (out: Outcome)
      requires Valid()
      modifies this
      ensures Valid()
      ensures out == (
        if id !in old(validations) then Failed(NOT_EXIST)
        else if old(validations)[id].state != WAITING then Failed(WRONG_STATE)
        else Ok)
      ensures out.Ok? ==> validations == old(validations)[id := old(validations)[id].(state := VALIDATED)]
      ensures out.Failed? ==> validations == old(validations)
      ensures Advances(old(validations), validations)
      ensures parameters == old(parameters)
    {
      if id !in validations {
        return Failed(NOT_EXIST);
      }
      var it := validations[id];
      if it.state != WAITING {
        return Failed(WRONG_STATE);
      }
      validations := validations[id := it.(state := VALIDATED)];
      return Ok;
    }

    /** `get_or_create` on the `params` singleton: stores the defaults when it is empty. */
    method GetOrCreateParams() returns (p: Params)
      modifies this
      ensures p == ParamsOrDefault(old(parameters))
      ensures parameters == Some(p)
      ensures validations == old(validations)
    {
      if parameters.None? {
        parameters := Some(DefaultParams());
      }
      p := parameters.value;
    }

    /**
     * `issue`: for a `validated` row whose amount equals the number of
     * points, sends the fund's and the creator's `issue` actions and marks
     * the row `issued`.  `defined` is false when the split after the checks
     * is undefined (see `SplitDefined`); the model then changes no row and
     * sends nothing.
     */
    method Issue(id: Uint64, points: seq<EPoint>) returns (out: Outcome, defined: bool, calls: seq<IssueCall>)
      requires Valid()
      modifies this
      ensures Valid()
      ensures out == (
        if id !in old(validations) then Failed(NOT_EXIST)
        else if old(validations)[id].state != VALIDATED then Failed(WRONG_STATE)
        else if old(validations)[id].amount != |points| then Failed(AMOUNT_MISMATCH)
        else Ok)
      ensures defined == (out.Failed? || SplitDefined(|points|, ParamsOrDefault(old(parameters)).fundShare))
      ensures out.Ok? ==> parameters == Some(ParamsOrDefault(old(parameters)))
      ensures out.Ok? && defined ==>
        && validations == old(validations)[id := old(validations)[id].(state := ISSUED)]
        && calls == IssueCalls(ParamsOrDefault(old(parameters)), old(validations)[id], points)
      ensures !defined ==> validations == old(validations) && calls == []
      ensures out.Failed? ==> validations == old(validations) && parameters == old(parameters) && calls == []
      ensures Advances(old(validations), validations)
    {
      calls := [];
      defined := true;
      if id !in validations {
        return Failed(NOT_EXIST), defined, calls;
      }
      var it := validations[id];
      if it.state != VALIDATED {
        return Failed(WRONG_STATE), defined, calls;
      }
      if it.amount != |points| {
        return Failed(AMOUNT_MISMATCH), defined, calls;
      }
      var params := GetOrCreateParams();
      if !SplitDefined(|points|, params.fundShare) {
        return Ok, false, calls;
      }
      var fundCut := it.amount * params.fundShare / 100;
      var creatorCut := it.amount - fundCut;
      assert fundCut == FundCut(|points|, params.fundShare);
      var fundCoords := points[..fundCut];
      var creatorCoords := points[fundCut..];
      // "creators cut mismatch" cannot fail once the split is defined.
      assert |creatorCoords| == creatorCut;
      var sym := params.fundSymbol;
      if fundCut > 0 {
        calls := calls + [IssueCall(sym.contract, params.fundAccount, Asset(fundCut, sym.symbol), fundCoords, it.id, "")];
      }
      calls := calls + [IssueCall(sym.contract, it.creator, Asset(creatorCut, sym.symbol), creatorCoords, it.id, "")];
      validations := validations[id := it.(state := ISSUED)];
      return Ok, defined, calls;
    }

    /** `newshare`: stores any `uint8` as the fund share, keeping the other parameters. */
    method NewShare(value: Uint8)
      requires Valid()
      modifies this
      ensures Valid()
      ensures parameters == Some(ParamsOrDefault(old(parameters)).(fundShare := value))
      ensures validations == old(validations)
    {
      var result := GetOrCreateParams();
      parameters := Some(result.(fundShare := value));
    }
  }

  /** `validate_coordinates`: a polygon needs at least three points. */
  function ValidateCoordinates(coords: seq<EPoint>): (ok: bool)
  {
    |coords| >= 3
  }
}
