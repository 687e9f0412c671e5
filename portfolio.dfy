/** The portfolio page: every positive position priced by the quote service,
    its market value, and the cash plus the sum of those values. */
module Portfolio {
  import opened Wrappers
  import opened Text
  import opened Ledger
  import opened Forms

  /** One line of the page: symbol, shares, quoted price and price * shares. */
  datatype Position = Position(symbol: string, shares: int, price: nat, total: int)

  /** The page: its lines, the cash balance and cash plus all line totals. */
  datatype Page = Page(positions: seq<Position>, cash: int, total: int)

  /** The line for holding `x` at quoted price `price`. */
  function Priced(x: Holding, price: nat): Position
  {
    Position(Upper(x.symbol), x.shares, price, price * x.shares)
  }

  /** Prices the holdings in order. It fails, naming the symbol, at the first
      holding the quote service cannot price; otherwise line k is holding k at
      its quoted price. */
  function Valued(hs: seq<Holding>, lookup: string -> Option<nat>): (r: Result<seq<Position>, Apology>)
    ensures r.Ok? <==> forall k :: 0 <= k < |hs| ==> lookup(hs[k].symbol).Some?
    ensures r.Ok? ==> |r.value| == |hs| && forall k :: 0 <= k < |hs| ==> r.value[k] == Priced(hs[k], lookup(hs[k].symbol).value)
    ensures r.Err? ==> exists k :: 0 <= k < |hs| && r.error == QuoteFailed(hs[k].symbol) && lookup(hs[k].symbol).None?
    decreases |hs|
  {
    if hs == [] then Ok([])
    else
      var init, last := hs[..|hs| - 1], hs[|hs| - 1];
      assert forall k :: 0 <= k < |init| ==> init[k] == hs[k];
      match Valued(init, lookup)
      case Err(e) => Err(e)
      case Ok(ps) =>
        match lookup(last.symbol)
        case None => Err(QuoteFailed(last.symbol))
        case Some(price) => Ok(ps + [Priced(last, price)])
  }

  /** Pricing one more holding extends the priced prefix by its line. */
  lemma ValuedStep(hs: seq<Holding>, i: nat, lookup: string -> Option<nat>, ps: seq<Position>)
    requires i < |hs| && Valued(hs[..i], lookup) == Ok(ps) && lookup(hs[i].symbol).Some?
    ensures Valued(hs[..i + 1], lookup) == Ok(ps + [Priced(hs[i], lookup(hs[i].symbol).value)])
    ensures AssetTotal(ps + [Priced(hs[i], lookup(hs[i].symbol).value)]) == AssetTotal(ps) + Priced(hs[i], lookup(hs[i].symbol).value).total
  {
    assert hs[..i + 1][..i] == hs[..i];
    var line := Priced(hs[i], lookup(hs[i].symbol).value);
    assert (ps + [line])[..|ps|] == ps;
  }

  /** A holding the quote service cannot price ends the pricing with an
      error naming its symbol. */
  lemma ValuedHalts(hs: seq<Holding>, i: nat, lookup: string -> Option<nat>, ps: seq<Position>)
    requires i < |hs| && Valued(hs[..i], lookup) == Ok(ps) && lookup(hs[i].symbol).None?
    ensures Valued(hs, lookup) == Err(QuoteFailed(hs[i].symbol))
  {
    assert hs[..i + 1][..i] == hs[..i];
    assert Valued(hs[..i + 1], lookup) == Err(QuoteFailed(hs[i].symbol));
    ValuedStops(hs, i + 1, lookup);
  }

  /** The sum of the line totals (`asset_total`). */
  function AssetTotal(ps: seq<Position>): int
  {
    if ps == [] then 0 else AssetTotal(ps[..|ps| - 1]) + ps[|ps| - 1].total
  }

  /** Lines of non-negative value add up to a non-negative total. */
  lemma {:induction false} AssetTotalNonNegative(ps: seq<Position>)
    requires forall k :: 0 <= k < |ps| ==> ps[k].total >= 0
    ensures AssetTotal(ps) >= 0
  {
    if ps != [] {
      AssetTotalNonNegative(ps[..|ps| - 1]);
    }
  }

  /** Once a prefix of the holdings fails to price, pricing all of them fails
      the same way: the page reports the first unpriced symbol. */
  lemma {:induction false} ValuedStops(hs: seq<Holding>, n: nat, lookup: string -> Option<nat>)
    requires n <= |hs| && Valued(hs[..n], lookup).Err?
    ensures Valued(hs, lookup) == Valued(hs[..n], lookup)
    decreases |hs| - n
  {
    if n < |hs| {
      var init := hs[..|hs| - 1];
      assert init[..n] == hs[..n];
      ValuedStops(init, n, lookup);
    } else {
      assert hs[..n] == hs;
    }
  }

  /** The loop of the portfolio handler: prices the grouped rows one by one,
      appending each line and adding its value to the running asset total,
      and stops at the first row the quote service cannot price. */
  method PriceHoldings(rows: seq<Holding>, lookup: string -> Option<nat>) returns (r: Result<seq<Position>, Apology>, assetTotal: int)
    ensures r == Valued(rows, lookup)
    ensures r.Ok? ==> assetTotal == AssetTotal(r.value)
  {
    var portfolio: seq<Position> := [];
    assetTotal := 0;
    var i := 0;
    while i < |rows|
      invariant 0 <= i <= |rows|
      invariant Valued(rows[..i], lookup) == Ok(portfolio)
      invariant assetTotal == AssetTotal(portfolio)
    {
      var row := rows[i];
      var price := lookup(row.symbol);
      if price.None? {
        ValuedHalts(rows, i, lookup, portfolio);
        return Err(QuoteFailed(row.symbol)), assetTotal;
      }
      var total := price.value * row.shares;
      var line := Position(Upper(row.symbol), row.shares, price.value, total);
      ValuedStep(rows, i, lookup, portfolio);
      portfolio := portfolio + [line];
      assetTotal := assetTotal + total;
      i := i + 1;
    }
    assert rows[..i] == rows;
    r := Ok(portfolio);
  }

  /** The page for the listed holdings with balance `cash`: refused when a
      holding cannot be priced, otherwise its lines and cash plus their total. */
  function PageOf(hs: seq<Holding>, cash: int, lookup: string -> Option<nat>): Result<Page, Apology>
  {
    match Valued(hs, lookup)
    case Err(e) => Err(e)
    case Ok(ps) => Ok(Page(ps, cash, cash + AssetTotal(ps)))
  }

  /** The portfolio page of user `name` with balance `cash`. */
  function IndexPage(h: seq<Row>, name: string, cash: int, lookup: string -> Option<nat>): Result<Page, Apology>
  {
    PageOf(Holdings(h, name), cash, lookup)
  }

  /** Every listed holding is in a symbol that occurs in the ledger, so when
      stored symbols are upper-case the page shows the symbol unchanged. */
  lemma HoldingsKeepSymbols(h: seq<Row>, name: string)
    requires forall i :: 0 <= i < |h| ==> IsUpper(h[i].symbol)
    ensures forall x :: x in Holdings(h, name) ==> Upper(x.symbol) == x.symbol
  {
    HeldNeedsTrade(h, name);
    forall x | x in Holdings(h, name)
      ensures Upper(x.symbol) == x.symbol
    {
      var i :| 0 <= i < |h| && Counts(h[i], name, x.symbol);
    }
  }

  /** Line k of a priced list is holding k at its quoted price; holdings of
      positive shares in symbols that upper-casing leaves alone give lines
      under the same symbol, of non-negative value. */
  lemma {:induction false} LinesArePriced(hs: seq<Holding>, lookup: string -> Option<nat>, ps: seq<Position>)
    requires Valued(hs, lookup) == Ok(ps)
    requires forall k :: 0 <= k < |hs| ==> Upper(hs[k].symbol) == hs[k].symbol && hs[k].shares > 0
    ensures |ps| == |hs|
    ensures forall k :: 0 <= k < |ps| ==> ps[k].symbol == hs[k].symbol && ps[k].shares == hs[k].shares
    ensures forall k :: 0 <= k < |ps| ==> lookup(ps[k].symbol) == Some(ps[k].price)
    ensures forall k :: 0 <= k < |ps| ==> ps[k].total == ps[k].price * ps[k].shares >= 0
  {
  }

  /** Lines that copy, in order, the symbols and share counts of a listing of
      exactly the positive positions show a line exactly for each positive
      position, with that position. */
  lemma {:induction false} LinesFollowPositions(h: seq<Row>, name: string, hs: seq<Holding>, ps: seq<Position>)
    requires forall x :: x in hs <==> Held(h, name, x.symbol) > 0 && x.shares == Held(h, name, x.symbol)
    requires |ps| == |hs|
    requires forall k :: 0 <= k < |ps| ==> ps[k].symbol == hs[k].symbol && ps[k].shares == hs[k].shares
    ensures forall s :: Held(h, name, s) > 0 <==> exists k :: 0 <= k < |ps| && ps[k].symbol == s
    ensures forall k :: 0 <= k < |ps| ==> ps[k].shares == Held(h, name, ps[k].symbol) > 0
  {
    forall k | 0 <= k < |ps|
      ensures ps[k].shares == Held(h, name, ps[k].symbol) > 0
    {
      assert hs[k] in hs;
    }
    forall s | Held(h, name, s) > 0
      ensures exists k :: 0 <= k < |ps| && ps[k].symbol == s
    {
      assert Holding(s, Held(h, name, s)) in hs;
      var k :| 0 <= k < |hs| && hs[k] == Holding(s, Held(h, name, s));
      assert ps[k].symbol == s;
    }
  }

  /** The grouped query lists positive positions, in symbols that are
      already upper-case when every stored symbol is. */
  lemma HoldingsArePositive(h: seq<Row>, name: string)
    requires forall i :: 0 <= i < |h| ==> IsUpper(h[i].symbol)
    ensures forall k :: 0 <= k < |Holdings(h, name)| ==>
      Upper(Holdings(h, name)[k].symbol) == Holdings(h, name)[k].symbol && Holdings(h, name)[k].shares > 0
  {
    var hs := Holdings(h, name);
    HoldingsKeepSymbols(h, name);
    forall k | 0 <= k < |hs|
      ensures hs[k].shares > 0
    {
      assert hs[k] in hs;
    }
  }

  /** The page built from the priced rows: cash plus the running asset
      total. */
  method PricePage(rows: seq<Holding>, cash: int, lookup: string -> Option<nat>) returns (r: Result<Page, Apology>)
    ensures r == PageOf(rows, cash, lookup)
  {
    var portfolio, assetTotal := PriceHoldings(rows, lookup);
    if portfolio.Err? {
      return Err(portfolio.error);
    }
    return Ok(Page(portfolio.value, cash, cash + assetTotal));
  }

  /** The portfolio handler after the login gate: the grouped query, then its
      rows priced one by one into the page. */
  method RenderPage(h: seq<Row>, name: string, cash: int, lookup: string -> Option<nat>) returns (r: Result<Page, Apology>)
    ensures r == IndexPage(h, name, cash, lookup)
  {
    var rows := Holdings(h, name);
    r := PricePage(rows, cash, lookup);
  }

  /** What the portfolio page shows, when every stored symbol is upper-case:
      a line exactly for each symbol in which the user's summed position is
      positive, no symbol twice, each line with that position, the quoted
      price and their product, and a total equal to the cash plus the line
      totals, so never below the cash. */
  lemma PortfolioShowsPositions(h: seq<Row>, name: string, cash: int, lookup: string -> Option<nat>, p: Page)
    requires forall i :: 0 <= i < |h| ==> IsUpper(h[i].symbol)
    requires IndexPage(h, name, cash, lookup) == Ok(p)
    ensures forall s :: Held(h, name, s) > 0 <==> exists k :: 0 <= k < |p.positions| && p.positions[k].symbol == s
    ensures forall k :: 0 <= k < |p.positions| ==> p.positions[k].shares == Held(h, name, p.positions[k].symbol) > 0
    ensures forall k :: 0 <= k < |p.positions| ==> lookup(p.positions[k].symbol) == Some(p.positions[k].price)
    ensures forall k :: 0 <= k < |p.positions| ==> p.positions[k].total == p.positions[k].price * p.positions[k].shares
    ensures forall k, l :: 0 <= k < l < |p.positions| ==> p.positions[k].symbol != p.positions[l].symbol
    ensures p.cash == cash && p.total == cash + AssetTotal(p.positions) >= cash
  {
    var hs := Holdings(h, name);
    var ps := p.positions;
    assert Valued(hs, lookup) == Ok(ps);
    HoldingsArePositive(h, name);
    LinesArePriced(hs, lookup, ps);
    LinesFollowPositions(h, name, hs, ps);
    AssetTotalNonNegative(ps);
  }
}
