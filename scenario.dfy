/** A client of the handlers, stated with nothing but their contracts: a new
    account with 10000.00 buys 10 shares of AAA at 50.00, is refused a
    purchase it cannot afford and a sale of more than it holds, then sells 4
    shares at 60.00, ending with 9740.00 in cash and a portfolio of 6 AAA
    shares. Each step starts from the state the previous one ends in. */
module Scenario {
  import opened Wrappers
  import opened Text
  import opened Ledger
  import opened Forms
  import opened Portfolio
  import opened Finance

  /** "alice" is already lower-case, and no account of an empty table has it. */
  lemma AliceIsNew()
    ensures Lower("alice") == "alice"
    ensures CheckRegister(map[], Lower("alice"), "pw", "pw") == Pass
  {
    assert IsLower("alice");
    assert Named(map[], "alice") == {};
  }

  /** Registration of "alice" stores the account with the default cash and
      logs it in. */
  method OpenAccount() returns (app: App, id: nat)
    ensures fresh(app)
    ensures app.Valid() && app.session == Some(id) && id in app.users
    ensures app.users[id] == User("alice", "hash", 1000000) && app.history == []
  {
    app := new App(1000000);
    AliceIsNew();
    var ok := app.Register("alice", "pw", "pw", "hash");
    id := app.session.value;
  }

  /** Buying 10 AAA at 50.00 costs 500.00; buying 1000 more is refused and
      changes nothing. */
  method BuyStep(app: App, id: nat)
    requires app.Valid() && app.session == Some(id) && id in app.users
    requires app.users[id] == User("alice", "hash", 1000000) && app.history == []
    modifies app
    ensures app.Valid() && app.session == Some(id) && id in app.users
    ensures app.users[id] == User("alice", "hash", 950000) && app.history == [Row("alice", "AAA", 10, 5000)]
  {
    assert Upper("AAA") == "AAA";
    var ok := app.Buy("AAA", Whole(10), Some(5000));
    assert ok == Pass;

    assert Order(1000, 5000).Cost() == 5000000;
    assert CheckBuy(950000, "AAA", Whole(1000), Some(5000)) == Err(InsufficientBalance);
    ok := app.Buy("AAA", Whole(1000), Some(5000));
    assert ok == Fail(InsufficientBalance);
  }

  /** The ledger after the purchase: one row, a position of 10. */
  lemma FirstPurchaseLedger()
    ensures Upper("aaa") == "AAA"
    ensures Traded([Row("alice", "AAA", 10, 5000)], "alice", "AAA")
    ensures Held([Row("alice", "AAA", 10, 5000)], "alice", "AAA") == 10
  {
    assert Counts([Row("alice", "AAA", 10, 5000)][0], "alice", "AAA");
  }

  /** Selling 11 is refused with the held count 10; selling 4 at 60.00
      brings in 240.00 and leaves 6. */
  method SellStep(app: App, id: nat)
    requires app.Valid() && app.session == Some(id) && id in app.users
    requires app.users[id] == User("alice", "hash", 950000) && app.history == [Row("alice", "AAA", 10, 5000)]
    modifies app
    ensures app.Valid() && app.session == Some(id) && id in app.users
    ensures app.users[id].username == "alice" && app.users[id].cash == 974000
    ensures Held(app.history, "alice", "AAA") == 6
  {
    FirstPurchaseLedger();
    var bought := app.history;
    assert CheckSell(bought, "alice", "aaa", Whole(11), Some(6000)) == Err(NotEnoughShares(10));
    var ok := app.Sell("aaa", Whole(11), Some(6000));
    assert ok == Fail(NotEnoughShares(10));

    assert CheckSell(bought, "alice", "AAA", Whole(4), Some(6000)) == Ok(Order(4, 6000));
    ok := app.Sell("AAA", Whole(4), Some(6000));
    assert ok == Pass;
  }

  /** The quote service of the scenario: every symbol at 60.00. */
  function QuoteAtSixty(symbol: string): Option<nat>
  {
    Some(6000)
  }

  /** Every holding is priced at 60.00, so the page is never refused. */
  lemma PricedAtSixty(h: seq<Row>, name: string, cash: int)
    ensures IndexPage(h, name, cash, QuoteAtSixty).Ok?
  {
    var hs := Holdings(h, name);
    assert forall k :: 0 <= k < |hs| ==> QuoteAtSixty(hs[k].symbol).Some?;
  }

  /** A symbol held in positive number appears on the page as a line with
      its position, its quoted price and their product. */
  lemma LineOf(h: seq<Row>, name: string, cash: int, lookup: string -> Option<nat>, p: Page, s: string, price: nat)
    requires forall i :: 0 <= i < |h| ==> IsUpper(h[i].symbol)
    requires IndexPage(h, name, cash, lookup) == Ok(p)
    requires Held(h, name, s) > 0 && lookup(s) == Some(price)
    ensures exists k :: 0 <= k < |p.positions| && p.positions[k] == Position(s, Held(h, name, s), price, price * Held(h, name, s))
  {
    PortfolioShowsPositions(h, name, cash, lookup, p);
    var k :| 0 <= k < |p.positions| && p.positions[k].symbol == s;
  }

  /** With every symbol quoted at 60.00, a ledger in which alice holds 6 AAA
      yields a portfolio page with the line AAA, 6 shares, 60.00, 360.00. */
  lemma PageAtSixty(h: seq<Row>, page: Result<Page, Apology>)
    requires forall i :: 0 <= i < |h| ==> IsUpper(h[i].symbol)
    requires Held(h, "alice", "AAA") == 6
    requires page == IndexPage(h, "alice", 974000, QuoteAtSixty)
    ensures page.Ok? && page.value.total >= 974000
    ensures exists k :: 0 <= k < |page.value.positions| && page.value.positions[k] == Position("AAA", 6, 6000, 36000)
  {
    PricedAtSixty(h, "alice", 974000);
    PortfolioShowsPositions(h, "alice", 974000, QuoteAtSixty, page.value);
    LineOf(h, "alice", 974000, QuoteAtSixty, page.value, "AAA", 6000);
  }

  /** The portfolio page after the trades lists AAA with 6 shares. */
  method PortfolioStep(app: App, id: nat)
    requires app.Valid() && app.session == Some(id) && id in app.users
    requires app.users[id].username == "alice" && app.users[id].cash == 974000
    requires Held(app.history, "alice", "AAA") == 6
  {
    var page := app.Index(QuoteAtSixty);
    PageAtSixty(app.history, page);
    assert page.Ok?;
  }

  /** Logging in as "Alice", a capitalised form of the registered name, is
      refused whatever the password check says. */
  method LoginStep(app: App)
    requires app.Valid()
    modifies app
  {
    app.Logout();
    var ok := app.Login("Alice", "pw", (hash, pw) => true);
    assert !IsLower("Alice") by { assert 'A' == "Alice"[0]; }
    MixedCaseLoginRefused(app, "Alice");
    assert ok == Fail(InvalidCredentials);
  }

  method BuyThenSell()
  {
    var app, id := OpenAccount();
    BuyStep(app, id);
    SellStep(app, id);
    PortfolioStep(app, id);
    LoginStep(app);
  }
}
