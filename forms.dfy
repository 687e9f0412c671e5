/** The checks the route handlers run on a submitted form before they touch
    the database, and the apology each failed check renders. */
module Forms {
  import opened Wrappers
  import opened Text
  import opened Ledger

  /** The page a handler renders instead of doing its work. */
  datatype Apology =
    | LoginRequired             // the login gate redirects to the login form
    | MissingSymbol             // "Must provide symbol" / "Must select a symbol"
    | MissingShares             // "Must provide number of shares"
    | SharesNotWhole            // "Shares must be a whole number"
    | SharesNotPositive         // "Number of shares must be positive"
    | InvalidSymbol             // "Invalid symbol": the quote service knows no such symbol
    | InsufficientBalance       // "Insufficient balance"
    | NoShares                  // "You don't own any shares of this stock"
    | NotEnoughShares(held: int) // "You only have {held} shares available to sell"
    | QuoteFailed(symbol: string) // the portfolio page cannot price a held symbol
    | UsernameRequired          // "Username is required."
    | PasswordRequired          // "Password is required."
    | PasswordMismatch          // "Password do not match."
    | UsernameExists            // "Username exists."
    | MustProvideUsername       // login, status 403
    | MustProvidePassword       // login, status 403
    | InvalidCredentials        // "invalid username and/or password", status 403

  /** The `shares` form field: absent or empty, text that `int()` rejects, or
      a whole number. */
  datatype SharesField = Missing | NotWhole | Whole(n: int)

  /** A validated order: a share count and the quoted price in cents. */
  datatype Order = Order(shares: int, price: nat)
  {
    /** `price * shares`, the cash a purchase costs or a sale brings in. */
    function Cost(): int
    {
      price * shares
    }
  }

  /** The checks `buy` and `sell` share, in their order: a symbol was given,
      the share count is a positive whole number, and the quote service
      priced the symbol. An order comes out exactly when all three hold; the
      symbol is checked first, and the quote only once the count is good. */
  function CheckOrder(symbol: string, shares: SharesField, quote: Option<nat>): (r: Result<Order, Apology>)
    ensures r.Ok? <==> symbol != [] && shares.Whole? && shares.n > 0 && quote.Some?
    ensures r.Ok? ==> r.value.shares == shares.n > 0 && r.value.price == quote.value && r.value.Cost() >= 0
    ensures r == Err(MissingSymbol) <==> symbol == []
    ensures symbol != [] && shares.Missing? ==> r == Err(MissingShares)
    ensures symbol != [] && shares.NotWhole? ==> r == Err(SharesNotWhole)
    ensures symbol != [] && shares.Whole? && shares.n <= 0 ==> r == Err(SharesNotPositive)
    ensures r == Err(InvalidSymbol) <==> symbol != [] && shares.Whole? && shares.n > 0 && quote.None?
  {
    if symbol == [] then Err(MissingSymbol)
    else if shares.Missing? then Err(MissingShares)
    else if shares.NotWhole? then Err(SharesNotWhole)
    else if shares.n <= 0 then Err(SharesNotPositive)
    else if quote.None? then Err(InvalidSymbol)
    else Ok(Order(shares.n, quote.value))
  }

  /** Every check of `buy`: the order checks, then the balance check. A
      purchase goes ahead exactly when the order is valid and costs no more
      than the cash on hand, so the cash left over is never negative. */
  function CheckBuy(cash: int, symbol: string, shares: SharesField, quote: Option<nat>): (r: Result<Order, Apology>)
    ensures r.Ok? <==> CheckOrder(symbol, shares, quote).Ok? && CheckOrder(symbol, shares, quote).value.Cost() <= cash
    ensures r.Ok? ==> r == CheckOrder(symbol, shares, quote) && 0 <= cash - r.value.Cost() <= cash
    ensures CheckOrder(symbol, shares, quote).Err? ==> r == CheckOrder(symbol, shares, quote)
    ensures CheckOrder(symbol, shares, quote).Ok? && r.Err? ==> r == Err(InsufficientBalance)
  {
    match CheckOrder(symbol, shares, quote)
    case Err(e) => Err(e)
    case Ok(order) => if order.Cost() > cash then Err(InsufficientBalance) else Ok(order)
  }

  /** Every check of `sell` for user `name`: the order checks, then the user
      must have traded the upper-cased symbol, then the count must not exceed
      the summed position. A sale goes ahead exactly when all hold, leaves a
      position that is not negative, and a refusal for too many shares
      reports the position. */
  function CheckSell(h: seq<Row>, name: string, symbol: string, shares: SharesField, quote: Option<nat>): (r: Result<Order, Apology>)
    ensures r.Ok? <==> CheckOrder(symbol, shares, quote).Ok? && Traded(h, name, Upper(symbol))
                        && CheckOrder(symbol, shares, quote).value.shares <= Held(h, name, Upper(symbol))
    ensures r.Ok? ==> r == CheckOrder(symbol, shares, quote) && Held(h, name, Upper(symbol)) - r.value.shares >= 0
    ensures CheckOrder(symbol, shares, quote).Err? ==> r == CheckOrder(symbol, shares, quote)
    ensures CheckOrder(symbol, shares, quote).Ok? && !Traded(h, name, Upper(symbol)) ==> r == Err(NoShares)
    ensures r.Err? && r.error.NotEnoughShares? ==> r.error.held == Held(h, name, Upper(symbol)) < shares.n
    ensures (CheckOrder(symbol, shares, quote).Ok? && Traded(h, name, Upper(symbol)) && shares.n > Held(h, name, Upper(symbol)))
              ==> r == Err(NotEnoughShares(Held(h, name, Upper(symbol))))
  {
    match CheckOrder(symbol, shares, quote)
    case Err(e) => Err(e)
    case Ok(order) =>
      var sym := Upper(symbol);
      if !Traded(h, name, sym) then Err(NoShares)
      else if order.shares > Held(h, name, sym) then Err(NotEnoughShares(Held(h, name, sym)))
      else Ok(order)
  }

  /** The checks of `quote`: a symbol was given and the quote service priced
      it; the price shown is the quoted one. */
  function CheckQuote(symbol: string, quote: Option<nat>): (r: Result<nat, Apology>)
    ensures r.Ok? <==> symbol != [] && quote.Some?
    ensures r.Ok? ==> r.value == quote.value
    ensures symbol == [] ==> r == Err(MissingSymbol)
    ensures symbol != [] && quote.None? ==> r == Err(InvalidSymbol)
  {
    if symbol == [] then Err(MissingSymbol)
    else if quote.None? then Err(InvalidSymbol)
    else Ok(quote.value)
  }

  /** The checks of `register` on the already lower-cased `name`, in order:
      a name, a password, a matching confirmation, and a name no account has.
      Registration goes ahead exactly when all four hold. */
  function CheckRegister(users: map<nat, User>, name: string, password: string, confirmation: string): (r: Outcome<Apology>)
    ensures r.Pass? <==> name != [] && password != [] && password == confirmation && Named(users, name) == {}
    ensures name == [] ==> r == Fail(UsernameRequired)
    ensures name != [] && password == [] ==> r == Fail(PasswordRequired)
    ensures name != [] && password != [] && password != confirmation ==> r == Fail(PasswordMismatch)
    ensures r == Fail(UsernameExists) <==> name != [] && password != [] && password == confirmation && Named(users, name) != {}
  {
    if name == [] then Fail(UsernameRequired)
    else if password == [] then Fail(PasswordRequired)
    else if password != confirmation then Fail(PasswordMismatch)
    else if |Named(users, name)| != 0 then Fail(UsernameExists)
    else Pass
  }
}
