# CS50 Finance trading ledger in Dafny

This project models the trading core of the CS50 Finance web application
(`app.py`). It covers three pieces of state:

- the `users` table: id, username, password hash and cash;
- the append-only `history` ledger: username, symbol, signed share count and
  price;
- the session slot `session["user_id"]`.

It also models the route handlers that read and write that state: `index`,
`buy`, `sell`, `history`, `quote`, `register`, `login` and `logout`. Amounts
are whole cents.

Modules:

- `Wrappers` holds `Option`, `Result` and `Outcome`.
- `Text` holds Python's `str.upper()` and `str.lower()` on ASCII letters.
- `Ledger` holds the two tables and the SQL queries over them:
  - a position is the sum of the signed share counts (`Held`);
  - the SQL sum is NULL when a user has no rows for a symbol (`Traded`);
  - the grouped query with `having sum(shares) > 0` is `Holdings`;
  - a user's rows in insertion order are `UserRows`;
  - the lookup by name is `Named`;
  - the cash update by name is `AdjustCash`.
- `Forms` holds each handler's validation ladder, in the source's order, and
  the apology each failed check renders.
- `Portfolio` holds the portfolio page:
  - `Valued` is the reference definition;
  - `PriceHoldings` is the handler's loop, proved against it;
  - `PortfolioShowsPositions` states what the page lists.
- `Store` holds the consistency rules kept between the tables, stated on plain
  values:
  - ids are positive and below the next id;
  - no account's cash is negative;
  - usernames are lower-case and unique;
  - stored symbols are upper-case;
  - no position is negative;
  - every ledger row belongs to an account;
  - each account's cash equals the default less the net cost of its own rows.

  Two lemmas prove that these rules survive a trade and a registration.
- `Finance` holds the class `App`, with one method per handler. Each method
  keeps `Valid()` and states its whole new state.
- `Scenario` is a client that uses only the handlers' contracts. One account
  buys, is refused two requests, sells, reads its portfolio, and is refused a
  login under a capitalised name.

External services are inputs:

- The quote service is an `Option<nat>` answer for the submitted symbol. On
  the portfolio page it is a function `string -> Option<nat>`.
- Password hashing is the stored hash given to `register` plus a comparison
  function given to `login`.
- The initial cash, a column default of the schema, is a constructor
  parameter.

Two behaviours of the code are modelled as written:

- Registration lower-cases the name (`app.py:196`), but login looks the name
  up as typed (`app.py:140-142`). `MixedCaseLoginRefused` proves the
  consequence: a login under a name with an upper-case letter never
  succeeds.
- When the quote service cannot price a held symbol, `app.py:44` indexes
  `None` and the handler fails. The model returns `QuoteFailed(symbol)` for
  the first such symbol.

## Model

| member | source | states |
|---|---|---|
| Text.Upper | app.py:101 | `symbol.upper()`: same length, no lower-case letter in the result, and a string is its own image exactly when it is already upper-case |
| Text.Lower | app.py:196 | `username.lower()`: same length, no upper-case letter in the result, and a string is its own image exactly when it is already lower-case |
| Text.UpperEach | app.py:101 | `symbol.upper()` maps each character by `UpperChar`: lower-case ASCII letters become upper-case, everything else stays |
| Text.LowerEach | app.py:196 | `username.lower()` maps each character by `LowerChar`: upper-case ASCII letters become lower-case, everything else stays |
| Text.UpperIgnoresCase | app.py:275 | two symbols that differ only in ASCII letter case are stored and looked up under the same upper-case symbol |
| Ledger.Held | app.py:271-275 | `sum(shares)` for a user and symbol; characterised by `HeldAppend` (each row moves only its own pair's sum) and `UntradedHeldZero` (0 with no rows) |
| Ledger.Traded | app.py:277 | the sum is not NULL exactly when a row exists; characterised by `TradedAppend` and `HeldNeedsTrade` |
| Ledger.HeldAppend | app.py:271-275 | appending a row changes the summed position of its own (user, symbol) pair by its share count and leaves every other position unchanged |
| Ledger.UntradedHeldZero | app.py:277-278 | with no row for (user, symbol) the sum is empty and the position is 0 |
| Ledger.HeldNeedsTrade | app.py:42 | every non-zero position comes from at least one row of that user and symbol |
| Ledger.TradedAppend | app.py:286-289 | a new row adds exactly its own (user, symbol) pair to the traded pairs |
| Ledger.Symbols | app.py:42 | `group by symbol`: exactly the symbols the user has traded, each once |
| Ledger.Positive | app.py:42 | `having sum(shares) > 0`: a group is kept exactly when its position is positive, with that position, and no symbol twice |
| Ledger.Holdings | app.py:233-239 | the grouped query lists a holding exactly when the user's position in its symbol is positive, with shares equal to that position, each symbol once |
| Ledger.Spent | app.py:102-103 | the net cash a user put into trades; characterised by `SpentAppend` and `SpentNothing`, and tied to each account's cash by `Store.CashAfterTrade` |
| Ledger.SpentAppend | app.py:100-103 | a new row changes its own user's net spending by its cost `price * shares` and nobody else's |
| Ledger.SpentNothing | app.py:213 | a user with no ledger rows has spent nothing |
| Ledger.UserRows | app.py:116 | `select * from history where username=?` holds exactly the ledger rows of that user |
| Ledger.UserRowsAppend | app.py:116 | a new trade appears at the end of its own user's list and leaves every other user's list unchanged |
| Ledger.Named | app.py:140-142 | the ids of `select * from users where username = ?`; characterised by `NamedIsSingleton` |
| Ledger.AdjustCash | app.py:102-103 | `update users set cash = cash + ? where username = ?`; characterised by `AdjustCashOne` |
| Ledger.NamedIsSingleton | app.py:215-220 | with unique usernames, the query by an account's name finds exactly that account |
| Ledger.AdjustCashOne | app.py:102-103 | with unique usernames, `update users set cash = cash + ? where username=?` changes exactly the one account with that name |
| Forms.CheckOrder | app.py:69-89 | an order is accepted exactly when the symbol is given, the share count is a positive whole number and the quote exists; each refusal has its own message, in order: `MissingSymbol` exactly when the symbol is empty, then `MissingShares`, `SharesNotWhole`, `SharesNotPositive`, and `InvalidSymbol` exactly when everything before it passed; an accepted order's cost is not negative |
| Forms.CheckBuy | app.py:69-97 | a purchase is accepted exactly when the order is valid and costs no more than the cash, leaving cash between 0 and what it was; order errors are passed on unchanged; any other refusal is `InsufficientBalance` |
| Forms.CheckSell | app.py:246-281 | a sale is accepted exactly when the order is valid, the user has traded the upper-cased symbol and the count does not exceed the position, leaving a position of at least 0; with no rows the refusal is `NoShares`; a sale of more shares than the position, after a trade in the symbol, is refused with `NotEnoughShares` carrying the position |
| Forms.CheckQuote | app.py:177-183 | a quote is shown exactly when a symbol is given and the service priced it, at the quoted price; each refusal has its own message |
| Forms.CheckRegister | app.py:196-209 | registration passes exactly when the name and password are given, the confirmation matches and no account has the name; each refusal has its own message, in order: `UsernameRequired`, `PasswordRequired`, `PasswordMismatch`, and `UsernameExists` exactly when only the name check fails |
| Portfolio.Valued | app.py:43-51 | pricing succeeds exactly when every holding has a quote; line k is then holding k at its price; on failure the error names a holding with no quote |
| Portfolio.Priced | app.py:44-51 | one page line: upper-cased symbol, shares, quoted price and `price * shares`; characterised by `LinesArePriced` |
| Portfolio.ValuedStep | app.py:43-52 | one more priced holding appends its line and adds its total to the asset total |
| Portfolio.ValuedHalts | app.py:44 | a holding with no quote ends the pricing with an error naming it |
| Portfolio.ValuedStops | app.py:44 | once a prefix of the holdings fails to price, the whole list fails the same way |
| Portfolio.AssetTotal | app.py:52 | `asset_total`, the sum of the line totals; characterised by `ValuedStep` (the loop's running sum) and `AssetTotalNonNegative` |
| Portfolio.AssetTotalNonNegative | app.py:52 | lines of non-negative value add up to a non-negative asset total |
| Portfolio.PriceHoldings | app.py:43-52 | the handler's loop returns exactly `Valued` of the rows and, on success, the asset total of the lines |
| Portfolio.PricePage | app.py:43-56 | the priced rows and `cash + asset_total` give exactly the page for those rows |
| Portfolio.IndexPage | app.py:36-59 | the portfolio page of a user; characterised by `PortfolioShowsPositions` |
| Portfolio.RenderPage | app.py:42-56 | the grouped query followed by the pricing loop gives exactly `IndexPage` |
| Portfolio.HoldingsKeepSymbols | app.py:47 | when stored symbols are upper-case, `.upper()` leaves every listed symbol unchanged |
| Portfolio.HoldingsArePositive | app.py:42 | every listed holding has positive shares, under an upper-case symbol |
| Portfolio.LinesArePriced | app.py:44-51 | line k carries holding k's symbol and shares, its quoted price and `price * shares`, which is not negative |
| Portfolio.LinesFollowPositions | app.py:42-48 | lines that copy the grouped rows show a line exactly for each positive position, with that position |
| Portfolio.PortfolioShowsPositions | app.py:42-56 | the page lists a line exactly for each symbol with a positive summed position, each symbol once, with that position, the quoted price and their product; the page total is cash plus the line totals, so never below the cash |
| Store.PositionsAfterTrade | app.py:280-289 | a row in an upper-case symbol that takes no position below zero keeps every position non-negative |
| Store.OwnedAfterTrade | app.py:100-101 | a row written by an existing account keeps every ledger row owned |
| Store.CashAfterTrade | app.py:100-103 | changing the trader's cash by minus the row's cost keeps every account's cash equal to the default less its net spending |
| Store.TradeKeepsConsistent | app.py:94-103 | a trade keeps every consistency rule when it takes no position below zero and leaves the trader's cash non-negative |
| Store.RegistrationKeepsConsistent | app.py:213 | a new lower-case, unused name under the next id with the default cash keeps every consistency rule |
| Finance.App.Index | app.py:36-59 | without a session the request is refused; otherwise the result is the portfolio page of the logged-in user's name and cash |
| Finance.App.History | app.py:113-119 | without a session the request is refused; otherwise the list holds exactly the logged-in user's ledger rows |
| Finance.App.Quote | app.py:174-189 | a price is shown exactly when someone is logged in, a symbol is given and the service priced it, at the quoted price |
| Finance.App.SellChoices | app.py:231-242 | the loop collects exactly the symbols in which the logged-in user holds a positive position, each once |
| Finance.App.Record | app.py:100-103 | a trade appends its row, changes exactly the trader's cash by minus the row's cost, and keeps `Valid` |
| Finance.App.Buy | app.py:65-106 | a refused purchase, including one made without a session, changes nothing; an accepted one appends `(user, upper(symbol), +shares, price)` and lowers only the buyer's cash by `price * shares`; `Valid` keeps all cash non-negative |
| Finance.App.Sell | app.py:244-298 | a refused sale changes nothing; an accepted one appends `(user, upper(symbol), -shares, price)`, raises only the seller's cash by `price * shares`, and leaves the position at the old position minus the shares, which is at least 0 |
| Finance.App.AddUser | app.py:213-215 | a new account gets the next id with the default cash, and the query by its name then finds exactly that account |
| Finance.App.Register | app.py:195-223 | the result is `CheckRegister` on the lower-cased name; a refusal changes nothing; a success adds exactly one account under the next id, advances the next id by one, and logs the new account in |
| Finance.App.Login | app.py:127-151 | the session is always cleared; login succeeds exactly when both fields are given, exactly one account has the name as typed and the hash check passes for it; the session then names that account; each refusal has its own message |
| Finance.App.Logout | app.py:162-169 | the session is cleared whatever it held |
| Finance.MixedCaseLoginRefused | app.py:140-148 | because stored names are lower-case, no account matches a login name that contains an upper-case letter |
| Scenario.BuyStep | app.py:94-103 | buying 10 at 50.00 from 10000.00 leaves 9500.00 and one ledger row; a purchase costing more than the cash is refused |
| Scenario.SellStep | app.py:271-295 | selling 11 of 10 is refused with the held count 10; selling 4 at 60.00 leaves 9740.00 and a position of 6 |
| Scenario.PageAtSixty | app.py:42-56 | a position of 6 priced at 60.00 is shown as the line AAA, 6, 60.00, 360.00, and the page total is at least the cash |

## Left out

- The Flask routing, templates, `flash`, `redirect`, the `GET` branches of the forms, and the cache headers (`app.py:25-31`) are presentation only.
- `login` on a `GET` request also clears the session. Only the `POST` path is modelled.
- The `sell` handler's `GET` path renders the symbol list. `SellChoices` models how that list is computed, and `Sell` models the `POST` path.
- SQLite is modelled as a map and a sequence. The handlers' separate `db.execute` calls are not atomic, but each handler runs as one step here, so concurrent requests are not modelled.
- The model's ledger rows omit the timestamp column. `history` selects that column and shows it (`app.py:116`).
- SQL leaves the row order of `group by` unspecified. The model lists groups in the order of each symbol's first trade. Every stated property holds for any order.
- `helpers.py` is not part of this model: `lookup`, `apology`, `login_required` and `usd`.
  - `lookup` is an input, and prices are assumed non-negative (`nat` cents).
  - `apology` is the `Apology` datatype.
  - `login_required` is the `LoginRequired` refusal.
  - `usd` and the `f"{...:,.2f}"` formatting are not modelled.
- Floating-point prices and totals (`float(...)`) are modelled as exact integer cents.
- `generate_password_hash` and `check_password_hash` are inputs: the stored hash and a comparison function.
- Python's `int()` parsing, which accepts whitespace, signs and underscores, is reduced to absent, not a whole number, or a whole number (`SharesField`).
- `register` crashes when the `username` or `password` field is absent from the form (`app.py:196-198`). The model takes those fields as given strings.
- `str.upper()` and `str.lower()` are modelled on ASCII letters only.
- The initial cash is a schema default, so it is a constructor parameter.
- Finance.App.Index: when a held symbol cannot be priced, the source raises an exception. The model returns `QuoteFailed` naming the first such symbol.
