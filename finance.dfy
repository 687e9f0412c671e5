/** The trading application: the users table, the history ledger and the
    session slot, with one method per route handler. Each handler checks the
    login gate and its form, then writes the tables; a refused request leaves
    the state as it was.

    The quote service is an input: `quote` is what it answered for the
    submitted symbol (`None` for an unknown one), `lookup` what it answers for
    each held symbol on the portfolio page. Password hashing is an input too:
    `hashed` is the hash stored at registration, `checkHash` the comparison
    run at login. */
module Finance {
  import opened Wrappers
  import opened Text
  import opened Ledger
  import opened Forms
  import opened Portfolio
  import opened Store

  class App {
    /** The users table, by id. */
    var users: map<nat, User>
    /** The history table, oldest row first. */
    var history: seq<Row>
    /** `session["user_id"]`, when someone is logged in. */
    var session: Option<nat>
    /** The id the next registered account receives. */
    var nextId: nat
    /** The cash a new account starts with (a column default of the schema). */
    const defaultCash: nat

    /** What every handler keeps: ids below the next one, no account below
        zero cash, lower-case and distinct usernames, a session that names an
        account, upper-case stored symbols, no position below zero, every
        ledger row made by an account, and each account's cash equal to the
        default less the net cost of its own rows. */
    ghost predicate Valid()
      reads this
    {
      && Consistent(users, history, nextId, defaultCash)
      && (session.Some? ==> session.value in users)
    }

    /** An empty database and no one logged in. */
    constructor (defaultCash: nat)
      ensures Valid()
      ensures users == map[] && history == [] && session == None
      ensures this.defaultCash == defaultCash
    {
      users := map[];
      history := [];
      session := None;
      nextId := 1;
      this.defaultCash := defaultCash;
    }

    /** `index`: the portfolio page of the logged-in user: the grouped query,
        its rows priced one by one, and the cash plus their value. */
    method Index(lookup: string -> Option<nat>) returns (r: Result<Page, Apology>)
      requires Valid()
      ensures session.None? ==> r == Err(LoginRequired)
      ensures session.Some? ==> r == IndexPage(history, users[session.value].username, users[session.value].cash, lookup)
    {
      if session.None? {
        return Err(LoginRequired);
      }
      var user := users[session.value];
      r := RenderPage(history, user.username, user.cash, lookup);
    }

    /** `history`: the logged-in user's rows, in the order they were written
        (an empty list is the "no history" page). */
    function History(): (r: Result<seq<Row>, Apology>)
      reads this
      requires Valid()
      ensures session.None? <==> r == Err(LoginRequired)
      ensures r.Ok? ==> forall x :: x in r.value <==> x in history && x.username == users[session.value].username
    {
      if session.None? then Err(LoginRequired)
      else Ok(UserRows(history, users[session.value].username))
    }

    /** `quote`: the quoted price of a submitted symbol, for a logged-in user. */
    function Quote(symbol: string, quote: Option<nat>): (r: Result<nat, Apology>)
      reads this
      ensures r.Ok? <==> session.Some? && symbol != [] && quote.Some?
      ensures r.Ok? ==> r.value == quote.value
      ensures session.None? ==> r == Err(LoginRequired)
    {
      if session.None? then Err(LoginRequired) else CheckQuote(symbol, quote)
    }

    /** The symbols the sell form offers, collected row by row from the
        grouped query as the handler's loop does: exactly those the logged-in
        user holds a positive number of shares of, each once. */
    method SellChoices() returns (r: Result<seq<string>, Apology>)
      requires Valid()
      ensures session.None? <==> r == Err(LoginRequired)
      ensures r.Ok? ==> forall s :: s in r.value <==> Held(history, users[session.value].username, s) > 0
      ensures r.Ok? ==> Distinct(r.value)
    {
      if session.None? {
        return Err(LoginRequired);
      }
      var username := users[session.value].username;
      var rows := Holdings(history, username);
      var symbols: seq<string> := [];
      for i := 0 to |rows|
        invariant |symbols| == i
        invariant forall k :: 0 <= k < i ==> symbols[k] == Upper(rows[k].symbol)
      {
        symbols := symbols + [Upper(rows[i].symbol)];
      }
      HoldingsKeepSymbols(history, username);
      forall k | 0 <= k < |rows|
        ensures symbols[k] == rows[k].symbol && Held(history, username, symbols[k]) > 0
      {
        assert rows[k] in rows;
      }
      forall s | Held(history, username, s) > 0
        ensures s in symbols
      {
        assert Holding(s, Held(history, username, s)) in rows;
        var k :| 0 <= k < |rows| && rows[k] == Holding(s, Held(history, username, s));
        assert symbols[k] == s;
      }
      return Ok(symbols);
    }

    /** The two writes of a trade by account `id`: the row is appended to
        the ledger and the account's cash, looked up by its name, changes by
        `delta`, the opposite of the row's cost. `Valid` is kept as long as no
        position goes below zero and the cash stays non-negative. */
    method Record(row: Row, id: nat, delta: int)
      requires Valid() && id in users && row.username == users[id].username
      requires IsUpper(row.symbol) && delta == -(row.price * row.shares)
      requires Held(history, row.username, row.symbol) + row.shares >= 0
      requires users[id].cash + delta >= 0
      modifies this
      ensures Valid()
      ensures history == old(history) + [row]
      ensures users == old(users)[id := old(users)[id].(cash := old(users)[id].cash + delta)]
      ensures session == old(session) && nextId == old(nextId)
    {
      TradeKeepsConsistent(users, history, nextId, defaultCash, row, id, delta);
      AdjustCashOne(users, id, delta);
      var after := WithCash(users, id, delta);
      assert AdjustCash(users, row.username, delta) == after;
      history := history + [row];
      users := AdjustCash(users, row.username, delta);
      assert Consistent(users, history, nextId, defaultCash);
    }

    /** `buy`: after the login gate and `CheckBuy`, one row with the bought
        shares is appended and exactly the buyer's cash falls by the cost; a
        refused purchase changes nothing. */
    method Buy(symbol: string, shares: SharesField, quote: Option<nat>) returns (r: Outcome<Apology>)
      requires Valid()
      modifies this
      ensures Valid()
      ensures session == old(session) && nextId == old(nextId)
      ensures old(session).None? ==> r == Fail(LoginRequired) && users == old(users) && history == old(history)
      ensures old(session).Some? ==>
        var id := old(session).value;
        var user := old(users)[id];
        match CheckBuy(user.cash, symbol, shares, quote)
        case Err(e) => r == Fail(e) && users == old(users) && history == old(history)
        case Ok(order) =>
          && r == Pass
          && history == old(history) + [Row(user.username, Upper(symbol), order.shares, order.price)]
          && users == old(users)[id := user.(cash := user.cash - order.Cost())]
    {
      if session.None? {
        return Fail(LoginRequired);
      }
      var id := session.value;
      var user := users[id];
      match CheckBuy(user.cash, symbol, shares, quote)
      case Err(e) =>
        return Fail(e);
      case Ok(order) =>
        Record(Row(user.username, Upper(symbol), order.shares, order.price), id, -order.Cost());
        return Pass;
    }

    /** `sell`: after the login gate and `CheckSell`, one row with the sold
        shares negated is appended, exactly the seller's cash rises by the
        proceeds, and the seller's position in the symbol drops by the sold
        count to a value that is not negative (every other position stays as
        it was, by `HeldAppend`); a refused sale changes nothing. */
    method Sell(symbol: string, shares: SharesField, quote: Option<nat>) returns (r: Outcome<Apology>)
      requires Valid()
      modifies this
      ensures Valid()
      ensures session == old(session) && nextId == old(nextId)
      ensures old(session).None? ==> r == Fail(LoginRequired) && users == old(users) && history == old(history)
      ensures old(session).Some? ==>
        var id := old(session).value;
        var user := old(users)[id];
        match CheckSell(old(history), user.username, symbol, shares, quote)
        case Err(e) => r == Fail(e) && users == old(users) && history == old(history)
        case Ok(order) =>
          && r == Pass
          && history == old(history) + [Row(user.username, Upper(symbol), -order.shares, order.price)]
          && users == old(users)[id := user.(cash := user.cash + order.Cost())]
          && Held(history, user.username, Upper(symbol)) == Held(old(history), user.username, Upper(symbol)) - order.shares >= 0
    {
      if session.None? {
        return Fail(LoginRequired);
      }
      var id := session.value;
      var user := users[id];
      var sym := Upper(symbol);
      match CheckSell(history, user.username, symbol, shares, quote)
      case Err(e) =>
        return Fail(e);
      case Ok(order) =>
        var row := Row(user.username, sym, -order.shares, order.price);
        HeldAppend(history, row, user.username, sym);
        Record(row, id, order.Cost());
        return Pass;
    }

    /** `insert into users(username, hash)`: a new account under the next id
        with the default cash. A name no account has, and no ledger row
        names, keeps `Valid`; a query by the name then finds the new account
        alone. */
    method AddUser(name: string, hashed: string) returns (id: nat)
      requires Valid() && IsLower(name) && Named(users, name) == {}
      modifies this
      ensures Valid()
      ensures id == old(nextId) && id !in old(users) && nextId == old(nextId) + 1
      ensures users == old(users)[id := User(name, hashed, defaultCash)]
      ensures Named(users, name) == {id}
      ensures history == old(history) && session == old(session)
    {
      forall k | k in users
        ensures users[k].username != name
      {
        assert k !in Named(users, name);
      }
      RegistrationKeepsConsistent(users, history, nextId, defaultCash, name, hashed);
      id := nextId;
      users := users[id := User(name, hashed, defaultCash)];
      nextId := nextId + 1;
      NamedIsSingleton(users, id);
    }

    /** `register`: the name is lower-cased, then `CheckRegister` decides. On
        success exactly one account is added, under a new id, with the stored
        hash and the default cash, and the session names it; on failure
        nothing changes, not even the session. */
    method Register(username: string, password: string, confirmation: string, hashed: string) returns (r: Outcome<Apology>)
      requires Valid()
      modifies this
      ensures Valid()
      ensures history == old(history)
      ensures r == CheckRegister(old(users), Lower(username), password, confirmation)
      ensures r.Fail? ==> users == old(users) && session == old(session) && nextId == old(nextId)
      ensures r.Pass? ==>
        && old(nextId) !in old(users)
        && users == old(users)[old(nextId) := User(Lower(username), hashed, defaultCash)]
        && nextId == old(nextId) + 1
        && session == Some(old(nextId))
    {
      var name := Lower(username);
      r := CheckRegister(users, name, password, confirmation);
      if r.Pass? {
        session := None;
        var id := AddUser(name, hashed);
        var found :| found in Named(users, name);
        session := Some(found);
      }
    }

    /** `login`: the session is always cleared first. It is then set exactly
        when both fields are given, exactly one account has the submitted
        name as written, and the password checks against that account's hash;
        it then names that account. */
    method Login(username: string, password: string, checkHash: (string, string) -> bool) returns (r: Outcome<Apology>)
      requires Valid()
      modifies this`session
      ensures Valid()
      ensures r.Fail? ==> session == None
      ensures r.Pass? <==>
        && username != [] && password != []
        && |Named(users, username)| == 1
        && forall id :: id in Named(users, username) ==> checkHash(users[id].hash, password)
      ensures r.Pass? ==> session.Some? && Named(users, username) == {session.value}
      ensures username == [] ==> r == Fail(MustProvideUsername)
      ensures username != [] && password == [] ==> r == Fail(MustProvidePassword)
      ensures username != [] && password != [] && r.Fail? ==> r == Fail(InvalidCredentials)
    {
      session := None;
      if username == [] {
        return Fail(MustProvideUsername);
      }
      if password == [] {
        return Fail(MustProvidePassword);
      }
      var rows := Named(users, username);
      if |rows| != 1 {
        return Fail(InvalidCredentials);
      }
      var id :| id in rows;
      assert rows == {id};
      if !checkHash(users[id].hash, password) {
        return Fail(InvalidCredentials);
      }
      session := Some(id);
      return Pass;
    }

    /** `logout`: the session is cleared, whatever it held. */
    method Logout()
      requires Valid()
      modifies this`session
      ensures Valid()
      ensures session == None
    {
      session := None;
    }
  }

  /** Because registration lower-cases names and login does not, a login
      under a name with an upper-case letter is always refused. */
  lemma MixedCaseLoginRefused(app: App, username: string)
    requires app.Valid()
    requires !IsLower(username)
    ensures Named(app.users, username) == {}
  {
    forall id | id in app.users
      ensures app.users[id].username != username
    {
      assert IsLower(app.users[id].username);
    }
  }
}
