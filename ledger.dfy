/** The two tables of the finance database and the queries the handlers run
    over them.

    `users` holds one row per account; the model keys it by the row's id.
    `history` is the append-only trade ledger: a purchase is a row with a
    positive share count, a sale a row with a negative one, so what a user
    holds of a symbol is the sum of the signed counts of that user's rows for
    it (`select sum(shares) ... group by symbol`). */
module Ledger {
  import opened Text

  /** A row of the users table (id is the key of the map that holds it). */
  datatype User = User(username: string, hash: string, cash: int)

  /** A row of the history table; `price` is the quoted price per share in
      cents at the time of the trade. */
  datatype Row = Row(username: string, symbol: string, shares: int, price: nat)

  /** One result row of the grouped query: a symbol and its summed shares. */
  datatype Holding = Holding(symbol: string, shares: int)

  // ---------------------------------------------------------------------
  // history: positions

  /** The row belongs to user `u` and is a trade in symbol `s`. */
  predicate Counts(r: Row, u: string, s: string)
  {
    r.username == u && r.symbol == s
  }

  /** `select sum(shares) from history where username = u and symbol = s`,
      with the empty sum read as 0. */
  function Held(h: seq<Row>, u: string, s: string): int
  {
    if h == [] then 0
    else (if Counts(h[0], u, s) then h[0].shares else 0) + Held(h[1..], u, s)
  }

  /** User `u` has at least one row for symbol `s`; when not, the SQL sum above
      is NULL rather than 0. */
  predicate Traded(h: seq<Row>, u: string, s: string)
  {
    exists i :: 0 <= i < |h| && Counts(h[i], u, s)
  }

  /** Appending a row changes the position it belongs to by its share count
      and leaves every other position as it was. */
  lemma {:induction false} HeldAppend(h: seq<Row>, r: Row, u: string, s: string)
    ensures Held(h + [r], u, s) == Held(h, u, s) + (if Counts(r, u, s) then r.shares else 0)
  {
    if h == [] {
      assert [r][1..] == [];
    } else {
      assert (h + [r])[1..] == h[1..] + [r];
      HeldAppend(h[1..], r, u, s);
    }
  }

  /** A user with no row for a symbol holds none of it. */
  lemma {:induction false} UntradedHeldZero(h: seq<Row>, u: string, s: string)
    requires !Traded(h, u, s)
    ensures Held(h, u, s) == 0
  {
    if h != [] {
      assert !Counts(h[0], u, s);
      forall i | 0 <= i < |h[1..]|
        ensures !Counts(h[1..][i], u, s)
      {
        assert h[1..][i] == h[i + 1];
      }
      UntradedHeldZero(h[1..], u, s);
    }
  }

  /** A non-zero position comes from at least one row. */
  lemma HeldNeedsTrade(h: seq<Row>, u: string)
    ensures forall s :: Held(h, u, s) != 0 ==> Traded(h, u, s)
  {
    forall s | !Traded(h, u, s)
      ensures Held(h, u, s) == 0
    {
      UntradedHeldZero(h, u, s);
    }
  }

  /** Appending a row adds exactly its own (user, symbol) pair to the traded
      pairs. */
  lemma TradedAppend(h: seq<Row>, r: Row, u: string)
    ensures forall s :: Traded(h + [r], u, s) <==> Traded(h, u, s) || Counts(r, u, s)
  {
    forall s
      ensures Traded(h + [r], u, s) <==> Traded(h, u, s) || Counts(r, u, s)
    {
      if Traded(h, u, s) {
        var i :| 0 <= i < |h| && Counts(h[i], u, s);
        assert (h + [r])[i] == h[i];
      }
      if Counts(r, u, s) {
        assert (h + [r])[|h|] == r;
      }
      if Traded(h + [r], u, s) && !Counts(r, u, s) {
        var i :| 0 <= i < |h + [r]| && Counts((h + [r])[i], u, s);
        assert i < |h| && (h + [r])[i] == h[i];
      }
    }
  }

  predicate Distinct(ss: seq<string>)
  {
    forall i, j :: 0 <= i < j < |ss| ==> ss[i] != ss[j]
  }

  /** The symbols user `u` has ever traded, each once, in the order of their
      first trade: the groups of `group by symbol`. */
  function Symbols(h: seq<Row>, u: string): (r: seq<string>)
    ensures forall s :: s in r <==> Traded(h, u, s)
    ensures Distinct(r)
    decreases |h|
  {
    if h == [] then []
    else
      var init, last := h[..|h| - 1], h[|h| - 1];
      assert h == init + [last];
      TradedAppend(init, last, u);
      var prev := Symbols(init, u);
      if last.username == u && last.symbol !in prev then prev + [last.symbol] else prev
  }

  /** The groups among `ss` whose summed shares are positive: the `having
      sum(shares) > 0` filter. A holding is listed exactly when its symbol is
      one of `ss` with a positive position, and then with that position. */
  function Positive(h: seq<Row>, u: string, ss: seq<string>): (r: seq<Holding>)
    ensures forall x :: x in r <==> x.symbol in ss && Held(h, u, x.symbol) > 0 && x.shares == Held(h, u, x.symbol)
    ensures Distinct(ss) ==> forall k, l :: 0 <= k < l < |r| ==> r[k].symbol != r[l].symbol
  {
    if ss == [] then []
    else
      var rest := Positive(h, u, ss[1..]);
      assert forall s :: s in ss <==> s == ss[0] || s in ss[1..];
      assert Distinct(ss) ==> Distinct(ss[1..]) && ss[0] !in ss[1..];
      var head := if Held(h, u, ss[0]) > 0 then [Holding(ss[0], Held(h, u, ss[0]))] else [];
      assert forall k :: 0 <= k < |rest| ==> rest[k] in rest;
      head + rest
  }

  /** The grouped query of the portfolio page and of the sell form:
      `select symbol, sum(shares) from history where username = u group by
      symbol having sum(shares) > 0`. A holding is listed exactly when the
      user's position in its symbol is positive, with that position, and no
      symbol is listed twice. */
  function Holdings(h: seq<Row>, u: string): (r: seq<Holding>)
    ensures forall x :: x in r <==> Held(h, u, x.symbol) > 0 && x.shares == Held(h, u, x.symbol)
    ensures forall k, l :: 0 <= k < l < |r| ==> r[k].symbol != r[l].symbol
  {
    HeldNeedsTrade(h, u);
    Positive(h, u, Symbols(h, u))
  }

  /** The net cash user `u` has put into trades: each purchase at its cost
      `price * shares`, each sale, whose shares are negative, as minus its
      proceeds. */
  function Spent(h: seq<Row>, u: string): int
  {
    if h == [] then 0
    else (if h[0].username == u then h[0].price * h[0].shares else 0) + Spent(h[1..], u)
  }

  /** Appending a row changes only its own user's net spending, by the row's
      cost. */
  lemma {:induction false} SpentAppend(h: seq<Row>, r: Row, u: string)
    ensures Spent(h + [r], u) == Spent(h, u) + (if r.username == u then r.price * r.shares else 0)
  {
    if h == [] {
      assert [r][1..] == [];
    } else {
      assert (h + [r])[1..] == h[1..] + [r];
      SpentAppend(h[1..], r, u);
    }
  }

  /** A user with no rows has spent nothing. */
  lemma {:induction false} SpentNothing(h: seq<Row>, u: string)
    requires forall i :: 0 <= i < |h| ==> h[i].username != u
    ensures Spent(h, u) == 0
  {
    if h != [] {
      assert forall i :: 0 <= i < |h[1..]| ==> h[1..][i] == h[i + 1];
      SpentNothing(h[1..], u);
    }
  }

  // ---------------------------------------------------------------------
  // history: the transaction list

  /** `select * from history where username = u`, in insertion order. */
  function UserRows(h: seq<Row>, u: string): (r: seq<Row>)
    ensures forall x :: x in r <==> x in h && x.username == u
  {
    if h == [] then []
    else
      assert forall x :: x in h <==> x == h[0] || x in h[1..];
      (if h[0].username == u then [h[0]] else []) + UserRows(h[1..], u)
  }

  /** A new trade shows up at the end of its own user's list and nowhere
      else: the list keeps insertion order. */
  lemma {:induction false} UserRowsAppend(h: seq<Row>, r: Row, u: string)
    ensures UserRows(h + [r], u) == UserRows(h, u) + (if r.username == u then [r] else [])
  {
    if h == [] {
      assert [r][1..] == [];
    } else {
      assert (h + [r])[1..] == h[1..] + [r];
      UserRowsAppend(h[1..], r, u);
    }
  }

  // ---------------------------------------------------------------------
  // users

  /** No two accounts share a username. */
  predicate UniqueNames(users: map<nat, User>)
  {
    forall a, b :: a in users && b in users && users[a].username == users[b].username ==> a == b
  }

  /** The ids of `select * from users where username = name`. */
  function Named(users: map<nat, User>, name: string): set<nat>
  {
    set id | id in users && users[id].username == name
  }

  /** With unique usernames the query by an account's name finds that account
      and nothing else. */
  lemma NamedIsSingleton(users: map<nat, User>, id: nat)
    requires UniqueNames(users) && id in users
    ensures Named(users, users[id].username) == {id}
  {
  }

  /** `update users set cash = cash + delta where username = name`. */
  function AdjustCash(users: map<nat, User>, name: string, delta: int): map<nat, User>
  {
    map id | id in users :: if users[id].username == name then users[id].(cash := users[id].cash + delta) else users[id]
  }

  /** With unique usernames the update by name touches exactly the one
      account that has that name. */
  lemma AdjustCashOne(users: map<nat, User>, id: nat, delta: int)
    requires UniqueNames(users) && id in users
    ensures AdjustCash(users, users[id].username, delta) == users[id := users[id].(cash := users[id].cash + delta)]
  {
    var name := users[id].username;
    var a := AdjustCash(users, name, delta);
    var b := users[id := users[id].(cash := users[id].cash + delta)];
    assert a.Keys == b.Keys;
    forall k | k in a
      ensures a[k] == b[k]
    {
      if k != id {
        assert users[k].username != name;
      }
    }
  }
}
