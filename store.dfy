/** The consistency rules the handlers keep between the users table and the
    history ledger, stated on the tables' values, and the two kinds of write
    that can change them: a trade (one ledger row plus the trader's cash) and
    a registration (one new account). */
module Store {
  import opened Text
  import opened Ledger

  /** Account ids are positive and below the next id to hand out; no account
      has negative cash; usernames are lower-case and unique. */
  predicate AccountsOk(users: map<nat, User>, nextId: nat)
  {
    && 0 < nextId
    && (forall id :: id in users ==> 0 < id < nextId && users[id].cash >= 0 && IsLower(users[id].username))
    && UniqueNames(users)
  }

  /** Stored symbols are upper-case and no position is negative. */
  ghost predicate PositionsOk(h: seq<Row>)
  {
    && (forall i :: 0 <= i < |h| ==> IsUpper(h[i].symbol))
    && (forall u, s :: Held(h, u, s) >= 0)
  }

  /** Some account has the name. */
  predicate HasAccount(users: map<nat, User>, name: string)
  {
    exists id :: id in users && users[id].username == name
  }

  /** Every ledger row was written by an existing account. */
  predicate RowsOwned(users: map<nat, User>, h: seq<Row>)
  {
    forall i :: 0 <= i < |h| ==> HasAccount(users, h[i].username)
  }

  /** Every account's cash is the default less the net cost of its own rows:
      what it started with, minus what its purchases cost, plus what its
      sales brought in. */
  predicate CashBalanced(users: map<nat, User>, h: seq<Row>, defaultCash: int)
  {
    forall id :: id in users ==> users[id].cash == defaultCash - Spent(h, users[id].username)
  }

  ghost predicate Consistent(users: map<nat, User>, h: seq<Row>, nextId: nat, defaultCash: int)
  {
    AccountsOk(users, nextId) && PositionsOk(h) && RowsOwned(users, h) && CashBalanced(users, h, defaultCash)
  }

  /** The account `id` with its cash changed by `delta`. */
  function WithCash(users: map<nat, User>, id: nat, delta: int): map<nat, User>
    requires id in users
  {
    users[id := users[id].(cash := users[id].cash + delta)]
  }

  /** A row in an upper-case symbol that takes no position below zero keeps
      the positions in order. */
  lemma {:induction false} PositionsAfterTrade(h: seq<Row>, row: Row)
    requires PositionsOk(h) && IsUpper(row.symbol)
    requires Held(h, row.username, row.symbol) + row.shares >= 0
    ensures PositionsOk(h + [row])
  {
    forall u, s
      ensures Held(h + [row], u, s) >= 0
    {
      HeldAppend(h, row, u, s);
    }
    forall i | 0 <= i < |h + [row]|
      ensures IsUpper((h + [row])[i].symbol)
    {
      if i < |h| {
        assert (h + [row])[i] == h[i];
      }
    }
  }

  /** A row by an existing account, with only that account's cash changed,
      keeps every row owned. */
  lemma {:induction false} OwnedAfterTrade(users: map<nat, User>, h: seq<Row>, row: Row, id: nat, delta: int)
    requires RowsOwned(users, h) && id in users && row.username == users[id].username
    ensures RowsOwned(WithCash(users, id, delta), h + [row])
  {
    var after := WithCash(users, id, delta);
    forall i | 0 <= i < |h + [row]|
      ensures HasAccount(after, (h + [row])[i].username)
    {
      if i < |h| {
        assert (h + [row])[i] == h[i];
        var k :| k in users && users[k].username == h[i].username;
        assert after[k].username == h[i].username;
      } else {
        assert after[id].username == row.username;
      }
    }
  }

  /** A row by account `id` whose cash moves by the opposite of the row's cost
      keeps every account's cash balanced: other accounts' names do not match
      the row, so their net cost stays as it was. */
  lemma {:induction false} CashAfterTrade(users: map<nat, User>, h: seq<Row>, defaultCash: int, row: Row, id: nat, delta: int)
    requires CashBalanced(users, h, defaultCash) && UniqueNames(users)
    requires id in users && row.username == users[id].username && delta == -(row.price * row.shares)
    ensures CashBalanced(WithCash(users, id, delta), h + [row], defaultCash)
  {
    var after := WithCash(users, id, delta);
    forall k | k in after
      ensures after[k].cash == defaultCash - Spent(h + [row], after[k].username)
    {
      SpentAppend(h, row, users[k].username);
    }
  }

  /** A trade keeps the tables consistent when it takes no position below
      zero and leaves the trader's cash non-negative. */
  lemma TradeKeepsConsistent(users: map<nat, User>, h: seq<Row>, nextId: nat, defaultCash: int, row: Row, id: nat, delta: int)
    requires Consistent(users, h, nextId, defaultCash)
    requires id in users && row.username == users[id].username
    requires IsUpper(row.symbol) && delta == -(row.price * row.shares)
    requires Held(h, row.username, row.symbol) + row.shares >= 0
    requires users[id].cash + delta >= 0
    ensures Consistent(WithCash(users, id, delta), h + [row], nextId, defaultCash)
  {
    PositionsAfterTrade(h, row);
    OwnedAfterTrade(users, h, row, id, delta);
    CashAfterTrade(users, h, defaultCash, row, id, delta);
    var after := WithCash(users, id, delta);
    assert forall k :: k in after ==> after[k].username == users[k].username;
  }

  /** A new account under the next id, with a lower-case name no account has
      and the default cash, keeps the tables consistent: no row carries the
      new name, so its cash is balanced from the start. */
  lemma RegistrationKeepsConsistent(users: map<nat, User>, h: seq<Row>, nextId: nat, defaultCash: nat, name: string, hashed: string)
    requires Consistent(users, h, nextId, defaultCash)
    requires IsLower(name) && !HasAccount(users, name)
    ensures nextId !in users
    ensures Consistent(users[nextId := User(name, hashed, defaultCash)], h, nextId + 1, defaultCash)
  {
    var after := users[nextId := User(name, hashed, defaultCash)];
    forall i | 0 <= i < |h|
      ensures h[i].username != name
    {
      assert HasAccount(users, h[i].username);
    }
    SpentNothing(h, name);
    forall i | 0 <= i < |h|
      ensures HasAccount(after, h[i].username)
    {
      var k :| k in users && users[k].username == h[i].username;
      assert after[k] == users[k];
    }
  }
}
