/** The loyalty punch card: one row per user in the `loyalty` table holding
    `cuts_completed` and `reward_claimed`, changed by the admin routes
    "add cut", "remove cut" and "claim", and read by `/me` and the admin list
    (server/src/routes/loyalty.js). */
module Loyalty {

  import opened Wrappers
  import opened LexOrder
  import opened Sorting

  type UserId = int

  /** A `loyalty` row: `cuts_completed` and `reward_claimed`. */
  datatype Card = Card(cuts: int, claimed: bool)

  /** The schema's column defaults, and what the read views report for a
      user without a row (COALESCE(…, 0), COALESCE(…, false)). */
  const Default := Card(0, false)

  /** Cuts needed before a reward can be claimed. */
  const Threshold := 10

  /** The card invariant every reachable row satisfies. */
  predicate Consistent(c: Card)
  {
    c.cuts >= 0 && (c.claimed ==> c.cuts == 0)
  }

  /** The row after "add cut": the upsert inserts (1, false) when there is no
      row; a claimed card starts a new cycle at (1, false); otherwise the
      count goes up by one, with no upper bound. */
  function AfterCut(row: Option<Card>): (c: Card)
    ensures var before := if row.Some? then row.value else Default;
      Consistent(before) ==> c == Card(before.cuts + 1, false)
  {
    match row
    case None => Card(1, Default.claimed)
    case Some(c) =>
      Card(if c.claimed then 1 else c.cuts + 1, if c.claimed then false else c.claimed)
  }

  /** The row after "remove cut": GREATEST(cuts_completed - 1, 0). */
  function AfterRemoveCut(c: Card): (r: Card)
    ensures r.claimed == c.claimed && r.cuts >= 0
    ensures c.cuts >= 1 ==> r.cuts == c.cuts - 1
    ensures c.cuts <= 1 ==> r.cuts == 0
  {
    Card(if c.cuts - 1 > 0 then c.cuts - 1 else 0, c.claimed)
  }

  /** The row after "claim", or None when the conditional UPDATE matches
      no row (no row for the user, or fewer than ten cuts). */
  function AfterClaim(row: Option<Card>): (r: Option<Card>)
    ensures r.Some? ==> row.Some? && row.value.cuts >= Threshold
    ensures r.Some? ==> r.value == Card(0, true) && Consistent(r.value)
  {
    if row.Some? && row.value.cuts >= Threshold then Some(Card(0, true)) else None
  }

  /** The three admin operations on one user's card. */
  datatype Op = Cut | RemoveCut | Claim

  /** One user's row after an operation; a failed operation leaves it as it was. */
  function Step(row: Option<Card>, op: Op): Option<Card>
  {
    match op
    case Cut => Some(AfterCut(row))
    case RemoveCut => if row.None? then None else Some(AfterRemoveCut(row.value))
    case Claim => if AfterClaim(row).Some? then AfterClaim(row) else row
  }

  /** One user's row after a series of operations, applied left to right. */
  function Run(row: Option<Card>, ops: seq<Op>): Option<Card>
    decreases |ops|
  {
    if ops == [] then row else Run(Step(row, ops[0]), ops[1..])
  }

  /** Every operation keeps a consistent row consistent. */
  lemma StepPreservesConsistent(row: Option<Card>, op: Op)
    requires row.Some? ==> Consistent(row.value)
    ensures Step(row, op).Some? ==> Consistent(Step(row, op).value)
  {
  }

  /** Every row an admin can produce, starting from no row, is consistent:
      a claimed card has no cuts, and cuts are never negative. */
  lemma {:induction false} RunPreservesConsistent(row: Option<Card>, ops: seq<Op>)
    requires row.Some? ==> Consistent(row.value)
    ensures Run(row, ops).Some? ==> Consistent(Run(row, ops).value)
    decreases |ops|
  {
    if ops != [] {
      StepPreservesConsistent(row, ops[0]);
      RunPreservesConsistent(Step(row, ops[0]), ops[1..]);
    }
  }

  /** `n` consecutive "add cut"s. */
  function Cuts(n: nat): (ops: seq<Op>)
    ensures |ops| == n && forall k :: 0 <= k < n ==> ops[k] == Cut
  {
    seq(n, _ => Cut)
  }

  /** `n` "add cut"s on an unclaimed card add exactly `n`: the counter is not capped. */
  lemma {:induction false} RunCuts(c: Card, n: nat)
    requires !c.claimed
    ensures Run(Some(c), Cuts(n)) == Some(Card(c.cuts + n, false))
    decreases n
  {
    if n > 0 {
      assert Cuts(n)[1..] == Cuts(n - 1);
      RunCuts(Card(c.cuts + 1, false), n - 1);
    }
  }

  /** `n` "remove cut"s never take the counter below zero. */
  lemma {:induction false} RunRemoveCuts(c: Card, n: nat)
    requires c.cuts >= 0
    ensures Run(Some(c), RemoveCuts(n)) == Some(Card(if c.cuts - n > 0 then c.cuts - n else 0, c.claimed))
    decreases n
  {
    if n > 0 {
      assert RemoveCuts(n)[0] == RemoveCut && RemoveCuts(n)[1..] == RemoveCuts(n - 1);
      assert Run(Some(c), RemoveCuts(n)) == Run(Some(AfterRemoveCut(c)), RemoveCuts(n - 1));
      var d := AfterRemoveCut(c);
      RunRemoveCuts(d, n - 1);
    }
  }

  /** `n` consecutive "remove cut"s. */
  function RemoveCuts(n: nat): (ops: seq<Op>)
    ensures |ops| == n && forall k :: 0 <= k < n ==> ops[k] == RemoveCut
  {
    seq(n, _ => RemoveCut)
  }

  lemma {:induction false} RunAppend(row: Option<Card>, a: seq<Op>, b: seq<Op>)
    ensures Run(row, a + b) == Run(Run(row, a), b)
    decreases |a|
  {
    if a == [] {
      assert a + b == b;
    } else {
      assert (a + b)[0] == a[0] && (a + b)[1..] == a[1..] + b;
      RunAppend(Step(row, a[0]), a[1..], b);
    }
  }

  /** A full reward cycle: ten cuts from no row give (10, false), claiming
      then gives (0, true), and one more cut gives (1, false). */
  lemma RewardCycle()
    ensures Run(None, Cuts(10)) == Some(Card(10, false))
    ensures Run(None, Cuts(10) + [Claim]) == Some(Card(0, true))
    ensures Run(None, Cuts(10) + [Claim, Cut]) == Some(Card(1, false))
  {
    assert Cuts(10) == [Cut] + Cuts(9);
    RunCuts(Card(1, false), 9);
    RunAppend(None, Cuts(10), [Claim]);
    RunAppend(None, Cuts(10), [Claim, Cut]);
  }

  /** Claiming succeeds exactly when the user has a row with at least ten
      cuts, and then resets the card to (0, true); otherwise nothing changes. */
  lemma ClaimIffThreshold(row: Option<Card>)
    ensures AfterClaim(row).Some? <==> row.Some? && row.value.cuts >= 10
    ensures AfterClaim(row).Some? ==> Step(row, Claim) == Some(Card(0, true))
    ensures AfterClaim(row).None? ==> Step(row, Claim) == row
  {
  }

  /** The consistent cards are exactly the rows the admin operations can
      produce from a user without a row. */
  lemma {:induction false} ConsistentIffReachable(c: Card)
    ensures Consistent(c) <==> exists ops :: Run(None, ops) == Some(c)
  {
    if Consistent(c) {
      var ops;
      if c.claimed {
        ops := Cuts(10) + [Claim];
        RewardCycle();
      } else if c.cuts == 0 {
        ops := [Cut, RemoveCut];
      } else {
        ops := Cuts(c.cuts);
        assert ops == [Cut] + Cuts(c.cuts - 1);
        RunCuts(Card(1, false), c.cuts - 1);
      }
      assert Run(None, ops) == Some(c);
    }
    if exists ops :: Run(None, ops) == Some(c) {
      var ops :| Run(None, ops) == Some(c);
      RunPreservesConsistent(None, ops);
    }
  }

  /** A `users` row, as far as the loyalty views read it. */
  datatype User = User(id: UserId, name: string, email: string, phone: Option<string>)

  /** A row of the admin list: the user joined with its card. */
  datatype ClientRow = ClientRow(userId: UserId, name: string, email: string, phone: Option<string>,
                                 cuts: int, claimed: bool)

  predicate UniqueIds(users: seq<User>)
  {
    forall i, j :: 0 <= i < j < |users| ==> users[i].id != users[j].id
  }

  predicate HasUser(users: seq<User>, u: UserId)
  {
    exists i | 0 <= i < |users| :: users[i].id == u
  }

  /** What the LEFT JOIN reports for a user: its row, or the defaults. */
  function CardOf(cards: map<UserId, Card>, u: UserId): (c: Card)
    ensures u !in cards ==> c == Default
  {
    if u in cards then cards[u] else Default
  }

  function Lookup(cards: map<UserId, Card>, u: UserId): Option<Card>
  {
    if u in cards then Some(cards[u]) else None
  }

  /** `users LEFT JOIN loyalty`, one row per user, in table order. */
  function Join(users: seq<User>, cards: map<UserId, Card>): (rows: seq<ClientRow>)
    ensures |rows| == |users|
    ensures forall k :: 0 <= k < |users| ==>
      && rows[k].userId == users[k].id && rows[k].name == users[k].name
      && rows[k].email == users[k].email && rows[k].phone == users[k].phone
      && Card(rows[k].cuts, rows[k].claimed) == CardOf(cards, users[k].id)
  {
    seq(|users|, k requires 0 <= k < |users| => RowOf(users[k], cards))
  }

  /** Any reordering of the join names exactly the users. */
  lemma JoinNamesUsers(users: seq<User>, cards: map<UserId, Card>, rows: seq<ClientRow>)
    requires multiset(rows) == multiset(Join(users, cards))
    ensures forall u :: HasUser(users, u) <==> exists row :: row in rows && row.userId == u
  {
    var joined := Join(users, cards);
    forall u
      ensures HasUser(users, u) <==> exists row :: row in rows && row.userId == u
    {
      if HasUser(users, u) {
        var i :| 0 <= i < |users| && users[i].id == u;
        assert joined[i] in multiset(rows);
      }
      if exists row :: row in rows && row.userId == u {
        var row :| row in rows && row.userId == u;
        assert row in multiset(joined);
        var k :| 0 <= k < |joined| && joined[k] == row;
        assert users[k].id == u;
      }
    }
  }

  /** With unique user ids, the join reports every user exactly once and no
      one else, each with its card or the defaults. */
  lemma JoinOneRowPerUser(users: seq<User>, cards: map<UserId, Card>, u: UserId)
    requires UniqueIds(users)
    ensures var rows := Join(users, cards);
      && (HasUser(users, u) <==> exists k :: 0 <= k < |rows| && rows[k].userId == u)
      && (forall k, l :: 0 <= k < l < |rows| ==> rows[k].userId != rows[l].userId)
      && (forall k :: 0 <= k < |rows| && rows[k].userId == u ==>
            Card(rows[k].cuts, rows[k].claimed) == CardOf(cards, u))
  {
    var rows := Join(users, cards);
    if HasUser(users, u) {
      var i :| 0 <= i < |users| && users[i].id == u;
      assert rows[i].userId == u;
    }
  }

  function RowOf(user: User, cards: map<UserId, Card>): ClientRow
  {
    var c := CardOf(cards, user.id);
    ClientRow(user.id, user.name, user.email, user.phone, c.cuts, c.claimed)
  }

  /** ORDER BY u.name ASC. */
  predicate NameLe(a: ClientRow, b: ClientRow)
  {
    LexLe(a.name, b.name)
  }

  lemma NameOrder()
    ensures TotalPreorder(NameLe)
  {
    LexLeLaws();
  }

  /** The error answers of the routes: 404 for "remove cut" without a row,
      400 for a claim that matched no row, 500 for a failed statement. */
  datatype LoyaltyError = NotFound | Rejected | Internal

  /** The `users` and `loyalty` tables. The map holds at most one card per
      user (UNIQUE (user_id)), and only for existing users (the foreign key). */
  class LoyaltyTable {
    var users: seq<User>
    var cards: map<UserId, Card>

    ghost predicate Valid()
      reads this
    {
      && UniqueIds(users)
      && (forall u :: u in cards ==> HasUser(users, u) && Consistent(cards[u]))
    }

    /** An empty `loyalty` table over the given users. */
    constructor (users: seq<User>)
      requires UniqueIds(users)
      ensures Valid() && this.users == users && cards == map[]
    {
      this.users := users;
      cards := map[];
    }

    /** GET /loyalty/me: the caller's card, or the defaults when the caller
        has no card or is not in `users` at all. */
    function Me(u: UserId): (c: Card)
      reads this
      requires Valid()
      ensures Consistent(c)
      ensures u in cards ==> c == cards[u]
      ensures u !in cards ==> c == Default
    {
      if !HasUser(users, u) then Default else CardOf(cards, u)
    }

    /** GET /loyalty: every user exactly once, joined with its card (the
        defaults when it has none), ordered by name. */
    function Clients(): (rows: seq<ClientRow>)
      reads this
      requires Valid()
      ensures SortedBy(rows, NameLe)
      ensures multiset(rows) == multiset(Join(users, cards))
      ensures forall row :: row in rows ==> Card(row.cuts, row.claimed) == Me(row.userId)
      ensures forall u :: HasUser(users, u) <==> exists row :: row in rows && row.userId == u
    {
      NameOrder();
      var rows := SortBy(Join(users, cards), NameLe);
      assert forall row :: row in rows ==> row in multiset(Join(users, cards));
      JoinNamesUsers(users, cards, rows);
      rows
    }

    /** POST /loyalty/:userId/cut: the upsert. A user id that is not in
        `users` violates the foreign key and the route answers 500. */
    method AddCut(u: UserId) returns (r: Result<Card, LoyaltyError>)
      requires Valid()
      modifies this
      ensures Valid() && users == old(users)
      ensures !HasUser(users, u) ==> r == Err(Internal) && cards == old(cards)
      ensures HasUser(users, u) ==> r == Ok(AfterCut(Lookup(old(cards), u))) && cards == old(cards)[u := r.value]
      ensures HasUser(users, u) ==> Lookup(cards, u) == Step(Lookup(old(cards), u), Op.Cut)
    {
      if !HasUser(users, u) {
        return Err(Internal);
      }
      var c := AfterCut(Lookup(cards, u));
      cards := cards[u := c];
      r := Ok(c);
    }

    /** POST /loyalty/:userId/remove-cut: 404 when the user has no card. */
    method RemoveCut(u: UserId) returns (r: Result<Card, LoyaltyError>)
      requires Valid()
      modifies this
      ensures Valid() && users == old(users)
      ensures u !in old(cards) ==> r == Err(NotFound) && cards == old(cards)
      ensures u in old(cards) ==> r == Ok(AfterRemoveCut(old(cards)[u])) && cards == old(cards)[u := r.value]
      ensures Lookup(cards, u) == Step(Lookup(old(cards), u), Op.RemoveCut)
    {
      if u !in cards {
        return Err(NotFound);
      }
      var c := AfterRemoveCut(cards[u]);
      cards := cards[u := c];
      r := Ok(c);
    }

    /** POST /loyalty/:userId/claim: 400 unless the user has a card with at
        least ten cuts; then the card becomes (0, true). */
    method Claim(u: UserId) returns (r: Result<Card, LoyaltyError>)
      requires Valid()
      modifies this
      ensures Valid() && users == old(users)
      ensures !(u in old(cards) && old(cards)[u].cuts >= Threshold) ==> r == Err(Rejected) && cards == old(cards)
      ensures u in old(cards) && old(cards)[u].cuts >= Threshold ==>
                r == Ok(Card(0, true)) && cards == old(cards)[u := Card(0, true)]
      ensures Lookup(cards, u) == Step(Lookup(old(cards), u), Op.Claim)
    {
      var c := AfterClaim(Lookup(cards, u));
      if c.None? {
        return Err(Rejected);
      }
      cards := cards[u := c.value];
      r := Ok(c.value);
    }
  }
}
