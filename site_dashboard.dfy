/** The admin dashboard's derivations in site.js: the cancelled-row filter,
    the count of clients ready for their reward, the loyalty card's dots and
    buttons, and the client search. */
module SiteDashboard {

  import opened Seqs
  import opened Sorting
  import opened SiteText
  import opened Loyalty
  import opened Appointments

  /** The status the dashboard hides. */
  const Cancelled := "Cancelado"

  /** `appointments.filter(a => a.status !== "Cancelado")`. */
  function ActiveAppointments(appts: seq<Appointment>): (r: seq<Appointment>)
    ensures forall a :: a in r <==> a in appts && a.status != Cancelled
    ensures Subseq(r, appts)
  {
    Filter(appts, (a: Appointment) => a.status != Cancelled)
  }

  /** Hiding cancelled rows keeps the server's (date, time) order. */
  lemma ActiveKeepsOrder(appts: seq<Appointment>)
    requires SortedBy(appts, SlotLe)
    ensures SortedBy(ActiveAppointments(appts), SlotLe)
  {
    SubseqSorted(ActiveAppointments(appts), appts, SlotLe);
  }

  /** Nothing the server writes is cancelled, so the dashboard shows every
      row of the list. */
  lemma ActiveOfConfirmed(appts: seq<Appointment>)
    requires forall a :: a in appts ==> a.status == Confirmed
    ensures ActiveAppointments(appts) == appts
  {
    FilterAll(appts, (a: Appointment) => a.status != Cancelled);
  }

  predicate IsReady(c: ClientRow)
  {
    c.cuts >= Threshold
  }

  /** `clients.filter(c => c.cuts_completed >= 10).length`. */
  function ReadyCount(clients: seq<ClientRow>): (n: nat)
    ensures n <= |clients|
    ensures n == 0 <==> forall c :: c in clients ==> !IsReady(c)
    ensures n == Count(clients, IsReady)
  {
    FilterCount(clients, IsReady);
    FilterEmpty(clients, IsReady);
    |Filter(clients, IsReady)|
  }

  /** A progress dot: filled, or showing its position. */
  datatype Dot = Filled | Numbered(position: int)

  /** The ten dots of a card with `cuts` cuts. */
  function Dots(cuts: int): (dots: seq<Dot>)
    ensures |dots| == 10
  {
    seq(10, k => if k + 1 <= cuts then Filled else Numbered(k + 1))
  }

  predicate IsFilled(d: Dot)
  {
    d.Filled?
  }

  /** The dot loop of `renderClients`: dot `i` (1 to 10) is filled when
      `i <= cuts` and otherwise shows `i`. */
  method RenderDots(cuts: int) returns (dots: seq<Dot>)
    ensures dots == Dots(cuts)
  {
    dots := [];
    for i := 1 to 11
      invariant |dots| == i - 1
      invariant forall k :: 0 <= k < i - 1 ==> dots[k] == (if k + 1 <= cuts then Filled else Numbered(k + 1))
    {
      dots := dots + [if i <= cuts then Filled else Numbered(i)];
    }
  }

  /** Exactly min(cuts, 10) of the ten dots are filled (none for a negative count). */
  lemma DotsFilled(cuts: int)
    ensures Count(Dots(cuts), IsFilled) == if cuts < 0 then 0 else if cuts > 10 then 10 else cuts
  {
    FilledPrefix(cuts, 10);
    assert Dots(cuts)[..10] == Dots(cuts);
  }

  lemma {:induction false} FilledPrefix(cuts: int, k: nat)
    requires k <= 10
    ensures Count(Dots(cuts)[..k], IsFilled) == if cuts < 0 then 0 else if cuts > k then k else cuts
    decreases k
  {
    if k > 0 {
      FilledPrefix(cuts, k - 1);
      assert Dots(cuts)[..k] == Dots(cuts)[..k - 1] + [Dots(cuts)[k - 1]];
      CountSnoc(Dots(cuts)[..k - 1], Dots(cuts)[k - 1], IsFilled);
    }
  }

  /** The larger action button: claim the reward, or add a cut. */
  datatype Primary = ClaimButton | AddButton

  /** What a client's card shows. */
  datatype CardView = CardView(complete: bool, dots: seq<Dot>, primary: Primary, showRemove: bool)

  function View(client: ClientRow): CardView
  {
    var cuts := client.cuts;
    var complete := cuts >= Threshold;
    CardView(complete, Dots(cuts), if complete then ClaimButton else AddButton, cuts > 0)
  }

  /** The buttons offered for a user agree with what the server will do: the
      claim button appears exactly when the claim will succeed (and "add
      cut" otherwise), and the remove button exactly when removing a cut
      changes the card. */
  lemma ViewMatchesServer(cards: map<UserId, Card>, user: User)
    requires forall u :: u in cards ==> Consistent(cards[u])
    ensures var v, row := View(RowOf(user, cards)), Lookup(cards, user.id);
      && (v.primary == ClaimButton <==> AfterClaim(row).Some?)
      && (v.primary == AddButton <==> AfterClaim(row).None?)
      && (v.showRemove <==> Step(row, Op.RemoveCut) != row)
      && (v.complete <==> IsReady(RowOf(user, cards)))
  {
  }

  /** The lower-cased search text; empty means "show everyone". */
  function Query(raw: string): string
  {
    Lower(Trim(raw))
  }

  predicate Matches(c: ClientRow, q: string)
  {
    Includes(Lower(c.name), q) || Includes(Lower(c.email), q)
  }

  /** The search box: every client for an empty query, otherwise, in list
      order, the clients whose lower-cased name or e-mail contains it. */
  function Search(clients: seq<ClientRow>, raw: string): (r: seq<ClientRow>)
    ensures Subseq(r, clients)
    ensures Trim(raw) == "" ==> r == clients
    ensures Trim(raw) != "" ==> forall c :: c in r <==> c in clients && Matches(c, Query(raw))
  {
    var q := Query(raw);
    if q == "" then
      SubseqRefl(clients);
      clients
    else
      Filter(clients, (c: ClientRow) => Matches(c, q))
  }

  /** Searching the result of a search again changes nothing. */
  lemma SearchIdempotent(clients: seq<ClientRow>, raw: string)
    ensures Search(Search(clients, raw), raw) == Search(clients, raw)
  {
    var q := Query(raw);
    if q != "" {
      FilterIdempotent(clients, (c: ClientRow) => Matches(c, q));
    }
  }

  /** The search ignores the case of the query. */
  lemma SearchCaseInsensitive(clients: seq<ClientRow>, raw: string)
    ensures Search(clients, Lower(raw)) == Search(clients, raw)
  {
    TrimLower(raw);
  }
}
