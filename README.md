# Aldebert Barber: booking ledger, loyalty card and booking-page helpers in Dafny

This project models the core of a small barbershop back end and its browser script:

- the **loyalty punch card**. The `loyalty` table holds one `(cuts_completed, reward_claimed)` card per user. Admins change it with "add cut", "remove cut" and "claim". `/me` and the admin list read it.
- the **appointment ledger**. The `appointments` table is changed by booking and delete and read by availability and the sorted admin list. Its constraints are a serial id, the status default `'Confirmado'` and `UNIQUE (date, time)`.
- the **pure helpers of `site.js`**: the phone mask, the fixed schedule and price list, the free-slot computation, the booking-form checks, the lightbox index wrap, and the dashboard derivations (cancelled-row filter, ready count, loyalty dots and buttons, client search).

Layout, one module per file:

| file | module | models |
|---|---|---|
| `loyalty.dfy` | `Loyalty` | the card state machine (`AfterCut`, `AfterRemoveCut`, `AfterClaim`, `Step`, `Run`) and the class `LoyaltyTable` (users plus the card map) with the five routes |
| `appointments.dfy` | `Appointments` | the booking schema, availability, (date, time) order, delete filter and the class `AppointmentTable` (rows plus the id sequence) |
| `site_booking.dfy` | `SiteBooking` | `SERVICES`, `ALL_TIMES`, `phoneMask`, free slots, the submit checks |
| `site_gallery.dfy` | `SiteGallery` | JavaScript `%`, `lbNav`, the class `Lightbox` |
| `site_dashboard.dfy` | `SiteDashboard` | the cancelled filter, ready count, dot loop, card buttons, search |
| `site_text.dfy` | `SiteText` | JavaScript `trim`, `toLowerCase`, `includes`, `replace(/\D/g, "")` and `length` (UTF-16 code units, which the name check and zod's `min` use) |
| `seqs.dfy`, `sorting.dfy`, `lex_order.dfy`, `wrappers.dfy` | helpers | order-preserving filter, insertion sort under a total preorder, code-point string order, `Option`/`Result` |

Each SQL statement is one atomic step on an in-memory table. A route's error answer is an `Err` value: 400, 404, 409 and 500 become `Invalid`/`Rejected`/`MissingDate`, `NotFound`, `Conflict` and `Internal`. The admin routes are modelled for an already authorized caller.

Behaviour a loyalty and booking system might be expected to have but the code does not; the model leaves it out as well:

- "add cut" has no cap at 10: the counter keeps growing.
- Delete is a physical `DELETE`; no route marks a row 'Cancelado'.
- Booking never attaches a user, so `user_id` stays empty.
- `UNIQUE (date, time)` covers rows of every status, not only confirmed ones.
- There is no route for a customer to cancel their own booking or list their appointments.

Three points come from PostgreSQL rather than from the JavaScript:

- A booking whose `INSERT` fails on `UNIQUE (date, time)` still consumes a value of the id sequence. `Book` therefore advances `nextId` on that `Conflict` while leaving the rows untouched.
- Some bookings pass the schema but fail before any id is drawn. Either `price` exceeds 2147483647, the largest INTEGER (server/src/server.js:112), or a text field holds a NUL character, which TEXT cannot store. The same happens when the id sequence is exhausted past 2147483647. The route answers all of these with 409, and so does `Book`, with nothing changed.
- "Add cut" for a user id with no `users` row violates the foreign key (server/src/server.js:122). The route answers that with 500, so it is modelled as `Err(Internal)`.

## Model

| member | source | states |
|---|---|---|
| `Loyalty.AfterCut` | server/src/routes/loyalty.js:51-64 | on a consistent card (a missing row counting as (0,false)) the upsert's three branches amount to one more cut and an unclaimed card |
| `Loyalty.AfterRemoveCut` | server/src/routes/loyalty.js:77-83 | one cut fewer, never below zero, with `reward_claimed` kept |
| `Loyalty.AfterClaim` | server/src/routes/loyalty.js:98-105 | a claim only succeeds on an existing row with at least 10 cuts, and then yields the consistent card (0,true) |
| `Loyalty.StepPreservesConsistent` | server/src/routes/loyalty.js:51-105 | `Step`, one admin operation on a user's row, where a failed operation leaves the row as it was: each of add cut, remove cut and claim keeps `cuts >= 0` and `claimed ==> cuts == 0` |
| `Loyalty.RunPreservesConsistent` | server/src/routes/loyalty.js:51-105 | `Run`, a series of admin operations: every series keeps the card invariant |
| `Loyalty.ConsistentIffReachable` | server/src/routes/loyalty.js:51-105 | a card is consistent exactly when some series of operations from "no row" produces it (both directions) |
| `Loyalty.RunCuts` | server/src/routes/loyalty.js:55-58 | `n` add-cuts on an unclaimed card add exactly `n`, with no cap at 10 |
| `Loyalty.RunRemoveCuts` | server/src/routes/loyalty.js:77-83 | `n` remove-cuts give `max(c - n, 0)` and keep `reward_claimed` |
| `Loyalty.RewardCycle` | server/src/routes/loyalty.js:51-105 | from no row, ten cuts give (10,false), a claim gives (0,true), one more cut gives (1,false) |
| `Loyalty.ClaimIffThreshold` | server/src/routes/loyalty.js:98-108 | a claim succeeds iff a row exists with `cuts >= 10`; it then gives (0,true), otherwise nothing changes |
| `Loyalty.CardOf` | server/src/routes/loyalty.js:11-12 | a user without a row reads as the defaults (0,false) |
| `Loyalty.Join` | server/src/routes/loyalty.js:31-36 | row `k` of the left join carries user `k`'s id, name, e-mail and phone and that user's card or the defaults |
| `Loyalty.JoinOneRowPerUser` | server/src/routes/loyalty.js:31-36 | with unique user ids, a user id appears in the join iff it is a user, in exactly one row, carrying `CardOf` of that id |
| `Loyalty.JoinNamesUsers` | server/src/routes/loyalty.js:30-37 | any reordering of the join names exactly the users |
| `Loyalty.NameOrder` | server/src/routes/loyalty.js:37 | ordering clients by name is a total preorder |
| `Loyalty.LoyaltyTable.constructor` | server/src/server.js:120-128 | new table: the given users and no cards |
| `Loyalty.LoyaltyTable.Me` | server/src/routes/loyalty.js:10-20 | the caller's card if it has a row, (0,false) otherwise; always consistent |
| `Loyalty.LoyaltyTable.Clients` | server/src/routes/loyalty.js:30-39 | a permutation of the join, sorted by name, that names exactly the users; each row carries `Me` of its user |
| `Loyalty.LoyaltyTable.AddCut` | server/src/routes/loyalty.js:51-70 | unknown user gives Internal with nothing changed; no row gives (1,false); (c,true) gives (1,false); (c,false) gives (c+1,false); only that user's card changes |
| `Loyalty.LoyaltyTable.RemoveCut` | server/src/routes/loyalty.js:77-87 | no row gives NotFound with nothing created; otherwise (max(c-1,0), b), and only that card changes |
| `Loyalty.LoyaltyTable.Claim` | server/src/routes/loyalty.js:98-109 | Rejected with nothing changed unless a row has `cuts >= 10`; then that card alone becomes (0,true) |
| `Appointments.BookedTimes` | server/src/routes/appointments.js:23-27 | a time is returned iff some row on that date with status 'Confirmado' has it |
| `Appointments.BookedTimesAppend` | server/src/routes/appointments.js:23-27 | appending a row adds its time to the answer exactly when it is a confirmed row on that date |
| `Appointments.BookedAfterBooking` | server/src/routes/appointments.js:23-27 | after a confirmed row is inserted at (d,t), `t` is among the booked times of `d` |
| `Appointments.BookedTimesDistinct` | server/src/server.js:115 | under UNIQUE (date, time) no time is reported twice |
| `Appointments.SlotOrder` | server/src/routes/appointments.js:55 | `SlotLe`, the order by date and then time, is a total preorder |
| `Appointments.SchemaByCharCount` | server/src/routes/appointments.js:8-15 | `SchemaOk`, the zod schema with lengths in UTF-16 code units: a request whose fields have the minimum number of characters and a positive price passes it |
| `Appointments.WithoutId` | server/src/routes/appointments.js:67 | after the delete, a row remains iff it was there and has another id; order is kept |
| `Appointments.WithoutIdKeepsSlots` | server/src/server.js:115 | deleting keeps at most one row per (date, time) |
| `Appointments.WithoutIdKeepsIds` | server/src/server.js:105 | deleting keeps ids unique and below the sequence value |
| `Appointments.AppointmentTable.constructor` | server/src/server.js:104-117 | new table: no rows, sequence at 1 |
| `Appointments.AppointmentTable.Availability` | server/src/routes/appointments.js:17-31 | empty date gives MissingDate; otherwise exactly the confirmed times of that date, without repeats |
| `Appointments.AppointmentTable.Book` | server/src/routes/appointments.js:34-49 | fails the schema: Invalid, nothing changes; price above 2147483647, a NUL in a text field or an exhausted sequence: Conflict, nothing changes; slot held by any row: Conflict, rows unchanged, one id consumed; otherwise appends exactly one 'Confirmado' row with a fresh id, the given fields and no user; one row per slot is kept |
| `Appointments.AppointmentTable.List` | server/src/routes/appointments.js:52-61 | a permutation of the table sorted by date, then time |
| `Appointments.AppointmentTable.Delete` | server/src/routes/appointments.js:64-73 | removes exactly the rows with that id, keeps the rest in order, and reports success either way |
| `SiteText.Digits` | site.js:98 | a subsequence of the input made of digits only, as long as the number of digits in the input: every digit kept, in order |
| `SiteText.Trim` | site.js:406-407 | the result is the input without leading and trailing white space, `IsJsSpace` being ECMAScript's WhiteSpace and LineTerminator set |
| `SiteText.LowerChar` | site.js:765 | changes exactly the ASCII capitals, each to the letter 32 code points on, and never yields a capital |
| `SiteText.Lower` | site.js:765-772 | maps every character with `LowerChar`, keeping the length; no ASCII capital remains |
| `SiteText.JsLength` | site.js:413 | JavaScript's `length`: between the character count and twice it |
| `SiteText.JsLengthCountsAstral` | site.js:413 | the UTF-16 length is the character count plus the number of characters above U+FFFF |
| `SiteText.TrimLower` | site.js:765 | trimming and lower-casing commute, and lower-casing is idempotent |
| `SiteBooking.TimeOrderIsChronological` | site.js:32-36 | for zero-padded `HH:MM` tokens, string order is clock order (both directions) |
| `SiteBooking.AllTimesWellFormed` | site.js:32-36 | `AllTimes`, the schedule: 17 valid tokens in strictly increasing order |
| `SiteBooking.FreeSlots` | site.js:374 | a slot is free iff it is in `ALL_TIMES` and not booked; schedule order is kept |
| `SiteBooking.FreeSlotsPartition` | site.js:550 | the free and booked slots are disjoint and together cover `ALL_TIMES`; free slots are strictly increasing |
| `SiteBooking.MaskedDigits` | site.js:98 | the prefix of length `min(11, n)` of the input's `n` digits |
| `SiteBooking.LayoutDigits` | site.js:99-101 | `Layout`, the three shapes of the mask: its punctuation adds no digits |
| `SiteBooking.PhoneMask` | site.js:97-102 | the digits of the masked phone are exactly the first 11 digits of the input, in order |
| `SiteBooking.PhoneMaskIdempotent` | site.js:354-356 | re-masking a masked value changes nothing |
| `SiteBooking.PhoneMaskLayout` | site.js:99-101 | length `n+1`, `n+3` or `n+4`; '(' first; ") " after two digits; '-' after seven; nothing for `trim` to remove |
| `SiteBooking.CheckBooking` | site.js:403-428 | MissingField iff a field is empty after trimming name and phone; ShortName iff otherwise the trimmed name is under 3 UTF-16 code units; BadPhone iff otherwise the phone has under 10 digits; submits iff all fields are filled, the trimmed name has at least 3 code units and the phone at least 10 digits; sends service, date and time unchanged, the trimmed name and phone, and `SERVICES[service]`, or no price for an unlisted service |
| `SiteBooking.AstralNameSubmits` | site.js:413 | a trimmed two-character name whose second character is astral, such as "A😀", passes the name check |
| `SiteBooking.ServicesPassSchema` | site.js:25-30 | `Services`, the price list: every listed service has a name of at least 3 code units and a positive price |
| `SiteBooking.ServicesFitInteger` | server/src/server.js:112 | every listed price fits the INTEGER price column, so `StoreAccepts` never fails on the price of a form booking |
| `SiteBooking.FormPassesServerSchema` | site.js:423-430 | a submitted booking of a listed service, a date and a schedule slot passes the server's schema |
| `SiteBooking.MaskedPhonePasses` | site.js:417-418 | a masked phone with 10 or more digits passes the form's phone check |
| `SiteBooking.BookingScenario` | server/src/routes/appointments.js:34-49 | booking "Corte Social" at 2025-06-10 09:00 succeeds, confirmed, at 90; rebooking the slot gets Conflict; a price of 3000000000 gets Conflict; availability lists "09:00" |
| `SiteGallery.JsRem` | site.js:185 | JavaScript's `%`: truncating remainder with the sign of the dividend |
| `SiteGallery.NavIndex` | site.js:185 | for `0 <= i < n` and `dir = ±1` the result lies in `[0, n)` and equals `(i + dir) mod n` |
| `SiteGallery.NavWraps` | site.js:184-188 | next from the last image gives 0; previous from the first gives `n-1`; otherwise moves by one |
| `SiteGallery.NavInverse` | site.js:192-193 | next then previous, and previous then next, return to the same image |
| `SiteGallery.Lightbox.constructor` | site.js:168-169 | new lightbox: index 0 over the gallery's image count |
| `SiteGallery.Lightbox.Open` | site.js:171-172 | opening image `idx` sets the index to `idx` |
| `SiteGallery.Lightbox.Nav` | site.js:184-188 | the index becomes `(old + dir) mod count` and stays in range |
| `SiteDashboard.ActiveAppointments` | site.js:540 | a row is kept iff it is present and not 'Cancelado'; order is kept |
| `SiteDashboard.ActiveKeepsOrder` | site.js:540 | filtering a (date, time)-sorted list keeps it sorted |
| `SiteDashboard.ActiveOfConfirmed` | site.js:540 | on rows the server wrote (all 'Confirmado') the filter keeps everything |
| `SiteDashboard.ReadyCount` | site.js:551 | the number of clients with at least 10 cuts; zero iff none is ready |
| `SiteDashboard.Dots` | site.js:692-695 | ten dots |
| `SiteDashboard.RenderDots` | site.js:692-695 | the loop yields ten dots; dot `i` is filled iff `i <= cuts`, otherwise it shows `i` |
| `SiteDashboard.DotsFilled` | site.js:693-694 | exactly `min(cuts, 10)` dots are filled (0 for a negative count) |
| `SiteDashboard.ViewMatchesServer` | site.js:688-715 | `View`, a client's card on the dashboard: claim button iff the server's claim would succeed, add button otherwise; remove button iff remove-cut would change the card |
| `SiteDashboard.Search` | site.js:765-774 | with `Query` the trimmed, lower-cased text and `Matches` the `includes` test on name or e-mail: an empty trimmed query returns all clients; otherwise returns, in order, those whose lower-cased name or e-mail contains the lower-cased query |
| `SiteDashboard.SearchIdempotent` | site.js:770-773 | searching again with the same query changes nothing |
| `SiteDashboard.SearchCaseInsensitive` | site.js:765-772 | lower-casing the query first does not change the result |

## Left out

- HTTP wiring and access control: Express routing, `authenticate`, JWT signing and bcrypt (server/src/routes/auth.js, server/src/middleware/auth.js) are foreign library calls.
- `requireAdmin`: server/src/routes/loyalty.js:3 imports it from server/src/middleware/auth.js, which exports only `authenticate` (lines 1-18). Loading that module therefore fails. server/src/server.js:11 imports the loyalty router statically, so the server as written cannot start. The model assumes a working admin check, and the loyalty admin methods assume an authorized caller.
- The database connection pool (server/src/db.js) and the DDL run at start-up (server/src/server.js). The tables are in-memory fields, and each statement is one atomic step, without concurrency.
- The `created_at`/`updated_at` timestamps and the clock-dependent `todayStr`/`getTodayStr`, including the dashboard's "today" panel: they need a clock.
- Store failures of the loyalty routes other than the foreign key in "add cut", such as a lost connection. Each is answered 500 and is not modelled. In booking, every failure of the INSERT is answered 409, including an unreachable database. The model covers the failures caused by the request itself or by the UNIQUE constraint, but not one caused by the database being unavailable.
- Loyalty.LoyaltyTable.AddCut: `cuts_completed` is a 32-bit INTEGER (server/src/server.js:123). An add cut on a card at 2147483647 fails with 500, but the model keeps counting.
- Loyalty.RunCuts: "no cap at 10" holds only while the total stays at or below 2147483647, for the same reason.
- PostgreSQL type coercion:
  - date strings that are not dates, or different spellings of one date, are treated as plain strings; a bad date on booking would also surface as 409;
  - a non-numeric `:id`/`:userId` would be a 500;
  - zod's type checks on non-string fields and a non-integer `price` stored into an INTEGER column are not modelled.
- Appointments.AppointmentTable.Availability: the SQL has no ORDER BY, so row order is unspecified; the model returns storage order.
- Appointments.AppointmentTable.List and Loyalty.LoyaltyTable.Clients: strings compare by code point (C collation), not the database's locale collation. Rows with equal keys come out in one fixed order, where SQL leaves their order unspecified.
- SiteText.Lower: only ASCII letters are lower-cased; JavaScript's full Unicode case mapping is not modelled.
- site.js plumbing: DOM updates, `fetch`/`api`, `localStorage` (`saveAuth`, `clearAuth`, the role checks), scroll, parallax, AOS/lucide, the register/login forms, the HTML of the appointment and slot panels, and the fall-back to all of `ALL_TIMES` when the availability request fails.
- The `cuts_completed || 0` guard in the card view: cuts are always integers here, because the list route applies COALESCE.
