/** The `appointments` table and the routes over it: availability, booking,
    the admin list and delete (server/src/routes/appointments.js), with the
    table's constraints from its schema (SERIAL id, status default
    'Confirmado', UNIQUE (date, time)). */
module Appointments {

  import opened Wrappers
  import opened Seqs
  import opened LexOrder
  import opened Sorting
  import opened SiteText

  /** The status column's default; no route ever writes another status. */
  const Confirmed := "Confirmado"

  /** An `appointments` row. `date` and `time` are kept as the strings the
      client sends; `userId` is the nullable owner reference. */
  datatype Appointment = Appointment(id: int, userId: Option<int>, service: string, date: string,
                                     time: string, name: string, phone: string, price: int,
                                     status: string)

  /** The body of POST /appointments. */
  datatype Request = Request(service: string, date: string, time: string, name: string,
                             phone: string, price: int)

  /** `appointmentSchema`: minimum string lengths, counted in UTF-16 code
      units as JavaScript does, and a positive price. */
  predicate SchemaOk(req: Request)
  {
    && JsLength(req.service) >= 3
    && JsLength(req.date) >= 8
    && JsLength(req.time) >= 4
    && JsLength(req.name) >= 3
    && JsLength(req.phone) >= 8
    && req.price > 0
  }

  /** A request whose fields have the minimum number of characters passes
      the schema, since no character is less than one UTF-16 code unit. */
  lemma SchemaByCharCount(req: Request)
    requires |req.service| >= 3 && |req.date| >= 8 && |req.time| >= 4
    requires |req.name| >= 3 && |req.phone| >= 8 && req.price > 0
    ensures SchemaOk(req)
  {
  }

  /** The largest value of a PostgreSQL INTEGER column, and of the sequence
      behind a SERIAL column. */
  const MaxInt32 := 2147483647

  /** A NUL character, which a PostgreSQL TEXT value cannot hold. */
  predicate HasNul(s: string)
  {
    exists i | 0 <= i < |s| :: s[i] == '\0'
  }

  /** The values can be bound to the INSERT's parameters: the price fits the
      INTEGER column and no text field holds a NUL. Otherwise the statement
      fails before it runs. */
  predicate StoreAccepts(req: Request)
  {
    && req.price <= MaxInt32
    && !HasNul(req.service) && !HasNul(req.date) && !HasNul(req.time)
    && !HasNul(req.name) && !HasNul(req.phone)
  }

  /** 400 "Dados inválidos" and 409 "Horário indisponível". */
  datatype BookError = Invalid | Conflict

  /** 400 "Data obrigatória". */
  datatype QueryError = MissingDate

  /** Some row, whatever its status, already holds this (date, time). */
  predicate SlotTaken(rows: seq<Appointment>, date: string, time: string)
  {
    exists i | 0 <= i < |rows| :: rows[i].date == date && rows[i].time == time
  }

  /** UNIQUE (date, time), over every row regardless of status. */
  ghost predicate SlotsUnique(rows: seq<Appointment>)
  {
    forall i, j :: 0 <= i < j < |rows| ==> rows[i].date != rows[j].date || rows[i].time != rows[j].time
  }

  /** The primary key, and every id below the serial's next value. */
  ghost predicate IdsFresh(rows: seq<Appointment>, nextId: int)
  {
    && (forall i :: 0 <= i < |rows| ==> 1 <= rows[i].id < nextId)
    && (forall i, j :: 0 <= i < j < |rows| ==> rows[i].id != rows[j].id)
  }

  /** A row that blocks `time` in the availability answer for `date`. */
  predicate BlocksSlot(a: Appointment, date: string)
  {
    a.date == date && a.status == Confirmed
  }

  /** SELECT time FROM appointments WHERE date = $1 AND status = 'Confirmado',
      in storage order. */
  function BookedTimes(rows: seq<Appointment>, date: string): (r: seq<string>)
    ensures |r| <= |rows|
    ensures forall t :: t in r <==> exists i :: 0 <= i < |rows| && BlocksSlot(rows[i], date) && rows[i].time == t
    decreases |rows|
  {
    if rows == [] then []
    else
      var rest := BookedTimes(rows[1..], date);
      assert forall i :: 0 < i < |rows| ==> rows[i] == rows[1..][i - 1];
      if BlocksSlot(rows[0], date) then [rows[0].time] + rest else rest
  }

  /** Appending a row adds its time to the answer exactly when it blocks the slot. */
  lemma {:induction false} BookedTimesAppend(rows: seq<Appointment>, a: Appointment, date: string)
    ensures BookedTimes(rows + [a], date)
         == BookedTimes(rows, date) + (if BlocksSlot(a, date) then [a.time] else [])
    decreases |rows|
  {
    if rows == [] {
      assert rows + [a] == [a];
    } else {
      assert (rows + [a])[0] == rows[0] && (rows + [a])[1..] == rows[1..] + [a];
      BookedTimesAppend(rows[1..], a, date);
    }
  }

  /** With UNIQUE (date, time), no time is reported twice for a date. */
  lemma {:induction false} BookedTimesDistinct(rows: seq<Appointment>, date: string)
    requires SlotsUnique(rows)
    ensures forall i, j :: 0 <= i < j < |BookedTimes(rows, date)| ==> BookedTimes(rows, date)[i] != BookedTimes(rows, date)[j]
    decreases |rows|
  {
    if rows != [] {
      var rest := BookedTimes(rows[1..], date);
      BookedTimesDistinct(rows[1..], date);
      if BlocksSlot(rows[0], date) {
        forall j | 0 <= j < |rest| ensures rest[j] != rows[0].time {
          assert rest[j] in rest;
          var k :| 0 <= k < |rows[1..]| && BlocksSlot(rows[1..][k], date) && rows[1..][k].time == rest[j];
          assert rows[k + 1] == rows[1..][k];
        }
      }
    }
  }

  /** ORDER BY date ASC, time ASC. */
  predicate SlotLe(a: Appointment, b: Appointment)
  {
    LexLt(a.date, b.date) || (a.date == b.date && LexLe(a.time, b.time))
  }

  lemma SlotOrder()
    ensures TotalPreorder(SlotLe)
  {
    LexLeLaws();
  }

  /** The rows a DELETE … WHERE id = $1 leaves, in storage order. */
  function WithoutId(rows: seq<Appointment>, id: int): (r: seq<Appointment>)
    ensures forall a :: a in r <==> a in rows && a.id != id
    ensures Subseq(r, rows)
  {
    Filter(rows, (a: Appointment) => a.id != id)
  }

  lemma {:induction false} WithoutIdKeepsSlots(rows: seq<Appointment>, id: int)
    requires SlotsUnique(rows)
    ensures SlotsUnique(WithoutId(rows, id))
    decreases |rows|
  {
    if rows != [] {
      var rest := WithoutId(rows[1..], id);
      WithoutIdKeepsSlots(rows[1..], id);
      assert WithoutId(rows, id) == if rows[0].id != id then [rows[0]] + rest else rest;
      if rows[0].id != id {
        forall j | 0 <= j < |rest| ensures rows[0].date != rest[j].date || rows[0].time != rest[j].time {
          assert rest[j] in rest;
          var k :| 0 <= k < |rows[1..]| && rows[1..][k] == rest[j];
          assert rows[k + 1] == rest[j];
        }
      }
    }
  }

  lemma {:induction false} WithoutIdKeepsIds(rows: seq<Appointment>, id: int, nextId: int)
    requires IdsFresh(rows, nextId)
    ensures IdsFresh(WithoutId(rows, id), nextId)
    decreases |rows|
  {
    if rows != [] {
      var rest := WithoutId(rows[1..], id);
      WithoutIdKeepsIds(rows[1..], id, nextId);
      assert WithoutId(rows, id) == if rows[0].id != id then [rows[0]] + rest else rest;
      if rows[0].id != id {
        forall j | 0 <= j < |rest| ensures rows[0].id != rest[j].id {
          assert rest[j] in rest;
          var k :| 0 <= k < |rows[1..]| && rows[1..][k] == rest[j];
          assert rows[k + 1] == rest[j];
        }
      }
    }
  }

  /** The `appointments` table and the next value of its id sequence. */
  class AppointmentTable {
    var rows: seq<Appointment>
    var nextId: int

    ghost predicate Valid()
      reads this
    {
      1 <= nextId <= MaxInt32 + 1 && IdsFresh(rows, nextId) && SlotsUnique(rows)
    }

    constructor ()
      ensures Valid() && rows == [] && nextId == 1
    {
      rows := [];
      nextId := 1;
    }

    /** GET /availability?date=…: the times of the confirmed rows on `date`. */
    function Availability(date: string): (r: Result<seq<string>, QueryError>)
      reads this
      requires Valid()
      ensures r.Err? <==> date == ""
      ensures r.Ok? ==> forall t :: t in r.value <==>
                exists i :: 0 <= i < |rows| && rows[i].date == date && rows[i].status == Confirmed && rows[i].time == t
      ensures r.Ok? ==> forall i, j :: 0 <= i < j < |r.value| ==> r.value[i] != r.value[j]
    {
      if date == "" then Err(MissingDate)
      else
        BookedTimesDistinct(rows, date);
        Ok(BookedTimes(rows, date))
    }

    /** POST /appointments. Validation first; then the INSERT. It fails
        before drawing an id when a value cannot be stored or the sequence is
        exhausted, and after drawing one when UNIQUE (date, time) rejects the
        row. Every failed INSERT is answered with 409; a sequence value once
        drawn is not given back. */
    method Book(req: Request) returns (r: Result<Appointment, BookError>)
      requires Valid()
      modifies this
      ensures Valid()
      ensures !SchemaOk(req) ==> r == Err(Invalid) && rows == old(rows) && nextId == old(nextId)
      ensures SchemaOk(req) && (!StoreAccepts(req) || old(nextId) > MaxInt32) ==>
                r == Err(Conflict) && rows == old(rows) && nextId == old(nextId)
      ensures SchemaOk(req) && StoreAccepts(req) && old(nextId) <= MaxInt32
              && SlotTaken(old(rows), req.date, req.time) ==>
                r == Err(Conflict) && rows == old(rows) && nextId == old(nextId) + 1
      ensures SchemaOk(req) && StoreAccepts(req) && old(nextId) <= MaxInt32
              && !SlotTaken(old(rows), req.date, req.time) ==>
                && r == Ok(Appointment(old(nextId), None, req.service, req.date, req.time, req.name,
                                       req.phone, req.price, Confirmed))
                && rows == old(rows) + [r.value]
                && nextId == old(nextId) + 1
      ensures r.Ok? ==> forall a :: a in old(rows) ==> a.id != r.value.id
    {
      if !SchemaOk(req) {
        return Err(Invalid);
      }
      if !StoreAccepts(req) || nextId > MaxInt32 {
        return Err(Conflict);
      }
      var id := nextId;
      nextId := nextId + 1;
      if SlotTaken(rows, req.date, req.time) {
        return Err(Conflict);
      }
      var a := Appointment(id, None, req.service, req.date, req.time, req.name, req.phone, req.price, Confirmed);
      rows := rows + [a];
      r := Ok(a);
    }

    /** GET /appointments: every row, ordered by date and then time. */
    function List(): (r: seq<Appointment>)
      reads this
      ensures SortedBy(r, SlotLe)
      ensures multiset(r) == multiset(rows)
    {
      SlotOrder();
      SortBy(rows, SlotLe)
    }

    /** DELETE /appointments/:id: removes the row with that id, if any, and
        answers success either way. */
    method Delete(id: int) returns (ok: bool)
      requires Valid()
      modifies this
      ensures Valid() && ok
      ensures rows == WithoutId(old(rows), id) && nextId == old(nextId)
    {
      WithoutIdKeepsSlots(rows, id);
      WithoutIdKeepsIds(rows, id, nextId);
      rows := WithoutId(rows, id);
      ok := true;
    }
  }

  /** After a successful booking at (d, t), `t` is among the booked times of `d`. */
  lemma BookedAfterBooking(rows: seq<Appointment>, a: Appointment)
    requires a.status == Confirmed
    ensures a.time in BookedTimes(rows + [a], a.date)
  {
    BookedTimesAppend(rows, a, a.date);
  }
}
