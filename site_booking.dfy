/** The booking form's pure helpers in site.js: the service price list, the
    fixed daily schedule, the phone mask, the free-slot computation and the
    form checks run before POST /appointments. */
module SiteBooking {

  import opened Wrappers
  import opened Seqs
  import opened LexOrder
  import opened Sorting
  import opened SiteText
  import Appointments

  /** SERVICES: the price of each service, in whole reais. */
  const Services: map<string, int> := map[
    "Corte Social" := 90,
    "Corte Moderno" := 110,
    "Barba Tradicional" := 70,
    "Combo Corte + Barba" := 150
  ]

  /** ALL_TIMES: the fixed daily schedule. */
  const AllTimes: seq<string> := [
    "09:00", "09:30", "10:00", "10:30", "11:00", "11:30",
    "14:00", "14:30", "15:00", "15:30", "16:00", "16:30",
    "17:00", "17:30", "18:00", "18:30", "19:00"
  ]

  function DigitValue(c: char): int
  {
    c as int - '0' as int
  }

  /** A zero-padded 24-hour "HH:MM" token. */
  predicate IsTimeToken(t: string)
  {
    && |t| == 5 && t[2] == ':'
    && IsDigit(t[0]) && IsDigit(t[1]) && IsDigit(t[3]) && IsDigit(t[4])
    && DigitValue(t[0]) * 10 + DigitValue(t[1]) < 24
    && DigitValue(t[3]) < 6
  }

  /** Minutes since midnight of a time token. */
  function Minutes(t: string): int
    requires IsTimeToken(t)
  {
    (DigitValue(t[0]) * 10 + DigitValue(t[1])) * 60 + DigitValue(t[3]) * 10 + DigitValue(t[4])
  }

  /** For "HH:MM" tokens the string order used by `ORDER BY time` and the
      order of the schedule is the order of the clock. */
  lemma TimeOrderIsChronological(s: string, t: string)
    requires IsTimeToken(s) && IsTimeToken(t)
    ensures LexLe(s, t) <==> Minutes(s) <= Minutes(t)
  {
    var hs, ht := DigitValue(s[0]) * 10 + DigitValue(s[1]), DigitValue(t[0]) * 10 + DigitValue(t[1]);
    var ms, mt := DigitValue(s[3]) * 10 + DigitValue(s[4]), DigitValue(t[3]) * 10 + DigitValue(t[4]);
    assert LexLe(s, t) == (s[0] < t[0] || (s[0] == t[0] && LexLe(s[1..], t[1..])));
    assert LexLe(s[1..], t[1..]) == (s[1] < t[1] || (s[1] == t[1] && LexLe(s[2..], t[2..])));
    assert LexLe(s[2..], t[2..]) == LexLe(s[3..], t[3..]);
    assert LexLe(s[3..], t[3..]) == (s[3] < t[3] || (s[3] == t[3] && LexLe(s[4..], t[4..])));
    assert LexLe(s[4..], t[4..]) == (s[4] < t[4] || (s[4] == t[4] && LexLe(s[5..], t[5..])));
    assert LexLe(s[5..], t[5..]);
    assert LexLe(s, t) <==> hs < ht || (hs == ht && ms <= mt);
    assert Minutes(s) == hs * 60 + ms && Minutes(t) == ht * 60 + mt;
    assert 0 <= ms < 60 && 0 <= mt < 60;
    if hs < ht {
      assert hs * 60 + 60 <= ht * 60;
    } else if hs > ht {
      assert ht * 60 + 60 <= hs * 60;
    }
  }

  /** ALL_TIMES holds 17 well-formed tokens in strictly increasing order, so
      no slot is listed twice and the list is in clock order. */
  lemma AllTimesWellFormed()
    ensures |AllTimes| == 17
    ensures forall k :: 0 <= k < |AllTimes| ==> IsTimeToken(AllTimes[k])
    ensures forall i, j :: 0 <= i < j < |AllTimes| ==> LexLt(AllTimes[i], AllTimes[j])
    ensures forall i, j :: 0 <= i < j < |AllTimes| ==> Minutes(AllTimes[i]) < Minutes(AllTimes[j])
  {
    forall k | 0 <= k < |AllTimes| ensures IsTimeToken(AllTimes[k]) {}
    forall k | 0 <= k < |AllTimes| - 1 ensures Minutes(AllTimes[k]) < Minutes(AllTimes[k + 1]) {}
    MinutesIncreasing(AllTimes);
    forall i, j | 0 <= i < j < |AllTimes| ensures LexLt(AllTimes[i], AllTimes[j]) {
      TimeOrderIsChronological(AllTimes[i], AllTimes[j]);
      TimeOrderIsChronological(AllTimes[j], AllTimes[i]);
    }
  }

  lemma {:induction false} MinutesIncreasing(s: seq<string>)
    requires forall k :: 0 <= k < |s| ==> IsTimeToken(s[k])
    requires forall k :: 0 <= k < |s| - 1 ==> Minutes(s[k]) < Minutes(s[k + 1])
    ensures forall i, j :: 0 <= i < j < |s| ==> Minutes(s[i]) < Minutes(s[j])
    decreases |s|
  {
    if |s| > 1 {
      MinutesIncreasing(s[1..]);
      forall i, j | 0 <= i < j < |s| ensures Minutes(s[i]) < Minutes(s[j]) {
        if i > 0 {
          assert s[i] == s[1..][i - 1] && s[j] == s[1..][j - 1];
        } else if j > 1 {
          assert s[1] == s[1..][0] && s[j] == s[1..][j - 1];
        }
      }
    }
  }

  /** The slots offered for a date: the schedule without the booked times,
      in schedule order. */
  function FreeSlots(booked: seq<string>): (free: seq<string>)
    ensures forall t :: t in free <==> t in AllTimes && t !in booked
    ensures Subseq(free, AllTimes)
  {
    Filter(AllTimes, (t: string) => t !in booked)
  }

  /** The free slots and the booked slots of the schedule split the schedule:
      they are disjoint, together they are all of it, and the free ones stay
      in strictly increasing time order. */
  lemma FreeSlotsPartition(booked: seq<string>)
    ensures (set t | t in FreeSlots(booked)) !! (set t | t in booked)
    ensures (set t | t in FreeSlots(booked)) + (set t | t in booked && t in AllTimes) == set t | t in AllTimes
    ensures forall i, j :: 0 <= i < j < |FreeSlots(booked)| ==> LexLt(FreeSlots(booked)[i], FreeSlots(booked)[j])
  {
    AllTimesWellFormed();
    SubseqSorted(FreeSlots(booked), AllTimes, LexLt);
  }

  /** `phoneMask`: at most eleven digits, shown as "(DD", "(DD) DDDDD" or
      "(DD) DDDDD-DDDD" as they accumulate. */
  function PhoneMask(value: string): (r: string)
    ensures Digits(r) == MaskedDigits(value)
  {
    MaskedDigitsAreDigits(value);
    LayoutDigits(MaskedDigits(value));
    Layout(MaskedDigits(value))
  }

  /** The mask's punctuation around the kept digits `d`. */
  function Layout(d: string): string
  {
    if |d| <= 2 then "(" + d
    else if |d| <= 7 then "(" + d[..2] + ") " + d[2..]
    else "(" + d[..2] + ") " + d[2..7] + "-" + d[7..]
  }

  /** The first eleven digits of `value`. */
  function MaskedDigits(value: string): (d: string)
    ensures |d| <= 11 && |d| <= |Digits(value)| && d == Digits(value)[..|d|]
    ensures |Digits(value)| <= 11 ==> d == Digits(value)
    ensures |d| == if |Digits(value)| > 11 then 11 else |Digits(value)|
  {
    var all := Digits(value);
    if |all| > 11 then all[..11] else all
  }

  lemma DigitsOfDigits(d: string)
    requires forall c :: c in d ==> IsDigit(c)
    ensures Digits(d) == d
  {
    FilterAll(d, IsDigit);
  }

  lemma DigitsAppend(a: string, b: string)
    ensures Digits(a + b) == Digits(a) + Digits(b)
  {
    FilterAppend(a, b, IsDigit);
  }

  lemma NoDigits(p: string)
    requires forall k :: 0 <= k < |p| ==> !IsDigit(p[k])
    ensures Digits(p) == []
  {
    FilterNone(p, IsDigit);
  }

  lemma MaskedDigitsAreDigits(value: string)
    ensures forall c :: c in MaskedDigits(value) ==> IsDigit(c)
  {
    var d := MaskedDigits(value);
    assert forall c :: c in d ==> c in Digits(value);
  }

  /** The digits of `p + d + q + e`, for punctuation `p` and `q` and digit
      strings `d` and `e`, are `d + e`. */
  lemma DigitsAround(p: string, d: string, q: string, e: string)
    requires forall k :: 0 <= k < |p| ==> !IsDigit(p[k])
    requires forall k :: 0 <= k < |q| ==> !IsDigit(q[k])
    requires forall c :: c in d ==> IsDigit(c)
    requires forall c :: c in e ==> IsDigit(c)
    ensures Digits(p + d + q + e) == d + e
  {
    DigitsAppend(p + d + q, e);
    DigitsAppend(p + d, q);
    DigitsAppend(p, d);
    NoDigits(p);
    NoDigits(q);
    DigitsOfDigits(d);
    DigitsOfDigits(e);
  }

  /** The layout adds no digit: its digits are the kept digits, in order. */
  lemma LayoutDigits(d: string)
    requires forall c :: c in d ==> IsDigit(c)
    ensures Digits(Layout(d)) == d
  {
    if |d| <= 2 {
      DigitsAround("(", d, "", "");
      assert "(" + d + "" + "" == Layout(d);
    } else if |d| <= 7 {
      LayoutDigitsMiddle(d);
    } else {
      LayoutDigitsFull(d);
    }
  }

  lemma LayoutDigitsMiddle(d: string)
    requires forall c :: c in d ==> IsDigit(c)
    requires 2 < |d| <= 7
    ensures Digits("(" + d[..2] + ") " + d[2..]) == d
  {
    assert forall c :: c in d[..2] ==> c in d;
    assert forall c :: c in d[2..] ==> c in d;
    DigitsAround("(", d[..2], ") ", d[2..]);
    assert d[..2] + d[2..] == d;
  }

  lemma LayoutDigitsFull(d: string)
    requires forall c :: c in d ==> IsDigit(c)
    requires 7 < |d|
    ensures Digits("(" + d[..2] + ") " + d[2..7] + "-" + d[7..]) == d
  {
    var head := "(" + d[..2] + ") " + d[2..7];
    assert forall c :: c in d[..2] ==> c in d;
    assert forall c :: c in d[2..7] ==> c in d;
    assert forall c :: c in d[7..] ==> c in d;
    DigitsAround("(", d[..2], ") ", d[2..7]);
    DigitsAppend(head + "-", d[7..]);
    DigitsAppend(head, "-");
    NoDigits("-");
    DigitsOfDigits(d[7..]);
    assert d[..2] + d[2..7] + d[7..] == d;
  }

  /** Re-applying the mask on every input event changes nothing further. */
  lemma PhoneMaskIdempotent(value: string)
    ensures PhoneMask(PhoneMask(value)) == PhoneMask(value)
  {
    assert Digits(PhoneMask(value)) == MaskedDigits(value);
  }

  /** The layout of the mask for `n` kept digits: its length, the opening
      parenthesis, the ") " after the area code and the "-" before the last
      digits, with no surrounding white space for `trim` to remove. */
  lemma PhoneMaskLayout(value: string)
    ensures var n, r := |MaskedDigits(value)|, PhoneMask(value);
      && |r| == (if n <= 2 then n + 1 else if n <= 7 then n + 3 else n + 4)
      && r[0] == '('
      && (n > 2 ==> r[3] == ')' && r[4] == ' ')
      && (n > 7 ==> r[10] == '-')
      && Trim(r) == r
  {
    var d := MaskedDigits(value);
    var r := PhoneMask(value);
    MaskedDigitsAreDigits(value);
    assert !IsJsSpace(r[0]);
    if |d| > 0 {
      assert r[|r| - 1] == d[|d| - 1];
      assert d[|d| - 1] in d;
    }
    assert TrimStart(r) == r;
    assert TrimEnd(r) == r;
  }

  /** What the form sends: the selected service, date and time as they are,
      the trimmed name and phone, and SERVICES[service], which is absent from
      the JSON body when the service has no price. */
  datatype Payload = Payload(service: string, date: string, time: string, name: string,
                             phone: string, price: Option<int>)

  /** The outcome of the submit handler's checks, in the order it runs them. */
  datatype FormCheck = MissingField | ShortName | BadPhone | Submit(payload: Payload)

  /** The submit handler's checks. The form submits exactly when every field
      is filled, the trimmed name is at least three UTF-16 code units long
      and the trimmed phone has ten digits; it then sends the selections as
      they are, the trimmed name and phone, and the service's price. */
  function CheckBooking(service: string, date: string, time: string, rawName: string, rawPhone: string): (check: FormCheck)
    ensures var filled := service != "" && date != "" && time != "" && Trim(rawName) != "" && Trim(rawPhone) != "";
      && (check == MissingField <==> !filled)
      && (check == ShortName <==> filled && JsLength(Trim(rawName)) < 3)
      && (check == BadPhone <==> filled && JsLength(Trim(rawName)) >= 3 && |Digits(Trim(rawPhone))| < 10)
    ensures check.Submit? <==> service != "" && date != "" && time != ""
                               && JsLength(Trim(rawName)) >= 3 && |Digits(Trim(rawPhone))| >= 10
    ensures check.Submit? ==>
      && check.payload.name == Trim(rawName) && check.payload.phone == Trim(rawPhone)
      && check.payload.service == service && check.payload.date == date && check.payload.time == time
      && (service in Services ==> check.payload.price == Some(Services[service]))
      && (service !in Services ==> check.payload.price == None)
  {
    var name := Trim(rawName);
    var phone := Trim(rawPhone);
    if service == "" || date == "" || time == "" || name == "" || phone == "" then MissingField
    else if JsLength(name) < 3 then ShortName
    else if |Digits(phone)| < 10 then BadPhone
    else Submit(Payload(service, date, time, name, phone,
                        if service in Services then Some(Services[service]) else None))
  }

  /** Every service of the price list passes the server's schema: its name
      has at least three characters and its price is positive. */
  lemma ServicesPassSchema()
    ensures forall s :: s in Services ==> JsLength(s) >= 3 && Services[s] > 0
  {
  }

  /** Every price of the list fits the INTEGER price column, so a booking
      from the form never fails on the column's range. */
  lemma ServicesFitInteger()
    ensures forall s :: s in Services ==> Services[s] <= Appointments.MaxInt32
  {
  }

  /** A trimmed name of two characters whose second is astral, such as
      "A\U{1F600}", is three UTF-16 code units long, so the form accepts it
      although it has fewer than three characters. */
  lemma AstralNameSubmits(service: string, date: string, time: string, rawName: string, rawPhone: string)
    requires service != "" && date != "" && time != ""
    requires |Trim(rawName)| == 2 && IsAstral(Trim(rawName)[1])
    requires |Digits(Trim(rawPhone))| >= 10
    ensures CheckBooking(service, date, time, rawName, rawPhone).Submit?
  {
    var name := Trim(rawName);
    assert JsLength(name[1..]) >= 2 by {
      assert name[1..][0] == name[1];
    }
    assert Trim(rawPhone) != [];
  }

  /** A booking the form submits for a listed service, a date from the date
      picker and a slot of the schedule passes the server's validation. */
  lemma FormPassesServerSchema(service: string, date: string, time: string, rawName: string, rawPhone: string)
    requires service in Services && |date| >= 8 && time in AllTimes
    requires CheckBooking(service, date, time, rawName, rawPhone).Submit?
    ensures var p := CheckBooking(service, date, time, rawName, rawPhone).payload;
      p.price.Some? && Appointments.SchemaOk(Appointments.Request(p.service, p.date, p.time, p.name, p.phone, p.price.value))
  {
    AllTimesWellFormed();
    ServicesPassSchema();
    var k :| 0 <= k < |AllTimes| && AllTimes[k] == time;
    assert |time| == 5;
    var phone := Trim(rawPhone);
    assert |phone| >= |Digits(phone)| >= 10;
  }

  /** A phone typed through the mask with at least ten digits passes the
      form's phone check. */
  lemma MaskedPhonePasses(value: string)
    requires |Digits(value)| >= 10
    ensures |Digits(Trim(PhoneMask(value)))| >= 10
  {
    PhoneMaskLayout(value);
  }

  /** The two scenario bookings at list price can be stored. */
  lemma ScenarioRequestsStorable()
    ensures Appointments.StoreAccepts(Appointments.Request("Corte Social", "2025-06-10", "09:00", "Ana Souza", "(11) 98765-4321", 90))
    ensures Appointments.StoreAccepts(Appointments.Request("Corte Social", "2025-06-10", "09:00", "Bruno Lima", "(11) 91234-5678", 90))
  {
  }

  /** A booking from the price list, the same slot booked again by another
      customer, a free slot booked at a price the INTEGER column cannot hold,
      and the availability of that day afterwards. */
  method BookingScenario() returns (first: Result<Appointments.Appointment, Appointments.BookError>,
                                    second: Result<Appointments.Appointment, Appointments.BookError>,
                                    third: Result<Appointments.Appointment, Appointments.BookError>,
                                    booked: Result<seq<string>, Appointments.QueryError>)
    ensures first.Ok? && first.value.status == Appointments.Confirmed && first.value.price == 90
    ensures second == Err(Appointments.Conflict)
    ensures third == Err(Appointments.Conflict)
    ensures booked.Ok? && "09:00" in booked.value
  {
    var table := new Appointments.AppointmentTable();
    var price := Services["Corte Social"];
    var req := Appointments.Request("Corte Social", "2025-06-10", "09:00", "Ana Souza", "(11) 98765-4321", price);
    Appointments.SchemaByCharCount(req);
    ScenarioRequestsStorable();
    first := table.Book(req);
    assert Appointments.SlotTaken(table.rows, "2025-06-10", "09:00") by {
      assert table.rows[0].date == "2025-06-10" && table.rows[0].time == "09:00";
    }
    req := Appointments.Request("Corte Social", "2025-06-10", "09:00", "Bruno Lima", "(11) 91234-5678", price);
    Appointments.SchemaByCharCount(req);
    second := table.Book(req);
    req := Appointments.Request("Corte Social", "2025-06-10", "10:00", "Carla Dias", "(11) 95555-0000", 3000000000);
    Appointments.SchemaByCharCount(req);
    third := table.Book(req);
    booked := table.Availability("2025-06-10");
    assert table.rows[0].date == "2025-06-10" && table.rows[0].status == Appointments.Confirmed;
  }
}
