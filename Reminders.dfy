/** The `send_reminders` job: the window of tomorrow in South African
    Standard Time, the appointments the store returns for it, and one
    template reminder per appointment that has a phone number. The store
    query is a function over the stored records; sending a reminder is an
    action appended to a sequence of sends. */
module Reminders {
  import opened Wrappers
  import opened Calendar

  /** SAST is UTC+2 all year (no daylight saving time). */
  const LocalOffset := 7200

  const Confirmed := "confirmed"
  const DefaultName := "Client"

  /** A field of a stored document as `doc.to_dict()` gives it: missing,
      stored as null, or a string. */
  datatype Field = Absent | Null | Value(s: string)

  /** An appointment document; `time` is its `appointment_time`, in seconds
      since 1970-01-01 00:00 UTC. */
  datatype Appointment = Appointment(phone: Field, name: Field, status: Field, time: int)

  /** One call of `send_whatsapp_template_reminder(to, customer_name, service_time)`;
      a customer name stored as null is passed on as `None`. */
  datatype Reminder = Reminder(to: string, customerName: Option<string>, serviceTime: string)

  // ---------------------------------------------------------------------
  // The window

  /** The local (SAST) day an instant falls on, counted from 1970-01-01. */
  function LocalDay(t: int): int {
    (t + LocalOffset) / SecondsPerDay
  }

  /** The instant of local midnight that starts the day after `now`. */
  function TomorrowStart(now: int): (start: int)
    ensures now < start <= now + SecondsPerDay
    ensures (start + LocalOffset) % SecondsPerDay == 0
    ensures LocalDay(start) == LocalDay(now) + 1
  {
    (LocalDay(now) + 1) * SecondsPerDay - LocalOffset
  }

  /** Local midnight after `now` is the only local midnight in `(now, now + 1 day]`. */
  lemma TomorrowStartUnique(now: int, t: int)
    requires now < t <= now + SecondsPerDay
    requires (t + LocalOffset) % SecondsPerDay == 0
    ensures t == TomorrowStart(now)
  {
    var k := (t + LocalOffset) / SecondsPerDay;
    assert t + LocalOffset == k * SecondsPerDay;
    var n := LocalDay(now);
    assert n * SecondsPerDay <= now + LocalOffset < n * SecondsPerDay + SecondsPerDay;
    assert n < k <= n + 1;
  }

  /** The instant one day after the start: the local midnight that ends tomorrow. */
  function TomorrowEnd(now: int): (end: int)
    ensures (end + LocalOffset) % SecondsPerDay == 0
    ensures LocalDay(end) == LocalDay(now) + 2
  {
    TomorrowStart(now) + SecondsPerDay
  }

  /** The half-open window `[start, end)` holds exactly the instants whose
      local day is the day after `now`'s. */
  lemma WindowIsTomorrow(now: int, t: int)
    ensures TomorrowStart(now) <= t < TomorrowEnd(now) <==> LocalDay(t) == LocalDay(now) + 1
  {
    var n := LocalDay(now) + 1;
    var d := LocalDay(t);
    assert TomorrowStart(now) + LocalOffset == n * SecondsPerDay;
    assert d * SecondsPerDay <= t + LocalOffset < d * SecondsPerDay + SecondsPerDay;
    if d < n {
      assert d * SecondsPerDay + SecondsPerDay <= n * SecondsPerDay;
    }
    if d > n {
      assert d * SecondsPerDay >= (n + 1) * SecondsPerDay;
    }
  }

  // ---------------------------------------------------------------------
  // The query

  /** The three filters of the store query. */
  predicate Selected(r: Appointment, start: int, end: int) {
    r.status == Value(Confirmed) && start <= r.time < end
  }

  /** The query's result: the stored records that pass its filters, in store order. */
  function Query(store: seq<Appointment>, start: int, end: int): (q: seq<Appointment>)
    ensures |q| <= |store|
    ensures forall r :: r in q <==> r in store && Selected(r, start, end)
  {
    if store == [] then []
    else
      var rest := Query(store[..|store| - 1], start, end);
      var last := store[|store| - 1];
      assert forall r :: r in store <==> r in store[..|store| - 1] || r == last by {
        assert store == store[..|store| - 1] + [last];
      }
      if Selected(last, start, end) then rest + [last] else rest
  }

  // ---------------------------------------------------------------------
  // One reminder per record

  /** `if phone_number:` on `data.get('phone')`: `None` (a missing or null
      field) and the empty string are falsy, any other string is truthy. */
  predicate HasPhone(r: Appointment): (b: bool)
    ensures r.phone.Absent? || r.phone.Null? ==> !b
    ensures r.phone.Value? ==> (b <==> |r.phone.s| > 0)
  {
    r.phone.Value? && r.phone.s != ""
  }

  /** `data.get('name', 'Client')`: the default applies only to a missing field. */
  function CustomerName(f: Field): (n: Option<string>)
    ensures f.Absent? ==> n == Some(DefaultName)
    ensures f.Null? ==> n == None
    ensures f.Value? ==> n == Some(f.s)
  {
    match f
    case Absent => Some(DefaultName)
    case Null => None
    case Value(s) => Some(s)
  }

  /** The appointment's instant shifted to SAST, rendered as
      `'%A, %d %B at %H:%M'`. */
  function ServiceTime(t: int): string {
    FormatLocal(t + LocalOffset)
  }

  /** The service time names the SAST day of `t` and its SAST hour and minute. */
  lemma ServiceTimeRenders(t: int)
    ensures Renders(ServiceTime(t), LocalDay(t), (t + LocalOffset) % SecondsPerDay)
  {
    FormatLocalRenders(t + LocalOffset);
  }

  /** The reminder for a record that has a phone. */
  function ReminderFor(r: Appointment): Reminder
    requires HasPhone(r)
  {
    Reminder(r.phone.s, CustomerName(r.name), ServiceTime(r.time))
  }

  /** The reminders the loop over `q` sends, in order; never more than
      there are records. */
  function Reminders(q: seq<Appointment>): (rs: seq<Reminder>)
    ensures |rs| <= |q|
  {
    if q == [] then []
    else
      var last := q[|q| - 1];
      Reminders(q[..|q| - 1]) + (if HasPhone(last) then [ReminderFor(last)] else [])
  }

  /** No reminder is sent exactly when no record has a phone. */
  lemma {:induction false} NoRemindersIffNoPhone(q: seq<Appointment>)
    ensures Reminders(q) == [] <==> forall k :: 0 <= k < |q| ==> !HasPhone(q[k])
  {
    if q != [] {
      var init := q[..|q| - 1];
      NoRemindersIffNoPhone(init);
      assert forall k :: 0 <= k < |init| ==> init[k] == q[k];
    }
  }

  /** The records of `q` that have a phone, in order. */
  function WithPhone(q: seq<Appointment>): seq<Appointment> {
    if q == [] then []
    else
      var last := q[|q| - 1];
      WithPhone(q[..|q| - 1]) + (if HasPhone(last) then [last] else [])
  }

  /** The reminders are exactly one per record with a phone, in query
      order, so there are never more of them than records. */
  lemma {:induction false} RemindersAreWithPhone(q: seq<Appointment>)
    ensures |Reminders(q)| == |WithPhone(q)| <= |q|
    ensures forall k :: 0 <= k < |WithPhone(q)| ==>
      HasPhone(WithPhone(q)[k]) && Reminders(q)[k] == ReminderFor(WithPhone(q)[k])
  {
    if q != [] {
      RemindersAreWithPhone(q[..|q| - 1]);
    }
  }

  /** A record without a phone (missing, null or empty) adds no reminder. */
  lemma {:induction false} NoPhoneNoReminder(q: seq<Appointment>, r: Appointment)
    requires !HasPhone(r)
    ensures Reminders(q + [r]) == Reminders(q)
  {
    assert (q + [r])[..|q|] == q;
  }

  // ---------------------------------------------------------------------
  // The summary

  /** `str(n)`: the decimal digits of `n`, without leading zeros. */
  function NatToString(n: nat): (s: string)
    ensures |s| >= 1 && (s[0] == '0' ==> n == 0)
    ensures forall i :: 0 <= i < |s| ==> '0' <= s[i] <= '9'
  {
    if n < 10 then [Digit(n)] else NatToString(n / 10) + [Digit(n % 10)]
  }

  /** The value of a string of decimal digits. */
  function ParseNat(s: string): nat
    requires forall i :: 0 <= i < |s| ==> '0' <= s[i] <= '9'
  {
    if s == [] then 0 else ParseNat(s[..|s| - 1]) * 10 + DigitValue(s[|s| - 1])
  }

  lemma {:induction false} ParseNatToString(n: nat)
    ensures ParseNat(NatToString(n)) == n
  {
    if n >= 10 {
      var s := NatToString(n);
      assert s[..|s| - 1] == NatToString(n / 10);
      ParseNatToString(n / 10);
    }
  }

  const SummaryPrefix := "Reminder process complete. "
  const SummarySuffix := " reminders attempted."

  /** The handler's reply text for `n` attempted reminders. */
  function Summary(n: nat): string {
    SummaryPrefix + NatToString(n) + SummarySuffix
  }

  /** Reading a summary back: the count between its fixed prefix and suffix. */
  function SummaryCount(s: string): Option<nat> {
    if |s| >= |SummaryPrefix| + |SummarySuffix| && s[..|SummaryPrefix|] == SummaryPrefix
       && s[|s| - |SummarySuffix|..] == SummarySuffix
    then
      var digits := s[|SummaryPrefix|..|s| - |SummarySuffix|];
      if forall i :: 0 <= i < |digits| ==> '0' <= digits[i] <= '9' then Some(ParseNat(digits)) else None
    else None
  }

  /** The summary states the count: it can be read back from it. */
  lemma SummaryStatesCount(n: nat)
    ensures SummaryCount(Summary(n)) == Some(n)
  {
    var s := Summary(n);
    var digits := NatToString(n);
    assert s[..|SummaryPrefix|] == SummaryPrefix;
    assert s[|s| - |SummarySuffix|..] == SummarySuffix;
    assert s[|SummaryPrefix|..|s| - |SummarySuffix|] == digits;
    ParseNatToString(n);
  }

  // ---------------------------------------------------------------------
  // The job

  /** `send_reminders`: compute tomorrow's window, walk the query result in
      order and send one reminder per record with a phone, counting them;
      answer with the count and status 200. */
  method SendReminders(now: int, store: seq<Appointment>)
    returns (summary: string, status: int, sends: seq<Reminder>)
    ensures sends == Reminders(Query(store, TomorrowStart(now), TomorrowEnd(now)))
    ensures summary == Summary(|sends|) && status == 200
  {
    var start := TomorrowStart(now);
    var end := start + SecondsPerDay;
    var query := Query(store, start, end);
    var sent := 0;
    sends := [];
    for i := 0 to |query|
      invariant sends == Reminders(query[..i])
      invariant sent == |sends|
    {
      var doc := query[i];
      var phone := doc.phone;
      var name := CustomerName(doc.name);
      var serviceTime := ServiceTime(doc.time);
      assert query[..i + 1][..i] == query[..i];
      if phone.Value? && phone.s != "" {
        sends := sends + [Reminder(phone.s, name, serviceTime)];
        sent := sent + 1;
      }
    }
    assert query[..|query|] == query;
    summary := Summary(sent);
    status := 200;
  }

  /** `send_reminders` as written: `send_whatsapp_template_reminder` calls
      `json.dumps` although `json` is never imported, so the first record
      with a phone raises `NameError` before any request is made. The
      `except` around the request catches only `requests` errors, so the
      exception leaves the job. It answers only when no queried record has
      a phone, and it never sends anything. */
  method SendRemindersAsWritten(now: int, store: seq<Appointment>)
    returns (raised: bool, summary: string, status: int, sends: seq<Reminder>)
    ensures sends == []
    ensures raised <==> WithPhone(Query(store, TomorrowStart(now), TomorrowEnd(now))) != []
    ensures !raised ==> summary == Summary(0) && status == 200
  {
    var start := TomorrowStart(now);
    var end := start + SecondsPerDay;
    var query := Query(store, start, end);
    var sent := 0;
    sends, raised := [], false;
    summary, status := "", 0;
    var i := 0;
    while i < |query| && !raised
      invariant 0 <= i <= |query|
      invariant sends == [] && sent == 0
      invariant raised <==> WithPhone(query[..i]) != []
    {
      WithPhoneStep(query, i);
      if query[i].phone.Value? && query[i].phone.s != "" {
        raised := true;
      }
      i := i + 1;
    }
    WithPhonePrefix(query, i);
    if !raised {
      summary, status := Summary(sent), 200;
    }
  }

  lemma WithPhoneStep(q: seq<Appointment>, i: int)
    requires 0 <= i < |q|
    ensures WithPhone(q[..i + 1]) == WithPhone(q[..i]) + (if HasPhone(q[i]) then [q[i]] else [])
  {
    assert q[..i + 1][..i] == q[..i];
  }

  /** A loop that stopped at a record with a phone, or ran to the end, has
      seen a record with a phone exactly when the whole query has one. */
  lemma WithPhonePrefix(q: seq<Appointment>, i: int)
    requires 0 <= i <= |q|
    requires i == |q| || WithPhone(q[..i]) != []
    ensures WithPhone(q[..i]) != [] <==> WithPhone(q) != []
  {
    if i == |q| {
      assert q[..i] == q;
    } else {
      var r := WithPhone(q[..i])[0];
      WithPhoneMembers(q[..i], r);
      WithPhoneMembers(q, r);
    }
  }

  /** One confirmed appointment tomorrow with a phone: the intended job sends
      it one reminder, while the job as written raises on it. */
  lemma NameErrorExample(now: int, store: seq<Appointment>)
    requires store == [Appointment(Value("27820000000"), Absent, Value(Confirmed), TomorrowStart(now))]
    ensures |Reminders(Query(store, TomorrowStart(now), TomorrowEnd(now)))| == 1
    ensures WithPhone(Query(store, TomorrowStart(now), TomorrowEnd(now))) != []
  {
    var q := Query(store, TomorrowStart(now), TomorrowEnd(now));
    assert store[0] in q;
    assert |q| == 1;
    WithPhoneMembers(q, store[0]);
    assert q[..0] == [];
  }

  /** A reminder is sent for a stored record exactly when it is confirmed,
      falls on tomorrow's local day and has a phone. */
  lemma ReminderSentIff(now: int, store: seq<Appointment>, r: Appointment)
    ensures var q := Query(store, TomorrowStart(now), TomorrowEnd(now));
      r in WithPhone(q) <==>
        r in store && r.status == Value(Confirmed) && LocalDay(r.time) == LocalDay(now) + 1 && HasPhone(r)
  {
    var q := Query(store, TomorrowStart(now), TomorrowEnd(now));
    WithPhoneMembers(q, r);
    WindowIsTomorrow(now, r.time);
  }

  lemma {:induction false} WithPhoneMembers(q: seq<Appointment>, r: Appointment)
    ensures r in WithPhone(q) <==> r in q && HasPhone(r)
  {
    if q != [] {
      WithPhoneMembers(q[..|q| - 1], r);
      assert q == q[..|q| - 1] + [q[|q| - 1]];
    }
  }

  /** How many times `r` occurs in `xs`. */
  function Count(xs: seq<Appointment>, r: Appointment): nat {
    if xs == [] then 0
    else Count(xs[..|xs| - 1], r) + (if xs[|xs| - 1] == r then 1 else 0)
  }

  /** The query lists a selected record as often as it is stored, and an
      unselected one never. */
  lemma {:induction false} QueryCount(store: seq<Appointment>, start: int, end: int, r: Appointment)
    ensures Count(Query(store, start, end), r) == if Selected(r, start, end) then Count(store, r) else 0
  {
    if store != [] {
      var init := store[..|store| - 1];
      var last := store[|store| - 1];
      var rest := Query(init, start, end);
      QueryCount(init, start, end, r);
      if Selected(last, start, end) {
        assert (rest + [last])[..|rest|] == rest;
      }
    }
  }

  /** Keeping the records with a phone keeps each of them as often as it
      occurs, and drops the others altogether. */
  lemma {:induction false} WithPhoneCount(q: seq<Appointment>, r: Appointment)
    ensures Count(WithPhone(q), r) == if HasPhone(r) then Count(q, r) else 0
  {
    if q != [] {
      var init := q[..|q| - 1];
      var last := q[|q| - 1];
      WithPhoneCount(init, r);
      if HasPhone(last) {
        assert WithPhone(q) == WithPhone(init) + [last];
        assert (WithPhone(init) + [last])[..|WithPhone(init)|] == WithPhone(init);
      } else {
        assert WithPhone(q) == WithPhone(init);
      }
    }
  }

  /** In one run, each stored record that is confirmed, falls on tomorrow's
      local day and has a phone is reminded once for each time it is stored
      (once, for a record stored once), and no other record is reminded. */
  lemma ReminderSentOnce(now: int, store: seq<Appointment>, r: Appointment)
    ensures var q := Query(store, TomorrowStart(now), TomorrowEnd(now));
      Count(WithPhone(q), r) ==
        if r.status == Value(Confirmed) && LocalDay(r.time) == LocalDay(now) + 1 && HasPhone(r)
        then Count(store, r) else 0
  {
    var q := Query(store, TomorrowStart(now), TomorrowEnd(now));
    WithPhoneCount(q, r);
    QueryCount(store, TomorrowStart(now), TomorrowEnd(now), r);
    WindowIsTomorrow(now, r.time);
  }

  /** The message time of the example in the source: 2024-12-03 13:00 UTC is
      3 pm on a Tuesday in SAST. */
  lemma ServiceTimeExample(t: int)
    requires t == 1733230800
    ensures ServiceTime(t) == "Tuesday, 03 December at 15:00"
  {
    var local := t + LocalOffset;
    assert local / SecondsPerDay == 20060;
    DateExample();
    ClockExample();
    WeekdayExample();
    assert TwoDigits(3) == "03" && MonthName(12) == "December";
    assert TwoDigits(15) == "15" && TwoDigits(0) == "00";
    assert ServiceTime(t) == "Tuesday" + ", " + "03" + " " + "December" + " at " + "15" + ":" + "00";
    ExampleText();
  }

  /** 3 December 2024 was a Tuesday. */
  lemma WeekdayExample()
    ensures WeekdayName(Weekday(20060)) == "Tuesday"
  {
  }

  /** 15:00 SAST on 3 December 2024 is 15:00 on its local day. */
  lemma ClockExample()
    ensures ClockOf(1733230800 + LocalOffset) == (15, 0)
  {
    assert (1733230800 + LocalOffset) % SecondsPerDay == 54000;
  }

  lemma ExampleText()
    ensures "Tuesday" + ", " + "03" + " " + "December" + " at " + "15" + ":" + "00" == "Tuesday, 03 December at 15:00"
  {
  }

  /** Day 20060 after 1970-01-01 is 2024-12-03. */
  lemma DateExample()
    ensures CivilFromDays(20060) == Date(2024, 12, 3)
  {
    assert (20060 + 719468) / 146097 == 5 && (20060 + 719468) % 146097 == 9043;
    assert YearOfEra(9043) == 24;
  }
}
