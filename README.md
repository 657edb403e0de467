# QuickReserve handlers, modelled in Dafny

QuickReserve has two cloud-function handlers that message customers over
the WhatsApp Cloud API.

- **`whatsapp_webhook`** (module `Webhook`) answers the provider's GET
  subscription handshake. It reads every POSTed event envelope
  (entries → changes → messages) and replies to each inbound text message
  with one of three fixed texts, picked by keyword. A POST is always
  acknowledged with `OK`/200. Any other method gets 405.
- **`send_reminders`** (module `Reminders`) computes tomorrow's window in
  South African Standard Time (UTC+2, no daylight saving). It selects the
  confirmed appointments in that window and sends one template reminder
  to each one that has a phone number. It answers with a summary that
  gives the number of reminders attempted. As written, the send raises
  before any request is made (see "Findings"), so the model describes
  both the job as written and the job as evidently intended.

Only the decisions are modelled. The I/O is replaced by plain values:

- The parsed POST body is a `Json` value.
- The query string is a list of key/value pairs.
- The configured `VERIFY_TOKEN` is an `Option<string>` parameter.
- The appointment store is a sequence of `Appointment` records.
- The current time `now` is a parameter, in integer seconds since the epoch.
- Each message send is a `Send` or `Reminder` action appended to a
  returned sequence.

Supporting modules:

- `Wrappers`: `Option` and `Result`.
- `Text`: Python's `strip`, `lower` and `in` on strings.
- `Json`: the JSON value and Python's `.get`, `[...]` and `for` on it. A
  failing operation is `Err`, which stands for the exception.
- `Calendar`: integer civil-date arithmetic used to print the message time.

Python exceptions during the POST walk are modelled by `Trace.aborted`. An
exception stops the walk, keeps the sends already issued, and still ends
in `OK`/200.

## Model

| member | source | states |
|---|---|---|
| `Webhook.Verify` | quickreserve-project/whatsapp_webhook/main.py:47-56 | status 200 exactly when mode is `subscribe` and the token equals the configured token, both compared as options; then the body is the challenge, otherwise `'Verification token mismatch'`/403 |
| `Webhook.Arg` | quickreserve-project/whatsapp_webhook/main.py:47-49 | `request.args.get(k)` is absent exactly when no argument has key `k`, and is otherwise the value of the first argument with that key |
| `Webhook.UnsetTokenAcceptsMissingToken` | quickreserve-project/whatsapp_webhook/main.py:51 | with no configured token, a `subscribe` request without a token passes verification (`None == None`) |
| `Webhook.ReplyFor` | quickreserve-project/whatsapp_webhook/main.py:73-81 | on the stripped, lower-cased body: the trial text iff it contains `trial` or `free`; the booking text iff not, but it contains `book`; the greeting iff none of the three |
| `Webhook.TrialBeforeBook` | quickreserve-project/whatsapp_webhook/main.py:76-79 | a body containing `book` and also `trial` or `free` gets the trial text |
| `Webhook.ReplyOfNormalized` | quickreserve-project/whatsapp_webhook/main.py:73 | replying to the normalised body gives the same reply as replying to the raw body |
| `Webhook.ReplyIgnoresCase` | quickreserve-project/whatsapp_webhook/main.py:73 | lower-casing the body first does not change the reply |
| `Webhook.ReplyIgnoresPadding` | quickreserve-project/whatsapp_webhook/main.py:73 | whitespace added on either side of the body does not change the reply |
| `Text.StripLeft` | quickreserve-project/whatsapp_webhook/main.py:73 | the leading part `strip()` removes: the result is a suffix of the input, everything dropped is whitespace, and the result does not start with whitespace |
| `Text.StripRight` | quickreserve-project/whatsapp_webhook/main.py:73 | the trailing part `strip()` removes: the result is a prefix of the input, everything dropped is whitespace, and the result does not end with whitespace |
| `Text.Lower` | quickreserve-project/whatsapp_webhook/main.py:73 | `lower()` keeps the length and lower-cases each character in place (letters `A`..`Z` become `a`..`z`, everything else is kept) |
| `Text.NormalizeIdempotent` | quickreserve-project/whatsapp_webhook/main.py:73 | `strip().lower()` applied twice equals applied once |
| `Text.StripPadded` | quickreserve-project/whatsapp_webhook/main.py:73 | `strip()` removes any whitespace added around a string |
| `Text.StripLower` | quickreserve-project/whatsapp_webhook/main.py:73 | stripping and lower-casing commute |
| `Text.ContainsIffOccurs` | quickreserve-project/whatsapp_webhook/main.py:76-78 | the substring test `k in s` holds exactly when `k` occurs at some index of `s` |
| `Json.GetOr` | quickreserve-project/whatsapp_webhook/main.py:64-67 | `.get(key, default)` raises on anything but a dict, and otherwise gives the key's value or the default |
| `Json.Index` | quickreserve-project/whatsapp_webhook/main.py:68-73 | `v[key]` succeeds exactly on a dict that has the key, and gives its value |
| `Json.Iterate` | quickreserve-project/whatsapp_webhook/main.py:65-68 | `for x in v` raises unless `v` is a list, dict or string; a list yields its items; a dict yields only strings, at most one per member, and none exactly when it is empty; a string yields its characters as one-character strings |
| `Json.Keys` | quickreserve-project/whatsapp_webhook/main.py:65-68 | the keys iteration visits: a string is among them exactly when some member has it as key, none appears twice, and there are none exactly when the object is empty |
| `Json.IterateDict` | quickreserve-project/whatsapp_webhook/main.py:65-68 | iterating over a dict visits one string per distinct key: every key of a member is visited, and none twice |
| `Json.LookupFindsLast` | quickreserve-project/whatsapp_webhook/main.py:64-73 | a key's value is that of its last binding in the document, and is absent when no member has the key |
| `Json.LookupAppend` | quickreserve-project/whatsapp_webhook/main.py:64-73 | in an object whose members are `a` followed by `b`, a key bound in `b` finds its value there, and otherwise finds what `a` gives |
| `Json.LookupOtherKey` | quickreserve-project/whatsapp_webhook/main.py:64-73 | a member with another key, inserted anywhere in an object, never changes what a key finds |
| `Webhook.MessageStep` | quickreserve-project/whatsapp_webhook/main.py:68-83 | a message yields at most one send; a send occurs only for type `text`, goes to the message's `from`, and carries the reply for its `text.body`; a missing `from` or `type` raises; a non-text type sends nothing |
| `Webhook.ChangeStep` | quickreserve-project/whatsapp_webhook/main.py:66-68 | a change that is not a dict raises; a change whose `field` is not `messages` sends nothing |
| `Webhook.EntryStep` | quickreserve-project/whatsapp_webhook/main.py:65-66 | an entry that is not a dict raises; an entry without `changes` sends nothing |
| `Webhook.PostTrace` | quickreserve-project/whatsapp_webhook/main.py:64 | nothing is sent unless `object` is `whatsapp_business_account` |
| `Webhook.WalkAppend` | quickreserve-project/whatsapp_webhook/main.py:65-89 | a loop over `xs + ys` is the loop over `xs` followed, unless it raised, by the loop over `ys` |
| `Webhook.WalkPrefix` | quickreserve-project/whatsapp_webhook/main.py:65-89 | sends issued before a failure stay a prefix of the sends of any longer walk, and after a failure nothing is added |
| `Webhook.ReplyToMessages` | quickreserve-project/whatsapp_webhook/main.py:68-83 | the message loop issues exactly the sends of the message walk, and raises exactly when it does |
| `Webhook.ReplyToChanges` | quickreserve-project/whatsapp_webhook/main.py:66-83 | the change loop issues exactly the sends of the change walk, and raises exactly when it does |
| `Webhook.ReplyToEntries` | quickreserve-project/whatsapp_webhook/main.py:65-83 | the entry loop issues exactly the sends of the entry walk, and raises exactly when it does |
| `Webhook.HandlePost` | quickreserve-project/whatsapp_webhook/main.py:59-89 | a POST always answers `('OK', 200)`, whatever the body, and issues exactly the sends of the walk (up to the first exception) |
| `Webhook.HandleWebhook` | quickreserve-project/whatsapp_webhook/main.py:42-91 | GET gives the handshake decision and sends nothing; POST gives `OK`/200 and the walk's sends; any other method gives `('Method Not Allowed', 405)` and sends nothing |
| `Webhook.PostOfEnvelope` | quickreserve-project/whatsapp_webhook/main.py:64-83 | for every body that describes an envelope through the keys the walk reads (members with other keys allowed anywhere and in any order, a missing `entry` or `changes` standing for none, non-text messages without `text`), the walk does not raise and sends exactly one reply per text message of a `messages` change, to that message's `from`, in entry, change and message order, and none unless `object` is `whatsapp_business_account` |
| `Webhook.TextDeliveryReplies` | quickreserve-project/whatsapp_webhook/main.py:64-83 | a text-message notification laid out as the Cloud API delivers it (entry `id`; `value` with `messaging_product`, `metadata` and `contacts` before `field`; message `id` and `timestamp`) gets exactly one reply, to its `from`, chosen from its body |
| `Reminders.TomorrowStart` | quickreserve-project/reminder_scheduler/main.py:62-63 | the start is a local midnight with `now < start <= now + 86400`, on the local day after `now` |
| `Reminders.TomorrowStartUnique` | quickreserve-project/reminder_scheduler/main.py:63 | no other local midnight lies in `(now, now + 86400]` |
| `Reminders.TomorrowEnd` | quickreserve-project/reminder_scheduler/main.py:64 | the end is the local midnight two local days after `now` |
| `Reminders.WindowIsTomorrow` | quickreserve-project/reminder_scheduler/main.py:62-71 | `start <= t < end` holds exactly when `t` falls on the local day after `now` |
| `Reminders.Query` | quickreserve-project/reminder_scheduler/main.py:69-73 | a record is in the result exactly when it is stored, has status `confirmed`, and `start <= appointment_time < end` |
| `Reminders.CustomerName` | quickreserve-project/reminder_scheduler/main.py:79 | a missing name becomes `Client`; a stored null stays `None`; any other name is used as it is |
| `Reminders.HasPhone` | quickreserve-project/reminder_scheduler/main.py:78-86 | `if phone_number:` on `data.get('phone')`: a missing or null phone (`None`) and the empty string are falsy; any other string is truthy |
| `Reminders.ServiceTimeRenders` | quickreserve-project/reminder_scheduler/main.py:82-84 | the service time names the weekday, day of the month and month of the appointment's SAST day, and its SAST hour and minute, in the `'%A, %d %B at %H:%M'` layout; the day is the proleptic Gregorian date of the day count, which `Calendar.CivilNext` and the one known date of `Reminders.DateExample` fix on every day |
| `Reminders.Reminders` | quickreserve-project/reminder_scheduler/main.py:76-92 | there are never more reminders than queried records (which reminders they are is `Reminders.RemindersAreWithPhone`) |
| `Reminders.NoRemindersIffNoPhone` | quickreserve-project/reminder_scheduler/main.py:86-92 | no reminder is sent exactly when no queried record has a phone |
| `Reminders.RemindersAreWithPhone` | quickreserve-project/reminder_scheduler/main.py:76-92 | there is one reminder per record with a phone, in query order, each with that record's phone, name and time string; the count never exceeds the number of records |
| `Reminders.NoPhoneNoReminder` | quickreserve-project/reminder_scheduler/main.py:86 | a record whose phone is missing, null or empty adds no reminder |
| `Reminders.WithPhoneMembers` | quickreserve-project/reminder_scheduler/main.py:86 | a record is among those reminded exactly when it is in the result and has a phone |
| `Reminders.ReminderSentIff` | quickreserve-project/reminder_scheduler/main.py:69-92 | a stored record is reminded exactly when it is confirmed, falls on tomorrow's local date, and has a phone |
| `Reminders.QueryCount` | quickreserve-project/reminder_scheduler/main.py:69-73 | the query's result holds a selected record as many times as the store does (once per stored document), and an unselected record not at all |
| `Reminders.WithPhoneCount` | quickreserve-project/reminder_scheduler/main.py:86 | the records reminded hold each record with a phone as many times as the query's result does, and a record without one not at all |
| `Reminders.ReminderSentOnce` | quickreserve-project/reminder_scheduler/main.py:69-92 | in one run, a stored document that is confirmed, falls on tomorrow's local date and has a phone is reminded as many times as it is stored (exactly once for a document stored once), and every other document never |
| `Reminders.SendReminders` | quickreserve-project/reminder_scheduler/main.py:58-94 | with each send returning (the intended behaviour; see "Findings"), the job issues exactly the reminders of the query result for tomorrow's window, answers 200, and its summary reports the number issued |
| `Reminders.SendRemindersAsWritten` | quickreserve-project/reminder_scheduler/main.py:50-53 | the job as written sends nothing; it raises exactly when some queried record has a phone (the `NameError` at line 50, not caught at line 53), and otherwise answers 200 with a count of 0 |
| `Reminders.NameErrorExample` | quickreserve-project/reminder_scheduler/main.py:50 | for one confirmed appointment tomorrow with a phone, the intended job sends exactly one reminder while the job as written raises |
| `Reminders.NatToString` | quickreserve-project/reminder_scheduler/main.py:94 | the count is printed as one or more decimal digits, with no leading zero |
| `Reminders.ParseNatToString` | quickreserve-project/reminder_scheduler/main.py:94 | reading the printed count back gives the count |
| `Reminders.SummaryStatesCount` | quickreserve-project/reminder_scheduler/main.py:94 | the count can be read back from the summary text |
| `Reminders.ServiceTimeExample` | quickreserve-project/reminder_scheduler/main.py:84 | 2024-12-03 13:00 UTC is printed as `Tuesday, 03 December at 15:00` |
| `Reminders.DateExample` | quickreserve-project/reminder_scheduler/main.py:84 | day 20060 after 1970-01-01 is 2024-12-03 (a 3 December, as in the example of line 84); with `Calendar.CivilNext`, this one known date fixes the date of every other day count |
| `Calendar.CivilFromDays` | quickreserve-project/reminder_scheduler/main.py:83-84 | the date of a day count is a valid Gregorian date: month 1..12, day within that month's length, with leap years |
| `Calendar.NextDate` | quickreserve-project/reminder_scheduler/main.py:83-84 | the day after a valid date is a valid date: the next day of the month, else the first of the next month, else January 1 of the next year |
| `Calendar.MonthStartNext` | quickreserve-project/reminder_scheduler/main.py:83-84 | each month of a March-based year after March starts where the previous one ends, that month's length (30 or 31 days) later |
| `Calendar.DaysNext` | quickreserve-project/reminder_scheduler/main.py:83-84 | the day count of the next date is one more than that of the date, across month ends, year ends and February 29 |
| `Calendar.CivilNext` | quickreserve-project/reminder_scheduler/main.py:83-84 | the date of the following day count is the next date of the date of a day count, so with one known date every day count gets its Gregorian date |
| `Calendar.YearOfEra` | quickreserve-project/reminder_scheduler/main.py:83-84 | an era day falls in the year it is assigned to, and on February 29 only in a leap year |
| `Calendar.DaysOfCivil` | quickreserve-project/reminder_scheduler/main.py:83-84 | counting the days back from the computed date gives the original day count, so distinct days get distinct `Date` values (the printed text has no year, so it need not differ) |
| `Calendar.CivilOfDays` | quickreserve-project/reminder_scheduler/main.py:83-84 | every valid Gregorian date is the computed date of its own day count, so the two conversions are inverse on valid dates |
| `Calendar.Weekday` | quickreserve-project/reminder_scheduler/main.py:84 | `%A` is chosen by a weekday number 0..6 |
| `Calendar.WeekdayNext` | quickreserve-project/reminder_scheduler/main.py:84 | 1970-01-01 is a Thursday (3, Monday being 0), and each day's weekday is the previous day's plus one, modulo 7 |
| `Calendar.ClockOf` | quickreserve-project/reminder_scheduler/main.py:84 | `%H:%M` is an hour 0..23 and minute 0..59 that make up the local time of day to within the dropped seconds |
| `Calendar.TwoDigits` | quickreserve-project/reminder_scheduler/main.py:84 | `%d`, `%H` and `%M` are two decimal digits, zero-padded, which read back as the number printed |
| `Calendar.Digit` | quickreserve-project/reminder_scheduler/main.py:84-94 | a digit character is a decimal digit whose value is the number it stands for |
| `Calendar.FormatLocalRenders` | quickreserve-project/reminder_scheduler/main.py:84 | the text is the weekday's name, `, `, the day of the month as two digits, the month's name, ` at `, and the hour (0..23) and minute (0..59) as two digits each, which make up the local time of day but for the dropped seconds |

## Left out

- HTTP calls to the Graph API are not modelled: the URL, the headers, the bearer token, the JSON payload and `raise_for_status` (whatsapp_webhook/main.py:17-38, reminder_scheduler/main.py:19-54). A send is an appended action. In the webhook, `send_whatsapp_message` catches every `requests` error, so a send never raises there.
- Reminders.SendReminders: models the job with every send returning, which is the evidently intended behaviour, not the code as written. As written, reminder_scheduler/main.py:50 calls `json.dumps` without importing `json`, so every send raises `NameError` before `requests.post`, and the `except RequestException` on line 53 does not catch it. The real job then answers 200 with its summary only when no queried record has a phone, and otherwise raises at the first such record having sent nothing. `Reminders.SendRemindersAsWritten` models that behaviour (see "Findings").
- Reminders.SendRemindersAsWritten: the framework's response to the uncaught exception (an error status) is not modelled; the model only reports that the job raised.
- Failures of a reminder send that does reach `requests.post` (HTTP or network errors, which line 53 would catch and log) are not modelled.
- The framework and storage plumbing is not modelled: `functions_framework`, the Firestore client, `.stream()`, `doc.to_dict()` and reading environment variables. The query result is a function of the stored records.
- Reminders.Query keeps the order of the stored records. The store's own ordering of results (by `appointment_time`) is not modelled.
- Reminders.Appointment carries an `appointment_time` on every record. A document without one cannot pass the query's range filter.
- Logging (`print`) is not modelled; nothing depends on it.
- Text.Lower lower-cases only the ASCII letters `A`..`Z`. Python's `str.lower()` also maps other Unicode letters, including a few that become ASCII letters (the Kelvin sign becomes `k`), and a few that change the string's length.
- Reminders.Field: a Firestore field stored as something other than a string is not modelled. A numeric `phone` would be truthy unless 0 and would be passed on as `to_number` (reminder_scheduler/main.py:86-88), and a non-string `name` would be passed on as it is (line 79). The stored appointments give both fields as strings.
- Json.Json keeps numbers as integers. Floats behave the same way in every operation the webhook applies (comparison with a string, `.get`, indexing, iteration) with one exception: a float `from` is passed on as a reply's recipient (whatsapp_webhook/main.py:69,83), and neither a `Json` value nor a `Send` can hold a float, so the model says nothing about replies to a message whose `from` is a float.
- Webhook.Response keeps a `None` challenge as the body. How Flask handles a view that returns `None` as the body is not modelled.
- Time is modelled in whole seconds. The sub-second part of `datetime.now` changes neither the window nor the `%H:%M` text.
- `pytz` is not modelled. SAST is the fixed offset +7200 s, and Africa/Johannesburg has had no daylight saving time since 1944.
- The limits of Python's `datetime` (years 1..9999) are not modelled. Dates use the proleptic Gregorian calendar over all integers.
- `strftime` is modelled only with the default C locale's English weekday and month names.

## Findings

| source | as written | input that shows it | evidently intended | confidence | as-written member | corrected member |
|---|---|---|---|---|---|---|
| quickreserve-project/reminder_scheduler/main.py:50 | `json.dumps(payload)` is evaluated, but the file never imports `json`; the `NameError` is not a `RequestException`, so the `except` on line 53 lets it leave `send_reminders` | one appointment with status `confirmed`, a phone number, and an `appointment_time` tomorrow in SAST | `json` is imported, the request is posted, the reminder counts as attempted, and the job answers 200 with the summary | high, not executed | `Reminders.SendRemindersAsWritten`, `Reminders.NameErrorExample` | `Reminders.SendReminders` |
