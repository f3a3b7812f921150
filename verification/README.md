# Kalcer Watch dashboard: history aggregation, contacts and current data

This project models the pure logic of the Kalcer Watch dashboard service
(`main.py`). The service reads wearable telemetry and an emergency-contact
list from a realtime database and serves them as JSON. The store's answer is
an input value here: a `Json.JsonValue` (`None`, booleans, numbers, strings,
lists, dicts), with Python truthiness (`Json.Truthy`) and `dict.get`
(`Json.Get`) written out.

- `History` models `get_history_data`. It visits a list answer's elements, or
  a dict answer's values, in order (`Entries`). It runs `process_entry` on
  each one (`ProcessEntry`). Falsy entries contribute nothing. A dict entry
  contributes one label, one heart rate and one magnitude, and missing fields
  become `''` or `0`. The label comes from the timestamp (`TextLabel`, built
  on `PyText.Split` and `PyText.Slice`). Any exception is caught and turned
  into the empty body. The model expresses this as `Results.Result`, and
  `HistoryData` maps every `Failure` to `Empty`, so no partly filled body is
  ever returned. `CollectHistory` is the imperative loop with three growing
  lists, and it is proved equal to the functional definition.
- `PyText` models Python slicing with negative and clamped bounds, and
  `str.split` with a one-character separator.
- `Contacts` models `get_contacts_json`. Each dict-valued child becomes
  `{name, phone, chat_id}`, with the defaults `'Tanpa Nama'`, `'-'` and `''`.
  This endpoint has no handler, so a truthy answer that is not a dict raises
  (`Failure`).
- `Current` models `get_current_data`. A truthy answer is returned unchanged,
  and a falsy one is replaced by the fixed "Menunggu Data..." record.

Three consequences of the code are worth stating:
- `if not entry` skips every falsy entry, and `{}` is falsy, so an empty
  record contributes nothing. A record with other fields but none of the
  three does give an empty label and two zeros (`History.BareEntry`).
- A truthy entry that is not a dict, or a timestamp that is `None`, a number
  or a dict, raises inside the `try`. Any exception empties the whole body;
  it is never partial (`History.EmptyExactly`).
- A list timestamp without a `' '` element passes `' ' in ts` and is sliced
  like a string, so its label is a list. For that reason, labels are JSON
  values.

## Model

| member | source | states |
|---|---|---|
| Json.Truthy | main.py:52 | Python's `bool(v)`: a value is falsy exactly when it is `None`, `False`, zero, `""`, `[]` or `{}` (the tests at main.py:52, 75, 85 and 123) |
| Json.Values | main.py:92 | iterating `d.items()` visits one value per binding, each binding's value, in the dict's order (also main.py:124) |
| Json.Get | main.py:82-83 | `d.get(key, default)` gives the value bound to the key when the key is present, and the default when it is absent |
| PyText.Slice | main.py:79 | `s[a:b]` never raises: the length is the clamped distance between the resolved bounds, and every element is taken from the resolved start onward |
| PyText.Split | main.py:79 | `s.split(sep)` has one more field than `s` has separators, and no field contains the separator |
| PyText.JoinSplit | main.py:79 | joining the fields of a split with the separator gives the original text back |
| PyText.SplitJoin | main.py:79 | separator-free fields survive a join followed by a split (the inverse round trip) |
| PyText.SecondField | main.py:79 | `split(' ')[1]` is exactly the text between the first and the second space, or between the only space and the end |
| History.TextLabel | main.py:79 | a string timestamp always yields a label of at most five characters and never raises |
| History.SpaceLabel | main.py:77-79 | with a space, the label is the first (up to) five characters of the text between the first and second space |
| History.NoSpaceLabel | main.py:79 | without a space, the label is `ts[max(n-8,0) .. max(n-3,0)]`: it is empty for length at most 3, and for an 8-character time it is the first five characters |
| History.DateTimeLabel | main.py:77-79 | `"2025-12-09 22:54:10"` is labelled `"22:54"` |
| History.TimeOnlyLabel | main.py:79 | `"22:54:10"` is labelled `"22:54"` |
| History.Label | main.py:78-79 | labelling succeeds exactly for a string, or for a list without a `' '` element; a list label is the slice `[-8:-3]`; `None`, numbers, booleans and dicts raise |
| History.ProcessEntry | main.py:74-83 | a falsy entry contributes nothing and never raises; a truthy non-dict raises; a truthy entry that succeeds contributes exactly one point |
| History.EntryDefaults | main.py:78-83 | a missing `heartRate` or `magnitude` becomes 0 and a missing timestamp gives the label `''`; present values pass through unchanged, and the label is the label of the record's own timestamp |
| History.BareEntry | main.py:78-83 | a non-empty record with none of the three fields yields the point (`''`, 0, 0) |
| History.EntryFailsExactly | main.py:74-79 | a truthy entry raises exactly when it is not a dict or its timestamp cannot be labelled |
| History.Entries | main.py:85-93 | a list answer is visited element by element and a dict answer value by value, in order; any other answer has nothing to visit |
| History.AggregateEntries | main.py:71-93 | the aggregation succeeds exactly when every entry can be processed, and then the three series have equal length, one element per truthy entry |
| History.AggregateInOrder | main.py:88-93 | the `k`-th point of the series is what the `k`-th truthy entry produced: order is preserved and nothing is re-sorted |
| History.AggregateAppend | main.py:88-93 | processing `xs + ys` is processing `xs` and then `ys`: the first exception wins, otherwise the series concatenate |
| History.AggregateStep | main.py:81-83 | one more entry processed without an exception appends its point to each of the three lists, or nothing if it is falsy |
| History.FalsyEntryIgnored | main.py:75 | inserting a falsy entry (`None`, `0`, `""`, `[]`, `{}`) anywhere leaves the result unchanged |
| History.HistoryData | main.py:64-98 | the body always has three series of equal length; a failed store read or a falsy answer gives the empty body |
| History.EmptyExactly | main.py:85-98 | the body is empty exactly when the read raised, some entry raised, or no entry is truthy; partial results are never returned |
| History.HistoryInOrder | main.py:88-93 | when every entry can be processed, the body has exactly one point per truthy entry (no more, no fewer), in the store's order |
| History.ListAndDictAgree | main.py:88-93 | a list and a dict presenting the same values in the same order give identical bodies |
| History.ScalarAnswerIsEmpty | main.py:85-95 | an answer that is neither a list nor a dict gives the empty body without raising |
| History.ReadingPoint | main.py:77-83 | a record with a `"DATE TIME"` timestamp charts as the first five characters of TIME and its two values |
| History.TwoReadings | main.py:88-95 | two records stored under the keys `"0"` and `"1"` chart as their times and values, in key order |
| History.TwoReadingsExample | main.py:91-95 | the readings at 09:00 and 09:01 chart as `["09:00","09:01"]`, `[72,75]` and `[1.1,0.9]` |
| History.CollectHistory | main.py:64-98 | the imperative loop, which appends to three lists and returns the empty body on the first exception, gives exactly `HistoryData` |
| Contacts.ToContact | main.py:126-130 | the stored contact's `name`, `phone` and `chat_id` are copied when present, and otherwise become `'Tanpa Nama'`, `'-'` and `''` |
| Contacts.ContactDefaults | main.py:126-130 | a stored contact with none of `name`, `phone` and `chat_id` becomes the contact `'Tanpa Nama'`, `'-'`, `''` |
| Contacts.ProjectChildren | main.py:123-131 | exactly one contact per dict-valued child, so there are never more contacts than children |
| Contacts.ProjectInOrder | main.py:124-130 | the `k`-th contact is the projection of the `k`-th dict-valued child: iteration order is kept |
| Contacts.ContactsJson | main.py:117-132 | the endpoint answers exactly when the data is falsy or a dict, and then the status is `"ok"`; otherwise it raises |
| Contacts.ProjectAppend | main.py:124-131 | projecting two runs of children is projecting each and concatenating |
| Contacts.NonDictChildDropped | main.py:125 | a child that is not a dict contributes nothing wherever it sits |
| Contacts.EmptyDictChildKept | main.py:125-130 | an empty dict child is kept and gets all three defaults |
| Current.CurrentData | main.py:52-58 | the answer is never falsy: a truthy value passes through unchanged and a falsy one becomes the placeholder record (zero heart rate, magnitude and temperature, "Menunggu Data...", "Normal", stable, not anomalous) |
| Current.CurrentIdempotent | main.py:52-58 | feeding the answer back in changes nothing |

## Left out

- Database access (`firebase_admin` set-up, `db.reference(...).get/push/delete`, main.py:13-18, 34-35, 48-49, 68-69, 103-114). This is external I/O, so the store's answer is an input. For history, a read that raised is the input `Failure(StoreUnavailable)`.
- The `order_by_key().limit_to_last(50)` query (main.py:68). Which records come back, and in what order, is decided by the store. The model takes the answer as given.
- FastAPI routing, the HTML pages `dashboard` and `contacts_page` (including its `value['id'] = key` step), the redirecting `add_contact` and `delete_contact`, and the uvicorn start-up (main.py:10, 20, 28-42, 101-115, 134-135). These are presentation, framework glue and configuration.
- The `print` in the history exception handler (main.py:97). It is a side effect only.
- Numbers are opaque reals. Python's distinction between `0` and `0.0`, and `72` and `72.0`, is not kept. The defaults `0` are modelled as `JNum(0.0)`. No arithmetic is done on numbers, and JSON has no NaN.
- Dicts are sequences of bindings, and the model does not require their keys to be distinct. A real Python dict binds each key once (a decoded JSON object keeps the last duplicate), and the store's keys are unique. So `Json.Get` returning the first binding, and `Json.Values`, `History.Entries` and `Contacts.ProjectChildren` visiting one value per binding, agree with Python only for dicts with distinct keys. With a repeated key the model would give one point or contact per binding.
- Exception kinds are coarse. Slicing a dict raises TypeError or KeyError depending on the Python version, and both are `BadSubscript`. The history handler treats every kind the same way.
- Contacts.ContactsJson: the escaping exception is a `Failure`. The framework's HTTP 500 response that follows is not modelled.
- Current.CurrentData: a store read that raises is not modelled. The source does not catch it, and the read is an input here.
