# Picapica email dispatch and delivery audit, in Dafny

Picapica is a photobooth web app. Its backend (`backend/server.js`) sends three kinds of mail:
- a contact-form message to the operator's own address (`/send-message`);
- a photo strip, attached inline, to a visitor (`/send-photo-strip`);
- an admin-only diagnostic message (`/test-email`).

Every attempt is recorded in a per-day JSON log by `logEmailAttempt`. `/email-stats` folds every log into global and per-domain delivery statistics.

The project is split into these modules:

- `Text` (text.dfy): the JavaScript string operations the handlers rely on: `indexOf`, `includes`, `startsWith`, `endsWith` and `split` with a non-empty separator. They work on `seq<char>` and come with their meaning: first occurrence, no earlier occurrence, and pieces that join back to the input.
- `Validation` (validation.dfy): `validateEmail`, check by check in the source's order. The regular expression `^[^\s@]+@[^\s@]+\.[^\s@]+$` is a predicate over the positions of the `@` and of a dot. The validator is proved equal to a declarative description of the addresses it accepts.
- `DeliveryLog` (delivery_log.dfy): an audit entry and the log directory. The directory is a class `LogStore` holding a map from date to that day's entries, plus the set of dates whose file exists but does not parse. `Record` is `logEmailAttempt` as written. `RecordAt` is the corrected variant (see Findings).
- `EmailStats` (email_stats.dfy): the `/email-stats` fold, in two forms:
  - a specification function `Tally` over the flattened entries;
  - the handler's own nested loops (`ComputeStats`, `CountLog`, `AddSuccessRates`), proved equal to that function.

  The module also proves lemmas about what the numbers mean and about the listing order.
- `Dispatch` (dispatch.dfy): the decision logic of the three send handlers, as pure functions. Each takes the request, the operator's address (`process.env.EMAIL`) and the transport's behaviour. It returns:
  - the HTTP reply;
  - the mail that would be handed to `sendMail`;
  - the attempt that would be logged.

  The module also contains the admin gate of `/email-stats` and `Serve`, which records a decision's attempt in the store as the handlers do, beside `ServeAt`, which records it under the date of its own timestamp.

The transport is an input. `verify()` either succeeds or fails with an error `{code, message}`. `sendMail()` either yields a message id or fails the same way. Everything else about SMTP is outside the model.

## Model

| member | source | states |
|---|---|---|
| Text.IndexOf | backend/server.js:50-51 | the result is the first position where the separator occurs, or none when it occurs nowhere (the basis of `includes`) |
| Text.Split | backend/server.js:54 | `split` always yields at least one piece |
| Text.SplitJoin | backend/server.js:54 | the pieces of `split` joined with the separator give back the input, and no piece contains the separator |
| Text.SplitAtOnlyOccurrence | backend/server.js:249-253 | with exactly one occurrence, `split` gives the text before it and the text after it |
| Text.SplitInTwo | backend/server.js:249-253 | when `split` gives exactly two pieces, they are the text before the first occurrence and the text after it, and the text after it holds no occurrence |
| Text.OnlyOccurrenceNear | backend/server.js:249-253 | with a first occurrence and none after its end, every occurrence overlaps the first |
| Text.LastPieceAtLeastTwo | backend/server.js:58-59 | the last piece after splitting on a character has at least two characters iff the text's last two characters are not that character |
| Validation.ValidateEmailMeaning | backend/server.js:44-62 | `validateEmail` accepts exactly the addresses that have one `@` with text before it; a dot after the `@` with text on both sides; no whitespace; no `..`; no leading dot; and neither of the last two characters a dot |
| Validation.AcceptedWhenValid | backend/server.js:44-62 | every accepted address has that shape |
| Validation.ValidWhenAccepted | backend/server.js:44-62 | every address of that shape is accepted |
| Validation.PatternGivesLongDomain | backend/server.js:46-55 | any string matching the pattern has a domain piece of at least three characters, so the `domain.length < 3` check never rejects |
| Validation.AcceptsExample | backend/server.js:44-62 | `user@example.com` is accepted |
| Validation.RejectsExamples | backend/server.js:44-62 | `a@b..c`, `.a@b.com`, `a@b.com.`, `a@@b.com`, `a@ab` and `a@b.c` are rejected |
| DeliveryLog.DateOfIsoReading | backend/server.js:104 | the file date of an ISO reading `<date>T<time>` is `<date>` |
| DeliveryLog.Appended | backend/server.js:107-115 | appending puts the entry at the end of its day's log, leaves every other day as it was, and leaves every day as it was when that day's file does not parse |
| DeliveryLog.AppendsKeepCallOrder | backend/server.js:107-115 | N appends to one readable day add exactly those N entries, in call order, at the end of that day's log and change no other day |
| DeliveryLog.AppendedKeepsDated | backend/server.js:94-115 | filing an entry under its own timestamp's date keeps every log holding only that day's entries |
| DeliveryLog.MisfiledWhenReadingsDiffer | backend/server.js:94-104 | when the two clock readings fall on different days, the entry lands in a log of another day |
| DeliveryLog.LastMillisecondOfDay | backend/server.js:94 | `2025-01-01T23:59:59.999Z` is dated 2025-01-01 |
| DeliveryLog.FirstMillisecondOfDay | backend/server.js:104 | `2025-01-02T00:00:00.000Z` is dated 2025-01-02 |
| DeliveryLog.LogStore.Record | backend/server.js:92-121 | `logEmailAttempt` as written: the entry built from the first reading is appended to the log of the second reading's date, nothing else changes, a day whose file does not parse is left as it was, and afterwards that day has a log iff its file parses |
| DeliveryLog.LogStore.RecordAt | backend/server.js:92-121 | the same with one clock reading; a store whose logs hold only their own day's entries keeps that property |
| EmailStats.DomainKeyOfValidAddress | backend/server.js:485-486 | for an accepted address the stats key is the whole text after its `@` |
| EmailStats.NoDomainKeyWithoutAt | backend/server.js:485-486 | a recipient without `@` is counted in the totals but in no domain |
| EmailStats.DomainKeyOfSoleAt | backend/server.js:485-486 | with a single `@` followed by text, the key is that text |
| EmailStats.TallyCounts | backend/server.js:474-497 | the totals count every entry, split by outcome; a domain has a bucket iff some entry is keyed to it, and the bucket counts exactly those entries, split by outcome |
| EmailStats.TallyInvariants | backend/server.js:474-497 | total = successes + failures; every bucket is non-empty and splits the same way; the buckets' attempts add up to the entries that have a key, so to at most the total, and to the total when every entry has a key |
| EmailStats.StepAttemptSum | backend/server.js:484-497 | one entry raises the buckets' attempt sum by one if it has a key, else leaves it |
| EmailStats.ReportMeaning | backend/server.js:509-521 | the report's totals and buckets are the exact counts; the global rate is `"0%"` iff there were no attempts; no domain's rate is the `"0%"` case |
| EmailStats.TallyOfSixAttempts | backend/server.js:474-521 | three successes and a failure to one domain, then two successes to another, give 6 attempts, 5 delivered, rate 5/6, and 3/4 and 2/2 per domain |
| EmailStats.StatsExample | backend/server.js:474-521 | that example with `x@a.com` and `y@b.com`, keyed `a.com` and `b.com` |
| EmailStats.CountsAdd | backend/server.js:468-501 | counts over two runs of entries add up |
| EmailStats.TallyByCounts | backend/server.js:474-497 | two runs with the same counts give the same tallies |
| EmailStats.TallySwap | backend/server.js:468-501 | swapping two blocks of entries does not change the tallies |
| EmailStats.TallyExtend | backend/server.js:474-501 | equal tallies stay equal when further entries are folded onto both |
| EmailStats.FlattenAppend | backend/server.js:468-472 | listing two runs of days flattens to the entries of one run and then the other |
| EmailStats.ListingTallies | backend/server.js:462-506 | listings that are permutations of each other give the same tallies |
| EmailStats.ListingOrderIrrelevant | backend/server.js:462-521 | the statistics do not depend on the order of the directory listing |
| EmailStats.ComputeStats | backend/server.js:462-521 | the handler's loops compute exactly the statistics of the listed days' entries |
| EmailStats.CountDay | backend/server.js:474-501 | the inner `forEach` over one day's log continues the counters exactly as the fold continues over that day's entries |
| EmailStats.CountLog | backend/server.js:475-497 | the body of the inner `forEach` moves the counters and buckets exactly as one step of the fold does |
| EmailStats.AddSuccessRates | backend/server.js:509-514 | the second pass gives every bucket its rate and keeps its counts |
| Dispatch.ErrorReplyTable | backend/server.js:313-323 | EENVELOPE maps to 400 "Invalid recipient email address"; every other code maps to 500; ETIMEDOUT and EAUTH get their own messages; anything else gets "Failed to send email" |
| Dispatch.SendMessage | backend/server.js:155-211 | a missing field gives 400 "All fields are required" and an invalid sender 400 "Invalid email format", each with no mail and no log; otherwise exactly one attempt is logged to the operator; the mail is sent iff `verify()` succeeded, from and to the operator under the sender's name; the attempt succeeds iff `verify()` and `sendMail` both succeed, and then carries `sendMail`'s message id and no error details, and the reply is 200 "Email sent successfully"; a thrown error is logged with its code and message and the reply is 500 "Failed to send email" |
| Dispatch.ContactGuardsFirst | backend/server.js:158-166 | a contact form the guards reject gets the same reply whatever the transport does |
| Dispatch.ImageContentMeaning | backend/server.js:249-253 | image data is accepted iff `base64,` occurs in it exactly once, and the content is the text after that occurrence |
| Dispatch.DataUriContent | backend/server.js:249-253 | a data URI `<prefix>base64,<payload>` whose marker after the prefix is the first one and whose payload has no marker yields the payload |
| Dispatch.ImageContentExample | backend/server.js:249-253 | `data:image/bmp;base64,QUJD` yields `QUJD` |
| Dispatch.SendPhotoStrip | backend/server.js:214-331 | missing fields give 400 "Missing email or image data" and an invalid recipient 400 "Invalid email format", each with no log; a failed verify is logged and mapped through the error table even when the image data is malformed; malformed image data after a good verify gives a 400 with no log; otherwise one attempt to the recipient is logged; the mail is sent iff the guards pass, `verify()` succeeds and the image data splits, and it goes from "Picapica Photobooth" at the operator's address and attaches the image content; the attempt succeeds iff `verify()` and `sendMail` both succeed, and then the reply is 200 "Photo strip sent successfully!" with `sendMail`'s message id, which the log carries too, with no error details; a send failure is logged with its code and message and mapped through the error table |
| Dispatch.RejectedRecipient | backend/server.js:303-323 | an address the relay rejects (EENVELOPE) gives 400 "Invalid recipient email address" and exactly one failed attempt in the log |
| Dispatch.PhotoStripGuardsFirst | backend/server.js:224-236 | a photo-strip request the guards reject gets the same reply whatever the transport does |
| Dispatch.TestEmail | backend/server.js:354-451 | the reply is 401 "Unauthorized access" iff the key is not the admin key; a missing address gives 400 "Email parameter is required" and an invalid one 400 "Invalid email format", each with no log; otherwise one attempt to that address is logged, always with type `test_email`; the mail is sent iff `verify()` succeeded; the attempt succeeds iff `verify()` and `sendMail` both succeed, and then the reply is 200 "Test email sent successfully" with `sendMail`'s message id, which the log carries too, with details exactly `{type: "test_email"}`; otherwise the reply is 500 "Failed to send test email" and the thrown error's code and message are logged |
| Dispatch.TestGuardsFirst | backend/server.js:359-372 | a request the admin-key, parameter and format checks reject gets the same reply whatever the transport does |
| Dispatch.EmailStatsEndpoint | backend/server.js:454-526 | the statistics are refused iff the key is not the admin key, and otherwise are the statistics of the listed days |
| Dispatch.Serve | backend/server.js:92-121 | as the handlers do through `logEmailAttempt`: a decision's reply is returned unchanged; its attempt, if any, is stamped with the first clock reading and appended to the log of the second reading's date, and nothing else changes; the logs stay dated when both readings fall on one day |
| Dispatch.ServeAt | backend/server.js:92-121 | the corrected orchestration: the attempt is appended to the log of its own timestamp's date, and the logs stay dated |

Where the code and the system's written description differ, the model follows the code:
- **Stats key.** The key is `split('@')[1]`, the text between the first and second `@`, not "the text after `@`". For accepted addresses the two agree (`DomainKeyOfValidAddress`).
- **Photo-strip order.** The transport is verified before the image data is split. A verify failure is therefore logged even when the image data is malformed. Malformed image data after a good verify is not logged, so not every accepted request records an attempt.
- **Test-email log.** The successful test send logs `errorDetails` with type `test_email`, not null.
- **Dead length check.** The validator's `domain.length < 3` check never rejects anything (`PatternGivesLongDomain`).
- **Entry date.** A log entry's file date comes from a second clock reading (see Findings).

## Left out

- HTTP wiring:
  - Express routing, CORS, JSON body limits and static file serving;
  - the upload, image listing and saved-email endpoints and their directories;
  - the root endpoint and the start-up directory creation.

  These are not part of the email layer.
- The transport:
  - `createTransporter`'s configuration (pooling, rate limits, timeouts, TLS);
  - the diagnostic transport of `/test-email`;
  - SMTP itself.

  `verify` and `sendMail` are inputs that either succeed or fail with a code and a message.
- The 300 ms pause before the photo-strip send. It is a delay only and changes no outcome.
- Mail rendering: subjects, plain-text and HTML bodies, the newline-to-`<br>` rewrite, the attachment's file name, `cid` and MIME encoding, and base64 decoding. A `Mail` keeps the display name, sender, recipient and attachment content.
- Reply bodies: the `success` flag, the `error` fields (`error.message`, `error.toString()`, `error.response`), and the test send's `response`, `accepted`, `rejected` and `envelope` details. A `Reply` keeps the status, the message and the message id.
- The clock:
  - readings are parameters;
  - `toISOString` formatting is taken as given;
  - `DateOf` takes the text before the first `T`.
- Console output and the logger's catch-all. A failed write is not modelled: a date whose file exists but does not parse is the one read failure modelled, and it leaves the store unchanged.
- The JSON text of `errorDetails`. The object is stored as a value; `JSON.stringify` dropping undefined fields is not modelled.
- Concurrent requests. Two interleaved read-modify-write appends to one day can lose an entry; the model runs requests one at a time.
- `EmailStats.ComputeStats`:
  - the directory listing is a parameter, a sequence of day dates;
  - files not ending in `.json` are not modelled;
  - a failing `readdirSync` (reply 500) is not modelled.
- `EmailStats.ComputeStats`: entries are well-formed records. An entry whose `recipient` is not a string is counted in the totals but in no domain, and that is not modelled.
- `EmailStats.TallyInvariants`: a `null` entry in a log file is not modelled. Line 475 counts it in `totalAttempts`, then line 477 throws and the rest of that file is skipped. Afterwards `totalAttempts` exceeds `successfulDeliveries + failedDeliveries`, so the source does not keep the invariant total = successes + failures in that case.
- `EmailStats.TallyCounts`: `domainStats` is modelled as a map, not as a JavaScript object. A key that names an `Object.prototype` member (`x@constructor`, `x@toString`, `x@__proto__`) finds an inherited truthy value at line 487, so no bucket is created. Lines 491-496 then write `NaN` onto that inherited object, and `Object.keys` never lists the key. In the source such an entry has no bucket, so the buckets sum to less than the total even when every entry has a key; `TallyInvariants` does not hold then either.
- The photo-strip and test handlers log only validated addresses, whose key contains a `.`, so neither case arises from their writes. The contact form logs the operator's own configured address (`process.env.EMAIL`), which nothing validates; in the model it is the unconstrained parameter `operator`. The prototype-key case is therefore excluded only when that address is an ordinary one.
- `EmailStats.Rate`: the percentage keeps the exact ratio `success/attempts`. Printing it with `toFixed(2)` and `%` (so `83.33%`) is not modelled.
- The order of keys in the `domainStats` JSON object (first-seen order). A Dafny map has no order.
- Request fields that are not strings: arrays from repeated query parameters, numbers in a JSON body, and a non-string message that would throw inside the contact handler. Fields are `Option<string>`, and any non-empty string is truthy.
- An unset `process.env.EMAIL`. The operator's address is a string parameter.
- Strings are sequences of Unicode characters. JavaScript counts UTF-16 code units, so lengths differ for characters outside the Basic Multilingual Plane.
- The browser front end.

## Findings

| source | as written | input that shows it | evidently intended | confidence | as-written member | corrected member |
|---|---|---|---|---|---|---|
| backend/server.js:94-104 | the entry's timestamp and the log file's date come from two separate `new Date()` readings | first reading `2025-01-01T23:59:59.999Z`, second `2025-01-02T00:00:00.000Z`: the entry stamped 1 January is written to the 2 January log | file every entry under the date of its own timestamp, so each day's log holds exactly that day's attempts | medium, not executed | DeliveryLog.MisfiledWhenReadingsDiffer | DeliveryLog.LogStore.RecordAt |

`DeliveryLog.LogStore.Record` models the code as written. `LastMillisecondOfDay` and `FirstMillisecondOfDay` date the two readings above. `MisfiledWhenReadingsDiffer` shows that the appended store then has an entry in another day's log. `RecordAt` reads the clock once and keeps every log dated (`AppendedKeepsDated`). `Dispatch.Serve` orchestrates the handlers as written, through `Record`; `Dispatch.ServeAt` is the corrected orchestration, through `RecordAt`.
