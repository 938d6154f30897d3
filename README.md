# Welcome-email fan-out, modelled in Dafny

This project models the welcome-email handler of the newsletter-subscription
service (`src/handlers/welcomeEmail/create.js`). The handler is a Lambda
function triggered by the DynamoDB Streams feed of the users table. It
receives a batch of stream records and does four things:

- it keeps the records whose `eventName` is `INSERT`;
- it reads `name.S`, `email.S` and `confirmed.BOOL` from each kept record's
  `NewImage`;
- it builds one welcome mail `{to, subject, html}` per kept record;
- it sends all mails to the mailer queue in a single `sendMessageBatch` call,
  one entry `{Id, MessageBody}` per mail.

Every outcome goes back through `callback(null, …)`: `'Mails created!'` on
success, `'Error -> ' + err.message` on any caught error.

Files and modules:

- `Wrappers.dfy`: `Option` (JavaScript's `undefined`) and `Result`.
- `JsonString.dfy`: the string part of `JSON.stringify` (ECMAScript's
  QuoteJSONString), a decoder for JSON string literals, and the round trip
  that connects them.
- `StreamRecords.dfy`: stream records, typed attribute values, and the field
  reads that can throw a `TypeError`.
- `WelcomeMail.dfy`: the subject, the HTML body, the mail builder (a method
  that appends to the HTML in place), and `JSON.stringify` of a mail with its
  decoder.
- `CreateHandler.dfy`: the INSERT filter, the mails pushed record by record,
  the rejection reason of `Promise.all`, the batch entries, the
  specification `FanOut` of one invocation, and the imperative `Handler`
  whose loop is proved equal to it.

JavaScript behaviour the model writes out:

- `.S` or `.BOOL` read on a present attribute of another DynamoDB type gives
  `undefined`, not an error.
- A missing `dynamodb`, `NewImage`, `name`, `email` or `confirmed` makes the
  next member read throw a `TypeError`. Its message uses V8's wording:
  `Cannot read properties of undefined (reading 'S')`.
- `${undefined}` renders as `undefined`.
- `JSON.stringify` leaves out a `to` whose value is `undefined`.
- `!confirmed` holds unless `confirmed` is `BOOL(true)`.
- `Promise.all` rejects with the reason of the first failing INSERT record,
  in batch order. This is because every callback finishes synchronously, so
  its promise is already settled when `Promise.all` subscribes to it. The
  loop still runs the later callbacks. The model does the same, but the mails
  they push are never sent.
- The k-th `shortid.generate()` call is the parameter `idOf(k)`.
- The outcome of `sendMessageBatch` is the parameter `sendError`: `None` if
  the queue accepts the batch, `Some(message)` if the call is rejected.

The handler sends all mails in one call. It does not split them into chunks
of the queue's batch limit, and the model follows the code: there is exactly
one send, whatever the number of mails.

## Model

| member | source | states |
|---|---|---|
| `StreamRecords.ReadUser` | src/handlers/welcomeEmail/create.js:12-17 | reading succeeds exactly when `dynamodb`, `NewImage`, `name`, `email` and `confirmed` are all present; the values are then the `S`/`BOOL` members (`undefined` for another type); otherwise the TypeError names the member read on `undefined` |
| `WelcomeMail.BuildMail` | src/handlers/welcomeEmail/create.js:18-29 | `to` is the record's email, the subject is `Bienvenido, <name>!`, the HTML starts with the welcome paragraph, and after it comes the confirmation paragraph when `confirmed` is falsy and nothing when it is truthy |
| `WelcomeMail.HtmlDetermines` | src/handlers/welcomeEmail/create.js:18-22 | two HTML bodies are equal exactly when they show the same name and agree on the truthiness of `confirmed` |
| `WelcomeMail.Subject` | src/handlers/welcomeEmail/create.js:27 | the subject is the greeting `Bienvenido, `, then the name, then `!` |
| `WelcomeMail.Html` | src/handlers/welcomeEmail/create.js:18-22 | the body starts with the welcome paragraph for the name; after it comes the confirmation paragraph when `confirmed` is falsy, and nothing when it is truthy |
| `WelcomeMail.MailOf` | src/handlers/welcomeEmail/create.js:18-29 | the mail is addressed to the user's email, its subject is `Bienvenido, <name>!`, and its body has the confirmation paragraph after the welcome paragraph exactly when `confirmed` is falsy; `MailOfDetermines` shows the mail is fixed by the email, the displayed name and the truthiness of `confirmed` |
| `StreamRecords.Message` | src/handlers/welcomeEmail/create.js:51-54 | a TypeError message says a member of `undefined` could not be read and names that member; a rejected send passes its own message on |
| `WelcomeMail.SubjectDetermines` | src/handlers/welcomeEmail/create.js:27 | two subjects are equal exactly when the names are equal |
| `WelcomeMail.MailOfDetermines` | src/handlers/welcomeEmail/create.js:25-29 | two users give the same mail exactly when they share email, displayed name and truthiness of `confirmed` |
| `JsonString.QuoteParses` | src/handlers/welcomeEmail/create.js:41 | the JSON string literal written for a string reads back as that string, leaving whatever follows untouched |
| `JsonString.EscapeParses` | src/handlers/welcomeEmail/create.js:41 | the escaped body of a string, followed by a closing quote, decodes to the string itself |
| `WelcomeMail.Stringify` | src/handlers/welcomeEmail/create.js:41 | the message body of a mail decodes back to that mail, so distinct mails get distinct bodies; the exact text (no escape for `/`, lower-case `\u00xx`, members in insertion order) is given by the bodies of `EscapeChar` and `Stringify` |
| `WelcomeMail.StringifyInjective` | src/handlers/welcomeEmail/create.js:41 | two mails have the same message body exactly when they are equal |
| `CreateHandler.Entries` | src/handlers/welcomeEmail/create.js:38-43 | one entry per mail, in mail order; the k-th carries the k-th generated id and a body that decodes to the k-th mail |
| `CreateHandler.FanOut` | src/handlers/welcomeEmail/create.js:36-54 | every outcome has no callback error; the response is `Mails created!` or starts with `Error -> `; a send, when made, is never empty |
| `CreateHandler.Handler` | src/handlers/welcomeEmail/create.js:5-55 | the loop that pushes mails record by record gives exactly the outcome `FanOut` specifies, and always calls back with no error |
| `CreateHandler.InsertsAppend` | src/handlers/welcomeEmail/create.js:10-11 | filtering a concatenation gives the concatenation of the filtered parts, so relative order is kept |
| `CreateHandler.InsertsSplit` | src/handlers/welcomeEmail/create.js:10-11 | each record adds itself, in its own place, to the filtered list when it is an INSERT, and adds nothing otherwise |
| `CreateHandler.Inserts` | src/handlers/welcomeEmail/create.js:11 | every kept record is an INSERT, and the filter never grows the batch; `InsertsSplit`, `InsertsEmpty` and `InsertsKeepsInserts` show it keeps exactly the INSERT records, in order |
| `CreateHandler.PushedMails` | src/handlers/welcomeEmail/create.js:7-31 | the `mails` list holds at most one mail per INSERT record; `MailsMatchInserts` gives exactly one per INSERT record, in order, when none is malformed |
| `CreateHandler.FirstError` | src/handlers/welcomeEmail/create.js:10-17 | the rejection reason of `Promise.all` is always a TypeError from a member read; `FirstErrorNone` and `FirstErrorEarliest` show it is that of the earliest malformed INSERT record |
| `CreateHandler.MalformedSomewhereNoSend` | src/handlers/welcomeEmail/create.js:10-54 | any malformed INSERT record means nothing is sent and the response is an `Error -> ` response, not `Mails created!` |
| `CreateHandler.InsertsKeepsInserts` | src/handlers/welcomeEmail/create.js:11 | a batch made only of INSERT records is kept whole |
| `CreateHandler.InsertsEmpty` | src/handlers/welcomeEmail/create.js:11 | nothing is kept exactly when no record is an INSERT |
| `CreateHandler.MailsMatchInserts` | src/handlers/welcomeEmail/create.js:10-33 | with no malformed INSERT record, there is exactly one mail per INSERT record, in record order, and the k-th mail is built from the k-th INSERT record |
| `CreateHandler.FirstErrorNone` | src/handlers/welcomeEmail/create.js:10-17 | the batch is read without error exactly when every INSERT record can be read |
| `CreateHandler.FirstErrorEarliest` | src/handlers/welcomeEmail/create.js:10-17 | a reported error is the error of the first INSERT record that cannot be read; every INSERT record before it is read without error |
| `CreateHandler.NoInsertsNoSend` | src/handlers/welcomeEmail/create.js:36-50 | with no INSERT record, the empty batch included, nothing is sent and the response is `Mails created!` |
| `CreateHandler.MalformedNoSend` | src/handlers/welcomeEmail/create.js:51-54 | when some INSERT record is malformed, nothing is sent and the response is `Error -> ` followed by the message of the earliest malformed INSERT record |
| `CreateHandler.OneSend` | src/handlers/welcomeEmail/create.js:36-45 | with INSERT records and none malformed, exactly one send is made. It has one entry per INSERT record, in order; the k-th entry has the k-th id and the serialised mail of the k-th record, which decodes back to that mail. The response is `Mails created!` unless the send is rejected, then `Error -> ` and its message |
| `CreateHandler.DistinctEntryIds` | src/handlers/welcomeEmail/create.js:40 | distinct generated ids give distinct entry ids within the batch |
| `CreateHandler.DistinctBodies` | src/handlers/welcomeEmail/create.js:41 | distinct mails give distinct message bodies |

## Left out

- `src/handlers/database/saveUser.js` is not part of this model. It parses the SNS message and calls the DocumentClient's `put`, and has no logic of its own beyond the same catch-all response.
- The SQS client and `sendMessageBatch`: the model records the entry list that would be sent. The network call is left out, and so are the per-entry results SQS returns. A rejected call is reduced to the input `sendError`. The model allows `sendError == None` for any number of entries, but the real queue rejects a whole call with more than ten entries.
- `shortid.generate()`: ids are the input function `idOf`; distinctness is only assumed where a lemma needs it.
- `process.env.queueURL`: ambient configuration. Its only effect is folded into the input `sendError`: a missing or wrong URL makes the SDK reject `sendMessageBatch`, which shows up as a rejected send.
- `console.log`: logging, with no effect on the outcome.
- `Promise.all` and async scheduling: the callbacks contain no `await`, so the model runs them as a sequential loop.
- `StreamRecords.Message`: the TypeError text follows V8 9.3 and later (Node 16.9 and later). Node 12, Node 14 and early Node 16 releases word it as "Cannot read property 'S' of undefined".
- `JSON.stringify` is modelled only for the mail object, whose three members are strings or `undefined`. Lone surrogates cannot occur, because Dafny characters are Unicode scalar values.
- `event.Records` is treated as either missing or a list of records. Records that are not objects are not modelled.
