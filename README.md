# tikrai-mail-receiver: the SMTP handler and the forward client, in Dafny

The mail receiver is an inbound relay. It accepts SMTP transactions for one
configured domain. It turns each delivered message into an
`IncomingEmailPayload`: sender, recipients, subject, plain-text and HTML
bodies, grouped headers and the raw bytes in Base64. It then posts that
payload as a form to one downstream HTTP endpoint.

This project models the two classes that hold the logic:

- `DomainFilterMessageHandler` (module `Smtp`, with `Mime` for the body walk).
  - `from` records the sender.
  - `recipient` trims and lower-cases the address, then accepts it only when
    it ends with `"@" + acceptedDomain`. Otherwise it refuses with 550
    "Relaying denied".
  - `done` clears the transaction.
  - `data` groups the headers, extracts the first plain-text and first HTML
    body, builds the payload and forwards it. Any exception becomes 451
    "Processing error".
- `ForwardClient.forward`, up to the HTTP call (module `Forward`).
  - It picks the single `to` address.
  - It flattens the headers into `Name: v1, v2` lines.
  - It builds the ordered form with its optional `text`, `html` and
    `headers` fields.
  - It builds the curl command line that is logged, with its single-quote
    escaping.

The supporting modules:

- `Text`: the parts of `java.lang.String` that are used. `trim`,
  lower-casing restricted to ASCII, `endsWith`, `String.join`, and a
  `Split` that undoes a join.
- `MultiMaps`: `LinkedHashMap<String, List<String>>` and
  `LinkedMultiValueMap<String, String>` as one type. It is a sequence of
  (key, values) entries in insertion order.
- `Model`: `IncomingEmailPayload` with its seven fields, Java `null` as
  `Option.None`, and the SMTP replies.

## How the code is modelled

- The handler is a class with the fields `mailFrom` and `rcptTo`.
  - `From`, `Recipient` and `Done` change them in place.
  - `Data` changes nothing and returns the reply together with the request
    it sent.
  - The invariant `Valid()` holds after every method: every stored
    recipient is normalized and passes the domain check.
- The header loop (`GroupHeaders`), the body walk (`Mime.ExtractBodies`)
  and the curl builder (`Forward.BuildCurl`) are methods with loops. The
  form builder (`Forward.BuildForm`) is a method made of successive `add`
  calls. Each is proved equal to a function that follows the code
  (`Group`, `Extract`, `Curl`, `FormFor`).
- Each of those functions is related by lemmas to an independent
  description:
  - header grouping to first occurrences, per-name filtering and a count
    of values;
  - extraction to a pre-order list of candidate bodies;
  - the form to its key order and lookups;
  - the curl body to splitting it back at `&`.
- jakarta.mail produces the part tree, and the model takes that tree as
  input (`Mime.Part`).
  - Each text part carries the outcome of `getContent()`: a string, or a
    failure tagged `ClassCast` or `OtherError`.
  - A multipart carries its body parts, or says that its content was not a
    `Multipart` or could not be read (`MultipartFailed`).
- A parse or read failure before extraction is `MimeMessage.Unparseable`.
  The Base64 text and the outcome of the POST are parameters of `Data`.

### Where the code departs from the intended behaviour

The model follows the code in each of these cases.

- Recipient matching is meant to be a case-insensitive suffix match. The
  code lower-cases only the address and uses `acceptedDomain` as
  configured (DomainFilterMessageHandler.java lines 36, 48, 50). With a
  domain that contains an upper-case letter, every recipient is refused
  (`Smtp.MixedCaseDomainRejectsAll`). With a lower-case domain, such as
  the default `tikrai.com`, the match ignores case
  (`Smtp.AcceptsIgnoresCase`).
- A failure in one body part is meant never to abort extraction.
  - The code catches only `ClassCastException` (line 160).
  - Every other exception escapes `extractBodies`, and `data` turns the
    whole message into 451. That includes the explicit exception for
    multipart content that is not a `Multipart` (line 152).
  - In the model such a part makes `Mime.Extract` return `Thrown`.
- If `getSubject` throws, the code answers 451: the exception reaches the
  `catch` at line 100. The model treats that case as `Unparseable`. A
  subject jakarta.mail cannot decode is returned raw and arrives as
  `Parsed(Some(raw), ...)`.
- The forwarded request carries no API-key header and no raw Base64 blob,
  although the payload holds the blob. The form has only `to`, `from`,
  `subject`, `text`, `html` and `headers`.

## Model

| member | source | states |
|---|---|---|
| Text.Trim | src/main/java/com/tikrai/mailreceiver/smtp/DomainFilterMessageHandler.java:48 | The trimmed address starts and ends with a character above U+0020, as `String.trim` leaves it |
| Text.TrimIsSlice | src/main/java/com/tikrai/mailreceiver/smtp/DomainFilterMessageHandler.java:48 | `trim` keeps the middle of the address unchanged: the result is the slice of the input after its leading run, and every character cut from either end is at most U+0020 |
| Text.TrimLowerCommute | src/main/java/com/tikrai/mailreceiver/smtp/DomainFilterMessageHandler.java:48 | Trimming and lower-casing commute, so the order of `trim().toLowerCase()` does not matter |
| Text.SplitJoin | src/main/java/com/tikrai/mailreceiver/forward/ForwardClient.java:91-98 | Parts joined with a separator they do not contain are recovered exactly by cutting at that separator |
| MultiMaps.AddKeys | src/main/java/com/tikrai/mailreceiver/smtp/DomainFilterMessageHandler.java:77 | `computeIfAbsent(...).add` keeps the key order and appends a key it has not seen as the last key |
| MultiMaps.AddLookup | src/main/java/com/tikrai/mailreceiver/smtp/DomainFilterMessageHandler.java:77 | Adding v under k appends v to k's values and leaves every other key's values unchanged |
| MultiMaps.AddDistinct | src/main/java/com/tikrai/mailreceiver/smtp/DomainFilterMessageHandler.java:72-78 | Adding never makes a key appear twice |
| MultiMaps.AddNew | src/main/java/com/tikrai/mailreceiver/forward/ForwardClient.java:57-68 | Adding a new key appends it with the single value v; keys stay distinct and no other key changes |
| MultiMaps.SizeAdd | src/main/java/com/tikrai/mailreceiver/smtp/DomainFilterMessageHandler.java:77 | Every add grows the multimap by exactly one value |
| Mime.FirstNonEmpty | src/main/java/com/tikrai/mailreceiver/smtp/DomainFilterMessageHandler.java:156-157 | The chosen body is non-empty exactly when some candidate is non-empty |
| Mime.FirstNonEmptyIsFirst | src/main/java/com/tikrai/mailreceiver/smtp/DomainFilterMessageHandler.java:156-157 | A non-empty chosen body is one of the candidates, and every candidate before it is empty: the first non-empty body wins |
| Mime.ExtractIsPreorder | src/main/java/com/tikrai/mailreceiver/smtp/DomainFilterMessageHandler.java:120-170 | Extraction throws exactly when a part it reaches throws something other than a ClassCastException; otherwise it returns the first non-empty text body and, independently, the first non-empty HTML body in depth-first pre-order, with "" when there is none |
| Mime.MergeIsPreorder | src/main/java/com/tikrai/mailreceiver/smtp/DomainFilterMessageHandler.java:154-158 | The loop over the body parts of a multipart keeps the first non-empty text and HTML found in child order, and fails when any child fails |
| Mime.MergeThrownPrefix | src/main/java/com/tikrai/mailreceiver/smtp/DomainFilterMessageHandler.java:154-155 | Once a body part has thrown, no later part changes the outcome: the exception escapes the loop |
| Mime.ExtractBodies | src/main/java/com/tikrai/mailreceiver/smtp/DomainFilterMessageHandler.java:120-170 | The recursive method with its null-initialised locals and its loop computes exactly `Extract`: (content, "") for text/plain, ("", content) for text/html, ("", "") for other types or after a ClassCastException, `Thrown` for any other failure |
| Mime.FaultIsolation | src/main/java/com/tikrai/mailreceiver/smtp/DomainFilterMessageHandler.java:160-164 | Inserting, anywhere among the body parts, a part from which extraction yields ("", "") without throwing leaves the result unchanged. Such parts include empty text parts, parts whose content raised a ClassCastException, multiparts whose content raised one, and attachments |
| Mime.PlainThenHtml | src/main/java/com/tikrai/mailreceiver/smtp/DomainFilterMessageHandler.java:143-158 | A multipart holding a plain-text part and then an HTML part yields both bodies |
| Mime.FirstPlainWins | src/main/java/com/tikrai/mailreceiver/smtp/DomainFilterMessageHandler.java:156 | Of two non-empty plain-text parts the first is kept and the later one is discarded |
| Forward.FirstRecipient | src/main/java/com/tikrai/mailreceiver/forward/ForwardClient.java:38-40 | `to` is the first recipient when the list is non-null and non-empty, otherwise "" |
| Forward.HeadersStringEmpty | src/main/java/com/tikrai/mailreceiver/forward/ForwardClient.java:51-53 | The flattened headers are empty exactly when the header map is empty |
| Forward.FormKeys | src/main/java/com/tikrai/mailreceiver/forward/ForwardClient.java:56-68 | The form's keys are distinct and are to, from, subject, then text if the text body is non-null and non-empty, html likewise, then headers if there are headers, in that order |
| Forward.FormValues | src/main/java/com/tikrai/mailreceiver/forward/ForwardClient.java:57-65 | `to` holds the first recipient; `from` and `subject` hold their values, with null sent as ""; `text` and `html` hold their body when present and nothing otherwise |
| Forward.FormHeaders | src/main/java/com/tikrai/mailreceiver/forward/ForwardClient.java:51-68 | `headers` holds the flattened `Name: v1, v2` lines when the message has headers, and is absent otherwise |
| Forward.AddAppends | src/main/java/com/tikrai/mailreceiver/forward/ForwardClient.java:57-67 | `add` on a key the form does not hold appends one entry at the end |
| Forward.AddFixedFields | src/main/java/com/tikrai/mailreceiver/forward/ForwardClient.java:57-59 | The three unconditional adds yield exactly the entries to, from, subject in this order |
| Forward.AddIf | src/main/java/com/tikrai/mailreceiver/forward/ForwardClient.java:60-68 | A guarded add appends its entry exactly when the guard holds and leaves the form unchanged otherwise |
| Forward.BuildForm | src/main/java/com/tikrai/mailreceiver/forward/ForwardClient.java:56-68 | The successive adds build exactly the form described by `FormFor` |
| Forward.EscapeRoundTrip | src/main/java/com/tikrai/mailreceiver/forward/ForwardClient.java:96 | Turning every `'\''` back into `'` recovers the value: the escaping loses nothing |
| Forward.EscapeWithoutQuote | src/main/java/com/tikrai/mailreceiver/forward/ForwardClient.java:95-96 | A value without a quote is sent unchanged: nothing is URL-encoded, despite the comment |
| Forward.CurlPairs | src/main/java/com/tikrai/mailreceiver/forward/ForwardClient.java:91-98 | Cut at '&', the curl body gives one `key=value` pair per form entry in insertion order, with the first value escaped, and no empty pair at either end, as long as no key or value holds '&' |
| Forward.CurlNotUrlEncoded | src/main/java/com/tikrai/mailreceiver/forward/ForwardClient.java:94-97 | Because values are not URL-encoded, a `to` of `a&from=b` logs the same command line as the two fields `to=a` and `from=b` |
| Forward.BuildCurl | src/main/java/com/tikrai/mailreceiver/forward/ForwardClient.java:87-99 | The StringBuilder loop with its `first` flag builds exactly `Curl(url, form)`: the fixed prefix, then the pairs of all form keys in order separated by '&', inside single quotes |
| Forward.Forward | src/main/java/com/tikrai/mailreceiver/forward/ForwardClient.java:36-102 | The request holds the form `FormFor(payload)` and the curl line for that form; the call succeeds exactly when the POST does |
| Smtp.NormalizeShape | src/main/java/com/tikrai/mailreceiver/smtp/DomainFilterMessageHandler.java:48 | A normalized address has no upper-case letter and no character at most U+0020 at either end |
| Smtp.NormalizeIdempotent | src/main/java/com/tikrai/mailreceiver/smtp/DomainFilterMessageHandler.java:48 | Normalizing a stored recipient again changes nothing |
| Smtp.MixedCaseDomainRejectsAll | src/main/java/com/tikrai/mailreceiver/smtp/DomainFilterMessageHandler.java:48-50 | With a configured domain that holds an upper-case letter, every recipient is refused, because only the address is lower-cased |
| Smtp.AcceptsIgnoresCase | src/main/java/com/tikrai/mailreceiver/smtp/DomainFilterMessageHandler.java:48-50 | Addresses that differ only in letter case normalize alike and are accepted or refused together |
| Smtp.DefaultDomainAcceptsMixedCase | src/main/java/com/tikrai/mailreceiver/smtp/DomainFilterMessageHandler.java:48-50 | With domain `tikrai.com`, "USER@Tikrai.COM " is accepted and normalized to "user@tikrai.com" |
| Smtp.OtherDomainRejected | src/main/java/com/tikrai/mailreceiver/smtp/DomainFilterMessageHandler.java:50-52 | With domain `tikrai.com`, "user@other.com" is refused |
| Smtp.GroupHeaders | src/main/java/com/tikrai/mailreceiver/smtp/DomainFilterMessageHandler.java:72-78 | The header loop builds exactly `Group(hs)` |
| Smtp.GroupKeys | src/main/java/com/tikrai/mailreceiver/smtp/DomainFilterMessageHandler.java:72-78 | The keys of the grouped headers are the header names in order of first occurrence, each once |
| Smtp.GroupDistinct | src/main/java/com/tikrai/mailreceiver/smtp/DomainFilterMessageHandler.java:72-78 | No header name appears twice among the keys |
| Smtp.GroupLookup | src/main/java/com/tikrai/mailreceiver/smtp/DomainFilterMessageHandler.java:75-78 | Each name's values are exactly the values of the header lines with that name, in message order |
| Smtp.GroupSize | src/main/java/com/tikrai/mailreceiver/smtp/DomainFilterMessageHandler.java:75-78 | The grouped headers hold as many values as there are header lines |
| Smtp.PayloadFields | src/main/java/com/tikrai/mailreceiver/smtp/DomainFilterMessageHandler.java:81-94 | A payload is built exactly when the message parses and no part throws. Its sender is the recorded one or "", its recipients the recorded list, its subject the decoded one or "", and its bodies the first non-empty text and HTML in pre-order. Its headers are grouped by name in order of first occurrence with all their values, and its raw field is the Base64 text |
| Smtp.ForwardedForm | src/main/java/com/tikrai/mailreceiver/smtp/DomainFilterMessageHandler.java:86-97 | The form posted for a message carries the first recipient or "", the sender or "", the bodies only when non-empty, and a headers field exactly when the message has headers |
| Smtp.AcceptedAppend | src/main/java/com/tikrai/mailreceiver/smtp/DomainFilterMessageHandler.java:48-54 | Appending an accepted address in normalized form keeps every entry normalized and ending with "@" + domain |
| Smtp.StoredIsAccepted | src/main/java/com/tikrai/mailreceiver/smtp/DomainFilterMessageHandler.java:50-54 | Every stored recipient passes the suffix check again |
| Smtp.ForwardedRecipientInDomain | src/main/java/com/tikrai/mailreceiver/smtp/DomainFilterMessageHandler.java:47-56 | The `to` field forwarded downstream is the first accepted recipient, which lies in the configured domain, or "" when none was accepted |
| Smtp.DomainFilterMessageHandler.constructor | src/main/java/com/tikrai/mailreceiver/smtp/DomainFilterMessageHandler.java:32-38 | A new handler has no sender and no recipients |
| Smtp.DomainFilterMessageHandler.From | src/main/java/com/tikrai/mailreceiver/smtp/DomainFilterMessageHandler.java:41-44 | MAIL FROM never refuses and overwrites the sender with the argument verbatim; recipients are untouched |
| Smtp.DomainFilterMessageHandler.Recipient | src/main/java/com/tikrai/mailreceiver/smtp/DomainFilterMessageHandler.java:47-56 | An address whose normalized form does not end with "@" + domain is refused with 550 "Relaying denied" and the state is unchanged; otherwise the normalized form is appended at the end and earlier entries stay; the invariant is kept |
| Smtp.DomainFilterMessageHandler.Done | src/main/java/com/tikrai/mailreceiver/smtp/DomainFilterMessageHandler.java:107-112 | From any state, the sender becomes null and the recipient list empty, so calling it twice is the same as once |
| Smtp.DomainFilterMessageHandler.Data | src/main/java/com/tikrai/mailreceiver/smtp/DomainFilterMessageHandler.java:58-105 | A parse failure or an exception escaping extraction gives 451 "Processing error" and nothing is sent. Otherwise the request for `PayloadOf` of the current state is sent, and the reply is accepted exactly when the POST succeeds, else 451. The handler's fields are never changed |
| Smtp.SenderClearedByDone | src/main/java/com/tikrai/mailreceiver/smtp/DomainFilterMessageHandler.java:107-112 | After `done`, a later DATA forwards "" as sender and "" as recipient: nothing leaks from the previous transaction |
| Smtp.DefaultDomainSession | src/main/java/com/tikrai/mailreceiver/smtp/DomainFilterMessageHandler.java:41-56 | On a fresh handler for `tikrai.com`, "USER@Tikrai.COM " is accepted and stored as "user@tikrai.com", and "user@other.com" is refused without changing the list |

## Left out

- `SmtpServerConfig` is not part of this model. That covers server
  start-up, the property parsing, and the factory that hands one shared
  handler instance to every connection. The model drives one handler
  sequentially, so the data race between concurrent sessions is not
  represented.
- Reading the DATA stream, the Base64 encoding and MIME parsing by
  jakarta.mail are not modelled.
  - Their results are inputs: the Base64 text, and a `MimeMessage` that is
    either `Unparseable` or a subject, a header sequence and a part tree.
  - Every exception raised before extraction starts is folded into
    `Unparseable`. That includes a failing `getSubject` or `getAllHeaders`
    and an `IOException` while reading.
- `getContent()` and `isMimeType` are not modelled.
  - `isMimeType` wildcard matching becomes the part's tag.
  - The three ways a text part's content becomes a string (a `String`, an
    `InputStream` read to the end, `Objects.toString`) all become
    `Decoded(s)`.
  - Charset decoding by `new String(bytes)` with the platform default is
    not modelled.
- A malformed multipart is not told apart from one whose content cannot
  be read. jakarta.mail parses a multipart lazily, so a malformed one
  throws inside `mp.getCount()` (line 154). `MultipartFailed(OtherError)`
  stands for that case too, and extraction throws either way.
- A failure inside the `catch` block of `extractBodies` is not modelled:
  `part.getContentType()` could throw there.
- Stack exhaustion on a deeply nested message is not modelled. The Java
  walk has no depth limit, and a `StackOverflowError` is not an
  `Exception`, so the `catch` at line 100 would not turn it into 451.
- `Mime.ExtractBodies`: when a ClassCastException is caught, a part
  returns what it accumulated before the failure. In the code such an
  exception can only come from `getContent()` or the casts, which all run
  before the loop over body parts (each child catches its own). So the
  accumulated bodies are always empty, and the model gives ("", "").
- `Text.ToLower`: only ASCII letters are lower-cased. Full Unicode case
  mapping of `toLowerCase(Locale.ROOT)` is not modelled. `trim` is
  modelled exactly: it strips characters up to U+0020 from both ends
  (`Text.TrimIsSlice`).
- The WebClient POST is not modelled: its 10-second timeout, `block()`,
  the error callbacks and the `WebClientResponseException` details. Its
  outcome is the `posted` parameter. The `timeoutMs` constructor argument
  is ignored by the code, and the model has no counterpart for it.
- All logging is not modelled, including the loop that previews form
  parameters.
- `Objects.requireNonNull` on the configured domain and the default
  `tikrai.com` are not modelled: the domain is a constructor argument.
- `IncomingEmailPayload` has no behaviour. Its fields are options where
  the forward client tests for null. `headers` is a plain multimap
  because `forward` dereferences it unconditionally.
