/** DomainFilterMessageHandler: one SMTP transaction at a time, it records the
    sender, accepts only recipients in the configured domain, and on DATA
    turns the message into an IncomingEmailPayload that it hands to the
    forward client. Reading the stream, Base64 encoding and MIME parsing are
    not part of this model: their results arrive as inputs. */
module Smtp {
  import opened Text
  import opened MultiMaps
  import opened Model
  import Mime
  import Forward

  /** recipient.trim().toLowerCase(Locale.ROOT) */
  function Normalize(address: string): string
  {
    ToLower(Trim(address))
  }

  /** No upper-case letter, and no character at most U+0020 at either end. */
  predicate IsNormalized(s: string) {
    !HasUpper(s) && (s == [] || (!IsTrimmed(s[0]) && !IsTrimmed(s[|s| - 1])))
  }

  lemma NormalizeShape(address: string)
    ensures IsNormalized(Normalize(address))
  {
    LowerKeepsEnds(Trim(address));
  }

  /** Lower-casing a trimmed string leaves it trimmed and free of upper case. */
  lemma LowerKeepsEnds(t: string)
    requires t == [] || (!IsTrimmed(t[0]) && !IsTrimmed(t[|t| - 1]))
    ensures IsNormalized(ToLower(t))
  {
    var r := ToLower(t);
    assert !HasUpper(r) by {
      forall i | 0 <= i < |r|
        ensures !('A' <= r[i] <= 'Z')
      {
        assert r[i] == LowerChar(t[i]);
      }
    }
    if t != [] {
      assert r[0] == LowerChar(t[0]);
      assert r[|r| - 1] == LowerChar(t[|t| - 1]);
    }
  }

  /** Normalizing leaves a normalized address as it is. */
  lemma NormalizedIsFixed(s: string)
    requires IsNormalized(s)
    ensures Normalize(s) == s
  {
    TrimOfTrimmed(s);
    assert forall i :: 0 <= i < |s| ==> LowerChar(s[i]) == s[i];
  }

  /** The RCPT TO check: the normalized address ends with "@" + the
      configured domain, which is used exactly as configured. */
  predicate Accepts(domain: string, address: string) {
    EndsWith(Normalize(address), "@" + domain)
  }

  /** A stored recipient is already normalized. */
  lemma NormalizeIdempotent(address: string)
    ensures Normalize(Normalize(address)) == Normalize(address)
  {
    NormalizeShape(address);
    NormalizedIsFixed(Normalize(address));
  }

  lemma NoUpperSuffixWithoutUpper(s: string, domain: string)
    requires !HasUpper(s) && HasUpper(domain)
    ensures !EndsWith(s, "@" + domain)
  {
    var suffix := "@" + domain;
    var j :| 0 <= j < |domain| && 'A' <= domain[j] <= 'Z';
    if |suffix| <= |s| {
      var k := |s| - |suffix| + 1 + j;
      assert suffix[1 + j] == domain[j];
      assert s[|s| - |suffix|..][1 + j] == s[k];
      assert !('A' <= s[k] <= 'Z');
    }
  }

  /** Only the address is lower-cased, never the domain: a configured domain
      with an upper-case letter rejects every recipient. */
  lemma MixedCaseDomainRejectsAll(domain: string, address: string)
    requires HasUpper(domain)
    ensures !Accepts(domain, address)
  {
    NormalizeShape(address);
    NoUpperSuffixWithoutUpper(Normalize(address), domain);
  }

  /** With a lower-case domain the check ignores case: addresses that differ
      only in the case of their letters are accepted or rejected together. */
  lemma AcceptsIgnoresCase(domain: string, a: string, b: string)
    requires ToLower(a) == ToLower(b)
    ensures Accepts(domain, a) <==> Accepts(domain, b)
    ensures Normalize(a) == Normalize(b)
  {
    TrimLowerCommute(a);
    TrimLowerCommute(b);
  }

  /** The names of the header lines, in message order. */
  function Names(hs: seq<Header>): (names: seq<string>)
    ensures |names| == |hs|
    ensures forall i :: 0 <= i < |hs| ==> names[i] == hs[i].name
  {
    seq(|hs|, i requires 0 <= i < |hs| => hs[i].name)
  }

  /** Each name once, in order of first occurrence. */
  function FirstOccurrences(names: seq<string>): (r: seq<string>)
    ensures forall x :: x in r <==> x in names
    ensures forall i, j :: 0 <= i < j < |r| ==> r[i] != r[j]
  {
    if names == [] then []
    else
      var init := FirstOccurrences(names[..|names| - 1]);
      var last := names[|names| - 1];
      assert names == names[..|names| - 1] + [last];
      if last in init then init else init + [last]
  }

  /** The values of the header lines named `name`, in message order. */
  function ValuesOf(hs: seq<Header>, name: string): seq<string>
  {
    if hs == [] then []
    else ValuesOf(hs[..|hs| - 1], name) + (if hs[|hs| - 1].name == name then [hs[|hs| - 1].value] else [])
  }

  /** The header multimap as the while loop over getAllHeaders() leaves it. */
  function Group(hs: seq<Header>): Headers
  {
    if hs == [] then []
    else Add(Group(hs[..|hs| - 1]), hs[|hs| - 1].name, hs[|hs| - 1].value)
  }

  /** The keys of the grouped headers are the header names in order of first
      occurrence, each once. */
  lemma {:induction false} GroupKeys(hs: seq<Header>)
    ensures Keys(Group(hs)) == FirstOccurrences(Names(hs))
  {
    if hs != [] {
      var init, last := hs[..|hs| - 1], hs[|hs| - 1];
      GroupKeys(init);
      AddKeys(Group(init), last.name, last.value);
      assert Names(hs)[..|hs| - 1] == Names(init);
    }
  }

  lemma GroupDistinct(hs: seq<Header>)
    ensures DistinctKeys(Group(hs))
  {
    GroupKeys(hs);
    var g := Group(hs);
    assert forall i :: 0 <= i < |g| ==> g[i].0 == Keys(g)[i];
  }

  /** Each name's values are exactly that name's header values, in message
      order. */
  lemma {:induction false} GroupLookup(hs: seq<Header>, name: string)
    ensures Lookup(Group(hs), name) == ValuesOf(hs, name)
  {
    if hs != [] {
      var init, last := hs[..|hs| - 1], hs[|hs| - 1];
      GroupLookup(init, name);
      AddLookup(Group(init), last.name, last.value, name);
    }
  }

  /** Grouping loses no header line: the multimap holds one value per line. */
  lemma {:induction false} GroupSize(hs: seq<Header>)
    ensures Size(Group(hs)) == |hs|
  {
    if hs != [] {
      var init, last := hs[..|hs| - 1], hs[|hs| - 1];
      GroupSize(init);
      SizeAdd(Group(init), last.name, last.value);
    }
  }

  /** headers.computeIfAbsent(h.getName(), ...).add(h.getValue()) for every
      header line in turn. */
  method GroupHeaders(hs: seq<Header>) returns (headers: Headers)
    ensures headers == Group(hs)
  {
    headers := [];
    var i := 0;
    while i < |hs|
      invariant 0 <= i <= |hs|
      invariant headers == Group(hs[..i])
    {
      assert hs[..i + 1][..i] == hs[..i];
      headers := Add(headers, hs[i].name, hs[i].value);
      i := i + 1;
    }
    assert hs[..i] == hs;
  }

  /** What jakarta.mail makes of the bytes of DATA: either reading or parsing
      them throws, or a message with its decoded subject (null when absent),
      its header lines in order, and its part tree. */
  datatype MimeMessage =
    | Unparseable
    | Parsed(subject: Option<string>, headers: seq<Header>, body: Mime.Part)

  /** The payload `data` builds from the transaction state and the message,
      or None when parsing or body extraction throws. */
  function PayloadOf(mailFrom: Option<string>, rcptTo: seq<string>, rawBase64: string, message: MimeMessage)
    : Option<IncomingEmailPayload>
  {
    match message
    case Unparseable => None
    case Parsed(subject, hs, body) =>
      match Mime.Extract(body)
      case Thrown => None
      case Bodies(text, html) =>
        Some(IncomingEmailPayload(Some(OrEmpty(mailFrom)), Some(rcptTo), Some(OrEmpty(subject)),
                                  Some(text), Some(html), Group(hs), Some(rawBase64)))
  }

  /** The payload, field by field, against independent descriptions: it is
      built exactly when the message parses and no part throws; the sender is
      the recorded one or ""; the recipients are the recorded list; the
      bodies are the first non-empty text and HTML bodies in pre-order; the
      headers map each name, in order of first occurrence, to its values. */
  lemma PayloadFields(mailFrom: Option<string>, rcptTo: seq<string>, rawBase64: string, message: MimeMessage)
    ensures PayloadOf(mailFrom, rcptTo, rawBase64, message).Some?
            <==> message.Parsed? && !Mime.Throws(message.body)
    ensures PayloadOf(mailFrom, rcptTo, rawBase64, message).Some? ==>
              var p := PayloadOf(mailFrom, rcptTo, rawBase64, message).value;
              && p.mailFrom == Some(if mailFrom.Some? then mailFrom.value else "")
              && p.rcptTo == Some(rcptTo)
              && p.subject == Some(if message.subject.Some? then message.subject.value else "")
              && p.textBody == Some(Mime.FirstNonEmpty(Mime.Candidates(message.body, true)))
              && p.htmlBody == Some(Mime.FirstNonEmpty(Mime.Candidates(message.body, false)))
              && Keys(p.headers) == FirstOccurrences(Names(message.headers))
              && DistinctKeys(p.headers)
              && Size(p.headers) == |message.headers|
              && (forall name :: Lookup(p.headers, name) == ValuesOf(message.headers, name))
              && p.rawBase64 == Some(rawBase64)
  {
    if message.Parsed? {
      Mime.ExtractIsPreorder(message.body);
      GroupKeys(message.headers);
      GroupDistinct(message.headers);
      GroupSize(message.headers);
      forall name
        ensures Lookup(Group(message.headers), name) == ValuesOf(message.headers, name)
      {
        GroupLookup(message.headers, name);
      }
    }
  }

  /** What reaches the downstream endpoint: the first recipient as `to`, the
      sender or "", the subject or "", and the bodies only when non-empty. */
  lemma ForwardedForm(mailFrom: Option<string>, rcptTo: seq<string>, rawBase64: string, message: MimeMessage)
    requires PayloadOf(mailFrom, rcptTo, rawBase64, message).Some?
    ensures var form := Forward.FormFor(PayloadOf(mailFrom, rcptTo, rawBase64, message).value);
            var text := Mime.FirstNonEmpty(Mime.Candidates(message.body, true));
            var html := Mime.FirstNonEmpty(Mime.Candidates(message.body, false));
            && Lookup(form, "to") == [if rcptTo != [] then rcptTo[0] else ""]
            && Lookup(form, "from") == [if mailFrom.Some? then mailFrom.value else ""]
            && Lookup(form, "text") == (if text != "" then [text] else [])
            && Lookup(form, "html") == (if html != "" then [html] else [])
            && ("headers" in Keys(form) <==> message.headers != [])
  {
    var p := PayloadOf(mailFrom, rcptTo, rawBase64, message).value;
    Mime.ExtractIsPreorder(message.body);
    Forward.FormValues(p);
    Forward.FormKeys(p);
    assert p.headers == [] <==> message.headers == [] by {
      GroupSize(message.headers);
    }
  }

  /** Every recipient in the list is normalized and passed the domain check. */
  predicate AllAccepted(domain: string, recipients: seq<string>) {
    forall i :: 0 <= i < |recipients| ==> Stored(domain, recipients[i])
  }

  /** How `recipient` leaves an address it accepts. */
  predicate Stored(domain: string, address: string) {
    IsNormalized(address) && EndsWith(address, "@" + domain)
  }

  lemma AcceptedAppend(domain: string, recipients: seq<string>, address: string)
    requires AllAccepted(domain, recipients) && Accepts(domain, address)
    ensures AllAccepted(domain, recipients + [Normalize(address)])
  {
    var extended := recipients + [Normalize(address)];
    forall i | 0 <= i < |extended|
      ensures Stored(domain, extended[i])
    {
      if i < |recipients| {
        assert extended[i] == recipients[i];
      } else {
        NormalizeShape(address);
      }
    }
  }

  /** Every stored recipient passes the suffix check again. */
  lemma StoredIsAccepted(domain: string, address: string)
    requires Stored(domain, address)
    ensures Accepts(domain, address)
  {
    NormalizedIsFixed(address);
  }

  /** The `to` field forwarded downstream is the first accepted recipient,
      which is in the configured domain, or "" when nobody was accepted. */
  lemma ForwardedRecipientInDomain(domain: string, mailFrom: Option<string>, rcptTo: seq<string>,
                                   rawBase64: string, message: MimeMessage)
    requires AllAccepted(domain, rcptTo)
    requires PayloadOf(mailFrom, rcptTo, rawBase64, message).Some?
    ensures var to := Lookup(Forward.FormFor(PayloadOf(mailFrom, rcptTo, rawBase64, message).value), "to");
            if rcptTo == [] then to == [""]
            else to == [rcptTo[0]] && EndsWith(rcptTo[0], "@" + domain) && Accepts(domain, rcptTo[0])
  {
    ForwardedForm(mailFrom, rcptTo, rawBase64, message);
    if rcptTo != [] {
      assert Stored(domain, rcptTo[0]);
      StoredIsAccepted(domain, rcptTo[0]);
    }
  }

  lemma TrimExample()
    ensures Trim("USER@Tikrai.COM ") == "USER@Tikrai.COM"
  {
    var raw := "USER@Tikrai.COM ";
    assert TrimLeft(raw) == raw;
    assert raw[..|raw| - 1] == "USER@Tikrai.COM";
  }

  lemma LowerExample()
    ensures ToLower("USER@Tikrai.COM") == "user" + ("@" + "tikrai.com")
  {
    var r := ToLower("USER@Tikrai.COM");
    assert r[..4] == "user" by {
      assert r[0] == 'u' && r[1] == 's' && r[2] == 'e' && r[3] == 'r';
    }
    assert r[4..] == "@" + "tikrai.com" by {
      assert r[4] == '@' && r[5] == 't' && r[6] == 'i' && r[7] == 'k' && r[8] == 'r' && r[9] == 'a';
      assert r[10] == 'i' && r[11] == '.' && r[12] == 'c' && r[13] == 'o' && r[14] == 'm';
    }
    assert r == r[..4] + r[4..];
  }

  /** With the default domain, a mixed-case recipient with a trailing space
      is accepted and stored lower-cased. */
  lemma DefaultDomainAcceptsMixedCase()
    ensures Normalize("USER@Tikrai.COM ") == "user" + ("@" + "tikrai.com")
    ensures Accepts("tikrai.com", "USER@Tikrai.COM ")
  {
    TrimExample();
    LowerExample();
    var suffix := "@" + "tikrai.com";
    assert ("user" + suffix)[4..] == suffix;
  }

  /** A recipient of another domain is refused. */
  lemma OtherDomainRejected()
    ensures !Accepts("tikrai.com", "user@other.com")
  {
    var other := "user@other.com";
    assert TrimLeft(other) == other;
    assert TrimRight(other) == other;
    NormalizedIsFixed(other);
    assert other[3] != ("@" + "tikrai.com")[0];
  }

  class DomainFilterMessageHandler {
    const acceptedDomain: string
    /** app.forward.url of the forward client the handler calls. */
    const forwardUrl: string
    var mailFrom: Option<string>
    var rcptTo: seq<string>

    /** Every stored recipient is normalized and passed the domain check. */
    ghost predicate Valid()
      reads this
    {
      AllAccepted(acceptedDomain, rcptTo)
    }

    constructor(acceptedDomain: string, forwardUrl: string)
      ensures this.acceptedDomain == acceptedDomain && this.forwardUrl == forwardUrl
      ensures mailFrom == None && rcptTo == []
      ensures Valid()
    {
      this.acceptedDomain := acceptedDomain;
      this.forwardUrl := forwardUrl;
      mailFrom := None;
      rcptTo := [];
    }

    /** MAIL FROM: never rejects, records the sender verbatim. */
    method From(from: string) returns (reply: Reply)
      requires Valid()
      modifies this`mailFrom
      ensures Valid()
      ensures reply == Accepted
      ensures mailFrom == Some(from)
    {
      mailFrom := Some(from);
      reply := Accepted;
    }

    /** RCPT TO: a recipient outside the domain is rejected with 550 and the
        state is left alone; an accepted one is appended, normalized. */
    method Recipient(recipient: string) returns (reply: Reply)
      requires Valid()
      modifies this`rcptTo
      ensures Valid()
      ensures Accepts(acceptedDomain, recipient) ==>
                reply == Accepted && rcptTo == old(rcptTo) + [Normalize(recipient)]
      ensures !Accepts(acceptedDomain, recipient) ==>
                reply == RelayingDenied && rcptTo == old(rcptTo)
    {
      var r := ToLower(Trim(recipient));
      if !EndsWith(r, "@" + acceptedDomain) {
        return RelayingDenied;
      }
      AcceptedAppend(acceptedDomain, rcptTo, recipient);
      rcptTo := rcptTo + [r];
      reply := Accepted;
    }

    /** End of the transaction: both fields are cleared, from any state. */
    method Done()
      modifies this
      ensures Valid()
      ensures mailFrom == None && rcptTo == []
    {
      mailFrom := None;
      rcptTo := [];
    }

    /** DATA: builds the payload from the current state and forwards it; a
        failure to parse, an exception escaping body extraction, or a failed
        POST becomes 451. The handler's fields are not changed. `rawBase64`
        stands for the Base64 encoding of the bytes read, `posted` for the
        outcome of the POST. */
    method Data(rawBase64: string, message: MimeMessage, posted: bool)
      returns (reply: Reply, request: Option<Forward.Request>)
      ensures PayloadOf(mailFrom, rcptTo, rawBase64, message).None? ==>
                reply == ProcessingError && request == None
      ensures PayloadOf(mailFrom, rcptTo, rawBase64, message).Some? ==>
                request == Some(Forward.RequestFor(forwardUrl, PayloadOf(mailFrom, rcptTo, rawBase64, message).value))
                && reply == (if posted then Accepted else ProcessingError)
    {
      match message {
        case Unparseable =>
          return ProcessingError, None;
        case Parsed(subjectOrNull, hs, body) =>
          var subject := if subjectOrNull.Some? then subjectOrNull.value else "";
          var headers := GroupHeaders(hs);
          var bodies := Mime.ExtractBodies(body);
          if bodies.Thrown? {
            return ProcessingError, None;
          }
          var from := if mailFrom.Some? then mailFrom.value else "";
          var payload := IncomingEmailPayload(Some(from), Some(rcptTo), Some(subject),
                                              Some(bodies.text), Some(bodies.html), headers, Some(rawBase64));
          var sent, ok := Forward.Forward(forwardUrl, payload, posted);
          request := Some(sent);
          reply := if ok then Accepted else ProcessingError;
      }
    }
  }

  /** A sender recorded in one transaction does not leak into the next: after
      `done`, DATA forwards "" as the sender and "" as the recipient. */
  method SenderClearedByDone(h: DomainFilterMessageHandler, from: string, rawBase64: string, message: MimeMessage)
    returns (request: Option<Forward.Request>)
    requires h.Valid()
    modifies h
    ensures request.Some? ==> Lookup(request.value.form, "from") == [""] && Lookup(request.value.form, "to") == [""]
  {
    var _ := h.From(from);
    h.Done();
    var reply;
    reply, request := h.Data(rawBase64, message, true);
    if request.Some? {
      ForwardedForm(None, [], rawBase64, message);
    }
  }

  /** One transaction on a fresh handler for the default domain: the sender
      is recorded, a mixed-case recipient is stored normalized, a recipient
      of another domain is refused without changing the list. */
  method DefaultDomainSession(forwardUrl: string) returns (accepted: Reply, refused: Reply, stored: seq<string>)
    ensures accepted == Accepted && refused == RelayingDenied
    ensures stored == ["user" + ("@" + "tikrai.com")]
  {
    var h := new DomainFilterMessageHandler("tikrai.com", forwardUrl);
    var _ := h.From("a@ext.com");
    DefaultDomainAcceptsMixedCase();
    accepted := h.Recipient("USER@Tikrai.COM ");
    OtherDomainRejected();
    refused := h.Recipient("user@other.com");
    stored := h.rcptTo;
  }
}
