/** ForwardClient.forward up to the HTTP call: the choice of the single `to`
    address, the flattening of the header multimap, the ordered form sent to
    the downstream endpoint, and the curl command line logged beside it. The
    POST itself is not part of this model; its outcome is a parameter. */
module Forward {
  import opened Text
  import opened MultiMaps
  import opened Model

  /** The form as posted, and the curl command that would reproduce it. */
  datatype Request = Request(form: MultiMap, curl: string)

  /** Only the first recipient is forwarded; a null or empty list gives "". */
  function FirstRecipient(rcptTo: Option<seq<string>>): (to: string)
    ensures rcptTo.Some? && rcptTo.value != [] ==> to == rcptTo.value[0]
    ensures rcptTo.None? || rcptTo.value == [] ==> to == ""
  {
    if rcptTo.Some? && rcptTo.value != [] then rcptTo.value[0] else ""
  }

  function HeaderLine(entry: (string, seq<string>)): string
  {
    entry.0 + ": " + Join(", ", entry.1)
  }

  /** The header multimap flattened to "Name: v1, v2" lines joined by "\n". */
  function HeadersString(headers: Headers): string
  {
    Join("\n", seq(|headers|, i requires 0 <= i < |headers| => HeaderLine(headers[i])))
  }

  /** Every header line holds at least ": ", so the flattened headers are
      empty exactly when there are no headers. */
  lemma HeadersStringEmpty(headers: Headers)
    ensures HeadersString(headers) == "" <==> headers == []
  {
    if headers != [] {
      var lines := seq(|headers|, i requires 0 <= i < |headers| => HeaderLine(headers[i]));
      JoinStartsWithFirst("\n", lines);
      assert |lines[0]| >= 2;
    }
  }

  /** A form field that is added only when `present` holds. */
  function Field(present: bool, key: string, value: string): MultiMap
  {
    if present then [(key, [value])] else []
  }

  /** The form the client posts for `payload`, entry by entry: the three fixed
      fields, then `text`, `html` and `headers` when they are present, each
      key with its one value. */
  function FormFor(payload: IncomingEmailPayload): MultiMap
  {
    var headersStr := HeadersString(payload.headers);
    [("to", [FirstRecipient(payload.rcptTo)]), ("from", [OrEmpty(payload.mailFrom)]), ("subject", [OrEmpty(payload.subject)])]
    + Field(Present(payload.textBody), "text", OrEmpty(payload.textBody))
    + Field(Present(payload.htmlBody), "html", OrEmpty(payload.htmlBody))
    + Field(headersStr != "", "headers", headersStr)
  }

  /** An optional field for a new key keeps the keys distinct and, when
      present, adds its key last. */
  lemma FieldAppend(m: MultiMap, present: bool, key: string, value: string)
    requires DistinctKeys(m) && key !in Keys(m)
    ensures DistinctKeys(m + Field(present, key, value))
    ensures Keys(m + Field(present, key, value)) == Keys(m) + (if present then [key] else [])
  {
    KeysConcat(m, Field(present, key, value));
    if present {
      DistinctAppend(m, (key, [value]));
    } else {
      assert m + [] == m;
    }
  }

  /** The form's keys are distinct and come in the fixed order to, from,
      subject, text, html, headers; `text` and `html` are there exactly when
      their body is non-null and non-empty, `headers` exactly when the payload
      has headers. */
  lemma FormKeys(payload: IncomingEmailPayload)
    ensures DistinctKeys(FormFor(payload))
    ensures Keys(FormFor(payload)) == ["to", "from", "subject"]
                                      + (if Present(payload.textBody) then ["text"] else [])
                                      + (if Present(payload.htmlBody) then ["html"] else [])
                                      + (if payload.headers != [] then ["headers"] else [])
  {
    HeadersStringEmpty(payload.headers);
    var headersStr := HeadersString(payload.headers);
    var form0 := [("to", [FirstRecipient(payload.rcptTo)]), ("from", [OrEmpty(payload.mailFrom)]), ("subject", [OrEmpty(payload.subject)])];
    assert Keys(form0) == ["to", "from", "subject"];
    FieldAppend(form0, Present(payload.textBody), "text", OrEmpty(payload.textBody));
    var form1 := form0 + Field(Present(payload.textBody), "text", OrEmpty(payload.textBody));
    FieldAppend(form1, Present(payload.htmlBody), "html", OrEmpty(payload.htmlBody));
    var form2 := form1 + Field(Present(payload.htmlBody), "html", OrEmpty(payload.htmlBody));
    FieldAppend(form2, headersStr != "", "headers", headersStr);
  }

  /** Each key of the form carries its one value: the first recipient, the
      sender and the subject with null sent as "", and the bodies when
      present. */
  lemma FormValues(payload: IncomingEmailPayload)
    ensures Lookup(FormFor(payload), "to") == [FirstRecipient(payload.rcptTo)]
    ensures Lookup(FormFor(payload), "from") == [OrEmpty(payload.mailFrom)]
    ensures Lookup(FormFor(payload), "subject") == [OrEmpty(payload.subject)]
    ensures Lookup(FormFor(payload), "text") == if Present(payload.textBody) then [payload.textBody.value] else []
    ensures Lookup(FormFor(payload), "html") == if Present(payload.htmlBody) then [payload.htmlBody.value] else []
  {
    FormKeys(payload);
    var form := FormFor(payload);
    LookupAt(form, 0);
    LookupAt(form, 1);
    LookupAt(form, 2);
    if Present(payload.textBody) {
      LookupAt(form, 3);
    } else {
      LookupAbsent(form, "text");
    }
    if Present(payload.htmlBody) {
      LookupAt(form, if Present(payload.textBody) then 4 else 3);
    } else {
      LookupAbsent(form, "html");
    }
  }

  /** The headers field carries the flattened headers, and is sent only when
      the message has headers. */
  lemma FormHeaders(payload: IncomingEmailPayload)
    ensures Lookup(FormFor(payload), "headers") == if payload.headers != [] then [HeadersString(payload.headers)] else []
  {
    FormKeys(payload);
    HeadersStringEmpty(payload.headers);
    var form := FormFor(payload);
    if payload.headers != [] {
      LookupAt(form, |form| - 1);
    } else {
      LookupAbsent(form, "headers");
    }
  }

  /** String.replace("'", "'\\''"): close the shell quote, emit an escaped
      quote, reopen the quote. */
  const QuoteEscape: string := "'\\''"

  function Escape(s: string): string
  {
    if s == [] then ""
    else (if s[0] == '\'' then QuoteEscape else [s[0]]) + Escape(s[1..])
  }

  /** Undoes Escape: every "'\\''" group turns back into one quote. */
  function Unescape(s: string): string
  {
    if |s| >= 4 && s[..4] == QuoteEscape then "'" + Unescape(s[4..])
    else if s == [] then ""
    else [s[0]] + Unescape(s[1..])
  }

  lemma {:induction false} EscapeRoundTrip(s: string)
    ensures Unescape(Escape(s)) == s
  {
    if s != [] {
      var rest := Escape(s[1..]);
      EscapeRoundTrip(s[1..]);
      if s[0] == '\'' {
        assert (QuoteEscape + rest)[..4] == QuoteEscape;
        assert (QuoteEscape + rest)[4..] == rest;
      } else {
        assert ([s[0]] + rest)[0] != QuoteEscape[0];
        assert ([s[0]] + rest)[1..] == rest;
      }
      assert s == [s[0]] + s[1..];
    }
  }

  /** Escaping touches quotes only: a value without a quote is sent to the
      command line as it is, with no URL encoding of '&', '=' or '%'. */
  lemma {:induction false} EscapeWithoutQuote(s: string)
    requires '\'' !in s
    ensures Escape(s) == s
  {
    if s != [] {
      assert '\'' !in s[1..];
      EscapeWithoutQuote(s[1..]);
    }
  }

  /** One `key=value` pair of the curl body: the first value of the key,
      escaped, or "" when the key has none. */
  function CurlField(form: MultiMap, key: string): string
  {
    var values := Lookup(form, key);
    key + "=" + (if values != [] then Escape(values[0]) else "")
  }

  function CurlFields(form: MultiMap): (fields: seq<string>)
    ensures |fields| == |form|
    ensures forall i :: 0 <= i < |form| ==> fields[i] == CurlField(form, form[i].0)
  {
    seq(|form|, i requires 0 <= i < |form| => CurlField(form, form[i].0))
  }

  const CurlPrefix: string := "curl -X POST '"

  /** The curl command line: the URL, the content type, and the pairs of
      every form key in insertion order separated by '&', inside one pair of
      single quotes. */
  function Curl(url: string, form: MultiMap): string
  {
    CurlPrefix + url + "'" + " -H 'Content-Type: application/x-www-form-urlencoded'"
    + " -d '" + Join("&", CurlFields(form)) + "'"
  }

  /** Escaping adds quotes and backslashes only. */
  lemma {:induction false} EscapeKeeps(c: char, s: string)
    requires c != '\'' && c != '\\' && c !in s
    ensures c !in Escape(s)
  {
    if s != [] {
      assert c !in s[1..];
      EscapeKeeps(c, s[1..]);
    }
  }

  /** Read back by cutting at '&', the curl body of a form with distinct keys
      gives one `key=value` pair per entry in insertion order, the value
      being the entry's first value escaped, as long as no key or value holds
      an '&' itself. */
  lemma CurlPairs(form: MultiMap)
    requires form != [] && DistinctKeys(form)
    requires forall i :: 0 <= i < |form| ==> '&' !in form[i].0
    requires forall i, j :: 0 <= i < |form| && 0 <= j < |form[i].1| ==> '&' !in form[i].1[j]
    ensures var pairs := Split('&', Join("&", CurlFields(form)));
            |pairs| == |form| &&
            forall i :: 0 <= i < |form| ==>
              pairs[i] == form[i].0 + "=" + (if form[i].1 != [] then Escape(form[i].1[0]) else "")
  {
    var fields := CurlFields(form);
    forall i | 0 <= i < |form|
      ensures fields[i] == form[i].0 + "=" + (if form[i].1 != [] then Escape(form[i].1[0]) else "")
      ensures '&' !in fields[i]
    {
      LookupAt(form, i);
      if form[i].1 != [] {
        EscapeKeeps('&', form[i].1[0]);
      }
    }
    SplitJoin('&', fields);
  }

  lemma CurlBodyOfOneField()
    ensures Join("&", CurlFields([("to", ["a&from=b"])])) == "to" + "=" + "a&from=b"
  {
    var one: MultiMap := [("to", ["a&from=b"])];
    EscapeWithoutQuote("a&from=b");
    assert Lookup(one, "to") == ["a&from=b"];
  }

  lemma CurlBodyOfTwoFields()
    ensures Join("&", CurlFields([("to", ["a"]), ("from", ["b"])])) == "to" + "=" + "a&from=b"
  {
    var two: MultiMap := [("to", ["a"]), ("from", ["b"])];
    var fields := CurlFields(two);
    EscapeWithoutQuote("a");
    EscapeWithoutQuote("b");
    assert Lookup(two, "to") == ["a"];
    assert Lookup(two, "from") == ["b"];
    assert fields[0] == "to" + "=" + "a";
    assert fields[1] == "from" + "=" + "b";
    assert fields[..1] == [fields[0]];
    assert Join("&", fields) == fields[0] + "&" + fields[1];
    assert ("to" + "=" + "a") + "&" + ("from" + "=" + "b") == "to" + "=" + "a&from=b";
  }

  /** No URL encoding happens: a value holding '&' and '=' reads back as two
      fields, so two different forms can log the same command line. */
  lemma CurlNotUrlEncoded(url: string)
    ensures Curl(url, [("to", ["a&from=b"])]) == Curl(url, [("to", ["a"]), ("from", ["b"])])
  {
    CurlBodyOfOneField();
    CurlBodyOfTwoFields();
  }

  /** One turn of the curl loop: the separator only between pairs. */
  lemma JoinStep(head: string, fields: seq<string>, i: nat)
    requires i < |fields|
    ensures head + Join("&", fields[..i]) + (if i == 0 then "" else "&") + fields[i]
            == head + Join("&", fields[..i + 1])
  {
    assert fields[..i + 1] == fields[..i] + [fields[i]];
    if i == 0 {
      assert Join("&", fields[..1]) == fields[0];
    } else {
      JoinAppend("&", fields[..i], fields[i]);
    }
  }

  /** The StringBuilder loop with its `first` flag. */
  method BuildCurl(url: string, form: MultiMap) returns (cmd: string)
    ensures cmd == Curl(url, form)
  {
    cmd := CurlPrefix + url + "'";
    cmd := cmd + " -H 'Content-Type: application/x-www-form-urlencoded'";
    cmd := cmd + " -d '";
    ghost var head := cmd;
    ghost var fields := CurlFields(form);
    var first := true;
    var i := 0;
    while i < |form|
      invariant 0 <= i <= |form|
      invariant first <==> i == 0
      invariant cmd == head + Join("&", fields[..i])
    {
      ghost var before := cmd;
      if !first {
        cmd := cmd + "&";
      }
      first := false;
      var key := form[i].0;
      var values := Lookup(form, key);
      var value := if values != [] then Escape(values[0]) else "";
      var pair := key + "=" + value;
      assert pair == fields[i];
      cmd := cmd + pair;
      assert cmd == before + (if i == 0 then "" else "&") + fields[i] by {
        if i == 0 {
          assert before + "" == before;
        }
      }
      JoinStep(head, fields, i);
      i := i + 1;
    }
    assert fields[..i] == fields;
    cmd := cmd + "'";
  }

  /** Adding a key the form does not hold yet appends it as the last entry. */
  lemma {:induction false} AddAppends(m: MultiMap, k: string, v: string)
    requires forall i :: 0 <= i < |m| ==> m[i].0 != k
    ensures Add(m, k, v) == m + [(k, [v])]
  {
    if m != [] {
      AddAppends(m[1..], k, v);
      assert [m[0]] + (m[1..] + [(k, [v])]) == m + [(k, [v])];
    }
  }

  /** `if (condition) formData.add(key, value)` for a key not yet in the form. */
  method AddIf(form: MultiMap, condition: bool, key: string, value: string) returns (r: MultiMap)
    requires key !in Keys(form)
    ensures r == form + Field(condition, key, value)
    ensures Keys(r) == Keys(form) + (if condition then [key] else [])
  {
    r := form;
    if condition {
      AddAppends(form, key, value);
      r := Add(form, key, value);
      KeysConcat(form, [(key, [value])]);
    } else {
      assert form + [] == form;
    }
  }

  /** The three fields every form starts with, added in this order. */
  method AddFixedFields(toEmail: string, from: string, subject: string) returns (formData: MultiMap)
    ensures formData == [("to", [toEmail]), ("from", [from]), ("subject", [subject])]
    ensures Keys(formData) == ["to", "from", "subject"]
  {
    formData := Add([], "to", toEmail);
    AddAppends(formData, "from", from);
    formData := Add(formData, "from", from);
    AddAppends(formData, "subject", subject);
    formData := Add(formData, "subject", subject);
  }

  /** The form-data map, built by successive add calls in the source's order. */
  method BuildForm(payload: IncomingEmailPayload, toEmail: string, headersStr: string) returns (formData: MultiMap)
    ensures formData == [("to", [toEmail]), ("from", [OrEmpty(payload.mailFrom)]), ("subject", [OrEmpty(payload.subject)])]
                        + Field(Present(payload.textBody), "text", OrEmpty(payload.textBody))
                        + Field(Present(payload.htmlBody), "html", OrEmpty(payload.htmlBody))
                        + Field(headersStr != "", "headers", headersStr)
  {
    var from := if payload.mailFrom.Some? then payload.mailFrom.value else "";
    var subject := if payload.subject.Some? then payload.subject.value else "";
    formData := AddFixedFields(toEmail, from, subject);
    var hasText := payload.textBody.Some? && payload.textBody.value != "";
    formData := AddIf(formData, hasText, "text", if payload.textBody.Some? then payload.textBody.value else "");
    var hasHtml := payload.htmlBody.Some? && payload.htmlBody.value != "";
    formData := AddIf(formData, hasHtml, "html", if payload.htmlBody.Some? then payload.htmlBody.value else "");
    formData := AddIf(formData, headersStr != "", "headers", headersStr);
  }

  /** The request the client sends for `payload`. */
  function RequestFor(url: string, payload: IncomingEmailPayload): Request
  {
    var form := FormFor(payload);
    Request(form, Curl(url, form))
  }

  /** forward(payload) up to the POST, then the POST's outcome `posted`. */
  method Forward(url: string, payload: IncomingEmailPayload, posted: bool) returns (request: Request, ok: bool)
    ensures request == RequestFor(url, payload)
    ensures ok == posted
  {
    var toEmail := FirstRecipient(payload.rcptTo);
    var headersStr := HeadersString(payload.headers);
    var formData := BuildForm(payload, toEmail, headersStr);
    var curl := BuildCurl(url, formData);
    request := Request(formData, curl);
    ok := posted;
  }
}
