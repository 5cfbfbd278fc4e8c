/** The values shared by the SMTP handler and the forward client:
    com.tikrai.mailreceiver.model.IncomingEmailPayload and the small
    types around it. */
module Model {
  import opened MultiMaps

  /** A Java reference that may be null: None stands for null. */
  datatype Option<+T> = None | Some(value: T)

  /** Optional.ofNullable(s).orElse(""), and `s != null ? s : ""`. */
  function OrEmpty(s: Option<string>): string
  {
    match s
    case Some(v) => v
    case None => ""
  }

  /** A non-null, non-empty string. */
  predicate Present(s: Option<string>) {
    s.Some? && s.value != ""
  }

  /** One raw header line of a message, as jakarta.mail.Header gives it. */
  datatype Header = Header(name: string, value: string)

  /** The ordered header multimap: name to values in message order. */
  type Headers = MultiMap

  /** The record handed from the SMTP handler to the forward client. Every
      field is a Java reference; those the forward client tests for null are
      options here, while `headers` is dereferenced unconditionally there and
      is therefore never null. */
  datatype IncomingEmailPayload = IncomingEmailPayload(
    mailFrom: Option<string>,
    rcptTo: Option<seq<string>>,
    subject: Option<string>,
    textBody: Option<string>,
    htmlBody: Option<string>,
    headers: Headers,
    rawBase64: Option<string>
  )

  /** How an SMTP callback ends: normally, or by throwing a RejectException
      that carries an SMTP reply code and text. */
  datatype Reply = Accepted | Rejected(code: nat, message: string)

  const RelayingDenied: Reply := Rejected(550, "Relaying denied")
  const ProcessingError: Reply := Rejected(451, "Processing error")
}
