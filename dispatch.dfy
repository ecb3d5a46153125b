/** The request handlers of backend/server.js that send mail — `/send-message`,
    `/send-photo-strip` and `/test-email` — and the admin gate of `/email-stats`.
    Each handler is a function from the request, the operator's own address
    (`process.env.EMAIL`) and the transport's behaviour to a `Decision`: the HTTP
    reply, the message handed to `sendMail` (if it was reached) and the
    `logEmailAttempt` call (if one was made). */
module Dispatch {
  import opened Wrappers
  import opened Text
  import opened Validation
  import opened DeliveryLog
  import opened EmailStats

  /** The shared secret that `/test-email` and `/email-stats` compare `key` with. */
  const AdminKey := "picapica-admin-key"

  /** An error thrown by the transport: its `code` (`EENVELOPE`, `ETIMEDOUT`,
      `EAUTH`, ... or none) and `message`. */
  datatype TransportError = TransportError(code: Option<string>, message: string)

  /** The outcome of `sendMail`. */
  datatype Delivery = Delivered(messageId: string) | Failed(error: TransportError)

  /** What the transport does for one request: whether `verify()` throws, and what
      `sendMail` returns if the handler gets that far. */
  datatype Transport = Transport(verify: Option<TransportError>, send: Delivery)

  /** The message handed to `sendMail`: the display name and address of the sender,
      the recipient, and the base64 content of the inline attachment, if any. */
  datatype Mail = Mail(fromName: string, fromAddress: string, to: string, attachment: Option<string>)

  /** The HTTP status and the `message` (and `messageId`) fields of the JSON reply. */
  datatype Reply = Reply(status: int, message: string, messageId: Option<string>)

  /** What a handler does: reply, mail sent (None when `sendMail` is not reached),
      attempt logged (None when `logEmailAttempt` is not called). */
  datatype Decision = Decision(reply: Reply, mail: Option<Mail>, log: Option<Attempt>)

  /** A request field that JavaScript finds truthy: present and not empty. */
  predicate Given(field: Option<string>)
  {
    field.Some? && field.value != ""
  }

  /** A guard's rejection: nothing is sent and nothing is logged. */
  function Rejected(status: int, message: string): Decision
  {
    Decision(Reply(status, message, None), None, None)
  }

  /** The `errorDetails` logged for a failed send: `{code, message}`. */
  function FailureDetails(e: TransportError): Details
  {
    Details(e.code, Some(e.message), None)
  }

  /** The photo-strip reply for a transport error (backend/server.js:313-323). */
  function ErrorReply(e: TransportError): Reply
  {
    if e.code == Some("EENVELOPE") then Reply(400, "Invalid recipient email address", None)
    else if e.code == Some("ETIMEDOUT") then Reply(500, "Connection to email server timed out", None)
    else if e.code == Some("EAUTH") then Reply(500, "Email authentication failed. Check your credentials.", None)
    else Reply(500, "Failed to send email", None)
  }

  /** A recipient-rejecting relay is the client's error; every other transport
      failure is the server's, each with its own message. */
  lemma ErrorReplyTable(e: TransportError)
    ensures ErrorReply(e).status == 400 <==> e.code == Some("EENVELOPE")
    ensures ErrorReply(e).status != 400 ==> ErrorReply(e).status == 500
    ensures e.code == Some("ETIMEDOUT") ==> ErrorReply(e).message == "Connection to email server timed out"
    ensures e.code == Some("EAUTH") ==> ErrorReply(e).message == "Email authentication failed. Check your credentials."
    ensures e.code !in {Some("EENVELOPE"), Some("ETIMEDOUT"), Some("EAUTH")} ==>
      ErrorReply(e) == Reply(500, "Failed to send email", None)
  {
  }

  // ---------------------------------------------------------------- /send-message

  datatype ContactForm = ContactForm(name: Option<string>, email: Option<string>, message: Option<string>)

  /** The form passes the handler's guards. */
  predicate ContactAccepted(form: ContactForm)
  {
    Given(form.name) && Given(form.email) && Given(form.message) && ValidateEmail(form.email.value)
  }

  /** `/send-message`: the operator mails themself the visitor's message. */
  function SendMessage(form: ContactForm, operator: string, t: Transport): (d: Decision)
    // a send is attempted, and then logged whatever its outcome, exactly when the form passes the guards
    ensures d.log.Some? <==> ContactAccepted(form)
    ensures d.log.None? ==> d.reply.status == 400 && d.mail.None?
    // the log records the operator's address, never the visitor's
    ensures d.log.Some? ==> d.log.value.recipient == operator
    ensures d.log.Some? ==> (d.log.value.success <==> d.reply.status == 200)
    ensures d.log.Some? ==> (d.log.value.messageId.Some? <==> d.log.value.success)
    ensures d.log.Some? && !d.log.value.success ==> d.reply.status == 500
    // the envelope sender and the recipient are the operator; the visitor's name is only displayed
    ensures d.mail.Some? ==>
      ContactAccepted(form) && d.mail.value == Mail(form.name.value, operator, operator, None)
    // sendMail is reached exactly when the guards pass and verify() succeeds
    ensures d.mail.Some? <==> ContactAccepted(form) && t.verify.None?
    // the outcome is the transport's: a delivery is logged with its message id, a
    // thrown error with its code and message
    ensures d.log.Some? ==> (d.log.value.success <==> t.verify.None? && t.send.Delivered?)
    ensures d.log.Some? && d.log.value.success ==>
      d.log.value.messageId == Some(t.send.messageId) && d.log.value.details == None &&
      d.reply == Reply(200, "Email sent successfully", None)
    // each guard's own reply
    ensures !Given(form.name) || !Given(form.email) || !Given(form.message) ==>
      d == Rejected(400, "All fields are required")
    ensures Given(form.name) && Given(form.email) && Given(form.message) && !ValidateEmail(form.email.value) ==>
      d == Rejected(400, "Invalid email format")
    ensures d.log.Some? && t.verify.Some? ==>
      d.log.value.details == Some(FailureDetails(t.verify.value)) && d.reply == Reply(500, "Failed to send email", None)
    ensures d.log.Some? && t.verify.None? && t.send.Failed? ==>
      d.log.value.details == Some(FailureDetails(t.send.error)) && d.reply == Reply(500, "Failed to send email", None)
  {
    if !Given(form.name) || !Given(form.email) || !Given(form.message) then
      Rejected(400, "All fields are required")
    else if !ValidateEmail(form.email.value) then
      Rejected(400, "Invalid email format")
    else if t.verify.Some? then
      Decision(Reply(500, "Failed to send email", None), None,
               Some(Attempt(operator, false, None, Some(FailureDetails(t.verify.value)))))
    else
      var mail := Mail(form.name.value, operator, operator, None);
      match t.send
      case Delivered(id) =>
        Decision(Reply(200, "Email sent successfully", None), Some(mail), Some(Attempt(operator, true, Some(id), None)))
      case Failed(e) =>
        Decision(Reply(500, "Failed to send email", None), Some(mail),
                 Some(Attempt(operator, false, None, Some(FailureDetails(e)))))
  }

  // ----------------------------------------------------------- /send-photo-strip

  datatype PhotoStripRequest = PhotoStripRequest(recipientEmail: Option<string>, imageData: Option<string>)

  const Base64Marker := "base64,"

  /** The attachment content of a data URI: `imageData.split("base64,")` must give
      exactly two parts, and the content is the second. */
  function ImageContent(imageData: string): Option<string>
  {
    var parts := Split(imageData, Base64Marker);
    if |parts| != 2 then None else Some(parts[1])
  }

  /** Two occurrences of the marker never overlap: no proper prefix of it is also a
      suffix of it. */
  lemma MarkerOccurrencesApart(s: string, k: int, j: int)
    requires OccursAt(s, Base64Marker, k) && OccursAt(s, Base64Marker, j) && k < j
    ensures k + |Base64Marker| <= j
  {
    if j < k + |Base64Marker| {
      SliceIndex(s, j, 7, 0);
      SliceIndex(s, k, 7, j - k);
      assert false;
    }
  }

  /** The image data is accepted exactly when the marker occurs in it once, and the
      attachment is then everything after that occurrence. */
  lemma ImageContentMeaning(imageData: string)
    ensures ImageContent(imageData).Some? <==> exists k :: SoleOccurrence(imageData, Base64Marker, k)
    ensures forall k :: SoleOccurrence(imageData, Base64Marker, k) ==>
      ImageContent(imageData) == Some(imageData[k + |Base64Marker|..])
  {
    forall k | SoleOccurrence(imageData, Base64Marker, k)
      ensures ImageContent(imageData) == Some(imageData[k + |Base64Marker|..])
    {
      SplitAtOnlyOccurrence(imageData, Base64Marker, k);
    }
    if ImageContent(imageData).Some? {
      var k := SplitInTwo(imageData, Base64Marker);
      NoneInSuffix(imageData, Base64Marker, k + |Base64Marker|);
      OnlyOccurrenceNear(imageData, Base64Marker, k);
      forall j | OccursAt(imageData, Base64Marker, j) ensures j == k {
        if k < j { MarkerOccurrencesApart(imageData, k, j); }
      }
      assert SoleOccurrence(imageData, Base64Marker, k);
    }
  }

  /** A data URI `<prefix>base64,<payload>` is accepted, with the payload as content,
      when the marker that follows the prefix is its first occurrence and the payload
      does not contain the marker. */
  lemma DataUriContent(prefix: string, payload: string)
    requires forall j :: 0 <= j < |prefix| ==> !OccursAt(prefix + Base64Marker, Base64Marker, j)
    requires forall k :: !OccursAt(payload, Base64Marker, k)
    ensures ImageContent(prefix + Base64Marker + payload) == Some(payload)
  {
    var s := prefix + Base64Marker + payload;
    var at := |prefix|;
    assert s[at..at + 7] == Base64Marker;
    assert s[at + 7..] == payload;
    forall j | OccursAt(s, Base64Marker, j) ensures j == at {
      if j < at {
        assert s[j..j + 7] == (prefix + Base64Marker)[j..j + 7];
        assert OccursAt(prefix + Base64Marker, Base64Marker, j);
        assert false;
      } else if at < j {
        MarkerOccurrencesApart(s, at, j);
        OccursInSuffix(s, Base64Marker, at + 7, j - (at + 7));
        assert false;
      }
    }
    assert SoleOccurrence(s, Base64Marker, at);
    ImageContentMeaning(s);
  }

  /** The data URI `data:image/bmp;base64,QUJD` gives the attachment content `QUJD`. */
  lemma ImageContentExample()
    ensures ImageContent("data:image/bmp;base64,QUJD") == Some("QUJD")
  {
    var prefix := "data:image/bmp;";
    forall j | 0 <= j < |prefix| ensures !OccursAt(prefix + Base64Marker, Base64Marker, j) {
      if OccursAt(prefix + Base64Marker, Base64Marker, j) {
        SliceIndex(prefix + Base64Marker, j, 7, 6);
        SliceIndex(Base64Marker, 0, 7, 6);
        assert false;
      }
    }
    DataUriContent(prefix, "QUJD");
    assert prefix + Base64Marker + "QUJD" == "data:image/bmp;base64,QUJD";
  }

  /** The request passes the handler's guards. */
  predicate PhotoStripAccepted(req: PhotoStripRequest)
  {
    Given(req.recipientEmail) && Given(req.imageData) && ValidateEmail(req.recipientEmail.value)
  }

  /** `/send-photo-strip`: mail the strip to the visitor as an inline attachment. The
      transport is verified before the image data is split, so a failing `verify()`
      is logged and reported even when the image data is malformed. */
  function SendPhotoStrip(req: PhotoStripRequest, operator: string, t: Transport): (d: Decision)
    // the transport is used, and the attempt then logged, exactly when the guards pass
    // and either verify() fails or the image data splits in two
    ensures d.log.Some? <==>
      PhotoStripAccepted(req) && (t.verify.Some? || ImageContent(req.imageData.value).Some?)
    ensures d.log.None? ==> d.reply.status == 400 && d.mail.None?
    ensures d.log.Some? ==> d.log.value.recipient == req.recipientEmail.value
    ensures d.log.Some? ==> (d.log.value.success <==> d.reply.status == 200)
    ensures d.log.Some? ==> (d.log.value.messageId.Some? <==> d.log.value.success)
    ensures d.reply.status == 200 ==> d.log.Some? && d.reply.messageId.Some? && d.reply.messageId == d.log.value.messageId
    // sendMail is reached exactly when the guards pass, verify() succeeds and the image data splits
    ensures d.mail.Some? <==>
      PhotoStripAccepted(req) && t.verify.None? && ImageContent(req.imageData.value).Some?
    ensures PhotoStripAccepted(req) && t.verify.None? && ImageContent(req.imageData.value).None? ==>
      d == Rejected(400, "Invalid image data format")
    // the outcome is the transport's: a delivery is logged and reported with its message id
    ensures d.log.Some? ==> (d.log.value.success <==> t.verify.None? && t.send.Delivered?)
    ensures d.log.Some? && d.log.value.success ==>
      d.log.value.messageId == Some(t.send.messageId) && d.log.value.details == None &&
      d.reply == Reply(200, "Photo strip sent successfully!", Some(t.send.messageId))
    // each guard's own reply
    ensures !Given(req.recipientEmail) || !Given(req.imageData) ==> d == Rejected(400, "Missing email or image data")
    ensures Given(req.recipientEmail) && Given(req.imageData) && !ValidateEmail(req.recipientEmail.value) ==>
      d == Rejected(400, "Invalid email format")
    // a failed verify() or sendMail() is logged with its details and mapped to the reply
    ensures PhotoStripAccepted(req) && t.verify.Some? ==>
      d.reply == ErrorReply(t.verify.value) && d.log.Some? && d.log.value.details == Some(FailureDetails(t.verify.value))
    ensures d.mail.Some? && t.send.Failed? ==>
      d.reply == ErrorReply(t.send.error) && d.log.Some? && d.log.value.details == Some(FailureDetails(t.send.error))
    // only a validated address is mailed, and the attachment is the data after the marker
    ensures d.mail.Some? ==>
      PhotoStripAccepted(req) && d.mail.value.to == req.recipientEmail.value &&
      d.mail.value.fromName == "Picapica Photobooth" && d.mail.value.fromAddress == operator &&
      d.mail.value.attachment.Some? && d.mail.value.attachment == ImageContent(req.imageData.value)
  {
    if !Given(req.recipientEmail) || !Given(req.imageData) then
      Rejected(400, "Missing email or image data")
    else
      var to := req.recipientEmail.value;
      if !ValidateEmail(to) then
        Rejected(400, "Invalid email format")
      else if t.verify.Some? then
        Decision(ErrorReply(t.verify.value), None, Some(Attempt(to, false, None, Some(FailureDetails(t.verify.value)))))
      else
        match ImageContent(req.imageData.value)
        case None => Rejected(400, "Invalid image data format")
        case Some(content) =>
          var mail := Mail("Picapica Photobooth", operator, to, Some(content));
          match t.send
          case Delivered(id) =>
            Decision(Reply(200, "Photo strip sent successfully!", Some(id)), Some(mail),
                     Some(Attempt(to, true, Some(id), None)))
          case Failed(e) =>
            Decision(ErrorReply(e), Some(mail), Some(Attempt(to, false, None, Some(FailureDetails(e)))))
  }

  /** A syntactically valid address the relay rejects: the visitor gets a 400 and one
      failed attempt is logged for that address. */
  lemma RejectedRecipient(to: string, imageData: string, operator: string, message: string)
    requires ValidateEmail(to) && ImageContent(imageData).Some?
    ensures var t := Transport(None, Failed(TransportError(Some("EENVELOPE"), message)));
      var d := SendPhotoStrip(PhotoStripRequest(Some(to), Some(imageData)), operator, t);
      && d.reply == Reply(400, "Invalid recipient email address", None)
      && d.log == Some(Attempt(to, false, None, Some(Details(Some("EENVELOPE"), Some(message), None))))
  {
  }

  // ------------------------------------------------------------------ /test-email

  /** The diagnostic send's guards pass. */
  predicate TestAccepted(key: Option<string>, email: Option<string>)
  {
    key == Some(AdminKey) && Given(email) && ValidateEmail(email.value)
  }

  /** The `errorDetails` logged for a failed diagnostic send: `{code, message, type}`. */
  function TestFailureDetails(e: TransportError): Details
  {
    Details(e.code, Some(e.message), Some("test_email"))
  }

  /** `/test-email?email=...&key=...`: send a diagnostic message. Every attempt it
      logs is tagged `type: "test_email"`, the successful one included. */
  function TestEmail(key: Option<string>, email: Option<string>, operator: string, t: Transport): (d: Decision)
    ensures d.reply.status == 401 <==> key != Some(AdminKey)
    ensures d.log.Some? <==> TestAccepted(key, email)
    ensures d.log.None? ==> d.reply.status in {400, 401} && d.mail.None?
    ensures d.log.Some? ==> d.log.value.recipient == email.value
    ensures d.log.Some? ==> (d.log.value.success <==> d.reply.status == 200)
    ensures d.log.Some? ==> (d.log.value.messageId.Some? <==> d.log.value.success)
    ensures d.log.Some? ==> d.log.value.details.Some? && d.log.value.details.value.kind == Some("test_email")
    ensures d.reply.status == 200 ==> d.log.Some? && d.reply.messageId.Some? && d.reply.messageId == d.log.value.messageId
    ensures d.mail.Some? ==> TestAccepted(key, email) && d.mail.value == Mail("Picapica Test", operator, email.value, None)
    // sendMail is reached exactly when the guards pass and verify() succeeds
    ensures d.mail.Some? <==> TestAccepted(key, email) && t.verify.None?
    // the outcome is the transport's: a delivery is logged and reported with its
    // message id, a thrown error logged with its code and message
    ensures d.log.Some? ==> (d.log.value.success <==> t.verify.None? && t.send.Delivered?)
    ensures d.log.Some? && d.log.value.success ==>
      d.log.value.messageId == Some(t.send.messageId) && d.log.value.details == Some(Details(None, None, Some("test_email"))) &&
      d.reply == Reply(200, "Test email sent successfully", Some(t.send.messageId))
    // each guard's own reply
    ensures key != Some(AdminKey) ==> d == Rejected(401, "Unauthorized access")
    ensures key == Some(AdminKey) && !Given(email) ==> d == Rejected(400, "Email parameter is required")
    ensures key == Some(AdminKey) && Given(email) && !ValidateEmail(email.value) ==> d == Rejected(400, "Invalid email format")
    ensures d.log.Some? && !d.log.value.success ==> d.reply == Reply(500, "Failed to send test email", None)
    ensures d.log.Some? && t.verify.Some? ==> d.log.value.details == Some(TestFailureDetails(t.verify.value))
    ensures d.log.Some? && t.verify.None? && t.send.Failed? ==>
      d.log.value.details == Some(TestFailureDetails(t.send.error))
  {
    if key != Some(AdminKey) then
      Rejected(401, "Unauthorized access")
    else if !Given(email) then
      Rejected(400, "Email parameter is required")
    else
      var to := email.value;
      if !ValidateEmail(to) then
        Rejected(400, "Invalid email format")
      else if t.verify.Some? then
        var e := t.verify.value;
        Decision(Reply(500, "Failed to send test email", None), None,
                 Some(Attempt(to, false, None, Some(TestFailureDetails(e)))))
      else
        var mail := Mail("Picapica Test", operator, to, None);
        match t.send
        case Delivered(id) =>
          Decision(Reply(200, "Test email sent successfully", Some(id)), Some(mail),
                   Some(Attempt(to, true, Some(id), Some(Details(None, None, Some("test_email"))))))
        case Failed(e) =>
          Decision(Reply(500, "Failed to send test email", None), Some(mail),
                   Some(Attempt(to, false, None, Some(TestFailureDetails(e)))))
  }

  /** The contact form's guards run before the transport is touched: a form they
      reject gets the same reply whatever the transport would have done. */
  lemma ContactGuardsFirst(form: ContactForm, operator: string, t1: Transport, t2: Transport)
    ensures !ContactAccepted(form) ==> SendMessage(form, operator, t1) == SendMessage(form, operator, t2)
  {
  }

  /** Likewise for the photo-strip guards. */
  lemma PhotoStripGuardsFirst(req: PhotoStripRequest, operator: string, t1: Transport, t2: Transport)
    ensures !PhotoStripAccepted(req) ==> SendPhotoStrip(req, operator, t1) == SendPhotoStrip(req, operator, t2)
  {
  }

  /** Likewise for the admin-key, parameter and format checks of the test endpoint. */
  lemma TestGuardsFirst(key: Option<string>, email: Option<string>, operator: string, t1: Transport, t2: Transport)
    ensures !TestAccepted(key, email) ==> TestEmail(key, email, operator, t1) == TestEmail(key, email, operator, t2)
  {
  }

  // ----------------------------------------------------------------- /email-stats

  datatype StatsReply = Unauthorized | Stats(report: Report)

  /** `/email-stats?key=...`: the statistics, for the admin key only. */
  method EmailStatsEndpoint(store: LogStore, key: Option<string>, listing: seq<string>) returns (r: StatsReply)
    ensures r.Unauthorized? <==> key != Some(AdminKey)
    ensures r.Stats? ==> r.report == Aggregate(store.days, listing)
  {
    if key != Some(AdminKey) {
      return Unauthorized;
    }
    var report := ComputeStats(store, listing);
    r := Stats(report);
  }

  // ------------------------------------------------------------- orchestration

  /** Carry out a decision as the handlers do: `logEmailAttempt` stamps the entry
      with the reading `timestamp` and files it under the date of its second reading
      `clock`, then the reply is sent. */
  method Serve(store: LogStore, d: Decision, timestamp: string, clock: string) returns (reply: Reply)
    requires store.Valid()
    modifies store
    ensures store.Valid() && store.unreadable == old(store.unreadable)
    ensures reply == d.reply
    ensures d.log.None? ==> store.days == old(store.days)
    ensures d.log.Some? ==>
      store.days == Appended(old(store.days), old(store.unreadable), DateOf(clock), MakeEntry(timestamp, d.log.value))
    // the logs stay dated when both readings fall on the same day
    ensures DateOf(timestamp) == DateOf(clock) && old(Dated(store.days)) ==> Dated(store.days)
  {
    ghost var before := store.days;
    if d.log.Some? {
      store.Record(timestamp, clock, d.log.value);
      if DateOf(timestamp) == DateOf(clock) && Dated(before) {
        AppendedKeepsDated(before, store.unreadable, MakeEntry(timestamp, d.log.value));
      }
    }
    reply := d.reply;
  }

  /** The corrected orchestration: the attempt is filed under the date of its own
      timestamp, so the logs stay dated whatever the clock does. */
  method ServeAt(store: LogStore, d: Decision, timestamp: string) returns (reply: Reply)
    requires store.Valid()
    modifies store
    ensures store.Valid() && store.unreadable == old(store.unreadable)
    ensures reply == d.reply
    ensures d.log.None? ==> store.days == old(store.days)
    ensures d.log.Some? ==>
      store.days == Appended(old(store.days), old(store.unreadable), DateOf(timestamp), MakeEntry(timestamp, d.log.value))
    ensures old(Dated(store.days)) ==> Dated(store.days)
  {
    if d.log.Some? {
      store.RecordAt(timestamp, d.log.value);
    }
    reply := d.reply;
  }
}
