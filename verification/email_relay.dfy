/**
 * The e-mail relay mounted by the development server (vite.config.js):
 * validation of a loosely typed request payload into a normalised mail
 * message, and the status decisions of the request handler and of the
 * middleware that routes requests to it. The mail client, body streaming,
 * JSON parsing and response writing are represented by their outcomes.
 */
module EmailRelay {
  import opened Wrappers
  import opened JsValues
  import opened Strings

  const DefaultSubject := "Message from Health Charity App"
  const DefaultFilename := "attachment"
  const DefaultMimeType := "application/octet-stream"
  const AttachmentDisposition := "attachment"
  const DefaultEndpoint := "/api/send-email"

  datatype Address = Address(email: string, name: Option<string>)

  datatype Attachment = Attachment(content: string, filename: string, mimeType: string, disposition: string)

  /** The message handed to the mail client; `attachments` is `None` when the field is not set. */
  datatype Message = Message(
    to: seq<Address>,
    from: Address,
    subject: string,
    text: string,
    html: string,
    attachments: Option<seq<Attachment>>)

  /** The two errors `buildMessage` throws. */
  datatype BuildError = NoRecipient | NoSender

  /** The relay's settings, read from the environment. */
  datatype RelayConfig = RelayConfig(apiKey: string, endpoint: string, defaultSenderEmail: string)

  /** First non-empty value among `keys` in `env`, or `fallback` (`env.A || env.B || fallback`). */
  function FirstSetOr(env: map<string, string>, keys: seq<string>, fallback: string): (r: string)
    ensures r == fallback || exists i :: 0 <= i < |keys| && keys[i] in env && env[keys[i]] == r && r != ""
    ensures (forall i :: 0 <= i < |keys| ==> keys[i] !in env || env[keys[i]] == "") ==> r == fallback
    ensures forall i ::
              (0 <= i < |keys| && keys[i] in env && env[keys[i]] != ""
               && forall j :: 0 <= j < i ==> keys[j] !in env || env[keys[j]] == "")
              ==> r == env[keys[i]]
  {
    if keys == [] then fallback
    else if keys[0] in env && env[keys[0]] != "" then env[keys[0]]
    else FirstSetOr(env, keys[1..], fallback)
  }

  /** `env.A || env.B || fallback` for two keys. */
  lemma FirstOfTwoKeys(env: map<string, string>, a: string, b: string, fallback: string)
    ensures FirstSetOr(env, [a, b], fallback)
            == if a in env && env[a] != "" then env[a]
               else if b in env && env[b] != "" then env[b]
               else fallback
  {
    var keys := [a, b];
    assert keys[1..] == [b] && [b][1..] == [];
  }

  /** The settings the server's configuration derives from the environment. */
  function ConfigFromEnv(env: map<string, string>): (c: RelayConfig)
    ensures c.endpoint != ""
    ensures "VITE_SENDGRID_API_KEY" in env && env["VITE_SENDGRID_API_KEY"] != "" ==> c.apiKey == env["VITE_SENDGRID_API_KEY"]
    ensures ("VITE_SENDGRID_API_KEY" !in env || env["VITE_SENDGRID_API_KEY"] == "") ==>
              c.apiKey == (if "SENDGRID_API_KEY" in env then env["SENDGRID_API_KEY"] else "")
    ensures "VITE_SENDGRID_ENDPOINT" in env && env["VITE_SENDGRID_ENDPOINT"] != "" ==> c.endpoint == env["VITE_SENDGRID_ENDPOINT"]
    ensures ("VITE_SENDGRID_ENDPOINT" !in env || env["VITE_SENDGRID_ENDPOINT"] == "") ==> c.endpoint == DefaultEndpoint
    ensures "VITE_SENDGRID_FROM_EMAIL" in env && env["VITE_SENDGRID_FROM_EMAIL"] != "" ==> c.defaultSenderEmail == env["VITE_SENDGRID_FROM_EMAIL"]
    ensures ("VITE_SENDGRID_FROM_EMAIL" !in env || env["VITE_SENDGRID_FROM_EMAIL"] == "") ==>
              c.defaultSenderEmail == (if "SENDGRID_FROM_EMAIL" in env then env["SENDGRID_FROM_EMAIL"] else "")
  {
    FirstOfTwoKeys(env, "VITE_SENDGRID_API_KEY", "SENDGRID_API_KEY", "");
    FirstOfTwoKeys(env, "VITE_SENDGRID_FROM_EMAIL", "SENDGRID_FROM_EMAIL", "");
    RelayConfig(
      FirstSetOr(env, ["VITE_SENDGRID_API_KEY", "SENDGRID_API_KEY"], ""),
      FirstSetOr(env, ["VITE_SENDGRID_ENDPOINT"], DefaultEndpoint),
      FirstSetOr(env, ["VITE_SENDGRID_FROM_EMAIL", "SENDGRID_FROM_EMAIL"], ""))
  }

  /** `typeof v === 'string' && v.trim()`: the value is a string that is not blank. */
  predicate IsFilledString(v: JsValue) {
    v.Str? && Trim(v.s) != ""
  }

  /** `typeof v === 'string' ? v : ''` */
  function StringOrEmpty(v: JsValue): string {
    if v.Str? then v.s else ""
  }

  /** `typeof v === 'string' ? v : undefined` */
  function StringOrNone(v: JsValue): Option<string> {
    if v.Str? then Some(v.s) else None
  }

  /** `text.replace(/\n/g, '<br />')` */
  function BreakLines(text: string): (r: string)
    ensures '\n' !in r
    ensures r == "" <==> text == ""
    ensures '\n' !in text ==> r == text
  {
    if text == [] then []
    else (if text[0] == '\n' then "<br />" else [text[0]]) + BreakLines(text[1..])
  }

  /** A single line feed becomes `<br />`; any other single character is kept. */
  lemma BreakLinesOfOne(text: string)
    requires |text| == 1
    ensures BreakLines(text) == (if text[0] == '\n' then "<br />" else text)
  {
    assert text[1..] == [];
  }

  /** Line breaks become `<br />` piece by piece, so converting a concatenation converts each part. */
  lemma {:induction false} BreakLinesAppend(a: string, b: string)
    ensures BreakLines(a + b) == BreakLines(a) + BreakLines(b)
  {
    if a == [] {
      assert a + b == b;
    } else {
      assert (a + b)[1..] == a[1..] + b;
      BreakLinesAppend(a[1..], b);
    }
  }

  /** The filter of `buildMessage`: an attachment is kept when its `content` is a non-blank string. */
  predicate IsKeptAttachment(a: JsValue) {
    Truthy(a) && IsFilledString(Get(a, "content"))
  }

  /** The map of `buildMessage`: trimmed content, defaulted name and type, fixed disposition. */
  function NormaliseAttachment(a: JsValue): (r: Attachment)
    requires IsKeptAttachment(a)
    ensures r.content == Trim(Get(a, "content").s) && r.content != ""
    ensures r.filename == (if IsFilledString(Get(a, "filename")) then Trim(Get(a, "filename").s) else DefaultFilename)
    ensures r.mimeType == (if IsFilledString(Get(a, "type")) then Trim(Get(a, "type").s) else DefaultMimeType)
    ensures r.disposition == AttachmentDisposition
  {
    var filename := Get(a, "filename");
    var mimeType := Get(a, "type");
    Attachment(
      Trim(Get(a, "content").s),
      if IsFilledString(filename) then Trim(filename.s) else DefaultFilename,
      if IsFilledString(mimeType) then Trim(mimeType.s) else DefaultMimeType,
      AttachmentDisposition)
  }

  /** `attachments.filter(…).map(…)` */
  function FilterAttachments(items: seq<JsValue>): (r: seq<Attachment>)
    ensures |r| <= |items|
    ensures forall k :: 0 <= k < |r| ==>
              && r[k].content != "" && IsTrimmed(r[k].content)
              && r[k].filename != "" && r[k].mimeType != ""
              && r[k].disposition == AttachmentDisposition
  {
    if items == [] then []
    else
      var rest := FilterAttachments(items[1..]);
      if IsKeptAttachment(items[0]) then [NormaliseAttachment(items[0])] + rest else rest
  }

  /** Filtering works element by element: the attachments of a concatenation are those of its parts, in order. */
  lemma {:induction false} FilterAttachmentsAppend(xs: seq<JsValue>, ys: seq<JsValue>)
    ensures FilterAttachments(xs + ys) == FilterAttachments(xs) + FilterAttachments(ys)
  {
    if xs == [] {
      assert xs + ys == ys;
    } else {
      assert (xs + ys)[1..] == xs[1..] + ys;
      FilterAttachmentsAppend(xs[1..], ys);
    }
  }

  /** A single input attachment yields its normalised form when it is kept and nothing otherwise. */
  lemma FilterAttachmentsSingle(a: JsValue)
    ensures IsKeptAttachment(a) ==> FilterAttachments([a]) == [NormaliseAttachment(a)]
    ensures !IsKeptAttachment(a) ==> FilterAttachments([a]) == []
  {
    var one := [a];
    assert one[1..] == [];
  }

  /** Every input attachment is kept exactly when none is dropped. */
  lemma {:induction false} FilterAttachmentsKeepsAll(items: seq<JsValue>)
    ensures |FilterAttachments(items)| == |items| <==> forall k :: 0 <= k < |items| ==> IsKeptAttachment(items[k])
  {
    if items != [] {
      FilterAttachmentsKeepsAll(items[1..]);
      if !IsKeptAttachment(items[0]) {
        assert |FilterAttachments(items[1..])| <= |items| - 1;
      }
    }
  }

  /** `!to || typeof to.email !== 'string' || !to.email.trim()` fails for this payload. */
  predicate HasRecipient(payload: JsValue) {
    var to := Get(payload, "to");
    Truthy(to) && IsFilledString(Get(to, "email"))
  }

  /** The payload names a sender address of its own. */
  predicate HasOwnSender(payload: JsValue) {
    IsFilledString(Get(Get(payload, "from"), "email"))
  }

  /** The payload carries a non-empty attachment array. */
  predicate HasAttachmentList(payload: JsValue) {
    var attachments := Get(payload, "attachments");
    attachments.Arr? && |attachments.items| > 0
  }

  /** `buildMessage(payload)` with the configured `defaultSenderEmail`. */
  function BuildMessage(payload: JsValue, defaultSenderEmail: string): (r: Result<Message, BuildError>)
    ensures r == Err(NoRecipient) <==> !HasRecipient(payload)
    ensures r == Err(NoSender) <==> HasRecipient(payload) && !HasOwnSender(payload) && defaultSenderEmail == ""
    ensures r.Ok? ==> var m := r.value;
              && |m.to| == 1
              && m.to[0].email == Trim(Get(Get(payload, "to"), "email").s) && m.to[0].email != ""
              && m.to[0].name == StringOrNone(Get(Get(payload, "to"), "name"))
    ensures r.Ok? ==> var m := r.value;
              && m.from.email != ""
              && (HasOwnSender(payload) ==> m.from.email == Trim(Get(Get(payload, "from"), "email").s))
              && (!HasOwnSender(payload) ==> m.from.email == defaultSenderEmail)
              && m.from.name == StringOrNone(Get(Get(payload, "from"), "name"))
    ensures r.Ok? ==> var m := r.value; var subject := Get(payload, "subject");
              && (IsFilledString(subject) ==> m.subject == Trim(subject.s))
              && (!IsFilledString(subject) ==> m.subject == DefaultSubject)
    ensures r.Ok? ==> var m := r.value; var html := StringOrEmpty(Get(payload, "html"));
              && m.text == StringOrEmpty(Get(payload, "text"))
              && (html != "" ==> m.html == html)
              && (html == "" ==> m.html == BreakLines(m.text))
    ensures r.Ok? ==> (r.value.attachments.None? <==> !HasAttachmentList(payload))
    ensures r.Ok? && r.value.attachments.Some? ==>
              r.value.attachments.value == FilterAttachments(Get(payload, "attachments").items)
  {
    var to := Get(payload, "to");
    var from := Get(payload, "from");
    var subject := if Get(payload, "subject").Str? then Trim(Get(payload, "subject").s) else "";
    var text := StringOrEmpty(Get(payload, "text"));
    var html := StringOrEmpty(Get(payload, "html"));
    var attachments := if Get(payload, "attachments").Arr? then Get(payload, "attachments").items else [];
    if !Truthy(to) || !Get(to, "email").Str? || Trim(Get(to, "email").s) == "" then Err(NoRecipient)
    else
      var fromEmail := Get(from, "email");
      var senderEmail :=
        if fromEmail.Str? && Trim(fromEmail.s) != "" then Trim(fromEmail.s)
        else if defaultSenderEmail != "" then defaultSenderEmail
        else "";
      if senderEmail == "" then Err(NoSender)
      else
        var brokenText := BreakLines(text);
        Ok(Message(
          [Address(Trim(Get(to, "email").s), StringOrNone(Get(to, "name")))],
          Address(senderEmail, StringOrNone(Get(from, "name"))),
          if subject != "" then subject else DefaultSubject,
          text,
          if html != "" then html else if brokenText != "" then brokenText else text,
          if |attachments| > 0 then Some(FilterAttachments(attachments)) else None))
  }

  /** The thrown `Error` for a build failure: it carries a message and no `code`. */
  function BuildErrorValue(e: BuildError): (v: JsValue)
    ensures v.Obj? && "code" !in v.fields
  {
    Obj(map["message" := Str(
      match e
      case NoRecipient => "A valid recipient email address is required."
      case NoSender => "A verified sender email address has not been configured.")])
  }

  /** The status sent for a caught error: its integer `code` when that is in [400, 600), else 500. */
  function ErrorStatus(error: JsValue): (status: int)
    ensures 400 <= status < 600
    ensures var code := Get(error, "code");
            IsIntegral(code) && 400.0 <= code.n < 600.0 ==> status as real == code.n
    ensures var code := Get(error, "code");
            !(IsIntegral(code) && 400.0 <= code.n < 600.0) ==> status == 500
  {
    var code := Get(error, "code");
    var statusCode := if Truthy(code) && IsIntegral(code) then code.n.Floor else 500;
    if 400 <= statusCode < 600 then statusCode else 500
  }

  /** What the I/O steps of a delivery produced: an error value when a step threw. */
  datatype Delivery = Delivery(
    clientError: Option<JsValue>,
    body: Result<JsValue, JsValue>,
    sendError: Option<JsValue>)

  /** The delivery went through: the client loaded, the body parsed into a valid message, and sending succeeded. */
  predicate Delivered(config: RelayConfig, io: Delivery) {
    && io.clientError.None?
    && io.body.Ok?
    && BuildMessage(io.body.value, config.defaultSenderEmail).Ok?
    && io.sendError.None?
  }

  /** The status `sendgridHandler` answers a request with. */
  function HandlerStatus(config: RelayConfig, verb: string, io: Delivery): (status: int)
    ensures verb == "OPTIONS" ==> status == 204
    ensures verb != "OPTIONS" && verb != "POST" ==> status == 405
    ensures verb == "POST" && config.apiKey == "" ==> status == 500
    ensures status == 200 <==> verb == "POST" && config.apiKey != "" && Delivered(config, io)
    ensures status == 200 || status == 204 || status == 405 || 400 <= status < 600
    ensures (verb == "POST" && io.clientError.None? && io.body.Ok?
              && BuildMessage(io.body.value, config.defaultSenderEmail).Err?) ==> status == 500
    ensures verb == "POST" && config.apiKey != "" && io.clientError.Some? ==>
              status == ErrorStatus(io.clientError.value)
    ensures verb == "POST" && config.apiKey != "" && io.clientError.None? && io.body.Err? ==>
              status == ErrorStatus(io.body.error)
    ensures (verb == "POST" && config.apiKey != "" && io.clientError.None? && io.body.Ok?
              && BuildMessage(io.body.value, config.defaultSenderEmail).Ok? && io.sendError.Some?) ==>
              status == ErrorStatus(io.sendError.value)
  {
    if verb == "OPTIONS" then 204
    else if verb != "POST" then 405
    else if config.apiKey == "" then 500
    else if io.clientError.Some? then ErrorStatus(io.clientError.value)
    else if io.body.Err? then ErrorStatus(io.body.error)
    else
      match BuildMessage(io.body.value, config.defaultSenderEmail)
      case Err(e) => ErrorStatus(BuildErrorValue(e))
      case Ok(_) => if io.sendError.Some? then ErrorStatus(io.sendError.value) else 200
  }

  /**
   * The middleware: a request is handed to the handler only when it has a URL
   * whose path (as `pathname` computes it) is the configured endpoint;
   * `None` stands for passing the request on with `next()`.
   */
  function Middleware(config: RelayConfig, url: string, verb: string, pathname: string -> string, io: Delivery): (r: Option<int>)
    ensures r.None? <==> url == "" || pathname(url) != config.endpoint
    ensures r.Some? ==> r.value == HandlerStatus(config, verb, io)
  {
    if url == "" then None
    else if pathname(url) != config.endpoint then None
    else Some(HandlerStatus(config, verb, io))
  }
}
