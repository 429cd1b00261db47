/**
 * The message-notification trigger (functions/index.js): the preview text
 * cut from a message body, and the notification record written when a
 * message document is created. The Firestore write and logging are left to
 * the caller of `NotificationFor`.
 */
module MessageNotifications {
  import opened Wrappers
  import opened JsValues
  import opened Strings

  const MaxMessagePreviewLength: nat := 180
  const Ellipsis: char := '\U{2026}'

  /** `createMessagePreview(body)`: the trimmed body, cut to 180 characters with an ellipsis when longer. */
  function CreateMessagePreview(body: JsValue): (r: string)
    ensures !body.Str? ==> r == ""
    ensures |r| <= MaxMessagePreviewLength
    ensures body.Str? && |Trim(body.s)| <= MaxMessagePreviewLength ==> r == Trim(body.s)
    ensures body.Str? && |Trim(body.s)| > MaxMessagePreviewLength ==>
              && |r| == MaxMessagePreviewLength
              && r[..MaxMessagePreviewLength - 1] == Trim(body.s)[..MaxMessagePreviewLength - 1]
              && r[MaxMessagePreviewLength - 1] == Ellipsis
    ensures body.Str? ==> r == Trim(body.s) || (r[..|r| - 1] < Trim(body.s) && r[|r| - 1] == Ellipsis)
  {
    if !body.Str? then ""
    else
      var trimmed := Trim(body.s);
      if |trimmed| <= MaxMessagePreviewLength then trimmed
      else trimmed[..MaxMessagePreviewLength - 1] + [Ellipsis]
  }

  /** A preview is its own preview: it is already trimmed and already short enough. */
  lemma PreviewIdempotent(body: JsValue)
    ensures var preview := CreateMessagePreview(body);
            CreateMessagePreview(Str(preview)) == preview
  {
    var preview := CreateMessagePreview(body);
    if body.Str? && |Trim(body.s)| > MaxMessagePreviewLength {
      assert preview[0] == Trim(body.s)[0];
      assert IsTrimmed(preview);
    }
    TrimmedIsFixpoint(preview);
  }

  /** `event.params.messageId`, and what `event.data?.data()` yielded (`None` for an event without a snapshot). */
  datatype MessageEvent = MessageEvent(messageId: string, snapshot: Option<JsValue>)

  /** The notification document; the server timestamp `createdAt` is filled in by Firestore. */
  datatype Notification = Notification(
    recipientId: JsValue,
    messageId: string,
    kind: string,
    read: bool,
    senderId: JsValue,
    senderName: JsValue,
    messageBody: string,
    messagePreview: string)

  /** The event describes a message that has a recipient to notify. */
  predicate HasRecipient(event: MessageEvent) {
    event.snapshot.Some? && Truthy(event.snapshot.value) && Truthy(Get(event.snapshot.value, "recipientId"))
  }

  /** `notificationPayload` of `onMessageCreated`, or `None` when the trigger returns early. */
  function NotificationFor(event: MessageEvent): (r: Option<Notification>)
    ensures r.Some? <==> HasRecipient(event)
    ensures r.Some? ==> var n := r.value; var data := event.snapshot.value;
              && n.recipientId == Get(data, "recipientId") && Truthy(n.recipientId)
              && n.messageId == event.messageId
              && n.kind == "message"
              && !n.read
    ensures r.Some? ==> var n := r.value; var data := event.snapshot.value;
              && (Get(data, "senderId").Undefined? || Get(data, "senderId").Null? ==> n.senderId == Null)
              && (!Get(data, "senderId").Undefined? && !Get(data, "senderId").Null? ==> n.senderId == Get(data, "senderId"))
              && (Get(data, "senderName").Undefined? || Get(data, "senderName").Null? ==> n.senderName == Null)
              && (!Get(data, "senderName").Undefined? && !Get(data, "senderName").Null? ==> n.senderName == Get(data, "senderName"))
    ensures r.Some? ==> var n := r.value; var body := Get(event.snapshot.value, "body");
              && (body.Str? ==> n.messageBody == body.s)
              && (!body.Str? ==> n.messageBody == "" && n.messagePreview == "")
              && n.messagePreview == CreateMessagePreview(body)
              && |n.messagePreview| <= MaxMessagePreviewLength
  {
    match event.snapshot
    case None => None
    case Some(data) =>
      if !Truthy(data) then None
      else
        var recipientId := Get(data, "recipientId");
        if !Truthy(recipientId) then None
        else
          var body := Get(data, "body");
          Some(Notification(
            recipientId,
            event.messageId,
            "message",
            false,
            Coalesce(Get(data, "senderId"), Null),
            Coalesce(Get(data, "senderName"), Null),
            if body.Str? then body.s else "",
            CreateMessagePreview(body)))
  }
}
