/**
 * The contact form's field checks. Each receives `cleaned_data.get(...)`
 * for its field (`None` when there is no cleaned value) and either returns
 * it or raises a validation error with a fixed message. Both fields are
 * required, so inside a full `is_valid()` the field's own check has already
 * refused an absent or empty value with "This field is required." and the
 * method is not called; its "required" branch is reached only when the
 * method is called on its own.
 */
module Forms {

  import opened Wrappers

  datatype ValidationError = ValidationError(message: string)

  const EmailRequired: string := "Email is required."
  const MessageRequired: string := "Message is required."
  const MessageTooShort: string := "Message should be at least 10 characters long."
  const MinMessageLength: nat := 10

  /** `clean_email`: a missing or empty email is rejected; any other is accepted as it is. */
  function CleanEmail(email: Option<string>): (r: Result<string, ValidationError>)
    ensures r.Ok? <==> email.Some? && email.value != []
    ensures r.Ok? ==> r.value == email.value
    ensures r.Err? ==> r.error == ValidationError(EmailRequired)
  {
    match email
    case None => Err(ValidationError(EmailRequired))
    case Some(e) => if e == [] then Err(ValidationError(EmailRequired)) else Ok(e)
  }

  /**
   * `clean_message`: a missing or empty message is "required" (checked
   * first), a shorter one than 10 characters is "too short", and any other
   * is accepted as it is.
   */
  function CleanMessage(message: Option<string>): (r: Result<string, ValidationError>)
    ensures r.Ok? <==> message.Some? && |message.value| >= MinMessageLength
    ensures r.Ok? ==> r.value == message.value
    ensures message.None? || message.value == [] ==> r == Err(ValidationError(MessageRequired))
    ensures message.Some? && 0 < |message.value| < MinMessageLength ==> r == Err(ValidationError(MessageTooShort))
  {
    match message
    case None => Err(ValidationError(MessageRequired))
    case Some(m) =>
      if m == [] then Err(ValidationError(MessageRequired))
      else if |m| < MinMessageLength then Err(ValidationError(MessageTooShort))
      else Ok(m)
  }
}
