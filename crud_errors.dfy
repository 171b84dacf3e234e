/**
 * The exception taxonomy the CRUD layer raises and handles, the
 * CrudErrorMessage constants, the ControllerErrorVO entry, and both
 * BusinessException classes.
 */
module CrudErrors {
  import opened Wrappers

  /** One error of a MethodArgumentNotValidException's binding result. */
  datatype BindingError =
    | FieldError(field: string, defaultMessage: Option<string>)
    | GlobalError(defaultMessage: Option<string>)

  /** One violation of a ConstraintViolationException: its property path, as a string, and message. */
  datatype Violation = Violation(propertyPath: string, message: Option<string>)

  /**
   * A BusinessException: the message inherited from RuntimeException and
   * the list of messages (each list element may itself be null).
   */
  datatype BusinessException = BusinessException(message: Option<string>, messages: Option<seq<Option<string>>>)

  datatype Exception =
    | EntityNotFoundException(message: Option<string>)
    | EntityExistsException(message: Option<string>)
    | MethodArgumentNotValidException(errors: seq<BindingError>)
    | ConstraintViolationException(violations: seq<Violation>)
    | HttpMessageNotReadableException(message: Option<string>)
    | BusinessRuleException(business: BusinessException)
    | UnsupportedOperationException
    | NullPointerException
    | IllegalArgumentException
    | ClassCastException
    | StringIndexOutOfBoundsException
    | IllegalFormatConversionException

  /** CrudErrorMessage: a title and a message template. */
  datatype CrudErrorMessage = EntityNotFoundMessage | EntityAlreadyExistsMessage | ValidationConstraintsFailedMessage {
    function Title(): string {
      match this
      case EntityNotFoundMessage => "Entity not found"
      case EntityAlreadyExistsMessage => "Entity already exists"
      case ValidationConstraintsFailedMessage => "Field validation failed"
    }
  }

  const BUSINESS_RULE_FAILED := "Business rule failed"
  const HTTP_MESSAGE_NOT_READABLE := "Http message not readable"

  /** ControllerErrorVO: one entry of an error body. */
  datatype ControllerErrorVO = ControllerErrorVO(error: string, description: Option<string>)

  /** String.format("The field %s %s", name, message); a null message prints as "null". */
  function FieldMessage(field: string, message: Option<string>): string {
    "The field " + field + " " + (match message case Some(m) => m case None => "null")
  }

  /** CollectionUtils.isNotEmpty: non-null and not empty. */
  predicate IsNotEmpty<T>(list: Option<seq<T>>) {
    list.Some? && |list.value| > 0
  }

  /**
   * The list constructor of the techmath BusinessException: keeps a
   * non-empty list, replaces a null or empty one by the empty list, and
   * sets no message.
   */
  function BusinessExceptionOf(messages: Option<seq<Option<string>>>): (ex: BusinessException)
    ensures ex.message.None? && ex.messages.Some?
    ensures IsNotEmpty(messages) ==> ex.messages == messages
    ensures !IsNotEmpty(messages) ==> ex.messages == Some([])
  {
    if IsNotEmpty(messages) then BusinessException(None, messages) else BusinessException(None, Some([]))
  }

  /** The message constructor of the techmath BusinessException: no list, the given message. */
  function BusinessExceptionWithMessage(message: Option<string>): (ex: BusinessException)
    ensures ex.messages == Some([]) && ex.message == message
  {
    BusinessException(message, Some([]))
  }

  /**
   * The only constructor of the astro BusinessException: the list as
   * given, null included; its own `message` field, which shadows the
   * inherited one for getMessage(), is always null.
   */
  function AstroBusinessExceptionOf(messages: Option<seq<Option<string>>>): (ex: BusinessException)
    ensures ex.message.None? && ex.messages == messages
  {
    BusinessException(None, messages)
  }

  /** getMessagesArray: the list's elements in order; a null list throws. */
  function GetMessagesArray(ex: BusinessException): (r: Result<seq<Option<string>>, Exception>)
    ensures ex.messages.None? <==> r.Failure?
    ensures r.Failure? ==> r.error == NullPointerException
    ensures r.Success? ==> |r.value| == |ex.messages.value| && forall i :: 0 <= i < |r.value| ==> r.value[i] == ex.messages.value[i]
  {
    match ex.messages
    case None => Failure(NullPointerException)
    case Some(ms) => Success(ms)
  }

  /** Every techmath BusinessException has a list, so its getMessagesArray never throws. */
  lemma TechmathMessagesArrayNeverThrows(messages: Option<seq<Option<string>>>, message: Option<string>)
    ensures GetMessagesArray(BusinessExceptionOf(messages)).Success?
    ensures GetMessagesArray(BusinessExceptionWithMessage(message)) == Success([])
  {
  }
}
