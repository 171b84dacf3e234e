/**
 * AbstractControllerAdvice: each handled exception becomes an HTTP status
 * and a list of ControllerErrorVO entries. A handler can itself throw; that
 * is its Failure.
 */
module ControllerAdvice {
  import opened Wrappers
  import opened Collections
  import opened JavaStrings
  import opened Http
  import opened CrudErrors

  type ErrorResponse = Reply<seq<ControllerErrorVO>>

  /**
   * buildErrorResponse(title, messages...): a null array gives no entries;
   * otherwise one entry per message, in order, each under the title.
   */
  method BuildErrorResponse(title: string, messages: Option<seq<Option<string>>>) returns (errors: seq<ControllerErrorVO>)
    ensures messages.None? ==> errors == []
    ensures messages.Some? ==> |errors| == |messages.value|
    ensures messages.Some? ==> forall i :: 0 <= i < |errors| ==> errors[i] == ControllerErrorVO(title, messages.value[i])
  {
    errors := [];
    if messages.Some? {
      var i := 0;
      while i < |messages.value|
        invariant 0 <= i <= |messages.value|
        invariant |errors| == i
        invariant forall j :: 0 <= j < i ==> errors[j] == ControllerErrorVO(title, messages.value[j])
      {
        errors := errors + [ControllerErrorVO(title, messages.value[i])];
        i := i + 1;
      }
    }
  }

  /** One failed field: its name and its message. */
  type FieldFailure = (string, Option<string>)

  /** The failed-fields HashMap after putting every failure in order: a later failure of a field replaces an earlier one. */
  function FailedFields(failures: seq<FieldFailure>): (m: map<string, Option<string>>)
    ensures m.Keys == set i | 0 <= i < |failures| :: failures[i].0
    decreases |failures|
  {
    if |failures| == 0 then map[]
    else
      var front := failures[..|failures| - 1];
      var last := failures[|failures| - 1];
      var m := FailedFields(front)[last.0 := last.1];
      assert m.Keys == set i | 0 <= i < |failures| :: failures[i].0 by {
        forall k | k in m.Keys ensures exists i :: 0 <= i < |failures| && failures[i].0 == k {
          if k != last.0 {
            var i :| 0 <= i < |front| && front[i].0 == k;
            assert failures[i].0 == k;
          }
        }
        forall i | 0 <= i < |failures| ensures failures[i].0 in m.Keys {
          if i < |front| {
            assert front[i].0 in FailedFields(front).Keys;
          }
        }
      }
      m
  }

  /** The message kept for a field is the one of its last failure. */
  lemma {:induction false} FailedFieldsLastWins(failures: seq<FieldFailure>, i: nat)
    requires i < |failures|
    requires forall j :: i < j < |failures| ==> failures[j].0 != failures[i].0
    ensures FailedFields(failures)[failures[i].0] == failures[i].1
    decreases |failures|
  {
    if i < |failures| - 1 {
      var front := failures[..|failures| - 1];
      FailedFieldsLastWins(front, i);
    }
  }

  /**
   * The forEach over the failures: put each field's message into the map,
   * the last put of a field winning.
   */
  method FillFailedFields(failures: seq<FieldFailure>) returns (failedFields: map<string, Option<string>>)
    ensures failedFields == FailedFields(failures)
  {
    failedFields := map[];
    var i := 0;
    while i < |failures|
      invariant 0 <= i <= |failures|
      invariant failedFields == FailedFields(failures[..i])
    {
      assert failures[..i + 1][..i] == failures[..i];
      failedFields := failedFields[failures[i].0 := failures[i].1];
      i := i + 1;
    }
    assert failures[..i] == failures;
  }

  /** `(FieldError) error` on every binding error: a global error cannot be cast. */
  function BindingFailures(errors: seq<BindingError>): (r: Result<seq<FieldFailure>, Exception>)
    ensures r.Failure? <==> exists i :: 0 <= i < |errors| && errors[i].GlobalError?
    ensures r.Failure? ==> r.error == ClassCastException
    ensures r.Success? ==> |r.value| == |errors|
    ensures r.Success? ==> forall i :: 0 <= i < |errors| ==> r.value[i] == (errors[i].field, errors[i].defaultMessage)
    decreases |errors|
  {
    if |errors| == 0 then Success([])
    else match errors[0]
      case GlobalError(_) => Failure(ClassCastException)
      case FieldError(field, message) =>
        match BindingFailures(errors[1..])
        case Failure(e) =>
          assert exists i :: 0 <= i < |errors[1..]| && errors[1..][i].GlobalError?;
          var i :| 0 <= i < |errors[1..]| && errors[1..][i].GlobalError?;
          assert errors[i + 1].GlobalError?;
          Failure(e)
        case Success(rest) =>
          assert forall i :: 1 <= i < |errors| ==> errors[i] == errors[1..][i - 1];
          Success([(field, message)] + rest)
  }

  /** The violations' property paths and messages, in order. */
  function ViolationFailures(violations: seq<Violation>): (r: seq<FieldFailure>)
    ensures |r| == |violations|
    ensures forall i :: 0 <= i < |violations| ==> r[i] == (violations[i].propertyPath, violations[i].message)
  {
    seq(|violations|, i requires 0 <= i < |violations| => (violations[i].propertyPath, violations[i].message))
  }

  /** One validation entry: "Field validation failed", "The field <name> <message>". */
  function FieldEntry(field: string, message: Option<string>): ControllerErrorVO {
    ControllerErrorVO(ValidationConstraintsFailedMessage.Title(), Some(FieldMessage(field, message)))
  }

  /**
   * buildValidationErrorsFromFields: one entry per map entry, in the
   * HashMap's iteration order, which `order` records.
   */
  method BuildValidationErrorsFromFields(failedFields: map<string, Option<string>>)
    returns (errors: seq<ControllerErrorVO>, ghost order: seq<string>)
    ensures NoDuplicates(order) && Elements(order) == failedFields.Keys
    ensures |errors| == |order| == |failedFields|
    ensures forall i :: 0 <= i < |errors| ==> errors[i] == FieldEntry(order[i], failedFields[order[i]])
    ensures forall k :: k in failedFields ==> FieldEntry(k, failedFields[k]) in errors
  {
    errors := [];
    order := [];
    var entries := failedFields.Keys;
    while entries != {}
      invariant entries <= failedFields.Keys
      invariant NoDuplicates(order)
      invariant Elements(order) == failedFields.Keys - entries
      invariant |errors| == |order|
      invariant forall i :: 0 <= i < |errors| ==> order[i] in failedFields && errors[i] == FieldEntry(order[i], failedFields[order[i]])
      decreases entries
    {
      var key :| key in entries;
      assert Elements(order + [key]) == Elements(order) + {key};
      errors := errors + [FieldEntry(key, failedFields[key])];
      order := order + [key];
      entries := entries - {key};
    }
    DistinctCardinality(order);
    forall k | k in failedFields ensures FieldEntry(k, failedFields[k]) in errors {
      assert k in Elements(order);
      var i :| 0 <= i < |order| && order[i] == k;
      assert errors[i] == FieldEntry(k, failedFields[k]);
    }
  }

  /**
   * handleValidationException(MethodArgumentNotValidException): 400 with
   * one entry per failed field, or a ClassCastException when a binding
   * error is not a field error.
   */
  method HandleMethodArgumentNotValid(errors: seq<BindingError>) returns (r: Result<ErrorResponse, Exception>, ghost order: seq<string>)
    ensures r.Failure? <==> exists i :: 0 <= i < |errors| && errors[i].GlobalError?
    ensures r.Failure? ==> r.error == ClassCastException
    ensures r.Success? ==> r.value.status == BAD_REQUEST
    ensures r.Success? ==> var failed := FailedFields(BindingFailures(errors).value);
      && NoDuplicates(order) && Elements(order) == failed.Keys && |r.value.body| == |order| == |failed|
      && forall i :: 0 <= i < |order| ==> r.value.body[i] == FieldEntry(order[i], failed[order[i]])
    ensures r.Success? ==> var failed := FailedFields(BindingFailures(errors).value);
      forall k :: k in failed ==> FieldEntry(k, failed[k]) in r.value.body
  {
    order := [];
    var failures := BindingFailures(errors);
    if failures.Failure? {
      return Failure(failures.error), order;
    }
    var failedFields := FillFailedFields(failures.value);
    var body;
    body, order := BuildValidationErrorsFromFields(failedFields);
    r := Success(Reply(BAD_REQUEST, body));
  }

  /** handleValidationException(ConstraintViolationException): 400 with one entry per failed property path. */
  method HandleConstraintViolation(violations: seq<Violation>) returns (r: ErrorResponse, ghost order: seq<string>)
    ensures r.status == BAD_REQUEST
    ensures var failed := FailedFields(ViolationFailures(violations));
      && NoDuplicates(order) && Elements(order) == failed.Keys && |r.body| == |order| == |failed|
      && forall i :: 0 <= i < |order| ==> r.body[i] == FieldEntry(order[i], failed[order[i]])
    ensures var failed := FailedFields(ViolationFailures(violations));
      forall k :: k in failed ==> FieldEntry(k, failed[k]) in r.body
  {
    var failedFields := FillFailedFields(ViolationFailures(violations));
    var body;
    body, order := BuildValidationErrorsFromFields(failedFields);
    r := Reply(BAD_REQUEST, body);
  }

  /**
   * httpMessageNotReadableException: 400 with the message cut to start at
   * its first "String". A null message throws NullPointerException, and a
   * message without "String" makes substring(-1) throw.
   */
  function HandleHttpMessageNotReadable(message: Option<string>): (r: Result<ErrorResponse, Exception>)
    ensures message.None? ==> r == Failure(NullPointerException)
    ensures message.Some? ==> (r.Failure? <==> forall i :: !OccursAt(message.value, "String", i))
    ensures message.Some? && r.Failure? ==> r.error == StringIndexOutOfBoundsException
    ensures r.Success? ==> r.value.status == BAD_REQUEST && |r.value.body| == 1
    ensures r.Success? ==> exists i ::
      && OccursAt(message.value, "String", i)
      && (forall j :: 0 <= j < i ==> !OccursAt(message.value, "String", j))
      && r.value.body[0] == ControllerErrorVO(HTTP_MESSAGE_NOT_READABLE, Some(message.value[i..]))
  {
    match message
    case None => Failure(NullPointerException)
    case Some(m) =>
      var index := IndexOf(m, "String");
      if index == -1 then Failure(StringIndexOutOfBoundsException)
      else
        assert OccursAt(m, "String", index);
        Success(Reply(BAD_REQUEST, [ControllerErrorVO(HTTP_MESSAGE_NOT_READABLE, Some(m[index..]))]))
  }

  /** The trimmed description begins with "String" and is the tail of the message. */
  lemma TrimmedMessageStartsWithString(message: string)
    requires HandleHttpMessageNotReadable(Some(message)).Success?
    ensures var d := HandleHttpMessageNotReadable(Some(message)).value.body[0].description.value;
      && |d| >= 6 && d[..6] == "String"
      && d == message[|message| - |d|..]
  {
  }

  /** entityNotFound: 404 with one "Entity not found" entry carrying the exception's message. */
  method HandleEntityNotFound(message: Option<string>) returns (r: ErrorResponse)
    ensures r == Reply(NOT_FOUND, [ControllerErrorVO(EntityNotFoundMessage.Title(), message)])
  {
    var body := BuildErrorResponse(EntityNotFoundMessage.Title(), Some([message]));
    assert |body| == 1 && body[0] == ControllerErrorVO(EntityNotFoundMessage.Title(), message);
    assert body == [ControllerErrorVO(EntityNotFoundMessage.Title(), message)];
    r := Reply(NOT_FOUND, body);
  }

  /** entityExists: 400 with one "Entity already exists" entry carrying the exception's message. */
  method HandleEntityExists(message: Option<string>) returns (r: ErrorResponse)
    ensures r == Reply(BAD_REQUEST, [ControllerErrorVO(EntityAlreadyExistsMessage.Title(), message)])
  {
    var body := BuildErrorResponse(EntityAlreadyExistsMessage.Title(), Some([message]));
    assert |body| == 1 && body[0] == ControllerErrorVO(EntityAlreadyExistsMessage.Title(), message);
    assert body == [ControllerErrorVO(EntityAlreadyExistsMessage.Title(), message)];
    r := Reply(BAD_REQUEST, body);
  }

  /**
   * businessException: 422; a non-empty message list gives one "Business
   * rule failed" entry per message, in order, and otherwise (null or
   * empty) one entry with getMessage().
   */
  method HandleBusinessException(ex: BusinessException) returns (r: ErrorResponse)
    ensures r.status == UNPROCESSABLE_ENTITY
    ensures IsNotEmpty(ex.messages) ==> |r.body| == |ex.messages.value|
    ensures IsNotEmpty(ex.messages) ==> forall i :: 0 <= i < |r.body| ==> r.body[i] == ControllerErrorVO(BUSINESS_RULE_FAILED, ex.messages.value[i])
    ensures !IsNotEmpty(ex.messages) ==> r.body == [ControllerErrorVO(BUSINESS_RULE_FAILED, ex.message)]
  {
    var errors: seq<ControllerErrorVO> := [];
    if IsNotEmpty(ex.messages) {
      var messagesArray := GetMessagesArray(ex);
      var built := BuildErrorResponse(BUSINESS_RULE_FAILED, Some(messagesArray.value));
      errors := errors + built;
    } else {
      errors := errors + [ControllerErrorVO(BUSINESS_RULE_FAILED, ex.message)];
    }
    r := Reply(UNPROCESSABLE_ENTITY, errors);
  }

  /** The exception kinds an @ExceptionHandler of the advice is registered for. */
  predicate Handled(ex: Exception) {
    || ex.EntityNotFoundException? || ex.EntityExistsException? || ex.MethodArgumentNotValidException?
    || ex.ConstraintViolationException? || ex.HttpMessageNotReadableException? || ex.BusinessRuleException?
  }

  /**
   * The handler Spring picks for an exception: None when no handler is
   * registered for its kind; otherwise the handler's response, or the
   * exception the handler itself throws.
   */
  method Handle(ex: Exception) returns (r: Option<Result<ErrorResponse, Exception>>)
    ensures r.Some? <==> Handled(ex)
    ensures ex.EntityNotFoundException? ==> r == Some(Success(Reply(NOT_FOUND, [ControllerErrorVO(EntityNotFoundMessage.Title(), ex.message)])))
    ensures ex.EntityExistsException? ==> r == Some(Success(Reply(BAD_REQUEST, [ControllerErrorVO(EntityAlreadyExistsMessage.Title(), ex.message)])))
    ensures ex.MethodArgumentNotValidException? ==>
      && (r.value.Failure? <==> exists i :: 0 <= i < |ex.errors| && ex.errors[i].GlobalError?)
      && (r.value.Failure? ==> r.value.error == ClassCastException)
      && (r.value.Success? ==> var failed := FailedFields(BindingFailures(ex.errors).value);
            && r.value.value.status == BAD_REQUEST && |r.value.value.body| == |failed|
            && forall k :: k in failed ==> FieldEntry(k, failed[k]) in r.value.value.body)
    ensures ex.ConstraintViolationException? ==> r.value.Success?
    ensures ex.ConstraintViolationException? ==> var failed := FailedFields(ViolationFailures(ex.violations));
      && r.value.value.status == BAD_REQUEST && |r.value.value.body| == |failed|
      && forall k :: k in failed ==> FieldEntry(k, failed[k]) in r.value.value.body
    ensures ex.HttpMessageNotReadableException? ==> r == Some(HandleHttpMessageNotReadable(ex.message))
    ensures ex.BusinessRuleException? ==> r.value.Success? && var reply := r.value.value; var b := ex.business;
      && reply.status == UNPROCESSABLE_ENTITY
      && (IsNotEmpty(b.messages) ==> |reply.body| == |b.messages.value|)
      && (IsNotEmpty(b.messages) ==> forall i :: 0 <= i < |reply.body| ==> reply.body[i] == ControllerErrorVO(BUSINESS_RULE_FAILED, b.messages.value[i]))
      && (!IsNotEmpty(b.messages) ==> reply.body == [ControllerErrorVO(BUSINESS_RULE_FAILED, b.message)])
  {
    match ex
    case EntityNotFoundException(message) =>
      var response := HandleEntityNotFound(message);
      r := Some(Success(response));
    case EntityExistsException(message) =>
      var response := HandleEntityExists(message);
      r := Some(Success(response));
    case MethodArgumentNotValidException(errors) =>
      var response, _ := HandleMethodArgumentNotValid(errors);
      r := Some(response);
    case ConstraintViolationException(violations) =>
      var response, _ := HandleConstraintViolation(violations);
      r := Some(Success(response));
    case HttpMessageNotReadableException(message) =>
      r := Some(HandleHttpMessageNotReadable(message));
    case BusinessRuleException(business) =>
      var response := HandleBusinessException(business);
      r := Some(Success(response));
    case _ =>
      r := None;
  }
}
