# allcrud, modelled in Dafny

allcrud is a generic CRUD layer over Spring Data and Spring MVC. It comes in two copies, `com.techmath.allcrud` and `com.astro.allcrud`. This project models its framework-independent core:

- The generic **service**: create, the lookups, the query-by-example findAll, full and partial update, and delete with soft-delete dispatch. It works over a repository held as a map from id to entity.
- The **partial-update probe** (`UpdaterExample`) and `ValidationUtils.getNullPropertyNames`. Together they form the mask that keeps a partial update off the id and off the probe's null properties.
- The **controller** handlers: the list protocol (status, four pagination headers, converted content), `getPageableOf` and `mountPageableHttpHeaders`.
- The **exception advice**: each handled exception becomes a status and a list of `ControllerErrorVO` entries.
- The two `BusinessException` classes.
- The **test display-name generator**.

An entity is its bean properties, a map from property name to a possibly-null value that always has an `id` key, plus whether its class implements `SoftDeletable`. Java `null` is `None`. A call that throws returns `Failure(exception)`, and a `void` call returns an `Outcome`.

The astro copy is the same `CrudService` class with `package == Astro`. In that copy:

- `deleteById` always deletes physically.
- Not-found exceptions carry no message.

Module layout, one file each:

- `wrappers.dfy`: Option, Result and Outcome.
- `collections.dfy`: duplicate-free sequences and LinkedHashSet order.
- `java_strings.dfy`: the `String`/`Character` operations used.
- `http.dfy`: statuses and HttpHeaders.
- `entities.dfy`: entities and `BeanUtils.copyProperties`.
- `example_matching.dfy`: query by example.
- `validation_utils.dfy`.
- `updater_example.dfy`.
- `page_request.dfy`: PageRequestVO, Pageable and Page.
- `crud_errors.dfy`: exceptions, CrudErrorMessage, ControllerErrorVO and BusinessException.
- `crud_service.dfy`.
- `crud_controller.dfy`.
- `controller_advice.dfy`.
- `display_names.dfy`.

Calls into code that is not part of this model become parameters:

- The database's generated id is `generated` of `Create`.
- The repository's paging of a query result is `pager`.
- The converter is the pair of functions `toVO` and `toEntity`.
- A service's `softDelete` override is the property values it sets, `softDeleteOverride`.

## Model

| member | source | states |
|---|---|---|
| Collections.InsertionOrdered | src/main/java/com/techmath/allcrud/common/UpdaterExample.java:49 | withIgnorePaths keeps its paths in a LinkedHashSet: the same names as given, each once |
| JavaStrings.ToLowerCase | src/testFixtures/java/com/techmath/allcrud/config/AllcrudDisplayNameGenerator.java:22 | same length, each upper-case letter lowered in place, no upper-case letter left |
| JavaStrings.IndexOf | src/main/java/com/techmath/allcrud/exception/handler/AbstractControllerAdvice.java:136 | -1 exactly when the pattern occurs nowhere, else its first occurrence |
| JavaStrings.DecimalRoundTrip | src/main/java/com/techmath/allcrud/controller/CrudController.java:199-202 | a String.valueOf header value parses back to the number written |
| Http.Add | src/main/java/com/techmath/allcrud/controller/CrudController.java:199-202 | HttpHeaders.add appends one value under the name and leaves the other names alone |
| Entities.WithId | src/main/java/com/techmath/allcrud/service/CrudService.java:66 | setId changes the id and no other property |
| Entities.CopyProperties | src/main/java/com/techmath/allcrud/service/CrudService.java:132 | every target property the source has and that is not ignored takes the source's value, null included; the others keep theirs; same keys |
| Entities.CopyIgnoringIdKeepsId | src/main/java/com/techmath/allcrud/service/CrudService.java:146 | a copy that ignores "id" never changes the id |
| Entities.CopyIsIdempotent | src/main/java/com/techmath/allcrud/service/CrudService.java:132 | copying the same source a second time changes nothing |
| ExampleMatching.ValueMatches | src/main/java/com/techmath/allcrud/service/CrudService.java:178 | one probe value against one candidate value: strings compare ignoring case when the matcher says so, every other value by equality |
| ExampleMatching.Matches | src/main/java/com/techmath/allcrud/service/CrudService.java:177-179 | matchingAll with null values ignored: the candidate meets every non-null, non-ignored probe property |
| ExampleMatching.DefaultExampleMatcher | src/main/java/com/techmath/allcrud/service/CrudService.java:177-179 | defaultExampleMatcher: ignore case, no ignored paths |
| ExampleMatching.AllNullProbeMatchesEverything | src/main/java/com/techmath/allcrud/service/CrudService.java:177-179 | with null values ignored, an all-null probe matches every candidate |
| ExampleMatching.EveryCandidateMatchesItself | src/main/java/com/techmath/allcrud/service/CrudService.java:177-179 | every entity matches itself used as a probe |
| ExampleMatching.OneDifferingPropertyExcludes | src/main/java/com/techmath/allcrud/service/CrudService.java:177-179 | matchingAll: one non-null probe property the candidate does not match excludes it |
| ExampleMatching.DefaultMatcherIgnoresCase | src/main/java/com/techmath/allcrud/service/CrudService.java:178 | withIgnoreCase: string values that differ only in case match |
| ExampleMatching.MoreProbeValuesNarrowMatches | src/main/java/com/techmath/allcrud/service/CrudService.java:177-179 | filling in one more probe property can only shrink the matches |
| ValidationUtils.GetNullPropertyNames | src/main/java/com/techmath/allcrud/util/ValidationUtils.java:35-49 | a name is in the result iff that property is null; no duplicates; length = number of null properties; the source is only read |
| ValidationUtils.NoNullPropertiesNoNames | src/main/java/com/techmath/allcrud/util/ValidationUtils.java:40-45 | a bean with no null property has no null-property names |
| UpdaterExamples.UpdaterExample.GetMatcher | src/main/java/com/techmath/allcrud/common/UpdaterExample.java:46-50 | case-sensitive matcher whose ignored paths, each once, are ignoredProperties plus "id" (astro copy: the same, lines 29-33 of its UpdaterExample.java) |
| UpdaterExamples.UpdaterExample.GetIgnoredPaths | src/main/java/com/techmath/allcrud/common/UpdaterExample.java:57-59 | always contains "id"; a name is in it iff it is "id" or an ignored property; no duplicates; a function of the two fields only (astro copy: the same, lines 35-37 of its UpdaterExample.java) |
| UpdaterExamples.FromProbe | src/main/java/com/techmath/allcrud/common/UpdaterExample.java:35-38 | the one-argument constructor keeps the probe and ignores exactly its null-property names (astro copy: the same, lines 18-21 of its UpdaterExample.java) |
| UpdaterExamples.PartialCopyFromProbe | src/main/java/com/techmath/allcrud/common/UpdaterExample.java:47-49 | copying a probe under its own example never changes the id, takes every non-null probe value and keeps the target's value where the probe is null |
| PageRequests.HeaderNamesDistinct | src/main/java/com/techmath/allcrud/common/PageRequestVO.java:35-44 | the four header names are pairwise distinct |
| CrudErrors.BusinessExceptionOf | src/main/java/com/techmath/allcrud/exception/BusinessException.java:35-41 | the list constructor keeps a non-empty list, turns a null or empty one into the empty list, and sets no message |
| CrudErrors.BusinessExceptionWithMessage | src/main/java/com/techmath/allcrud/exception/BusinessException.java:48-51 | the string constructor: empty list, getMessage() is the argument |
| CrudErrors.AstroBusinessExceptionOf | src/main/java/com/astro/allcrud/exception/BusinessException.java:13-16 | the list is stored as given, null included; getMessage() is null for every instance |
| CrudErrors.GetMessagesArray | src/main/java/com/techmath/allcrud/exception/BusinessException.java:58-60 | the list's elements in order, NullPointerException exactly when the list is null (astro copy: the same, lines 18-20 of its BusinessException.java) |
| CrudErrors.TechmathMessagesArrayNeverThrows | src/main/java/com/techmath/allcrud/exception/BusinessException.java:35-51 | no techmath instance has a null list, so getMessagesArray never throws |
| Service.NotFound | src/main/java/com/techmath/allcrud/service/CrudService.java:187-190 | a not-found exception, with a message in the techmath copy and without one in the astro copy |
| Service.FindOrThrow | src/main/java/com/techmath/allcrud/service/CrudService.java:131 | findById(id).orElseThrow: succeeds iff the id is stored, with the stored entity, else the not-found exception |
| Service.FormatNotFoundAsWritten | src/main/java/com/techmath/allcrud/service/CrudService.java:188 | String.format with %d succeeds exactly on integral ids |
| Service.StoredStringIdFailsAsWritten | src/main/java/com/techmath/allcrud/service/CrudService.java:187-190 | a stored String id fails the as-written lookup but not the corrected one |
| Service.AsWrittenAgreesOnIntegralIds | src/main/java/com/techmath/allcrud/service/CrudService.java:187-190 | on integral ids the as-written and corrected lookups agree |
| Service.StringIdCounterexample | src/main/java/com/techmath/allcrud/service/CrudService.java:131 | a concrete one-row repository in which the as-written lookup of its own id fails |
| Service.CrudService.Create | src/main/java/com/techmath/allcrud/service/CrudService.java:62-68 | a non-null stored id throws EntityExistsException and nothing is saved; otherwise the id is cleared and the entity saved under the fresh generated id, every other row unchanged (astro copy: the same, lines 24-30 of its CrudService.java) |
| Service.CrudService.FindById | src/main/java/com/techmath/allcrud/service/CrudService.java:76-78 | present iff stored, and the entity found carries the id asked for |
| Service.CrudService.FindAll | src/main/java/com/techmath/allcrud/service/CrudService.java:85-87 | every stored entity, each under its own id |
| Service.CrudService.FindAllByExample | src/main/java/com/techmath/allcrud/service/CrudService.java:95-98 | a null probe throws; otherwise exactly the stored entities the default matcher accepts (astro copy: the same, lines 40-43 of its CrudService.java) |
| Service.CrudService.FindAllPaged | src/main/java/com/techmath/allcrud/service/CrudService.java:107-110 | a null probe throws; otherwise the repository's page of the same matches |
| Service.CrudService.FindAllById | src/main/java/com/techmath/allcrud/service/CrudService.java:118-120 | exactly the stored entities whose ids were asked for |
| Service.CrudService.Update | src/main/java/com/techmath/allcrud/service/CrudService.java:130-134 | a missing id throws before any write; otherwise every property but the id takes toUpdate's value, nulls included, the id is unchanged and the entity is saved in place (astro copy: the same with a message-less not-found, lines 55-59 of its CrudService.java) |
| Service.CrudService.PartialUpdate | src/main/java/com/techmath/allcrud/service/CrudService.java:144-148 | a missing id throws before any write; otherwise the probe is copied except for the ignored paths, so the id and every ignored property keep their values (astro copy: the same, lines 62-66 of its CrudService.java) |
| Service.CrudService.DeleteById | src/main/java/com/techmath/allcrud/service/CrudService.java:158-166 | missing id: not-found, nothing written. A soft-deletable entity is soft-deleted and saved back, so it stays; without an override UnsupportedOperationException and nothing written. Any other entity is removed (astro copy, lines 69-72 of its CrudService.java: a stored entity is always removed) |
| Service.CrudService.SoftDeletes | src/main/java/com/techmath/allcrud/service/CrudService.java:160 | the `instanceof SoftDeletable` test, made only by the techmath copy |
| Service.CrudService.SoftDeleted | src/main/java/com/techmath/allcrud/service/CrudService.java:198-200 | the override sets its properties and keeps the id and every other property |
| Service.AllNullFilterFindsAll | src/main/java/com/techmath/allcrud/service/CrudService.java:95-98 | an all-null probe finds every stored entity |
| Service.ProbeFindsItself | src/main/java/com/techmath/allcrud/service/CrudService.java:95-98 | a stored entity used as a probe finds itself |
| Controller.GetPageableOf | src/main/java/com/techmath/allcrud/controller/CrudController.java:186-188 | IllegalArgumentException iff page < 0, size < 1 or orderBy has no text; otherwise page, size, direction and orderBy carried over unchanged |
| Controller.DefaultRequestIsAccepted | src/main/java/com/techmath/allcrud/common/PageRequestVO.java:46-56 | the defaults (page 0, size 20, ASC, "id") form a valid page request |
| Controller.PageHeaders | src/main/java/com/techmath/allcrud/controller/CrudController.java:197-204 | exactly the four pagination headers |
| Controller.MountPageableHttpHeaders | src/main/java/com/techmath/allcrud/controller/CrudController.java:197-204 | the four add calls give each header exactly its one value: the requested page and the page's three counts (astro copy: the same, lines 81-88 of its CrudController.java) |
| Controller.PageHeadersRoundTrip | src/main/java/com/techmath/allcrud/controller/CrudController.java:199-202 | currentPage reads back as the requested page; the other three read back as the page's counts |
| Controller.ListStatus | src/main/java/com/techmath/allcrud/controller/CrudController.java:117 | 204 iff totalElements is 0, else 206 (astro copy: the same, line 49 of its CrudController.java) |
| Controller.ConvertContent | src/main/java/com/techmath/allcrud/controller/CrudController.java:116 | the content converted element by element: same length, same order |
| Controller.PastTheLastPage | src/main/java/com/techmath/allcrud/controller/CrudController.java:116-117 | a page past the end of a non-empty result is empty yet answered 206 |
| Controller.EmptyResultPageCounts | src/testFixtures/java/com/techmath/allcrud/integration/CrudIntegrationTests.java:289-297 | an empty unpaged result reports totalPages "1", an empty real page "0", both 204 |
| Controller.CrudController.Create | src/main/java/com/techmath/allcrud/controller/CrudController.java:80-84 | 201 with convertToVO of exactly what the service created, saved under the fresh generated id with the other rows unchanged; an existing id propagates with nothing written |
| Controller.CrudController.FindById | src/main/java/com/techmath/allcrud/controller/CrudController.java:95-98 | 200 with the converted entity, or EntityNotFoundException with the formatted message and no conversion (astro copy: the same, lines 38-41 of its CrudController.java) |
| Controller.CrudController.FindAll | src/main/java/com/techmath/allcrud/controller/CrudController.java:112-119 | an invalid page request throws; otherwise the list status, headers and converted content of the repository's page of matches (astro copy: the same, lines 44-51 of its CrudController.java) |
| Controller.CrudController.Update | src/main/java/com/techmath/allcrud/controller/CrudController.java:135-139 | the full-replace service update; a not-found propagates with no conversion |
| Controller.CrudController.PartialUpdate | src/main/java/com/techmath/allcrud/controller/CrudController.java:155-159 | through new UpdaterExample(entity): only the body's non-null properties are written, never the id; a not-found propagates (astro copy: the same, lines 60-65 of its CrudController.java) |
| Controller.CrudController.DeleteById | src/main/java/com/techmath/allcrud/controller/CrudController.java:170-174 | every service case passed through: not-found with nothing written; a stored entity that is not soft-deletable is removed and 204; a soft-deletable one is saved back soft-deleted and 204; without an override UnsupportedOperationException with nothing written. No other row changes |
| ControllerAdvice.BuildErrorResponse | src/main/java/com/techmath/allcrud/exception/handler/AbstractControllerAdvice.java:165-173 | a null array gives no entries; otherwise one entry per message, in order, under the title (astro copy: the same, lines 118-126 of its AbstractControllerAdvice.java) |
| ControllerAdvice.FailedFields | src/main/java/com/techmath/allcrud/exception/handler/AbstractControllerAdvice.java:92-97 | the failed-fields map has exactly the failed field names as keys |
| ControllerAdvice.FailedFieldsLastWins | src/main/java/com/techmath/allcrud/exception/handler/AbstractControllerAdvice.java:92-97 | a field keeps the message of its last failure |
| ControllerAdvice.FillFailedFields | src/main/java/com/techmath/allcrud/exception/handler/AbstractControllerAdvice.java:114-119 | the forEach of puts builds the failed-fields map |
| ControllerAdvice.BindingFailures | src/main/java/com/techmath/allcrud/exception/handler/AbstractControllerAdvice.java:93-95 | ClassCastException iff some binding error is global; otherwise each error's field and message, in order |
| ControllerAdvice.ViolationFailures | src/main/java/com/techmath/allcrud/exception/handler/AbstractControllerAdvice.java:115-118 | each violation's property path and message, in order |
| CrudErrors.FieldMessage | src/main/java/com/techmath/allcrud/exception/handler/AbstractControllerAdvice.java:178-179 | the description "The field <name> <message>" of CrudErrorMessage.java:31, a null message printed as "null" |
| ControllerAdvice.BuildValidationErrorsFromFields | src/main/java/com/techmath/allcrud/exception/handler/AbstractControllerAdvice.java:175-183 | one "Field validation failed" entry "The field <name> <message>" per map entry, in some order of the keys |
| ControllerAdvice.HandleMethodArgumentNotValid | src/main/java/com/techmath/allcrud/exception/handler/AbstractControllerAdvice.java:89-100 | 400 with one entry per distinct failed field, last failure winning; a global error throws ClassCastException (astro copy: the same, lines 46-64 of its AbstractControllerAdvice.java) |
| ControllerAdvice.HandleConstraintViolation | src/main/java/com/techmath/allcrud/exception/handler/AbstractControllerAdvice.java:111-122 | 400 with one entry per distinct property path, last violation winning (astro copy: the same, lines 69-87 of its AbstractControllerAdvice.java) |
| ControllerAdvice.HandleHttpMessageNotReadable | src/main/java/com/techmath/allcrud/exception/handler/AbstractControllerAdvice.java:133-139 | one 400 entry whose description is the message from its first "String"; NullPointerException for a null message; StringIndexOutOfBoundsException when "String" does not occur (astro copy: the same, lines 92-98 of its AbstractControllerAdvice.java) |
| ControllerAdvice.TrimmedMessageStartsWithString | src/main/java/com/techmath/allcrud/exception/handler/AbstractControllerAdvice.java:135-136 | the description starts with "String" and is a tail of the message |
| ControllerAdvice.HandleEntityNotFound | src/main/java/com/techmath/allcrud/exception/handler/AbstractControllerAdvice.java:61-64 | 404 with exactly one "Entity not found" entry carrying the exception's message (astro copy: the same, lines 30-33 of its AbstractControllerAdvice.java) |
| ControllerAdvice.HandleEntityExists | src/main/java/com/techmath/allcrud/exception/handler/AbstractControllerAdvice.java:75-78 | 400 with exactly one "Entity already exists" entry (astro copy: the same, lines 38-41 of its AbstractControllerAdvice.java) |
| ControllerAdvice.HandleBusinessException | src/main/java/com/techmath/allcrud/exception/handler/AbstractControllerAdvice.java:150-159 | 422; a non-empty list gives one "Business rule failed" entry per message, in order; a null or empty list gives one entry with getMessage() (astro copy: the same, lines 103-112 of its AbstractControllerAdvice.java) |
| ControllerAdvice.Handle | src/main/java/com/techmath/allcrud/exception/handler/AbstractControllerAdvice.java:58-159 | only the six registered kinds are handled; each gets its handler's whole answer: the single not-found or already-exists entry, the validation entry count and entries with ClassCastException for a global error, the trimmed unreadable-body entry, and the business entries per message or the single getMessage() entry |
| DisplayNames.ReplaceUnderscores | src/testFixtures/java/com/techmath/allcrud/config/AllcrudDisplayNameGenerator.java:26 | no underscore is left |
| DisplayNames.ReplaceUnderscoresLength | src/testFixtures/java/com/techmath/allcrud/config/AllcrudDisplayNameGenerator.java:26 | each underscore adds two characters |
| DisplayNames.NoUnderscoresUnchanged | src/testFixtures/java/com/techmath/allcrud/config/AllcrudDisplayNameGenerator.java:26 | a name without underscores is unchanged |
| DisplayNames.InsertSpaces | src/testFixtures/java/com/techmath/allcrud/config/AllcrudDisplayNameGenerator.java:27 | the first character is kept |
| DisplayNames.InsertSpacesAgree | src/testFixtures/java/com/techmath/allcrud/config/AllcrudDisplayNameGenerator.java:27 | the left-to-right replacement equals one built from the right end, a space between every boundary pair |
| DisplayNames.InsertSpacesLength | src/testFixtures/java/com/techmath/allcrud/config/AllcrudDisplayNameGenerator.java:27 | exactly one character per lower-to-upper, letter-to-digit or digit-to-letter boundary |
| DisplayNames.InsertSpacesOnlyAddsSpaces | src/testFixtures/java/com/techmath/allcrud/config/AllcrudDisplayNameGenerator.java:27 | the inserted characters are spaces: deleting all spaces undoes the replacement |
| DisplayNames.NoBoundariesUnchanged | src/testFixtures/java/com/techmath/allcrud/config/AllcrudDisplayNameGenerator.java:27 | a name without boundaries is unchanged |
| DisplayNames.NoBoundariesRemain | src/testFixtures/java/com/techmath/allcrud/config/AllcrudDisplayNameGenerator.java:27 | the output has no boundary left |
| DisplayNames.InsertSpacesIdempotent | src/testFixtures/java/com/techmath/allcrud/config/AllcrudDisplayNameGenerator.java:27 | applying the replacement twice is applying it once |
| DisplayNames.ReplacementKeepsBoundaries | src/testFixtures/java/com/techmath/allcrud/config/AllcrudDisplayNameGenerator.java:26-27 | replacing underscores neither creates nor removes a boundary |
| DisplayNames.ReadableName | src/testFixtures/java/com/techmath/allcrud/config/AllcrudDisplayNameGenerator.java:25-28 | getReadableName: underscores replaced, then spaces inserted at the boundaries; no underscore is left |
| DisplayNames.ReadableNameShape | src/testFixtures/java/com/techmath/allcrud/config/AllcrudDisplayNameGenerator.java:25-28 | no underscore; length = name + 2 × underscores + boundaries |
| DisplayNames.ClassDisplayName | src/testFixtures/java/com/techmath/allcrud/config/AllcrudDisplayNameGenerator.java:11-13 | the class name in its own case, underscores replaced and only spaces added |
| DisplayNames.NestedClassDisplayName | src/testFixtures/java/com/techmath/allcrud/config/AllcrudDisplayNameGenerator.java:16-18 | the class rule for the nested class's simple name; the enclosing types play no part |
| DisplayNames.MethodDisplayName | src/testFixtures/java/com/techmath/allcrud/config/AllcrudDisplayNameGenerator.java:21-23 | the readable name lower-cased after the boundaries are found: same length, no upper-case letter |
| DisplayNames.CaseBoundariesComeFirst | src/testFixtures/java/com/techmath/allcrud/config/AllcrudDisplayNameGenerator.java:22 | "aB" gives the method name "a b" but would give "ab" if lower-cased first; the class name keeps "a B" |

## Left out

- Transactions: each service method is atomic, so a method that throws leaves the repository as it was.
- Bean validation (`@Valid`), request binding and JSON serialisation belong to Spring and run before the handlers.
- Logging (`logMessages`) is left out because it has no effect on results.
- Slicing, sorting and the `totalPages` arithmetic of a paged query belong to the repository and `PageImpl`. They are the `pager` parameter.
- Service.CrudService.FindAllPaged: states only that the page is the repository's page of the matches, since the slicing is not part of this model.
- Id generation belongs to the database. It is `Create`'s `generated` parameter, which no stored row carries yet, as the database guarantees.
- Service.CrudService.SoftDeleted: a `softDelete` override is modelled as a fixed set of property values it writes. An override that changes the id, or does anything else, is not modelled.
- The generic id type is a `Value` (integer, string or boolean). Entities of different classes, and `BeanWrapper` reflection, are reduced to the property map.
- The read-only `class` property that reflection also lists is never null, so it does not matter here.
- Java's 32- and 64-bit integers are unbounded here. Page numbers, sizes and counts reach the controller already bound to `int`/`long`, so there is no wrap-around to model.
- The sort direction is never null here. A null or empty `orderBy` is covered by "has no text".
- JavaStrings.ToLowerCase: ASCII only, as under an English or root default locale. `String.toLowerCase()` follows the default locale, and under a Turkish locale it turns 'I' into a dotless 'ı'; that, case folding outside ASCII, and `Character.isWhitespace` outside ASCII are not modelled.
- ControllerAdvice.Handle: for the two validation kinds it states the entry count and that each field's entry is present, not their order; that order is stated by `HandleMethodArgumentNotValid` and `HandleConstraintViolation`.
- Service.CrudService.Update: uses the corrected lookup `FindOrThrow`. On a stored String or Boolean id it succeeds, where the techmath code as written throws IllegalFormatConversionException (see Findings).
- Service.CrudService.PartialUpdate: uses the corrected lookup `FindOrThrow`, with the same consequence for String and Boolean ids.
- Service.CrudService.DeleteById: uses the corrected lookup `FindOrThrow`, with the same consequence for String and Boolean ids.
- Controller.CrudController.FindById: formats `NotFoundMessage` only for a missing id. The techmath code as written formats it first, CrudController.java:212-215, and so throws IllegalFormatConversionException on every String or Boolean id.
- UpdaterExamples.UpdaterExample: the all-arguments constructor takes a `seq<string>`, which holds neither a null array nor a null element. In the source either one makes `List.of` or `withIgnorePaths` throw NullPointerException in `getMatcher` (UpdaterExample.java:47-49).
- The exceptions a handler itself throws become a 500 response in Spring; that is not modelled.
- `HashMap`/`HashSet` iteration order is unspecified, so the model states results as sets or through a ghost order.
- `getProbe` is the datatype field `probe`; it has no contract of its own.
- The generic type signatures do not line up: a two-parameter `Converter` is used with three, and the astro controller calls `getPage()` on a record that offers `page()`. The model follows the evident intent: convert, call the service, read the page number.
- AbstractCompositeIdConverter.java is not part of this model: it is a wrapper over Base64URL decoding (section 5 of RFC 4648) and Jackson.
- TestContainerConfig.java is not part of this model: it is Docker start-up and locking.
- The remaining test fixtures are not part of this model.
- The message of `EntityExistsException` is always null: the code uses the no-argument constructor.

## Findings

| source | as written | input that shows it | evidently intended | confidence | as-written member | corrected member |
|---|---|---|---|---|---|---|
| src/main/java/com/techmath/allcrud/service/CrudService.java:187-190 | `entityNotFoundExceptionSupplier(id)` formats "Record with ID '%d' not found" when the supplier is created. That happens before `orElseThrow` looks at the result, so it runs even when the entity is found. `%d` rejects non-integral arguments. The same holds for the controller's supplier, CrudController.java:212-215. | a repository holding an entity with String id "abc": update, partial update, delete or findById of "abc" throws IllegalFormatConversionException (lemmas StoredStringIdFailsAsWritten, StringIdCounterexample) | a lookup succeeds iff the id is stored, whatever the id type; only a missing id needs the message | not executed; high | Service.FindOrThrowAsWritten | Service.FindOrThrow |
