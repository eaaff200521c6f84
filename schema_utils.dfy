/**
 * Translation of JSON-schema validator errors into validation error items
 * (src/utils/schema-utils.ts). The validator itself is outside the model: its
 * output, the list of error objects, is the input here.
 */
module SchemaUtils {
  import opened Wrappers
  import opened Strings
  import opened Errors

  /** The parts of a validator error object the translation reads. */
  datatype ErrorObject = ErrorObject(
    keyword: string,
    schemaPath: string,
    missingProperty: string,     // `params.missingProperty`, set for `required`
    message: Option<string>)

  /** Keywords that describe the shape of a value. */
  const STRUCTURAL_KEYWORDS: seq<string> := [
    "type", "anyOf", "allOf", "oneOf", "additionalProperties", "minProperties",
    "maxProperties", "pattern", "format", "uniqueItems", "items", "dependencies"]

  /** Keywords that bound a value. */
  const RANGE_KEYWORDS: seq<string> := [
    "minimum", "maximum", "minLength", "maxLength", "minItems", "maxItems", "enum", "const"]

  predicate IsKnownKeyword(keyword: string)
  {
    keyword in STRUCTURAL_KEYWORDS || keyword in RANGE_KEYWORDS || keyword == "required" || keyword == "not"
  }

  /** The code an error keyword is reported with. */
  function CodeOf(keyword: string): (c: Option<ValidationErrorCode>)
    ensures c.Some? <==> IsKnownKeyword(keyword)
  {
    if keyword in STRUCTURAL_KEYWORDS then Some(IncorrectFormat)
    else if keyword in RANGE_KEYWORDS then Some(ValueOutOfRange)
    else if keyword == "required" then Some(RequiredField)
    else if keyword == "not" then Some(UnsupportedOption)
    else None
  }

  /** No keyword belongs to two groups, so each keyword has one code. */
  lemma KeywordGroupsDisjoint(keyword: string)
    ensures !(keyword in STRUCTURAL_KEYWORDS && keyword in RANGE_KEYWORDS)
    ensures keyword in STRUCTURAL_KEYWORDS ==> CodeOf(keyword) == Some(IncorrectFormat)
    ensures keyword in RANGE_KEYWORDS ==> CodeOf(keyword) == Some(ValueOutOfRange)
  {
  }

  /**
   * `schemaValidationErrorToValidationErrorItem`: the field is the schema path with
   * its first '.' removed (the missing property for `required`), the reason is the
   * message or '', and an unknown keyword is thrown as an error naming it.
   */
  function ToValidationErrorItem(e: ErrorObject): (r: Result<ValidationErrorItem, Error>)
    ensures r.Success? <==> IsKnownKeyword(e.keyword)
    ensures r.Success? ==> Some(r.value.code) == CodeOf(e.keyword)
    ensures r.Success? ==> r.value.reason == e.message.GetOr("")
    ensures r.Success? && e.keyword == "required" ==> r.value.field == e.missingProperty
    ensures r.Success? && e.keyword != "required" ==>
              var k := IndexOf(e.schemaPath, '.');
              r.value.field == if k < |e.schemaPath| then DropAt(e.schemaPath, k) else e.schemaPath
    ensures r.Failure? ==> r.error == PlainError("Unknown schema validation error name: " + e.keyword)
  {
    var reason := if e.message.Some? then e.message.value else "";
    RemoveFirstSpec(e.schemaPath, '.');
    if e.keyword in STRUCTURAL_KEYWORDS then
      Success(ValidationErrorItem(RemoveFirst(e.schemaPath, '.'), IncorrectFormat, reason))
    else if e.keyword in RANGE_KEYWORDS then
      Success(ValidationErrorItem(RemoveFirst(e.schemaPath, '.'), ValueOutOfRange, reason))
    else if e.keyword == "required" then
      Success(ValidationErrorItem(e.missingProperty, RequiredField, reason))
    else if e.keyword == "not" then
      Success(ValidationErrorItem(RemoveFirst(e.schemaPath, '.'), UnsupportedOption, reason))
    else
      Failure(PlainError("Unknown schema validation error name: " + e.keyword))
  }

  /** `errors.map(...)`: translates in order, stopping at the first error thrown. */
  function MapErrors(errors: seq<ErrorObject>): (r: Result<seq<ValidationErrorItem>, Error>)
  {
    if errors == [] then Success([])
    else
      var head :- ToValidationErrorItem(errors[0]);
      var tail :- MapErrors(errors[1..]);
      Success([head] + tail)
  }

  /** Index of the first error object with an unknown keyword, or `|errors|`. */
  function FirstUnknown(errors: seq<ErrorObject>): (k: nat)
    ensures k <= |errors|
    ensures forall i :: 0 <= i < k ==> IsKnownKeyword(errors[i].keyword)
    ensures k < |errors| ==> !IsKnownKeyword(errors[k].keyword)
  {
    if errors == [] then 0
    else if !IsKnownKeyword(errors[0].keyword) then 0
    else 1 + FirstUnknown(errors[1..])
  }

  /**
   * The map succeeds exactly when every keyword is known, and then its items
   * correspond one to one, in order, with the error objects; otherwise it
   * throws what the first unknown keyword throws.
   */
  lemma {:induction false} MapErrorsSpec(errors: seq<ErrorObject>)
    ensures MapErrors(errors).Success? <==> FirstUnknown(errors) == |errors|
    ensures MapErrors(errors).Success? ==>
              && |MapErrors(errors).value| == |errors|
              && forall i :: 0 <= i < |errors| ==>
                   Success(MapErrors(errors).value[i]) == ToValidationErrorItem(errors[i])
    ensures MapErrors(errors).Failure? ==>
              MapErrors(errors).error == ToValidationErrorItem(errors[FirstUnknown(errors)]).error
  {
    if errors != [] {
      MapErrorsSpec(errors[1..]);
      if IsKnownKeyword(errors[0].keyword) {
        var tail := MapErrors(errors[1..]);
        if tail.Success? {
          var items := MapErrors(errors).value;
          assert items == [ToValidationErrorItem(errors[0]).value] + tail.value;
          forall i | 0 <= i < |errors|
            ensures Success(items[i]) == ToValidationErrorItem(errors[i])
          {
            if i > 0 {
              assert items[i] == tail.value[i - 1];
              assert errors[i] == errors[1..][i - 1];
            }
          }
        }
      }
    }
  }

  /**
   * `validateSchema`: returns normally when the validator found nothing; otherwise
   * throws one validation error carrying the translated items.
   */
  function ValidateSchema(errors: seq<ErrorObject>): (r: Result<(), Error>)
    ensures r.Success? <==> errors == []
  {
    if errors == [] then Success(())
    else
      var items :- MapErrors(errors);
      Failure(ValidationError(items))
  }

  /** A failed validation with known keywords reports one item per validator error, in order. */
  lemma ValidateSchemaItems(errors: seq<ErrorObject>)
    requires errors != [] && FirstUnknown(errors) == |errors|
    ensures ValidateSchema(errors).Failure? && ValidateSchema(errors).error.ValidationError?
    ensures var items := ValidateSchema(errors).error.items;
      && |items| == |errors|
      && forall i :: 0 <= i < |errors| ==> Success(items[i]) == ToValidationErrorItem(errors[i])
  {
    MapErrorsSpec(errors);
  }

  /** With an unknown keyword among the errors, the first one decides what is thrown. */
  lemma ValidateSchemaUnknown(errors: seq<ErrorObject>)
    requires FirstUnknown(errors) < |errors|
    ensures ValidateSchema(errors)
         == Failure(PlainError("Unknown schema validation error name: " + errors[FirstUnknown(errors)].keyword))
  {
    MapErrorsSpec(errors);
  }
}
