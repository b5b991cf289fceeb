/**
  The request schemas and `validateDataRequest`, which turns a zod rejection into a 422
  `ApiError` carrying only the first issue. The function exists twice in the source with
  the same text; both copies are modelled by `ValidateDataRequest`.
 */
module Validators {
  import opened Wrappers
  import opened Json
  import opened Envelope
  import opened ErrorPipeline
  import opened Zod

  // ---------------------------------------------------------------- validateDataRequest

  /** What `schemaData.parse(dataInput)` did: returned a value, threw a `ZodError`, or threw something else. */
  datatype ParseAttempt = Ran(result: ParseResult) | Raised(thrown: Thrown)

  /** A zod path as a JSON array. */
  function PathPayload(path: seq<string>): (p: Payload)
    ensures p.Arr? && |p.items| == |path|
    ensures forall i :: 0 <= i < |path| ==> p.items[i] == Str(path[i])
  {
    Arr(seq(|path|, i requires 0 <= i < |path| => Str(path[i])))
  }

  const ValidationPrefix := "Error de validación: "

  /** The 422 error built from the first issue of a `ZodError`. */
  function IssueError(first: Issue): ApiError {
    ApiError(422, ValidationPrefix + first.code, Obj(map["field" := PathPayload(first.path), "error" := Str(first.message)]))
  }

  /** `validateDataRequest(dataInput, schemaData)`: `Ok` is the returned value, `Err` the thrown one. */
  function ValidateDataRequest(attempt: ParseAttempt): (r: Result<Payload, Thrown>)
    ensures attempt.Ran? && attempt.result.Parsed? ==> r == Ok(attempt.result.value)
    ensures attempt.Ran? && attempt.result.Failed? ==>
              r.Err? && r.error.Api? && r.error.e.statusCode == 422
              && r.error.e.message == ValidationPrefix + attempt.result.first.code
              && r.error.e.errorData.Obj? && r.error.e.errorData.fields.Keys == {"field", "error"}
              && r.error.e.errorData.fields["field"] == PathPayload(attempt.result.first.path)
              && r.error.e.errorData.fields["error"] == Str(attempt.result.first.message)
    ensures attempt.Raised? ==> r == Err(attempt.thrown)
  {
    match attempt
    case Ran(Parsed(v)) => Ok(v)
    case Ran(Failed(first, _)) => Err(Api(IssueError(first)))
    case Raised(t) => Err(t)
  }

  /** Only the first issue is reported: whatever follows it makes no difference. */
  lemma LaterIssuesDropped(first: Issue, rest1: seq<Issue>, rest2: seq<Issue>)
    ensures ValidateDataRequest(Ran(Failed(first, rest1))) == ValidateDataRequest(Ran(Failed(first, rest2)))
  {
  }

  /** Validating a request against a schema: parse, then convert. */
  function Validate(s: ObjectSchema, v: Payload, isEmail: string -> bool): Result<Payload, Thrown> {
    ValidateDataRequest(Ran(Parse(s, v, isEmail)))
  }

  predicate OptString(v: Payload) { v == Undefined || v.Str? }
  predicate OptBool(v: Payload) { v == Undefined || v.Bool? }
  predicate StringAtLeast(v: Payload, n: nat) { v.Str? && Utf16Length(v.s) >= n }
  predicate OptStringAtLeast(v: Payload, n: nat) { v == Undefined || StringAtLeast(v, n) }
  predicate IntegerNumber(v: Payload) { v.Num? && IsIntegral(v.n) }

  // ---------------------------------------------------------------- book.validator

  const BookSchema := ObjectSchema([
    Field("title", ZString([MinLength(2, "Title is required")]), Required),
    Field("description", ZString([]), Optional),
    Field("published_at", ZString([]), Optional),
    Field("available", ZBoolean, Default(Bool(true))),
    Field("id_author", ZNumber([Integer("Author ID must be a valid number")]), Required)
  ], false)

  const BookUpdateSchema := Partial(BookSchema)

  lemma BookSchemaAccepts(m: map<string, Payload>, isEmail: string -> bool)
    ensures Parse(BookSchema, Obj(m), isEmail).Parsed? <==>
              && StringAtLeast(Get(m, "title"), 2)
              && OptString(Get(m, "description"))
              && OptString(Get(m, "published_at"))
              && OptBool(Get(m, "available"))
              && IntegerNumber(Get(m, "id_author"))
  {
    var f := BookSchema.fields;
    SingleCheck(f[0].base, MinLength(2, "Title is required"), Get(m, "title"), isEmail);
    SingleCheck(f[4].base, Integer("Author ID must be a valid number"), Get(m, "id_author"), isEmail);
    assert FieldAccepts(f[0], m, isEmail) <==> StringAtLeast(Get(m, "title"), 2);
    assert FieldAccepts(f[1], m, isEmail) <==> OptString(Get(m, "description"));
    assert FieldAccepts(f[2], m, isEmail) <==> OptString(Get(m, "published_at"));
    assert FieldAccepts(f[3], m, isEmail) <==> OptBool(Get(m, "available"));
    assert FieldAccepts(f[4], m, isEmail) <==> IntegerNumber(Get(m, "id_author"));
  }

  /** `min(2)` counts UTF-16 code units: a title of one emoji (a surrogate pair) passes, while a
      title of one BMP letter does not. */
  lemma OneEmojiTitleAccepted(isEmail: string -> bool)
    ensures Parse(BookSchema, Obj(map["title" := Str("\U{1F600}"), "id_author" := Num(1.0)]), isEmail).Parsed?
    ensures !Parse(BookSchema, Obj(map["title" := Str("a"), "id_author" := Num(1.0)]), isEmail).Parsed?
  {
    var m := map["title" := Str("\U{1F600}"), "id_author" := Num(1.0)];
    BookSchemaAccepts(m, isEmail);
    assert Utf16Length("\U{1F600}") == 2;
    BookSchemaAccepts(map["title" := Str("a"), "id_author" := Num(1.0)], isEmail);
  }

  /** An omitted `available` is filled in as `true`; unknown keys are stripped. */
  lemma BookSchemaDefaultsAvailable(m: map<string, Payload>, isEmail: string -> bool)
    requires Parse(BookSchema, Obj(m), isEmail).Parsed? && "available" !in m
    ensures var out := Parse(BookSchema, Obj(m), isEmail).value.fields;
            "available" in out && out["available"] == Bool(true)
  {
    OutputAt(BookSchema.fields, m, 3);
  }

  lemma BookUpdateSchemaAccepts(m: map<string, Payload>, isEmail: string -> bool)
    ensures Parse(BookUpdateSchema, Obj(m), isEmail).Parsed? <==>
              && OptStringAtLeast(Get(m, "title"), 2)
              && OptString(Get(m, "description"))
              && OptString(Get(m, "published_at"))
              && OptBool(Get(m, "available"))
              && (Get(m, "id_author") == Undefined || IntegerNumber(Get(m, "id_author")))
  {
    var f := BookUpdateSchema.fields;
    assert f[0] == Field("title", ZString([MinLength(2, "Title is required")]), Optional);
    assert f[4] == Field("id_author", ZNumber([Integer("Author ID must be a valid number")]), Optional);
    SingleCheck(f[0].base, MinLength(2, "Title is required"), Get(m, "title"), isEmail);
    SingleCheck(f[4].base, Integer("Author ID must be a valid number"), Get(m, "id_author"), isEmail);
    assert FieldAccepts(f[0], m, isEmail) <==> OptStringAtLeast(Get(m, "title"), 2);
    assert FieldAccepts(f[1], m, isEmail) <==> OptString(Get(m, "description"));
    assert FieldAccepts(f[2], m, isEmail) <==> OptString(Get(m, "published_at"));
    assert FieldAccepts(f[3], m, isEmail) <==> OptBool(Get(m, "available"));
    assert FieldAccepts(f[4], m, isEmail) <==> Get(m, "id_author") == Undefined || IntegerNumber(Get(m, "id_author"));
  }

  /** The update schema does not apply the default: an omitted `available` stays omitted. */
  lemma BookUpdateSchemaKeepsAvailableAbsent(m: map<string, Payload>, isEmail: string -> bool)
    requires Parse(BookUpdateSchema, Obj(m), isEmail).Parsed? && "available" !in m
    ensures "available" !in Parse(BookUpdateSchema, Obj(m), isEmail).value.fields
  {
    PartialSkipsDefault(BookSchema, m, 3);
  }

  // ---------------------------------------------------------------- user.validator

  const UserSchema := ObjectSchema([
    Field("nickname", ZString([MinLength(2, "Nickname is required")]), Required),
    Field("email", ZString([Email("Must be a valid email")]), Required),
    Field("password", ZString([MinLength(6, "Password must be at least 6 characters")]), Required)
  ], false)

  const UserUpdateSchema := Partial(UserSchema)

  lemma UserSchemaAccepts(m: map<string, Payload>, isEmail: string -> bool)
    ensures Parse(UserSchema, Obj(m), isEmail).Parsed? <==>
              && StringAtLeast(Get(m, "nickname"), 2)
              && Get(m, "email").Str? && isEmail(Get(m, "email").s)
              && StringAtLeast(Get(m, "password"), 6)
  {
    var f := UserSchema.fields;
    SingleCheck(f[0].base, MinLength(2, "Nickname is required"), Get(m, "nickname"), isEmail);
    SingleCheck(f[1].base, Email("Must be a valid email"), Get(m, "email"), isEmail);
    SingleCheck(f[2].base, MinLength(6, "Password must be at least 6 characters"), Get(m, "password"), isEmail);
    assert FieldAccepts(f[0], m, isEmail) <==> StringAtLeast(Get(m, "nickname"), 2);
    assert FieldAccepts(f[1], m, isEmail) <==> Get(m, "email").Str? && isEmail(Get(m, "email").s);
    assert FieldAccepts(f[2], m, isEmail) <==> StringAtLeast(Get(m, "password"), 6);
  }

  lemma UserUpdateSchemaAccepts(m: map<string, Payload>, isEmail: string -> bool)
    ensures Parse(UserUpdateSchema, Obj(m), isEmail).Parsed? <==>
              && OptStringAtLeast(Get(m, "nickname"), 2)
              && (Get(m, "email") == Undefined || (Get(m, "email").Str? && isEmail(Get(m, "email").s)))
              && OptStringAtLeast(Get(m, "password"), 6)
  {
    var f := UserUpdateSchema.fields;
    assert f[0] == Field("nickname", ZString([MinLength(2, "Nickname is required")]), Optional);
    assert f[1] == Field("email", ZString([Email("Must be a valid email")]), Optional);
    assert f[2] == Field("password", ZString([MinLength(6, "Password must be at least 6 characters")]), Optional);
    SingleCheck(f[0].base, MinLength(2, "Nickname is required"), Get(m, "nickname"), isEmail);
    SingleCheck(f[1].base, Email("Must be a valid email"), Get(m, "email"), isEmail);
    SingleCheck(f[2].base, MinLength(6, "Password must be at least 6 characters"), Get(m, "password"), isEmail);
    assert FieldAccepts(f[0], m, isEmail) <==> OptStringAtLeast(Get(m, "nickname"), 2);
    assert FieldAccepts(f[1], m, isEmail) <==> Get(m, "email") == Undefined || (Get(m, "email").Str? && isEmail(Get(m, "email").s));
    assert FieldAccepts(f[2], m, isEmail) <==> OptStringAtLeast(Get(m, "password"), 6);
  }

  // ---------------------------------------------------------------- author.validator

  const AuthorSchema := ObjectSchema([
    Field("name", ZString([MinLength(2, "El nombre es obligatorio")]), Required),
    Field("email", ZString([Email("Debe ser un email válido")]), Required),
    Field("bio", ZString([]), Optional)
  ], false)

  const AuthorUpdateSchema := Partial(AuthorSchema)

  lemma AuthorSchemaAccepts(m: map<string, Payload>, isEmail: string -> bool)
    ensures Parse(AuthorSchema, Obj(m), isEmail).Parsed? <==>
              && StringAtLeast(Get(m, "name"), 2)
              && Get(m, "email").Str? && isEmail(Get(m, "email").s)
              && OptString(Get(m, "bio"))
  {
    var f := AuthorSchema.fields;
    SingleCheck(f[0].base, MinLength(2, "El nombre es obligatorio"), Get(m, "name"), isEmail);
    SingleCheck(f[1].base, Email("Debe ser un email válido"), Get(m, "email"), isEmail);
    assert FieldAccepts(f[0], m, isEmail) <==> StringAtLeast(Get(m, "name"), 2);
    assert FieldAccepts(f[1], m, isEmail) <==> Get(m, "email").Str? && isEmail(Get(m, "email").s);
    assert FieldAccepts(f[2], m, isEmail) <==> OptString(Get(m, "bio"));
  }

  lemma AuthorUpdateSchemaAccepts(m: map<string, Payload>, isEmail: string -> bool)
    ensures Parse(AuthorUpdateSchema, Obj(m), isEmail).Parsed? <==>
              && OptStringAtLeast(Get(m, "name"), 2)
              && (Get(m, "email") == Undefined || (Get(m, "email").Str? && isEmail(Get(m, "email").s)))
              && OptString(Get(m, "bio"))
  {
    var f := AuthorUpdateSchema.fields;
    assert f[0] == Field("name", ZString([MinLength(2, "El nombre es obligatorio")]), Optional);
    assert f[1] == Field("email", ZString([Email("Debe ser un email válido")]), Optional);
    SingleCheck(f[0].base, MinLength(2, "El nombre es obligatorio"), Get(m, "name"), isEmail);
    SingleCheck(f[1].base, Email("Debe ser un email válido"), Get(m, "email"), isEmail);
    assert FieldAccepts(f[0], m, isEmail) <==> OptStringAtLeast(Get(m, "name"), 2);
    assert FieldAccepts(f[1], m, isEmail) <==> Get(m, "email") == Undefined || (Get(m, "email").Str? && isEmail(Get(m, "email").s));
    assert FieldAccepts(f[2], m, isEmail) <==> OptString(Get(m, "bio"));
  }

  // ---------------------------------------------------------------- utils/handlers/validationsHandler

  const PdfStringKeys := ["date", "hours", "refNumber", "numSeq", "abononumber", "status",
                          "describe", "amount", "methodPayment", "mac_address"]

  const PdfDataSchema := ObjectSchema(
    seq(|PdfStringKeys|, i requires 0 <= i < |PdfStringKeys| => Field(PdfStringKeys[i], ZString([]), Required))
    + [Field("is_anulation", ZBoolean, Required)], true)

  /** All eleven fields are required (ten strings and a boolean) and nothing else is allowed. */
  lemma PdfDataSchemaAccepts(m: map<string, Payload>, isEmail: string -> bool)
    ensures Parse(PdfDataSchema, Obj(m), isEmail).Parsed? <==>
              && (forall i :: 0 <= i < |PdfStringKeys| ==> Get(m, PdfStringKeys[i]).Str?)
              && Get(m, "is_anulation").Bool?
              && m.Keys <= set k | k in PdfStringKeys + ["is_anulation"]
  {
    var f := PdfDataSchema.fields;
    assert |f| == 11;
    assert KeysOf(f) == set k | k in PdfStringKeys + ["is_anulation"] by {
      forall k | k in PdfStringKeys + ["is_anulation"] ensures k in KeysOf(f) {
        var i :| 0 <= i < 11 && (PdfStringKeys + ["is_anulation"])[i] == k;
        assert f[i].key == k;
      }
    }
    forall i | 0 <= i < |PdfStringKeys| ensures FieldAccepts(f[i], m, isEmail) <==> Get(m, PdfStringKeys[i]).Str? {
      assert f[i] == Field(PdfStringKeys[i], ZString([]), Required);
    }
    assert f[10] == Field("is_anulation", ZBoolean, Required);
    if (forall i :: 0 <= i < |PdfStringKeys| ==> Get(m, PdfStringKeys[i]).Str?) && Get(m, "is_anulation").Bool? {
      forall i | 0 <= i < 11 ensures FieldAccepts(f[i], m, isEmail) {
        if i < 10 {
          assert FieldAccepts(f[i], m, isEmail) <==> Get(m, PdfStringKeys[i]).Str?;
        }
      }
    }
  }

  const UploadFileSchema := ObjectSchema([
    Field("pathRoute", ZString([MinLength(1, "El campo pathRoute no puede estar vacío")]), Required),
    Field("register", ZString([MinLength(1, "El campo register no puede estar vacío")]), Required),
    Field("refNum", ZString([]), Optional),
    Field("typeFile", ZBoolean, Required),
    Field("adminFile", ZBoolean, Optional)
  ], true)

  /** The keys the upload schema names. */
  lemma UploadFileKeys()
    ensures KeysOf(UploadFileSchema.fields) == {"pathRoute", "register", "refNum", "typeFile", "adminFile"}
  {
    var f := UploadFileSchema.fields;
    assert f[0].key == "pathRoute" && f[1].key == "register" && f[2].key == "refNum";
    assert f[3].key == "typeFile" && f[4].key == "adminFile";
  }

  /** Non-empty `pathRoute` and `register`, a boolean `typeFile`, optional `refNum` and
      `adminFile`, and no other key. (The `refine` on `typeFile` only repeats the type test.) */
  lemma UploadFileSchemaAccepts(m: map<string, Payload>, isEmail: string -> bool)
    ensures Parse(UploadFileSchema, Obj(m), isEmail).Parsed? <==>
              && StringAtLeast(Get(m, "pathRoute"), 1)
              && StringAtLeast(Get(m, "register"), 1)
              && OptString(Get(m, "refNum"))
              && Get(m, "typeFile").Bool?
              && OptBool(Get(m, "adminFile"))
              && m.Keys <= {"pathRoute", "register", "refNum", "typeFile", "adminFile"}
  {
    var f := UploadFileSchema.fields;
    UploadFileKeys();
    SingleCheck(f[0].base, MinLength(1, "El campo pathRoute no puede estar vacío"), Get(m, "pathRoute"), isEmail);
    SingleCheck(f[1].base, MinLength(1, "El campo register no puede estar vacío"), Get(m, "register"), isEmail);
    assert FieldAccepts(f[0], m, isEmail) <==> StringAtLeast(Get(m, "pathRoute"), 1);
    assert FieldAccepts(f[1], m, isEmail) <==> StringAtLeast(Get(m, "register"), 1);
  }

  /** The copy of `validateDataRequest` next to these schemas: an otherwise valid upload
      with one extra key fails with 422 and the code `unrecognized_keys`, at the root path. */
  lemma UploadExtraKeyRejected(m: map<string, Payload>, extra: string, isEmail: string -> bool)
    requires Parse(UploadFileSchema, Obj(m), isEmail).Parsed?
    requires extra !in {"pathRoute", "register", "refNum", "typeFile", "adminFile"}
    ensures var r := Validate(UploadFileSchema, Obj(m[extra := Str("")]), isEmail);
            && r.Err? && r.error.Api? && r.error.e.statusCode == 422
            && r.error.e.message == ValidationPrefix + "unrecognized_keys"
            && r.error.e.errorData.fields["field"] == Arr([])
  {
    var m' := m[extra := Str("")];
    var s := UploadFileSchema;
    UploadFileKeys();
    ExtraKeyKeepsFields(s.fields, m, extra, Str(""), isEmail);
    assert extra in UnknownKeys(s, m');
    var r := Parse(s, Obj(m'), isEmail);
    assert r.first == Issue("unrecognized_keys", [], "Unrecognized key(s) in object");
  }

  const TxtToPdfUpload := ObjectSchema([
    Field("pathRoute", ZString([MinLength(1, "El campo pathRoute no puede estar vacío")]), Required)
  ], false)

  /** Only a non-empty `pathRoute` is required; other keys are tolerated and stripped. */
  lemma TxtToPdfUploadAccepts(m: map<string, Payload>, isEmail: string -> bool)
    ensures Parse(TxtToPdfUpload, Obj(m), isEmail).Parsed? <==> StringAtLeast(Get(m, "pathRoute"), 1)
    ensures Parse(TxtToPdfUpload, Obj(m), isEmail).Parsed? ==>
              Parse(TxtToPdfUpload, Obj(m), isEmail).value.fields.Keys <= {"pathRoute"}
  {
    var f := TxtToPdfUpload.fields;
    SingleCheck(f[0].base, MinLength(1, "El campo pathRoute no puede estar vacío"), Get(m, "pathRoute"), isEmail);
    assert FieldAccepts(f[0], m, isEmail) <==> StringAtLeast(Get(m, "pathRoute"), 1);
    assert KeysOf(f) == {"pathRoute"} by {
      assert f[0].key == "pathRoute";
    }
  }
}
