/**
 * The class-validator constraints of the request bodies (CreateItemDto,
 * CreateQuotationDto and the five auth DTOs), as predicates over the JSON the
 * validation pipe receives. The pipe runs without whitelisting and without
 * transformation, so unknown keys pass and a value keeps its JSON type.
 * The email and ISO-8601 format checks (validator.js's isEmail and
 * isISO8601) are parameters.
 */
module Validation {
  import opened Wrappers
  import opened Money
  import Pricing
  import Auth
  import opened JsStrings

  datatype Json =
    | JNull
    | JBool(b: bool)
    | JNumber(n: real)
    | JString(s: string)
    | JArray(elems: seq<Json>)
    | JObject(fields: map<string, Json>)

  /** A property of an object body; None is `undefined`. */
  function Field(j: Json, key: string): Option<Json> {
    if j.JObject? && key in j.fields then Some(j.fields[key]) else None
  }

  /** @IsOptional: the other checks are skipped for `null` and `undefined`. */
  predicate Absent(v: Option<Json>) {
    v.None? || v.value == JNull
  }

  /** @IsString. */
  predicate IsString(v: Option<Json>) {
    v.Some? && v.value.JString?
  }

  /** @IsNotEmpty: anything but `''`, `null` and `undefined`, of any type. */
  predicate NotEmpty(v: Option<Json>) {
    v.Some? && v.value != JString("") && v.value != JNull
  }

  /** @IsInt: a number with no fractional part. */
  predicate IsInt(v: Option<Json>) {
    v.Some? && v.value.JNumber? && v.value.n.Floor as real == v.value.n
  }

  /** @Min(m): a number not below m. */
  predicate AtLeast(v: Option<Json>, m: int) {
    v.Some? && v.value.JNumber? && v.value.n >= m as real
  }

  /** @MinLength(m): a string whose validator.js length (isLength) is at least m. */
  predicate MinLength(v: Option<Json>, m: nat) {
    IsString(v) && ValidatorLength(v.value.s) >= m
  }

  /** @IsEmail. */
  predicate IsEmail(v: Option<Json>, isEmail: string -> bool) {
    IsString(v) && isEmail(v.value.s)
  }

  /** @IsDateString. */
  predicate IsDateString(v: Option<Json>, isIsoDate: string -> bool) {
    IsString(v) && isIsoDate(v.value.s)
  }

  // ---------------------------------------------------------------------------
  // CreateItemDto and CreateQuotationDto
  // ---------------------------------------------------------------------------

  /** The five properties of CreateItemDto, each with its decorators. */
  predicate ValidItem(j: Json) {
    j.JObject? &&
    IsString(Field(j, "itemName")) && NotEmpty(Field(j, "itemName")) &&
    (Absent(Field(j, "description")) || IsString(Field(j, "description"))) &&
    IsInt(Field(j, "quantity")) && AtLeast(Field(j, "quantity"), 1) &&
    IsString(Field(j, "unitPrice")) && NotEmpty(Field(j, "unitPrice")) &&
    (Absent(Field(j, "tax")) || IsString(Field(j, "tax")))
  }

  /** An optional string property as the service sees it: `null` and `undefined` alike are absent. */
  function OptionalString(v: Option<Json>): Option<string>
    requires Absent(v) || IsString(v)
  {
    if Absent(v) then None else Some(v.value.s)
  }

  /**
   * The item the service prices, read from a body that passed validation: a
   * non-empty name and unit price, a quantity of at least one.
   */
  function ItemOf(j: Json): (it: Pricing.CreateItemDto)
    requires ValidItem(j)
    ensures it.itemName != "" && it.unitPrice != "" && it.quantity >= 1
    ensures it.description.None? <==> Absent(Field(j, "description"))
    ensures it.tax.None? <==> Absent(Field(j, "tax"))
  {
    Pricing.CreateItemDto(
      Field(j, "itemName").value.s,
      OptionalString(Field(j, "description")),
      Field(j, "quantity").value.n.Floor,
      Field(j, "unitPrice").value.s,
      OptionalString(Field(j, "tax")))
  }

  /** The JSON a client sends for an item, leaving absent properties out. */
  function ItemJson(it: Pricing.CreateItemDto): Json {
    var m := map["itemName" := JString(it.itemName), "quantity" := JNumber(it.quantity as real),
                 "unitPrice" := JString(it.unitPrice)];
    var m := if it.description.Some? then m["description" := JString(it.description.value)] else m;
    var m := if it.tax.Some? then m["tax" := JString(it.tax.value)] else m;
    JObject(m)
  }

  /**
   * An item body is accepted exactly when its name and unit price are
   * non-empty and its quantity is at least one; the service then reads back
   * the item that was sent. The unit price and tax are not checked to be
   * numerals.
   */
  lemma ItemJsonValid(it: Pricing.CreateItemDto)
    ensures ValidItem(ItemJson(it)) <==> it.itemName != "" && it.unitPrice != "" && it.quantity >= 1
    ensures ValidItem(ItemJson(it)) ==> ItemOf(ItemJson(it)) == it
  {
    var j := ItemJson(it);
    assert Field(j, "itemName") == Some(JString(it.itemName));
    assert Field(j, "quantity") == Some(JNumber(it.quantity as real));
    assert Field(j, "unitPrice") == Some(JString(it.unitPrice));
    assert Field(j, "description") == if it.description.Some? then Some(JString(it.description.value)) else None;
    assert Field(j, "tax") == if it.tax.Some? then Some(JString(it.tax.value)) else None;
  }

  /**
   * A unit price holding a character no numeral has (a letter, a space, a
   * currency sign) passes validation, and create then throws on it.
   */
  lemma UnitPriceNotNumeric(it: Pricing.CreateItemDto, i: nat)
    requires it.itemName != "" && it.quantity >= 1
    requires i < |it.unitPrice| && !NumeralChar(it.unitPrice[i])
    ensures ValidItem(ItemJson(it))
    ensures Pricing.LineTotal(it) == Err(Pricing.InvalidDecimal(it.unitPrice))
  {
    ItemJsonValid(it);
    ParseRejectsSymbol(it.unitPrice, i);
  }

  /** CreateQuotationDto: the client's name and email, an optional date, and an array of valid items. */
  predicate ValidQuotation(j: Json, isEmail: string -> bool, isIsoDate: string -> bool) {
    j.JObject? &&
    IsString(Field(j, "clientName")) && NotEmpty(Field(j, "clientName")) &&
    IsEmail(Field(j, "clientEmail"), isEmail) &&
    (Absent(Field(j, "validityDate")) || IsDateString(Field(j, "validityDate"), isIsoDate)) &&
    Field(j, "items").Some? && Field(j, "items").value.JArray? &&
    forall i :: 0 <= i < |Field(j, "items").value.elems| ==> ValidItem(Field(j, "items").value.elems[i])
  }

  /** The JSON a client sends for a quotation. */
  function QuotationJson(clientName: string, clientEmail: string, validityDate: Option<string>, items: seq<Json>): Json {
    var m := map["clientName" := JString(clientName), "clientEmail" := JString(clientEmail), "items" := JArray(items)];
    JObject(if validityDate.Some? then m["validityDate" := JString(validityDate.value)] else m)
  }

  /**
   * A quotation body is accepted exactly when the name is non-empty, the
   * email and the date (if sent) have the right format, and every item is
   * valid. There is no minimum number of items.
   */
  lemma QuotationJsonValid(clientName: string, clientEmail: string, validityDate: Option<string>, items: seq<Json>,
                           isEmail: string -> bool, isIsoDate: string -> bool)
    ensures ValidQuotation(QuotationJson(clientName, clientEmail, validityDate, items), isEmail, isIsoDate) <==>
      clientName != "" && isEmail(clientEmail) &&
      (validityDate.Some? ==> isIsoDate(validityDate.value)) &&
      forall i :: 0 <= i < |items| ==> ValidItem(items[i])
  {
    var j := QuotationJson(clientName, clientEmail, validityDate, items);
    assert Field(j, "clientName") == Some(JString(clientName));
    assert Field(j, "clientEmail") == Some(JString(clientEmail));
    assert Field(j, "items") == Some(JArray(items));
    assert Field(j, "validityDate") == if validityDate.Some? then Some(JString(validityDate.value)) else None;
  }

  /** In particular an empty item list is accepted. */
  lemma NoItemsAccepted(clientName: string, clientEmail: string, isEmail: string -> bool, isIsoDate: string -> bool)
    requires clientName != "" && isEmail(clientEmail)
    ensures ValidQuotation(QuotationJson(clientName, clientEmail, None, []), isEmail, isIsoDate)
  {
    QuotationJsonValid(clientName, clientEmail, None, [], isEmail, isIsoDate);
  }

  /** A quotation body that passes has items every one of which the service reads as a proper item. */
  lemma QuotationItems(j: Json, isEmail: string -> bool, isIsoDate: string -> bool, i: nat)
    requires ValidQuotation(j, isEmail, isIsoDate) && i < |Field(j, "items").value.elems|
    ensures ItemOf(Field(j, "items").value.elems[i]).quantity >= 1
    ensures ItemOf(Field(j, "items").value.elems[i]).itemName != ""
  {
  }

  // ---------------------------------------------------------------------------
  // The auth DTOs
  // ---------------------------------------------------------------------------

  /** RegisterDto: an email, a password of at least six characters, and a name that is not empty (of any type). */
  predicate ValidRegister(j: Json, isEmail: string -> bool) {
    j.JObject? &&
    IsEmail(Field(j, "email"), isEmail) &&
    NotEmpty(Field(j, "password")) && MinLength(Field(j, "password"), 6) &&
    NotEmpty(Field(j, "name"))
  }

  /** LoginDto: an email and a password that is not empty, with no minimum length. */
  predicate ValidLogin(j: Json, isEmail: string -> bool) {
    j.JObject? && IsEmail(Field(j, "email"), isEmail) && NotEmpty(Field(j, "password"))
  }

  /** ForgotPasswordDto: an email. */
  predicate ValidForgot(j: Json, isEmail: string -> bool) {
    j.JObject? && IsEmail(Field(j, "email"), isEmail)
  }

  /** ResetPasswordDto: a string token (possibly empty) and a new password of at least six characters. */
  predicate ValidReset(j: Json) {
    j.JObject? && IsString(Field(j, "token")) &&
    IsString(Field(j, "newPassword")) && MinLength(Field(j, "newPassword"), 6)
  }

  /** ChangePasswordDto: an email, any string as the old password, a new password of at least six characters. */
  predicate ValidChange(j: Json, isEmail: string -> bool) {
    j.JObject? && IsEmail(Field(j, "email"), isEmail) && IsString(Field(j, "oldPassword")) &&
    IsString(Field(j, "newPassword")) && MinLength(Field(j, "newPassword"), 6)
  }

  function RegisterJson(d: Auth.RegisterDto): Json {
    JObject(map["email" := JString(d.email), "password" := JString(d.password), "name" := JString(d.name)])
  }

  function LoginJson(d: Auth.LoginDto): Json {
    JObject(map["email" := JString(d.email), "password" := JString(d.password)])
  }

  function ChangeJson(d: Auth.ChangePasswordDto): Json {
    JObject(map["email" := JString(d.email), "oldPassword" := JString(d.oldPassword), "newPassword" := JString(d.newPassword)])
  }

  function ResetJson(token: string, newPassword: string): Json {
    JObject(map["token" := JString(token), "newPassword" := JString(newPassword)])
  }

  /** A registration of strings is accepted exactly for a valid email, a 6+ password and a non-empty name. */
  lemma RegisterJsonValid(d: Auth.RegisterDto, isEmail: string -> bool)
    ensures ValidRegister(RegisterJson(d), isEmail) <==> isEmail(d.email) && ValidatorLength(d.password) >= 6 && d.name != ""
  {
    var j := RegisterJson(d);
    assert Field(j, "email") == Some(JString(d.email));
    assert Field(j, "password") == Some(JString(d.password));
    assert Field(j, "name") == Some(JString(d.name));
  }

  /** The name is only checked for emptiness: a number passes. */
  lemma RegisterNameUntyped(email: string, password: string, isEmail: string -> bool)
    requires isEmail(email) && ValidatorLength(password) >= 6
    ensures ValidRegister(JObject(map["email" := JString(email), "password" := JString(password), "name" := JNumber(1.0)]), isEmail)
  {
    var j := JObject(map["email" := JString(email), "password" := JString(password), "name" := JNumber(1.0)]);
    assert Field(j, "email") == Some(JString(email));
    assert Field(j, "password") == Some(JString(password));
    assert Field(j, "name") == Some(JNumber(1.0));
  }

  /** A login of strings is accepted exactly for a valid email and a password that is not empty. */
  lemma LoginJsonValid(d: Auth.LoginDto, isEmail: string -> bool)
    ensures ValidLogin(LoginJson(d), isEmail) <==> isEmail(d.email) && d.password != ""
  {
    var j := LoginJson(d);
    assert Field(j, "email") == Some(JString(d.email));
    assert Field(j, "password") == Some(JString(d.password));
  }

  /** Only the email of a forgot-password body is checked. */
  lemma ForgotJsonValid(email: string, isEmail: string -> bool)
    ensures ValidForgot(JObject(map["email" := JString(email)]), isEmail) <==> isEmail(email)
  {
    assert Field(JObject(map["email" := JString(email)]), "email") == Some(JString(email));
  }

  /** A reset body is accepted for any token string, exactly when the new password has six or more characters. */
  lemma ResetJsonValid(token: string, newPassword: string)
    ensures ValidReset(ResetJson(token, newPassword)) <==> ValidatorLength(newPassword) >= 6
  {
    var j := ResetJson(token, newPassword);
    assert Field(j, "token") == Some(JString(token));
    assert Field(j, "newPassword") == Some(JString(newPassword));
  }

  /** A change body is accepted for any old password, exactly for a valid email and a 6+ new password. */
  lemma ChangeJsonValid(d: Auth.ChangePasswordDto, isEmail: string -> bool)
    ensures ValidChange(ChangeJson(d), isEmail) <==> isEmail(d.email) && ValidatorLength(d.newPassword) >= 6
  {
    var j := ChangeJson(d);
    assert Field(j, "email") == Some(JString(d.email));
    assert Field(j, "oldPassword") == Some(JString(d.oldPassword));
    assert Field(j, "newPassword") == Some(JString(d.newPassword));
  }

  /**
   * A presentation selector does not count towards @MinLength: six characters
   * one of which is U+FE0E or U+FE0F are too short a new password, for reset
   * and for change alike.
   */
  lemma SelectorNotCounted(token: string, email: string, oldPassword: string, newPassword: string, isEmail: string -> bool)
    requires |newPassword| == 6 && exists i :: 0 <= i < 6 && PresentationSelector(newPassword[i])
    ensures !ValidReset(ResetJson(token, newPassword))
    ensures !ValidChange(ChangeJson(Auth.ChangePasswordDto(email, oldPassword, newPassword)), isEmail)
  {
    LengthMeasures(newPassword);
    ResetJsonValid(token, newPassword);
    ChangeJsonValid(Auth.ChangePasswordDto(email, oldPassword, newPassword), isEmail);
  }
}
