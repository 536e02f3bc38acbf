/**
 * The demo form's message helpers (`ShowcaseFormComponent`): the error
 * message for a control, chosen by a fixed priority of error kinds and
 * lengthened for a fixed list of fields, and the hint text for a field.
 *
 * An error map is a JavaScript object: a key's value is tested for
 * truthiness, and a message reads a numeric property of it, which is
 * `undefined` (and rendered as such) when missing.
 */
module ShowcaseForm {
  import opened Optional
  import opened Decimal

  /** An error entry's value: falsy, or a truthy value with its numeric properties. */
  datatype ErrorValue = Falsy | Truthy(fields: map<string, int>)

  type ValidationErrors = map<string, ErrorValue>

  /** What `getErrorMessage` reads of a control: its errors (`None` for null) and whether it was touched. */
  datatype ControlState = ControlState(errors: Option<ValidationErrors>, touched: bool)

  /** The kinds of error a message is chosen for, with the bound a message embeds. */
  datatype ErrorKind =
    | Required
    | Email
    | MinLength(requiredLength: Option<int>)
    | MaxLength(requiredLength: Option<int>)
    | Min(min: Option<int>)
    | Max(max: Option<int>)
    | Pattern
    | Unrecognised

  /** Keys in the order they are tested; the first truthy one decides. */
  const Priority: seq<string> := ["required", "email", "minlength", "maxlength", "min", "max", "pattern"]

  /** Fields that get the long form of every message. */
  const LongErrorFields: seq<string> := [
    "firstName", "lastName", "email", "phone", "age", "password",
    "confirmPassword", "country", "city", "zipCode", "address", "company",
    "jobTitle", "salary", "startDate", "endDate"]

  predicate IsTruthy(e: ValidationErrors, key: string) {
    key in e && e[key].Truthy?
  }

  /** `e[key].field`: the numeric property, `None` where JavaScript reads `undefined`. */
  function Meta(e: ValidationErrors, key: string, field: string): Option<int> {
    if key in e && e[key].Truthy? && field in e[key].fields then Some(e[key].fields[field]) else None
  }

  /** `${v}` for a number or `undefined`. */
  function Show(v: Option<int>): (s: string)
    ensures |s| > 0
  {
    match v
    case Some(n) => IntToString(n)
    case None => "undefined"
  }

  /**
   * How a message is worded: fixed text, or text around the bound that a
   * template literal interpolates.
   */
  datatype Wording = Fixed(text: string) | Around(before: string, after: string)

  const RequiredLong: string := "This field is required and must be filled out completely. Please ensure all mandatory information is provided before submitting the form."
  const RequiredShort: string := "This field is required"
  const EmailLong: string := "Please enter a valid email address in the format: username@domain.com. The email must contain an @ symbol and a valid domain name with at least one dot."
  const EmailShort: string := "Please enter a valid email address"
  const MinLengthLong: Wording := Around("This field requires a minimum of ", " characters. Your current input is too short. Please provide more detailed information to meet the minimum length requirement.")
  const MinLengthShort: Wording := Around("Minimum length is ", " characters")
  const MaxLengthLong: Wording := Around("This field has a maximum length of ", " characters. Your current input exceeds this limit. Please shorten your text to comply with the maximum character count.")
  const MaxLengthShort: Wording := Around("Maximum length is ", " characters")
  const MinLong: Wording := Around("The minimum allowed value for this field is ", ". Please enter a value that is equal to or greater than this minimum requirement.")
  const MinShort: Wording := Around("Minimum value is ", "")
  const MaxLong: Wording := Around("The maximum allowed value for this field is ", ". Please enter a value that is equal to or less than this maximum limit.")
  const MaxShort: Wording := Around("Maximum value is ", "")
  const PatternLong: string := "Please enter a valid format that matches the required pattern. The input you provided does not conform to the expected format for this field."
  const PatternShort: string := "Please enter a valid format"
  const FallbackLong: string := "The value you entered is invalid. Please review the field requirements and enter a valid value that meets all specified criteria."
  const FallbackShort: string := "Invalid value"

  /** The wording of each kind, in its long or short form. */
  function WordingOf(kind: ErrorKind, long: bool): Wording {
    match kind
    case Required => Fixed(if long then RequiredLong else RequiredShort)
    case Email => Fixed(if long then EmailLong else EmailShort)
    case MinLength(_) => if long then MinLengthLong else MinLengthShort
    case MaxLength(_) => if long then MaxLengthLong else MaxLengthShort
    case Min(_) => if long then MinLong else MinShort
    case Max(_) => if long then MaxLong else MaxShort
    case Pattern => Fixed(if long then PatternLong else PatternShort)
    case Unrecognised => Fixed(if long then FallbackLong else FallbackShort)
  }

  /** The bound a kind's message interpolates. */
  function BoundOf(kind: ErrorKind): Option<int> {
    match kind
    case MinLength(n) => n
    case MaxLength(n) => n
    case Min(v) => v
    case Max(v) => v
    case _ => None
  }

  /** The message for a kind, in its long or short form; never empty. */
  function MessageText(kind: ErrorKind, long: bool): (r: string)
    ensures |r| > 0
  {
    match WordingOf(kind, long)
    case Fixed(text) => text
    case Around(before, after) => before + Show(BoundOf(kind)) + after
  }

  /** `getErrorMessage`, as written: a gate, then one test per key in turn. */
  function GetErrorMessage(control: ControlState, fieldName: string): (message: string)
    ensures control.errors.None? || !control.touched ==> message == ""
  {
    if control.errors.None? || !control.touched then ""
    else
      var e := control.errors.value;
      var long := fieldName in LongErrorFields;
      if IsTruthy(e, "required") then MessageText(Required, long)
      else if IsTruthy(e, "email") then MessageText(Email, long)
      else if IsTruthy(e, "minlength") then MessageText(MinLength(Meta(e, "minlength", "requiredLength")), long)
      else if IsTruthy(e, "maxlength") then MessageText(MaxLength(Meta(e, "maxlength", "requiredLength")), long)
      else if IsTruthy(e, "min") then MessageText(Min(Meta(e, "min", "min")), long)
      else if IsTruthy(e, "max") then MessageText(Max(Meta(e, "max", "max")), long)
      else if IsTruthy(e, "pattern") then MessageText(Pattern, long)
      else MessageText(Unrecognised, long)
  }

  // ---------------------------------------------------------------------------
  // The reference classification: the first truthy key of `Priority`.

  function FirstTruthy(e: ValidationErrors, keys: seq<string>): Option<string>
    decreases |keys|
  {
    if keys == [] then None
    else if IsTruthy(e, keys[0]) then Some(keys[0])
    else FirstTruthy(e, keys[1..])
  }

  /** The kind a recognised key stands for, with the bound its entry carries. */
  function KindOf(e: ValidationErrors, key: string): ErrorKind {
    match key
    case "required" => Required
    case "email" => Email
    case "minlength" => MinLength(Meta(e, key, "requiredLength"))
    case "maxlength" => MaxLength(Meta(e, key, "requiredLength"))
    case "min" => Min(Meta(e, key, "min"))
    case "max" => Max(Meta(e, key, "max"))
    case "pattern" => Pattern
    case _ => Unrecognised
  }

  function Classify(e: ValidationErrors): ErrorKind {
    match FirstTruthy(e, Priority)
    case None => Unrecognised
    case Some(key) => KindOf(e, key)
  }

  /** `FirstTruthy` finds the earliest truthy key, and nothing when there is none. */
  lemma {:induction false} FirstTruthyIsEarliest(e: ValidationErrors, keys: seq<string>)
    ensures FirstTruthy(e, keys).None? <==> forall j :: 0 <= j < |keys| ==> !IsTruthy(e, keys[j])
    ensures FirstTruthy(e, keys).Some? ==>
      exists i :: 0 <= i < |keys| && keys[i] == FirstTruthy(e, keys).value && IsTruthy(e, keys[i])
        && forall j :: 0 <= j < i ==> !IsTruthy(e, keys[j])
    decreases |keys|
  {
    if keys != [] && !IsTruthy(e, keys[0]) {
      FirstTruthyIsEarliest(e, keys[1..]);
      if FirstTruthy(e, keys[1..]).Some? {
        var i :| 0 <= i < |keys[1..]| && keys[1..][i] == FirstTruthy(e, keys[1..]).value
          && IsTruthy(e, keys[1..][i]) && forall j :: 0 <= j < i ==> !IsTruthy(e, keys[1..][j]);
        assert keys[i + 1] == keys[1..][i];
        forall j | 0 <= j < i + 1
          ensures !IsTruthy(e, keys[j])
        {
          if j > 0 { assert keys[j] == keys[1..][j - 1]; }
        }
      }
      forall j | 0 <= j < |keys| && FirstTruthy(e, keys).None?
        ensures !IsTruthy(e, keys[j])
      {
        if j > 0 { assert keys[j] == keys[1..][j - 1]; }
      }
    } else if keys != [] {
      assert keys[0] == FirstTruthy(e, keys).value;
    }
  }

  /** Classifying by priority is the chain of key tests, one key at a time. */
  lemma {:induction false} ClassifyByChain(e: ValidationErrors)
    ensures Classify(e) ==
      if IsTruthy(e, "required") then Required
      else if IsTruthy(e, "email") then Email
      else if IsTruthy(e, "minlength") then MinLength(Meta(e, "minlength", "requiredLength"))
      else if IsTruthy(e, "maxlength") then MaxLength(Meta(e, "maxlength", "requiredLength"))
      else if IsTruthy(e, "min") then Min(Meta(e, "min", "min"))
      else if IsTruthy(e, "max") then Max(Meta(e, "max", "max"))
      else if IsTruthy(e, "pattern") then Pattern
      else Unrecognised
  {
  }

  /** The chain of tests as written agrees with the priority classification. */
  lemma MessageFollowsPriority(control: ControlState, fieldName: string)
    requires control.errors.Some? && control.touched
    ensures GetErrorMessage(control, fieldName)
         == MessageText(Classify(control.errors.value), fieldName in LongErrorFields)
  {
    ClassifyByChain(control.errors.value);
  }

  /** Nothing is shown until the control has errors and has been touched; then something always is. */
  lemma MessageGate(control: ControlState, fieldName: string)
    ensures GetErrorMessage(control, fieldName) == "" <==> control.errors.None? || !control.touched
  {
    if control.errors.Some? && control.touched {
      MessageFollowsPriority(control, fieldName);
    }
  }

  /** A `required` error wins over every other key present. */
  lemma RequiredWins(control: ControlState, fieldName: string)
    requires control.errors.Some? && control.touched && IsTruthy(control.errors.value, "required")
    ensures GetErrorMessage(control, fieldName) == MessageText(Required, fieldName in LongErrorFields)
  {
  }

  /** The long form of every message is strictly longer than its short form. */
  lemma LongFormIsLonger(kind: ErrorKind)
    ensures |MessageText(kind, true)| > |MessageText(kind, false)|
  {
  }

  /** The form follows the field name: long exactly for the names in `LongErrorFields`. */
  lemma LongFormIffListed(control: ControlState, fieldName: string)
    requires control.errors.Some? && control.touched
    ensures var k := Classify(control.errors.value);
      GetErrorMessage(control, fieldName) == MessageText(k, fieldName in LongErrorFields)
      && (GetErrorMessage(control, fieldName) == MessageText(k, true) <==> fieldName in LongErrorFields)
  {
    MessageFollowsPriority(control, fieldName);
    LongFormIsLonger(Classify(control.errors.value));
  }

  lemma LongErrorFieldsFacts()
    ensures |LongErrorFields| == 16
    ensures forall i, j :: 0 <= i < j < |LongErrorFields| ==> LongErrorFields[i] != LongErrorFields[j]
    ensures "website" !in LongErrorFields && "notes" !in LongErrorFields
  {
  }

  /** Every long text ends in a full stop; only the fallback's last word ends in 'a'. */
  lemma LongIsNotFallback(kind: ErrorKind)
    requires kind != Unrecognised
    ensures MessageText(kind, true) != FallbackLong
  {
    var m := MessageText(kind, true);
    assert FallbackLong[|FallbackLong| - 2] == 'a';
    match WordingOf(kind, true)
    case Fixed(text) =>
      assert text[|text| - 2] != 'a';
    case Around(before, after) =>
      assert m == before + Show(BoundOf(kind)) + after;
      assert m[|m| - 2] == after[|after| - 2] != 'a';
  }

  /** The short fallback ends in 'e'; no other short text does. */
  lemma ShortIsNotFallback(kind: ErrorKind)
    requires kind != Unrecognised
    ensures MessageText(kind, false) != FallbackShort
  {
  }

  /** A message for a recognised kind never reads as the fallback. */
  lemma RecognisedIsNotFallback(kind: ErrorKind, long: bool)
    requires kind != Unrecognised
    ensures MessageText(kind, long) != MessageText(Unrecognised, long)
  {
    if long {
      LongIsNotFallback(kind);
    } else {
      ShortIsNotFallback(kind);
    }
  }

  /** The fallback text appears exactly when no recognised key is truthy. */
  lemma FallbackIffNoRecognisedKey(control: ControlState, fieldName: string)
    requires control.errors.Some? && control.touched
    ensures var long := fieldName in LongErrorFields;
      GetErrorMessage(control, fieldName) == MessageText(Unrecognised, long)
      <==> forall key :: key in Priority ==> !IsTruthy(control.errors.value, key)
  {
    var e := control.errors.value;
    MessageFollowsPriority(control, fieldName);
    FirstTruthyIsEarliest(e, Priority);
    if FirstTruthy(e, Priority).Some? {
      var key := FirstTruthy(e, Priority).value;
      assert key in Priority;
      assert Classify(e) != Unrecognised;
      RecognisedIsNotFallback(Classify(e), fieldName in LongErrorFields);
    } else {
      forall key | key in Priority
        ensures !IsTruthy(e, key)
      {
        var j :| 0 <= j < |Priority| && Priority[j] == key;
      }
    }
  }

  /**
   * A length or range message carries its entry's bound: the text between the
   * wording's two parts reads back as that bound.
   */
  lemma BoundReadsBack(kind: ErrorKind, long: bool, n: int)
    requires BoundOf(kind) == Some(n)
    ensures WordingOf(kind, long).Around?
    ensures var w := WordingOf(kind, long);
      var m := MessageText(kind, long);
      |w.before| + |w.after| <= |m|
      && IsIntLiteral(m[|w.before|..|m| - |w.after|])
      && ParseInt(m[|w.before|..|m| - |w.after|]) == n
  {
    var w := WordingOf(kind, long);
    var d := IntToString(n);
    var m := MessageText(kind, long);
    assert m == w.before + d + w.after;
    assert m[|w.before|..|m| - |w.after|] == d;
    ParseIntToString(n);
  }

  // ---------------------------------------------------------------------------
  // Hint text.

  const Skill1Hint: string := "This is a long hint text for the skill1 field. It should be at least 100 characters long to demonstrate the tooltip functionality."
  const Skill2Hint: string := "short hint text for the skill2 field"

  /** The `hints` record: every form field, all but two mapped to the empty string. */
  const Hints: map<string, string> := map[
    "firstName" := "", "lastName" := "", "email" := "", "phone" := "",
    "age" := "", "website" := "", "password" := "", "confirmPassword" := "",
    "country" := "", "city" := "", "zipCode" := "", "address" := "",
    "company" := "", "jobTitle" := "", "salary" := "", "startDate" := "",
    "endDate" := "", "notes" := "", "skill1" := Skill1Hint, "skill2" := Skill2Hint,
    "skill3" := "", "language1" := "", "language2" := "", "language3" := "",
    "project1" := "", "project2" := "", "project3" := "", "reference1" := "",
    "reference2" := "", "reference3" := "", "education" := "", "certification" := "",
    "experience" := "", "bio" := "", "linkedin" := "", "github" := ""]

  /** `getHintText` as intended: the field's own entry, or the empty string. */
  function GetHintText(fieldName: string): (hint: string)
    ensures fieldName !in Hints ==> hint == ""
    ensures fieldName in Hints ==> hint == Hints[fieldName]
  {
    var v := if fieldName in Hints then Hints[fieldName] else "";
    if v != "" then v else ""
  }

  /** Only `skill1` and `skill2` have a hint. */
  lemma HintOnlyForSkills(fieldName: string)
    ensures GetHintText(fieldName) != "" <==> fieldName == "skill1" || fieldName == "skill2"
    ensures GetHintText("skill1") == Skill1Hint && GetHintText("skill2") == Skill2Hint
  {
  }

  // ---------------------------------------------------------------------------
  // `getHintText` as written: `hints[fieldName] || ''` reads through the
  // record's prototype, so a name the record does not own but `Object.prototype`
  // has yields that inherited member, which is truthy, instead of ''.

  /** Names every plain object inherits from `Object.prototype`. */
  const ObjectPrototypeMembers: set<string> := {
    "constructor", "toString", "toLocaleString", "valueOf", "hasOwnProperty",
    "isPrototypeOf", "propertyIsEnumerable", "__proto__", "__defineGetter__",
    "__defineSetter__", "__lookupGetter__", "__lookupSetter__"}

  /** A JavaScript value as far as the lookup needs: a string, `undefined`, or an inherited member (a function or object). */
  datatype JsValue = Str(s: string) | Undefined | Inherited(name: string)

  predicate JsTruthy(v: JsValue) {
    match v
    case Str(s) => s != ""
    case Undefined => false
    case Inherited(_) => true
  }

  /** `hints[fieldName]`: own entries first, then the prototype's members. */
  function HintsLookup(fieldName: string): JsValue {
    if fieldName in Hints then Str(Hints[fieldName])
    else if fieldName in ObjectPrototypeMembers then Inherited(fieldName)
    else Undefined
  }

  /** `getHintText` as written: `hints[fieldName] || ''`. */
  function GetHintTextAsWritten(fieldName: string): (r: JsValue)
    ensures JsTruthy(HintsLookup(fieldName)) ==> r == HintsLookup(fieldName)
    ensures !JsTruthy(HintsLookup(fieldName)) ==> r == Str("")
  {
    var v := HintsLookup(fieldName);
    if JsTruthy(v) then v else Str("")
  }

  /** Where the name is not an inherited one, the code as written gives the intended hint. */
  lemma AsWrittenAgreesOffPrototype(fieldName: string)
    requires fieldName !in ObjectPrototypeMembers
    ensures GetHintTextAsWritten(fieldName) == Str(GetHintText(fieldName))
  {
  }

  /** The name `toString` is not a field, yet the code as written returns no string for it. */
  lemma InheritedNameEscapesDefault()
    ensures "toString" !in Hints
    ensures GetHintText("toString") == ""
    ensures GetHintTextAsWritten("toString") == Inherited("toString")
  {
  }
}
