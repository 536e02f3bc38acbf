/**
 * The field wrapper component (`UiFieldComponent`). Its display flags are
 * computed from its inputs alone, so they are modelled as functions of a
 * `FieldInputs` record; the one effect, which writes the field's width and
 * height into its host element's style, is a method on the component.
 */
module UiField {
  import opened Optional
  import opened Dom

  const FieldWidthProperty: string := "--field-width"
  const FieldHeightProperty: string := "--field-height"

  /**
   * A validator, seen only through what it returns for an empty candidate:
   * `None` when it returns null, otherwise the error keys whose value in the
   * returned object is not `undefined`.
   */
  datatype Validator = Validator(emptyProbe: Option<set<string>>)

  /** The state of the form control the wrapper observes and never writes. */
  datatype Control = Control(invalid: bool, touched: bool, dirty: bool, validator: Option<Validator>)

  /** The component's inputs (`label` is `labelText`, as `label` is a Dafny keyword); `control` is `None` when no control is bound. */
  datatype FieldInputs = FieldInputs(
    width: string,
    height: string,
    control: Option<Control>,
    labelText: string,
    required: bool)

  const DefaultInputs: FieldInputs := FieldInputs("200px", "60px", None, "", false)

  /** `isTouched`: the control has been touched; no control is never touched. */
  predicate IsTouched(f: FieldInputs)
    ensures IsTouched(f) ==> f.control.Some?
  {
    match f.control
    case None => false
    case Some(c) => c.touched
  }

  /** `isDirty`: the control has been edited; no control is never dirty. */
  predicate IsDirty(f: FieldInputs)
    ensures IsDirty(f) ==> f.control.Some?
  {
    match f.control
    case None => false
    case Some(c) => c.dirty
  }

  /** `isInvalid`: errors are shown only once the control has been touched. */
  predicate IsInvalid(f: FieldInputs)
    ensures IsInvalid(f) ==> IsTouched(f) && f.control.value.invalid
  {
    match f.control
    case None => false
    case Some(c) => c.invalid && c.touched
  }

  /** `hasError`: the error chrome follows `isInvalid` exactly. */
  predicate HasError(f: FieldInputs)
    ensures HasError(f) <==> IsInvalid(f)
  {
    IsInvalid(f)
  }

  /**
   * `isRequired`: the explicit input wins; otherwise the control's validator
   * is asked whether an empty candidate violates a `required` rule.
   */
  predicate IsRequired(f: FieldInputs)
    ensures f.required ==> IsRequired(f)
    ensures IsRequired(f) && !f.required ==> f.control.Some? && f.control.value.validator.Some?
  {
    if f.required then true
    else match f.control
      case None => false
      case Some(c) =>
        match c.validator
        case None => false
        case Some(v) =>
          match v.emptyProbe
          case None => false
          case Some(keys) => "required" in keys
  }

  /** `showLabel`: a label is shown exactly when there is label text. */
  predicate ShowLabel(f: FieldInputs)
    ensures ShowLabel(f) <==> f.labelText != ""
  {
    |f.labelText| > 0
  }

  lemma NoControlAllFalse(f: FieldInputs)
    requires f.control.None?
    ensures !IsInvalid(f) && !IsTouched(f) && !IsDirty(f) && !HasError(f)
  {
  }

  /** With a control bound, `isTouched` and `isDirty` are the control's own flags. */
  lemma FlagsFollowControl(f: FieldInputs, c: Control)
    requires f.control == Some(c)
    ensures IsTouched(f) == c.touched && IsDirty(f) == c.dirty
  {
  }

  /** An invalid control shows its error if and only if it has been touched. */
  lemma InvalidShownIffTouched(f: FieldInputs, c: Control)
    requires f.control == Some(c) && c.invalid
    ensures IsInvalid(f) <==> c.touched
  {
  }

  /** A valid control never shows an error, touched or not. */
  lemma ValidNeverInvalid(f: FieldInputs, c: Control)
    requires f.control == Some(c) && !c.invalid
    ensures !IsInvalid(f) && !HasError(f)
  {
  }

  lemma RequiredInputWins(f: FieldInputs, c: Option<Control>)
    requires f.required
    ensures IsRequired(f.(control := c))
  {
  }

  lemma NotRequiredWithoutValidator(f: FieldInputs)
    requires !f.required
    requires f.control.None? || f.control.value.validator.None?
    ensures !IsRequired(f)
  {
  }

  /** With no explicit input, the validator's answer for an empty candidate decides. */
  lemma ValidatorProbeDecides(f: FieldInputs, c: Control, v: Validator)
    requires !f.required && f.control == Some(c) && c.validator == Some(v)
    ensures IsRequired(f) <==> v.emptyProbe.Some? && "required" in v.emptyProbe.value
  {
  }

  /** Turning on the explicit input alone makes a non-required field required. */
  lemma RequiredInputFlips(f: FieldInputs)
    requires !IsRequired(f)
    ensures IsRequired(f.(required := true))
    ensures f.(required := true).control == f.control
  {
  }

  class UiFieldComponent {
    var inputs: FieldInputs
    /** The host element (`elementRef.nativeElement`); null when there is none. */
    const element: StyledElement?

    constructor (element: StyledElement?)
      ensures inputs == DefaultInputs && this.element == element
    {
      inputs := DefaultInputs;
      this.element := element;
    }

    /**
     * The dimension effect: writes the width and height inputs into the host
     * element's custom properties and touches nothing else.
     */
    method ApplyDimensions()
      modifies element
      ensures element != null ==>
        element.style == old(element.style)[FieldWidthProperty := inputs.width][FieldHeightProperty := inputs.height]
      ensures element != null ==>
        && element.style[FieldWidthProperty] == inputs.width
        && element.style[FieldHeightProperty] == inputs.height
        && forall k :: k != FieldWidthProperty && k != FieldHeightProperty ==>
             (k in element.style <==> k in old(element.style))
             && (k in element.style ==> element.style[k] == old(element.style)[k])
    {
      var width := inputs.width;
      var height := inputs.height;
      if element != null {
        element.SetProperty(FieldWidthProperty, width);
        element.SetProperty(FieldHeightProperty, height);
      }
    }
  }
}
