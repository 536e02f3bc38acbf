# Form field widgets: a Dafny model

This project models the logic of three Angular components:

- `UiFieldComponent` is a wrapper around a form field. It derives display flags from the form control it is given: invalid, touched, dirty, has-error, required and show-label. It also writes its width and height into custom properties on its host element.
- `UiFieldHelperTextComponent` shows one line of helper text. It measures whether that text is clipped and stores the answer in a `hasOverflow` cell. When the text is clipped it shows an exclamation mark. Hovering over the mark places a tooltip above it. It also copies its height input onto its parent element.
- `ShowcaseFormComponent` is a demo form with two helpers. `getErrorMessage` picks a control's error message. It uses a fixed priority of error kinds and a long or short form chosen by field name. `getHintText` looks up a field's hint.

The modules:

- `Optional` holds the `Option` type.
- `Decimal` turns an integer into text the way a template literal does. It also has a parser that reads that text back.
- `Dom` models an element's inline style as a map, and `setProperty` as a method that updates one entry.
- `UiField` models the field wrapper. The computed signals are functions of a `FieldInputs` record. The dimension effect is the method `UiFieldComponent.ApplyDimensions`.
- `UiFieldHelperText` models the helper text. `UiFieldHelperTextComponent` is a class holding the `hasOverflow` cell. Each measurement probe takes the element's scroll width and client width as integers, read at the moment the probe runs. The immediate probe runs inside `RunOverflowEffect`. That method reports the two probes it leaves pending: a zero-delay timeout and an animation frame. The environment runs those later through `CheckOverflow`. `Settle` folds a whole trace of probes, applied in the order they ran, into the cell's final value; the lemmas about the overflow cell are stated over it. `OverflowScenario` is a client run of the end-to-end case: a stale immediate probe overruled by the deferred ones, then empty text hiding the mark although a late probe set the cell again.
- `ShowcaseForm` models the form helpers. An error map is a JavaScript object, so a key's value is tested for truthiness. A message shows a numeric property, or `undefined` when that property is missing. `GetErrorMessage` follows the code's chain of `if`s. `Classify` is an independent reference: it takes the first truthy key in priority order. A lemma proves the two agree.

Three behaviours of the code that a reader might not expect, all modelled as the code has them:

- The overflow effect probes three times: once immediately, once after a zero-delay timeout and once on the next animation frame. A single deferred re-check would be enough for the "last probe wins" rule, but the code schedules two.
- The call to the validator in `isRequired` has no `try`/`catch`. A validator that throws would propagate its error, so the model has no fault-tolerant path for it.
- `isInvalid` reads the control's `invalid` flag, not the negation of `valid`. The two differ for pending or disabled controls, so the model's `Control` carries `invalid`.

## Model

| member | source | states |
|---|---|---|
| `UiField.IsTouched` | src/app/components/ui-field/ui-field.component.ts:40-43 | a touched field always has a control |
| `UiField.FlagsFollowControl` | src/app/components/ui-field/ui-field.component.ts:40-48 | with a control bound, `isTouched` is the control's `touched` flag and `isDirty` its `dirty` flag |
| `UiField.IsDirty` | src/app/components/ui-field/ui-field.component.ts:45-48 | a dirty field always has a control |
| `UiField.IsInvalid` | src/app/components/ui-field/ui-field.component.ts:35-38 | an invalid field is touched and its control is invalid |
| `UiField.HasError` | src/app/components/ui-field/ui-field.component.ts:50-52 | `hasError` holds exactly when `isInvalid` holds |
| `UiField.IsRequired` | src/app/components/ui-field/ui-field.component.ts:55-65 | the `required` input forces required; without it, required needs a control that has a validator |
| `UiField.ShowLabel` | src/app/components/ui-field/ui-field.component.ts:68-70 | the label shows exactly when the label text is non-empty |
| `UiField.NoControlAllFalse` | src/app/components/ui-field/ui-field.component.ts:35-52 | with no control, invalid, touched, dirty and has-error are all false |
| `UiField.InvalidShownIffTouched` | src/app/components/ui-field/ui-field.component.ts:35-38 | an invalid control is shown as invalid if and only if it was touched |
| `UiField.ValidNeverInvalid` | src/app/components/ui-field/ui-field.component.ts:35-38 | a valid control never shows an error, touched or not |
| `UiField.RequiredInputWins` | src/app/components/ui-field/ui-field.component.ts:56-59 | with `required` set, the field is required whatever control is bound |
| `UiField.NotRequiredWithoutValidator` | src/app/components/ui-field/ui-field.component.ts:60-64 | without `required`, no control or no validator means not required |
| `UiField.ValidatorProbeDecides` | src/app/components/ui-field/ui-field.component.ts:60-63 | without `required`, a validator makes the field required if and only if its result for an empty candidate has a defined `required` key |
| `UiField.RequiredInputFlips` | src/app/components/ui-field/ui-field.component.ts:55-59 | setting `required` on a non-required field makes it required, and the control stays the same |
| `UiField.UiFieldComponent.constructor` | src/app/components/ui-field/ui-field.component.ts:22-26 | the inputs start at their defaults: 200px, 60px, no control, no label, not required |
| `UiField.UiFieldComponent.ApplyDimensions` | src/app/components/ui-field/ui-field.component.ts:74-83 | with a host element, `--field-width` becomes the width and `--field-height` the height, and every other style entry is unchanged |
| `UiFieldHelperText.Overflows` | src/app/components/ui-field-helper-text/ui-field-helper-text.component.ts:63-66 | a probe reports overflow exactly when the scroll width exceeds the client width by more than the 1-pixel tolerance; so overflow implies a wider scroll width, and a difference of 1 or less never counts |
| `UiFieldHelperText.SettleIsLastProbe` | src/app/components/ui-field-helper-text/ui-field-helper-text.component.ts:70-75 | after any non-empty trace of probes, the cell holds the verdict of the last probe to run |
| `UiFieldHelperText.RepeatedProbeIdempotent` | src/app/components/ui-field-helper-text/ui-field-helper-text.component.ts:63-67 | repeating a probe with unchanged widths leaves the cell unchanged |
| `UiFieldHelperText.DeferredProbeOverrules` | src/app/components/ui-field-helper-text/ui-field-helper-text.component.ts:70-75 | a stale immediate probe is overruled by the last deferred probe: the cell ends true when that probe's scroll width exceeds its client width by more than 1, and false otherwise, whatever the immediate probe read |
| `UiFieldHelperText.ShowExclamation` | src/app/components/ui-field-helper-text/ui-field-helper-text.component.ts:24-27 | the mark is shown only for non-empty text that overflowed |
| `UiFieldHelperText.ExclamationNeedsText` | src/app/components/ui-field-helper-text/ui-field-helper-text.component.ts:24-27 | empty text hides the mark even when the overflow cell is still true; for non-empty text the mark follows the cell |
| `UiFieldHelperText.DisplayText` | src/app/components/ui-field-helper-text/ui-field-helper-text.component.ts:30 | the displayed text is the text input unchanged |
| `UiFieldHelperText.TooltipPlacement` | src/app/components/ui-field-helper-text/ui-field-helper-text.component.ts:40-42 | the tooltip's left is equidistant from the mark's left and right edges, and its top is 8 above the mark's top |
| `UiFieldHelperText.TooltipPlacementExample` | src/app/components/ui-field-helper-text/ui-field-helper-text.component.ts:40-42 | left 100, width 40 and top 50 place the tooltip at (120, 42) |
| `UiFieldHelperText.UiFieldHelperTextComponent.constructor` | src/app/components/ui-field-helper-text/ui-field-helper-text.component.ts:12-21 | height 20px, empty text, no error style, no overflow |
| `UiFieldHelperText.UiFieldHelperTextComponent.CheckOverflow` | src/app/components/ui-field-helper-text/ui-field-helper-text.component.ts:63-68 | one probe sets the cell to its own verdict, whatever the cell held |
| `UiFieldHelperText.UiFieldHelperTextComponent.RunOverflowEffect` | src/app/components/ui-field-helper-text/ui-field-helper-text.component.ts:57-79 | with a text element and non-empty text, the cell takes the immediate probe's verdict and two probes are left pending; otherwise the cell becomes false and nothing is pending |
| `UiFieldHelperText.UiFieldHelperTextComponent.ApplyHeight` | src/app/components/ui-field-helper-text/ui-field-helper-text.component.ts:48-54 | `--helper-height` of the text element's parent becomes the height input; nothing is written when the text element or its parent is missing |
| `UiFieldHelperText.UiFieldHelperTextComponent.OnExclamationHover` | src/app/components/ui-field-helper-text/ui-field-helper-text.component.ts:33-44 | the tooltip gets the placement for the mark's box; without the mark or its `.tooltip` child nothing changes |
| `Decimal.NatToString` | src/app/examples/showcase-form/showcase-form.component.ts:137-138 | an interpolated count is non-empty digits with no leading zero |
| `Decimal.IntToString` | src/app/examples/showcase-form/showcase-form.component.ts:149-150 | an interpolated integer starts with `-` exactly when it is negative, and ends in a digit |
| `Decimal.ParseIntToString` | src/app/examples/showcase-form/showcase-form.component.ts:134-157 | reading back the text of any integer gives that integer |
| `Decimal.IntToStringInjective` | src/app/examples/showcase-form/showcase-form.component.ts:134-157 | different integers are rendered as different text |
| `ShowcaseForm.MessageText` | src/app/examples/showcase-form/showcase-form.component.ts:124-165 | every message, long or short, is non-empty |
| `ShowcaseForm.GetErrorMessage` | src/app/examples/showcase-form/showcase-form.component.ts:97-100 | no errors or an untouched control gives the empty message |
| `ShowcaseForm.FirstTruthyIsEarliest` | src/app/examples/showcase-form/showcase-form.component.ts:124-162 | the reference search finds the earliest truthy key in order, and finds nothing exactly when no key is truthy |
| `ShowcaseForm.ClassifyByChain` | src/app/examples/showcase-form/showcase-form.component.ts:124-165 | the priority classification is the chain of tests required, email, minlength, maxlength, min, max, pattern, with the fallback last |
| `ShowcaseForm.MessageFollowsPriority` | src/app/examples/showcase-form/showcase-form.component.ts:98-165 | past the gate, the message is the text of the first truthy key in priority order, in the form chosen by the field name |
| `ShowcaseForm.MessageGate` | src/app/examples/showcase-form/showcase-form.component.ts:98-100 | the message is empty if and only if errors are null or the control is untouched |
| `ShowcaseForm.RequiredWins` | src/app/examples/showcase-form/showcase-form.component.ts:124-128 | a truthy `required` entry decides the message whatever else is present |
| `ShowcaseForm.LongFormIsLonger` | src/app/examples/showcase-form/showcase-form.component.ts:124-165 | each kind's long text is strictly longer than its short text |
| `ShowcaseForm.LongFormIffListed` | src/app/examples/showcase-form/showcase-form.component.ts:103-122 | the message is in its long form if and only if the field name is in `longErrorFields` |
| `ShowcaseForm.LongErrorFieldsFacts` | src/app/examples/showcase-form/showcase-form.component.ts:103-120 | `longErrorFields` holds 16 distinct names, and `website` and `notes` are not among them |
| `ShowcaseForm.LongIsNotFallback` | src/app/examples/showcase-form/showcase-form.component.ts:163-165 | no recognised kind's long text equals the long fallback |
| `ShowcaseForm.ShortIsNotFallback` | src/app/examples/showcase-form/showcase-form.component.ts:163-165 | no recognised kind's short text equals `Invalid value` |
| `ShowcaseForm.RecognisedIsNotFallback` | src/app/examples/showcase-form/showcase-form.component.ts:163-165 | a recognised kind's message never reads as the fallback |
| `ShowcaseForm.FallbackIffNoRecognisedKey` | src/app/examples/showcase-form/showcase-form.component.ts:124-165 | past the gate, the fallback appears if and only if none of the seven recognised keys is truthy |
| `ShowcaseForm.BoundReadsBack` | src/app/examples/showcase-form/showcase-form.component.ts:134-157 | a minlength, maxlength, min or max message carries its bound: the text between the fixed wording reads back as that number |
| `ShowcaseForm.GetHintText` | src/app/examples/showcase-form/showcase-form.component.ts:169-211 | a mapped field gets its own entry; an unmapped name gets `''` |
| `ShowcaseForm.HintOnlyForSkills` | src/app/examples/showcase-form/showcase-form.component.ts:170-210 | a hint is non-empty if and only if the field is `skill1` or `skill2` |
| `ShowcaseForm.GetHintTextAsWritten` | src/app/examples/showcase-form/showcase-form.component.ts:210 | the lookup with an `''` default returns the looked-up value when it is truthy and `''` otherwise, where the lookup also reads inherited members |
| `ShowcaseForm.AsWrittenAgreesOffPrototype` | src/app/examples/showcase-form/showcase-form.component.ts:210 | for names `Object.prototype` does not have, the code as written gives the intended hint |
| `ShowcaseForm.InheritedNameEscapesDefault` | src/app/examples/showcase-form/showcase-form.component.ts:210 | for the unmapped name `toString`, the code as written returns an inherited member where `''` is intended |

## Left out

- Angular's signal, computed and effect runtime, including its batching and memoisation. Inputs are fields or record components. Computed signals are functions. Each effect is a method that its caller runs.
- Scheduling of `setTimeout` and `requestAnimationFrame`. Browsers do not fix which of the two runs first, so a trace of probes is taken in the order the probes ran.
- DOM measurement. Widths are integer parameters and the bounding box is real numbers. Pixel rounding and the `'px'` suffix are not modelled.
- The tooltip's `transform` string, `querySelector` and `viewChild`/`contentChild` lookup. Each element lookup becomes an optional value or a nullable reference. The `helperText` content child is read by no logic.
- The `MouseEvent` argument of the hover handler. The code does not use it.
- The `isError` input of the helper text. It affects only styling.
- `UiField.IsRequired`: when the validator returns null, the code yields `null` rather than `false`. Every reader treats that as falsy, and the model gives `false`.
- The validator itself. It is abstracted as the set of keys with a defined value in its result for `{}`. A validator that throws is not modelled, and neither is any fault tolerance.
- `Decimal.IntToString`: it renders every integer in plain decimal. JavaScript switches to exponent notation from 1e21. Non-integer bounds are not modelled.
- Error entries (`ShowcaseForm.ErrorValue`) carry only numeric properties. A non-number property value is not modelled.
- The form definition with its 33 fields and validators, `getControl` and `onSubmit`. They are configuration of and calls into the forms library, plus console output.
- `app.component.ts`. It has no logic.

## Findings

| source | as written | input that shows it | evidently intended | confidence | as-written member | corrected member |
|---|---|---|---|---|---|---|
| src/app/examples/showcase-form/showcase-form.component.ts:210 | the lookup `hints[fieldName]` with an `''` default also reads members the record inherits from `Object.prototype` | `getHintText('toString')` returns the function `Object.prototype.toString`, not a string | `''` for every name that is not a field of the form | medium; not executed | `ShowcaseForm.InheritedNameEscapesDefault` | `ShowcaseForm.GetHintText` |
