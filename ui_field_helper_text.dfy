/**
 * The helper-text component (`UiFieldHelperTextComponent`): one line of text
 * that may be clipped, an exclamation mark shown when it is, and a tooltip
 * placed over the mark on hover.
 *
 * Whether the text is clipped is measured, not computed: each measurement
 * probe compares the text element's scroll width with its client width. The
 * widths are the parameters of the probe, as they are read at the moment the
 * probe runs. The overflow effect probes once at once and leaves two deferred
 * probes behind it (a zero-delay timeout and an animation frame); the
 * environment runs those later through `CheckOverflow`.
 */
module UiFieldHelperText {
  import opened Optional
  import opened Dom

  const HelperHeightProperty: string := "--helper-height"
  /** The tooltip's bottom edge sits this far above the mark. */
  const TooltipGap: real := 8.0
  /** Scroll width may exceed client width by this much before text counts as clipped. */
  const RoundingTolerance: int := 1
  /** Probes the overflow effect schedules behind its immediate one. */
  const DeferredProbes: nat := 2

  /** What one probe reads from the text element. */
  datatype Widths = Widths(scrollWidth: int, clientWidth: int)

  /** The mark's bounding box, as far as placement uses it. */
  datatype Rect = Rect(left: real, top: real, width: real)

  datatype Placement = Placement(left: real, top: real)

  /** The tooltip's inline `left` and `top`; `None` until first placed. */
  class TooltipElement {
    var left: Option<real>
    var top: Option<real>

    constructor ()
      ensures left.None? && top.None?
    {
      left, top := None, None;
    }
  }

  /** The exclamation mark: its box and its `.tooltip` child, null when it has none. */
  datatype ExclamationView = ExclamationView(rect: Rect, tooltip: TooltipElement?)

  /** The text element: only its parent element, null when it has none, is written. */
  datatype TextElementView = TextElementView(parent: StyledElement?)

  /** One probe: text is clipped when it is wider than its box by more than the tolerance. */
  predicate Overflows(w: Widths)
    ensures Overflows(w) <==> w.scrollWidth - w.clientWidth > RoundingTolerance
    ensures Overflows(w) ==> w.scrollWidth > w.clientWidth
  {
    w.scrollWidth > w.clientWidth + RoundingTolerance
  }

  /** The overflow cell after a trace of probes, applied in the order they ran. */
  function Settle(start: bool, probes: seq<Widths>): bool
    decreases |probes|
  {
    if probes == [] then start else Settle(Overflows(probes[0]), probes[1..])
  }

  /** The most recently completed probe decides, whatever came before it. */
  lemma {:induction false} SettleIsLastProbe(start: bool, probes: seq<Widths>)
    requires |probes| > 0
    ensures Settle(start, probes) == Overflows(probes[|probes| - 1])
    decreases |probes|
  {
    if |probes| > 1 {
      SettleIsLastProbe(Overflows(probes[0]), probes[1..]);
    }
  }

  /** Probing again with unchanged widths leaves the cell unchanged. */
  lemma RepeatedProbeIdempotent(start: bool, probes: seq<Widths>, w: Widths)
    ensures Settle(start, probes + [w, w]) == Settle(start, probes + [w])
  {
    SettleIsLastProbe(start, probes + [w, w]);
    SettleIsLastProbe(start, probes + [w]);
  }

  /**
   * Layout that settles late: a stale immediate probe is overruled by the
   * deferred ones, whichever way it went.
   */
  lemma DeferredProbeOverrules(start: bool, immediate: Widths, deferred: seq<Widths>)
    requires |deferred| > 0
    ensures Settle(start, [immediate] + deferred) == Overflows(deferred[|deferred| - 1])
    ensures var last := deferred[|deferred| - 1];
      last.scrollWidth > last.clientWidth + RoundingTolerance ==> Settle(start, [immediate] + deferred)
    ensures var last := deferred[|deferred| - 1];
      last.scrollWidth <= last.clientWidth + RoundingTolerance ==> !Settle(start, [immediate] + deferred)
  {
    SettleIsLastProbe(start, [immediate] + deferred);
  }

  /** `showExclamation`: the mark needs text, and text that overflowed. */
  predicate ShowExclamation(text: string, hasOverflow: bool)
    ensures ShowExclamation(text, hasOverflow) ==> hasOverflow && text != ""
  {
    |text| > 0 && hasOverflow
  }

  /** The empty-text guard dominates a stale overflow flag; non-empty text follows the flag. */
  lemma ExclamationNeedsText(text: string, hasOverflow: bool)
    ensures text == "" ==> !ShowExclamation(text, hasOverflow)
    ensures text != "" ==> (ShowExclamation(text, hasOverflow) <==> hasOverflow)
  {
  }

  /** `displayText`: the text is shown unchanged; clipping to one line is left to styling. */
  function DisplayText(text: string): (shown: string)
    ensures shown == text
  {
    text
  }

  /** Hover placement: centred over the mark, `TooltipGap` above its top edge. */
  function TooltipPlacement(rect: Rect): (p: Placement)
    ensures p.left - rect.left == (rect.left + rect.width) - p.left
    ensures rect.top - p.top == TooltipGap
  {
    Placement(rect.left + rect.width / 2.0, rect.top - TooltipGap)
  }

  lemma TooltipPlacementExample()
    ensures TooltipPlacement(Rect(100.0, 50.0, 40.0)) == Placement(120.0, 42.0)
  {
  }

  class UiFieldHelperTextComponent {
    var height: string
    var text: string
    var isError: bool
    var hasOverflow: bool
    var textElement: Option<TextElementView>
    var exclamationElement: Option<ExclamationView>

    constructor (textElement: Option<TextElementView>, exclamationElement: Option<ExclamationView>)
      ensures height == "20px" && text == "" && !isError && !hasOverflow
      ensures this.textElement == textElement && this.exclamationElement == exclamationElement
    {
      height, text, isError, hasOverflow := "20px", "", false, false;
      this.textElement, this.exclamationElement := textElement, exclamationElement;
    }

    predicate ShowsExclamation()
      reads this
    {
      ShowExclamation(text, hasOverflow)
    }

    /** `checkOverflow`: one probe, which stores its own verdict and nothing else. */
    method CheckOverflow(w: Widths)
      modifies this`hasOverflow
      ensures hasOverflow == Settle(old(hasOverflow), [w])
    {
      hasOverflow := Overflows(w);
    }

    /**
     * The overflow effect: with a text element and non-empty text it probes
     * at once and leaves `DeferredProbes` probes pending; otherwise it clears
     * the cell and schedules nothing.
     */
    method RunOverflowEffect(now: Widths) returns (pending: nat)
      modifies this`hasOverflow
      ensures textElement.Some? && text != "" ==> hasOverflow == Overflows(now) && pending == DeferredProbes
      ensures !(textElement.Some? && text != "") ==> !hasOverflow && pending == 0
    {
      if textElement.Some? && text != "" {
        CheckOverflow(now);
        pending := DeferredProbes;
      } else {
        hasOverflow := false;
        pending := 0;
      }
    }

    /** The element `--helper-height` is written to: the text element's parent. */
    function HeightTarget(): StyledElement?
      reads this
    {
      if textElement.Some? then textElement.value.parent else null
    }

    /** The height effect: copies the height input onto the parent's custom property. */
    method ApplyHeight()
      modifies HeightTarget()
      ensures HeightTarget() != null ==>
        HeightTarget().style == old(HeightTarget().style)[HelperHeightProperty := height]
    {
      var heightValue := height;
      var element := HeightTarget();
      if element != null {
        element.SetProperty(HelperHeightProperty, heightValue);
      }
    }

    /** The tooltip a hover places: the mark's `.tooltip` child, null when either is missing. */
    function HoverTarget(): TooltipElement?
      reads this
    {
      if exclamationElement.Some? then exclamationElement.value.tooltip else null
    }

    /** `onExclamationHover`: places the tooltip over the mark; without mark or tooltip it changes nothing. */
    method OnExclamationHover()
      modifies HoverTarget()
      ensures HoverTarget() != null ==>
        var p := TooltipPlacement(exclamationElement.value.rect);
        HoverTarget().left == Some(p.left) && HoverTarget().top == Some(p.top)
    {
      if exclamationElement.None? {
        return;
      }
      var tooltip := exclamationElement.value.tooltip;
      if tooltip == null {
        return;
      }
      var rect := exclamationElement.value.rect;
      tooltip.left := Some(rect.left + rect.width / 2.0);
      tooltip.top := Some(rect.top - TooltipGap);
    }
  }

  /**
   * A client run: the immediate probe reads pre-layout widths, the deferred
   * ones the settled widths, and the last one decides. Clearing the text then
   * clears the cell, yet a deferred probe still pending from the earlier run
   * can set it again; the mark stays hidden because the text is empty.
   */
  method OverflowScenario(el: TextElementView)
  {
    var c := new UiFieldHelperTextComponent(Some(el), None);
    c.text := "a long helper text";
    var pending := c.RunOverflowEffect(Widths(100, 100));
    assert pending == 2 && !c.hasOverflow;
    c.CheckOverflow(Widths(180, 100));
    c.CheckOverflow(Widths(180, 100));
    assert c.hasOverflow && c.ShowsExclamation();
    c.text := "";
    pending := c.RunOverflowEffect(Widths(0, 100));
    assert pending == 0 && !c.hasOverflow;
    c.CheckOverflow(Widths(180, 100));
    assert c.hasOverflow && !c.ShowsExclamation();
  }
}
