/** `FeatureTooltip`: a tooltip over a locked feature with a title, a list of
    highlights and a call-to-action that closes the tooltip once it succeeds. */
module FeatureTooltip {
  import opened Common

  // ---------------------------------------------------------------------------
  // Highlights

  /** An icon component, by name. */
  datatype Icon = Icon(name: string)

  /** A highlight: plain text, or text with an optional icon of its own. */
  datatype Highlight =
    | TextHighlight(text: string)
    | IconHighlight(icon: Option<Icon>, text: string)

  datatype NormalizedHighlight = NormalizedHighlight(icon: Icon, text: string)

  function NormalizeHighlight(item: Highlight, highlightIcon: Icon): NormalizedHighlight
  {
    match item
    case TextHighlight(t) => NormalizedHighlight(highlightIcon, t)
    case IconHighlight(icon, t) => NormalizedHighlight(if icon.Some? then icon.value else highlightIcon, t)
  }

  /** `normalizedHighlights`: nothing for missing or empty `highlights`;
      otherwise one entry per highlight, in order, with the same text; a plain
      highlight gets `highlightIcon`, and so does one without its own icon. */
  function NormalizeHighlights(highlights: Option<seq<Highlight>>, highlightIcon: Icon): (r: seq<NormalizedHighlight>)
    ensures highlights.None? || highlights.value == [] ==> r == []
    ensures highlights.Some? ==> |r| == |highlights.value|
    ensures highlights.Some? ==> forall i :: 0 <= i < |r| ==>
      && r[i].text == highlights.value[i].text
      && r[i].icon == (if highlights.value[i].IconHighlight? && highlights.value[i].icon.Some?
                       then highlights.value[i].icon.value else highlightIcon)
  {
    if highlights.None? || |highlights.value| == 0 then []
    else seq(|highlights.value|, i requires 0 <= i < |highlights.value| => NormalizeHighlight(highlights.value[i], highlightIcon))
  }

  /** Highlights that carry no icon of their own all share `highlightIcon`, and
      changing `highlightIcon` changes nothing else. */
  lemma HighlightIconOnlyFillsGaps(hs: seq<Highlight>, a: Icon, b: Icon)
    ensures |NormalizeHighlights(Some(hs), a)| == |NormalizeHighlights(Some(hs), b)|
    ensures forall i :: 0 <= i < |hs| ==>
      && NormalizeHighlights(Some(hs), a)[i].text == NormalizeHighlights(Some(hs), b)[i].text
      && (hs[i].IconHighlight? && hs[i].icon.Some? ==>
            NormalizeHighlights(Some(hs), a)[i].icon == NormalizeHighlights(Some(hs), b)[i].icon)
  {
  }

  // ---------------------------------------------------------------------------
  // The call-to-action row

  datatype Control = Link | ActionButton

  /** The CTA row: whether it is shown, its main control, and whether the
      "Details" link follows. */
  datatype CtaRow = CtaRow(shown: bool, main: Control, details: bool)

  function CtaRowOf(ctaHref: Option<string>, hasOnCtaClick: bool): CtaRow
  {
    var hrefOnly := Truthy(ctaHref) && !hasOnCtaClick;
    CtaRow(hrefOnly || hasOnCtaClick, if hrefOnly then Link else ActionButton, Truthy(ctaHref) && hasOnCtaClick)
  }

  /** The row is shown exactly when there is an `href` or a handler; a handler
      always gets the button; "Details" appears exactly when both are set. */
  lemma CtaRowSpec(ctaHref: Option<string>, hasOnCtaClick: bool)
    ensures CtaRowOf(ctaHref, hasOnCtaClick).shown <==> Truthy(ctaHref) || hasOnCtaClick
    ensures hasOnCtaClick ==> CtaRowOf(ctaHref, hasOnCtaClick).main == ActionButton
    ensures CtaRowOf(ctaHref, hasOnCtaClick).details <==> Truthy(ctaHref) && hasOnCtaClick
  {
  }

  // ---------------------------------------------------------------------------
  // The tooltip

  datatype Call = OpenChange(open: bool) | CtaClick | CtaSuccess | CtaError(error: string)

  /** What is rendered: the children alone, or the tooltip with its open state
      and whether the error box shows. */
  datatype View = ChildrenOnly | WithTooltip(open: bool, errorShown: bool)

  class Tooltip {
    const hasOnOpenChange: bool
    const hasOnCtaClick: bool
    const hasOnCtaSuccess: bool
    const hasOnCtaError: bool
    /** The `open`, `defaultOpen` and `disabled` props, which the parent may change. */
    var open: Option<bool>
    var defaultOpen: Option<bool>
    var disabled: bool
    var internalOpen: bool
    var ctaPending: bool
    var ctaError: Option<string>
    var calls: seq<Call>

    function CurrentOpen(): bool
      reads this
    {
      if open.Some? then open.value else internalOpen
    }

    function Render(): View
      reads this
    {
      if disabled then ChildrenOnly else WithTooltip(CurrentOpen(), ctaError.Some?)
    }

    /** A disabled tooltip renders the children alone, whatever its state. */
    lemma DisabledShowsChildrenOnly(other: Tooltip)
      requires disabled && other.disabled
      ensures Render() == other.Render() == ChildrenOnly
    {
    }

    /** First render: closed unless `defaultOpen`, nothing pending, no error. */
    constructor(hasOnOpenChange: bool, hasOnCtaClick: bool, hasOnCtaSuccess: bool, hasOnCtaError: bool,
                open: Option<bool>, defaultOpen: Option<bool>, disabled: bool)
      ensures this.hasOnOpenChange == hasOnOpenChange && this.hasOnCtaClick == hasOnCtaClick
      ensures this.hasOnCtaSuccess == hasOnCtaSuccess && this.hasOnCtaError == hasOnCtaError
      ensures this.open == open && this.defaultOpen == defaultOpen && this.disabled == disabled
      ensures internalOpen == (defaultOpen == Some(true))
      ensures !ctaPending && ctaError.None? && calls == []
    {
      this.hasOnOpenChange := hasOnOpenChange;
      this.hasOnCtaClick := hasOnCtaClick;
      this.hasOnCtaSuccess := hasOnCtaSuccess;
      this.hasOnCtaError := hasOnCtaError;
      this.open := open;
      this.defaultOpen := defaultOpen;
      this.disabled := disabled;
      internalOpen := defaultOpen == Some(true);
      ctaPending := false;
      ctaError := None;
      calls := [];
    }

    /** The effect on `[defaultOpen, isControlled]`: an uncontrolled tooltip with
        a defined `defaultOpen` takes it as its state. */
    method DefaultOpenEffect()
      modifies this
      ensures internalOpen == (if open.None? && defaultOpen.Some? then defaultOpen.value else old(internalOpen))
      ensures open == old(open) && defaultOpen == old(defaultOpen) && disabled == old(disabled)
      ensures ctaPending == old(ctaPending) && ctaError == old(ctaError) && calls == old(calls)
    {
      if open.None? && defaultOpen.Some? {
        internalOpen := defaultOpen.value;
      }
    }

    /** The parent re-renders with new `open` and `defaultOpen` props; the
        effect runs when `defaultOpen` or controlledness changed. */
    method SetProps(o: Option<bool>, d: Option<bool>)
      modifies this
      ensures open == o && defaultOpen == d && disabled == old(disabled)
      ensures var rerun := d != old(defaultOpen) || o.Some? != old(open).Some?;
        internalOpen == (if rerun && o.None? && d.Some? then d.value else old(internalOpen))
      ensures ctaPending == old(ctaPending) && ctaError == old(ctaError) && calls == old(calls)
    {
      var rerun := d != defaultOpen || o.Some? != open.Some?;
      open := o;
      defaultOpen := d;
      if rerun {
        DefaultOpenEffect();
      }
    }

    /** `setOpen(next)`: internal state only when uncontrolled; `onOpenChange` always. */
    method SetOpen(next: bool)
      modifies this
      ensures internalOpen == (if open.None? then next else old(internalOpen))
      ensures open.None? ==> CurrentOpen() == next
      ensures calls == Fire(old(calls), hasOnOpenChange, OpenChange(next))
      ensures open == old(open) && defaultOpen == old(defaultOpen) && disabled == old(disabled)
      ensures ctaPending == old(ctaPending) && ctaError == old(ctaError)
    {
      if open.None? {
        internalOpen := next;
      }
      calls := Fire(calls, hasOnOpenChange, OpenChange(next));
    }

    /** `handleCta` up to its `await`: pending on, error cleared, handler invoked. */
    method BeginCta()
      requires hasOnCtaClick
      modifies this
      ensures ctaPending && ctaError.None?
      ensures calls == old(calls) + [CtaClick]
      ensures open == old(open) && internalOpen == old(internalOpen)
      ensures defaultOpen == old(defaultOpen) && disabled == old(disabled)
    {
      ctaPending := true;
      ctaError := None;
      calls := calls + [CtaClick];
    }

    /** `handleCta` after its `await`: on success `onCtaSuccess` and then close;
        on failure keep the error and call `onCtaError`, staying open. Pending
        ends false either way. */
    method SettleCta(outcome: Outcome)
      modifies this
      ensures !ctaPending
      ensures outcome.Resolved? ==>
        && ctaError == old(ctaError)
        && calls == Fire(Fire(old(calls), hasOnCtaSuccess, CtaSuccess), hasOnOpenChange, OpenChange(false))
        && internalOpen == (if open.None? then false else old(internalOpen))
      ensures outcome.Rejected? ==>
        && ctaError == Some(outcome.reason)
        && calls == Fire(old(calls), hasOnCtaError, CtaError(outcome.reason))
        && internalOpen == old(internalOpen)
      ensures open == old(open) && defaultOpen == old(defaultOpen) && disabled == old(disabled)
    {
      match outcome {
        case Resolved =>
          calls := Fire(calls, hasOnCtaSuccess, CtaSuccess);
          SetOpen(false);
        case Rejected(e) =>
          ctaError := Some(e);
          calls := Fire(calls, hasOnCtaError, CtaError(e));
      }
      ctaPending := false;
    }

    /** `handleCta` run to completion: nothing without `onCtaClick`. */
    method HandleCta(outcome: Outcome)
      modifies this
      ensures !hasOnCtaClick ==>
        && ctaPending == old(ctaPending) && ctaError == old(ctaError)
        && calls == old(calls) && internalOpen == old(internalOpen)
      ensures hasOnCtaClick ==> !ctaPending
      ensures hasOnCtaClick ==> ctaError == (if outcome.Rejected? then Some(outcome.reason) else None)
      ensures hasOnCtaClick && outcome.Resolved? ==>
        && calls == Fire(Fire(old(calls) + [CtaClick], hasOnCtaSuccess, CtaSuccess), hasOnOpenChange, OpenChange(false))
        && (open.None? ==> !CurrentOpen())
      ensures hasOnCtaClick && outcome.Rejected? ==>
        && calls == Fire(old(calls) + [CtaClick], hasOnCtaError, CtaError(outcome.reason))
        && internalOpen == old(internalOpen)
      ensures open == old(open) && defaultOpen == old(defaultOpen) && disabled == old(disabled)
    {
      if !hasOnCtaClick {
        return;
      }
      BeginCta();
      SettleCta(outcome);
    }
  }
}
