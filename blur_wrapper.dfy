/** `BlurWrapper`: blurs its children while a feature is locked and shows an
    overlay (a dialog or an inline panel) with an asynchronous confirm action
    and an optional secondary action. */
module BlurWrapper {
  import opened Common

  // ---------------------------------------------------------------------------
  // Inline panel position

  datatype InlinePosition =
    | LeftTop | LeftCenter | LeftBottom
    | CenterTop | CenterCenter | CenterBottom
    | RightTop | RightCenter | RightBottom

  /** The table inside `getPositionClasses`: the justify and the items class of each position. */
  function PositionTable(p: InlinePosition): (string, string)
  {
    match p
    case LeftTop => ("justify-start", "items-start")
    case LeftCenter => ("justify-start", "items-center")
    case LeftBottom => ("justify-start", "items-end")
    case CenterTop => ("justify-center", "items-start")
    case CenterCenter => ("justify-center", "items-center")
    case CenterBottom => ("justify-center", "items-end")
    case RightTop => ("justify-end", "items-start")
    case RightCenter => ("justify-end", "items-center")
    case RightBottom => ("justify-end", "items-end")
  }

  /** `getPositionClasses(position)`: `"<justify> <items>"`, with `centerCenter`
      for a missing position. */
  function PositionClasses(position: Option<InlinePosition>): string
  {
    var value := if position.Some? then position.value else CenterCenter;
    PositionTable(value).0 + " " + PositionTable(value).1
  }

  /** Where a position's name puts the panel across: 0 left, 1 centre, 2 right. */
  function Column(p: InlinePosition): (c: nat)
    ensures c < 3
  {
    match p
    case LeftTop | LeftCenter | LeftBottom => 0
    case CenterTop | CenterCenter | CenterBottom => 1
    case RightTop | RightCenter | RightBottom => 2
  }

  /** Where a position's name puts the panel down: 0 top, 1 centre, 2 bottom. */
  function Row(p: InlinePosition): (r: nat)
    ensures r < 3
  {
    match p
    case LeftTop | CenterTop | RightTop => 0
    case LeftCenter | CenterCenter | RightCenter => 1
    case LeftBottom | CenterBottom | RightBottom => 2
  }

  const Justify: seq<string> := ["justify-start", "justify-center", "justify-end"]
  const Items: seq<string> := ["items-start", "items-center", "items-end"]

  /** The horizontal word of a position's name alone picks the justify class,
      and the vertical word alone picks the items class; a missing position means the centre. */
  lemma PositionTableByAxis(p: InlinePosition)
    ensures PositionTable(p) == (Justify[Column(p)], Items[Row(p)])
    ensures PositionClasses(None) == PositionClasses(Some(CenterCenter))
  {
  }

  /** Distinct positions get distinct class pairs. */
  lemma PositionTableInjective(p: InlinePosition, q: InlinePosition)
    requires PositionTable(p) == PositionTable(q)
    ensures p == q
  {
  }

  // ---------------------------------------------------------------------------
  // Labels

  /** The single label props, after their declared defaults. */
  datatype LabelProps = LabelProps(
    confirmLabel: string,
    pendingLabel: string,
    dialogTitle: string,
    dialogDescription: string,
    errorMessage: string,
    secondaryLabel: Option<string>,
    secondaryPendingLabel: string)

  const DefaultLabelProps := LabelProps(
    "Confirm",
    "Working...",
    "Feature unavailable",
    "This feature is currently not accessible. You may need additional permissions or a higher plan.",
    "Something went wrong. Please try again.",
    None,
    "Working...")

  /** The `labels` prop: any field may be missing. */
  datatype PartialLabels = PartialLabels(
    confirm: Option<string>,
    pending: Option<string>,
    title: Option<string>,
    description: Option<string>,
    error: Option<string>,
    secondary: Option<string>,
    secondaryPending: Option<string>)

  datatype Labels = Labels(
    confirm: string,
    pending: string,
    title: string,
    description: string,
    error: string,
    secondary: Option<string>,
    secondaryPending: string)

  /** `labels?.field ?? fallback`. */
  function Pick(field: Option<string>, fallback: string): string
  {
    if field.Some? then field.value else fallback
  }

  /** `normalizedLabels`: each field from `labels` when given there, else from
      the single prop. */
  function NormalizeLabels(labels: Option<PartialLabels>, props: LabelProps): Labels
  {
    match labels
    case None =>
      Labels(props.confirmLabel, props.pendingLabel, props.dialogTitle, props.dialogDescription,
             props.errorMessage, props.secondaryLabel, props.secondaryPendingLabel)
    case Some(l) =>
      Labels(
        Pick(l.confirm, props.confirmLabel),
        Pick(l.pending, props.pendingLabel),
        Pick(l.title, props.dialogTitle),
        Pick(l.description, props.dialogDescription),
        Pick(l.error, props.errorMessage),
        if l.secondary.Some? then l.secondary else props.secondaryLabel,
        Pick(l.secondaryPending, props.secondaryPendingLabel))
  }

  /** A field set in `labels` wins; a field missing there, or no `labels` at all,
      falls back to the single prop. */
  lemma NormalizeLabelsFieldwise(labels: Option<PartialLabels>, props: LabelProps)
    ensures var r := NormalizeLabels(labels, props);
      && (labels.Some? && labels.value.confirm.Some? ==> r.confirm == labels.value.confirm.value)
      && (labels.None? || labels.value.confirm.None? ==> r.confirm == props.confirmLabel)
      && (labels.Some? && labels.value.pending.Some? ==> r.pending == labels.value.pending.value)
      && (labels.None? || labels.value.pending.None? ==> r.pending == props.pendingLabel)
      && (labels.Some? && labels.value.title.Some? ==> r.title == labels.value.title.value)
      && (labels.None? || labels.value.title.None? ==> r.title == props.dialogTitle)
      && (labels.Some? && labels.value.description.Some? ==> r.description == labels.value.description.value)
      && (labels.None? || labels.value.description.None? ==> r.description == props.dialogDescription)
      && (labels.Some? && labels.value.error.Some? ==> r.error == labels.value.error.value)
      && (labels.None? || labels.value.error.None? ==> r.error == props.errorMessage)
      && (labels.Some? && labels.value.secondary.Some? ==> r.secondary == labels.value.secondary)
      && (labels.None? || labels.value.secondary.None? ==> r.secondary == props.secondaryLabel)
      && (labels.Some? && labels.value.secondaryPending.Some? ==> r.secondaryPending == labels.value.secondaryPending.value)
      && (labels.None? || labels.value.secondaryPending.None? ==> r.secondaryPending == props.secondaryPendingLabel)
  {
  }

  /** An empty `labels` object changes nothing: it normalises like no `labels`. */
  lemma EmptyLabelsObject(props: LabelProps)
    ensures NormalizeLabels(Some(PartialLabels(None, None, None, None, None, None, None)), props)
         == NormalizeLabels(None, props)
  {
  }

  // ---------------------------------------------------------------------------
  // Visual flags

  datatype BlurIntensity = Sm | Md | Lg | Xl | Xl2 | Xl3

  /** `intensityToClass`. */
  function IntensityClass(i: BlurIntensity): string
  {
    match i
    case Sm => "blur-sm"
    case Md => "blur-md"
    case Lg => "blur-lg"
    case Xl => "blur-xl"
    case Xl2 => "blur-2xl"
    case Xl3 => "blur-3xl"
  }

  /** How the children are drawn: the blur class, the pixel blur of the inline
      `filter` style, the interaction class and the opacity style. */
  datatype Visuals = Visuals(filterClass: string, filterPx: Option<real>, interactionClass: string, opacity: Option<real>)

  /** The visual flags derived from the props. */
  function VisualFlags(isBlurred: bool, blurPx: Option<real>, intensity: BlurIntensity,
                       disablePointerEvents: bool, dimOpacity: real): Visuals
  {
    Visuals(
      if blurPx.None? then (if isBlurred then IntensityClass(intensity) else "") else "",
      if blurPx.Some? && isBlurred then blurPx else None,
      if isBlurred && disablePointerEvents then "pointer-events-none select-none" else "",
      if isBlurred then Some(dimOpacity) else None)
  }

  /** A pixel blur replaces the intensity class and appears only while blurred;
      without it the intensity class appears only while blurred; pointer events
      are off exactly when blurred with `disablePointerEvents`; dimming applies
      only while blurred. */
  lemma VisualFlagsSpec(isBlurred: bool, blurPx: Option<real>, intensity: BlurIntensity,
                        disablePointerEvents: bool, dimOpacity: real)
    ensures var v := VisualFlags(isBlurred, blurPx, intensity, disablePointerEvents, dimOpacity);
      && (blurPx.Some? ==> v.filterClass == "" && (v.filterPx.Some? <==> isBlurred))
      && (blurPx.None? ==> v.filterPx.None? && (v.filterClass != "" <==> isBlurred))
      && (v.interactionClass != "" <==> isBlurred && disablePointerEvents)
      && (v.opacity.Some? <==> isBlurred)
  {
  }

  /** Content that is not blurred is drawn as it is, whatever the other props. */
  lemma UnblurredIsPlain(blurPx: Option<real>, intensity: BlurIntensity, disablePointerEvents: bool, dimOpacity: real)
    ensures VisualFlags(false, blurPx, intensity, disablePointerEvents, dimOpacity) == Visuals("", None, "", None)
  {
  }

  // ---------------------------------------------------------------------------
  // Open state and the confirm actions

  /** The primary (`onConfirm`) and the secondary (`onSecondaryConfirm`) action. */
  datatype Action = Primary | Secondary

  datatype ConfirmResult = Success | Failure

  /** The callbacks the wrapper invokes, in the order it invokes them. */
  datatype Call =
    | OpenChange(open: bool)
    | Invoked(action: Action)
    | ActionError(action: Action, error: string)
    | ActionFinally(action: Action, result: ConfirmResult)
    | Unblur

  /** The props that stay fixed while the wrapper is mounted; `has*` says which
      callback props are present. */
  datatype Props = Props(
    showOverlayOnBlur: Option<bool>,
    showDialogOnBlur: Option<bool>,
    autoCloseDialogOnConfirm: bool,
    autoUnblurOnConfirm: bool,
    resetErrorOnOpenChange: bool,
    hasOnOpenChange: bool,
    hasOnConfirm: bool,
    hasOnConfirmError: bool,
    hasOnConfirmFinally: bool,
    hasOnSecondaryConfirm: bool,
    hasOnSecondaryConfirmError: bool,
    hasOnSecondaryConfirmFinally: bool,
    hasOnUnblur: bool)

  /** `showOverlayOnBlur ?? showDialogOnBlur ?? true`. */
  function ShouldAutoOpen(p: Props): bool
  {
    if p.showOverlayOnBlur.Some? then p.showOverlayOnBlur.value
    else if p.showDialogOnBlur.Some? then p.showDialogOnBlur.value
    else true
  }

  /** `effectiveOpen`: the `open` prop when controlled, else the internal state,
      which before any change falls back to `isBlurred && shouldAutoOpen`. */
  function EffectiveOpen(open: Option<bool>, internalOpen: Option<bool>, isBlurred: bool, p: Props): (r: bool)
    ensures open.Some? ==> r == open.value
    ensures open.None? && internalOpen.Some? ==> r == internalOpen.value
    ensures open.None? && internalOpen.None? ==> (r <==> isBlurred && ShouldAutoOpen(p))
  {
    if open.Some? then open.value
    else if internalOpen.Some? then internalOpen.value
    else isBlurred && ShouldAutoOpen(p)
  }

  /** The newer `showOverlayOnBlur` wins over the deprecated `showDialogOnBlur`. */
  lemma OverlayFlagWins(p: Props)
    requires p.showOverlayOnBlur.Some?
    ensures EffectiveOpen(None, None, true, p) == p.showOverlayOnBlur.value
  {
  }

  class Wrapper {
    const props: Props
    /** The `open` prop, fixed at construction, and the `isBlurred` prop, which
        the parent may change through `SetBlurred`. */
    var open: Option<bool>
    var isBlurred: bool
    var internalOpen: Option<bool>
    var error: Option<string>
    var isPending: bool
    var isSecondaryPending: bool
    var calls: seq<Call>

    function Open(): bool
      reads this
    {
      EffectiveOpen(open, internalOpen, isBlurred, props)
    }

    function HasHandler(a: Action): bool
      reads this
    {
      if a == Primary then props.hasOnConfirm else props.hasOnSecondaryConfirm
    }

    function HasErrorHandler(a: Action): bool
      reads this
    {
      if a == Primary then props.hasOnConfirmError else props.hasOnSecondaryConfirmError
    }

    function HasFinallyHandler(a: Action): bool
      reads this
    {
      if a == Primary then props.hasOnConfirmFinally else props.hasOnSecondaryConfirmFinally
    }

    function PendingOf(a: Action): bool
      reads this
    {
      if a == Primary then isPending else isSecondaryPending
    }

    /** First render, before effects: internal state unset, no error, nothing pending. */
    constructor(props: Props, open: Option<bool>, isBlurred: bool)
      ensures this.props == props && this.open == open && this.isBlurred == isBlurred
      ensures internalOpen.None? && error.None? && !isPending && !isSecondaryPending && calls == []
    {
      this.props := props;
      this.open := open;
      this.isBlurred := isBlurred;
      internalOpen := None;
      error := None;
      isPending := false;
      isSecondaryPending := false;
      calls := [];
    }

    /** The effect on `[controlled, defaultOpen, isBlurred]`: an uncontrolled
        wrapper opens when it should auto-open and closes when unblurred. */
    method SyncEffect()
      modifies this
      ensures open.Some? ==> internalOpen == old(internalOpen)
      ensures open.None? && !isBlurred ==> internalOpen == Some(false)
      ensures open.None? && isBlurred && ShouldAutoOpen(props) ==> internalOpen == Some(true)
      ensures open.None? && isBlurred && !ShouldAutoOpen(props) ==> internalOpen == old(internalOpen)
      ensures open == old(open) && isBlurred == old(isBlurred) && error == old(error)
      ensures isPending == old(isPending) && isSecondaryPending == old(isSecondaryPending) && calls == old(calls)
    {
      if open.Some? {
        return;
      }
      if isBlurred && ShouldAutoOpen(props) {
        internalOpen := Some(true);
      }
      if !isBlurred {
        internalOpen := Some(false);
      }
    }

    /** The effect on `[effectiveOpen, resetErrorOnOpenChange]`. */
    method ResetErrorEffect()
      modifies this
      ensures error == (if props.resetErrorOnOpenChange then None else old(error))
      ensures open == old(open) && isBlurred == old(isBlurred) && internalOpen == old(internalOpen)
      ensures isPending == old(isPending) && isSecondaryPending == old(isSecondaryPending) && calls == old(calls)
    {
      if props.resetErrorOnOpenChange {
        error := None;
      }
    }

    /** After the first render the effects run in declaration order: the sync
        effect, then the error reset. An uncontrolled wrapper then shows the
        overlay exactly when it is blurred and should auto-open. */
    method Mount()
      requires internalOpen.None?
      modifies this
      ensures open.None? ==> (Open() <==> isBlurred && ShouldAutoOpen(props))
      ensures open.Some? ==> internalOpen.None?
      ensures error == (if props.resetErrorOnOpenChange then None else old(error))
      ensures open == old(open) && isBlurred == old(isBlurred)
      ensures isPending == old(isPending) && isSecondaryPending == old(isSecondaryPending) && calls == old(calls)
    {
      SyncEffect();
      ResetErrorEffect();
    }

    /** The parent re-renders with a new `isBlurred`: the sync effect runs when it
        changed, then the error reset when what is shown changed. An uncontrolled
        wrapper that is unblurred closes. */
    method SetBlurred(b: bool)
      modifies this
      ensures isBlurred == b && open == old(open)
      ensures b != old(isBlurred) && open.None? && !b ==> internalOpen == Some(false) && !Open()
      ensures b != old(isBlurred) && open.None? && b && ShouldAutoOpen(props) ==> internalOpen == Some(true) && Open()
      ensures b == old(isBlurred) || open.Some? ==> internalOpen == old(internalOpen)
      ensures error == (if Open() != old(Open()) && props.resetErrorOnOpenChange then None else old(error))
      ensures isPending == old(isPending) && isSecondaryPending == old(isSecondaryPending) && calls == old(calls)
    {
      var wasOpen := Open();
      var changed := b != isBlurred;
      isBlurred := b;
      if changed {
        SyncEffect();
      }
      if wasOpen != Open() {
        ResetErrorEffect();
      }
    }

    /** `handleOpenChange(next)`, followed by the error reset when what is shown changed. */
    method HandleOpenChange(next: bool)
      modifies this
      ensures internalOpen == (if open.None? then Some(next) else old(internalOpen))
      ensures calls == Fire(old(calls), props.hasOnOpenChange, OpenChange(next))
      ensures open.None? ==> Open() == next
      ensures error == (if Open() != old(Open()) && props.resetErrorOnOpenChange then None else old(error))
      ensures open == old(open) && isBlurred == old(isBlurred)
      ensures isPending == old(isPending) && isSecondaryPending == old(isSecondaryPending)
    {
      var wasOpen := Open();
      if open.None? {
        internalOpen := Some(next);
      }
      calls := Fire(calls, props.hasOnOpenChange, OpenChange(next));
      if wasOpen != Open() {
        ResetErrorEffect();
      }
    }

    /** A confirm action up to its `await`: error reset, pending on, handler invoked. */
    method BeginAction(a: Action)
      modifies this
      ensures error.None? && PendingOf(a)
      ensures a == Primary ==> isSecondaryPending == old(isSecondaryPending)
      ensures a == Secondary ==> isPending == old(isPending)
      ensures calls == Fire(old(calls), HasHandler(a), Invoked(a))
      ensures open == old(open) && isBlurred == old(isBlurred) && internalOpen == old(internalOpen)
    {
      error := None;
      if a == Primary {
        isPending := true;
      } else {
        isSecondaryPending := true;
      }
      calls := Fire(calls, HasHandler(a), Invoked(a));
    }

    /** The whole effect of a confirm action whose awaited handler ends with
        `outcome` (a missing handler counts as success). On success:
        `finally("success")`, then `onUnblur` when `autoUnblurOnConfirm`, then
        close when `autoCloseDialogOnConfirm`, and no error. On failure: the error
        is kept, the error callback and then `finally("error")` run, and the
        wrapper neither unblurs nor closes. The action's pending flag ends false. */
    twostate predicate ActionDone(a: Action, outcome: Outcome)
      reads this
    {
      var result := if HasHandler(a) then outcome else Resolved;
      var started := Fire(old(calls), HasHandler(a), Invoked(a));
      && !PendingOf(a)
      && (a == Primary ==> isSecondaryPending == old(isSecondaryPending))
      && (a == Secondary ==> isPending == old(isPending))
      && (result.Resolved? ==>
            var finished := Fire(started, HasFinallyHandler(a), ActionFinally(a, Success));
            var unblurred := Fire(finished, props.autoUnblurOnConfirm && props.hasOnUnblur, Unblur);
            && error.None?
            && calls == (if props.autoCloseDialogOnConfirm
                         then Fire(unblurred, props.hasOnOpenChange, OpenChange(false)) else unblurred)
            && internalOpen == (if props.autoCloseDialogOnConfirm && open.None? then Some(false) else old(internalOpen)))
      && (result.Rejected? ==>
            && error == Some(result.reason)
            && calls == Fire(Fire(started, HasErrorHandler(a), ActionError(a, result.reason)),
                             HasFinallyHandler(a), ActionFinally(a, Failure))
            && internalOpen == old(internalOpen))
      && open == old(open) && isBlurred == old(isBlurred)
    }

    /** A confirm action after its `await`. */
    method SettleAction(a: Action, outcome: Outcome)
      requires error.None?
      modifies this
      ensures var result := if HasHandler(a) then outcome else Resolved;
        && !PendingOf(a)
        && (a == Primary ==> isSecondaryPending == old(isSecondaryPending))
        && (a == Secondary ==> isPending == old(isPending))
        && (result.Resolved? ==>
              var finished := Fire(old(calls), HasFinallyHandler(a), ActionFinally(a, Success));
              var unblurred := Fire(finished, props.autoUnblurOnConfirm && props.hasOnUnblur, Unblur);
              && error.None?
              && calls == (if props.autoCloseDialogOnConfirm
                           then Fire(unblurred, props.hasOnOpenChange, OpenChange(false)) else unblurred)
              && internalOpen == (if props.autoCloseDialogOnConfirm && open.None? then Some(false) else old(internalOpen)))
        && (result.Rejected? ==>
              && error == Some(result.reason)
              && calls == Fire(Fire(old(calls), HasErrorHandler(a), ActionError(a, result.reason)),
                               HasFinallyHandler(a), ActionFinally(a, Failure))
              && internalOpen == old(internalOpen))
        && open == old(open) && isBlurred == old(isBlurred)
    {
      var result := if HasHandler(a) then outcome else Resolved;
      match result {
        case Resolved =>
          ConfirmSucceeded(a);
        case Rejected(e) =>
          error := Some(e);
          calls := Fire(calls, HasErrorHandler(a), ActionError(a, e));
          calls := Fire(calls, HasFinallyHandler(a), ActionFinally(a, Failure));
      }
      if a == Primary {
        isPending := false;
      } else {
        isSecondaryPending := false;
      }
    }

    /** The success path of a confirm action: finally("success"), then the
        unblur and the close that the props ask for. */
    method ConfirmSucceeded(a: Action)
      requires error.None?
      modifies this
      ensures var finished := Fire(old(calls), HasFinallyHandler(a), ActionFinally(a, Success));
        var unblurred := Fire(finished, props.autoUnblurOnConfirm && props.hasOnUnblur, Unblur);
        && error.None?
        && calls == (if props.autoCloseDialogOnConfirm
                     then Fire(unblurred, props.hasOnOpenChange, OpenChange(false)) else unblurred)
        && internalOpen == (if props.autoCloseDialogOnConfirm && open.None? then Some(false) else old(internalOpen))
      ensures open == old(open) && isBlurred == old(isBlurred)
      ensures isPending == old(isPending) && isSecondaryPending == old(isSecondaryPending)
    {
      calls := Fire(calls, HasFinallyHandler(a), ActionFinally(a, Success));
      if props.autoUnblurOnConfirm {
        calls := Fire(calls, props.hasOnUnblur, Unblur);
      }
      if props.autoCloseDialogOnConfirm {
        HandleOpenChange(false);
      }
    }

    /** `handleConfirm()`, run to completion. */
    method HandleConfirm(outcome: Outcome)
      modifies this
      ensures ActionDone(Primary, outcome)
    {
      BeginAction(Primary);
      SettleAction(Primary, outcome);
    }

    /** `handleSecondaryConfirm()`, run to completion. */
    method HandleSecondaryConfirm(outcome: Outcome)
      modifies this
      ensures ActionDone(Secondary, outcome)
    {
      BeginAction(Secondary);
      SettleAction(Secondary, outcome);
    }

    /** `onInlineKeyDown`: Enter confirms, Escape closes, other keys do nothing. */
    method OnInlineKeyDown(key: string, outcome: Outcome)
      modifies this
      ensures key == "Enter" ==> ActionDone(Primary, outcome)
      ensures key == "Escape" ==>
        && internalOpen == (if open.None? then Some(false) else old(internalOpen))
        && calls == Fire(old(calls), props.hasOnOpenChange, OpenChange(false))
        && (open.None? ==> !Open())
        && error == (if Open() != old(Open()) && props.resetErrorOnOpenChange then None else old(error))
        && isPending == old(isPending) && isSecondaryPending == old(isSecondaryPending)
      ensures key != "Enter" && key != "Escape" ==>
        && internalOpen == old(internalOpen) && error == old(error) && calls == old(calls)
        && isPending == old(isPending) && isSecondaryPending == old(isSecondaryPending)
      ensures key != "Enter" ==> open == old(open) && isBlurred == old(isBlurred)
    {
      if key == "Enter" {
        HandleConfirm(outcome);
      } else if key == "Escape" {
        HandleOpenChange(false);
      }
    }
  }
}
