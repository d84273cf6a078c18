/** `PaywallBanner`: an inline banner with a primary and a secondary action and
    a dismiss button. With a storage key, dismissal is remembered in
    `localStorage` and the banner stays hidden until that record is checked. */
module PaywallBanner {
  import opened Common
  import opened Browser

  /** The value a dismissal leaves under the storage key. */
  const DismissedMarker := "dismissed"

  // ---------------------------------------------------------------------------
  // Action controls

  /** How an action is offered: a link to its `href`, or a button running its handler. */
  datatype Control = Link | ActionButton

  /** The control for an action with the given caption, `href` and handler: none
      without a caption, a link when there is an `href` and no handler, else a button. */
  function ActionControl(caption: Option<string>, href: Option<string>, hasHandler: bool): Option<Control>
  {
    if !Truthy(caption) then None
    else if Truthy(href) && !hasHandler then Some(Link)
    else Some(ActionButton)
  }

  /** A labelled action is always offered; it is a link exactly when it has an
      `href` and no handler, so a handler always wins over an `href`. */
  lemma ActionControlSpec(caption: Option<string>, href: Option<string>, hasHandler: bool)
    ensures ActionControl(caption, href, hasHandler).None? <==> !Truthy(caption)
    ensures ActionControl(caption, href, hasHandler) == Some(Link) <==> Truthy(caption) && Truthy(href) && !hasHandler
    ensures Truthy(caption) && hasHandler ==> ActionControl(caption, href, hasHandler) == Some(ActionButton)
  {
  }

  // ---------------------------------------------------------------------------
  // The banner

  datatype Call =
    | OpenChange(open: bool)
    | Dismiss
    | CtaClick
    | CtaSuccess
    | CtaError(error: string)
    | SecondaryClick
    | SecondarySuccess
    | SecondaryError(error: string)

  /** The props that stay fixed while the banner is mounted; `has*` say which
      callback props are present. */
  datatype Props = Props(
    storageKey: Option<string>,
    defaultOpen: bool,
    hasOnOpenChange: bool,
    hasOnDismiss: bool,
    hasOnCtaClick: bool,
    hasOnCtaSuccess: bool,
    hasOnCtaError: bool,
    hasOnSecondaryClick: bool,
    hasOnSecondarySuccess: bool,
    hasOnSecondaryError: bool)

  class Banner {
    const props: Props
    const window: Window
    /** The `open` prop; None when uncontrolled. */
    var open: Option<bool>
    var internalOpen: bool
    var ctaPending: bool
    var secondaryPending: bool
    var ctaError: Option<string>
    var hydrated: bool
    var calls: seq<Call>

    function IsOpen(): bool
      reads this
    {
      if open.Some? then open.value else internalOpen
    }

    /** The banner renders `null` exactly when it is closed or not yet hydrated. */
    function RendersNothing(): bool
      reads this
    {
      !IsOpen() || !hydrated
    }

    /** First render, before effects: hydrated only when there is no storage
        key to check; open as `defaultOpen` says. */
    constructor(props: Props, window: Window, open: Option<bool>)
      ensures this.props == props && this.window == window && this.open == open
      ensures internalOpen == props.defaultOpen
      ensures hydrated <==> !Truthy(props.storageKey)
      ensures !ctaPending && !secondaryPending && ctaError.None? && calls == []
    {
      this.props := props;
      this.window := window;
      this.open := open;
      internalOpen := props.defaultOpen;
      ctaPending := false;
      secondaryPending := false;
      ctaError := None;
      hydrated := !Truthy(props.storageKey);
      calls := [];
    }

    /** The effect on `[isControlled, storageKey]`: with a storage key, an
        uncontrolled banner whose key holds the dismissal marker closes, and the
        banner is hydrated afterwards either way. */
    method HydrationEffect()
      modifies this
      ensures !Truthy(props.storageKey) ==> internalOpen == old(internalOpen) && hydrated == old(hydrated)
      ensures Truthy(props.storageKey) ==> hydrated
      ensures Truthy(props.storageKey) ==>
        internalOpen == (if open.None? && window.GetItem(LocalStorage, props.storageKey.value) == Some(DismissedMarker)
                         then false else old(internalOpen))
      ensures open == old(open) && ctaPending == old(ctaPending) && secondaryPending == old(secondaryPending)
      ensures ctaError == old(ctaError) && calls == old(calls)
    {
      if !Truthy(props.storageKey) {
        return;
      }
      var stored := window.GetItem(LocalStorage, props.storageKey.value);
      if open.None? && stored == Some(DismissedMarker) {
        internalOpen := false;
      }
      hydrated := true;
    }

    /** The parent re-renders with a new `open` prop; the hydration effect runs
        again when controlledness changed. */
    method SetOpenProp(o: Option<bool>)
      modifies this
      ensures open == o
      ensures o.Some? == old(open).Some? ==> internalOpen == old(internalOpen) && hydrated == old(hydrated)
      ensures o.None? && !old(open).None? && Truthy(props.storageKey) ==>
        && hydrated
        && internalOpen == (if window.GetItem(LocalStorage, props.storageKey.value) == Some(DismissedMarker)
                            then false else old(internalOpen))
      ensures o.Some? && old(open).None? ==>
        internalOpen == old(internalOpen) && hydrated == (old(hydrated) || Truthy(props.storageKey))
      ensures !Truthy(props.storageKey) ==> internalOpen == old(internalOpen) && hydrated == old(hydrated)
      ensures ctaPending == old(ctaPending) && secondaryPending == old(secondaryPending)
      ensures ctaError == old(ctaError) && calls == old(calls)
    {
      var changed := o.Some? != open.Some?;
      open := o;
      if changed {
        HydrationEffect();
      }
    }

    /** `setOpen(next)`. */
    method SetOpen(next: bool)
      modifies this
      ensures internalOpen == (if open.None? then next else old(internalOpen))
      ensures open.None? ==> IsOpen() == next
      ensures calls == Fire(old(calls), props.hasOnOpenChange, OpenChange(next))
      ensures open == old(open) && hydrated == old(hydrated) && ctaError == old(ctaError)
      ensures ctaPending == old(ctaPending) && secondaryPending == old(secondaryPending)
    {
      if open.None? {
        internalOpen := next;
      }
      calls := Fire(calls, props.hasOnOpenChange, OpenChange(next));
    }

    /** `handleDismiss`: close, record the dismissal under the storage key when
        there is one, then `onDismiss`. An uncontrolled banner renders nothing
        afterwards. */
    method HandleDismiss()
      modifies this, window
      ensures internalOpen == (if open.None? then false else old(internalOpen))
      ensures open.None? ==> RendersNothing()
      ensures Truthy(props.storageKey) ==> window.local == old(window.local)[props.storageKey.value := DismissedMarker]
      ensures !Truthy(props.storageKey) ==> window.local == old(window.local)
      ensures window.session == old(window.session) && window.jar == old(window.jar)
      ensures calls == Fire(Fire(old(calls), props.hasOnOpenChange, OpenChange(false)), props.hasOnDismiss, Dismiss)
      ensures open == old(open) && hydrated == old(hydrated) && ctaError == old(ctaError)
      ensures ctaPending == old(ctaPending) && secondaryPending == old(secondaryPending)
    {
      SetOpen(false);
      if Truthy(props.storageKey) {
        window.SetItem(LocalStorage, props.storageKey.value, DismissedMarker);
      }
      calls := Fire(calls, props.hasOnDismiss, Dismiss);
    }

    /** `handleCtaClick` up to its `await`: pending on, error cleared, handler invoked. */
    method BeginCta()
      requires props.hasOnCtaClick
      modifies this
      ensures ctaPending && ctaError.None?
      ensures calls == old(calls) + [CtaClick]
      ensures open == old(open) && internalOpen == old(internalOpen) && hydrated == old(hydrated)
      ensures secondaryPending == old(secondaryPending)
    {
      ctaPending := true;
      ctaError := None;
      calls := calls + [CtaClick];
    }

    /** `handleCtaClick` after its `await`: `onCtaSuccess`, or the error kept and
        `onCtaError`; pending off either way. */
    method SettleCta(outcome: Outcome)
      modifies this
      ensures !ctaPending
      ensures outcome.Resolved? ==> ctaError == old(ctaError) && calls == Fire(old(calls), props.hasOnCtaSuccess, CtaSuccess)
      ensures outcome.Rejected? ==>
        ctaError == Some(outcome.reason) && calls == Fire(old(calls), props.hasOnCtaError, CtaError(outcome.reason))
      ensures open == old(open) && internalOpen == old(internalOpen) && hydrated == old(hydrated)
      ensures secondaryPending == old(secondaryPending)
    {
      match outcome {
        case Resolved =>
          calls := Fire(calls, props.hasOnCtaSuccess, CtaSuccess);
        case Rejected(e) =>
          ctaError := Some(e);
          calls := Fire(calls, props.hasOnCtaError, CtaError(e));
      }
      ctaPending := false;
    }

    /** `handleCtaClick` run to completion: nothing without `onCtaClick`;
        otherwise the error is set exactly on failure and pending ends false. */
    method HandleCtaClick(outcome: Outcome)
      modifies this
      ensures !props.hasOnCtaClick ==>
        ctaPending == old(ctaPending) && ctaError == old(ctaError) && calls == old(calls)
      ensures props.hasOnCtaClick ==> !ctaPending
      ensures props.hasOnCtaClick ==> ctaError == (if outcome.Rejected? then Some(outcome.reason) else None)
      ensures props.hasOnCtaClick && outcome.Resolved? ==>
        calls == Fire(old(calls) + [CtaClick], props.hasOnCtaSuccess, CtaSuccess)
      ensures props.hasOnCtaClick && outcome.Rejected? ==>
        calls == Fire(old(calls) + [CtaClick], props.hasOnCtaError, CtaError(outcome.reason))
      ensures open == old(open) && internalOpen == old(internalOpen) && hydrated == old(hydrated)
      ensures secondaryPending == old(secondaryPending)
    {
      if !props.hasOnCtaClick {
        return;
      }
      BeginCta();
      SettleCta(outcome);
    }

    /** `handleSecondaryClick` run to completion: only its own pending flag and
        callbacks; it never touches the banner's error, open state or the
        primary action. */
    method HandleSecondaryClick(outcome: Outcome)
      modifies this
      ensures !props.hasOnSecondaryClick ==> secondaryPending == old(secondaryPending) && calls == old(calls)
      ensures props.hasOnSecondaryClick ==> !secondaryPending
      ensures props.hasOnSecondaryClick && outcome.Resolved? ==>
        calls == Fire(old(calls) + [SecondaryClick], props.hasOnSecondarySuccess, SecondarySuccess)
      ensures props.hasOnSecondaryClick && outcome.Rejected? ==>
        calls == Fire(old(calls) + [SecondaryClick], props.hasOnSecondaryError, SecondaryError(outcome.reason))
      ensures ctaError == old(ctaError) && ctaPending == old(ctaPending)
      ensures open == old(open) && internalOpen == old(internalOpen) && hydrated == old(hydrated)
    {
      if !props.hasOnSecondaryClick {
        return;
      }
      secondaryPending := true;
      calls := calls + [SecondaryClick];
      match outcome {
        case Resolved =>
          calls := Fire(calls, props.hasOnSecondarySuccess, SecondarySuccess);
        case Rejected(e) =>
          calls := Fire(calls, props.hasOnSecondaryError, SecondaryError(e));
      }
      secondaryPending := false;
    }
  }

  /** An uncontrolled banner with a storage key is dismissed; a second banner
      with the same key, mounted later on the same page, renders nothing on its
      first render (not hydrated) and nothing after its effect (dismissed). A
      banner with another key is unaffected. */
  method DismissThenRemount(key: string, otherKey: string)
    returns (firstRender: bool, afterMount: bool, otherAfterMount: bool)
    requires key != "" && otherKey != "" && otherKey != key
    ensures firstRender && afterMount && !otherAfterMount
  {
    var w := new Window();
    var props := Props(Some(key), true, false, false, false, false, false, false, false, false);
    var first := new Banner(props, w, None);
    first.HydrationEffect();
    assert !first.RendersNothing();
    first.HandleDismiss();

    var second := new Banner(props, w, None);
    firstRender := second.RendersNothing();
    second.HydrationEffect();
    afterMount := second.RendersNothing();

    var other := new Banner(props.(storageKey := Some(otherKey)), w, None);
    other.HydrationEffect();
    otherAfterMount := other.RendersNothing();
  }
}
