/** `UpgradeModal`: a dialog listing plans. Choosing a plan either reports the
    choice at once or awaits the plan's own `onSelect`, tracking the plan being
    selected and a per-plan error. */
module UpgradeModal {
  import opened Common

  // ---------------------------------------------------------------------------
  // Plan features and layout

  /** A plan feature: plain text, or a label with an optional inclusion flag and footnote. */
  datatype PlanFeature =
    | Text(text: string)
    | Detailed(text: string, included: Option<bool>, footnote: Option<string>)

  datatype NormalizedFeature = NormalizedFeature(text: string, included: bool, footnote: Option<string>)

  /** `normalizeFeature(feature, fallbackIncluded)`. */
  function NormalizeFeature(feature: PlanFeature, fallbackIncluded: bool): (r: NormalizedFeature)
    ensures r.text == feature.text
  {
    match feature
    case Text(t) => NormalizedFeature(t, fallbackIncluded, None)
    case Detailed(t, included, footnote) =>
      NormalizedFeature(t, if included.Some? then included.value else fallbackIncluded, footnote)
  }

  /** As the plan card uses it (fallback `true`): a feature is shown as included
      unless it says `included: false`, and only a detailed feature has a footnote. */
  lemma NormalizeFeatureAsRendered(feature: PlanFeature)
    ensures NormalizeFeature(feature, true).included <==> !(feature.Detailed? && feature.included == Some(false))
    ensures NormalizeFeature(feature, true).footnote == (if feature.Detailed? then feature.footnote else None)
  {
  }

  const ColumnClasses: seq<string> := ["md:grid-cols-1", "md:grid-cols-2", "md:grid-cols-3"]

  /** `gridColumns` for a number of plans. */
  function GridColumns(planCount: nat): string
  {
    if planCount >= 3 then "md:grid-cols-3"
    else if planCount == 2 then "md:grid-cols-2"
    else "md:grid-cols-1"
  }

  /** One column per plan, at least one and at most three. */
  lemma GridColumnsCapped(planCount: nat)
    ensures GridColumns(planCount) == ColumnClasses[(if planCount == 0 then 1 else Min(planCount, 3)) - 1]
  {
  }

  function Min(a: nat, b: nat): nat
  {
    if a <= b then a else b
  }

  /** A plan; `has*` say which of its callbacks are present. */
  datatype Plan = Plan(
    id: string,
    ctaHref: Option<string>,
    hasOnSelect: bool,
    hasOnSelectSuccess: bool,
    hasOnSelectError: bool)

  /** The main control of a plan card: a link to `ctaHref` or a select button. */
  datatype PlanControl = HrefLink | SelectButton

  /** The card's main control, and whether a "View plan details" link follows it. */
  function PlanControls(plan: Plan): (PlanControl, bool)
  {
    (if Truthy(plan.ctaHref) && !plan.hasOnSelect then HrefLink else SelectButton,
     Truthy(plan.ctaHref) && plan.hasOnSelect)
  }

  /** A plan with `onSelect` always gets the select button, and the details link
      exactly when it also has `ctaHref`; a plan without `onSelect` never shows
      the details link and is a link exactly when it has `ctaHref`. */
  lemma PlanControlsSpec(plan: Plan)
    ensures plan.hasOnSelect ==> PlanControls(plan) == (SelectButton, Truthy(plan.ctaHref))
    ensures !plan.hasOnSelect ==> !PlanControls(plan).1
    ensures !plan.hasOnSelect ==> (PlanControls(plan).0 == HrefLink <==> Truthy(plan.ctaHref))
  {
  }

  // ---------------------------------------------------------------------------
  // The modal

  datatype Call =
    | OpenChange(open: bool)
    | Close
    | PlanSelected(planId: string)
    | Select(planId: string)
    | SelectSuccess(planId: string)
    | SelectError(planId: string, error: string)

  datatype Props = Props(
    autoCloseOnSelect: bool,
    resetErrorsOnOpen: bool,
    hasOnOpenChange: bool,
    hasOnClose: bool,
    hasOnPlanSelected: bool)

  /** `setOpen(next)`'s callbacks: `onOpenChange(next)`, then `onClose()` when closing. */
  function OpenCalls(calls: seq<Call>, p: Props, next: bool): seq<Call>
  {
    Fire(Fire(calls, p.hasOnOpenChange, OpenChange(next)), !next && p.hasOnClose, Close)
  }

  class Modal {
    const props: Props
    /** The `open` prop; None when uncontrolled. */
    var open: Option<bool>
    var internalOpen: bool
    var pendingPlan: Option<string>
    /** `planErrors`: a plan id mapped to None is the `null` entry of a cleared error. */
    var planErrors: map<string, Option<string>>
    var calls: seq<Call>

    function CurrentOpen(): bool
      reads this
    {
      if open.Some? then open.value else internalOpen
    }

    /** Whether a plan's card shows an error. */
    function ErrorShown(planId: string): bool
      reads this
    {
      planId in planErrors && planErrors[planId].Some?
    }

    /** First render: closed unless `defaultOpen`, nothing pending, no errors. */
    constructor(props: Props, open: Option<bool>, defaultOpen: Option<bool>)
      ensures this.props == props && this.open == open
      ensures internalOpen == (defaultOpen == Some(true))
      ensures pendingPlan.None? && planErrors == map[] && calls == []
    {
      this.props := props;
      this.open := open;
      internalOpen := defaultOpen == Some(true);
      pendingPlan := None;
      planErrors := map[];
      calls := [];
    }

    /** The effect on `[currentOpen, resetErrorsOnOpen]`. */
    method ResetOnOpenEffect()
      modifies this
      ensures open == old(open)
      ensures CurrentOpen() && props.resetErrorsOnOpen ==> planErrors == map[] && pendingPlan.None?
      ensures !(CurrentOpen() && props.resetErrorsOnOpen) ==> planErrors == old(planErrors) && pendingPlan == old(pendingPlan)
      ensures internalOpen == old(internalOpen) && calls == old(calls)
    {
      if CurrentOpen() && props.resetErrorsOnOpen {
        planErrors := map[];
        pendingPlan := None;
      }
    }

    /** `setOpen(next)`, followed by the reset effect when the dialog opened. */
    method SetOpen(next: bool)
      modifies this
      ensures open == old(open)
      ensures internalOpen == (if open.None? then next else old(internalOpen))
      ensures calls == OpenCalls(old(calls), props, next)
      ensures var reset := CurrentOpen() && !old(CurrentOpen()) && props.resetErrorsOnOpen;
        && (reset ==> planErrors == map[] && pendingPlan.None?)
        && (!reset ==> planErrors == old(planErrors) && pendingPlan == old(pendingPlan))
    {
      var wasOpen := CurrentOpen();
      if open.None? {
        internalOpen := next;
      }
      calls := Fire(calls, props.hasOnOpenChange, OpenChange(next));
      if !next {
        calls := Fire(calls, props.hasOnClose, Close);
      }
      if CurrentOpen() != wasOpen {
        ResetOnOpenEffect();
      }
    }

    /** The parent re-renders with a new `open` prop; the reset effect runs when
        the shown state changed. A controlled dialog opened by its parent starts
        with no errors and nothing pending. */
    method SetOpenProp(o: Option<bool>)
      modifies this
      ensures open == o && internalOpen == old(internalOpen) && calls == old(calls)
      ensures var reset := CurrentOpen() && !old(CurrentOpen()) && props.resetErrorsOnOpen;
        && (reset ==> planErrors == map[] && pendingPlan.None?)
        && (!reset ==> planErrors == old(planErrors) && pendingPlan == old(pendingPlan))
    {
      var wasOpen := CurrentOpen();
      open := o;
      if CurrentOpen() != wasOpen {
        ResetOnOpenEffect();
      }
    }

    /** Closing never resets the plan state. */
    method CloseDialog()
      modifies this
      ensures open == old(open)
      ensures internalOpen == (if open.None? then false else old(internalOpen))
      ensures calls == OpenCalls(old(calls), props, false)
      ensures planErrors == old(planErrors) && pendingPlan == old(pendingPlan)
    {
      SetOpen(false);
    }

    /** `handlePlanSelect(plan)` for a plan without `onSelect`: report the choice
        and close when `autoCloseOnSelect`; pending plan and errors stay. */
    method SelectDirect(plan: Plan)
      requires !plan.hasOnSelect
      modifies this
      ensures open == old(open)
      ensures var reported := Fire(old(calls), props.hasOnPlanSelected, PlanSelected(plan.id));
        calls == (if props.autoCloseOnSelect then OpenCalls(reported, props, false) else reported)
      ensures internalOpen == (if props.autoCloseOnSelect && open.None? then false else old(internalOpen))
      ensures planErrors == old(planErrors) && pendingPlan == old(pendingPlan)
    {
      calls := Fire(calls, props.hasOnPlanSelected, PlanSelected(plan.id));
      if props.autoCloseOnSelect {
        CloseDialog();
      }
    }

    /** `handlePlanSelect(plan)` with `onSelect`, up to its `await`: the plan is
        pending and its error is cleared; other plans' errors stay. */
    method BeginSelect(plan: Plan)
      requires plan.hasOnSelect
      modifies this
      ensures open == old(open)
      ensures pendingPlan == Some(plan.id)
      ensures planErrors == old(planErrors)[plan.id := None]
      ensures calls == old(calls) + [Select(plan.id)]
      ensures internalOpen == old(internalOpen)
    {
      pendingPlan := Some(plan.id);
      planErrors := planErrors[plan.id := None];
      calls := calls + [Select(plan.id)];
    }

    /** `handlePlanSelect(plan)` after `await plan.onSelect()` ended with
        `outcome`. Success: `onSelectSuccess`, then `onPlanSelected`, then close
        when `autoCloseOnSelect`. Failure: the plan's error is recorded,
        `onSelectError` runs, nothing else changes. Either way nothing is pending
        afterwards. */
    method SettleSelect(plan: Plan, outcome: Outcome)
      requires plan.hasOnSelect
      modifies this
      ensures open == old(open)
      ensures pendingPlan.None?
      ensures outcome.Resolved? ==>
        var reported := Fire(Fire(old(calls), plan.hasOnSelectSuccess, SelectSuccess(plan.id)),
                             props.hasOnPlanSelected, PlanSelected(plan.id));
        && calls == (if props.autoCloseOnSelect then OpenCalls(reported, props, false) else reported)
        && internalOpen == (if props.autoCloseOnSelect && open.None? then false else old(internalOpen))
        && planErrors == old(planErrors)
      ensures outcome.Rejected? ==>
        && planErrors == old(planErrors)[plan.id := Some(outcome.reason)]
        && calls == Fire(old(calls), plan.hasOnSelectError, SelectError(plan.id, outcome.reason))
        && internalOpen == old(internalOpen)
    {
      match outcome {
        case Resolved =>
          calls := Fire(calls, plan.hasOnSelectSuccess, SelectSuccess(plan.id));
          calls := Fire(calls, props.hasOnPlanSelected, PlanSelected(plan.id));
          if props.autoCloseOnSelect {
            CloseDialog();
          }
        case Rejected(e) =>
          planErrors := planErrors[plan.id := Some(e)];
          calls := Fire(calls, plan.hasOnSelectError, SelectError(plan.id, e));
      }
      pendingPlan := None;
    }

    /** `handlePlanSelect(plan)` run to completion. */
    method HandlePlanSelect(plan: Plan, outcome: Outcome)
      modifies this
      ensures open == old(open)
      ensures !plan.hasOnSelect ==> planErrors == old(planErrors) && pendingPlan == old(pendingPlan)
      ensures plan.hasOnSelect ==> pendingPlan.None?
      ensures plan.hasOnSelect && outcome.Resolved? ==>
        && planErrors == old(planErrors)[plan.id := None]
        && !ErrorShown(plan.id)
        && var reported := Fire(Fire(old(calls) + [Select(plan.id)], plan.hasOnSelectSuccess, SelectSuccess(plan.id)),
                                props.hasOnPlanSelected, PlanSelected(plan.id));
           calls == (if props.autoCloseOnSelect then OpenCalls(reported, props, false) else reported)
      ensures plan.hasOnSelect && outcome.Rejected? ==>
        && planErrors == old(planErrors)[plan.id := Some(outcome.reason)]
        && ErrorShown(plan.id)
        && calls == Fire(old(calls) + [Select(plan.id)], plan.hasOnSelectError, SelectError(plan.id, outcome.reason))
        && internalOpen == old(internalOpen)
      ensures forall other :: other != plan.id ==>
        (other in planErrors <==> other in old(planErrors)) &&
        (other in planErrors ==> planErrors[other] == old(planErrors)[other])
      ensures outcome.Resolved? || !plan.hasOnSelect ==>
        internalOpen == (if props.autoCloseOnSelect && open.None? then false else old(internalOpen))
    {
      if !plan.hasOnSelect {
        SelectDirect(plan);
        return;
      }
      BeginSelect(plan);
      SettleSelect(plan, outcome);
    }
  }

  /** Two plans selected one after the other before either settles: the first
      to settle clears `pendingPlan` although the second is still awaited, so
      the second plan's button is no longer shown as pending. */
  method OverlappingSelections(a: Plan, b: Plan) returns (pendingWhileSecondAwaits: Option<string>)
    requires a.hasOnSelect && b.hasOnSelect && a.id != b.id
    ensures pendingWhileSecondAwaits.None?
  {
    var m := new Modal(Props(false, true, false, false, false), None, None);
    m.BeginSelect(a);
    m.BeginSelect(b);
    assert m.pendingPlan == Some(b.id);
    m.SettleSelect(a, Resolved);
    pendingWhileSecondAwaits := m.pendingPlan;
  }
}
