/** `UsageProgress`: quota tracks shown as percentages with a status badge and
    a trend arrow, and an asynchronous call-to-action with its own pending and
    error state. */
module UsageProgress {
  import opened Common
  import opened UsageProgressBar

  datatype Trend = Up | Down | Steady

  /** One quota track; `limit`, `percentage`, `status` and `trend` are optional props. */
  datatype Track = Track(
    trackLabel: string,
    value: real,
    limit: Option<real>,
    percentage: Option<real>,
    status: Option<Status>,
    trend: Option<Trend>)

  /** `getStatusClasses`: the badge classes of a status; no status is muted. */
  function StatusClasses(status: Option<Status>): string
  {
    match status
    case Some(Ok) => "text-emerald-500 bg-emerald-500/10 border-emerald-500/20"
    case Some(Warning) => "text-amber-500 bg-amber-500/10 border-amber-500/20"
    case Some(Critical) => "text-red-500 bg-red-500/10 border-red-500/20"
    case None => "text-muted-foreground bg-muted/40 border-muted/30"
  }

  /** A track without a status gets the muted badge but, through the bar's
      `status = "ok"` default, the same emerald bar as an `ok` track. */
  lemma MissingStatusDefaults()
    ensures StatusClasses(None) != StatusClasses(Some(Ok))
    ensures ProgressBar(0.0, None).barClass == ProgressBar(0.0, Some(Ok)).barClass == "bg-emerald-500"
  {
  }

  /** `Math.round`: the nearest integer, halves rounded up. */
  function Round(x: real): (r: int)
    ensures x - 0.5 < r as real <= x + 0.5
  {
    (x + 0.5).Floor
  }

  lemma RoundMonotone(x: real, y: real)
    requires x <= y
    ensures Round(x) <= Round(y)
  {
  }

  /** `calculatePercentage(track)`. */
  function CalculatePercentage(t: Track): (r: real)
    ensures 0.0 <= r <= 100.0
    ensures t.percentage.Some? ==> r == Clamp(t.percentage.value)
    ensures t.percentage.None? && (t.limit.None? || t.limit.value == 0.0) ==> r == 0.0
  {
    if t.percentage.Some? then Clamp(t.percentage.value)
    else if t.limit.None? || t.limit.value == 0.0 then 0.0
    else Clamp(Round(t.value / t.limit.value * 100.0) as real)
  }

  /** Without an explicit percentage and with a positive limit the result is a
      whole number: the rounded share of the limit, saturating at 0 and 100. */
  lemma PercentageOfLimit(t: Track)
    requires t.percentage.None? && t.limit.Some? && t.limit.value > 0.0
    ensures var r := CalculatePercentage(t);
      && r == r.Floor as real
      && (t.value <= 0.0 ==> r == 0.0)
      && (t.value >= t.limit.value ==> r == 100.0)
      && (0.0 <= t.value <= t.limit.value ==>
            t.value / t.limit.value * 100.0 - 0.5 < r <= t.value / t.limit.value * 100.0 + 0.5)
  {
    var l := t.limit.value;
    var q := t.value / l;
    QuotientBounds(t.value, l);
    var x := q * 100.0;
    if 0.0 <= t.value <= l {
      assert 0.0 <= x <= 100.0;
      assert 0 <= Round(x) <= 100;
    }
  }

  lemma QuotientBounds(v: real, l: real)
    requires l > 0.0
    ensures v <= 0.0 ==> v / l <= 0.0
    ensures v >= l ==> v / l >= 1.0
    ensures 0.0 <= v <= l ==> 0.0 <= v / l <= 1.0
  {
    var q := v / l;
    assert q * l == v;
    assert (q - 1.0) * l == v - l;
  }

  /** With the same positive limit, more usage never shows a smaller percentage. */
  lemma PercentageMonotone(t: Track, u: Track)
    requires t.percentage.None? && u.percentage.None?
    requires t.limit == u.limit && t.limit.Some? && t.limit.value > 0.0
    requires t.value <= u.value
    ensures CalculatePercentage(t) <= CalculatePercentage(u)
  {
    var l := t.limit.value;
    assert t.value / l <= u.value / l;
    RoundMonotone(t.value / l * 100.0, u.value / l * 100.0);
    ClampMonotone(Round(t.value / l * 100.0) as real, Round(u.value / l * 100.0) as real);
  }

  /** The bar re-clamps the percentage it is given; for a computed percentage
      this changes nothing, so the bar shows exactly what was computed. */
  lemma BarShowsPercentage(t: Track)
    ensures ProgressBar(CalculatePercentage(t), t.status).width == CalculatePercentage(t)
    ensures ProgressBar(CalculatePercentage(t), t.status).ariaValueNow == CalculatePercentage(t)
  {
  }

  /** `getTrendLabel(trend)`. */
  function TrendLabel(trend: Option<Trend>): (r: string)
    ensures r == "" <==> trend.None?
  {
    match trend
    case Some(Up) => "↑"
    case Some(Down) => "↓"
    case Some(Steady) => "→"
    case None => ""
  }

  /** Each trend has its own arrow, so the label determines the trend. */
  lemma TrendLabelInjective(a: Option<Trend>, b: Option<Trend>)
    requires TrendLabel(a) == TrendLabel(b)
    ensures a == b
  {
  }

  // ---------------------------------------------------------------------------
  // The call-to-action

  /** The callbacks the widget invokes, in the order it invokes them. */
  datatype Call = CtaClick | CtaSuccess | CtaError(error: string)

  class UsageProgressWidget {
    /** Which callback props are present. */
    const hasOnCtaClick: bool
    const hasOnCtaSuccess: bool
    const hasOnCtaError: bool

    /** The `pending` prop, which the parent may change. */
    var pending: bool
    var ctaPending: bool
    var ctaError: Option<string>
    var calls: seq<Call>

    /** First render: both state hooks start empty. The pending effect runs on
        mount, but `ctaPending` is already false. */
    constructor(hasOnCtaClick: bool, hasOnCtaSuccess: bool, hasOnCtaError: bool, pending: bool)
      ensures this.hasOnCtaClick == hasOnCtaClick && this.hasOnCtaSuccess == hasOnCtaSuccess
      ensures this.hasOnCtaError == hasOnCtaError && this.pending == pending
      ensures !ctaPending && ctaError.None? && calls == []
    {
      this.hasOnCtaClick := hasOnCtaClick;
      this.hasOnCtaSuccess := hasOnCtaSuccess;
      this.hasOnCtaError := hasOnCtaError;
      this.pending := pending;
      ctaPending := false;
      ctaError := None;
      calls := [];
    }

    /** The effect on `[pending]`: a false `pending` prop clears `ctaPending`. */
    method PendingEffect()
      modifies this
      ensures ctaPending == (old(ctaPending) && pending)
      ensures pending == old(pending) && ctaError == old(ctaError) && calls == old(calls)
    {
      if !pending {
        ctaPending := false;
      }
    }

    /** The parent re-renders with a new `pending`; the effect runs when it changed. */
    method SetPending(p: bool)
      modifies this
      ensures pending == p
      ensures ctaPending == (old(ctaPending) && (p || p == old(pending)))
      ensures ctaError == old(ctaError) && calls == old(calls)
    {
      var changed := p != pending;
      pending := p;
      if changed {
        PendingEffect();
      }
    }

    /** `handleCtaClick` up to the `await`: pending on, error cleared, handler invoked. */
    method BeginCta()
      requires hasOnCtaClick
      modifies this
      ensures ctaPending && ctaError.None?
      ensures calls == old(calls) + [CtaClick]
      ensures pending == old(pending)
    {
      ctaPending := true;
      ctaError := None;
      calls := calls + [CtaClick];
    }

    /** `handleCtaClick` after the `await`: success or error callback, then `finally`. */
    method SettleCta(outcome: Outcome)
      modifies this
      ensures !ctaPending
      ensures outcome.Resolved? ==> ctaError == old(ctaError) && calls == Fire(old(calls), hasOnCtaSuccess, CtaSuccess)
      ensures outcome.Rejected? ==>
                ctaError == Some(outcome.reason) && calls == Fire(old(calls), hasOnCtaError, CtaError(outcome.reason))
      ensures pending == old(pending)
    {
      match outcome {
        case Resolved =>
          calls := Fire(calls, hasOnCtaSuccess, CtaSuccess);
        case Rejected(e) =>
          ctaError := Some(e);
          calls := Fire(calls, hasOnCtaError, CtaError(e));
      }
      ctaPending := false;
    }

    /** The whole click: nothing without a handler; otherwise the error is set
        exactly on failure and pending always ends false. */
    method HandleCtaClick(outcome: Outcome)
      modifies this
      ensures !hasOnCtaClick ==> ctaPending == old(ctaPending) && ctaError == old(ctaError) && calls == old(calls)
      ensures hasOnCtaClick ==> !ctaPending
      ensures hasOnCtaClick ==> ctaError == (if outcome.Rejected? then Some(outcome.reason) else None)
      ensures hasOnCtaClick && outcome.Resolved? ==> calls == Fire(old(calls) + [CtaClick], hasOnCtaSuccess, CtaSuccess)
      ensures hasOnCtaClick && outcome.Rejected? ==>
                calls == Fire(old(calls) + [CtaClick], hasOnCtaError, CtaError(outcome.reason))
      ensures pending == old(pending)
    {
      if !hasOnCtaClick {
        return;
      }
      BeginCta();
      SettleCta(outcome);
    }
  }
}
