/** `ProgressBar`: a horizontal bar whose width and `aria-valuenow` are the
    given percentage clamped to [0, 100], coloured by the track status. */
module UsageProgressBar {
  import opened Common

  datatype Status = Ok | Warning | Critical

  function Min(a: real, b: real): real
  {
    if a <= b then a else b
  }

  function Max(a: real, b: real): real
  {
    if a >= b then a else b
  }

  /** `Math.min(100, Math.max(0, percentage))`. */
  function Clamp(p: real): (c: real)
    ensures 0.0 <= c <= 100.0
    ensures 0.0 <= p <= 100.0 ==> c == p
    ensures p < 0.0 ==> c == 0.0
    ensures p > 100.0 ==> c == 100.0
  {
    Min(100.0, Max(0.0, p))
  }

  /** The colour family each status is drawn in. */
  function Colour(s: Status): string
  {
    match s
    case Ok => "emerald-500"
    case Warning => "amber-500"
    case Critical => "red-500"
  }

  /** The `{ ok, warning, critical }[status]` lookup. */
  function BarClass(s: Status): string
  {
    match s
    case Ok => "bg-emerald-500"
    case Warning => "bg-amber-500"
    case Critical => "bg-red-500"
  }

  /** What the bar shows: its width in percent, its `aria-valuenow` and its colour class. */
  datatype Bar = Bar(width: real, ariaValueNow: real, barClass: string)

  /** `ProgressBar({ percentage, status = "ok" })`. */
  function ProgressBar(percentage: real, status: Option<Status>): (b: Bar)
    ensures b.width == b.ariaValueNow
    ensures 0.0 <= b.width <= 100.0
    ensures 0.0 <= percentage <= 100.0 ==> b.width == percentage
    ensures status.None? ==> b.barClass == "bg-emerald-500"
    ensures status.Some? ==> b.barClass == "bg-" + Colour(status.value)
  {
    var clamped := Clamp(percentage);
    var s := if status.Some? then status.value else Ok;
    Bar(clamped, clamped, BarClass(s))
  }

  /** Clamping twice is clamping once. */
  lemma ClampIdempotent(p: real)
    ensures Clamp(Clamp(p)) == Clamp(p)
  {
  }

  /** Clamping preserves order. */
  lemma ClampMonotone(p: real, q: real)
    requires p <= q
    ensures Clamp(p) <= Clamp(q)
  {
  }
}
