# Feature Lock: the registry generator and six paywall widgets

This project models, in Dafny, the core of Feature Lock. Feature Lock is a
collection of React components for gating premium features. Around the
components sits a small build script that publishes them as a shadcn-style
component registry.

The model has two parts:

- **The registry generator.**
  - `registry.config.mjs` holds the base URL, the default dependency map, the
    install-path rewriter and the twelve configured items.
  - `gen-registry.mjs` builds each item's document: the files selected by
    include and exclude patterns, sorted and type-tagged; the merged
    dependency map rendered as `name@version`; and the registry dependencies
    resolved to URLs. It then builds the manifest.
  - The integrity script's parse of `name@version` strings is modelled too,
    so that the round trip can be stated.
- **Six widgets.**
  - `UsageProgress` and its `ProgressBar`.
  - `BlurWrapper`.
  - `AgeGate`.
  - `UpgradeModal`.
  - `PaywallBanner`.
  - `FeatureTooltip`.

Each widget's pure helpers are functions over datatypes, and each has a lemma
stating what the helper promises. Each widget's state is a class:

- its `useState` hooks are fields;
- the props the parent may change are fields too;
- the callbacks it invokes are appended to a `calls` trace, in order;
- a callback prop that is absent appends nothing.

Effects are methods. A method that models a handler runs the effects that
React would re-run after the handler, whenever their dependencies changed.
Every asynchronous handler is modelled whole, with the awaited promise's
result given as an `Outcome` (`Resolved` or `Rejected(reason)`). Most are
also modelled in two steps, the state up to the `await` and the state after
it. The exceptions are PaywallBanner's secondary action
(`PaywallBanner.Banner.HandleSecondaryClick`), which is modelled whole only,
and the age gate's verification. That one is split at its storage step
instead (`AgeGate.Gate.HandleVerification` and
`AgeGate.Gate.SettleVerification`).

The browser is the `Browser.Window` class: `localStorage`, `sessionStorage`
and a cookie jar. Reading `document.cookie` renders the jar. Writing it
stores the leading `name=value` pair. The age gate's cookie code is proved
against this jar. One lemma shows that writing the verification cookie with
`setCookie` and reading it back with `getCookie` returns the stored value.
Every other name without `;` or `=` reads as before.

Two consequences of the code are worth stating on their own:

- The shipped rewriter maps each prefix to itself
  (`scripts/registry.config.mjs:15-32`). A file under `components/` is
  therefore installed at the same `components/...` path
  (`RegistryConfig.PathRewriterIsIdentity`).
- The type tag checks for `/components/` inside paths that are relative to
  the project root (`scripts/gen-registry.mjs:62-70`). A component source
  `components/<dir>/<file>.tsx` never contains it, so the source is tagged
  `registry:lib` (`GenRegistry.ComponentSourcesAreLib`).

## Model

| member | source | states |
|---|---|---|
| RegistryConfig.BaseUrl | scripts/registry.config.mjs:3 | a non-empty environment value is the base URL; a missing or empty one gives the default host |
| RegistryConfig.PathRewriter | scripts/registry.config.mjs:15-32 | `pathRewriter`: the shipped mapping table applied by `RewriteWith`; it has no contract of its own, and `RewriteFirstMatch`, `RewriteWithIdentityTable` and `PathRewriterIsIdentity` state what it does |
| RegistryConfig.RewriteFirstMatch | scripts/registry.config.mjs:24-28 | the first mapping whose prefix starts the path replaces that prefix at the front of the path |
| RegistryConfig.RewriteWithIdentityTable | scripts/registry.config.mjs:15-32 | a table in which every prefix maps to itself leaves every path unchanged |
| RegistryConfig.PathRewriterIsIdentity | scripts/registry.config.mjs:15-32 | the shipped rewriter returns every path as it is |
| RegistryConfig.PathRewriterComponents | scripts/registry.config.mjs:17-27 | a `components/` path keeps the `components/` prefix as its install target |
| RegistryConfig.ItemFileNames | scripts/registry.config.mjs:34-201 | there are twelve items, and each item's file name is its name plus `.json` |
| RegistryConfig.ItemNamesDistinct | scripts/registry.config.mjs:34-201 | no two items share a name |
| RegistryConfig.FullVariants | scripts/registry.config.mjs:34-201 | item 2k+1 is the `-full` variant of item 2k: same sources plus the README the base excludes, no excludes, same type and dependencies |
| RegistryConfig.DefaultDependencyNames | scripts/registry.config.mjs:5-13 | the default dependency map has exactly the five listed packages |
| RegistryConfig.ItemRegistryDependencies | scripts/registry.config.mjs:34-201 | every registry dependency is an external name (button, dialog, badge, input, label), and no item has such a name |
| RegistryConfig.ItemDependencies | scripts/registry.config.mjs:34-201 | each item's own dependency map is empty or just the Radix dialog package |
| GenRegistry.CollectMatches | scripts/gen-registry.mjs:44-56 | the matched set has no duplicates and holds exactly the listed files that some include pattern matches and no exclude pattern matches |
| GenRegistry.SortPaths | scripts/gen-registry.mjs:59 | `[...matchedFiles].sort()` as insertion sort; no contract of its own: `SortPathsCorrect` and `SortedUnique` state that it gives the one strictly ascending permutation |
| GenRegistry.CodeUnitLessIrreflexive | scripts/gen-registry.mjs:59 | the sort order never puts a string before itself |
| GenRegistry.CodeUnitLessTransitive | scripts/gen-registry.mjs:59 | the sort order is transitive |
| GenRegistry.CodeUnitLessTotal | scripts/gen-registry.mjs:59 | any two different strings are ordered one way or the other |
| GenRegistry.InsertSorted | scripts/gen-registry.mjs:59 | inserting a new string into a strictly sorted list keeps it strictly sorted and adds exactly that string |
| GenRegistry.SortPathsCorrect | scripts/gen-registry.mjs:59 | sorting a duplicate-free list gives a strictly ascending permutation of it |
| GenRegistry.SortedUnique | scripts/gen-registry.mjs:59 | two strictly ascending lists with the same elements are equal, so the sorted file list is unique |
| GenRegistry.FileType | scripts/gen-registry.mjs:62-70 | the four-way type tag, with the conditions in the source's order; no contract of its own: `ComponentSourcesAreLib` states what it gives component sources |
| GenRegistry.SegmentOccurrence | scripts/gen-registry.mjs:64-66 | in `components/<dir>/<file>.tsx`, a segment `/<seg>/` can only occur right after `components`, with `seg` equal to `dir` |
| GenRegistry.ComponentSourcesAreLib | scripts/gen-registry.mjs:62-70 | a component source in a folder not named `components` or `hooks` is tagged `registry:lib` |
| GenRegistry.MergeDependencies | scripts/gen-registry.mjs:81-84 | `{...defaults, ...own}`; no contract of its own: `MergeDependenciesSpec` and `MergeDistinctAppends` state the merged keys, values and order |
| GenRegistry.SpreadIntoSpec | scripts/gen-registry.mjs:81-84 | spreading one map into another keeps keys distinct, holds the union of the keys, takes the spread map's values on shared keys and keeps the other values |
| GenRegistry.ValueOfLastWins | scripts/gen-registry.mjs:81-84 | in a list of entries, a key's value comes from its last entry |
| GenRegistry.MergeDependenciesSpec | scripts/gen-registry.mjs:81-84 | the merged map has every default and per-item key once, and the per-item value wins on a collision |
| GenRegistry.SpreadDistinctIsCopy | scripts/gen-registry.mjs:81-84 | spreading entries with new, distinct keys appends them in order |
| GenRegistry.MergeDistinctAppends | scripts/gen-registry.mjs:81-84 | with no shared keys, the merged map is the defaults followed by the item's own entries |
| GenRegistry.DependencyStrings | scripts/gen-registry.mjs:100 | there is one string per map entry, in order, and entry k renders as `name@version` |
| GenRegistry.DependencyStringsParse | scripts/gen-registry.mjs:100 | every rendered string of well-formed entries parses back to its entry |
| GenRegistry.ParseDependency | scripts/test-registry.mjs:116 | the `/^(@?[^@]+)@(.+)$/` match; no contract of its own: `DependencyRoundTrip` and `DependencyParseSound` state both directions |
| GenRegistry.DependencyRoundTrip | scripts/test-registry.mjs:116 | a string built from a well-formed name and version parses back to that name and version |
| GenRegistry.DependencyParseSound | scripts/test-registry.mjs:116 | whatever parses is a well-formed name, an `@` and a well-formed version, concatenated |
| GenRegistry.ShippedDependenciesParse | scripts/gen-registry.mjs:100 | every dependency string generated for a shipped item parses back to its entry |
| GenRegistry.ShippedKeysDistinct | scripts/registry.config.mjs:5-13 | the default packages and the Radix dialog package are pairwise distinct |
| GenRegistry.ShippedEntriesWellFormed | scripts/registry.config.mjs:5-13 | every shipped package name and version is well formed for the parse |
| GenRegistry.FindByShortName | scripts/gen-registry.mjs:89 | the result is the first component with that short name, or None when there is none |
| GenRegistry.ResolveRegistryDependencies | scripts/gen-registry.mjs:87-95 | the `map` over the registry dependencies; no contract of its own: `ResolveRegistryDependenciesSpec` states length, order and each entry |
| GenRegistry.ResolveRegistryDependenciesSpec | scripts/gen-registry.mjs:87-95 | length and order are kept; a name of one of the registry's own components becomes `<baseUrl>/r/<file name without .json>`; any other name passes through |
| GenRegistry.ShippedRegistryDependenciesPassThrough | scripts/gen-registry.mjs:87-95 | every shipped registry dependency passes through unchanged |
| GenRegistry.ShortName | scripts/gen-registry.mjs:121 | a trailing `.json` is removed, and a name without one is kept |
| GenRegistry.Components | scripts/gen-registry.mjs:119-122 | there is one component per configured item, in order: component k is item k with the short name of its file name |
| GenRegistry.ShippedShortNames | scripts/gen-registry.mjs:119-122 | every shipped item's short name is its name |
| GenRegistry.BuildComponent | scripts/gen-registry.mjs:43-104 | the document has the item's name and type, strictly sorted files that are exactly the kept files, the type tag and rewritten target of each file, the merged dependencies and the resolved registry dependencies |
| GenRegistry.ComponentDocDetermined | scripts/gen-registry.mjs:43-104 | the document is fully determined by its inputs |
| GenRegistry.Generate | scripts/gen-registry.mjs:107-146 | there is one document per item, in order, each as `BuildComponent` promises, and the manifest is built from the components |
| GenRegistry.Manifest | scripts/gen-registry.mjs:139-146 | the manifest entries; no contract of its own: `ManifestEntriesSpec` and `ShippedManifest` state each entry |
| GenRegistry.ManifestEntriesSpec | scripts/gen-registry.mjs:139-146 | each manifest entry has the item's name, the URL `<baseUrl>/r/<short name>` (which contains `/r/`), the document's type, and the file `r/<fileName>`, from which stripping `r/` gives the file name back |
| GenRegistry.ShippedManifest | scripts/gen-registry.mjs:139-146 | the shipped manifest has twelve `registry:ui` entries pointing at `<baseUrl>/r/<name>` and `r/<name>.json` |
| GenRegistry.FullVariantSelection | scripts/gen-registry.mjs:48-56 | a `-full` item keeps exactly what its base item keeps plus the README |
| UsageProgressBar.Colour | components/usageProgress/usage-progress-bar.tsx:15-19 | the bar colour per status; no contract of its own: `ProgressBar` states how status picks it |
| UsageProgressBar.Clamp | components/usageProgress/usage-progress-bar.tsx:13 | the result lies in [0, 100], equals the input inside that range, and saturates outside it |
| UsageProgressBar.ProgressBar | components/usageProgress/usage-progress-bar.tsx:12-30 | width and `aria-valuenow` are equal and clamped; the colour follows the status, and no status is drawn like `ok` |
| UsageProgressBar.ClampIdempotent | components/usageProgress/usage-progress-bar.tsx:13 | clamping twice is the same as clamping once |
| UsageProgressBar.ClampMonotone | components/usageProgress/usage-progress-bar.tsx:13 | clamping preserves order |
| UsageProgress.StatusClasses | components/usageProgress/usage-progress.tsx:49-59 | `getStatusClasses`; no contract of its own: `MissingStatusDefaults` states the missing-status case |
| UsageProgress.MissingStatusDefaults | components/usageProgress/usage-progress.tsx:49-59 | a missing status gets the muted badge but the emerald bar |
| UsageProgress.Round | components/usageProgress/usage-progress.tsx:65 | `Math.round` lies within half a unit of its input |
| UsageProgress.RoundMonotone | components/usageProgress/usage-progress.tsx:65 | rounding preserves order |
| UsageProgress.CalculatePercentage | components/usageProgress/usage-progress.tsx:62-66 | the result lies in [0, 100]; an explicit percentage is clamped; no limit, or a zero limit, gives 0 |
| UsageProgress.PercentageOfLimit | components/usageProgress/usage-progress.tsx:64-65 | with a positive limit the result is a whole number within half a point of value/limit·100, and saturates at 0 and 100 |
| UsageProgress.PercentageMonotone | components/usageProgress/usage-progress.tsx:62-66 | with the same limit, more usage never shows a smaller percentage |
| UsageProgress.BarShowsPercentage | components/usageProgress/usage-progress.tsx:148 | the bar shows exactly the computed percentage |
| UsageProgress.TrendLabel | components/usageProgress/usage-progress.tsx:68-79 | the label is empty exactly when there is no trend |
| UsageProgress.TrendLabelInjective | components/usageProgress/usage-progress.tsx:68-79 | different trends get different arrows |
| UsageProgress.UsageProgressWidget.constructor | components/usageProgress/usage-progress.tsx:106-107 | the widget starts with nothing pending and no error |
| UsageProgress.UsageProgressWidget.PendingEffect | components/usageProgress/usage-progress.tsx:109-113 | a false `pending` prop clears the CTA pending flag |
| UsageProgress.UsageProgressWidget.SetPending | components/usageProgress/usage-progress.tsx:109-113 | changing `pending` to false clears the CTA pending flag, and nothing else changes |
| UsageProgress.UsageProgressWidget.BeginCta | components/usageProgress/usage-progress.tsx:115-118 | before the await: pending is on, the error is cleared, the handler is invoked |
| UsageProgress.UsageProgressWidget.SettleCta | components/usageProgress/usage-progress.tsx:120-128 | success runs `onCtaSuccess`; failure stores the error and runs `onCtaError`; pending ends off |
| UsageProgress.UsageProgressWidget.HandleCtaClick | components/usageProgress/usage-progress.tsx:115-129 | without a handler nothing happens; otherwise the error is set exactly on failure and pending ends off |
| Common.Split | components/ageGate/age-gate.tsx:134 | `split` cuts at the non-overlapping occurrences of the separator, found from the left, and always yields at least one piece |
| Common.SplitTwoOccurrences | components/ageGate/age-gate.tsx:134 | two occurrences of the separator that do not overlap give at least three pieces |
| Common.SplitPiecesFree | components/ageGate/age-gate.tsx:134 | no piece of a split contains the separator |
| Common.SplitJoin | components/ageGate/age-gate.tsx:134 | joining the pieces with the separator gives the input back |
| Common.TakeUntil | components/ageGate/age-gate.tsx:136 | the result is the longest prefix free of the character |
| Common.TrimEmptyIffBlank | components/ageGate/age-gate.tsx:352 | `trim()` is empty exactly when every character is JavaScript white space |
| Browser.CookieHeader | components/ageGate/age-gate.tsx:133 | the cookie string is the `"; name=value"` segments without their leading `"; "` |
| Browser.StoreCookie | components/ageGate/age-gate.tsx:173 | assigning `document.cookie`; no contract of its own: `StoreCookieWellFormed` and `AgeGate.StoreCookieString` state what it stores |
| Browser.StoreCookieWellFormed | components/ageGate/age-gate.tsx:173 | assigning `document.cookie` keeps the jar's names distinct and well formed |
| Browser.Window.GetItem | components/ageGate/age-gate.tsx:185-186 | `getItem` returns the stored value, or None for a missing key |
| Browser.Window.SetItem | components/ageGate/age-gate.tsx:213-214 | `setItem` updates one key of one storage area and nothing else |
| Browser.Window.WriteCookie | components/ageGate/age-gate.tsx:173 | the jar becomes the result of storing the cookie string, and storage is untouched |
| AgeGate.CalculateAge | components/ageGate/age-gate.tsx:113-123 | `calculateAge`; no contract of its own: `AgeReached`, `AgeOnAnniversary` and `AgeMonotone` state what it computes |
| AgeGate.AgeReached | components/ageGate/age-gate.tsx:113-123 | the age is at least n exactly when the n-th birthday is not after today |
| AgeGate.AgeOnAnniversary | components/ageGate/age-gate.tsx:113-123 | on the n-th birthday the age is exactly n |
| AgeGate.AgeMonotone | components/ageGate/age-gate.tsx:113-123 | a later today never gives a smaller age |
| AgeGate.GetCookie | components/ageGate/age-gate.tsx:130-140 | `getCookie` on a given `document.cookie`; no contract of its own: `GetCookieFromJar`, `GetCookieDuplicate` and `GetCookieValueShape` state what it returns |
| AgeGate.HeaderSplitsAt | components/ageGate/age-gate.tsx:134 | splitting `"; " + document.cookie` at `"; name="` gives two pieces: the cookies before `name`, and its value followed by the later cookies |
| AgeGate.GetCookieFound | components/ageGate/age-gate.tsx:130-140 | a well-formed jar holding the name yields its value, or None when the value is empty |
| AgeGate.GetCookieMissing | components/ageGate/age-gate.tsx:130-140 | a jar without the name yields None |
| AgeGate.GetCookieFromJar | components/ageGate/age-gate.tsx:130-140 | reading a well-formed jar gives the jar's value for the name, or None when it is absent or empty |
| AgeGate.GetCookieDuplicate | components/ageGate/age-gate.tsx:134-139 | a header in which `"; name="` occurs twice without overlap reads as None, because `split` then gives more than two pieces |
| AgeGate.GetCookieDuplicateExample | components/ageGate/age-gate.tsx:134-139 | `a=1; a=2` reads as None for `a` |
| AgeGate.GetCookieValueShape | components/ageGate/age-gate.tsx:136-137 | `getCookie` never returns an empty string, and its value holds no `;` |
| AgeGate.Digits | components/ageGate/age-gate.tsx:148 | the decimal digits of a number are non-empty and contain no `;` |
| AgeGate.DigitsRoundTrip | components/ageGate/age-gate.tsx:148 | the decimal digits read back as the number |
| AgeGate.DecimalString | components/ageGate/age-gate.tsx:148 | the number's text contains no `;` |
| AgeGate.CookieString | components/ageGate/age-gate.tsx:142-174 | the string `setCookie` builds; no contract of its own: `CookieStringShape`, `CookieStringPair`, `CookieAlwaysHasPath` and `DefaultVerificationCookie` state its form |
| AgeGate.CookieStringShape | components/ageGate/age-gate.tsx:142-174 | the cookie string starts with `name=value`, and a `;` follows it, because every attribute begins with `; ` |
| AgeGate.CookieStringPair | components/ageGate/age-gate.tsx:142-174 | for a valid name and value, the text up to the first `;` is exactly `name=value` |
| AgeGate.StoreCookieString | components/ageGate/age-gate.tsx:142-174 | for any options, writing `setCookie`'s string sets exactly that name to that value in the jar |
| AgeGate.CookieAlwaysHasPath | components/ageGate/age-gate.tsx:159-163 | every cookie string contains `; Path=` followed by the given path when it is non-empty, and by `/` otherwise |
| AgeGate.Spread | components/ageGate/age-gate.tsx:203-208 | one property of an object spread; no contract of its own: `WithCookieDefaults` states the result for each property |
| AgeGate.WithCookieDefaults | components/ageGate/age-gate.tsx:203-208 | the defaults are a one-year Max-Age, Path `/` and SameSite lax; an option left out keeps its default, a given one wins, and one written as `undefined` removes it |
| AgeGate.UndefinedMaxAgeGivesSessionCookie | components/ageGate/age-gate.tsx:146-148 | `maxAge: undefined` drops the `Max-Age` attribute, so the cookie lasts for the session, while the path still defaults to `/` |
| AgeGate.DefaultVerificationCookie | components/ageGate/age-gate.tsx:202-209 | with no options, the cookie for `key` and a value is `key=value; Max-Age=31536000; Path=/; SameSite=lax` |
| AgeGate.OneYearInSeconds | components/ageGate/age-gate.tsx:204 | 60·60·24·365 prints as `31536000` |
| AgeGate.SetCookie | components/ageGate/age-gate.tsx:142-174 | the jar becomes the old jar with the built cookie string stored |
| AgeGate.ParseStored | components/ageGate/age-gate.tsx:182 | "true" reads as true and "false" as false; every other text reads as None |
| AgeGate.GetStoredVerification | components/ageGate/age-gate.tsx:176-191 | `getStoredVerification`; no contract of its own: `SetStoredVerification` and `VerificationCookieRoundTrip` state that it reads back what was stored |
| AgeGate.VerificationCookieRoundTrip | components/ageGate/age-gate.tsx:176-218 | after storing a verification in a cookie, it reads back as stored, and every other cookie reads as before |
| AgeGate.SetStoredVerification | components/ageGate/age-gate.tsx:193-218 | the answer is stored in the chosen place, reads back as stored, and leaves other keys unchanged |
| AgeGate.OpenAfterStorageCheck | components/ageGate/age-gate.tsx:268-282 | a remembered verification closes an uncontrolled gate; no stored answer opens it; a controlled gate or a stored `false` changes nothing |
| AgeGate.Gate.EffectiveOpen | components/ageGate/age-gate.tsx:264-265 | `controlled ? open : internalOpen`; no contract of its own: `SetOpenProp` and `HandleOpenChange` state when its change resets the error |
| AgeGate.Gate.constructor | components/ageGate/age-gate.tsx:258-261 | the gate starts closed, with an empty birth date, the box unticked and no error |
| AgeGate.Gate.StorageEffect | components/ageGate/age-gate.tsx:268-282 | the internal open state becomes what `OpenAfterStorageCheck` gives for the stored answer |
| AgeGate.Gate.ResetErrorEffect | components/ageGate/age-gate.tsx:291-294 | the error is cleared when `resetErrorOnOpenChange` is set |
| AgeGate.Gate.Mount | components/ageGate/age-gate.tsx:268-294 | the storage check, then the error reset |
| AgeGate.Gate.SetOpenProp | components/ageGate/age-gate.tsx:264-294 | the storage check re-runs when controlledness changes; the error resets when the render showing the new prop, or the render after the storage check, changes what is shown |
| AgeGate.Gate.HandleOpenChange | components/ageGate/age-gate.tsx:314-317 | internal state changes only when uncontrolled; `onOpenChange` always runs; the error resets when the open state changed |
| AgeGate.Gate.SetBirthdate | components/ageGate/age-gate.tsx:411 | only the birth date changes |
| AgeGate.Gate.SetRememberChoice | components/ageGate/age-gate.tsx:418-431 | only the checkbox state changes |
| AgeGate.Gate.HandleVerification | components/ageGate/age-gate.tsx:319-349 | a positive answer is stored only when both the prop and the checkbox ask for it; the callback for the answer runs; success closes when `autoCloseOnVerify`; failure keeps the error and calls `onError` |
| AgeGate.Gate.SettleVerification | components/ageGate/age-gate.tsx:330-346 | after the storage step: the answer's callback runs; success closes when `autoCloseOnVerify`; failure keeps the error and calls `onError` |
| AgeGate.Gate.HandleSimpleVerification | components/ageGate/age-gate.tsx:371-373 | the same as `HandleVerification`, with no age |
| AgeGate.Gate.HandleBirthdateVerification | components/ageGate/age-gate.tsx:351-369 | a blank input gives "Please enter your date of birth"; an unparseable one gives "Please enter a valid date"; both change nothing else; otherwise the answer is age ≥ minimumAge |
| AgeGate.RememberedVerification | components/ageGate/age-gate.tsx:268-349 | scenario: with the box ticked, a yes is stored and the gate stays closed once uncontrolled; without it, nothing is stored and the gate opens |
| AgeGate.ReleasedGateClearsError | components/ageGate/age-gate.tsx:264-294 | scenario: a gate held open with the blank-date message, released with nothing stored, ends open with no error, because both renders changed what is shown |
| AgeGate.TwentyFiveYearOld | components/ageGate/age-gate.tsx:351-369 | scenario: a non-blank birth date that the host parses to 25 years before today passes a minimum age of 21, and `onVerified` gets age 25 |
| BlurWrapper.PositionClasses | components/blurWrapper/blur-wrapper.tsx:133-148 | `getPositionClasses`; no contract of its own: `PositionTableByAxis` and `PositionTableInjective` state its table |
| BlurWrapper.PositionTableByAxis | components/blurWrapper/blur-wrapper.tsx:133-148 | the justify class depends only on the horizontal word of the position, the items class only on the vertical word, and no position means the centre |
| BlurWrapper.PositionTableInjective | components/blurWrapper/blur-wrapper.tsx:135-145 | different positions get different class pairs |
| BlurWrapper.NormalizeLabels | components/blurWrapper/blur-wrapper.tsx:217-225 | `normalizedLabels`; no contract of its own: `NormalizeLabelsFieldwise` and `EmptyLabelsObject` state each field |
| BlurWrapper.NormalizeLabelsFieldwise | components/blurWrapper/blur-wrapper.tsx:217-225 | each label comes from `labels` when given there, and from the single prop otherwise |
| BlurWrapper.EmptyLabelsObject | components/blurWrapper/blur-wrapper.tsx:217-225 | an empty `labels` object normalises like no `labels` |
| BlurWrapper.VisualFlags | components/blurWrapper/blur-wrapper.tsx:346-349 | the blur, locking and dimming flags; no contract of its own: `VisualFlagsSpec` and `UnblurredIsPlain` state them |
| BlurWrapper.VisualFlagsSpec | components/blurWrapper/blur-wrapper.tsx:346-349 | a pixel blur replaces the intensity class; blur, pointer-event locking and dimming apply only while blurred, and locking only with `disablePointerEvents` |
| BlurWrapper.UnblurredIsPlain | components/blurWrapper/blur-wrapper.tsx:346-349 | unblurred content gets no classes and no styles |
| BlurWrapper.ShouldAutoOpen | components/blurWrapper/blur-wrapper.tsx:230 | `showOverlayOnBlur ?? showDialogOnBlur ?? true`; no contract of its own: `OverlayFlagWins` and `Wrapper.Mount` state its effect |
| BlurWrapper.OverlayFlagWins | components/blurWrapper/blur-wrapper.tsx:230 | `showOverlayOnBlur` overrides the deprecated `showDialogOnBlur` |
| BlurWrapper.Wrapper.constructor | components/blurWrapper/blur-wrapper.tsx:228 | the internal state starts unset, with no error and nothing pending |
| BlurWrapper.Wrapper.Mount | components/blurWrapper/blur-wrapper.tsx:228-284 | an uncontrolled wrapper's `effectiveOpen` is then exactly `isBlurred && shouldAutoOpen` |
| BlurWrapper.Wrapper.SyncEffect | components/blurWrapper/blur-wrapper.tsx:258-262 | an uncontrolled wrapper opens when it should auto-open and closes when unblurred; a controlled one is untouched |
| BlurWrapper.Wrapper.ResetErrorEffect | components/blurWrapper/blur-wrapper.tsx:281-284 | the error is cleared when `resetErrorOnOpenChange` is set |
| BlurWrapper.Wrapper.SetBlurred | components/blurWrapper/blur-wrapper.tsx:258-284 | unblurring closes an uncontrolled wrapper; blurring opens it when it should auto-open; the error resets when the open state changed |
| BlurWrapper.Wrapper.HandleOpenChange | components/blurWrapper/blur-wrapper.tsx:286-289 | internal state changes only when uncontrolled, and an uncontrolled wrapper's `effectiveOpen` becomes the requested value; `onOpenChange` always runs; the error resets when `effectiveOpen` changed; the pending flags are untouched |
| BlurWrapper.Wrapper.BeginAction | components/blurWrapper/blur-wrapper.tsx:311-313 | the error is cleared, the action's pending flag is on, and the handler is invoked |
| BlurWrapper.Wrapper.SettleAction | components/blurWrapper/blur-wrapper.tsx:314-324 | success runs finally("success"), then `onUnblur` if `autoUnblurOnConfirm`, then closes if `autoCloseDialogOnConfirm`; failure keeps the error and runs the error callback, then finally("error"), without closing; pending ends off |
| BlurWrapper.Wrapper.ConfirmSucceeded | components/blurWrapper/blur-wrapper.tsx:316-318 | after a successful action: finally("success"), then `onUnblur` when `autoUnblurOnConfirm`, then a close when `autoCloseDialogOnConfirm`; the error stays cleared and the pending flags are untouched |
| BlurWrapper.Wrapper.HandleConfirm | components/blurWrapper/blur-wrapper.tsx:311-326 | the primary action run to completion, as `ActionDone` states |
| BlurWrapper.Wrapper.HandleSecondaryConfirm | components/blurWrapper/blur-wrapper.tsx:328-343 | the secondary action run to completion, with its own callbacks and pending flag |
| BlurWrapper.Wrapper.OnInlineKeyDown | components/blurWrapper/blur-wrapper.tsx:462-470 | Enter runs the primary action to completion; Escape is `handleOpenChange(false)`, with its error reset and the pending flags untouched; any other key changes nothing |
| UpgradeModal.NormalizeFeature | components/upgradeModal/upgrade-modal.tsx:71-84 | the label is kept |
| UpgradeModal.NormalizeFeatureAsRendered | components/upgradeModal/upgrade-modal.tsx:71-84 | a feature counts as included unless it says `included: false`; only an object feature keeps a footnote |
| UpgradeModal.GridColumns | components/upgradeModal/upgrade-modal.tsx:171-172 | the grid class for a number of plans; no contract of its own: `GridColumnsCapped` states it |
| UpgradeModal.GridColumnsCapped | components/upgradeModal/upgrade-modal.tsx:171-172 | one column per plan, at least one and at most three |
| UpgradeModal.PlanControls | components/upgradeModal/upgrade-modal.tsx:286-313 | a plan card's controls; no contract of its own: `PlanControlsSpec` states them |
| UpgradeModal.PlanControlsSpec | components/upgradeModal/upgrade-modal.tsx:286-313 | a plan with `onSelect` gets the select button, plus the details link when it has `ctaHref`; a plan without `onSelect` is a link exactly when it has `ctaHref` |
| UpgradeModal.Modal.constructor | components/upgradeModal/upgrade-modal.tsx:113-116 | the modal starts closed unless `defaultOpen`, with nothing pending and no errors |
| UpgradeModal.Modal.ResetOnOpenEffect | components/upgradeModal/upgrade-modal.tsx:133-138 | when open with `resetErrorsOnOpen`, the errors are emptied and nothing is pending |
| UpgradeModal.Modal.SetOpen | components/upgradeModal/upgrade-modal.tsx:120-138 | internal state changes only when uncontrolled; `onOpenChange` always runs; `onClose` runs exactly when closing; opening resets the plan state |
| UpgradeModal.Modal.SetOpenProp | components/upgradeModal/upgrade-modal.tsx:118-138 | a parent opening the modal resets the plan state |
| UpgradeModal.Modal.CloseDialog | components/upgradeModal/upgrade-modal.tsx:120-131 | closing never touches the pending plan or the errors |
| UpgradeModal.Modal.SelectDirect | components/upgradeModal/upgrade-modal.tsx:142-148 | without `onSelect`: `onPlanSelected(id)`, then a close if `autoCloseOnSelect`; the pending plan and errors are untouched |
| UpgradeModal.Modal.BeginSelect | components/upgradeModal/upgrade-modal.tsx:150-151 | the plan becomes pending and its error is set to null; other errors are kept |
| UpgradeModal.Modal.SettleSelect | components/upgradeModal/upgrade-modal.tsx:152-166 | success runs `onSelectSuccess`, then `onPlanSelected`, then a close if auto; failure changes only that plan's error and calls `onSelectError`; nothing is pending afterwards |
| UpgradeModal.Modal.HandlePlanSelect | components/upgradeModal/upgrade-modal.tsx:140-169 | the whole selection: other plans' errors never change; a failing plan shows its error, a succeeding one does not |
| UpgradeModal.OverlappingSelections | components/upgradeModal/upgrade-modal.tsx:150-166 | scenario: when two selections overlap, the first to settle clears `pendingPlan` while the second is still awaited |
| PaywallBanner.ActionControl | components/paywallBanner/paywall-banner.tsx:238-278 | the control offered for an action; no contract of its own: `ActionControlSpec` states it |
| PaywallBanner.ActionControlSpec | components/paywallBanner/paywall-banner.tsx:238-278 | a labelled action is always offered, as a link exactly when it has an `href` and no handler; an unlabelled action is not offered |
| PaywallBanner.Banner.constructor | components/paywallBanner/paywall-banner.tsx:113-118 | the banner starts hydrated exactly when there is no storage key, and open as `defaultOpen` says |
| PaywallBanner.Banner.HydrationEffect | components/paywallBanner/paywall-banner.tsx:120-132 | with a key, an uncontrolled banner holding the dismissal marker closes, and the banner is hydrated afterwards |
| PaywallBanner.Banner.SetOpenProp | components/paywallBanner/paywall-banner.tsx:113-134 | the hydration check re-runs when controlledness changes |
| PaywallBanner.Banner.SetOpen | components/paywallBanner/paywall-banner.tsx:138-146 | internal state changes only when uncontrolled; `onOpenChange` always runs |
| PaywallBanner.Banner.HandleDismiss | components/paywallBanner/paywall-banner.tsx:148-154 | the banner closes, `dismissed` is written under the key when there is one, and `onDismiss` runs |
| PaywallBanner.Banner.BeginCta | components/paywallBanner/paywall-banner.tsx:156-159 | pending is on, the error is cleared, and the handler is invoked |
| PaywallBanner.Banner.SettleCta | components/paywallBanner/paywall-banner.tsx:160-168 | success runs `onCtaSuccess`; failure stores the error and runs `onCtaError`; pending ends off |
| PaywallBanner.Banner.HandleCtaClick | components/paywallBanner/paywall-banner.tsx:156-169 | without a handler nothing happens; otherwise the error is set exactly on failure and pending ends off |
| PaywallBanner.Banner.HandleSecondaryClick | components/paywallBanner/paywall-banner.tsx:171-182 | only the secondary pending flag and its callbacks change; the error and the primary action are untouched |
| PaywallBanner.DismissThenRemount | components/paywallBanner/paywall-banner.tsx:118-186 | scenario: after a dismissal, a new banner with the same key renders nothing before and after its check, while a banner with another key still renders |
| FeatureTooltip.NormalizeHighlight | components/featureTooltip/feature-tooltip.tsx:117-125 | one highlight normalised; no contract of its own: `NormalizeHighlights` states the result for each highlight |
| FeatureTooltip.NormalizeHighlights | components/featureTooltip/feature-tooltip.tsx:114-127 | missing or empty input gives nothing; otherwise length, order and text are kept, and a highlight without its own icon gets `highlightIcon` |
| FeatureTooltip.HighlightIconOnlyFillsGaps | components/featureTooltip/feature-tooltip.tsx:117-125 | changing `highlightIcon` changes only the icons of highlights that have none of their own |
| FeatureTooltip.CtaRowOf | components/featureTooltip/feature-tooltip.tsx:192-222 | the call-to-action row; no contract of its own: `CtaRowSpec` states it |
| FeatureTooltip.CtaRowSpec | components/featureTooltip/feature-tooltip.tsx:192-222 | the row is shown exactly when there is an `href` or a handler; a handler gets the button; "Details" appears exactly when both are set |
| FeatureTooltip.Tooltip.Render | components/featureTooltip/feature-tooltip.tsx:129-133 | what the tooltip renders; no contract of its own: `DisabledShowsChildrenOnly` states the disabled case |
| FeatureTooltip.Tooltip.DisabledShowsChildrenOnly | components/featureTooltip/feature-tooltip.tsx:129-131 | a disabled tooltip renders only its children, whatever its state |
| FeatureTooltip.Tooltip.constructor | components/featureTooltip/feature-tooltip.tsx:75-78 | the tooltip starts closed unless `defaultOpen`, with nothing pending and no error |
| FeatureTooltip.Tooltip.DefaultOpenEffect | components/featureTooltip/feature-tooltip.tsx:80-84 | an uncontrolled tooltip with a defined `defaultOpen` takes it as its state |
| FeatureTooltip.Tooltip.SetProps | components/featureTooltip/feature-tooltip.tsx:80-86 | the effect re-runs when `defaultOpen` or controlledness changes |
| FeatureTooltip.Tooltip.SetOpen | components/featureTooltip/feature-tooltip.tsx:88-96 | internal state changes only when uncontrolled; `onOpenChange` always runs |
| FeatureTooltip.Tooltip.BeginCta | components/featureTooltip/feature-tooltip.tsx:98-101 | pending is on, the error is cleared, and the handler is invoked |
| FeatureTooltip.Tooltip.SettleCta | components/featureTooltip/feature-tooltip.tsx:102-111 | success runs `onCtaSuccess` and then closes; failure stores the error, runs `onCtaError` and stays open; pending ends off |
| FeatureTooltip.Tooltip.HandleCta | components/featureTooltip/feature-tooltip.tsx:98-112 | without a handler nothing happens; otherwise the error is set exactly on failure, success closes an uncontrolled tooltip, and pending ends off |

## Left out

- The file-system walk (`listFiles`), directory creation, JSON serialisation and file writing are I/O. The generator takes the file list as input and returns the documents and the manifest.
- The integrity and HTTP test scripts are left out, apart from the `name@version` pattern used to state the dependency round trip.
- Regular expressions are not modelled in general. The generator is generic over a pattern type with a `test` function. Every shipped pattern is an anchored literal `^text$`, modelled as string equality.
- `Array.prototype.sort` compares UTF-16 code units. The model compares characters, which differs only for characters outside the Basic Multilingual Plane.
- `String.prototype.replace` with `$` patterns in the replacement is not modelled. The rewriter's replacements are plain prefixes.
- Dependency maps are ordered entry lists. A key whose value is explicitly `undefined` is not distinguished from a missing key.
- GenRegistry.SpreadIntoSpec: dependency maps keep insertion order. `Object.entries` on a plain object lists integer-like keys ("0", "42") first, in ascending order, then the other keys in insertion order; the model does not reorder integer-like keys. Package names are never integer-like.
- GenRegistry.MergeDependencies: the merged order is stated as insertion order; with integer-like keys `Object.entries` would list those first, ascending.
- GenRegistry.SpreadDistinctIsCopy: "appended in order" holds for keys that are not integer-like; integer-like keys would move to the front, ascending.
- GenRegistry.MergeDistinctAppends: "defaults followed by the item's own entries" holds for keys that are not integer-like; integer-like keys would move to the front, ascending.
- UpgradeModal.Modal.ErrorShown: `planErrors` is a plain object, so `planErrors[plan.id]` also sees inherited properties: a plan id such as `constructor` or `toString` reads a function, which is truthy and would show an error box. The model is a map holding only the entries that were set.
- Rendering, class merging (`cn`), icons, focus management, `inert`, `setTimeout`, refs and ARIA live regions are not modelled. Only the flags and class strings that the listed helpers compute are modelled.
- Concurrency inside React transitions is not modelled. Each handler runs to completion, or in the two steps around its `await`. The `isPending` flags of `useTransition` in AgeGate are not modelled. BlurWrapper's pending flags are modelled as set on start and cleared on settle.
- Callbacks that are not awaited are assumed not to throw.
- Thrown values are modelled as strings. A falsy thrown value (`throw ""` or `throw null`) would show no error box in the source. The model records it as an error.
- AgeGate: parsing a date string (`new Date(s)`) is a parameter of `HandleBirthdateVerification`, and today's date is an argument. `expires.toUTCString()` is taken as an already formatted string.
- AgeGate.WithCookieDefaults: `maxAge` is an integer. A fractional number of seconds, which the source would print with its decimals, is not modelled.
- AgeGate: `JSON.parse` of a stored value is modelled only for `"true"` and `"false"`. Any other text reads as None, where the source would either return the parsed value or catch the parse error and return null.
- AgeGate.GetCookieFromJar: the read-back is proved only for names without `;` or `=`. Cookie attributes (expiry, domain, path, SameSite) do not change the jar in this model, and whitespace around cookie names is not trimmed.
- AgeGate: the `method` and `customVerification` props only choose what is rendered. Custom verification calls the same handler as the simple buttons.
- The server-side checks (`typeof window === "undefined"`) are not modelled. The widgets always have a window.
- Storage failures that throw (quota, privacy mode) are not modelled. The age gate catches and ignores them. PaywallBanner does not: its hydration effect has `finally` but no `catch`, and `handleDismiss` has no `try`, so there a throwing `setItem` would skip `onDismiss`. The model's `setItem` never throws.
- `UsageProgress` computes with real numbers. Floating-point rounding and `NaN` are not modelled.
- PaywallBanner: the variant colour table and the badge are rendering only.
- UpgradeModal and FeatureTooltip: the plan card and tooltip layout (badges, prices, footnotes) is rendering only.
