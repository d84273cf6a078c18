/** The registry configuration: where output goes, the base URL, the default
    dependency set, the install-path rewriter and the twelve component items
    (six components, each with a `-full` variant that also ships its README). */
module RegistryConfig {
  import opened Common

  /** A file-selection pattern. Every shipped pattern is an anchored literal
      `/^text$/`, which matches exactly the path `text`. */
  datatype Pattern = AnchoredLiteral(text: string)

  predicate Matches(p: Pattern, path: string)
  {
    path == p.text
  }

  /** One configured registry item; `P` is the pattern type. */
  datatype Item<P> = Item(
    name: string,
    fileName: string,
    itemType: string,
    dependencies: Entries,
    includes: seq<P>,
    excludes: seq<P>,
    registryDependencies: seq<string>)

  datatype Config<P> = Config(outDir: string, baseUrl: string, defaults: Entries, items: seq<Item<P>>)

  const DefaultBaseUrl: string := "https://feature-lock.griffen.codes"

  /** `process.env.NEXT_PUBLIC_REGISTRY_URL || "https://feature-lock.griffen.codes"`. */
  function BaseUrl(env: Option<string>): (url: string)
    ensures Truthy(env) ==> url == env.value
    ensures !Truthy(env) ==> url == DefaultBaseUrl
  {
    if Truthy(env) then env.value else DefaultBaseUrl
  }

  const DefaultDependencies: Entries := [
    ("react", "^19.0.0"),
    ("lucide-react", "^0.454.0"),
    ("class-variance-authority", "^0.7.1"),
    ("clsx", "^2.1.1"),
    ("tailwind-merge", "^3.3.1")
  ]

  // ---------------------------------------------------------------------------
  // pathRewriter

  /** The rewrite table, in the order `Object.entries` visits it. Each prefix maps to itself. */
  const Mappings: seq<(string, string)> := [
    ("components/", "components/"),
    ("lib/", "lib/"),
    ("hooks/", "hooks/"),
    ("types/", "types/")
  ]

  /** The first mapping whose prefix starts the path rewrites it with `replace`;
      a path with no listed prefix is returned as it is. */
  function RewriteWith(path: string, mappings: seq<(string, string)>): string
  {
    if mappings == [] then path
    else if mappings[0].0 <= path then ReplaceFirst(path, mappings[0].0, mappings[0].1)
    else RewriteWith(path, mappings[1..])
  }

  function PathRewriter(fromPath: string): string
  {
    RewriteWith(fromPath, Mappings)
  }

  /** A prefix that starts the path is replaced at the front: `to + rest`. */
  lemma {:induction false} RewriteFirstMatch(path: string, mappings: seq<(string, string)>, k: nat)
    requires k < |mappings| && mappings[k].0 <= path
    requires forall j :: 0 <= j < k ==> !(mappings[j].0 <= path)
    ensures RewriteWith(path, mappings) == mappings[k].1 + path[|mappings[k].0|..]
  {
    if k == 0 {
      ReplaceLeading(path, mappings[0].0, mappings[0].1);
    } else {
      RewriteFirstMatch(path, mappings[1..], k - 1);
    }
  }

  /** A table in which every prefix maps to itself leaves every path unchanged. */
  lemma {:induction false} RewriteWithIdentityTable(path: string, mappings: seq<(string, string)>)
    requires forall j :: 0 <= j < |mappings| ==> mappings[j].0 == mappings[j].1
    ensures RewriteWith(path, mappings) == path
  {
    if mappings != [] {
      if mappings[0].0 <= path {
        ReplaceFirstBySelf(path, mappings[0].0);
      } else {
        RewriteWithIdentityTable(path, mappings[1..]);
      }
    }
  }

  /** The shipped rewriter is the identity: `components/x` stays `components/x`
      (no `@/` prefix is added), and so does every other path. */
  lemma PathRewriterIsIdentity(fromPath: string)
    ensures PathRewriter(fromPath) == fromPath
  {
    RewriteWithIdentityTable(fromPath, Mappings);
  }

  /** A path under `components/` keeps its own prefix as its install target. */
  lemma PathRewriterComponents(fromPath: string)
    requires "components/" <= fromPath
    ensures PathRewriter(fromPath) == "components/" + fromPath[11..]
  {
    RewriteFirstMatch(fromPath, Mappings, 0);
  }

  // ---------------------------------------------------------------------------
  // items

  function ReadmeOf(dir: string): Pattern
  {
    AnchoredLiteral("components/" + dir + "/README.md")
  }

  function Source(dir: string, file: string): Pattern
  {
    AnchoredLiteral("components/" + dir + "/" + file)
  }

  const RadixDialog: Entries := [("@radix-ui/react-dialog", "1.1.4")]

  const BlurWrapperItem: Item<Pattern> :=
    Item("blur-wrapper", "blur-wrapper.json", "registry:ui", RadixDialog,
      [Source("blurWrapper", "blur-wrapper.tsx")],
      [ReadmeOf("blurWrapper")],
      ["button", "dialog"])

  const BlurWrapperFullItem: Item<Pattern> :=
    Item("blur-wrapper-full", "blur-wrapper-full.json", "registry:ui", RadixDialog,
      [Source("blurWrapper", "blur-wrapper.tsx"), ReadmeOf("blurWrapper")],
      [],
      ["button", "dialog"])

  const PaywallBannerItem: Item<Pattern> :=
    Item("paywall-banner", "paywall-banner.json", "registry:ui", [],
      [Source("paywallBanner", "paywall-banner.tsx")],
      [ReadmeOf("paywallBanner")],
      ["button", "badge"])

  const PaywallBannerFullItem: Item<Pattern> :=
    Item("paywall-banner-full", "paywall-banner-full.json", "registry:ui", [],
      [Source("paywallBanner", "paywall-banner.tsx"), ReadmeOf("paywallBanner")],
      [],
      ["button", "badge"])

  const FeatureTooltipItem: Item<Pattern> :=
    Item("feature-tooltip", "feature-tooltip.json", "registry:ui", [],
      [Source("featureTooltip", "feature-tooltip.tsx"), Source("ui", "tooltip.tsx")],
      [ReadmeOf("featureTooltip")],
      ["button", "badge"])

  const FeatureTooltipFullItem: Item<Pattern> :=
    Item("feature-tooltip-full", "feature-tooltip-full.json", "registry:ui", [],
      [Source("featureTooltip", "feature-tooltip.tsx"), ReadmeOf("featureTooltip"), Source("ui", "tooltip.tsx")],
      [],
      ["button", "badge"])

  const UpgradeModalItem: Item<Pattern> :=
    Item("upgrade-modal", "upgrade-modal.json", "registry:ui", RadixDialog,
      [Source("upgradeModal", "upgrade-modal.tsx")],
      [ReadmeOf("upgradeModal")],
      ["button", "badge"])

  const UpgradeModalFullItem: Item<Pattern> :=
    Item("upgrade-modal-full", "upgrade-modal-full.json", "registry:ui", RadixDialog,
      [Source("upgradeModal", "upgrade-modal.tsx"), ReadmeOf("upgradeModal")],
      [],
      ["button", "badge"])

  const UsageProgressItem: Item<Pattern> :=
    Item("usage-progress", "usage-progress.json", "registry:ui", [],
      [Source("usageProgress", "usage-progress.tsx"), Source("usageProgress", "usage-progress-bar.tsx")],
      [ReadmeOf("usageProgress")],
      ["button", "badge"])

  const UsageProgressFullItem: Item<Pattern> :=
    Item("usage-progress-full", "usage-progress-full.json", "registry:ui", [],
      [Source("usageProgress", "usage-progress.tsx"), Source("usageProgress", "usage-progress-bar.tsx"),
       ReadmeOf("usageProgress")],
      [],
      ["button", "badge"])

  const AgeGateItem: Item<Pattern> :=
    Item("age-gate", "age-gate.json", "registry:ui", RadixDialog,
      [Source("ageGate", "age-gate.tsx")],
      [ReadmeOf("ageGate")],
      ["button", "dialog", "input", "label"])

  const AgeGateFullItem: Item<Pattern> :=
    Item("age-gate-full", "age-gate-full.json", "registry:ui", RadixDialog,
      [Source("ageGate", "age-gate.tsx"), ReadmeOf("ageGate")],
      [],
      ["button", "dialog", "input", "label"])

  /** The twelve items, in the order they are configured. */
  const Items: seq<Item<Pattern>> := [
    BlurWrapperItem,
    BlurWrapperFullItem,
    PaywallBannerItem,
    PaywallBannerFullItem,
    FeatureTooltipItem,
    FeatureTooltipFullItem,
    UpgradeModalItem,
    UpgradeModalFullItem,
    UsageProgressItem,
    UsageProgressFullItem,
    AgeGateItem,
    AgeGateFullItem
  ]

  /** The whole configuration, for a given value of the base-URL environment variable. */
  function Shipped(env: Option<string>): Config<Pattern>
  {
    Config("registry", BaseUrl(env), DefaultDependencies, Items)
  }

  // ---------------------------------------------------------------------------
  // Facts about the shipped data

  /** Every item's file name is its name plus `.json`. */
  lemma ItemFileNames()
    ensures |Items| == 12
    ensures forall i :: 0 <= i < |Items| ==> Items[i].fileName == Items[i].name + ".json"
  {
    FirstItemFileNames();
    LastItemFileNames();
  }

  lemma FirstItemFileNames()
    ensures forall i :: 0 <= i < 6 ==> Items[i].fileName == Items[i].name + ".json"
  {
    assert BlurWrapperItem.fileName == BlurWrapperItem.name + ".json";
    assert BlurWrapperFullItem.fileName == BlurWrapperFullItem.name + ".json";
    assert PaywallBannerItem.fileName == PaywallBannerItem.name + ".json";
    assert PaywallBannerFullItem.fileName == PaywallBannerFullItem.name + ".json";
    assert FeatureTooltipItem.fileName == FeatureTooltipItem.name + ".json";
    assert FeatureTooltipFullItem.fileName == FeatureTooltipFullItem.name + ".json";
  }

  lemma LastItemFileNames()
    ensures forall i :: 6 <= i < 12 ==> Items[i].fileName == Items[i].name + ".json"
  {
    assert UpgradeModalItem.fileName == UpgradeModalItem.name + ".json";
    assert UpgradeModalFullItem.fileName == UpgradeModalFullItem.name + ".json";
    assert UsageProgressItem.fileName == UsageProgressItem.name + ".json";
    assert UsageProgressFullItem.fileName == UsageProgressFullItem.name + ".json";
    assert AgeGateItem.fileName == AgeGateItem.name + ".json";
    assert AgeGateFullItem.fileName == AgeGateFullItem.name + ".json";
  }

  /** Item names are pairwise distinct. */
  lemma ItemNamesDistinct()
    ensures forall i, j :: 0 <= i < j < |Items| ==> Items[i].name != Items[j].name
  {
  }

  /** `full` is the `-full` variant of `base`: it ships the same sources plus
      the README the base item excludes, excludes nothing, and has the same
      type and dependencies. */
  ghost predicate IsFullVariant(base: Item<Pattern>, full: Item<Pattern>)
  {
    && full.name == base.name + "-full"
    && |base.excludes| == 1
    && full.excludes == []
    && (forall p :: p in full.includes <==> p in base.includes || p == base.excludes[0])
    && base.excludes[0] !in base.includes
    && full.itemType == base.itemType
    && full.dependencies == base.dependencies
    && full.registryDependencies == base.registryDependencies
  }

  /** Items come in pairs: item 2k+1 is the `-full` variant of item 2k. */
  lemma FullVariants()
    ensures forall k :: 0 <= k < 6 ==> IsFullVariant(Items[2 * k], Items[2 * k + 1])
  {
    BlurWrapperFullVariant();
    PaywallBannerFullVariant();
    FeatureTooltipFullVariant();
    UpgradeModalFullVariant();
    UsageProgressFullVariant();
    AgeGateFullVariant();
  }

  lemma BlurWrapperFullVariant()
    ensures IsFullVariant(BlurWrapperItem, BlurWrapperFullItem)
  {
  }

  lemma PaywallBannerFullVariant()
    ensures IsFullVariant(PaywallBannerItem, PaywallBannerFullItem)
  {
  }

  lemma FeatureTooltipFullVariant()
    ensures IsFullVariant(FeatureTooltipItem, FeatureTooltipFullItem)
  {
  }

  lemma UpgradeModalFullVariant()
    ensures IsFullVariant(UpgradeModalItem, UpgradeModalFullItem)
  {
  }

  lemma UsageProgressFullVariant()
    ensures IsFullVariant(UsageProgressItem, UsageProgressFullItem)
  {
  }

  lemma AgeGateFullVariant()
    ensures IsFullVariant(AgeGateItem, AgeGateFullItem)
  {
  }

  /** The default dependency map lists exactly these five packages. */
  lemma DefaultDependencyNames()
    ensures |DefaultDependencies| == 5
    ensures (set e | e in DefaultDependencies :: e.0)
         == {"react", "lucide-react", "class-variance-authority", "clsx", "tailwind-merge"}
  {
  }

  /** The registry names items depend on, all served by the external registry. */
  const ExternalRegistryNames: set<string> := {"button", "dialog", "badge", "input", "label"}

  /** Every configured registry dependency is an external name, and no item is named like one. */
  lemma ItemRegistryDependencies()
    ensures forall k, d :: 0 <= k < |Items| && 0 <= d < |Items[k].registryDependencies| ==>
      Items[k].registryDependencies[d] in ExternalRegistryNames
    ensures forall k :: 0 <= k < |Items| ==> Items[k].name !in ExternalRegistryNames
  {
  }

  /** Every item's own dependency map is empty or the Radix dialog entry alone. */
  lemma ItemDependencies()
    ensures forall k :: 0 <= k < |Items| ==> Items[k].dependencies == [] || Items[k].dependencies == RadixDialog
  {
  }
}
