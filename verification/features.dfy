/**
 * The feature matrix: a fixed table of features with their support level,
 * a support query, and the (no-op) switches.
 */
module Features {
  import opened Wrappers
  import Errors

  /** The features of the tool, in declaration order. */
  datatype Feature =
    | ActionWorkflow | FullBuild | RunAnywhere | PrebuildScript | PostbuildScript
    | TemplateInit | MultiProjectBuild | DependencyManagement | MultiModuleMerge
    | ModuleRegistry | AIAssist | Notifications | ProxyAcceleration | VMEmulation
    | BuildLogs | QuickInstall | GPGSigning

  /** How far along a feature is. */
  datatype SupportLevel = Unsupported | Supported | InDevelopment | Experimental | Planned

  /** One row of the feature table. */
  datatype FeatureSpec = FeatureSpec(feature: Feature, level: SupportLevel, notes: Option<string>)

  /** The feature manager carries no state. */
  datatype FeaturesManager = FeaturesManager

  const FEATURE_COUNT: nat := 17

  /** Position of a feature in the declaration of `Feature`. */
  function Ordinal(f: Feature): (r: nat)
    ensures r < FEATURE_COUNT
  {
    match f
    case ActionWorkflow => 0
    case FullBuild => 1
    case RunAnywhere => 2
    case PrebuildScript => 3
    case PostbuildScript => 4
    case TemplateInit => 5
    case MultiProjectBuild => 6
    case DependencyManagement => 7
    case MultiModuleMerge => 8
    case ModuleRegistry => 9
    case AIAssist => 10
    case Notifications => 11
    case ProxyAcceleration => 12
    case VMEmulation => 13
    case BuildLogs => 14
    case QuickInstall => 15
    case GPGSigning => 16
  }

  /** Distinct features sit at distinct positions. */
  lemma OrdinalInjective(a: Feature, b: Feature)
    ensures Ordinal(a) == Ordinal(b) ==> a == b
  {
  }

  /** `FeaturesManager::new`. */
  function NewManager(): FeaturesManager {
    FeaturesManager
  }

  /** A level that `is_supported` accepts. */
  predicate IsAvailable(level: SupportLevel) {
    level == Supported || level == InDevelopment || level == Experimental
  }

  /**
   * `list_features`: the fixed table, one row per feature, in the order the
   * features are declared.
   */
  function ListFeatures(m: FeaturesManager): (r: seq<FeatureSpec>)
    ensures |r| == FEATURE_COUNT
    ensures forall i :: 0 <= i < |r| ==> Ordinal(r[i].feature) == i
  {
    [
      FeatureSpec(ActionWorkflow, Supported, None),
      FeatureSpec(FullBuild, Supported, None),
      FeatureSpec(RunAnywhere, Supported, Some("Run without new GitHub repo")),
      FeatureSpec(PrebuildScript, Supported, None),
      FeatureSpec(PostbuildScript, Supported, None),
      FeatureSpec(TemplateInit, InDevelopment, Some("not perfect")),
      FeatureSpec(MultiProjectBuild, InDevelopment, Some("work in progress")),
      FeatureSpec(DependencyManagement, InDevelopment, None),
      FeatureSpec(MultiModuleMerge, Supported, None),
      FeatureSpec(ModuleRegistry, InDevelopment, None),
      FeatureSpec(AIAssist, Supported, Some("AI test/audit/opt/fix")),
      FeatureSpec(Notifications, InDevelopment, None),
      FeatureSpec(ProxyAcceleration, Supported, None),
      FeatureSpec(VMEmulation, Experimental, Some("experimental")),
      FeatureSpec(BuildLogs, Supported, None),
      FeatureSpec(QuickInstall, InDevelopment, None),
      FeatureSpec(GPGSigning, Planned, None)
    ]
  }

  /** Every feature has exactly one row in the table. */
  lemma EachFeatureListedOnce(m: FeaturesManager, f: Feature)
    ensures exists i :: 0 <= i < |ListFeatures(m)| && ListFeatures(m)[i].feature == f
    ensures forall i, j ::
      (0 <= i < |ListFeatures(m)| && 0 <= j < |ListFeatures(m)|
       && ListFeatures(m)[i].feature == f && ListFeatures(m)[j].feature == f) ==> i == j
  {
    var table := ListFeatures(m);
    var k := Ordinal(f);
    OrdinalInjective(table[k].feature, f);
    assert table[k].feature == f;
  }

  /** The level the table lists for `f`. */
  function ListedLevel(m: FeaturesManager, f: Feature): SupportLevel {
    ListFeatures(m)[Ordinal(f)].level
  }

  /** Iterator `any` over the table: some row is about `f` and has an accepted level. */
  function AnyAvailable(rows: seq<FeatureSpec>, f: Feature): (r: bool)
    ensures r <==> exists i :: 0 <= i < |rows| && rows[i].feature == f && IsAvailable(rows[i].level)
  {
    if rows == [] then false
    else if rows[0].feature == f && IsAvailable(rows[0].level) then true
    else
      var r := AnyAvailable(rows[1..], f);
      assert forall i :: 1 <= i < |rows| ==> rows[i] == rows[1..][i - 1];
      AvailableWitnessShifts(rows, f);
      r
  }

  /** A matching row of the tail is a matching row of the whole table. */
  lemma AvailableWitnessShifts(rows: seq<FeatureSpec>, f: Feature)
    requires rows != []
    ensures (exists k :: 0 <= k < |rows[1..]| && rows[1..][k].feature == f && IsAvailable(rows[1..][k].level))
        ==> exists i :: 0 <= i < |rows| && rows[i].feature == f && IsAvailable(rows[i].level)
  {
    if exists k :: 0 <= k < |rows[1..]| && rows[1..][k].feature == f && IsAvailable(rows[1..][k].level) {
      var k :| 0 <= k < |rows[1..]| && rows[1..][k].feature == f && IsAvailable(rows[1..][k].level);
      assert rows[k + 1] == rows[1..][k];
    }
  }

  /** `is_supported`: the table lists `f` as supported, in development or experimental. */
  function IsSupported(m: FeaturesManager, f: Feature): (r: bool)
    ensures r <==> IsAvailable(ListedLevel(m, f))
  {
    var table := ListFeatures(m);
    EachFeatureListedOnce(m, f);
    AnyAvailable(table, f)
  }

  /** The only feature not reported as supported is GPG signing, the one listed as planned. */
  lemma OnlyGpgSigningUnsupported(m: FeaturesManager, f: Feature)
    ensures IsSupported(m, f) <==> f != GPGSigning
    ensures ListedLevel(m, GPGSigning) == Planned
  {
    var table := ListFeatures(m);
    assert forall i :: 0 <= i < FEATURE_COUNT - 1 ==> IsAvailable(table[i].level);
    assert table[FEATURE_COUNT - 1].level == Planned;
    OrdinalInjective(f, GPGSigning);
  }

  /** `enable_feature`: always succeeds and changes nothing. */
  function EnableFeature(m: FeaturesManager, f: Feature): (r: Result<(), Errors.CoreError>)
    ensures r.Ok?
  {
    Ok(())
  }

  /** `disable_feature`: always succeeds and changes nothing. */
  function DisableFeature(m: FeaturesManager, f: Feature): (r: Result<(), Errors.CoreError>)
    ensures r.Ok?
  {
    Ok(())
  }

  /** `configure_feature`: always succeeds, ignoring the configuration, and changes nothing. */
  function ConfigureFeature(m: FeaturesManager, f: Feature, config: Option<string>): (r: Result<(), Errors.CoreError>)
    ensures r.Ok?
  {
    Ok(())
  }
}
