/**
 * The `add` command's option handling: the default options and the lowering
 * of parsed command-line arguments into internal options.
 */
module Add {
  import opened Wrappers
  import opened Runtime

  /** Internal options of `add`. */
  datatype AddOptions = AddOptions(
    save: bool,
    allowPrerelease: bool,
    target: Option<RuntimeTarget>,
    asset: Option<string>,
    alias: Option<string>,
    dryRun: bool,
    noInstall: bool,
    verbose: bool)

  /** Parsed command-line arguments of `rmm add`. */
  datatype AddArgs = AddArgs(
    spec: string,
    noSave: bool,
    allowPrerelease: bool,
    target: Option<string>,
    asset: Option<string>,
    alias: Option<string>,
    dryRun: bool,
    noInstall: bool,
    verbose: bool)

  /** `AddOptions::default()`: persist to the manifest, every other switch off, nothing selected. */
  function DefaultAddOptions(): (o: AddOptions)
    ensures o.save
    ensures !o.allowPrerelease && !o.dryRun && !o.noInstall && !o.verbose
    ensures o.target.None? && o.asset.None? && o.alias.None?
  {
    AddOptions(
      save := true,
      allowPrerelease := false,
      target := None,
      asset := None,
      alias := None,
      dryRun := false,
      noInstall := false,
      verbose := false)
  }

  /**
   * The `--target` table of `options_from_args`: exact, case-sensitive, with
   * no entry for `Both`; every unlisted word means `Unknown`.
   */
  function TargetFromFlag(t: string): (r: RuntimeTarget)
    ensures r == KernelSU <==> t == "kernelsu" || t == "ksu"
    ensures r == Magisk <==> t == "magisk"
    ensures r == Unknown <==> t != "kernelsu" && t != "ksu" && t != "magisk"
    ensures r != Both
  {
    match t
    case "kernelsu" => KernelSU
    case "ksu" => KernelSU
    case "magisk" => Magisk
    case _ => Unknown
  }

  /**
   * `options_from_args`: `save` is the negation of `--no-save`, a given
   * target is looked up in the flag table, and every other field is copied.
   */
  function OptionsFromArgs(args: AddArgs): (o: AddOptions)
    ensures o.save == !args.noSave
    ensures o.target.None? <==> args.target.None?
    ensures args.target.Some? ==> o.target == Some(TargetFromFlag(args.target.value))
    ensures o.target != Some(Both)
    ensures o.allowPrerelease == args.allowPrerelease
    ensures o.asset == args.asset && o.alias == args.alias
    ensures o.dryRun == args.dryRun && o.noInstall == args.noInstall && o.verbose == args.verbose
  {
    AddOptions(
      save := !args.noSave,
      allowPrerelease := args.allowPrerelease,
      target := match args.target
                case Some(t) => Some(TargetFromFlag(t))
                case None => None,
      asset := args.asset,
      alias := args.alias,
      dryRun := args.dryRun,
      noInstall := args.noInstall,
      verbose := args.verbose)
  }

  /** Arguments with no flag given lower to the default options, whatever the spec. */
  lemma NoFlagsGiveDefaults(spec: string)
    ensures OptionsFromArgs(AddArgs(spec, false, false, None, None, None, false, false, false)) == DefaultAddOptions()
  {
  }

  /**
   * The flag table is a strict part of the hint parser's table: whatever the
   * flag recognises, the hint parser reads the same way.
   */
  lemma FlagTableWithinHintTable(t: string)
    ensures TargetFromFlag(t) != Unknown ==> FromStrHint(t) == TargetFromFlag(t)
  {
    if t == "kernelsu" || t == "ksu" || t == "magisk" {
      HintRoundTrip(KernelSU);
      HintRoundTrip(Magisk);
      assert FromStrHint("ksu") == KernelSU by {
        Text.ToLowerMatches("ksu", "ksu");
      }
    }
  }

  /**
   * Where the two tables part: "both", "kernel-su" and upper-case spellings
   * are read by the hint parser but are `Unknown` as `--target` values.
   */
  lemma FlagTableStricterThanHint()
    ensures TargetFromFlag("both") == Unknown && FromStrHint("both") == Both
    ensures TargetFromFlag("kernel-su") == Unknown && FromStrHint("kernel-su") == KernelSU
    ensures TargetFromFlag("KSU") == Unknown && FromStrHint("KSU") == KernelSU
  {
    HintRoundTrip(Both);
    Text.ToLowerMatches("kernel-su", "kernel-su");
    Text.ToLowerMatches("KSU", "ksu");
  }
}
