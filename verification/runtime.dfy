/**
 * Runtime targets (Magisk, KernelSU): parsing a textual hint, rendering a
 * target back to text, detecting the runtime from the environment, and the
 * per-runtime BusyBox location.
 */
module Runtime {
  import opened Wrappers
  import opened Text

  /** The runtime a module or artifact is meant for. */
  datatype RuntimeTarget = Magisk | KernelSU | Both | Unknown

  /** The hint spellings that name KernelSU, in any letter case. */
  predicate NamesKernelSU(s: string) {
    EqualsIgnoreCase(s, "kernelsu") || EqualsIgnoreCase(s, "kernel-su") || EqualsIgnoreCase(s, "ksu")
  }

  /**
   * `RuntimeTarget::from_str_hint`: the hint is lower-cased and compared with
   * the known names, so letter case never matters; anything else is `Unknown`.
   */
  function FromStrHint(s: string): (r: RuntimeTarget)
    ensures r == Magisk <==> EqualsIgnoreCase(s, "magisk")
    ensures r == KernelSU <==> NamesKernelSU(s)
    ensures r == Both <==> EqualsIgnoreCase(s, "both")
    ensures r == Unknown <==>
      !EqualsIgnoreCase(s, "magisk") && !NamesKernelSU(s) && !EqualsIgnoreCase(s, "both")
  {
    var lower := ToLower(s);
    ToLowerMatches(s, "magisk");
    ToLowerMatches(s, "kernelsu");
    ToLowerMatches(s, "kernel-su");
    ToLowerMatches(s, "ksu");
    ToLowerMatches(s, "both");
    if lower == "magisk" then Magisk
    else if lower == "kernelsu" || lower == "kernel-su" || lower == "ksu" then KernelSU
    else if lower == "both" then Both
    else Unknown
  }

  /** `RuntimeTarget::as_str`: the canonical lower-case name of a target. */
  function AsStr(t: RuntimeTarget): (r: string)
    ensures r != [] && IsLowerCase(r)
  {
    match t
    case Magisk => "magisk"
    case KernelSU => "kernelsu"
    case Both => "both"
    case Unknown => "unknown"
  }

  /** Rendering a target and parsing the text back gives the same target, `Unknown` included. */
  lemma HintRoundTrip(t: RuntimeTarget)
    ensures FromStrHint(AsStr(t)) == t
  {
    var s := AsStr(t);
    assert ToLower(s) == s;
    ToLowerMatches(s, s);
  }

  /** The four targets render to four different names. */
  lemma AsStrInjective(a: RuntimeTarget, b: RuntimeTarget)
    ensures AsStr(a) == AsStr(b) ==> a == b
  {
    if AsStr(a) == AsStr(b) {
      HintRoundTrip(a);
      HintRoundTrip(b);
    }
  }

  /** KernelSU's marker variable holds one of the two values the detector accepts. */
  predicate KsuFlagSet(env: map<string, string>) {
    "KSU" in env && (env["KSU"] == "true" || env["KSU"] == "1")
  }

  /** One of Magisk's version variables is present, whatever its value. */
  predicate MagiskVarsPresent(env: map<string, string>) {
    "MAGISK_VER" in env || "MAGISK_VER_CODE" in env
  }

  /**
   * `detect_runtime_environment`: `KSU` set to exactly "true" or "1" means
   * KernelSU, even when Magisk's variables are present too; otherwise a
   * Magisk variable means Magisk; otherwise `Unknown`. Never `Both`.
   */
  function DetectRuntimeEnvironment(env: map<string, string>): (r: RuntimeTarget)
    ensures r == KernelSU <==> KsuFlagSet(env)
    ensures r == Magisk <==> !KsuFlagSet(env) && MagiskVarsPresent(env)
    ensures r == Unknown <==> !KsuFlagSet(env) && !MagiskVarsPresent(env)
    ensures r != Both
  {
    if "KSU" in env && (var v := env["KSU"]; v == "true" || v == "1") then KernelSU
    else if "MAGISK_VER" in env || "MAGISK_VER_CODE" in env then Magisk
    else Unknown
  }

  /** Detection reads only the three marker variables: other entries never change the answer. */
  lemma DetectIgnoresOtherVariables(env: map<string, string>, key: string, value: string)
    requires key != "KSU" && key != "MAGISK_VER" && key != "MAGISK_VER_CODE"
    ensures DetectRuntimeEnvironment(env[key := value]) == DetectRuntimeEnvironment(env)
  {
  }

  const MAGISK_BUSYBOX: string := "/data/adb/magisk/busybox"
  const KSU_BUSYBOX: string := "/data/adb/ksu/bin/busybox"

  /**
   * `default_busybox_path_for_target`: a path hint for the two concrete
   * runtimes, none for `Both` and `Unknown`.
   */
  function DefaultBusyboxPath(t: RuntimeTarget): (r: Option<string>)
    ensures r.Some? <==> t == Magisk || t == KernelSU
    ensures t == Magisk ==> r == Some(MAGISK_BUSYBOX)
    ensures t == KernelSU ==> r == Some(KSU_BUSYBOX)
  {
    match t
    case Magisk => Some(MAGISK_BUSYBOX)
    case KernelSU => Some(KSU_BUSYBOX)
    case _ => None
  }

  /** The two hints are distinct absolute paths, so each runtime gets its own BusyBox. */
  lemma BusyboxPathsDistinct(a: RuntimeTarget, b: RuntimeTarget)
    requires DefaultBusyboxPath(a).Some? && DefaultBusyboxPath(b).Some?
    ensures DefaultBusyboxPath(a) == DefaultBusyboxPath(b) ==> a == b
    ensures DefaultBusyboxPath(a).value[0] == '/'
  {
    if a != b {
      assert MAGISK_BUSYBOX[10] != KSU_BUSYBOX[10];
    }
  }
}
