# RootModuleMaker core, modelled in Dafny

RootModuleMaker (`rmm`) is a build and dependency tool for Android root modules. Those are the modules installed through Magisk or KernelSU. Much of its Rust code is signatures only. The lockfile store, the fetcher and the proxy rotation have `todo!()` bodies, and no resolver implementation exists. This project models the parts that actually have behaviour. All of them are pure, total functions:

- **Source kinds and authors** (`core/types.rs`, `core/author.rs`). It maps a source keyword to a `SourceType` and tests for the default author. It merges up to three optional authors by priority and builds an author from git name/e-mail. It also validates an author and defines the KernelSU module-id pattern `^[a-zA-Z][a-zA-Z0-9._-]+$`.
- **Runtime targets** (`core/runtime.rs`). It parses a case-insensitive target hint and renders a target back to text. It detects the runtime from an environment map and gives the BusyBox path for each runtime.
- **`add` options** (`cmds/add.rs`). These are the default options and the lowering of command-line arguments, with its own case-sensitive `--target` table.
- **Feature matrix** (`core/features.rs`). This is a fixed table of 17 features, a support query and no-op switches.
- **Major version** (`cmds/sync/version.rs`). It takes the text before the first '.' and parses it as a `u32`.
- **Batch resolution** (`core/deps.rs`). This is the default `Resolver::resolve_many`, over an abstract single-spec `resolve` that may fail.

Modules, one per source file plus helpers:

- `Wrappers`: `Option` and `Result`.
- `Text`: the standard-library string operations the core uses. These are ASCII lower-casing, `trim` with Rust's White_Space set, and `split` on one character.
- `Pattern`: an anchored matcher for bracket classes with optional `+`. It is enough to run `ID_REGEX`.
- `Errors`: `CoreError`.
- `Types`, `Authors`, `Runtime`, `Add`, `Features`, `Version` and `Deps`.

Each operation that computes something has a partner the model proves it against:

- a reference definition: `FirstUsable` for the author priority, `ParseU32Spec` for Rust's integer parser, `ResolveAll` for `resolve_many`;
- an inverse: `Join` for `Split`, `AsStr` for `FromStrHint`;
- or an independently stated predicate, such as case-insensitive equality or the character classes of the id pattern.

The doc comment of `core/deps.rs` (lines 33-39) describes resolvers that query remote sources. No type in the repository implements the `Resolver` trait, so the model covers only the trait's one default method with a body, `resolve_many`. The lockfile model in `core/types.rs` (lines 98-117) has `todo!()` read and write functions, so only its data shape is modelled. The model has two error types. `Errors.CoreError` is the code's `CoreError`. `Version.IntErrorKind` is the kind carried by Rust's `ParseIntError`, which `ParseU32Spec`, `ParseU32` and `ExtractMajorVersion` return.

## Model

| member | source | states |
|---|---|---|
| Types.SourceTypeFrom | rust/src/core/types.rs:28-38 | "github", "git", "http" and "local" map to their own kinds, each from exactly that string. Every other string maps to `Other` and carries exactly the input. |
| Types.SourceTypeFromInjective | rust/src/core/types.rs:30-35 | Two different source strings never map to the same kind, so no information is lost. |
| Types.SourceKeywordsCaseSensitive | rust/src/core/types.rs:30-35 | Matching is case-sensitive. Any string with an upper-case ASCII letter (such as "GitHub" or "HTTP") becomes `Other` of itself. |
| Types.IsDefault | rust/src/core/types.rs:155-157 | `is_default` holds exactly for the derived `Author::default()`, with empty name and no e-mail. |
| Types.IsValidModuleId | rust/src/core/types.rs:263-265 | Matching `ID_REGEX` is the same as three conditions together: at least 2 characters, an ASCII letter first, and only letters, digits, '.', '_' or '-' after it. |
| Types.IdRegexIff | rust/src/core/types.rs:263-265 | The anchored pattern `^[a-zA-Z][a-zA-Z0-9._-]+$` accepts an id exactly when it has at least 2 characters, an ASCII letter first, and only letters, digits, '.', '_' or '-' after it. |
| Authors.MergeAuthors | rust/src/core/author.rs:9-34 | A usable primary wins. Otherwise a usable fallback wins, otherwise a usable fallback2. With none usable, the result is the default author. The result is default exactly when no input is usable. |
| Authors.MergeIsFirstUsable | rust/src/core/author.rs:12-33 | `merge_authors` equals the priority rule: the first usable author in the list [primary, fallback, fallback2]. |
| Authors.MergeNeverLosesUsable | rust/src/core/author.rs:12-31 | If any input is usable, the merged author is not the default. It is one of the inputs. |
| Authors.AuthorMerge | rust/src/core/types.rs:165-170 | `Author::merge` returns the first usable candidate of [primary, fallback, fallback2]. |
| Authors.AuthorMergeIsMergeAuthors | rust/src/core/types.rs:167-170 | `Author::merge` and `merge_authors` agree on every input. |
| Authors.AuthorFromModuleProp | rust/src/core/author.rs:38-40 | Returns the module.prop `author` field unchanged. |
| Authors.AuthorFromGitInfo | rust/src/core/author.rs:44-57 | Returns an author exactly when both the name and the e-mail are given and non-empty. That author carries the name and `Some(email)` and is never the default. |
| Authors.AuthorFromMeta | rust/src/core/author.rs:60-63 | Always returns `None`. |
| Authors.ValidateAuthor | rust/src/core/author.rs:66-68 | Valid exactly when both hold: the name has a non-whitespace character (it is non-empty after `trim`), and the e-mail is absent or contains '@'. |
| Authors.BlankNameRejected | rust/src/core/author.rs:67 | A name made only of whitespace, or an empty name, never validates. |
| Authors.SyncAuthorPriority | rust/src/cmds/sync/author.rs:10-19 | Merging the module.prop, git and meta authors works in that order. A usable module.prop author wins. Otherwise complete git settings win. Otherwise the result is default, because the meta source never contributes. |
| Text.Trim | rust/src/core/author.rs:67 | `trim` leaves nothing exactly when the text is all whitespace. |
| Text.Split | rust/src/cmds/sync/version.rs:49 | `split('.')` yields at least one piece. No piece contains '.'. Joining the pieces with '.' gives back the input. The first piece is the text before the first '.'. |
| Text.ToLowerMatches | rust/src/core/runtime.rs:40 | Lower-casing a text gives a given lower-case word exactly when the text spells that word in some letter case. |
| Runtime.FromStrHint | rust/src/core/runtime.rs:39-46 | The hint ignores letter case. "magisk" gives `Magisk`. "kernelsu", "kernel-su" and "ksu" give `KernelSU`. "both" gives `Both`. Everything else gives `Unknown`. |
| Runtime.AsStr | rust/src/core/runtime.rs:49-56 | Every target renders to a non-empty, lower-case name. |
| Runtime.HintRoundTrip | rust/src/core/runtime.rs:39-56 | Parsing a rendered target gives the same target back, `Unknown` included. |
| Runtime.AsStrInjective | rust/src/core/runtime.rs:49-56 | The four targets render to four different names. |
| Runtime.DetectRuntimeEnvironment | rust/src/core/runtime.rs:106-117 | `KSU` equal to exactly "true" or "1" gives `KernelSU`, even when Magisk variables are set. Otherwise `MAGISK_VER` or `MAGISK_VER_CODE` gives `Magisk`, and with neither the result is `Unknown`. The result is never `Both`. |
| Runtime.DetectIgnoresOtherVariables | rust/src/core/runtime.rs:108-116 | Adding or changing any variable other than the three markers never changes the detected runtime. |
| Runtime.DefaultBusyboxPath | rust/src/core/runtime.rs:181-187 | There is a BusyBox path exactly for `Magisk` and `KernelSU`: `/data/adb/magisk/busybox` and `/data/adb/ksu/bin/busybox` respectively. |
| Runtime.BusyboxPathsDistinct | rust/src/core/runtime.rs:183-184 | The two runtimes get different BusyBox paths, both absolute. |
| Add.DefaultAddOptions | rust/src/cmds/add.rs:42-55 | The default options save to the manifest. Every other switch is off, and target, asset and alias are all absent. |
| Add.NoFlagsGiveDefaults | rust/src/cmds/add.rs:159-174 | Lowering arguments that set no flag gives exactly `AddOptions::default()`, whatever the dependency spec. |
| Add.TargetFromFlag | rust/src/cmds/add.rs:163-167 | Exact, case-sensitive lookup: "kernelsu" and "ksu" give `KernelSU` and "magisk" gives `Magisk`. Every other string gives `Unknown`, and `Both` is never produced. |
| Add.OptionsFromArgs | rust/src/cmds/add.rs:159-174 | `save` is `!no_save`. A target is present exactly when the flag was given, and then it is the table lookup, never `Both`. asset, alias, allow_prerelease, dry_run, no_install and verbose are copied unchanged. |
| Add.FlagTableWithinHintTable | rust/src/cmds/add.rs:163-167 | Whenever the `--target` table recognises a word, the case-insensitive hint parser reads it the same way. |
| Add.FlagTableStricterThanHint | rust/src/cmds/add.rs:163-167 | "both", "kernel-su" and "KSU" are `Unknown` as `--target` values. The hint parser reads them as `Both`, `KernelSU` and `KernelSU`. |
| Features.ListFeatures | rust/src/core/features.rs:59-82 | The table has 17 rows, and row i is the i-th declared feature. |
| Features.EachFeatureListedOnce | rust/src/core/features.rs:63-81 | Every feature appears in the table exactly once. |
| Features.AnyAvailable | rust/src/core/features.rs:86 | The `any` scan succeeds exactly when some row names the feature with level Supported, InDevelopment or Experimental. |
| Features.IsSupported | rust/src/core/features.rs:85-87 | A feature is supported exactly when its listed level is Supported, InDevelopment or Experimental. |
| Features.OnlyGpgSigningUnsupported | rust/src/core/features.rs:63-87 | `GPGSigning` is listed as `Planned`. It is the only feature for which `is_supported` is false. |
| Features.EnableFeature | rust/src/core/features.rs:90-92 | Always succeeds. |
| Features.DisableFeature | rust/src/core/features.rs:95-97 | Always succeeds. |
| Features.ConfigureFeature | rust/src/core/features.rs:100-102 | Always succeeds, whatever the configuration. |
| Version.ParseU32Spec | rust/src/cmds/sync/version.rs:50 | Parsing a `u32` fails with `Empty` exactly on the empty string. It succeeds exactly when the text is decimal digits, optionally after a leading '+', with value at most 4294967295. The result is that value. |
| Version.ParseU32 | rust/src/cmds/sync/version.rs:50 | Rust's digit loop agrees with the reference on every input, error kind included. It does a checked multiply and a checked add, and checks for an invalid digit before an overflow. |
| Version.ExtractMajorVersion | rust/src/cmds/sync/version.rs:48-51 | The result is the text before the first '.' parsed as a `u32`. It succeeds exactly when that text is a digit string (optionally after '+') with value at most 4294967295. The "0" fallback is never used. |
| Version.MajorVersionIgnoresTail | rust/src/cmds/sync/version.rs:49-50 | Only the text before the first '.' matters: `head.tail` gives the same answer as `head`. |
| Version.MajorVersionErrors | rust/src/cmds/sync/version.rs:49-50 | An empty first component, as in "" or ".5", is the `Empty` error. A non-digit after the first character of the first component is always an error. |
| Version.MajorVersionExamplesOk | rust/src/cmds/sync/version.rs:48-51 | "1.2.3" and "1.x" both give 1. |
| Version.MajorVersionExamplesErr | rust/src/cmds/sync/version.rs:48-51 | ".5" gives `Empty` and "v1.0" gives `InvalidDigit`. |
| Version.NewVersionInfo | rust/src/cmds/sync/version.rs:11-13 | Stores the version and the version code verbatim. |
| Deps.ResolveAll | rust/src/core/deps.rs:42-48 | Reference batch semantics. The batch succeeds exactly when every spec resolves, and then result i is `resolve(specs[i])`, one result per spec. Otherwise it returns the error of the first failing spec. |
| Deps.ResolveMany | rust/src/core/deps.rs:42-48 | The push loop with early return equals the reference. On success it calls `resolve` once per spec. On failure it stops right after the first failing spec, so no later spec is resolved. An empty batch gives `Ok` of an empty list. |
| Deps.ResolveAllFailsAtFirstFailure | rust/src/core/deps.rs:45 | Whenever spec k is the first to fail, the batch result is exactly spec k's error. |

## Left out

- Every `todo!()` body is left out, because the code defines no behaviour to model. That covers `DependencySpec::parse`, `RmmLock::read_from_project`/`write_to_project`, `Author::from_git` and every `DependencyManager` method. It also covers the `deps::helpers` functions, `ModuleProp::validate`, the `rmm_*` conversions, the module.prop/update.json readers and writers, and the `todo!()` functions of `runtime.rs` and `add.rs`. `DependencySpec`, `ResolvedDependency`, `DependencyLockEntry` and `RmmLock` are kept as datatypes only.
- Deps.ResolveMany: the single-spec `resolve` is taken to be pure and deterministic. Two equal specs in one batch therefore get the same answer, and a call has no effects. In Rust, `resolve` queries remote sources, so a repeated spec could succeed once and fail later in the same batch. Those differing answers, and the network effects, are not modelled.
- The `Resolver` trait becomes a function parameter `resolve`, since concrete resolvers do not exist. `deps.rs` declares a second `SourceType` identical to the one in `types.rs`; only the `types.rs` one is modelled.
- `env.rs` (proxy settings, `run_with_retry`) is left out: its bodies are stubs, and the retry is asynchronous with real-time delays.
- `cache.rs` (`CacheItem`) is left out: its time-to-live is a `Duration` and `is_expired` always returns false.
- File-system, process and network work is left out: `init.rs`, `install.rs`, `publish.rs`, `packaging.rs`, `build.rs`, `check.rs` and `run.rs`.
- Stubs and one-line helpers outside the core are left out: `utils.rs`, `git.rs`, `project.rs`, `discovery.rs`, `sync.rs`, the other functions of `cmds/sync/version.rs` and `add_usage`.
- `sync_author_info` is left out as an operation. It is asynchronous, its module.prop comes from a stub returning `ModuleProp::default()`, its git values are literals, and it discards the merged author. Its merge order is stated by `Authors.SyncAuthorPriority`.
- The `test_*.rs` files are left out: they only check that stubs do not fail.
- Other data shapes are left out because no modelled operation uses them: `RmmCore`, `ProjectTable`, `ToolTable`, `RmmToolTable`, `RmmProject`, `UpdateJson`, `WebUiConfig`, `ProjectScanResult`, `GitInfo`, `DeleteStrategy`, `ScriptKind` and `ZygiskSupport`. serde JSON values are an opaque `JsonValue`.
- Runtime.FromStrHint: `to_lowercase` is modelled over ASCII only. Full Unicode case mapping is not modelled. For example, the Kelvin sign 'K' lowers to 'k' in Rust, so "\u{212A}SU" is `KernelSU` there but `Unknown` here.
- Features.EnableFeature: "the manager and its table are unchanged" holds by construction and is not stated as a contract. `FeaturesManager` has a single value, and the table does not depend on it. The same applies to `DisableFeature` and `ConfigureFeature`.
- `FeaturesManager::new` is modelled as `Features.NewManager` without a contract, since the manager has only one value.
- `CoreError`'s `Io` and `Toml` variants carry only a message, since their payloads are foreign error types.
