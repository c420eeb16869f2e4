/**
 * Domain types shared by the core and the commands: dependency source kinds,
 * dependency declarations and their resolved and locked forms, authors,
 * module properties and the KernelSU module-id pattern.
 */
module Types {
  import opened Wrappers
  import opened Text
  import opened Pattern

  /** A serde JSON value, kept opaque: the core never looks inside one. */
  datatype JsonValue = JsonValue(raw: string)

  /** Unsigned 64-bit quantities (artifact sizes, version codes). */
  type U64 = n: nat | n < 0x1_0000_0000_0000_0000

  /** Dependency source kind; `Other` keeps any unrecognised keyword verbatim. */
  datatype SourceType = Github | Git | Http | Local | Other(tag: string)

  /** The four keywords with a dedicated source kind. */
  predicate IsSourceKeyword(s: string) {
    s == "github" || s == "git" || s == "http" || s == "local"
  }

  /**
   * `SourceType::from(&str)`: exact, case-sensitive keyword match; anything
   * else is kept as `Other` carrying the input unchanged.
   */
  function SourceTypeFrom(s: string): (r: SourceType)
    ensures r == Github <==> s == "github"
    ensures r == Git <==> s == "git"
    ensures r == Http <==> s == "http"
    ensures r == Local <==> s == "local"
    ensures r.Other? <==> !IsSourceKeyword(s)
    ensures r.Other? ==> r.tag == s
  {
    match s
    case "github" => Github
    case "git" => Git
    case "http" => Http
    case "local" => Local
    case _ => Other(s)
  }

  /** Distinct source strings never collapse to the same kind. */
  lemma SourceTypeFromInjective(a: string, b: string)
    ensures SourceTypeFrom(a) == SourceTypeFrom(b) ==> a == b
  {
  }

  /**
   * Matching is case-sensitive: a source string holding any upper-case ASCII
   * letter (such as "GitHub" or "HTTP") is never one of the known kinds.
   */
  lemma SourceKeywordsCaseSensitive(s: string)
    requires !IsLowerCase(s)
    ensures SourceTypeFrom(s) == Other(s)
  {
    KeywordsAreLowerCase(s);
  }

  lemma KeywordsAreLowerCase(s: string)
    ensures IsSourceKeyword(s) ==> IsLowerCase(s)
  {
    if IsSourceKeyword(s) {
      if s == "github" {
        assert IsLowerCase("github");
      } else if s == "git" {
        assert IsLowerCase("git");
      } else if s == "http" {
        assert IsLowerCase("http");
      } else {
        assert IsLowerCase("local");
      }
    }
  }

  /** A declared dependency, as written under `tool.rmm.dependencies`. */
  datatype DependencySpec = DependencySpec(
    source: string,
    sourceType: Option<SourceType>,
    version: Option<string>,
    asset: Option<string>,
    alias: Option<string>,
    meta: Option<JsonValue>)

  /** A resolver's answer: one concrete version and where to download it. */
  datatype ResolvedDependency = ResolvedDependency(
    spec: DependencySpec,
    resolvedVersion: string,
    downloadUrl: string,
    sha256: Option<string>,
    size: Option<U64>,
    source: string,
    meta: Option<map<string, JsonValue>>)

  /** One entry of the lockfile. */
  datatype DependencyLockEntry = DependencyLockEntry(
    id: string,
    resolvedVersion: string,
    downloadUrl: string,
    sha256: Option<string>,
    source: string,
    installedPath: Option<string>,
    meta: Option<map<string, JsonValue>>)

  /** The lockfile `rmm.lock`: entries keyed by dependency id. */
  datatype RmmLock = RmmLock(
    lockVersion: string,
    generatedAt: string,
    entries: map<string, DependencyLockEntry>)

  /** A module author: a name and an optional e-mail address. */
  datatype Author = Author(name: string, email: Option<string>)

  /** `Author::default()`: empty name, no e-mail. */
  const DEFAULT_AUTHOR: Author := Author("", None)

  /** `Author::is_default`: the author carries no information at all. */
  function IsDefault(a: Author): (r: bool)
    ensures r <==> a == DEFAULT_AUTHOR
  {
    a.name == [] && a.email.None?
  }

  /** Workspace-level settings: the projects and an optional global author. */
  datatype MetaConfig = MetaConfig(projects: seq<string>, defaultAuthor: Option<Author>)

  /** The properties of `module.prop`. */
  datatype ModuleProp = ModuleProp(
    id: string,
    name: Option<string>,
    version: Option<string>,
    versionCode: Option<U64>,
    author: Option<Author>,
    description: Option<string>,
    extra: map<string, string>)

  /** `[a-zA-Z]` */
  const LETTER_CLASS: CharClass := [CharRange('a', 'z'), CharRange('A', 'Z')]

  /** `[a-zA-Z0-9._-]` */
  const ID_CHAR_CLASS: CharClass :=
    [CharRange('a', 'z'), CharRange('A', 'Z'), CharRange('0', '9'),
     CharRange('.', '.'), CharRange('_', '_'), CharRange('-', '-')]

  /** `ModuleProp::ID_REGEX`, the KernelSU module-id pattern `^[a-zA-Z][a-zA-Z0-9._-]+$`. */
  const ID_REGEX: Regex := [Once(LETTER_CLASS), OneOrMore(ID_CHAR_CLASS)]

  /** A character allowed after the first one of a module id. */
  predicate IsIdChar(c: char) {
    IsAsciiLetter(c) || IsAsciiDigit(c) || c == '.' || c == '_' || c == '-'
  }

  /**
   * Whether `id` matches `ID_REGEX`: an ASCII letter, then at least one
   * letter, digit, '.', '_' or '-', and nothing else.
   */
  function IsValidModuleId(id: string): (r: bool)
    ensures r <==>
      && |id| >= 2
      && IsAsciiLetter(id[0])
      && forall i :: 1 <= i < |id| ==> IsIdChar(id[i])
  {
    IdRegexIff(id);
    Matches(ID_REGEX, id)
  }

  /** `ID_REGEX` accepts exactly the ids described by the three conditions. */
  lemma IdRegexIff(id: string)
    ensures Matches(ID_REGEX, id) <==>
      && |id| >= 2
      && IsAsciiLetter(id[0])
      && forall i :: 1 <= i < |id| ==> IsIdChar(id[i])
  {
    OnceThen(LETTER_CLASS, [OneOrMore(ID_CHAR_CLASS)], id);
    assert ID_REGEX == [Once(LETTER_CLASS)] + [OneOrMore(ID_CHAR_CLASS)];
    if id != [] {
      OneOrMoreMatches(ID_CHAR_CLASS, id[1..]);
      ClassesAreAsDeclared(id[0]);
      IdTailInClass(id);
    }
  }

  /** The tail of an id is drawn from `[a-zA-Z0-9._-]` exactly when every later character is an id character. */
  lemma IdTailInClass(id: string)
    requires id != []
    ensures (forall i :: 1 <= i < |id| ==> IsIdChar(id[i]))
        <==> AllInClass(id[1..], ID_CHAR_CLASS)
  {
    forall i | 1 <= i < |id|
      ensures IsIdChar(id[i]) <==> InClass(id[1..][i - 1], ID_CHAR_CLASS)
    {
      ClassesAreAsDeclared(id[i]);
      assert id[1..][i - 1] == id[i];
    }
    forall j | 0 <= j < |id[1..]|
      ensures InClass(id[1..][j], ID_CHAR_CLASS) <==> IsIdChar(id[j + 1])
    {
      ClassesAreAsDeclared(id[j + 1]);
      assert id[1..][j] == id[j + 1];
    }
  }

  /** The two bracket classes of `ID_REGEX` contain what their predicates say. */
  lemma ClassesAreAsDeclared(c: char)
    ensures InClass(c, LETTER_CLASS) <==> IsAsciiLetter(c)
    ensures InClass(c, ID_CHAR_CLASS) <==> IsIdChar(c)
  {
    if IsAsciiLower(c) {
      assert LETTER_CLASS[0].lo <= c <= LETTER_CLASS[0].hi;
      assert ID_CHAR_CLASS[0].lo <= c <= ID_CHAR_CLASS[0].hi;
    }
    if IsAsciiUpper(c) {
      assert LETTER_CLASS[1].lo <= c <= LETTER_CLASS[1].hi;
      assert ID_CHAR_CLASS[1].lo <= c <= ID_CHAR_CLASS[1].hi;
    }
    if IsAsciiDigit(c) {
      assert ID_CHAR_CLASS[2].lo <= c <= ID_CHAR_CLASS[2].hi;
    }
    if c == '.' {
      assert ID_CHAR_CLASS[3].lo <= c <= ID_CHAR_CLASS[3].hi;
    }
    if c == '_' {
      assert ID_CHAR_CLASS[4].lo <= c <= ID_CHAR_CLASS[4].hi;
    }
    if c == '-' {
      assert ID_CHAR_CLASS[5].lo <= c <= ID_CHAR_CLASS[5].hi;
    }
  }
}
