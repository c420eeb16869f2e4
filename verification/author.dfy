/**
 * Author handling: choosing an author from several sources by priority,
 * building one from git settings, and validating one.
 */
module Authors {
  import opened Wrappers
  import opened Text
  import opened Types

  /** A source offers an author worth taking: present and not the default placeholder. */
  predicate Usable(a: Option<Author>) {
    a.Some? && !IsDefault(a.value)
  }

  /**
   * Reference definition of the priority rule: the first usable candidate,
   * or the default author when none is usable.
   */
  function FirstUsable(cands: seq<Option<Author>>): (r: Author)
    ensures IsDefault(r) <==> forall i :: 0 <= i < |cands| ==> !Usable(cands[i])
    ensures !IsDefault(r) ==>
      exists k :: 0 <= k < |cands| && cands[k] == Some(r)
        && forall j :: 0 <= j < k ==> !Usable(cands[j])
  {
    if cands == [] then DEFAULT_AUTHOR
    else if Usable(cands[0]) then cands[0].value
    else
      var r := FirstUsable(cands[1..]);
      assert forall i :: 1 <= i < |cands| ==> cands[i] == cands[1..][i - 1];
      FirstUsableWitnessShifts(cands, r);
      r
  }

  /** A first usable position in the tail, behind an unusable head, is one position later in the whole list. */
  lemma FirstUsableWitnessShifts(cands: seq<Option<Author>>, r: Author)
    requires cands != [] && !Usable(cands[0])
    ensures (exists k :: 0 <= k < |cands[1..]| && cands[1..][k] == Some(r)
               && forall j :: 0 <= j < k ==> !Usable(cands[1..][j]))
        ==> exists k :: 0 <= k < |cands| && cands[k] == Some(r)
               && forall j :: 0 <= j < k ==> !Usable(cands[j])
  {
    if exists k :: 0 <= k < |cands[1..]| && cands[1..][k] == Some(r)
         && forall j :: 0 <= j < k ==> !Usable(cands[1..][j]) {
      var k :| 0 <= k < |cands[1..]| && cands[1..][k] == Some(r)
        && forall j :: 0 <= j < k ==> !Usable(cands[1..][j]);
      assert cands[k + 1] == Some(r);
      assert forall j :: 1 <= j < k + 1 ==> cands[j] == cands[1..][j - 1];
    }
  }

  /**
   * `merge_authors`: priority primary > fallback > fallback2; a missing or
   * default candidate is skipped; with nothing usable, the default author.
   */
  function MergeAuthors(primary: Option<Author>, fallback: Option<Author>, fallback2: Option<Author>): (r: Author)
    ensures Usable(primary) ==> r == primary.value
    ensures !Usable(primary) && Usable(fallback) ==> r == fallback.value
    ensures !Usable(primary) && !Usable(fallback) && Usable(fallback2) ==> r == fallback2.value
    ensures IsDefault(r) <==> !Usable(primary) && !Usable(fallback) && !Usable(fallback2)
    ensures IsDefault(r) ==> r == DEFAULT_AUTHOR
  {
    if primary.Some? && !IsDefault(primary.value) then primary.value
    else if fallback.Some? && !IsDefault(fallback.value) then fallback.value
    else if fallback2.Some? && !IsDefault(fallback2.value) then fallback2.value
    else DEFAULT_AUTHOR
  }

  /** `merge_authors` is the priority rule applied to the list [primary, fallback, fallback2]. */
  lemma MergeIsFirstUsable(primary: Option<Author>, fallback: Option<Author>, fallback2: Option<Author>)
    ensures MergeAuthors(primary, fallback, fallback2) == FirstUsable([primary, fallback, fallback2])
  {
    var c := [primary, fallback, fallback2];
    assert c[1..] == [fallback, fallback2];
    assert c[1..][1..] == [fallback2];
    assert c[1..][1..][1..] == [];
    assert FirstUsable([fallback2]) == if Usable(fallback2) then fallback2.value else DEFAULT_AUTHOR;
    assert FirstUsable([fallback, fallback2])
        == if Usable(fallback) then fallback.value else FirstUsable([fallback2]);
  }

  /**
   * A default candidate never wins over a later usable one: whenever any
   * candidate is usable, the merged author is usable too.
   */
  lemma MergeNeverLosesUsable(primary: Option<Author>, fallback: Option<Author>, fallback2: Option<Author>)
    requires Usable(primary) || Usable(fallback) || Usable(fallback2)
    ensures !IsDefault(MergeAuthors(primary, fallback, fallback2))
    ensures MergeAuthors(primary, fallback, fallback2) in
      {primary.UnwrapOr(DEFAULT_AUTHOR), fallback.UnwrapOr(DEFAULT_AUTHOR), fallback2.UnwrapOr(DEFAULT_AUTHOR)}
  {
  }

  /** `Author::merge`: the same priority rule, by delegation to `merge_authors`. */
  function AuthorMerge(primary: Option<Author>, fallback: Option<Author>, fallback2: Option<Author>): (r: Author)
    ensures r == FirstUsable([primary, fallback, fallback2])
  {
    MergeIsFirstUsable(primary, fallback, fallback2);
    MergeAuthors(primary, fallback, fallback2)
  }

  /** `Author::merge` and `merge_authors` agree on every input. */
  lemma AuthorMergeIsMergeAuthors(primary: Option<Author>, fallback: Option<Author>, fallback2: Option<Author>)
    ensures AuthorMerge(primary, fallback, fallback2) == MergeAuthors(primary, fallback, fallback2)
  {
    MergeIsFirstUsable(primary, fallback, fallback2);
  }

  /** `author_from_module_prop`: the `author` field of `module.prop`, as is. */
  function AuthorFromModuleProp(prop: ModuleProp): (r: Option<Author>)
    ensures r == prop.author
  {
    prop.author
  }

  /**
   * `author_from_git_info`: an author exactly when both the git name and the
   * git e-mail are set and non-empty; it carries them unchanged.
   */
  function AuthorFromGitInfo(gitName: Option<string>, gitEmail: Option<string>): (r: Option<Author>)
    ensures r.Some? <==> gitName.Some? && gitEmail.Some? && gitName.value != [] && gitEmail.value != []
    ensures r.Some? ==> r.value.name == gitName.value && r.value.email == Some(gitEmail.value)
    ensures r.Some? ==> !IsDefault(r.value)
  {
    match (gitName, gitEmail)
    case (Some(name), Some(email)) =>
      if name != [] && email != [] then Some(Author(name, Some(email))) else None
    case _ => None
  }

  /** `author_from_meta`: a placeholder that never yields an author. */
  function AuthorFromMeta(meta: MetaConfig): (r: Option<Author>)
    ensures r.None?
  {
    None
  }

  /**
   * `validate_author`: the name holds some non-whitespace character and the
   * e-mail, when present, contains '@'.
   */
  function ValidateAuthor(author: Author): (r: bool)
    ensures r <==>
      && (exists i :: 0 <= i < |author.name| && !IsWhitespace(author.name[i]))
      && (author.email.None? || '@' in author.email.value)
  {
    Trim(author.name) != [] && (author.email.None? || '@' in author.email.value)
  }

  /** A name made only of whitespace (or no name at all) never validates. */
  lemma BlankNameRejected(author: Author)
    requires AllWhitespace(author.name)
    ensures !ValidateAuthor(author)
  {
  }

  /**
   * The author-sync priority as the core composes it: a usable module.prop
   * author wins; otherwise complete git settings win; the workspace meta
   * never contributes.
   */
  lemma SyncAuthorPriority(prop: ModuleProp, gitName: Option<string>, gitEmail: Option<string>, meta: MetaConfig)
    ensures Usable(prop.author) ==>
      AuthorMerge(AuthorFromModuleProp(prop), AuthorFromGitInfo(gitName, gitEmail), AuthorFromMeta(meta))
        == prop.author.value
    ensures !Usable(prop.author) && AuthorFromGitInfo(gitName, gitEmail).Some? ==>
      AuthorMerge(AuthorFromModuleProp(prop), AuthorFromGitInfo(gitName, gitEmail), AuthorFromMeta(meta))
        == Author(gitName.value, Some(gitEmail.value))
    ensures !Usable(prop.author) && AuthorFromGitInfo(gitName, gitEmail).None? ==>
      IsDefault(AuthorMerge(AuthorFromModuleProp(prop), AuthorFromGitInfo(gitName, gitEmail), AuthorFromMeta(meta)))
  {
    MergeIsFirstUsable(AuthorFromModuleProp(prop), AuthorFromGitInfo(gitName, gitEmail), AuthorFromMeta(meta));
  }
}
