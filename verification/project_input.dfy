/** `InputCollector.collectProjectInfo`: the three answers of the input steps, validated
    and normalised into the project information the generator works from. */
module ProjectInput {
  import opened Outcomes
  import opened Text
  import opened IgnoreList

  const LinkRequired: string := "Repository link is required"
  const LinkNotGitHub: string := "Please enter a valid GitHub URL"
  const GitHubHost: string := "github.com"
  const NoWorkspace: string := "No workspace folder found. Please open a folder first."

  /** The repository-link step's `validateInput`: the message shown under the box, or
      `None` when the value may be submitted. */
  function ValidateRepoLink(value: string): Option<string> {
    if value == "" || Trim(value) == "" then Some(LinkRequired)
    else if !Includes(value, GitHubHost) then Some(LinkNotGitHub)
    else None
  }

  /** A link is accepted exactly when it holds a non-blank character and
      `github.com` occurs in it somewhere; an all-blank link is reported as missing even
      when it could not hold `github.com` anyway. */
  lemma ValidateRepoLinkSpec(value: string)
    ensures ValidateRepoLink(value).None? <==>
      (exists k :: 0 <= k < |value| && !IsSpace(value[k])) && (exists i :: OccursAt(value, GitHubHost, i))
    ensures ValidateRepoLink(value) == Some(LinkRequired) <==> AllSpace(value)
  {
    TrimEmpty(value);
    IncludesAt(value, GitHubHost);
  }

  /** What the command goes on with. */
  datatype ProjectInfo = ProjectInfo(
    projectOverview: string, repoLink: string, workspaceFolder: string, extraIgnores: seq<string>)

  /** An answer the repository-link box can return: dismissed, or a value its
      validation accepts. */
  predicate LinkAnswer(answer: Option<string>) {
    answer.Some? ==> ValidateRepoLink(answer.value).None?
  }

  /** `collectProjectInfo`: the workspace is looked up first, then the answers of the three
      steps are read in order. Dismissing the overview or the link step (`None`) cancels,
      dismissing the third step means no extra names. */
  function CollectProjectInfo(workspace: Option<string>, overview: Option<string>, repoLink: Option<string>,
                              extraIgnores: Option<string>): (r: Result<Option<ProjectInfo>, string>)
    requires LinkAnswer(repoLink)
  {
    if workspace.None? then Err(NoWorkspace)
    else if overview.None? then Ok(None)
    else if !Truthy(repoLink) then Ok(None)
    else Ok(Some(ProjectInfo(Trim(overview.value), Trim(repoLink.value), workspace.value, ParseExtraIgnores(extraIgnores))))
  }

  /** The project information is produced exactly when there is a workspace and neither
      of the first two steps was dismissed; then its link is non-empty and still holds
      `github.com` after trimming, and its extra names are trimmed, non-empty and free of
      commas. */
  lemma CollectedInfo(workspace: Option<string>, overview: Option<string>, repoLink: Option<string>,
                      extraIgnores: Option<string>)
    requires LinkAnswer(repoLink)
    ensures var r := CollectProjectInfo(workspace, overview, repoLink, extraIgnores);
      (r.Ok? && r.value.Some?) <==> workspace.Some? && overview.Some? && repoLink.Some?
    ensures var r := CollectProjectInfo(workspace, overview, repoLink, extraIgnores);
      r.Ok? && r.value.Some? ==>
        && r.value.value.repoLink != ""
        && Includes(r.value.value.repoLink, GitHubHost)
        && (forall k :: 0 <= k < |r.value.value.extraIgnores| ==>
              r.value.value.extraIgnores[k] != "" && ',' !in r.value.value.extraIgnores[k])
  {
    var r := CollectProjectInfo(workspace, overview, repoLink, extraIgnores);
    if workspace.Some? && overview.Some? && repoLink.Some? {
      var link := repoLink.value;
      assert link != "";
      TrimKeepsInfix(link, GitHubHost);
      if Truthy(extraIgnores) {
        ParsedNamesShape(extraIgnores.value);
        CustomIgnoresSpec(Split(extraIgnores.value, ','));
      }
    }
  }

  /** Trimming keeps every occurrence of a pattern without spaces at its ends. */
  lemma TrimKeepsInfix(s: string, pat: string)
    requires pat != [] && !IsSpace(pat[0]) && !IsSpace(pat[|pat| - 1])
    requires Includes(s, pat)
    ensures Includes(Trim(s), pat) && Trim(s) != ""
  {
    var i := IncludedAt(s, pat);
    OccurrenceInsideTrim(s, pat, i);
    var lo := LeadingSpaces(s);
    TrimSlice(s);
    IncludedInSlice(s, pat, i, lo, lo + |Trim(s)|);
  }

  /** A slice holding an occurrence includes the pattern. */
  lemma IncludedInSlice(s: string, pat: string, i: nat, lo: nat, hi: nat)
    requires lo <= i && i + |pat| <= hi <= |s| && OccursAt(s, pat, i)
    ensures Includes(s[lo..hi], pat)
  {
    OccursInSlice(s, pat, i, lo, hi);
    OccursIncludes(s[lo..hi], pat, i - lo);
  }

  /** An inclusion has a position. */
  lemma IncludedAt(s: string, pat: string) returns (i: int)
    requires Includes(s, pat)
    ensures OccursAt(s, pat, i)
  {
    IncludesAt(s, pat);
    i :| OccursAt(s, pat, i);
  }

  /** An occurrence is an inclusion. */
  lemma OccursIncludes(s: string, pat: string, i: int)
    requires OccursAt(s, pat, i)
    ensures Includes(s, pat)
  {
    IncludesAt(s, pat);
  }

  /** An occurrence of such a pattern lies inside what `trim` keeps. */
  lemma OccurrenceInsideTrim(s: string, pat: string, i: int)
    requires pat != [] && !IsSpace(pat[0]) && !IsSpace(pat[|pat| - 1])
    requires OccursAt(s, pat, i)
    ensures LeadingSpaces(s) <= i && i + |pat| <= LeadingSpaces(s) + |Trim(s)|
  {
    assert s[i] == pat[0] by {
      assert s[i..i + |pat|][0] == s[i];
    }
    assert s[i + |pat| - 1] == pat[|pat| - 1] by {
      assert s[i..i + |pat|][|pat| - 1] == s[i + |pat| - 1];
    }
    TrimKeepsNonSpace(s, i);
    TrimKeepsNonSpace(s, i + |pat| - 1);
  }

  /** A non-space character of `s` lies inside what `trim` keeps. */
  lemma TrimKeepsNonSpace(s: string, i: nat)
    requires i < |s| && !IsSpace(s[i])
    ensures LeadingSpaces(s) <= i < LeadingSpaces(s) + |Trim(s)|
  {
    TrimSlice(s);
    TrimRemovesSpaces(s);
  }

  /** An occurrence inside a slice is an occurrence in the slice. */
  lemma OccursInSlice(s: string, pat: string, i: nat, lo: nat, hi: nat)
    requires lo <= i && i + |pat| <= hi <= |s| && OccursAt(s, pat, i)
    ensures OccursAt(s[lo..hi], pat, i - lo)
  {
    var t := s[lo..hi];
    forall k | 0 <= k < |pat| ensures t[i - lo + k] == pat[k] {
      assert t[i - lo + k] == s[i + k];
      assert s[i..i + |pat|][k] == s[i + k];
    }
    assert t[i - lo..i - lo + |pat|] == pat;
  }
}
