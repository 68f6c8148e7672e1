/** `src/lib/github-utils.ts`: the repository URL parser, the wiki page record
    and the blob filter applied to a fetched repository tree. */
module GitHubUtils {
  import opened Wrappers
  import opened Text
  import Seqs

  datatype RepoRef = RepoRef(owner: string, repo: string)

  const InvalidUrlMessage := "Invalid GitHub URL"

  /** The literal `github\.com\/` that every match starts with. */
  const Host := "github.com/"

  /** What the capture group `([^\/]+)` accepts. */
  predicate OwnerName(o: string)
  {
    |o| > 0 && '/' !in o
  }

  /** What the capture group `([^\/\.]+?)` accepts. */
  predicate RepoName(r: string)
  {
    |r| > 0 && '/' !in r && '.' !in r
  }

  /** What `(?:\.git)?(?:\/|$)` accepts at the start of the text after the
      repository name: the end of the string, a `/`, or `.git` followed by the
      end of the string or a `/`. */
  predicate Continues(rest: string)
  {
    || rest == ""
    || rest[0] == '/'
    || (StartsWith(rest, ".git") && (|rest| == 4 || rest[4] == '/'))
  }

  /** Reference semantics of one match of the regular expression starting at
      position `i` of `u`, capturing `ref`. */
  ghost predicate MatchesWith(u: string, i: nat, ref: RepoRef)
  {
    var lit := Host + ref.owner + "/" + ref.repo;
    && OwnerName(ref.owner)
    && RepoName(ref.repo)
    && i + |lit| <= |u|
    && u[i..i + |lit|] == lit
    && Continues(u[i + |lit|..])
  }

  /** The first position at or after `j` that holds a character of `stop`,
      or the end of `u`. */
  function RunEnd(u: string, j: nat, stop: set<char>): (k: nat)
    requires j <= |u|
    ensures j <= k <= |u|
    ensures forall m :: j <= m < k ==> u[m] !in stop
    ensures k < |u| ==> u[k] in stop
    decreases |u| - j
  {
    if j == |u| || u[j] in stop then j else RunEnd(u, j + 1, stop)
  }

  lemma RunEndIs(u: string, j: nat, stop: set<char>, k: nat)
    requires j <= k <= |u|
    requires forall m :: j <= m < k ==> u[m] !in stop
    requires k < |u| ==> u[k] in stop
    ensures RunEnd(u, j, stop) == k
  {
  }

  /** `(?:\/|$)` at position `k`. */
  predicate AtBoundary(u: string, k: nat)
  {
    k == |u| || (k < |u| && u[k] == '/')
  }

  /** The regular expression tried at position `i`. The greedy owner group can
      only end right before the next `/`; the lazy repository group can only
      succeed once it has consumed every following character that is neither
      `/` nor `.`, because before that the rest of the pattern needs a `.`, a
      `/` or the end of the string. So a match at `i` is unique. */
  function MatchAt(u: string, i: nat): (r: Option<RepoRef>)
    ensures r.Some? ==> OwnerName(r.value.owner) && RepoName(r.value.repo)
  {
    if !(i + |Host| <= |u| && u[i..i + |Host|] == Host) then None
    else
      var ownerStart := i + |Host|;
      var ownerEnd := RunEnd(u, ownerStart, {'/'});
      if ownerEnd == ownerStart || ownerEnd == |u| then None
      else
        var repoEnd := RunEnd(u, ownerEnd + 1, {'/', '.'});
        var found := RepoRef(u[ownerStart..ownerEnd], u[ownerEnd + 1..repoEnd]);
        if repoEnd == ownerEnd + 1 then None
        else if AtBoundary(u, repoEnd) then Some(found)
        else if StartsWith(u[repoEnd..], ".git") && AtBoundary(u, repoEnd + 4) then Some(found)
        else None
  }

  /** What a match at `i` returns is a match of the reference semantics. */
  lemma MatchAtSound(u: string, i: nat)
    requires MatchAt(u, i).Some?
    ensures MatchesWith(u, i, MatchAt(u, i).value)
  {
    var ref := MatchAt(u, i).value;
    var ownerStart := i + |Host|;
    var ownerEnd := RunEnd(u, ownerStart, {'/'});
    var repoEnd := RunEnd(u, ownerEnd + 1, {'/', '.'});
    assert u[i..ownerStart] == Host;
    assert ref.owner == u[ownerStart..ownerEnd];
    assert ref.repo == u[ownerEnd + 1..repoEnd];
    LiteralAt(u, i, ref.owner, ref.repo);
    var e := repoEnd;
    assert Continues(u[e..]) by {
      if !AtBoundary(u, e) {
        assert u[e..][..4] == u[e..e + 4];
      }
    }
  }

  /** The pieces a match reads, side by side, spell the literal. */
  lemma LiteralAt(u: string, i: nat, owner: string, repo: string)
    requires i + |Host| + |owner| + 1 + |repo| <= |u|
    requires u[i..i + |Host|] == Host
    requires u[i + |Host|..i + |Host| + |owner|] == owner
    requires u[i + |Host| + |owner|] == '/'
    requires u[i + |Host| + |owner| + 1..i + |Host| + |owner| + 1 + |repo|] == repo
    ensures u[i..i + |Host + owner + "/" + repo|] == Host + owner + "/" + repo
  {
    var lit := Host + owner + "/" + repo;
    var a := i + |Host|;
    var b := a + |owner|;
    forall m | 0 <= m < |lit| ensures u[i + m] == lit[m] {
      if m < |Host| {
        assert u[i + m] == u[i..a][m];
      } else if m < |Host| + |owner| {
        assert u[i + m] == u[a..b][m - |Host|];
      } else if m > |Host| + |owner| {
        assert u[i + m] == u[b + 1..b + 1 + |repo|][m - |Host| - |owner| - 1];
      }
    }
  }

  /** Where the text at `i` spells `github.com/owner/repo` and the repository
      name cannot be extended, the match at `i` captures exactly that owner and
      repository, and succeeds iff the rest continues as the pattern allows. */
  lemma MatchAtOn(u: string, i: nat, ref: RepoRef)
    requires OwnerName(ref.owner) && RepoName(ref.repo)
    requires i + |Host + ref.owner + "/" + ref.repo| <= |u|
    requires u[i..i + |Host + ref.owner + "/" + ref.repo|] == Host + ref.owner + "/" + ref.repo
    requires var e := i + |Host + ref.owner + "/" + ref.repo|; e == |u| || u[e] == '/' || u[e] == '.'
    ensures MatchAt(u, i) ==
      (if Continues(u[i + |Host + ref.owner + "/" + ref.repo|..]) then Some(ref) else None)
  {
    var ownerEnd := i + |Host| + |ref.owner|;
    var repoEnd := ownerEnd + 1 + |ref.repo|;
    RunsOfLiteral(u, i, ref);
    MatchAtParts(u, i, ownerEnd, repoEnd);
  }

  /** The owner run and the repository run of a spelled-out literal end
      where its owner and repository end. */
  lemma RunsOfLiteral(u: string, i: nat, ref: RepoRef)
    requires OwnerName(ref.owner) && RepoName(ref.repo)
    requires i + |Host + ref.owner + "/" + ref.repo| <= |u|
    requires u[i..i + |Host + ref.owner + "/" + ref.repo|] == Host + ref.owner + "/" + ref.repo
    requires var e := i + |Host + ref.owner + "/" + ref.repo|; e == |u| || u[e] == '/' || u[e] == '.'
    ensures |Host + ref.owner + "/" + ref.repo| == |Host| + |ref.owner| + 1 + |ref.repo|
    ensures u[i..i + |Host|] == Host
    ensures RunEnd(u, i + |Host|, {'/'}) == i + |Host| + |ref.owner|
    ensures RunEnd(u, i + |Host| + |ref.owner| + 1, {'/', '.'}) == i + |Host| + |ref.owner| + 1 + |ref.repo|
    ensures u[i + |Host|..i + |Host| + |ref.owner|] == ref.owner
    ensures u[i + |Host| + |ref.owner| + 1..i + |Host| + |ref.owner| + 1 + |ref.repo|] == ref.repo
  {
    var ownerStart := i + |Host|;
    var ownerEnd := ownerStart + |ref.owner|;
    var repoEnd := ownerEnd + 1 + |ref.repo|;
    LiteralPieces(u, i, ref.owner, ref.repo);
    forall m | ownerStart <= m < ownerEnd ensures u[m] !in {'/'} {
      assert u[m] == u[ownerStart..ownerEnd][m - ownerStart];
    }
    assert u[ownerEnd] == u[ownerEnd..ownerEnd + 1][0] == '/';
    forall m | ownerEnd + 1 <= m < repoEnd ensures u[m] !in {'/', '.'} {
      assert u[m] == u[ownerEnd + 1..repoEnd][m - ownerEnd - 1];
    }
    RunEndIs(u, ownerStart, {'/'}, ownerEnd);
    RunEndIs(u, ownerEnd + 1, {'/', '.'}, repoEnd);
  }

  /** The slices of a spelled-out literal that hold its pieces. */
  lemma LiteralPieces(u: string, i: nat, owner: string, repo: string)
    requires i + |Host + owner + "/" + repo| <= |u|
    requires u[i..i + |Host + owner + "/" + repo|] == Host + owner + "/" + repo
    ensures u[i..i + |Host|] == Host
    ensures u[i + |Host|..i + |Host| + |owner|] == owner
    ensures u[i + |Host| + |owner|] == '/'
    ensures u[i + |Host| + |owner| + 1..i + |Host| + |owner| + 1 + |repo|] == repo
  {
    SliceSplit(u, i, Host + owner + "/", repo);
    SliceSplit(u, i, Host + owner, "/");
    SliceSplit(u, i, Host, owner);
    var k := i + |Host| + |owner|;
    assert u[k] == u[k..k + 1][0];
  }

  /** Once both runs are known, the match at `i` is decided by the text after
      the repository name. */
  lemma MatchAtParts(u: string, i: nat, ownerEnd: nat, repoEnd: nat)
    requires i + |Host| <= |u| && u[i..i + |Host|] == Host
    requires i + |Host| < ownerEnd < |u| && RunEnd(u, i + |Host|, {'/'}) == ownerEnd
    requires ownerEnd + 1 < repoEnd <= |u| && RunEnd(u, ownerEnd + 1, {'/', '.'}) == repoEnd
    ensures MatchAt(u, i) ==
      (if Continues(u[repoEnd..]) then Some(RepoRef(u[i + |Host|..ownerEnd], u[ownerEnd + 1..repoEnd])) else None)
  {
    var rest := u[repoEnd..];
    assert AtBoundary(u, repoEnd) <==> rest == "" || rest[0] == '/';
    if repoEnd + 4 <= |u| {
      assert u[repoEnd..][..4] == rest[..4];
      assert repoEnd + 4 < |u| ==> u[repoEnd + 4] == rest[4];
    }
  }

  /** A slice that spells `a + b` splits into a slice spelling `a` and one
      spelling `b`. */
  lemma SliceSplit(s: string, i: nat, a: string, b: string)
    requires i + |a| + |b| <= |s| && s[i..i + |a| + |b|] == a + b
    ensures s[i..i + |a|] == a && s[i + |a|..i + |a| + |b|] == b
  {
    assert s[i..i + |a|] == s[i..i + |a| + |b|][..|a|];
    assert s[i + |a|..i + |a| + |b|] == s[i..i + |a| + |b|][|a|..];
  }

  /** The executable match agrees with the reference semantics, both ways. */
  lemma MatchAtIff(u: string, i: nat, ref: RepoRef)
    ensures MatchAt(u, i) == Some(ref) <==> MatchesWith(u, i, ref)
  {
    if MatchAt(u, i) == Some(ref) {
      MatchAtSound(u, i);
    }
    if MatchesWith(u, i, ref) {
      var e := i + |Host + ref.owner + "/" + ref.repo|;
      assert e < |u| ==> u[e] == u[e..][0];
      MatchAtOn(u, i, ref);
    }
  }

  /** The unanchored search: the leftmost position at or after `i` where the
      expression matches. */
  function SearchFrom(u: string, i: nat): (r: Option<RepoRef>)
    ensures r.Some? ==> OwnerName(r.value.owner) && RepoName(r.value.repo)
    decreases |u| - i
  {
    if i > |u| then None
    else match MatchAt(u, i)
      case Some(ref) => Some(ref)
      case None => SearchFrom(u, i + 1)
  }

  /** A result of the search is a match with no match before it. */
  lemma {:induction false} SearchFromSound(u: string, s: nat) returns (i: nat)
    requires SearchFrom(u, s).Some?
    ensures s <= i <= |u| && MatchAt(u, i) == SearchFrom(u, s)
    ensures forall j :: s <= j < i ==> MatchAt(u, j).None?
    decreases |u| - s
  {
    if MatchAt(u, s).Some? {
      i := s;
    } else {
      i := SearchFromSound(u, s + 1);
    }
  }

  /** The leftmost match is what the search returns. */
  lemma {:induction false} SearchFromComplete(u: string, s: nat, i: nat)
    requires s <= i <= |u| && MatchAt(u, i).Some?
    requires forall j :: s <= j < i ==> MatchAt(u, j).None?
    ensures SearchFrom(u, s) == MatchAt(u, i)
    decreases i - s
  {
    if s < i {
      SearchFromComplete(u, s + 1, i);
    }
  }

  /** `parseGitHubUrl`: the owner and repository of the leftmost match, or the
      error the source throws when nothing matches. */
  function ParseGitHubUrl(u: string): (r: Result<RepoRef>)
    ensures r.Ok? ==> OwnerName(r.value.owner) && RepoName(r.value.repo)
    ensures r.Err? ==> r.message == InvalidUrlMessage
  {
    match SearchFrom(u, 0)
    case Some(ref) => Ok(ref)
    case None => Err(InvalidUrlMessage)
  }

  /** Parsing succeeds with `ref` exactly when the expression matches with
      `ref` at some position and matches at no earlier position. */
  lemma ParseLeftmost(u: string, ref: RepoRef)
    ensures ParseGitHubUrl(u) == Ok(ref) <==>
      exists i: nat :: i <= |u| && MatchesWith(u, i, ref) &&
        forall j: nat, other :: j < i ==> !MatchesWith(u, j, other)
  {
    if ParseGitHubUrl(u) == Ok(ref) {
      var i := SearchFromSound(u, 0);
      MatchAtIff(u, i, ref);
      forall j: nat, other | j < i ensures !MatchesWith(u, j, other) {
        MatchAtIff(u, j, other);
      }
    }
    if exists i: nat :: i <= |u| && MatchesWith(u, i, ref) && forall j: nat, other :: j < i ==> !MatchesWith(u, j, other) {
      var i: nat :| i <= |u| && MatchesWith(u, i, ref) && forall j: nat, other :: j < i ==> !MatchesWith(u, j, other);
      MatchAtIff(u, i, ref);
      forall j: nat | j < i ensures MatchAt(u, j).None? {
        if MatchAt(u, j).Some? {
          MatchAtIff(u, j, MatchAt(u, j).value);
        }
      }
      SearchFromComplete(u, 0, i);
    }
  }

  const Https := "https://"

  /** At the position after `https://` of a canonical URL the expression
      matches exactly when the text after the repository name continues as the
      pattern allows. */
  lemma CanonicalMatch(owner: string, repo: string, rest: string)
    requires OwnerName(owner) && RepoName(repo)
    requires rest == "" || rest[0] == '/' || rest[0] == '.'
    ensures MatchAt(Https + Host + owner + "/" + repo + rest, |Https|) ==
      (if Continues(rest) then Some(RepoRef(owner, repo)) else None)
  {
    var u := Https + Host + owner + "/" + repo + rest;
    var i := |Https|;
    var lit := Host + owner + "/" + repo;
    assert u == Https + lit + rest;
    assert u[i..i + |lit|] == lit;
    assert u[i + |lit|..] == rest;
    assert |u| > i + |lit| ==> u[i + |lit|] == rest[0];
    MatchAtOn(u, i, RepoRef(owner, repo));
  }

  /** No match can start inside `https://`: none of its characters is the `g`
      that the literal `github.com/` begins with. */
  lemma NoMatchInScheme(u: string, j: nat)
    requires StartsWith(u, Https) && j < |Https|
    ensures MatchAt(u, j).None?
  {
    assert u[j] != 'g' by {
      assert u[j] == u[..|Https|][j] == Https[j];
    }
    if j + |Host| <= |u| {
      assert u[j..j + |Host|][0] == u[j];
      assert u[j..j + |Host|] != Host;
    }
  }

  /** Round trip: a URL built from an owner and a repository name parses back
      to them, whether it ends there, carries `.git`, `.git/`, or any path
      after a `/` (such as `/tree/main`). */
  lemma ParseCanonical(owner: string, repo: string, rest: string)
    requires OwnerName(owner) && RepoName(repo)
    requires Continues(rest)
    ensures ParseGitHubUrl(Https + Host + owner + "/" + repo + rest) == Ok(RepoRef(owner, repo))
  {
    var u := Https + Host + owner + "/" + repo + rest;
    CanonicalMatch(owner, repo, rest);
    assert StartsWith(u, Https) by {
      assert u[..|Https|] == Https;
    }
    forall j: nat | j < |Https| ensures MatchAt(u, j).None? {
      NoMatchInScheme(u, j);
    }
    SearchFromComplete(u, 0, |Https|);
  }

  /** A repository name followed by a `.` that does not start `.git` plus a
      `/` or the end is rejected: `https://github.com/a/b.c` throws. */
  lemma ParseRejectsDottedRepo()
    ensures ParseGitHubUrl("https://github.com/a/b.c") == Err(InvalidUrlMessage)
  {
    var u := "https://github.com/a/b.c";
    forall j: nat | j <= |u| ensures MatchAt(u, j).None? {
      NoMatchInDottedUrl(j);
    }
    if SearchFrom(u, 0).Some? {
      var i := SearchFromSound(u, 0);
    }
  }

  /** The expression matches nowhere in `https://github.com/a/b.c`. */
  lemma NoMatchInDottedUrl(j: nat)
    ensures MatchAt("https://github.com/a/b.c", j).None?
  {
    var u := "https://github.com/a/b.c";
    if j < |Https| {
      assert StartsWith(u, Https) by {
        assert u[..|Https|] == Https;
      }
      NoMatchInScheme(u, j);
    } else if j == |Https| {
      assert u == Https + Host + "a" + "/" + "b" + ".c";
      CanonicalMatch("a", "b", ".c");
    } else if j + |Host| <= |u| {
      assert u[j] != Host[0] by {
        assert u[9..14] == "ithub";
        assert u[j] == u[9..14][j - 9];
      }
      assert u[j..j + |Host|][0] == u[j];
    }
  }

  /** The page record built by `createWikiPageData`. */
  datatype WikiPageData = WikiPageData(
    repoUrl: string, branch: string, title: string, summary: string, shortSummary: string)

  /** The title is `owner/repo`; the other fields are passed through. */
  function CreateWikiPageData(repoUrl: string, branch: string, owner: string, repo: string,
                              summary: string, shortSummary: string): (d: WikiPageData)
    ensures d.repoUrl == repoUrl && d.branch == branch
    ensures d.summary == summary && d.shortSummary == shortSummary
    ensures d.title == owner + "/" + repo
  {
    WikiPageData(repoUrl, branch, owner + "/" + repo, summary, shortSummary)
  }

  /** The title of a parsed repository splits back into its owner and name, so
      two parsed repositories share a title only if they are the same. */
  lemma TitleSplitsBack(ref: RepoRef, repoUrl: string, branch: string, summary: string, shortSummary: string)
    requires OwnerName(ref.owner) && RepoName(ref.repo)
    ensures Split(CreateWikiPageData(repoUrl, branch, ref.owner, ref.repo, summary, shortSummary).title, '/')
      == [ref.owner, ref.repo]
  {
    SplitAfterPiece(ref.owner, '/', ref.repo);
    SplitNoSeparator(ref.repo, '/');
    assert ref.owner + "/" + ref.repo == ref.owner + ['/'] + ref.repo;
  }

  /** An item of the recursive tree listing; `kind` is the item's `type`
      (`blob`, `tree` or `commit`). */
  datatype TreeItem = TreeItem(path: string, kind: string)

  predicate IsBlob(item: TreeItem)
  {
    item.kind == "blob"
  }

  /** The filter in `getRepoTree`: every blob item is kept, nothing else is,
      and the kept items stay in their order. */
  function BlobItems(tree: seq<TreeItem>): (r: seq<TreeItem>)
    ensures forall item :: item in r <==> item in tree && item.kind == "blob"
    ensures Seqs.IsSubsequence(r, tree)
    ensures forall item :: multiset(r)[item] == if item.kind == "blob" then multiset(tree)[item] else 0
  {
    Seqs.FilterIsSubsequence(tree, IsBlob);
    forall item { Seqs.FilterMultiplicity(tree, IsBlob, item); }
    assert forall item :: item in Seqs.Filter(tree, IsBlob) <==> item in tree && IsBlob(item) by {
      forall item { Seqs.FilterMembership(tree, IsBlob, item); }
    }
    Seqs.Filter(tree, IsBlob)
  }
}
