/** `src/app/api/generate-subsystem-summary/route.ts`: the deep-dive summary
    of one subsystem. Its stored file list is fetched from GitHub one file at
    a time; files that cannot be read become empty and are dropped, and the
    rest go to the summariser. */
module SubsystemSummary {
  import opened Wrappers
  import opened Text
  import Seqs
  import opened GitHubUtils
  import opened WikiRecords

  // ---------------------------------------------------------------------
  // Owner and repository from the stored URL

  /** `url.split("/")[i]`, `None` where JavaScript gives `undefined`. */
  function UrlPart(url: string, i: nat): (r: Option<string>)
    ensures r.Some? <==> i < |Split(url, '/')|
    ensures r.Some? ==> '/' !in r.value
  {
    SplitPartsFree(url, '/');
    var parts := Split(url, '/');
    if i < |parts| then Some(parts[i]) else None
  }

  /** The owner and repository handed to the contents API. */
  function Coordinates(url: string): (r: (Option<string>, Option<string>))
    ensures r.0.Some? <==> |Split(url, '/')| > 3
    ensures r.1.Some? ==> r.0.Some?
    ensures r.1.Some? ==> '/' !in r.0.value && '/' !in r.1.value
  {
    (UrlPart(url, 3), UrlPart(url, 4))
  }

  /** On a canonical URL the pieces at 3 and 4 are the owner and the
      repository name, with whatever follows the name kept. */
  lemma CoordinatesOfCanonicalUrl(owner: string, repo: string)
    requires '/' !in owner && '/' !in repo
    ensures Coordinates(Https + Host + owner + "/" + repo) == (Some(owner), Some(repo))
  {
    CanonicalUrlPieces(owner, repo);
  }

  lemma CanonicalUrlPieces(owner: string, repo: string)
    requires '/' !in owner && '/' !in repo
    ensures Split(Https + Host + owner + "/" + repo, '/') == ["https:", "", "github.com", owner, repo]
  {
    var url := Https + Host + owner + "/" + repo;
    var r3 := owner + ['/'] + repo;
    var r2 := "github.com" + ['/'] + r3;
    var r1 := "" + ['/'] + r2;
    assert url == "https:" + ['/'] + r1;
    SplitNoSeparator(repo, '/');
    SplitAfterPiece(owner, '/', repo);
    assert Split(r3, '/') == [owner, repo];
    SplitAfterPiece("github.com", '/', r3);
    assert Split(r2, '/') == ["github.com", owner, repo];
    SplitAfterPiece("", '/', r2);
    assert Split(r1, '/') == ["", "github.com", owner, repo];
    SplitAfterPiece("https:", '/', r1);
  }

  /** Unlike the URL parser of the generators, the split keeps a `.git`
      suffix in the repository name. */
  lemma GitSuffixKept()
    ensures Coordinates("https://github.com/a/b.git").1 == Some("b.git")
    ensures ParseGitHubUrl("https://github.com/a/b.git") == Ok(RepoRef("a", "b"))
  {
    CoordinatesOfCanonicalUrl("a", "b.git");
    assert Https + Host + "a" + "/" + "b.git" == "https://github.com/a/b.git";
    ParseCanonical("a", "b", ".git");
    assert Https + Host + "a" + "/" + "b" + ".git" == "https://github.com/a/b.git";
  }

  // ---------------------------------------------------------------------
  // Fetching one file

  /** What the contents API answers for a path: a directory listing, an
      entry of some type with its (already decoded) content, or a thrown
      error. */
  datatype FetchResult = Listing | Entry(kind: string, content: Option<string>) | FetchFailed

  /** `getFileContent`: the text of a file, or `None` for a listing, an
      entry that is not a file, or a failed request. */
  function GetFileContent(url: string, path: string,
                          fetch: (Option<string>, Option<string>, string) -> FetchResult): (r: Option<string>)
    ensures var answer := fetch(Coordinates(url).0, Coordinates(url).1, path);
      r.Some? <==> answer.Entry? && answer.kind == "file"
    ensures r.Some? ==> var answer := fetch(Coordinates(url).0, Coordinates(url).1, path);
      (answer.content.Some? ==> r.value == answer.content.value) && (answer.content.None? ==> r.value == "")
  {
    var (owner, repo) := Coordinates(url);
    match fetch(owner, repo, path)
    case Listing => None
    case FetchFailed => None
    case Entry(kind, content) =>
      if kind != "file" then None
      else Some(if content.Some? then content.value else "")
  }

  /** `content || ""`. */
  function ContentOrEmpty(content: Option<string>): string
  {
    if content.Some? then content.value else ""
  }

  /** Every stored path with its content, `""` when it could not be read. */
  function FileContents(url: string, files: seq<string>,
                        fetch: (Option<string>, Option<string>, string) -> FetchResult): (r: seq<FileContent>)
    ensures |r| == |files|
    ensures forall i :: 0 <= i < |files| ==>
      r[i].path == files[i] && r[i].content == ContentOrEmpty(GetFileContent(url, files[i], fetch))
  {
    Seqs.Map(files, (path: string) => FileContent(path, ContentOrEmpty(GetFileContent(url, path, fetch))))
  }

  predicate NonEmpty(f: FileContent)
  {
    f.content != ""
  }

  function ValidFiles(contents: seq<FileContent>): (r: seq<FileContent>)
    ensures forall f :: f in r <==> f in contents && f.content != ""
    ensures Seqs.IsSubsequence(r, contents)
    ensures |r| <= |contents|
    ensures forall f :: multiset(r)[f] == if f.content != "" then multiset(contents)[f] else 0
  {
    Seqs.FilterIsSubsequence(contents, NonEmpty);
    forall f { Seqs.FilterMultiplicity(contents, NonEmpty, f); }
    Seqs.FilterLength(contents, NonEmpty);
    assert forall f :: f in Seqs.Filter(contents, NonEmpty) <==> f in contents && NonEmpty(f) by {
      forall f { Seqs.FilterMembership(contents, NonEmpty, f); }
    }
    Seqs.Filter(contents, NonEmpty)
  }

  /** A file that cannot be read keeps its place with empty content, and is
      then left out of the summarised files. */
  lemma UnreadableFileDropped(url: string, files: seq<string>,
                              fetch: (Option<string>, Option<string>, string) -> FetchResult, i: nat)
    requires i < |files| && GetFileContent(url, files[i], fetch).None?
    ensures FileContents(url, files, fetch)[i] == FileContent(files[i], "")
    ensures FileContent(files[i], "") !in ValidFiles(FileContents(url, files, fetch))
  {
  }

  // ---------------------------------------------------------------------
  // The request

  /** The stored subsystem with its page; `files` is `None` when the JSON
      column is missing or not an array. */
  datatype PageRef = PageRef(repoUrl: string)
  datatype SubsystemRecord = SubsystemRecord(title: string, files: Option<seq<string>>, page: Option<PageRef>)

  datatype SummaryOutcome =
    | Error(status: nat, error: string)
    | Success(filesProcessed: nat, totalFiles: nat, summary: string)

  const SubsystemNotFoundMessage := "Subsystem not found"
  const RepoUrlNotFoundMessage := "Repo URL not found"
  const FilesNotFoundMessage := "Files not found"
  const NoValidFilesMessage := "No valid files found"

  /** The remote calls: the store lookup, the contents API, the summariser. */
  datatype Services = Services(
    findSubsystem: int -> Option<SubsystemRecord>,
    fetch: (Option<string>, Option<string>, string) -> FetchResult,
    summarize: (string, seq<FileContent>) -> Result<string>)

  /** `!subsystem.WikiPage?.repoUrl`. */
  predicate MissingRepoUrl(s: SubsystemRecord)
  {
    s.page.None? || s.page.value.repoUrl == ""
  }

  /** The POST handler after its body is parsed: the first failing check
      decides the response; on success the summary is the one stored. */
  function SummaryPost(subsystemId: int, sv: Services): (r: SummaryOutcome)
    ensures sv.findSubsystem(subsystemId).None? ==> r == Error(404, SubsystemNotFoundMessage)
    ensures sv.findSubsystem(subsystemId).Some? && MissingRepoUrl(sv.findSubsystem(subsystemId).value) ==>
      r == Error(404, RepoUrlNotFoundMessage)
    ensures r == Error(400, FilesNotFoundMessage) <==>
      sv.findSubsystem(subsystemId).Some? && !MissingRepoUrl(sv.findSubsystem(subsystemId).value) &&
      sv.findSubsystem(subsystemId).value.files.None?
    ensures r.Success? ==>
      var s := sv.findSubsystem(subsystemId).value;
      var valid := ValidFiles(FileContents(s.page.value.repoUrl, s.files.value, sv.fetch));
      sv.findSubsystem(subsystemId).Some? && s.page.Some? && s.files.Some? &&
      r.filesProcessed == |valid| > 0 && r.totalFiles == |s.files.value| &&
      sv.summarize(s.title, valid) == Ok(r.summary)
    ensures r.Success? ==> 0 < r.filesProcessed <= r.totalFiles
    ensures var found := sv.findSubsystem(subsystemId);
      found.Some? && !MissingRepoUrl(found.value) && found.value.files.Some? ==>
      var s := found.value;
      var valid := ValidFiles(FileContents(s.page.value.repoUrl, s.files.value, sv.fetch));
      (|valid| == 0 ==> r == Error(404, NoValidFilesMessage)) &&
      (|valid| > 0 ==> (r.Success? <==> sv.summarize(s.title, valid).Ok?)) &&
      (|valid| > 0 && sv.summarize(s.title, valid).Err? ==> r == Error(500, sv.summarize(s.title, valid).message))
  {
    match sv.findSubsystem(subsystemId)
    case None => Error(404, SubsystemNotFoundMessage)
    case Some(s) =>
      if MissingRepoUrl(s) then Error(404, RepoUrlNotFoundMessage)
      else if s.files.None? then Error(400, FilesNotFoundMessage)
      else
        var url := s.page.value.repoUrl;
        var files := s.files.value;
        var validFiles := ValidFiles(FileContents(url, files, sv.fetch));
        if |validFiles| == 0 then Error(404, NoValidFilesMessage)
        else match sv.summarize(s.title, validFiles)
          case Err(message) => Error(500, message)
          case Ok(summary) => Success(|validFiles|, |files|, summary)
  }

  /** The repository check comes before the files check: a subsystem
      without a repository URL gets 404 whatever its files are. */
  lemma RepoUrlCheckedFirst(subsystemId: int, sv: Services, files: Option<seq<string>>)
    requires sv.findSubsystem(subsystemId).Some? && MissingRepoUrl(sv.findSubsystem(subsystemId).value)
    ensures var s := sv.findSubsystem(subsystemId).value;
      var sv' := sv.(findSubsystem := (id: int) => if id == subsystemId then Some(s.(files := files))
                                                   else sv.findSubsystem(id));
      SummaryPost(subsystemId, sv') == Error(404, RepoUrlNotFoundMessage)
  {
  }

  /** When no file could be read the answer is 404 and the summariser's
      answer plays no part: nothing is summarised or stored. */
  lemma NoValidFilesSkipsSummary(subsystemId: int, sv: Services,
                                 summarize: (string, seq<FileContent>) -> Result<string>)
    requires var found := sv.findSubsystem(subsystemId);
      found.Some? && !MissingRepoUrl(found.value) && found.value.files.Some? &&
      |ValidFiles(FileContents(found.value.page.value.repoUrl, found.value.files.value, sv.fetch))| == 0
    ensures SummaryPost(subsystemId, sv) == Error(404, NoValidFilesMessage)
    ensures SummaryPost(subsystemId, sv.(summarize := summarize)) == Error(404, NoValidFilesMessage)
  {
  }

  /** With every file readable and non-empty, every file is processed. */
  lemma AllFilesProcessed(subsystemId: int, sv: Services)
    requires var found := sv.findSubsystem(subsystemId);
      found.Some? && !MissingRepoUrl(found.value) && found.value.files.Some? &&
      forall f :: f in FileContents(found.value.page.value.repoUrl, found.value.files.value, sv.fetch) ==>
        f.content != ""
    ensures SummaryPost(subsystemId, sv).Success? ==>
      SummaryPost(subsystemId, sv).filesProcessed == SummaryPost(subsystemId, sv).totalFiles
  {
    var s := sv.findSubsystem(subsystemId).value;
    var contents := FileContents(s.page.value.repoUrl, s.files.value, sv.fetch);
    Seqs.FilterKeepsAll(contents, NonEmpty);
  }
}
