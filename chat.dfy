/** `src/app/api/chat/route.ts`: the chat endpoint's guards, the context text
    it builds from a stored wiki page, and the three tools the model may call,
    which search that page in memory. */
module Chat {
  import opened Wrappers
  import opened Text
  import Seqs

  /** A stored subsystem; `files` is a JSON column, `None` when it does not
      hold an array. */
  datatype SubsystemRow = SubsystemRow(title: string, shortSummary: string, files: Option<seq<string>>)

  datatype FileRow = FileRow(path: string, summary: string)

  /** A wiki page with its subsystems (by id) and files (by path), in the
      order the store returns them. */
  datatype WikiPage = WikiPage(
    title: string, repoUrl: string, branch: string, summary: string,
    subsystems: seq<SubsystemRow>, files: seq<FileRow>)

  // ---------------------------------------------------------------------
  // Request guards

  const WikiIdRequiredMessage := "Wiki ID is required"
  const WikiNotFoundMessage := "Wiki page not found"

  /** The JSON error response, or the chat session set up over a page. */
  datatype ChatOutcome = ChatError(status: nat, error: string) | Session(wiki: WikiPage, context: string)

  /** `!wikiId` for the number the widget sends: absent or zero. */
  predicate Falsy(wikiId: Option<int>)
  {
    wikiId.None? || wikiId.value == 0
  }

  /** The handler up to the model call. The page lookup is a parameter. */
  function HandleChat(wikiId: Option<int>, findWiki: int -> Option<WikiPage>): (r: ChatOutcome)
    ensures Falsy(wikiId) ==> r == ChatError(400, WikiIdRequiredMessage)
    ensures !Falsy(wikiId) && findWiki(wikiId.value).None? ==> r == ChatError(404, WikiNotFoundMessage)
    ensures r.Session? <==> !Falsy(wikiId) && findWiki(wikiId.value).Some?
    ensures r.Session? ==> r.wiki == findWiki(wikiId.value).value && r.context == Context(r.wiki)
  {
    if Falsy(wikiId) then ChatError(400, WikiIdRequiredMessage)
    else match findWiki(wikiId.value)
      case None => ChatError(404, WikiNotFoundMessage)
      case Some(wiki) => Session(wiki, Context(wiki))
  }

  /** A missing id is refused before any lookup: the answer does not depend
      on the store. */
  lemma MissingIdBeforeLookup(wikiId: Option<int>, f: int -> Option<WikiPage>, g: int -> Option<WikiPage>)
    requires Falsy(wikiId)
    ensures HandleChat(wikiId, f) == HandleChat(wikiId, g)
  {
  }

  // ---------------------------------------------------------------------
  // Context

  /** `Array.isArray(files) ? files.join(", ") : "N/A"`. */
  function FilesText(files: Option<seq<string>>): (r: string)
    ensures files.None? ==> r == "N/A"
    ensures files.Some? && |files.value| > 0 ==> StartsWith(r, files.value[0])
  {
    match files
    case None => "N/A"
    case Some(names) =>
      assert |names| > 0 ==> StartsWith(Join(names, ", "), names[0]) by {
        if |names| > 0 { JoinStartsWithFirst(names, ", "); }
      }
      Join(names, ", ")
  }

  function SubsystemBlock(s: SubsystemRow): string
  {
    "\n- " + s.title + ": " + s.shortSummary + "\n  Files: " + FilesText(s.files) + "\n"
  }

  function FileBlock(f: FileRow): string
  {
    "\n- " + f.path + ": " + f.summary + "\n"
  }

  /** The template's lines up to the subsystem list. */
  function ContextHead(w: WikiPage): string
  {
    "Wiki Page: " + w.title + "\nRepository: " + w.repoUrl + " (branch: " + w.branch + ")\n\nSummary:\n"
    + w.summary + "\n\nSubsystems:" + "\n"
  }

  function SubsystemLines(w: WikiPage): string
  {
    Join(Seqs.Map(w.subsystems, SubsystemBlock), "\n")
  }

  function FileLines(w: WikiPage): string
  {
    Join(Seqs.Map(w.files, FileBlock), "\n")
  }

  /** The template text after its first line break. */
  function ContextBody(w: WikiPage): string
  {
    ContextHead(w) + SubsystemLines(w) + "\n\nFiles:\n" + FileLines(w) + "\n"
  }

  /** The context text: the template, trimmed, so that it opens on the
      `Wiki Page` line and ends on a non-whitespace character. */
  function Context(w: WikiPage): (r: string)
    ensures |r| > 0 && r[0] == 'W' && !IsSpace(r[|r| - 1])
  {
    var body := ContextBody(w);
    assert body[0] == ContextHead(w)[0] == 'W';
    TrimmedAfterNewline(body);
    Trim("\n" + body)
  }

  /** Trimming a newline and a body that opens on a non-whitespace character
      keeps that character first and ends on a non-whitespace one. */
  lemma TrimmedAfterNewline(body: string)
    requires |body| > 0 && !IsSpace(body[0])
    ensures var r := Trim("\n" + body); |r| > 0 && r[0] == body[0] && !IsSpace(r[|r| - 1])
  {
    var t := "\n" + body;
    assert t[1] == body[0];
    TrimStartAt(t, 1);
    assert TrimStart(t) == body;
    TrimEndKeeps(body, 0);
    TrimEndRemovesSpace(body);
  }

  /** A stretch of the body that ends at or before a non-whitespace
      character survives the trim, shifted to where the body starts. */
  lemma KeptAfterNewline(body: string, at: nat, sub: string, j: nat)
    requires |body| > 0 && !IsSpace(body[0])
    requires at + |sub| <= j + 1 && j < |body| && !IsSpace(body[j])
    requires body[at..at + |sub|] == sub
    ensures at + |sub| <= |Trim("\n" + body)| && Trim("\n" + body)[at..at + |sub|] == sub
    ensures Contains(Trim("\n" + body), sub)
  {
    var t := "\n" + body;
    assert t[0] == '\n' && t[1] == body[0];
    TrimAfterSpace(t, 1);
    assert t[1..] == body;
    TrimEndKeeps(body, j);
    var r := TrimEnd(body);
    assert r[at..at + |sub|] == sub by {
      assert r[at..at + |sub|] == body[..|r|][at..at + |sub|];
    }
    ContainsAt(r, sub, at);
  }

  /** Where a stretch of the middle part of a body sits, and a
      non-whitespace character at or after its end. */
  lemma LocateInMiddle(body: string, before: string, mid: string, after: string, p: nat, sub: string, j: nat)
    returns (at: nat, k: nat)
    requires body == before + mid + after
    requires |before| > 0 && !IsSpace(before[0])
    requires p + |sub| <= |mid| && mid[p..p + |sub|] == sub
    requires (|sub| > 0 && !IsSpace(sub[|sub| - 1])) || (j < |after| && !IsSpace(after[j]))
    ensures |body| > 0 && !IsSpace(body[0])
    ensures at + |sub| <= k + 1 && k < |body| && !IsSpace(body[k])
    ensures body[at..at + |sub|] == sub
  {
    at := |before| + p;
    MiddleSlice(body, before, mid, after, p, sub);
    if |sub| > 0 && !IsSpace(sub[|sub| - 1]) {
      k := at + |sub| - 1;
      LastOfSlice(body, at, sub);
    } else {
      k := |before| + |mid| + j;
      assert body[k] == after[j];
    }
  }

  lemma LastOfSlice(s: string, at: nat, sub: string)
    requires at + |sub| <= |s| && s[at..at + |sub|] == sub && |sub| > 0
    ensures s[at + |sub| - 1] == sub[|sub| - 1]
  {
    assert s[at + |sub| - 1] == s[at..at + |sub|][|sub| - 1];
  }

  lemma MiddleSlice(body: string, before: string, mid: string, after: string, p: nat, sub: string)
    requires body == before + mid + after
    requires |before| > 0
    requires p + |sub| <= |mid| && mid[p..p + |sub|] == sub
    ensures body[0] == before[0]
    ensures body[|before| + p..|before| + p + |sub|] == sub
  {
    assert body[|before| + p..|before| + p + |sub|] == mid[p..p + |sub|];
  }

  /** The context opens with the page title, the repository line with its
      branch, and the summary, up to the subsystems heading. */
  lemma ContextHeader(w: WikiPage)
    ensures StartsWith(Context(w), "Wiki Page: " + w.title + "\nRepository: " + w.repoUrl + " (branch: " + w.branch
                                   + ")\n\nSummary:\n" + w.summary + "\n\nSubsystems:")
  {
    var head := "Wiki Page: " + w.title + "\nRepository: " + w.repoUrl + " (branch: " + w.branch
                + ")\n\nSummary:\n" + w.summary + "\n\nSubsystems:";
    var body := ContextBody(w);
    assert ContextHead(w) == head + "\n";
    assert body[..|head|] == head;
    assert body[0] == head[0] && body[|head| - 1] == head[|head| - 1];
    KeptAfterNewline(body, 0, head, |head| - 1);
  }

  /** Every subsystem's block, with its files or `N/A`, is in the context. */
  lemma ContextListsSubsystem(w: WikiPage, k: nat)
    requires k < |w.subsystems|
    ensures Contains(Context(w), SubsystemBlock(w.subsystems[k]))
  {
    var blocks := SubsystemLines(w);
    var block := SubsystemBlock(w.subsystems[k]);
    JoinContainsPart(Seqs.Map(w.subsystems, SubsystemBlock), "\n", k);
    var p := ContainsWitness(blocks, block);
    var after := "\n\nFiles:\n" + FileLines(w) + "\n";
    assert ContextBody(w) == ContextHead(w) + blocks + after;
    assert after[2] == 'F';
    var at, k := LocateInMiddle(ContextBody(w), ContextHead(w), blocks, after, p, block, 2);
    KeptAfterNewline(ContextBody(w), at, block, k);
  }

  /** Every file's path is in the context as a `- path:` line. */
  lemma ContextListsFile(w: WikiPage, k: nat)
    requires k < |w.files|
    ensures Contains(Context(w), "\n- " + w.files[k].path + ":")
  {
    var blocks := FileLines(w);
    var block := FileBlock(w.files[k]);
    var line := "\n- " + w.files[k].path + ":";
    JoinContainsPart(Seqs.Map(w.files, FileBlock), "\n", k);
    var p := ContainsWitness(blocks, block);
    var before := ContextHead(w) + SubsystemLines(w) + "\n\nFiles:\n";
    assert block[..|line|] == line;
    assert blocks[p..p + |line|] == line by {
      assert blocks[p..p + |line|] == blocks[p..p + |block|][..|line|];
    }
    assert before[0] == ContextHead(w)[0];
    var at, k := LocateInMiddle(ContextBody(w), before, blocks, "\n", p, line, 0);
    KeptAfterNewline(ContextBody(w), at, line, k);
  }

  // ---------------------------------------------------------------------
  // searchCodebase

  const NoResultsMessage := "No relevant information found " + "for this query."

  /** `field.toLowerCase().includes(query.toLowerCase())`. */
  predicate Matches(field: string, query: string)
  {
    Contains(ToLower(field), ToLower(query))
  }

  predicate SubsystemMatches(s: SubsystemRow, query: string)
  {
    Matches(s.title, query) || Matches(s.shortSummary, query)
  }

  predicate FileMatches(f: FileRow, query: string)
  {
    Matches(f.path, query) || Matches(f.summary, query)
  }

  function MatchingSubsystems(w: WikiPage, query: string): seq<SubsystemRow>
  {
    Seqs.Filter(w.subsystems, (s: SubsystemRow) => SubsystemMatches(s, query))
  }

  function MatchingFiles(w: WikiPage, query: string): seq<FileRow>
  {
    Seqs.Filter(w.files, (f: FileRow) => FileMatches(f, query))
  }

  function SummaryEntry(w: WikiPage): string
  {
    "Summary: " + w.summary
  }

  function SubsystemEntry(s: SubsystemRow): string
  {
    "Subsystem - " + s.title + ": " + s.shortSummary
  }

  function FileEntry(f: FileRow): string
  {
    "File - " + f.path + ": " + f.summary
  }

  /** The result entries: the summary if it matches, then the matching
      subsystems, then the matching files, each in stored order. */
  function SearchEntries(w: WikiPage, query: string): (r: seq<string>)
    ensures |r| == (if Matches(w.summary, query) then 1 else 0) + |MatchingSubsystems(w, query)|
                   + |MatchingFiles(w, query)|
  {
    (if Matches(w.summary, query) then [SummaryEntry(w)] else [])
    + Seqs.Map(MatchingSubsystems(w, query), SubsystemEntry)
    + Seqs.Map(MatchingFiles(w, query), FileEntry)
  }

  /** The entries separated by blank lines, or the no-results text. */
  function SearchAnswer(w: WikiPage, query: string): (r: string)
    ensures |SearchEntries(w, query)| == 0 ==> r == NoResultsMessage
    ensures |SearchEntries(w, query)| > 0 ==> StartsWith(r, SearchEntries(w, query)[0])
  {
    var entries := SearchEntries(w, query);
    if |entries| > 0 then
      JoinStartsWithFirst(entries, "\n\n");
      Join(entries, "\n\n")
    else NoResultsMessage
  }

  /** The tool's `execute`: pushes the summary entry, then one entry per
      matching subsystem, then one per matching file. */
  method SearchCodebase(w: WikiPage, query: string) returns (answer: string)
    ensures answer == SearchAnswer(w, query)
  {
    var searchResults: seq<string> := [];
    if Contains(ToLower(w.summary), ToLower(query)) {
      searchResults := searchResults + ["Summary: " + w.summary];
    }
    ghost var summaryPart := searchResults;
    var matchingSubsystems := MatchingSubsystems(w, query);
    for i := 0 to |matchingSubsystems|
      invariant searchResults == summaryPart + Seqs.Map(matchingSubsystems[..i], SubsystemEntry)
    {
      var subsystem := matchingSubsystems[i];
      Seqs.MapPrefixStep(matchingSubsystems, SubsystemEntry, i);
      AppendAssoc(summaryPart, Seqs.Map(matchingSubsystems[..i], SubsystemEntry), [SubsystemEntry(subsystem)]);
      searchResults := searchResults + ["Subsystem - " + subsystem.title + ": " + subsystem.shortSummary];
    }
    assert matchingSubsystems[..|matchingSubsystems|] == matchingSubsystems;
    ghost var subsystemPart := searchResults;
    var matchingFiles := MatchingFiles(w, query);
    for i := 0 to |matchingFiles|
      invariant searchResults == subsystemPart + Seqs.Map(matchingFiles[..i], FileEntry)
    {
      var file := matchingFiles[i];
      Seqs.MapPrefixStep(matchingFiles, FileEntry, i);
      AppendAssoc(subsystemPart, Seqs.Map(matchingFiles[..i], FileEntry), [FileEntry(file)]);
      searchResults := searchResults + ["File - " + file.path + ": " + file.summary];
    }
    assert matchingFiles[..|matchingFiles|] == matchingFiles;
    assert searchResults == SearchEntries(w, query);
    if |searchResults| > 0 {
      answer := Join(searchResults, "\n\n");
    } else {
      answer := NoResultsMessage;
    }
  }

  lemma AppendAssoc(a: seq<string>, b: seq<string>, c: seq<string>)
    ensures a + b + c == a + (b + c)
  {
  }

  /** Every entry starts with `S` or `F`, never like the no-results text. */
  lemma EntriesStartWithSOrF(w: WikiPage, query: string, k: nat)
    requires k < |SearchEntries(w, query)|
    ensures |SearchEntries(w, query)[k]| > 0
    ensures SearchEntries(w, query)[k][0] == 'S' || SearchEntries(w, query)[k][0] == 'F'
  {
  }

  lemma NoResultsStartsWithN()
    ensures |NoResultsMessage| > 0 && NoResultsMessage[0] == 'N'
  {
  }

  /** The no-results text comes back exactly when there are no entries. */
  lemma NoResultsIffNoEntries(w: WikiPage, query: string)
    ensures SearchAnswer(w, query) == NoResultsMessage <==> |SearchEntries(w, query)| == 0
  {
    var entries := SearchEntries(w, query);
    if |entries| > 0 {
      EntriesStartWithSOrF(w, query, 0);
      JoinStartsWithFirst(entries, "\n\n");
      assert SearchAnswer(w, query)[0] == entries[0][0];
      NoResultsStartsWithN();
    }
  }

  lemma MatchingSubsystemsMembers(w: WikiPage, query: string, s: SubsystemRow)
    ensures s in MatchingSubsystems(w, query) <==> s in w.subsystems && SubsystemMatches(s, query)
  {
    Seqs.FilterMembership(w.subsystems, (s: SubsystemRow) => SubsystemMatches(s, query), s);
  }

  lemma MatchingFilesMembers(w: WikiPage, query: string, f: FileRow)
    ensures f in MatchingFiles(w, query) <==> f in w.files && FileMatches(f, query)
  {
    Seqs.FilterMembership(w.files, (f: FileRow) => FileMatches(f, query), f);
  }

  /** The no-results text comes back exactly when nothing matches. */
  lemma NoResultsIff(w: WikiPage, query: string)
    ensures SearchAnswer(w, query) == NoResultsMessage <==>
      !Matches(w.summary, query) &&
      (forall s :: s in w.subsystems ==> !SubsystemMatches(s, query)) &&
      (forall f :: f in w.files ==> !FileMatches(f, query))
  {
    NoResultsIffNoEntries(w, query);
    var subs := MatchingSubsystems(w, query);
    var files := MatchingFiles(w, query);
    forall s ensures s in subs <==> s in w.subsystems && SubsystemMatches(s, query) {
      MatchingSubsystemsMembers(w, query, s);
    }
    forall f ensures f in files <==> f in w.files && FileMatches(f, query) {
      MatchingFilesMembers(w, query, f);
    }
    assert |subs| == 0 <==> forall s :: s in w.subsystems ==> !SubsystemMatches(s, query) by {
      if |subs| > 0 { assert subs[0] in subs; }
    }
    assert |files| == 0 <==> forall f :: f in w.files ==> !FileMatches(f, query) by {
      if |files| > 0 { assert files[0] in files; }
    }
  }

  /** Each matching subsystem's entry appears in the answer. */
  lemma MatchingSubsystemListed(w: WikiPage, query: string, s: SubsystemRow)
    requires s in w.subsystems && SubsystemMatches(s, query)
    ensures Contains(SearchAnswer(w, query), SubsystemEntry(s))
  {
    var matching := MatchingSubsystems(w, query);
    Seqs.FilterMembership(w.subsystems, (s: SubsystemRow) => SubsystemMatches(s, query), s);
    var i :| 0 <= i < |matching| && matching[i] == s;
    var entries := SearchEntries(w, query);
    var offset := if Matches(w.summary, query) then 1 else 0;
    assert entries[offset + i] == SubsystemEntry(s);
    JoinContainsPart(entries, "\n\n", offset + i);
  }

  /** Each matching file's entry appears in the answer. */
  lemma MatchingFileListed(w: WikiPage, query: string, f: FileRow)
    requires f in w.files && FileMatches(f, query)
    ensures Contains(SearchAnswer(w, query), FileEntry(f))
  {
    var matching := MatchingFiles(w, query);
    Seqs.FilterMembership(w.files, (f: FileRow) => FileMatches(f, query), f);
    var i :| 0 <= i < |matching| && matching[i] == f;
    var entries := SearchEntries(w, query);
    var offset := (if Matches(w.summary, query) then 1 else 0) + |MatchingSubsystems(w, query)|;
    assert entries[offset + i] == FileEntry(f);
    JoinContainsPart(entries, "\n\n", offset + i);
  }

  /** A matching summary comes first. */
  lemma SummaryFirst(w: WikiPage, query: string)
    requires Matches(w.summary, query)
    ensures StartsWith(SearchAnswer(w, query), SummaryEntry(w))
  {
    JoinStartsWithFirst(SearchEntries(w, query), "\n\n");
  }

  /** Lower-casing the query first changes nothing: matching ignores ASCII
      case in the query. */
  lemma SearchIgnoresQueryCase(w: WikiPage, query: string)
    ensures SearchAnswer(w, ToLower(query)) == SearchAnswer(w, query)
  {
    ToLowerIdempotent(query);
    var lower := ToLower(query);
    Seqs.FilterCongruent(w.subsystems, (s: SubsystemRow) => SubsystemMatches(s, lower),
                         (s: SubsystemRow) => SubsystemMatches(s, query));
    Seqs.FilterCongruent(w.files, (f: FileRow) => FileMatches(f, lower), (f: FileRow) => FileMatches(f, query));
  }

  // ---------------------------------------------------------------------
  // getSubsystemDetails and getFileDetails

  /** `Array.prototype.find` as an index: the first element satisfying `p`. */
  function FindFirst<T>(s: seq<T>, p: T -> bool): (r: Option<nat>)
    ensures r.Some? ==> r.value < |s| && p(s[r.value])
    ensures r.Some? ==> forall j :: 0 <= j < r.value ==> !p(s[j])
    ensures r.None? <==> forall j :: 0 <= j < |s| ==> !p(s[j])
    decreases |s|
  {
    if |s| == 0 then None
    else if p(s[0]) then Some(0)
    else match FindFirst(s[1..], p)
      case None => None
      case Some(i) => Some(i + 1)
  }

  predicate TitleMatches(s: SubsystemRow, name: string)
  {
    Matches(s.title, name)
  }

  predicate PathMatches(f: FileRow, name: string)
  {
    Matches(f.path, name)
  }

  /** The details answer: title, description and files, one per line. */
  function SubsystemText(s: SubsystemRow): (r: string)
    ensures StartsWith(r, "Subsystem: " + s.title + "\nDescription: " + s.shortSummary + "\nFiles: ")
  {
    "Subsystem: " + s.title + "\nDescription: " + s.shortSummary + "\nFiles: " + FilesText(s.files)
  }

  /** A subsystem whose files are not an array shows `N/A` for them, in
      the details answer and in its block of the context. */
  lemma NonArrayFilesShownAsNA(s: SubsystemRow)
    requires s.files.None?
    ensures EndsWith(SubsystemText(s), "\nFiles: N/A")
    ensures EndsWith(SubsystemBlock(s), "\n  Files: N/A\n")
  {
    var text := SubsystemText(s);
    assert text[|text| - 11..] == "\nFiles: N/A";
    var block := SubsystemBlock(s);
    assert block[|block| - 14..] == "\n  Files: N/A\n";
  }

  /** The not-found answer names the query and never reads as a found one. */
  function SubsystemNotFound(w: WikiPage, name: string): (r: string)
    ensures StartsWith(r, "Subsystem \"" + name + "\" not found.")
    ensures !StartsWith(r, "Subsystem: ")
  {
    var r := "Subsystem \"" + name + "\" not found. Available subsystems: "
             + Join(Seqs.Map(w.subsystems, (s: SubsystemRow) => s.title), ", ");
    assert r[9] == ' ';
    r
  }

  function SubsystemDetails(w: WikiPage, name: string): (r: string)
    ensures StartsWith(r, "Subsystem: ") <==> exists s :: s in w.subsystems && TitleMatches(s, name)
  {
    match FindFirst(w.subsystems, (s: SubsystemRow) => TitleMatches(s, name))
    case Some(i) => SubsystemText(w.subsystems[i])
    case None =>
      SubsystemNotFound(w, name)
  }

  /** A found subsystem is the first whose title matches. */
  lemma SubsystemDetailsFirstMatch(w: WikiPage, name: string, i: nat)
    requires i < |w.subsystems| && TitleMatches(w.subsystems[i], name)
    requires forall j :: 0 <= j < i ==> !TitleMatches(w.subsystems[j], name)
    ensures SubsystemDetails(w, name) == SubsystemText(w.subsystems[i])
  {
    var r := FindFirst(w.subsystems, (s: SubsystemRow) => TitleMatches(s, name));
    assert r.Some? && !(r.value < i) && !(i < r.value);
  }

  /** Without a match, the answer lists every title. */
  lemma SubsystemDetailsNotFound(w: WikiPage, name: string)
    requires forall s :: s in w.subsystems ==> !TitleMatches(s, name)
    ensures SubsystemDetails(w, name) == SubsystemNotFound(w, name)
    ensures forall k :: 0 <= k < |w.subsystems| ==> Contains(SubsystemDetails(w, name), w.subsystems[k].title)
  {
    var titles := Seqs.Map(w.subsystems, (s: SubsystemRow) => s.title);
    var prefix := "Subsystem \"" + name + "\" not found. Available subsystems: ";
    forall k | 0 <= k < |w.subsystems|
      ensures Contains(prefix + Join(titles, ", "), w.subsystems[k].title)
    {
      JoinContainsPart(titles, ", ", k);
      ContainsInConcat(prefix, Join(titles, ", "), "", titles[k]);
      assert prefix + Join(titles, ", ") + "" == prefix + Join(titles, ", ");
    }
  }

  function FileText(f: FileRow): (r: string)
    ensures StartsWith(r, "File: " + f.path + "\n")
    ensures EndsWith(r, "\nSummary: " + f.summary)
  {
    "File: " + f.path + "\nSummary: " + f.summary
  }

  /** The not-found answer names the query and never reads as a found one. */
  function FileNotFound(w: WikiPage, name: string): (r: string)
    ensures StartsWith(r, "File \"" + name + "\" not found.")
    ensures !StartsWith(r, "File: ")
  {
    var r := "File \"" + name + "\" not found. Available files: " + Join(Seqs.Map(w.files, (f: FileRow) => f.path), ", ");
    assert r[4] == ' ';
    r
  }

  function FileDetails(w: WikiPage, name: string): (r: string)
    ensures StartsWith(r, "File: ") <==> exists f :: f in w.files && PathMatches(f, name)
  {
    match FindFirst(w.files, (f: FileRow) => PathMatches(f, name))
    case Some(i) => FileText(w.files[i])
    case None =>
      FileNotFound(w, name)
  }

  /** A found file is the first whose path matches. */
  lemma FileDetailsFirstMatch(w: WikiPage, name: string, i: nat)
    requires i < |w.files| && PathMatches(w.files[i], name)
    requires forall j :: 0 <= j < i ==> !PathMatches(w.files[j], name)
    ensures FileDetails(w, name) == FileText(w.files[i])
  {
    var r := FindFirst(w.files, (f: FileRow) => PathMatches(f, name));
    assert r.Some? && !(r.value < i) && !(i < r.value);
  }

  /** Without a match, the answer lists every path. */
  lemma FileDetailsNotFound(w: WikiPage, name: string)
    requires forall f :: f in w.files ==> !PathMatches(f, name)
    ensures FileDetails(w, name) == FileNotFound(w, name)
    ensures forall k :: 0 <= k < |w.files| ==> Contains(FileDetails(w, name), w.files[k].path)
  {
    var paths := Seqs.Map(w.files, (f: FileRow) => f.path);
    var prefix := "File \"" + name + "\" not found. Available files: ";
    forall k | 0 <= k < |w.files|
      ensures Contains(prefix + Join(paths, ", "), w.files[k].path)
    {
      JoinContainsPart(paths, ", ", k);
      ContainsInConcat(prefix, Join(paths, ", "), "", paths[k]);
      assert prefix + Join(paths, ", ") + "" == prefix + Join(paths, ", ");
    }
  }

  /** The file lookup reads paths only: pages whose files have the same
      paths pick the same file, whatever the summaries say. */
  lemma FileLookupIgnoresSummaries(w: WikiPage, v: WikiPage, name: string)
    requires |w.files| == |v.files|
    requires forall i :: 0 <= i < |w.files| ==> w.files[i].path == v.files[i].path
    ensures FindFirst(w.files, (f: FileRow) => PathMatches(f, name)) ==
            FindFirst(v.files, (f: FileRow) => PathMatches(f, name))
  {
    var a := FindFirst(w.files, (f: FileRow) => PathMatches(f, name));
    var b := FindFirst(v.files, (f: FileRow) => PathMatches(f, name));
    if a.Some? && b.Some? {
      assert !(a.value < b.value) && !(b.value < a.value);
    }
  }
}
