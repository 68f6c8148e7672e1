# cubic-wiki: the deterministic core of the wiki generator

cubic-wiki turns a GitHub repository into a wiki page. It lists the
repository's subsystems, gives each a summary, and offers a chat assistant
that answers questions over the stored page. This project models the logic
around the remote calls (OpenAI, the GitHub API, the database and k-means)
and proves properties of it. The remote calls themselves are parameters.

The modules, one per source file, plus shared helpers:

- `GitHubUtils` (`src/lib/github-utils.ts`):
  - `parseGitHubUrl`, with the backtracking semantics of its regular
    expression written out and proved against a declarative reference
    (`MatchesWith`);
  - `createWikiPageData`;
  - the blob filter of `getRepoTree`.
- `GenerateV2` (`src/app/api/generate-v2/route.ts`), the content-based
  pipeline:
  - the denylist file filter;
  - the more-than-50 branch that asks for the important files;
  - index-aligned synopses, where a failure becomes `""`;
  - embeddings;
  - the cluster count `K = min(8, max(2, floor(n/5)))`;
  - the loop that fills `K` clusters from the k-means assignment, kept as
    an array updated in place;
  - the dropping of null labels;
  - the whole POST handler.
- `Generate` (`src/app/api/generate/route.ts`), the path-based pipeline:
  - the loop that groups every tree path under its top-level segment, as
    written (the route uses this one) and corrected (see "## Findings");
  - the README and short-summary fallbacks;
  - the update-or-create decision.
- `Chat` (`src/app/api/chat/route.ts`):
  - the 400/404 guards;
  - the trimmed context text;
  - the three tools `searchCodebase`, `getSubsystemDetails` and
    `getFileDetails`.
- `SubsystemSummary` (`src/app/api/generate-subsystem-summary/route.ts`):
  - the chain of early-return responses;
  - `getFileContent`'s null cases;
  - the owner/repository split;
  - the valid-file filter;
  - the processed/total counters.
- Shared helpers:
  - `Wrappers` holds `Result`/`Option`, `OrEmpty` (a `try { … } catch { "" }`
    fallback) and `All` (`Promise.all`).
  - `Text` holds the JavaScript string operations used by the routes:
    `startsWith`, `endsWith`, `includes`, `toLowerCase`, `join`, `split`
    on one character, and `trim`.
  - `Seqs` holds `filter` and `map` with their lemmas.
  - `WikiRecords` holds the shapes of the records handed to the page store.

Every remote call is a function-typed field of a `Services` value. It
returns the value, or the message of the error it throws. A route handler
is then a function or method of the request and the services. Its contract
says which response comes back for which answers of the services, and what
is written.

Behaviour of the code worth knowing:

- A file whose synopsis fails keeps `""` as its synopsis, and that `""` is
  embedded and clustered. It is not excluded.
- Clustering is not skipped for fewer than two files. `K` is at least 2
  whatever `n` is.
- The selection of important files is used as returned, with no
  re-validation in the route.
- A cluster whose labeller returns `null` is dropped from the list, but a
  labeller that throws fails the whole run with a 500 response, because
  the route does not catch around `Promise.all`.

## Model

| member | source | states |
|---|---|---|
| Wrappers.OrEmpty | src/app/api/generate/route.ts:35-48 | a call that throws gives `""`, a call that succeeds gives its value |
| Wrappers.All | src/app/api/generate-v2/route.ts:103-105 | `Promise.all` succeeds iff every call succeeds, with the results index-aligned; otherwise it fails with the error of a failing call and of no earlier one |
| Text.ToLowerIdempotent | src/app/api/chat/route.ts:81 | lower-casing twice is lower-casing once |
| Text.SplitJoinRoundTrip | src/app/api/generate/route.ts:56 | joining the pieces of `split(sep)` with `sep` gives back the string |
| Text.SplitPartsFree | src/app/api/generate-subsystem-summary/route.ts:19-20 | no piece of `split(sep)` contains `sep` |
| Text.SplitFirstPiece | src/app/api/generate/route.ts:56-57 | the first piece of `split(sep)` is a prefix of the string without `sep`, ending at the end or at the first `sep` |
| Text.JoinContainsPart | src/app/api/chat/route.ts:42-47 | every part occurs in the joined text |
| Text.TrimStartRemovesSpace | src/app/api/chat/route.ts:55 | `trimStart` removes exactly the leading whitespace |
| Text.TrimEndRemovesSpace | src/app/api/chat/route.ts:55 | `trimEnd` removes exactly the trailing whitespace |
| Text.TrimAfterSpace | src/app/api/chat/route.ts:34-55 | after leading whitespace up to a non-whitespace character, `trim` is `trimEnd` of the rest |
| GitHubUtils.MatchAt | src/lib/github-utils.ts:17 | a match at one position captures an owner that is non-empty and has no `/`, and a repository name that is non-empty and has no `/` or `.` |
| GitHubUtils.MatchAtSound | src/lib/github-utils.ts:16-18 | what the matcher returns at a position is a match of the regular expression's reference semantics |
| GitHubUtils.MatchAtIff | src/lib/github-utils.ts:16-18 | the matcher returns `ref` at position `i` iff the regular expression matches there capturing `ref` (both directions) |
| GitHubUtils.SearchFrom | src/lib/github-utils.ts:16-18 | the scan from a position returns, when it finds one, an owner that is non-empty without `/` and a repository name that is non-empty without `/` or `.` |
| GitHubUtils.SearchFromSound | src/lib/github-utils.ts:16-18 | a search result is a match at some position with no match before it |
| GitHubUtils.SearchFromComplete | src/lib/github-utils.ts:16-18 | the leftmost matching position is what the search returns |
| GitHubUtils.ParseGitHubUrl | src/lib/github-utils.ts:15-26 | on success the owner is non-empty without `/` and the repo is non-empty without `/` or `.`; on failure the error is `Invalid GitHub URL` |
| GitHubUtils.ParseLeftmost | src/lib/github-utils.ts:15-26 | parsing returns `ref` iff the expression matches with `ref` at some position and matches nothing at any earlier position |
| GitHubUtils.CanonicalMatch | src/lib/github-utils.ts:17 | after `https://` of `github.com/owner/repo` + rest, the expression matches iff rest is empty, starts with `/`, or is `.git` followed by the end or `/` |
| GitHubUtils.NoMatchInScheme | src/lib/github-utils.ts:17 | no match starts inside `https://` |
| GitHubUtils.ParseCanonical | src/lib/github-utils.ts:15-26 | round trip: `https://github.com/<owner>/<repo>` followed by nothing, `/…`, `.git` or `.git/…` parses to exactly that owner and repo, with `.git` stripped and the rest of the path ignored |
| GitHubUtils.ParseRejectsDottedRepo | src/lib/github-utils.ts:16-21 | `https://github.com/a/b.c` throws `Invalid GitHub URL` |
| GitHubUtils.NoMatchInDottedUrl | src/lib/github-utils.ts:17 | the expression matches at no position of `https://github.com/a/b.c` |
| GitHubUtils.CreateWikiPageData | src/lib/github-utils.ts:90-105 | the title is `owner/repo`; URL, branch, summary and short summary pass through unchanged |
| GitHubUtils.TitleSplitsBack | src/lib/github-utils.ts:101 | the title of a parsed repository splits on `/` into exactly its owner and name |
| GitHubUtils.BlobItems | src/lib/github-utils.ts:45 | an item is kept iff its type is `blob`, every copy of a kept item is kept, and the kept items keep their order |
| GenerateV2.IsExcluded | src/app/api/generate-v2/route.ts:47-76 | the denylist: a `dist/` prefix, a `.lock` ending, `package-lock.json`, `pnpm-lock.yaml` or `node_modules/` anywhere, or one of the 23 media and archive extensions |
| GenerateV2.ExclusionSurvivesNesting | src/app/api/generate-v2/route.ts:47-76 | every exclusion other than the `dist/` prefix still applies when the path is moved into a folder |
| GenerateV2.FilterFiles | src/app/api/generate-v2/route.ts:46-80 | a file is kept iff its path is not on the denylist, a kept file keeps all its copies, and the kept files are an order-preserving subsequence |
| GenerateV2.FilterFilesIdempotent | src/app/api/generate-v2/route.ts:46-80 | filtering twice is filtering once |
| GenerateV2.MediaSuffixesLastChar | src/app/api/generate-v2/route.ts:53-75 | no media or archive extension matches a path that ends in `s` |
| GenerateV2.NestedDistKept | src/app/api/generate-v2/route.ts:47-76 | `dist/` is a prefix test only: `src/dist/a.ts` is kept |
| GenerateV2.NestedNodeModulesDropped | src/app/api/generate-v2/route.ts:52 | `node_modules/` is a substring test: `a/node_modules/b.js` is dropped |
| GenerateV2.SelectImportantFiles | src/app/api/generate-v2/route.ts:83-88 | the selector is called iff there are more than 50 files; otherwise the filtered list is used exactly |
| GenerateV2.CollectSynopses | src/app/api/generate-v2/route.ts:92-102 | one synopsis per file, index-aligned; a failed call gives `""` at that index and the run goes on |
| GenerateV2.SynopsisIsolated | src/app/api/generate-v2/route.ts:93-100 | the synopsis at an index depends only on that file's answer |
| GenerateV2.CollectEmbeddings | src/app/api/generate-v2/route.ts:103-105 | the embeddings succeed iff every call succeeds, and are then one per synopsis, in order |
| GenerateV2.ClusterCount | src/app/api/generate-v2/route.ts:110 | `2 <= K <= 8`; `K = 2` below 10 files, `K = 8` from 40 files, `K = floor(n/5)` between |
| GenerateV2.ClusterCountExamples | src/app/api/generate-v2/route.ts:110 | `K(0) = K(1) = K(9) = K(10) = K(12) = 2`, `K(15) = 3`, `K(40) = K(1000) = 8` |
| GenerateV2.MemberIndices | src/app/api/generate-v2/route.ts:120-132 | the indices assigned to a cluster, each assigned to it, strictly increasing, and all of them |
| GenerateV2.Members | src/app/api/generate-v2/route.ts:120-132 | a cluster holds one file per index assigned to it |
| GenerateV2.Clusters | src/app/api/generate-v2/route.ts:113-118 | exactly `K` clusters are made |
| GenerateV2.MembersStep | src/app/api/generate-v2/route.ts:125-131 | file `i` is appended to cluster `assignment[i]` and to no other |
| GenerateV2.FillClusters | src/app/api/generate-v2/route.ts:113-132 | the in-place fill loop leaves the clusters equal to `Clusters` of the files and the assignment |
| GenerateV2.ClusterFiles | src/app/api/generate-v2/route.ts:121-131 | the pushed records keep each file's own path, synopsis and embedding, index by index |
| GenerateV2.ClustersStep | src/app/api/generate-v2/route.ts:125-131 | adding file `i` changes only cluster `assignment[i]`, by appending the file |
| GenerateV2.FlattenAppendAt | src/app/api/generate-v2/route.ts:127-131 | appending a file to one cluster adds exactly that file to the clusters' contents |
| GenerateV2.ClustersPartitionFiles | src/app/api/generate-v2/route.ts:113-132 | partition: the clusters together are a permutation of the files, and their sizes sum to `n` |
| GenerateV2.PartitionStep | src/app/api/generate-v2/route.ts:120-132 | the clusters of all files hold one more copy of the last file than those of the files before it |
| GenerateV2.FileInItsCluster | src/app/api/generate-v2/route.ts:125-131 | file `i` is in cluster `assignment[i]` at its rank among that cluster's indices, and in no other cluster |
| GenerateV2.DropNulls | src/app/api/generate-v2/route.ts:134-140 | the subsystems are the non-null labels in cluster order, so there are at most `K` |
| GenerateV2.DropNullsKeepsLabels | src/app/api/generate-v2/route.ts:140 | a subsystem survives iff it was produced; with every cluster labelled, they are exactly the labels, in order |
| GenerateV2.LabelRequests | src/app/api/generate-v2/route.ts:136-138 | one labelling call per cluster, on that cluster's files, in cluster order |
| GenerateV2.ContentFailure | src/app/api/generate-v2/route.ts:32-208 | (specification) the message of the first remote call that throws, in the route's order: parse, branch, archive, selection when more than 50 files remain, every embedding, k-means, an out-of-range cluster index, every labelling call, README; synopses, README summary and short summary are caught and never appear |
| GenerateV2.ContentPost | src/app/api/generate-v2/route.ts:32-208 | it saves iff `ContentFailure` finds no failing call, and otherwise answers 500 with that call's message; on success the write holds the important files, their aligned synopses and embeddings, the non-null labels of the `K` clusters, and the page data with the `""` fallbacks; the page is updated iff one exists |
| GenerateV2.SummaryFailuresTolerated | src/app/api/generate-v2/route.ts:143-157 | whatever the README summariser and the shortener answer, the run saves or fails exactly as before, with the same message |
| GenerateV2.FailedSynopsisReadAsEmpty | src/app/api/generate-v2/route.ts:93-100 | a synopsis call that throws acts exactly as one that returns `""`: it never aborts the run |
| GenerateV2.SameClusteringFailure | src/app/api/generate-v2/route.ts:90-208 | after the selection, the outcome depends only on the synopsis texts, the embedder, k-means, the labeller and the README |
| GenerateV2.SelectorUnusedAtThreshold | src/app/api/generate-v2/route.ts:83-88 | with at most 50 files left by the filter, the selector's answer plays no part |
| GenerateV2.EveryClusterLabelled | src/app/api/generate-v2/route.ts:134-140 | with a labeller that names a subsystem for each cluster actually built there are exactly `K` subsystems, and the labelled clusters partition the files |
| Generate.TopSegment | src/app/api/generate/route.ts:56-57 | the key is the text before the first `/`, or the whole path without one |
| Generate.TopSegmentBeforeFirstSlash | src/app/api/generate/route.ts:56-57 | `a/b` is keyed `a`, and a path without `/` is its own key |
| Generate.Paths | src/app/api/generate/route.ts:55-61 | the tree's paths, index by index |
| Generate.Grouping | src/app/api/generate/route.ts:54-62 | the keys are exactly the top segments of the paths |
| Generate.BucketEmpty | src/app/api/generate/route.ts:57-61 | a segment no path has gets no paths |
| Generate.GroupingStep | src/app/api/generate/route.ts:58-61 | pushing a path extends its own bucket, creating it the first time, and leaves every other bucket alone |
| Generate.GroupByTopSegment | src/app/api/generate/route.ts:54-62 | the corrected loop builds exactly the grouping of the paths by top segment, in tree order |
| Generate.GroupingPrefixStep | src/app/api/generate/route.ts:55-61 | one more tree entry is one `GroupingStep` |
| Generate.PathInExactlyOneBucket | src/app/api/generate/route.ts:54-62 | a path is in the bucket of its own top segment and in no other |
| Generate.BucketsNonEmpty | src/app/api/generate/route.ts:57-61 | no bucket is empty |
| Generate.BucketCounts | src/app/api/generate/route.ts:54-62 | the sizes of distinct buckets add up to the number of paths under those keys |
| Generate.BucketSizesSum | src/app/api/generate/route.ts:54-62 | the bucket sizes sum to the number of tree entries |
| Generate.Get | src/app/api/generate/route.ts:58 | a property read gives an own array iff the key is own, and `undefined` iff the key is neither own nor on `Object.prototype` |
| Generate.GroupAsWritten | src/app/api/generate/route.ts:54-62 | the loop as written throws iff some top segment names an `Object.prototype` member; otherwise it builds the grouping |
| Generate.AsWrittenStep | src/app/api/generate/route.ts:58-61 | while no inherited key was seen, the as-written body pushes like the grouping, and fails exactly on an inherited key |
| Generate.ConstructorFolderCounterexample | src/app/api/generate/route.ts:54-61 | for `constructor/index.ts` the lookup finds a truthy non-array, while the grouping gives the path its own bucket |
| Generate.StructuralFailure | src/app/api/generate/route.ts:23-106 | (specification) the message of the first call that throws, in the route's order: parse, branch, README, tree, the grouping (a folder named like an `Object.prototype` member), labelling; the README summary and short summary are caught and never appear |
| Generate.SummaryFailuresTolerated | src/app/api/generate/route.ts:35-48 | a README summary call that throws acts exactly as one returning `""`, and the shortener never changes the outcome |
| Generate.StructuralPost | src/app/api/generate/route.ts:23-108 | it saves iff `StructuralFailure` finds no failing call, and otherwise answers 500 with that call's message; a folder named like an `Object.prototype` member gives `buckets[top].push is not a function`; the labeller gets the grouping of the blob paths and the README summary; the summaries fall back to `""`; the page is updated iff one exists |
| Chat.HandleChat | src/app/api/chat/route.ts:9-34 | a falsy id gives 400 before any lookup, an unknown id 404, otherwise a session over the page with its context |
| Chat.MissingIdBeforeLookup | src/app/api/chat/route.ts:12-14 | a missing id gets the same answer whatever the store holds |
| Chat.FilesText | src/app/api/chat/route.ts:45 | files that are not an array show as `N/A`; otherwise the list starts with the first file |
| Chat.KeptAfterNewline | src/app/api/chat/route.ts:34-55 | text of the template that ends at or before a non-whitespace character survives the trim |
| Chat.Context | src/app/api/chat/route.ts:34-55 | the trimmed context opens on the `Wiki Page` line and ends on a non-whitespace character |
| Chat.TrimmedAfterNewline | src/app/api/chat/route.ts:34-55 | trimming the template's leading newline keeps the first character of the text after it, and the trimmed text ends on non-whitespace |
| Chat.ContextHeader | src/app/api/chat/route.ts:34-41 | the context starts with `Wiki Page: <title>`, `Repository: <url> (branch: <branch>)`, the summary and the `Subsystems:` heading, exactly as laid out |
| Chat.ContextListsSubsystem | src/app/api/chat/route.ts:41-47 | every subsystem's block, with its files or `N/A`, is in the context |
| Chat.ContextListsFile | src/app/api/chat/route.ts:49-54 | every file appears in the context as a `- path:` line |
| Chat.SearchEntries | src/app/api/chat/route.ts:80-107 | one entry for a matching summary, one per matching subsystem and one per matching file, and no others |
| Chat.SearchAnswer | src/app/api/chat/route.ts:109-111 | without entries the answer is the no-results text; otherwise it starts with the first entry |
| Chat.SearchCodebase | src/app/api/chat/route.ts:76-112 | the accumulating loops give `SearchAnswer`: the entries in their fixed order joined by a blank line, or the no-results text |
| Chat.EntriesStartWithSOrF | src/app/api/chat/route.ts:82-106 | every entry starts with `S` or `F` |
| Chat.NoResultsIffNoEntries | src/app/api/chat/route.ts:109-111 | the no-results text comes back iff there are no entries |
| Chat.MatchingSubsystemsMembers | src/app/api/chat/route.ts:86-90 | a subsystem matches iff its lower-cased title or short summary contains the lower-cased query |
| Chat.MatchingFilesMembers | src/app/api/chat/route.ts:99-103 | a file matches iff its lower-cased path or summary contains the lower-cased query |
| Chat.NoResultsIff | src/app/api/chat/route.ts:80-111 | the answer is exactly `No relevant information found for this query.` iff neither the summary, nor any subsystem, nor any file matches |
| Chat.MatchingSubsystemListed | src/app/api/chat/route.ts:92-96 | each matching subsystem's `Subsystem - <title>: <shortSummary>` entry is in the answer |
| Chat.MatchingFileListed | src/app/api/chat/route.ts:105-107 | each matching file's `File - <path>: <summary>` entry is in the answer |
| Chat.SummaryFirst | src/app/api/chat/route.ts:81-83 | a matching summary's entry comes first |
| Chat.SearchIgnoresQueryCase | src/app/api/chat/route.ts:81-102 | lower-casing the query first changes nothing |
| Chat.FindFirst | src/app/api/chat/route.ts:123-125 | `find` returns the first element satisfying the predicate, and none iff no element does |
| Chat.SubsystemText | src/app/api/chat/route.ts:133-135 | the details answer opens with the `Subsystem:` title line and the `Description:` line, then `Files: ` |
| Chat.SubsystemNotFound | src/app/api/chat/route.ts:127-131 | the not-found answer opens with `Subsystem "<name>" not found.` and never reads as a found one |
| Chat.SubsystemDetails | src/app/api/chat/route.ts:122-136 | the answer starts with `Subsystem: ` iff some title contains the name, ignoring ASCII case |
| Chat.SubsystemDetailsFirstMatch | src/app/api/chat/route.ts:123-125 | the subsystem described is the first whose title matches |
| Chat.SubsystemDetailsNotFound | src/app/api/chat/route.ts:127-131 | without a match the answer is the not-found text and lists every title |
| Chat.NonArrayFilesShownAsNA | src/app/api/chat/route.ts:133-135 | files that are not an array show as `N/A` in the details and in the context block |
| Chat.FileText | src/app/api/chat/route.ts:157-158 | the details answer opens with the `File: <path>` line and ends with `Summary: <summary>` |
| Chat.FileNotFound | src/app/api/chat/route.ts:151-155 | the not-found answer opens with `File "<name>" not found.` and never reads as a found one |
| Chat.FileDetails | src/app/api/chat/route.ts:146-159 | the answer starts with `File: ` iff some path contains the name, ignoring ASCII case |
| Chat.FileDetailsFirstMatch | src/app/api/chat/route.ts:147-149 | the file described is the first whose path matches |
| Chat.FileDetailsNotFound | src/app/api/chat/route.ts:151-155 | without a match the answer is the not-found text and lists every path |
| Chat.FileLookupIgnoresSummaries | src/app/api/chat/route.ts:147-149 | the file lookup reads paths only: pages with the same paths pick the same file |
| SubsystemSummary.UrlPart | src/app/api/generate-subsystem-summary/route.ts:19-20 | a piece of `split("/")` exists iff the index is in range, and has no `/` |
| SubsystemSummary.Coordinates | src/app/api/generate-subsystem-summary/route.ts:19-20 | the owner exists iff the URL has more than three `/`-pieces, the repository only when the owner does, and neither contains `/` |
| SubsystemSummary.CoordinatesOfCanonicalUrl | src/app/api/generate-subsystem-summary/route.ts:19-20 | on `https://github.com/<owner>/<repo>` the pieces at 3 and 4 are the owner and the repository |
| SubsystemSummary.CanonicalUrlPieces | src/app/api/generate-subsystem-summary/route.ts:19-20 | `https://github.com/<owner>/<repo>` splits on `/` into `https:`, `""`, `github.com`, owner and repo |
| SubsystemSummary.GitSuffixKept | src/app/api/generate-subsystem-summary/route.ts:19-20 | unlike `parseGitHubUrl`, the split keeps `.git` in the repository name |
| SubsystemSummary.GetFileContent | src/app/api/generate-subsystem-summary/route.ts:16-38 | content is returned iff the answer is an entry of type `file`, and it is `""` when the entry has none; listings, other types and failures give null |
| SubsystemSummary.FileContents | src/app/api/generate-subsystem-summary/route.ts:72-83 | one record per stored path, index-aligned, with the content or `""` |
| SubsystemSummary.ValidFiles | src/app/api/generate-subsystem-summary/route.ts:86 | a record is valid iff its content is non-empty, a repeated valid record is counted as often as it occurs, and valid records keep their order |
| SubsystemSummary.UnreadableFileDropped | src/app/api/generate-subsystem-summary/route.ts:73-86 | an unreadable file keeps its place with `""` and is then left out |
| SubsystemSummary.SummaryPost | src/app/api/generate-subsystem-summary/route.ts:40-114 | unknown subsystem 404, no repository URL 404, files not an array 400 (iff), no valid file 404; once there are valid files it succeeds iff the summariser does, and a summariser error gives 500 with its message; on success `filesProcessed` is the number of valid files, above 0, and at most `totalFiles`, the number of stored paths |
| SubsystemSummary.RepoUrlCheckedFirst | src/app/api/generate-subsystem-summary/route.ts:60-69 | without a repository URL the answer is 404 whatever the files are |
| SubsystemSummary.NoValidFilesSkipsSummary | src/app/api/generate-subsystem-summary/route.ts:88-107 | with no valid file the answer is 404 whatever the summariser would answer |
| SubsystemSummary.AllFilesProcessed | src/app/api/generate-subsystem-summary/route.ts:86-114 | when every file is readable and non-empty, all files are processed |

## Left out

- The k-means algorithm (`ml-kmeans`). Its assignment is a service result. An index outside `[0, K)`, or an assignment shorter than the files, is the error the engine throws. The centroids are left out because nothing reads them.
- Embeddings are opaque `seq<real>` values that are carried along. No distance is computed.
- The OpenAI calls in `src/lib/llm.ts`, including the parsing of model output. Each is a service that returns a value, a thrown error, or for the cluster labeller a possibly null subsystem.
- Concurrency. `pLimit(10)` and `Promise.all` run the calls in index order. When several calls fail, the error reported is the one at the lowest index, while the real order depends on timing.
- GitHub I/O (`getRepoMetadata`, `getReadmeContent`, `getRepoTree`, `getFileFromRepoZip`, `getContent`). Their answers are service results, and file content arrives already decoded from base64.
- Persistence (`src/lib/wiki-utils.ts`, `src/lib/prisma.ts`). The routes return the write they would make, and a failing write is not modelled. The subsystem summary route's `prisma.subsystem.update` is left out too.
- Parsing of the request body (`req.json`, zod schemas). The routes start from the parsed `repoUrl` or `subsystemId`.
- Streaming of the chat answer, its system prompt and the model call. Only the context text and the three tool functions are modelled.
- Text.ToLower: ASCII letters only. Unicode case mapping is not modelled.
- Text.TrimStart and Text.TrimEnd: ASCII whitespace only. Unicode spaces are not modelled.
- `parseInt(wikiId)` is not modelled. The id is an already-parsed `Option<int>`, and `!wikiId` is read as "absent or zero".
- A tree item without a `path`, for which the route would group `undefined`, is not modelled. Items always carry a path.
- Stored `files` entries that are not strings are not modelled. A `files` value that is not an array is `None`.
- The `subsystems` object handed to `generateSubsystemsFromFilePaths` is a Dafny `map`, so the key order of the JavaScript object (insertion order, integer-like keys first) that the prompt would show is not modelled.
- The text of `PushNotFunctionMessage` is the engine's wording for the source as written; a minified server bundle would name renamed identifiers in it.
- A thrown value that is not an `Error`, for which the routes answer `An unknown error occurred`, is not modelled: every service failure carries a message.
- UI components and `src/app/wiki/page.tsx` are not part of this model.

## Findings

| source | as written | input that shows it | evidently intended | confidence | as-written member | corrected member |
|---|---|---|---|---|---|---|
| src/app/api/generate/route.ts:54-62 | `buckets` is a plain object `{}`. `!buckets[top]` reads inherited `Object.prototype` properties, so a top-level folder named `constructor` or `toString` (or any of the 12 such names) finds a truthy function, the bucket is never created, and `buckets[top].push` throws "buckets[top].push is not a function". The whole generation then returns 500. | a repository whose tree holds `constructor/index.ts` | every path is grouped under its top segment, whatever the name (an own-property check or a `Map`) | not executed | Generate.GroupAsWritten, Generate.ConstructorFolderCounterexample | Generate.GroupByTopSegment |
