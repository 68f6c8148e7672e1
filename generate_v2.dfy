/** `src/app/api/generate-v2/route.ts`: the content-based pipeline. Files are
    filtered by name, reduced to an important subset when there are more than
    50, summarised one by one, embedded, clustered by k-means into an adaptive
    number of clusters, and each cluster is labelled as one subsystem. */
module GenerateV2 {
  import opened Wrappers
  import opened Text
  import Seqs
  import opened GitHubUtils
  import opened WikiRecords

  /** A member of a cluster: path, synopsis and embedding of one file. */
  datatype ClusterFile = ClusterFile(path: string, summary: string, embedding: Embedding)

  /** One k-means cluster being filled (its centroid is not used afterwards). */
  datatype Cluster = Cluster(files: seq<ClusterFile>)

  // ---------------------------------------------------------------------------
  // File filter

  /** The extensions of binaries, media and archives that are never read. */
  const MediaSuffixes: seq<string> :=
    [".exe", ".png", ".jpg", ".jpeg", ".gif", ".svg", ".ico", ".webp", ".mp4", ".mp3",
     ".wav", ".ogg", ".flac", ".webm", ".mov", ".zip", ".tar", ".gz", ".bz2", ".xz",
     ".7z", ".rar", ".iso"]

  /** The denylist: build output (a `dist/` prefix only), lock files,
      dependency directories anywhere in the path, and media/archive files. */
  predicate IsExcluded(path: string)
  {
    || StartsWith(path, "dist/")
    || EndsWith(path, ".lock")
    || Contains(path, "package-lock.json")
    || Contains(path, "pnpm-lock.yaml")
    || Contains(path, "node_modules/")
    || exists suffix :: suffix in MediaSuffixes && EndsWith(path, suffix)
  }

  /** Every test of the denylist but `dist/` looks at the file name or at a
      folder anywhere in the path, so such an exclusion survives moving the
      path into a folder; `NestedDistKept` shows that `dist/` does not. */
  lemma ExclusionSurvivesNesting(dir: string, path: string)
    requires IsExcluded(path) && !StartsWith(path, "dist/")
    ensures IsExcluded(dir + "/" + path)
  {
    var nested := dir + "/" + path;
    if Contains(path, "package-lock.json") {
      ContainsInConcat(dir + "/", path, "", "package-lock.json");
      assert dir + "/" + path + "" == nested;
    } else if Contains(path, "pnpm-lock.yaml") {
      ContainsInConcat(dir + "/", path, "", "pnpm-lock.yaml");
      assert dir + "/" + path + "" == nested;
    } else if Contains(path, "node_modules/") {
      ContainsInConcat(dir + "/", path, "", "node_modules/");
      assert dir + "/" + path + "" == nested;
    } else if EndsWith(path, ".lock") {
      SuffixSurvivesNesting(dir, path, ".lock");
    } else {
      var suffix :| suffix in MediaSuffixes && EndsWith(path, suffix);
      SuffixSurvivesNesting(dir, path, suffix);
    }
  }

  lemma SuffixSurvivesNesting(dir: string, path: string, suffix: string)
    requires EndsWith(path, suffix)
    ensures EndsWith(dir + "/" + path, suffix)
  {
    var nested := dir + "/" + path;
    assert nested[|nested| - |suffix|..] == path[|path| - |suffix|..];
  }

  predicate Kept(file: FileContent)
  {
    !IsExcluded(file.path)
  }

  /** The filter over the archive's files: a file survives iff its path is not
      on the denylist, and the survivors keep their order. */
  function FilterFiles(files: seq<FileContent>): (r: seq<FileContent>)
    ensures forall f :: f in r <==> f in files && !IsExcluded(f.path)
    ensures Seqs.IsSubsequence(r, files)
    ensures |r| <= |files|
    ensures forall f :: multiset(r)[f] == if IsExcluded(f.path) then 0 else multiset(files)[f]
  {
    Seqs.FilterIsSubsequence(files, Kept);
    forall f { Seqs.FilterMultiplicity(files, Kept, f); }
    Seqs.FilterLength(files, Kept);
    assert forall f :: f in Seqs.Filter(files, Kept) <==> f in files && Kept(f) by {
      forall f { Seqs.FilterMembership(files, Kept, f); }
    }
    Seqs.Filter(files, Kept)
  }

  /** Filtering twice is filtering once. */
  lemma FilterFilesIdempotent(files: seq<FileContent>)
    ensures FilterFiles(FilterFiles(files)) == FilterFiles(files)
  {
    Seqs.FilterIdempotent(files, Kept);
  }

  /** No media or archive extension ends in `s`. */
  lemma MediaSuffixesLastChar(path: string)
    requires |path| > 0 && path[|path| - 1] == 's'
    ensures forall suffix :: suffix in MediaSuffixes ==> !EndsWith(path, suffix)
  {
  }

  /** `dist/` is tested as a prefix only: a `dist` directory below the top
      level is kept. */
  lemma NestedDistKept()
    ensures !IsExcluded("src/dist/a.ts")
  {
    var s := "src/dist/a.ts";
    ContainsShorter(s, "package-lock.json");
    ContainsShorter(s, "pnpm-lock.yaml");
    ContainsShorter(s[1..], "node_modules/");
    assert !StartsWith(s, "node_modules/") by {
      assert s[..13][0] != "node_modules/"[0];
    }
    MediaSuffixesLastChar(s);
    assert !StartsWith(s, "dist/") by {
      assert s[..5][0] != "dist/"[0];
    }
    assert !EndsWith(s, ".lock") by {
      assert s[|s| - 5..][4] != ".lock"[4];
    }
    assert !Contains(s, "node_modules/");
    assert !(exists suffix :: suffix in MediaSuffixes && EndsWith(s, suffix));
  }

  /** `node_modules/` is dropped wherever it occurs in the path. */
  lemma NestedNodeModulesDropped()
    ensures IsExcluded("a/node_modules/b.js")
  {
    var s := "a/node_modules/b.js";
    assert s[2..15] == "node_modules/";
    ContainsAt(s, "node_modules/", 2);
  }

  // ---------------------------------------------------------------------------
  // Important-file selection

  const ImportantFileThreshold := 50

  /** The `importantFiles` branch: the selection call is made only for more
      than 50 files; otherwise the filtered list is used as it is. */
  method SelectImportantFiles(filtered: seq<FileContent>,
                              select: seq<FileContent> -> Result<seq<FileContent>>)
    returns (important: Result<seq<FileContent>>, selectorCalled: bool)
    ensures selectorCalled <==> |filtered| > ImportantFileThreshold
    ensures !selectorCalled ==> important == Ok(filtered)
    ensures selectorCalled ==> important == select(filtered)
  {
    var importantFiles: seq<FileContent> := [];
    selectorCalled := false;
    if |filtered| > ImportantFileThreshold {
      selectorCalled := true;
      var selected := select(filtered);
      if selected.Err? {
        return selected, selectorCalled;
      }
      importantFiles := selected.value;
    } else {
      importantFiles := filtered;
    }
    important := Ok(importantFiles);
  }

  // ---------------------------------------------------------------------------
  // Synopses and embeddings

  /** One synopsis per file, index-aligned with the files; a failed call
      yields `""` at that index instead of failing the run. */
  function CollectSynopses(files: seq<FileContent>, synopsize: string -> Result<string>): (r: seq<string>)
    ensures |r| == |files|
    ensures forall i :: 0 <= i < |files| ==> r[i] == OrEmpty(synopsize(files[i].content))
    ensures forall i :: 0 <= i < |files| && synopsize(files[i].content).Err? ==> r[i] == ""
  {
    Seqs.Map(files, (f: FileContent) => OrEmpty(synopsize(f.content)))
  }

  /** The synopsis at one index depends on that file's content only: a
      failure elsewhere does not change it. */
  lemma SynopsisIsolated(files: seq<FileContent>, s1: string -> Result<string>,
                         s2: string -> Result<string>, i: nat)
    requires i < |files| && s1(files[i].content) == s2(files[i].content)
    ensures CollectSynopses(files, s1)[i] == CollectSynopses(files, s2)[i]
  {
  }

  /** One embedding per synopsis, in order; any failed call fails the run. */
  function CollectEmbeddings(summaries: seq<string>, embed: string -> Result<Embedding>): (r: Result<seq<Embedding>>)
    ensures r.Ok? <==> forall i :: 0 <= i < |summaries| ==> embed(summaries[i]).Ok?
    ensures r.Ok? ==> |r.value| == |summaries|
    ensures r.Ok? ==> forall i :: 0 <= i < |summaries| ==> embed(summaries[i]) == Ok(r.value[i])
  {
    All(Seqs.Map(summaries, embed))
  }

  // ---------------------------------------------------------------------------
  // Cluster count

  const MinClusters := 2
  const MaxClusters := 8
  const FilesPerCluster := 5

  /** `K = min(8, max(2, floor(n / 5)))`: about one cluster per five files,
      never fewer than two and never more than eight. */
  function ClusterCount(n: nat): (k: nat)
    ensures MinClusters <= k <= MaxClusters
    ensures n < 2 * FilesPerCluster ==> k == MinClusters
    ensures n >= MaxClusters * FilesPerCluster ==> k == MaxClusters
    ensures 2 * FilesPerCluster <= n < (MaxClusters + 1) * FilesPerCluster ==> k == n / FilesPerCluster
  {
    var byFiles := n / FilesPerCluster;
    var atLeast := if MinClusters > byFiles then MinClusters else byFiles;
    if MaxClusters < atLeast then MaxClusters else atLeast
  }

  lemma ClusterCountExamples()
    ensures ClusterCount(0) == 2 && ClusterCount(1) == 2 && ClusterCount(9) == 2
    ensures ClusterCount(10) == 2 && ClusterCount(12) == 2 && ClusterCount(15) == 3
    ensures ClusterCount(40) == 8 && ClusterCount(1000) == 8
  {
  }

  // ---------------------------------------------------------------------------
  // Filling the clusters from the k-means assignment

  /** Every file has a cluster index in `[0, k)`. */
  predicate ValidAssignment(assignment: seq<int>, k: nat)
  {
    forall i :: 0 <= i < |assignment| ==> 0 <= assignment[i] < k
  }

  /** The indices of the files assigned to cluster `c`, in increasing order. */
  function MemberIndices(assignment: seq<int>, c: int): (idx: seq<nat>)
    ensures forall t :: 0 <= t < |idx| ==> idx[t] < |assignment| && assignment[idx[t]] == c
    ensures forall t, u :: 0 <= t < u < |idx| ==> idx[t] < idx[u]
    ensures forall i :: 0 <= i < |assignment| && assignment[i] == c ==> i in idx
    decreases |assignment|
  {
    if |assignment| == 0 then []
    else
      var last := |assignment| - 1;
      MemberIndices(assignment[..last], c) + (if assignment[last] == c then [last] else [])
  }

  /** The files of cluster `c`: those assigned to it, in input order. */
  function Members(files: seq<ClusterFile>, assignment: seq<int>, c: int): (r: seq<ClusterFile>)
    requires |files| == |assignment|
    ensures |r| == |MemberIndices(assignment, c)|
  {
    var idx := MemberIndices(assignment, c);
    seq(|idx|, t requires 0 <= t < |idx| => files[idx[t]])
  }

  /** All `k` clusters as the fill loop leaves them. */
  function Clusters(files: seq<ClusterFile>, assignment: seq<int>, k: nat): (r: seq<Cluster>)
    requires |files| == |assignment|
    ensures |r| == k
  {
    seq(k, c requires 0 <= c < k => Cluster(Members(files, assignment, c)))
  }

  lemma MembersStep(files: seq<ClusterFile>, assignment: seq<int>, i: nat, c: int)
    requires |files| == |assignment| && i < |files|
    ensures Members(files[..i + 1], assignment[..i + 1], c) ==
      Members(files[..i], assignment[..i], c) + (if assignment[i] == c then [files[i]] else [])
  {
    assert assignment[..i + 1][..i] == assignment[..i];
  }

  /** The loop that pushes file `i` onto cluster `assignment[i]`, run on an
      array of `k` clusters that start empty. */
  method FillClusters(important: seq<FileContent>, summaries: seq<string>, embeddings: seq<Embedding>,
                      assignment: seq<int>, k: nat)
    returns (clusters: seq<Cluster>)
    requires |important| == |summaries| == |embeddings| == |assignment|
    requires ValidAssignment(assignment, k)
    ensures clusters == Clusters(ClusterFiles(important, summaries, embeddings), assignment, k)
  {
    ghost var files := ClusterFiles(important, summaries, embeddings);
    var buckets := new Cluster[k](_ => Cluster([]));
    for i := 0 to |embeddings|
      invariant forall c :: 0 <= c < k ==> buckets[c].files == Members(files[..i], assignment[..i], c)
    {
      var embedding := embeddings[i];
      var path := important[i].path;
      var summary := summaries[i];
      var clusterIndex := assignment[i];
      forall c | 0 <= c < k {
        MembersStep(files, assignment, i, c);
      }
      buckets[clusterIndex] := Cluster(buckets[clusterIndex].files + [ClusterFile(path, summary, embedding)]);
    }
    assert files[..|embeddings|] == files && assignment[..|embeddings|] == assignment;
    clusters := buckets[..];
  }

  /** The records pushed by the fill loop, one per file. */
  function ClusterFiles(important: seq<FileContent>, summaries: seq<string>, embeddings: seq<Embedding>)
    : (r: seq<ClusterFile>)
    requires |important| == |summaries| == |embeddings|
    ensures |r| == |important|
    ensures forall i :: 0 <= i < |r| ==>
      r[i].path == important[i].path && r[i].summary == summaries[i] && r[i].embedding == embeddings[i]
  {
    seq(|important|, i requires 0 <= i < |important| => ClusterFile(important[i].path, summaries[i], embeddings[i]))
  }

  /** The members of all clusters, cluster after cluster. */
  function Flatten(clusters: seq<Cluster>): seq<ClusterFile>
    decreases |clusters|
  {
    if |clusters| == 0 then [] else Flatten(clusters[..|clusters| - 1]) + clusters[|clusters| - 1].files
  }

  lemma {:induction false} FlattenAppendAt(cs: seq<Cluster>, c: nat, x: ClusterFile)
    requires c < |cs|
    ensures multiset(Flatten(cs[c := Cluster(cs[c].files + [x])])) == multiset(Flatten(cs)) + multiset{x}
    decreases |cs|
  {
    var last := |cs| - 1;
    if c == last {
      FlattenAppendLast(cs, x);
    } else {
      FlattenAppendAt(cs[..last], c, x);
      FlattenUpdateEarlier(cs, c, x);
    }
  }

  lemma FlattenAppendLast(cs: seq<Cluster>, x: ClusterFile)
    requires |cs| > 0
    ensures var last := |cs| - 1;
      Flatten(cs[last := Cluster(cs[last].files + [x])]) == Flatten(cs) + [x]
  {
    var last := |cs| - 1;
    var cs' := cs[last := Cluster(cs[last].files + [x])];
    assert cs'[..last] == cs[..last];
  }

  /** Updating a cluster before the last leaves the last one's files at
      the end. */
  lemma FlattenUpdateEarlier(cs: seq<Cluster>, c: nat, x: ClusterFile)
    requires c < |cs| - 1
    ensures var last := |cs| - 1;
      Flatten(cs[c := Cluster(cs[c].files + [x])]) ==
        Flatten(cs[..last][c := Cluster(cs[c].files + [x])]) + cs[last].files
    ensures Flatten(cs) == Flatten(cs[..|cs| - 1]) + cs[|cs| - 1].files
  {
    var last := |cs| - 1;
    var cs' := cs[c := Cluster(cs[c].files + [x])];
    assert cs'[..last] == cs[..last][c := Cluster(cs[c].files + [x])];
  }

  lemma FlattenEmpty(k: nat)
    ensures Flatten(seq(k, _ => Cluster([]))) == []
  {
    if k > 0 {
      assert seq(k, _ => Cluster([]))[..k - 1] == seq(k - 1, _ => Cluster([]));
      FlattenEmpty(k - 1);
    }
  }

  /** Adding file `i` to the clusters of the first `i` files changes only
      cluster `assignment[i]`, by appending the file. */
  lemma ClustersStep(files: seq<ClusterFile>, assignment: seq<int>, k: nat, i: nat)
    requires |files| == |assignment| && ValidAssignment(assignment, k) && i < |files|
    ensures var before := Clusters(files[..i], assignment[..i], k);
      Clusters(files[..i + 1], assignment[..i + 1], k) ==
        before[assignment[i] := Cluster(before[assignment[i]].files + [files[i]])]
  {
    var before := Clusters(files[..i], assignment[..i], k);
    var after := Clusters(files[..i + 1], assignment[..i + 1], k);
    var expected := before[assignment[i] := Cluster(before[assignment[i]].files + [files[i]])];
    forall c | 0 <= c < k ensures after[c] == expected[c] {
      MembersStep(files, assignment, i, c);
    }
  }

  /** Partition: every file lands in exactly one cluster, so the clusters
      together are a permutation of the files and their sizes sum to `n`. */
  lemma {:induction false} ClustersPartitionFiles(files: seq<ClusterFile>, assignment: seq<int>, k: nat)
    requires |files| == |assignment| && ValidAssignment(assignment, k)
    ensures multiset(Flatten(Clusters(files, assignment, k))) == multiset(files)
    ensures |Flatten(Clusters(files, assignment, k))| == |files|
    decreases |files|
  {
    var n := |files|;
    var all := Clusters(files, assignment, k);
    if n == 0 {
      assert all == seq(k, _ => Cluster([]));
      FlattenEmpty(k);
    } else {
      var i := n - 1;
      Seqs.SplitLast(files);
      ClustersPartitionFiles(files[..i], assignment[..i], k);
      PartitionStep(files, assignment, k);
    }
    assert |multiset(Flatten(all))| == |multiset(files)|;
  }

  /** The clusters of all files hold one more copy of the last file than
      the clusters of the files before it. */
  lemma PartitionStep(files: seq<ClusterFile>, assignment: seq<int>, k: nat)
    requires |files| == |assignment| && ValidAssignment(assignment, k) && |files| > 0
    ensures var i := |files| - 1;
      multiset(Flatten(Clusters(files, assignment, k))) ==
        multiset(Flatten(Clusters(files[..i], assignment[..i], k))) + multiset{files[i]}
  {
    var i := |files| - 1;
    var before := Clusters(files[..i], assignment[..i], k);
    ClustersStep(files, assignment, k, i);
    assert files[..i + 1] == files && assignment[..i + 1] == assignment;
    FlattenAppendAt(before, assignment[i], files[i]);
  }

  /** File `i` is in cluster `assignment[i]` and in no other, and every
      cluster lists its files in increasing input index. */
  lemma FileInItsCluster(files: seq<ClusterFile>, assignment: seq<int>, k: nat, i: nat)
    requires |files| == |assignment| && ValidAssignment(assignment, k) && i < |files|
    ensures var c := assignment[i];
      exists t :: 0 <= t < |MemberIndices(assignment, c)| && MemberIndices(assignment, c)[t] == i &&
        Clusters(files, assignment, k)[c].files[t] == files[i]
    ensures forall c :: 0 <= c < k && c != assignment[i] ==> i !in MemberIndices(assignment, c)
  {
    var idx := MemberIndices(assignment, assignment[i]);
    var t :| 0 <= t < |idx| && idx[t] == i;
  }

  // ---------------------------------------------------------------------------
  // Labelling

  predicate IsLabelled(answer: Option<Subsystem>)
  {
    answer.Some?
  }

  function Labelled(s: Subsystem): Option<Subsystem>
  {
    Some(s)
  }

  /** The `.filter((subsystem) => subsystem !== null)` step: the labels that
      are present, in cluster order. */
  function DropNulls(labels: seq<Option<Subsystem>>): (r: seq<Subsystem>)
    ensures Seqs.Map(r, Labelled) == Seqs.Filter(labels, IsLabelled)
    ensures |r| <= |labels|
    ensures (forall i :: 0 <= i < |labels| ==> labels[i].Some?) ==> |r| == |labels|
    decreases |labels|
  {
    if |labels| == 0 then []
    else
      var last := |labels| - 1;
      var init := DropNulls(labels[..last]);
      assert Seqs.Map(init, Labelled) == Seqs.Filter(labels[..last], IsLabelled);
      match labels[last]
      case None => init
      case Some(s) =>
        assert Seqs.Map(init + [s], Labelled) == Seqs.Map(init, Labelled) + [Some(s)];
        init + [s]
  }

  /** A label survives iff it was produced, and with every cluster labelled
      the subsystems are exactly the labels, one per cluster, in order. */
  lemma DropNullsKeepsLabels(labels: seq<Option<Subsystem>>)
    ensures forall s :: s in DropNulls(labels) <==> Some(s) in labels
    ensures (forall i :: 0 <= i < |labels| ==> labels[i].Some?) ==>
      forall i :: 0 <= i < |labels| ==> DropNulls(labels)[i] == labels[i].value
  {
    var r := DropNulls(labels);
    forall s ensures s in r <==> Some(s) in labels {
      Seqs.FilterMembership(labels, IsLabelled, Some(s));
      if s in r {
        var t :| 0 <= t < |r| && r[t] == s;
        assert Seqs.Map(r, Labelled)[t] == Some(s);
      }
      if Some(s) in labels {
        var m := Seqs.Map(r, Labelled);
        assert Some(s) in m;
        var t :| 0 <= t < |m| && m[t] == Some(s);
        assert r[t] == s;
      }
    }
    if forall i :: 0 <= i < |labels| ==> labels[i].Some? {
      Seqs.FilterKeepsAll(labels, IsLabelled);
      forall i | 0 <= i < |labels| ensures r[i] == labels[i].value {
        assert Seqs.Map(r, Labelled)[i] == labels[i];
      }
    }
  }

  // ---------------------------------------------------------------------------
  // The route

  /** The remote calls the route makes, each a function of the arguments it is
      given, returning the value or the message of the error it throws:
      `getRepoMetadata`, `getFileFromRepoZip`, `generateImportantFiles`,
      `generateFileSummary`, `generateFileEmbedding`, `kmeans(...).clusters`,
      `generateSubsystemsFromFileSummary`, `getReadmeContent`,
      `generateSummaryFromReadme`, `generateShortSummary` and the id found by
      `findExistingWikiPage`. */
  datatype Services = Services(
    defaultBranch: RepoRef -> Result<string>,
    repoFiles: string -> Result<seq<FileContent>>,
    selectImportant: seq<FileContent> -> Result<seq<FileContent>>,
    synopsize: string -> Result<string>,
    embed: string -> Result<Embedding>,
    kmeans: (seq<Embedding>, nat) -> Result<seq<int>>,
    labelCluster: seq<ClusterFile> -> Result<Option<Subsystem>>,
    readme: RepoRef -> Result<string>,
    summarizeReadme: string -> Result<string>,
    shorten: string -> Result<string>,
    existingPage: string -> Option<nat>)

  /** What the JavaScript engine throws when a cluster index is outside the
      cluster array. */
  const UndefinedClusterMessage := "Cannot read properties of undefined (reading 'files')"

  /** The labelling calls, one per cluster, in cluster order. */
  function LabelRequests(clusters: seq<Cluster>, labelCluster: seq<ClusterFile> -> Result<Option<Subsystem>>)
    : (r: seq<Result<Option<Subsystem>>>)
    ensures |r| == |clusters|
    ensures forall c :: 0 <= c < |clusters| ==> r[c] == labelCluster(clusters[c].files)
  {
    Seqs.Map(clusters, (cluster: Cluster) => labelCluster(cluster.files))
  }

  /** The message of the first remote call that throws, in the order the
      route makes them, or `None` when none does. A synopsis, the README
      summary and the short summary are not among them: their failures are
      caught and read as `""`. */
  function ContentFailure(repoUrl: string, sv: Services): Option<string>
  {
    var parsed := ParseGitHubUrl(repoUrl);
    if parsed.Err? then Some(parsed.message)
    else if sv.defaultBranch(parsed.value).Err? then Some(sv.defaultBranch(parsed.value).message)
    else if sv.repoFiles(repoUrl).Err? then Some(sv.repoFiles(repoUrl).message)
    else
      var filtered := FilterFiles(sv.repoFiles(repoUrl).value);
      var important := if |filtered| > ImportantFileThreshold then sv.selectImportant(filtered) else Ok(filtered);
      if important.Err? then Some(important.message)
      else ClusteringFailure(parsed.value, important.value, sv)
  }

  /** The first failure once the important files are known: the embeddings,
      k-means, an out-of-range cluster index, the labelling and the README. */
  function ClusteringFailure(ref: RepoRef, important: seq<FileContent>, sv: Services): Option<string>
  {
    var summaries := CollectSynopses(important, sv.synopsize);
    var embedded := CollectEmbeddings(summaries, sv.embed);
    if embedded.Err? then Some(embedded.message)
    else
      var n := |embedded.value|;
      var k := ClusterCount(n);
      var clustering := sv.kmeans(embedded.value, k);
      if clustering.Err? then Some(clustering.message)
      else if !(|clustering.value| >= n && ValidAssignment(clustering.value[..n], k)) then Some(UndefinedClusterMessage)
      else
        var files := ClusterFiles(important, summaries, embedded.value);
        var labels := All(LabelRequests(Clusters(files, clustering.value[..n], k), sv.labelCluster));
        if labels.Err? then Some(labels.message)
        else if sv.readme(ref).Err? then Some(sv.readme(ref).message)
        else None
  }

  /** The POST handler. Every thrown error becomes a 500 response carrying
      its message. On success the write carries the important files, their
      index-aligned synopses and embeddings, and the labels of the clusters
      that received one; the page is updated iff one exists for the URL. */
  method ContentPost(repoUrl: string, sv: Services) returns (outcome: Outcome<PageWithFilesWrite>)
    ensures ParseGitHubUrl(repoUrl).Err? ==> outcome == Failed(500, InvalidUrlMessage)
    ensures outcome.Failed? ==> outcome.status == 500
    ensures outcome.Saved? <==> ContentFailure(repoUrl, sv).None?
    ensures outcome.Failed? ==> outcome.error == ContentFailure(repoUrl, sv).value
    ensures outcome.Saved? ==> ParseGitHubUrl(repoUrl).Ok? && sv.repoFiles(repoUrl).Ok?
    ensures outcome.Saved? && ParseGitHubUrl(repoUrl).Ok? && sv.repoFiles(repoUrl).Ok? ==>
      var w := outcome.write;
      var filtered := FilterFiles(sv.repoFiles(repoUrl).value);
      (|filtered| <= ImportantFileThreshold ==> w.files == filtered) &&
      (|filtered| > ImportantFileThreshold ==> sv.selectImportant(filtered) == Ok(w.files))
    ensures outcome.Saved? ==>
      var w := outcome.write;
      w.summaries == CollectSynopses(w.files, sv.synopsize) &&
      CollectEmbeddings(w.summaries, sv.embed) == Ok(w.embeddings)
    ensures outcome.Saved? && ParseGitHubUrl(repoUrl).Ok? ==>
      var w := outcome.write;
      var ref := ParseGitHubUrl(repoUrl).value;
      w.data == CreateWikiPageData(repoUrl, w.data.branch, ref.owner, ref.repo, w.data.summary, w.data.shortSummary) &&
      sv.defaultBranch(ref) == Ok(w.data.branch) &&
      sv.readme(ref).Ok? &&
      w.data.summary == OrEmpty(sv.summarizeReadme(sv.readme(ref).value)) &&
      w.data.shortSummary == OrEmpty(sv.shorten(w.data.summary))
    ensures outcome.Saved? ==>
      (outcome.write.UpdatePageWithFiles? <==> sv.existingPage(repoUrl).Some?) &&
      (outcome.write.UpdatePageWithFiles? ==> sv.existingPage(repoUrl) == Some(outcome.write.pageId))
    ensures outcome.Saved? ==>
      var w := outcome.write;
      var n := |w.files|;
      var k := ClusterCount(|w.embeddings|);
      var assignment := sv.kmeans(w.embeddings, k);
      assignment.Ok? && |assignment.value| >= n && ValidAssignment(assignment.value[..n], k) &&
      All(LabelRequests(Clusters(ClusterFiles(w.files, w.summaries, w.embeddings), assignment.value[..n], k),
                        sv.labelCluster)).Ok? &&
      w.subsystems == DropNulls(All(LabelRequests(Clusters(ClusterFiles(w.files, w.summaries, w.embeddings),
                                                            assignment.value[..n], k), sv.labelCluster)).value) &&
      |w.subsystems| <= k
  {
    var parsed := ParseGitHubUrl(repoUrl);
    if parsed.Err? {
      return Failed(500, parsed.message);
    }
    var owner, repo := parsed.value.owner, parsed.value.repo;
    var metadata := sv.defaultBranch(parsed.value);
    if metadata.Err? {
      return Failed(500, metadata.message);
    }
    var branch := metadata.value;
    var fileContents := sv.repoFiles(repoUrl);
    if fileContents.Err? {
      return Failed(500, fileContents.message);
    }
    var filteredFileContents := FilterFiles(fileContents.value);
    var important, _ := SelectImportantFiles(filteredFileContents, sv.selectImportant);
    if important.Err? {
      return Failed(500, important.message);
    }
    var importantFiles := important.value;
    var fileSummaries := CollectSynopses(importantFiles, sv.synopsize);
    var embedded := CollectEmbeddings(fileSummaries, sv.embed);
    if embedded.Err? {
      return Failed(500, embedded.message);
    }
    var fileEmbedding := embedded.value;
    var n := |fileEmbedding|;
    var k := ClusterCount(n);
    var clustering := sv.kmeans(fileEmbedding, k);
    if clustering.Err? {
      return Failed(500, clustering.message);
    }
    if !(|clustering.value| >= n && ValidAssignment(clustering.value[..n], k)) {
      return Failed(500, UndefinedClusterMessage);
    }
    var clusters := FillClusters(importantFiles, fileSummaries, fileEmbedding, clustering.value[..n], k);
    var labels := All(LabelRequests(clusters, sv.labelCluster));
    if labels.Err? {
      return Failed(500, labels.message);
    }
    var subsystems := DropNulls(labels.value);
    var decoded := sv.readme(parsed.value);
    if decoded.Err? {
      return Failed(500, decoded.message);
    }
    var summary := "";
    var summarized := sv.summarizeReadme(decoded.value);
    if summarized.Ok? {
      summary := summarized.value;
    } else {
      summary := "";
    }
    var shortSummary := "";
    var shortened := sv.shorten(summary);
    if shortened.Ok? {
      shortSummary := shortened.value;
    } else {
      shortSummary := "";
    }
    var existingWikiPage := sv.existingPage(repoUrl);
    var wikiPageData := CreateWikiPageData(repoUrl, branch, owner, repo, summary, shortSummary);
    if existingWikiPage.Some? {
      return Saved(UpdatePageWithFiles(existingWikiPage.value, wikiPageData, subsystems,
                              importantFiles, fileSummaries, fileEmbedding));
    }
    return Saved(CreatePageWithFiles(wikiPageData, subsystems, importantFiles, fileSummaries, fileEmbedding));
  }

  /** The README summary and the short summary never decide whether the run
      saves, nor which message a failed run carries. */
  lemma SummaryFailuresTolerated(repoUrl: string, sv: Services,
                                 summarizeReadme: string -> Result<string>, shorten: string -> Result<string>)
    ensures ContentFailure(repoUrl, sv.(summarizeReadme := summarizeReadme, shorten := shorten)) ==
            ContentFailure(repoUrl, sv)
  {
    var sv' := sv.(summarizeReadme := summarizeReadme, shorten := shorten);
    var parsed := ParseGitHubUrl(repoUrl);
    if parsed.Ok? && sv.defaultBranch(parsed.value).Ok? && sv.repoFiles(repoUrl).Ok? {
      var filtered := FilterFiles(sv.repoFiles(repoUrl).value);
      var important := if |filtered| > ImportantFileThreshold then sv.selectImportant(filtered) else Ok(filtered);
      if important.Ok? {
        SameClusteringFailure(parsed.value, important.value, sv, sv');
      }
    }
  }

  /** A synopsis call that throws acts exactly as one that returns `""`. */
  lemma FailedSynopsisReadAsEmpty(repoUrl: string, sv: Services, synopsize: string -> Result<string>)
    requires forall c :: synopsize(c) == Ok(OrEmpty(sv.synopsize(c)))
    ensures ContentFailure(repoUrl, sv.(synopsize := synopsize)) == ContentFailure(repoUrl, sv)
  {
    var sv' := sv.(synopsize := synopsize);
    var parsed := ParseGitHubUrl(repoUrl);
    if parsed.Ok? && sv.defaultBranch(parsed.value).Ok? && sv.repoFiles(repoUrl).Ok? {
      var filtered := FilterFiles(sv.repoFiles(repoUrl).value);
      var important := if |filtered| > ImportantFileThreshold then sv.selectImportant(filtered) else Ok(filtered);
      if important.Ok? {
        SameSynopses(important.value, synopsize, sv.synopsize);
        SameClusteringFailure(parsed.value, important.value, sv, sv');
      }
    }
  }

  /** The clustering stage reads only the synopsis texts, the embedder, k-means,
      the labeller and the README. */
  lemma SameClusteringFailure(ref: RepoRef, important: seq<FileContent>, sv: Services, sv': Services)
    requires CollectSynopses(important, sv.synopsize) == CollectSynopses(important, sv'.synopsize)
    requires sv.embed == sv'.embed && sv.kmeans == sv'.kmeans
    requires sv.labelCluster == sv'.labelCluster && sv.readme == sv'.readme
    ensures ClusteringFailure(ref, important, sv) == ClusteringFailure(ref, important, sv')
  {
  }

  lemma SameSynopses(files: seq<FileContent>, s1: string -> Result<string>, s2: string -> Result<string>)
    requires forall c :: OrEmpty(s1(c)) == OrEmpty(s2(c))
    ensures CollectSynopses(files, s1) == CollectSynopses(files, s2)
  {
    assert forall i :: 0 <= i < |files| ==> CollectSynopses(files, s1)[i] == CollectSynopses(files, s2)[i];
  }

  /** With at most 50 files left by the filter, the selection call is never
      made, so whatever it would answer does not matter. */
  lemma SelectorUnusedAtThreshold(repoUrl: string, sv: Services,
                                  selectImportant: seq<FileContent> -> Result<seq<FileContent>>)
    requires sv.repoFiles(repoUrl).Ok? && |FilterFiles(sv.repoFiles(repoUrl).value)| <= ImportantFileThreshold
    ensures ContentFailure(repoUrl, sv.(selectImportant := selectImportant)) == ContentFailure(repoUrl, sv)
  {
    var sv' := sv.(selectImportant := selectImportant);
    var parsed := ParseGitHubUrl(repoUrl);
    if parsed.Ok? && sv.defaultBranch(parsed.value).Ok? {
      SameClusteringFailure(parsed.value, FilterFiles(sv.repoFiles(repoUrl).value), sv, sv');
    }
  }

  /** With every cluster labelled, the run yields one subsystem per cluster,
      exactly `K` of them, and the clusters handed to the labeller partition
      the important files. */
  lemma EveryClusterLabelled(files: seq<ClusterFile>, assignment: seq<int>, k: nat,
                             labelCluster: seq<ClusterFile> -> Result<Option<Subsystem>>)
    requires |files| == |assignment| && ValidAssignment(assignment, k)
    requires forall c :: 0 <= c < k ==>
      labelCluster(Clusters(files, assignment, k)[c].files).Ok? &&
      labelCluster(Clusters(files, assignment, k)[c].files).value.Some?
    ensures var labels := All(LabelRequests(Clusters(files, assignment, k), labelCluster));
      labels.Ok? && |DropNulls(labels.value)| == k
    ensures multiset(Flatten(Clusters(files, assignment, k))) == multiset(files)
  {
    var labels := All(LabelRequests(Clusters(files, assignment, k), labelCluster));
    assert forall c :: 0 <= c < |labels.value| ==> labels.value[c].Some?;
    ClustersPartitionFiles(files, assignment, k);
  }
}
