/** `src/app/api/generate/route.ts`: the path-based pipeline. The blob paths
    of the repository tree are grouped by their top-level segment and the
    whole grouping is labelled in one call, next to the README summary. */
module Generate {
  import opened Wrappers
  import opened Text
  import Seqs
  import opened GitHubUtils
  import opened WikiRecords

  /** `path.split("/")[0]`. */
  function TopSegment(path: string): (top: string)
    ensures '/' !in top
    ensures StartsWith(path, top)
    ensures |top| == |path| || path[|top|] == '/'
  {
    SplitFirstPiece(path, '/');
    Split(path, '/')[0]
  }

  /** The key of `a/b` is `a` whenever `a` has no `/`, and a path without
      `/` is its own key. */
  lemma TopSegmentBeforeFirstSlash(a: string, b: string)
    requires '/' !in a
    ensures TopSegment(a + "/" + b) == a
    ensures TopSegment(a) == a
  {
    assert a + "/" + b == a + ['/'] + b;
    SplitAfterPiece(a, '/', b);
    SplitNoSeparator(a, '/');
  }

  function Paths(tree: seq<TreeItem>): (r: seq<string>)
    ensures |r| == |tree|
    ensures forall i :: 0 <= i < |tree| ==> r[i] == tree[i].path
  {
    Seqs.Map(tree, (item: TreeItem) => item.path)
  }

  /** The paths whose top-level segment is `key`, in tree order. */
  function Bucket(paths: seq<string>, key: string): seq<string>
  {
    Seqs.Filter(paths, (p: string) => TopSegment(p) == key)
  }

  function TopSegments(paths: seq<string>): set<string>
  {
    set p | p in paths :: TopSegment(p)
  }

  lemma BucketEmpty(paths: seq<string>, key: string)
    requires key !in TopSegments(paths)
    ensures Bucket(paths, key) == []
  {
    if |Bucket(paths, key)| > 0 {
      Seqs.FilterMembership(paths, (p: string) => TopSegment(p) == key, Bucket(paths, key)[0]);
    }
  }

  /** What the grouping should hold: one bucket per top-level segment. */
  function Grouping(paths: seq<string>): (m: map<string, seq<string>>)
    ensures m.Keys == TopSegments(paths)
  {
    map k | k in TopSegments(paths) :: Bucket(paths, k)
  }

  /** Pushing one more path extends its own bucket, creating it if needed,
      and leaves every other bucket alone. */
  lemma GroupingStep(paths: seq<string>, p: string)
    ensures var g := Grouping(paths); var top := TopSegment(p);
      Grouping(paths + [p]) == g[top := (if top in g then g[top] else []) + [p]]
  {
    var g := Grouping(paths);
    var top := TopSegment(p);
    var lhs := Grouping(paths + [p]);
    var rhs := g[top := (if top in g then g[top] else []) + [p]];
    assert TopSegments(paths + [p]) == TopSegments(paths) + {top};
    assert lhs.Keys == rhs.Keys;
    forall k | k in lhs.Keys
      ensures lhs[k] == rhs[k]
    {
      Seqs.FilterAppend(paths, p, (q: string) => TopSegment(q) == k);
      if k == top && top !in g {
        BucketEmpty(paths, top);
      }
    }
  }

  /** The `buckets` loop: every path is pushed under its top-level segment,
      a key being created the first time its segment is seen. */
  method GroupByTopSegment(tree: seq<TreeItem>) returns (buckets: map<string, seq<string>>)
    ensures buckets == Grouping(Paths(tree))
  {
    buckets := map[];
    for i := 0 to |tree|
      invariant buckets == Grouping(Paths(tree[..i]))
    {
      var file := tree[i];
      var segments := Split(file.path, '/');
      var top := segments[0];
      GroupingPrefixStep(tree, i);
      if top !in buckets {
        buckets := buckets[top := []];
      }
      buckets := buckets[top := buckets[top] + [file.path]];
    }
    assert tree[..|tree|] == tree;
  }

  /** `GroupingStep` for one more entry of the tree. */
  lemma GroupingPrefixStep(tree: seq<TreeItem>, i: nat)
    requires i < |tree|
    ensures var g := Grouping(Paths(tree[..i])); var p := tree[i].path; var top := TopSegment(p);
      Grouping(Paths(tree[..i + 1])) == g[top := (if top in g then g[top] else []) + [p]]
  {
    assert Paths(tree[..i + 1]) == Paths(tree[..i]) + [tree[i].path];
    GroupingStep(Paths(tree[..i]), tree[i].path);
  }

  /** Every path is in the bucket of its top-level segment and in no other. */
  lemma PathInExactlyOneBucket(paths: seq<string>, p: string, key: string)
    requires p in paths
    ensures p in Bucket(paths, key) <==> key == TopSegment(p)
  {
    Seqs.FilterMembership(paths, (q: string) => TopSegment(q) == key, p);
  }

  /** No bucket is empty: a key exists only for a segment some path has. */
  lemma BucketsNonEmpty(paths: seq<string>, key: string)
    requires key in TopSegments(paths)
    ensures |Bucket(paths, key)| > 0
  {
    var p :| p in paths && TopSegment(p) == key;
    PathInExactlyOneBucket(paths, p, key);
  }

  /** The sizes of the buckets named in `keys`. */
  function SumSizes(buckets: map<string, seq<string>>, keys: seq<string>): nat
    requires forall k :: k in keys ==> k in buckets
  {
    if |keys| == 0 then 0 else |buckets[keys[0]]| + SumSizes(buckets, keys[1..])
  }

  lemma {:induction false} BucketCounts(paths: seq<string>, keys: seq<string>)
    requires forall i, j :: 0 <= i < j < |keys| ==> keys[i] != keys[j]
    ensures SumSizes(map k | k in keys :: Bucket(paths, k), keys) ==
      |Seqs.Filter(paths, (p: string) => TopSegment(p) in keys)|
    decreases |keys|
  {
    var m := map k | k in keys :: Bucket(paths, k);
    if |keys| == 0 {
      BucketEmptyFilter(paths, keys);
    } else {
      var rest := keys[1..];
      BucketCounts(paths, rest);
      var m' := map k | k in rest :: Bucket(paths, k);
      SumSizesAgree(m, m', rest);
      Seqs.FilterCountSplit(paths, (p: string) => TopSegment(p) in keys,
        (p: string) => TopSegment(p) == keys[0], (p: string) => TopSegment(p) in rest);
    }
  }

  lemma BucketEmptyFilter(paths: seq<string>, keys: seq<string>)
    requires |keys| == 0
    ensures |Seqs.Filter(paths, (p: string) => TopSegment(p) in keys)| == 0
  {
    if |Seqs.Filter(paths, (p: string) => TopSegment(p) in keys)| > 0 {
      var f := Seqs.Filter(paths, (p: string) => TopSegment(p) in keys);
      Seqs.FilterMembership(paths, (p: string) => TopSegment(p) in keys, f[0]);
    }
  }

  lemma {:induction false} SumSizesAgree(m: map<string, seq<string>>, m': map<string, seq<string>>, keys: seq<string>)
    requires forall k :: k in keys ==> k in m && k in m' && m[k] == m'[k]
    ensures SumSizes(m, keys) == SumSizes(m', keys)
    decreases |keys|
  {
    if |keys| > 0 {
      SumSizesAgree(m, m', keys[1..]);
    }
  }

  /** However the keys are enumerated, the bucket sizes add up to the number
      of tree entries. */
  lemma BucketSizesSum(tree: seq<TreeItem>, buckets: map<string, seq<string>>, keys: seq<string>)
    requires buckets == Grouping(Paths(tree))
    requires forall i, j :: 0 <= i < j < |keys| ==> keys[i] != keys[j]
    requires forall k :: k in keys <==> k in buckets
    ensures SumSizes(buckets, keys) == |tree|
  {
    var paths := Paths(tree);
    BucketCounts(paths, keys);
    SumSizesAgree(buckets, map k | k in keys :: Bucket(paths, k), keys);
    assert forall p :: p in paths ==> TopSegment(p) in keys;
    Seqs.FilterKeepsAll(paths, (p: string) => TopSegment(p) in keys);
  }

  // The grouping as written keeps `buckets` in a plain object literal, so a
  // lookup falls through to `Object.prototype` for a key the object does not
  // own.

  /** The names `Object.prototype` carries. */
  const PrototypeNames: set<string> := {
    "constructor", "__defineGetter__", "__defineSetter__", "hasOwnProperty",
    "__lookupGetter__", "__lookupSetter__", "isPrototypeOf", "propertyIsEnumerable",
    "toString", "valueOf", "__proto__", "toLocaleString"}

  /** What the engine throws when `push` is looked up on a value without it. */
  const PushNotFunctionMessage := "buckets[top].push is not a function"

  /** A property read on the object: an own array, an inherited method (or,
      for `__proto__`, the prototype object itself), or `undefined`. */
  datatype JsValue = Undefined | ArrayValue(items: seq<string>) | Inherited(name: string)

  function Get(own: map<string, seq<string>>, key: string): (v: JsValue)
    ensures v.ArrayValue? <==> key in own
    ensures v.Undefined? <==> key !in own && key !in PrototypeNames
  {
    if key in own then ArrayValue(own[key])
    else if key in PrototypeNames then Inherited(key)
    else Undefined
  }

  predicate Truthy(v: JsValue)
  {
    !v.Undefined?
  }

  /** The loop at lines 54-62 over a plain object. A top-level segment that
      names an `Object.prototype` member reads as a truthy inherited value, so
      the bucket is never created and the `push` throws. */
  method GroupAsWritten(tree: seq<TreeItem>) returns (r: Result<map<string, seq<string>>>)
    ensures r.Err? <==> exists i :: 0 <= i < |tree| && TopSegment(tree[i].path) in PrototypeNames
    ensures r.Err? ==> r.message == PushNotFunctionMessage
    ensures r.Ok? ==> r.value == Grouping(Paths(tree))
  {
    var buckets: map<string, seq<string>> := map[];
    for i := 0 to |tree|
      invariant buckets == Grouping(Paths(tree[..i]))
      invariant forall j :: 0 <= j < i ==> TopSegment(tree[j].path) !in PrototypeNames
    {
      var file := tree[i];
      var top := Split(file.path, '/')[0];
      AsWrittenStep(buckets, tree, i);
      if !Truthy(Get(buckets, top)) {
        buckets := buckets[top := []];
      }
      var current := Get(buckets, top);
      if !current.ArrayValue? {
        return Err(PushNotFunctionMessage);
      }
      buckets := buckets[top := current.items + [file.path]];
    }
    assert tree[..|tree|] == tree;
    return Ok(buckets);
  }

  /** No entry of the tree sits under a folder named like an
      `Object.prototype` member, the condition under which the grouping as
      written succeeds. */
  predicate NoPrototypeFolder(tree: seq<TreeItem>)
  {
    forall i :: 0 <= i < |tree| ==> TopSegment(tree[i].path) !in PrototypeNames
  }

  lemma NoInheritedKey(tree: seq<TreeItem>)
    requires forall j :: 0 <= j < |tree| ==> TopSegment(tree[j].path) !in PrototypeNames
    ensures forall k :: k in Grouping(Paths(tree)) ==> k !in PrototypeNames
  {
  }

  /** One pass of the loop body over a grouping with no inherited key. */
  lemma AsWrittenStep(buckets: map<string, seq<string>>, tree: seq<TreeItem>, i: nat)
    requires i < |tree| && buckets == Grouping(Paths(tree[..i]))
    requires forall j :: 0 <= j < i ==> TopSegment(tree[j].path) !in PrototypeNames
    ensures var p := tree[i].path; var top := TopSegment(p);
      var created := if !Truthy(Get(buckets, top)) then buckets[top := []] else buckets;
      (Get(created, top).ArrayValue? <==> top !in PrototypeNames) &&
      (top !in PrototypeNames ==> created[top := Get(created, top).items + [p]] == Grouping(Paths(tree[..i + 1])))
  {
    NoInheritedKey(tree[..i]);
    GroupingPrefixStep(tree, i);
  }

  /** A repository with a top-level `constructor` folder: the object lookup
      finds the inherited constructor, which is truthy and not an array,
      while the grouping puts the path in a bucket of its own. */
  lemma ConstructorFolderCounterexample()
    ensures TopSegment("constructor/index.ts") == "constructor"
    ensures Truthy(Get(map[], "constructor")) && !Get(map[], "constructor").ArrayValue?
    ensures Grouping(["constructor/index.ts"]) == map["constructor" := ["constructor/index.ts"]]
  {
    var p := "constructor/index.ts";
    assert p == "constructor" + ['/'] + "index.ts";
    SplitAfterPiece("constructor", '/', "index.ts");
    GroupingStep([], p);
    assert [] + [p] == [p];
  }

  /** The remote calls of the route, as functions from their arguments to a
      value or the message they throw. */
  datatype Services = Services(
    defaultBranch: RepoRef -> Result<string>,
    readme: RepoRef -> Result<string>,
    summarizeReadme: string -> Result<string>,
    shorten: string -> Result<string>,
    repoTree: (RepoRef, string) -> Result<seq<TreeItem>>,
    labelPaths: (map<string, seq<string>>, string) -> Result<seq<Subsystem>>,
    existingPage: string -> Option<nat>)

  /** The message of the first call that throws, in the order the route makes
      them, or `None` when none does. The README summary and the short summary
      are caught and are not among them; a folder named like an
      `Object.prototype` member makes the grouping throw. */
  function StructuralFailure(repoUrl: string, sv: Services): Option<string>
  {
    var parsed := ParseGitHubUrl(repoUrl);
    if parsed.Err? then Some(parsed.message)
    else if sv.defaultBranch(parsed.value).Err? then Some(sv.defaultBranch(parsed.value).message)
    else if sv.readme(parsed.value).Err? then Some(sv.readme(parsed.value).message)
    else
      var fetched := sv.repoTree(parsed.value, sv.defaultBranch(parsed.value).value);
      if fetched.Err? then Some(fetched.message)
      else if !NoPrototypeFolder(BlobItems(fetched.value)) then Some(PushNotFunctionMessage)
      else
        var summary := OrEmpty(sv.summarizeReadme(sv.readme(parsed.value).value));
        var labelled := sv.labelPaths(Grouping(Paths(BlobItems(fetched.value))), summary);
        if labelled.Err? then Some(labelled.message) else None
  }

  /** A README summary call that throws acts exactly as one that returns
      `""`, and the short summary never decides the outcome. */
  lemma SummaryFailuresTolerated(repoUrl: string, sv: Services,
                                 summarizeReadme: string -> Result<string>, shorten: string -> Result<string>)
    requires forall text :: summarizeReadme(text) == Ok(OrEmpty(sv.summarizeReadme(text)))
    ensures StructuralFailure(repoUrl, sv.(summarizeReadme := summarizeReadme, shorten := shorten)) ==
            StructuralFailure(repoUrl, sv)
  {
  }

  /** The path-based POST handler, from a parsed body to the write it makes or
      the 500 response its catch-all returns. The README summary and the short
      summary fall back to "" when their calls throw, and the run goes on. The
      paths are grouped as the route writes it, so a folder named like an
      `Object.prototype` member makes the run fail. */
  method StructuralPost(repoUrl: string, sv: Services) returns (outcome: Outcome<PageWrite>)
    ensures ParseGitHubUrl(repoUrl).Err? ==> outcome == Failed(500, InvalidUrlMessage)
    ensures outcome.Failed? ==> outcome.status == 500
    ensures outcome.Saved? <==> StructuralFailure(repoUrl, sv).None?
    ensures outcome.Failed? ==> outcome.error == StructuralFailure(repoUrl, sv).value
    ensures outcome.Saved? <==>
      var parsed := ParseGitHubUrl(repoUrl);
      parsed.Ok? && sv.defaultBranch(parsed.value).Ok? && sv.readme(parsed.value).Ok? &&
      sv.repoTree(parsed.value, sv.defaultBranch(parsed.value).value).Ok? &&
      NoPrototypeFolder(BlobItems(sv.repoTree(parsed.value, sv.defaultBranch(parsed.value).value).value)) &&
      sv.labelPaths(Grouping(Paths(BlobItems(sv.repoTree(parsed.value, sv.defaultBranch(parsed.value).value).value))),
                    OrEmpty(sv.summarizeReadme(sv.readme(parsed.value).value))).Ok?
    ensures outcome.Saved? && ParseGitHubUrl(repoUrl).Ok? ==>
      var ref := ParseGitHubUrl(repoUrl).value;
      var w := outcome.write;
      sv.defaultBranch(ref) == Ok(w.data.branch) && sv.readme(ref).Ok? &&
      w.data == CreateWikiPageData(repoUrl, w.data.branch, ref.owner, ref.repo, w.data.summary, w.data.shortSummary) &&
      w.data.summary == OrEmpty(sv.summarizeReadme(sv.readme(ref).value)) &&
      w.data.shortSummary == OrEmpty(sv.shorten(w.data.summary))
    ensures outcome.Saved? && ParseGitHubUrl(repoUrl).Ok? ==>
      var ref := ParseGitHubUrl(repoUrl).value;
      var tree := sv.repoTree(ref, outcome.write.data.branch);
      tree.Ok? && sv.labelPaths(Grouping(Paths(BlobItems(tree.value))), outcome.write.data.summary) == Ok(outcome.write.subsystems)
    ensures
      var parsed := ParseGitHubUrl(repoUrl);
      parsed.Ok? && sv.defaultBranch(parsed.value).Ok? && sv.readme(parsed.value).Ok? &&
      sv.repoTree(parsed.value, sv.defaultBranch(parsed.value).value).Ok? &&
      !NoPrototypeFolder(BlobItems(sv.repoTree(parsed.value, sv.defaultBranch(parsed.value).value).value)) ==>
      outcome == Failed(500, PushNotFunctionMessage)
    ensures outcome.Saved? ==>
      (outcome.write.UpdatePage? <==> sv.existingPage(repoUrl).Some?) &&
      (outcome.write.UpdatePage? ==> sv.existingPage(repoUrl) == Some(outcome.write.pageId))
  {
    var parsed := ParseGitHubUrl(repoUrl);
    if parsed.Err? {
      return Failed(500, parsed.message);
    }
    var owner, repo := parsed.value.owner, parsed.value.repo;
    var metadata := sv.defaultBranch(parsed.value);
    if metadata.Err? {
      return Failed(500, metadata.message);
    }
    var branch := metadata.value;
    var decoded := sv.readme(parsed.value);
    if decoded.Err? {
      return Failed(500, decoded.message);
    }
    var summary := "";
    var summarized := sv.summarizeReadme(decoded.value);
    if summarized.Ok? {
      summary := summarized.value;
    } else {
      summary := "";
    }
    var shortSummary := "";
    var shortened := sv.shorten(summary);
    if shortened.Ok? {
      shortSummary := shortened.value;
    } else {
      shortSummary := "";
    }
    var fetched := sv.repoTree(parsed.value, branch);
    if fetched.Err? {
      return Failed(500, fetched.message);
    }
    var tree := BlobItems(fetched.value);
    var grouped := GroupAsWritten(tree);
    if grouped.Err? {
      return Failed(500, grouped.message);
    }
    var buckets := grouped.value;
    var labelled := sv.labelPaths(buckets, summary);
    if labelled.Err? {
      return Failed(500, labelled.message);
    }
    var subsystems := labelled.value;
    var existingWikiPage := sv.existingPage(repoUrl);
    var wikiPageData := CreateWikiPageData(repoUrl, branch, owner, repo, summary, shortSummary);
    if existingWikiPage.Some? {
      return Saved(UpdatePage(existingWikiPage.value, wikiPageData, subsystems));
    }
    return Saved(CreatePage(wikiPageData, subsystems));
  }
}
