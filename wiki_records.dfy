/** The records the routes hand to the page store (`src/lib/wiki-utils.ts`),
    kept only as the shape of the routes' results. */
module WikiRecords {
  import opened GitHubUtils

  /** A file read from the repository: its path and decoded text. */
  datatype FileContent = FileContent(path: string, content: string)

  /** An embedding vector, carried along and never inspected. */
  type Embedding = seq<real>

  /** A labelled subsystem as a labelling call returns it. */
  datatype Subsystem = Subsystem(title: string, shortSummary: string, files: seq<string>)

  /** The write that ends the path-based route: replace the subsystems of the
      page found for the URL, or create a page. */
  datatype PageWrite =
    | UpdatePage(pageId: nat, data: WikiPageData, subsystems: seq<Subsystem>)
    | CreatePage(data: WikiPageData, subsystems: seq<Subsystem>)

  /** The write that ends the content-based route, which also stores every
      important file with its synopsis and embedding (zipped by index). */
  datatype PageWithFilesWrite =
    | UpdatePageWithFiles(pageId: nat, data: WikiPageData, subsystems: seq<Subsystem>,
                          files: seq<FileContent>, summaries: seq<string>, embeddings: seq<Embedding>)
    | CreatePageWithFiles(data: WikiPageData, subsystems: seq<Subsystem>,
                          files: seq<FileContent>, summaries: seq<string>, embeddings: seq<Embedding>)

  /** A written page, or the JSON error response with its status. */
  datatype Outcome<W> = Saved(write: W) | Failed(status: nat, error: string)
}
