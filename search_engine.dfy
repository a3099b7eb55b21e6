/** The line cache and snippet engine of the `search_engine` crate (`CodeSearchEngine`).

    The full-text index is an external collaborator: here it is the sequence of documents the
    writer was given, in the order they were added, and a query is represented by its outcome,
    the addresses of the matching documents in that sequence, in the order the searcher
    returned them. The directory walk and file reading are an input: one `WalkEntry` per item
    the walk produced, each file carrying the outcome of every line read. */
module SearchEngine {
  import opened Wrappers
  import opened Text

  /** The context radius `search` passes to `read_lines`. */
  const ContextRadius: nat := 3

  /** Paths containing this are skipped by the full build. */
  const GitMarker: string := ".git/"

  /** A 1-based inclusive range of lines. */
  datatype LineRange = LineRange(start: nat, end: nat)

  datatype SearchResult = SearchResult(body: string, path: string, line: nat, lineRange: LineRange)

  /** The results of one search; the elapsed time is not modelled. */
  datatype SearchResults = SearchResults(results: seq<SearchResult>)

  /** One index document: a single line of a file, numbered from 1. */
  datatype Document = Document(path: string, line: nat, body: string)

  /** The committed index and the in-memory line cache (`lines_map`). */
  datatype CodeSearchEngine = CodeSearchEngine(index: seq<Document>, linesMap: map<string, seq<string>>)

  /** Failures of the external index while parsing or running a query. */
  datatype SearchError = QueryParseError | IndexError

  /** The outcome of reading one line of a file. */
  datatype LineRead = LineOk(text: string) | LineErr

  /** One item of the directory walk. `WalkError` is an entry the walk could not produce;
      `utf8` says whether the path converts to `&str`; `content` is `None` when the file
      cannot be opened and otherwise holds the outcome of every line read, finitely many (a
      read error that repeats forever, which hangs the source's build, is not modelled). */
  datatype WalkEntry =
    | WalkError
    | Entry(path: string, utf8: bool, isFile: bool, content: Option<seq<LineRead>>)

  function Max(a: int, b: int): int { if a < b then b else a }

  function Min(a: int, b: int): int { if a < b then a else b }

  /** `usize::saturating_sub`. */
  function SaturatingSub(a: nat, b: nat): nat { if a < b then 0 else a - b }

  // ---------------------------------------------------------------------------------------
  // read_lines

  /** The cached lines of `filePath` within `n` lines of `line`, clamped to the file, joined
      with "\n", together with the 1-based inclusive range used. `line` is 1-based: the
      source computes `line - 1` on an unsigned integer. */
  function ReadLines(linesMap: map<string, seq<string>>, filePath: string, line: nat, n: nat)
    : (r: Option<(string, (nat, nat))>)
    requires line >= 1
    ensures r.None? <==> filePath !in linesMap || line > |linesMap[filePath]|
    ensures r.Some? ==>
      var lines, start, end := linesMap[filePath], r.value.1.0, r.value.1.1;
      && 1 <= start <= line <= end <= |lines|
      && start == Max(1, line - n)
      && end == Min(|lines|, line + n)
      && r.value.0 == JoinLines(lines[start - 1..end])
  {
    if filePath !in linesMap then None
    else
      var fileLines := linesMap[filePath];
      var total := |fileLines|;
      if line > total then None
      else
        var start := SaturatingSub(SaturatingSub(line, 1), n);
        var end := Min(line - 1 + n, total - 1);
        Some((JoinLines(fileLines[start..end + 1]), (start + 1, end + 1)))
  }

  /** Lines as `BufReader::lines` yields them carry no "\n". */
  predicate NoNewlines(lines: seq<string>)
  {
    forall k :: 0 <= k < |lines| ==> '\n' !in lines[k]
  }

  /** The snippet splits back into exactly the window's `end - start + 1` cached lines, and the
      matched line sits at offset `line - start` in it. */
  lemma SnippetLines(linesMap: map<string, seq<string>>, filePath: string, line: nat, n: nat)
    requires line >= 1
    requires filePath in linesMap && line <= |linesMap[filePath]|
    requires NoNewlines(linesMap[filePath])
    ensures ReadLines(linesMap, filePath, line, n).Some?
    ensures
      var r := ReadLines(linesMap, filePath, line, n).value;
      var start, end := r.1.0, r.1.1;
      && SplitLines(r.0) == linesMap[filePath][start - 1..end]
      && |SplitLines(r.0)| == end - start + 1
      && SplitLines(r.0)[line - start] == linesMap[filePath][line - 1]
  {
    var r := ReadLines(linesMap, filePath, line, n).value;
    var window := linesMap[filePath][r.1.0 - 1..r.1.1];
    assert forall k :: 0 <= k < |window| ==> window[k] == linesMap[filePath][r.1.0 - 1 + k];
    SplitJoin(window);
  }

  // ---------------------------------------------------------------------------------------
  // new: the full build

  /** The line reads of a walk entry the build indexes, or `None` for an entry it skips: a walk
      error, anything that is not a file, a path whose `&str` form contains ".git/", and a
      file that cannot be opened. A path that is not valid UTF-8 escapes the ".git/" test. */
  function Lines(e: WalkEntry): Option<seq<LineRead>>
  {
    if e.WalkError? || !e.isFile then None
    else if e.utf8 && Contains(e.path, GitMarker) then None
    else e.content
  }

  /** The texts of the successful reads, in order: what `vec_lines` collects. */
  function Successes(lineReads: seq<LineRead>): seq<string>
  {
    if lineReads == [] then []
    else
      Successes(lineReads[..|lineReads| - 1])
      + match lineReads[|lineReads| - 1]
        case LineOk(text) => [text]
        case LineErr => []
  }

  /** The documents of one file: a successful read at enumerate index `num` becomes the
      document numbered `num + 1`; failed reads are skipped but still counted. */
  function FileDocs(path: string, lineReads: seq<LineRead>): seq<Document>
  {
    if lineReads == [] then []
    else
      FileDocs(path, lineReads[..|lineReads| - 1])
      + match lineReads[|lineReads| - 1]
        case LineOk(text) => [Document(path, |lineReads|, text)]
        case LineErr => []
  }

  function EntryDocs(e: WalkEntry): seq<Document>
  {
    match Lines(e)
    case None => []
    case Some(lineReads) => FileDocs(e.path, lineReads)
  }

  /** Every document the build adds, in the order it adds them. */
  function BuildDocs(walk: seq<WalkEntry>): seq<Document>
  {
    if walk == [] then []
    else BuildDocs(walk[..|walk| - 1]) + EntryDocs(walk[|walk| - 1])
  }

  /** The line cache after the build: each indexed file's successful lines, a later entry for
      the same path replacing an earlier one. */
  function BuildLinesMap(walk: seq<WalkEntry>): map<string, seq<string>>
  {
    if walk == [] then map[]
    else
      var m := BuildLinesMap(walk[..|walk| - 1]);
      var e := walk[|walk| - 1];
      match Lines(e)
      case None => m
      case Some(lineReads) => m[e.path := Successes(lineReads)]
  }

  function Build(walk: seq<WalkEntry>): CodeSearchEngine
  {
    CodeSearchEngine(BuildDocs(walk), BuildLinesMap(walk))
  }

  /** Every document has a line number of at least 1. */
  predicate Numbered(docs: seq<Document>)
  {
    forall k :: 0 <= k < |docs| ==> docs[k].line >= 1
  }

  predicate WellFormed(engine: CodeSearchEngine)
  {
    Numbered(engine.index)
  }

  /** `CodeSearchEngine::new`: walk the directory, add one document per successfully read
      line, record the same lines in the cache, and commit once at the end. */
  method New(walk: seq<WalkEntry>) returns (engine: CodeSearchEngine)
    ensures engine == Build(walk)
    ensures WellFormed(engine)
  {
    var writer: seq<Document> := [];
    var linesMap: map<string, seq<string>> := map[];
    for i := 0 to |walk|
      invariant writer == BuildDocs(walk[..i])
      invariant linesMap == BuildLinesMap(walk[..i])
    {
      var entry := walk[i];
      assert walk[..i + 1][..i] == walk[..i];
      if entry.Entry? && entry.isFile {
        if entry.utf8 && Contains(entry.path, GitMarker) {
          // skipped
        } else if entry.content.Some? {
          var lineReads := entry.content.value;
          var vecLines: seq<string> := [];
          for num := 0 to |lineReads|
            invariant vecLines == Successes(lineReads[..num])
            invariant writer == BuildDocs(walk[..i]) + FileDocs(entry.path, lineReads[..num])
          {
            assert lineReads[..num + 1][..num] == lineReads[..num];
            match lineReads[num]
            case LineOk(text) =>
              writer := writer + [Document(entry.path, num + 1, text)];
              vecLines := vecLines + [text];
            case LineErr =>
          }
          assert lineReads[..|lineReads|] == lineReads;
          linesMap := linesMap[entry.path := vecLines];
        }
      }
    }
    assert walk[..|walk|] == walk;
    BuildWellFormed(walk);
    engine := CodeSearchEngine(writer, linesMap);
  }

  /** Each document of a file carries that file's path and the k-th successful text, and its
      number is the position of a successful read of exactly that text; numbers increase. */
  lemma {:induction false} FileDocsFaithful(path: string, lineReads: seq<LineRead>)
    ensures |FileDocs(path, lineReads)| == |Successes(lineReads)| <= |lineReads|
    ensures forall k :: 0 <= k < |FileDocs(path, lineReads)| ==>
      var d := FileDocs(path, lineReads)[k];
      && d.path == path && d.body == Successes(lineReads)[k]
      && k + 1 <= d.line <= |lineReads| && lineReads[d.line - 1] == LineOk(d.body)
    ensures forall j, k :: 0 <= j < k < |FileDocs(path, lineReads)| ==>
      FileDocs(path, lineReads)[j].line < FileDocs(path, lineReads)[k].line
  {
    if lineReads != [] {
      var init := lineReads[..|lineReads| - 1];
      FileDocsFaithful(path, init);
      assert forall k :: 0 <= k < |init| ==> init[k] == lineReads[k];
      match lineReads[|lineReads| - 1]
      case LineOk(text) =>
        assert FileDocs(path, lineReads) == FileDocs(path, init) + [Document(path, |lineReads|, text)];
        assert Successes(lineReads) == Successes(init) + [text];
      case LineErr =>
        assert FileDocs(path, lineReads) == FileDocs(path, init);
        assert Successes(lineReads) == Successes(init);
    }
  }

  /** No read failed. */
  predicate NoFailures(lineReads: seq<LineRead>)
  {
    forall k :: 0 <= k < |lineReads| ==> lineReads[k].LineOk?
  }

  /** When no read fails, the document at position k is numbered k + 1. */
  lemma {:induction false} CleanFileNumbering(path: string, lineReads: seq<LineRead>)
    requires NoFailures(lineReads)
    ensures |FileDocs(path, lineReads)| == |Successes(lineReads)| == |lineReads|
    ensures forall k :: 0 <= k < |lineReads| ==> FileDocs(path, lineReads)[k].line == k + 1
    ensures forall k :: 0 <= k < |lineReads| ==> Successes(lineReads)[k] == lineReads[k].text
  {
    if lineReads != [] {
      var init := lineReads[..|lineReads| - 1];
      var text := lineReads[|lineReads| - 1].text;
      CleanFileNumbering(path, init);
      assert FileDocs(path, lineReads) == FileDocs(path, init) + [Document(path, |lineReads|, text)];
      assert Successes(lineReads) == Successes(init) + [text];
    }
  }

  /** The entry of the walk a document of the build came from. */
  lemma {:induction false} DocProvenance(walk: seq<WalkEntry>, d: Document) returns (i: nat)
    requires d in BuildDocs(walk)
    ensures i < |walk| && Lines(walk[i]).Some?
    ensures walk[i].path == d.path && d in FileDocs(walk[i].path, Lines(walk[i]).value)
  {
    var init := walk[..|walk| - 1];
    if d in BuildDocs(init) {
      i := DocProvenance(init, d);
    } else {
      i := |walk| - 1;
      var e := walk[i];
      FileDocsFaithful(e.path, Lines(e).value);
      var k :| 0 <= k < |FileDocs(e.path, Lines(e).value)| && FileDocs(e.path, Lines(e).value)[k] == d;
    }
  }

  lemma BuildWellFormed(walk: seq<WalkEntry>)
    ensures WellFormed(Build(walk))
  {
    forall k | 0 <= k < |BuildDocs(walk)| ensures BuildDocs(walk)[k].line >= 1 {
      var d := BuildDocs(walk)[k];
      var i := DocProvenance(walk, d);
      FileDocsFaithful(d.path, Lines(walk[i]).value);
    }
  }

  /** A path is cached iff some entry the build indexes has that path. */
  lemma {:induction false} LinesMapDomain(walk: seq<WalkEntry>, p: string)
    ensures p in BuildLinesMap(walk) <==>
      exists i :: 0 <= i < |walk| && Lines(walk[i]).Some? && walk[i].path == p
  {
    if walk != [] {
      var init := walk[..|walk| - 1];
      LinesMapDomain(init, p);
      assert forall i :: 0 <= i < |init| ==> init[i] == walk[i];
    }
  }

  /** The walk produces every path at most once. Paths are compared as lossy strings, which is
      stronger than the distinct OS paths `WalkDir` guarantees: two non-UTF-8 names can share a
      lossy string. */
  predicate UniquePaths(walk: seq<WalkEntry>)
  {
    forall i, j :: 0 <= i < j < |walk| && walk[i].Entry? && walk[j].Entry? ==> walk[i].path != walk[j].path
  }

  /** With every path walked once, an indexed file's cache entry is exactly its successful
      lines, in order. */
  lemma {:induction false} LinesMapValue(walk: seq<WalkEntry>, i: nat)
    requires UniquePaths(walk)
    requires i < |walk| && Lines(walk[i]).Some?
    ensures walk[i].path in BuildLinesMap(walk)
    ensures BuildLinesMap(walk)[walk[i].path] == Successes(Lines(walk[i]).value)
  {
    var init := walk[..|walk| - 1];
    if i < |walk| - 1 {
      assert UniquePaths(init);
      LinesMapValue(init, i);
    }
  }

  /** The documents of `docs` whose path is `p`, in order. */
  function DocsFor(docs: seq<Document>, p: string): seq<Document>
  {
    if docs == [] then []
    else DocsFor(docs[..|docs| - 1], p) + if docs[|docs| - 1].path == p then [docs[|docs| - 1]] else []
  }

  function Bodies(docs: seq<Document>): (r: seq<string>)
    ensures |r| == |docs| && forall k :: 0 <= k < |docs| ==> r[k] == docs[k].body
  {
    seq(|docs|, k requires 0 <= k < |docs| => docs[k].body)
  }

  lemma {:induction false} DocsForAppend(a: seq<Document>, b: seq<Document>, p: string)
    ensures DocsFor(a + b, p) == DocsFor(a, p) + DocsFor(b, p)
  {
    if b != [] {
      var b', last := b[..|b| - 1], b[|b| - 1];
      assert (a + b)[..|a + b| - 1] == a + b';
      assert (a + b)[|a + b| - 1] == last;
      var tail := if last.path == p then [last] else [];
      assert DocsFor(a + b, p) == DocsFor(a + b', p) + tail;
      assert DocsFor(b, p) == DocsFor(b', p) + tail;
      DocsForAppend(a, b', p);
    } else {
      assert a + b == a;
    }
  }

  lemma {:induction false} DocsForFile(path: string, lineReads: seq<LineRead>, p: string)
    ensures DocsFor(FileDocs(path, lineReads), p) == if path == p then FileDocs(path, lineReads) else []
  {
    var docs := FileDocs(path, lineReads);
    FileDocsFaithful(path, lineReads);
    if path != p {
      DocsForNone(docs, p);
    } else {
      DocsForAll(docs, p);
    }
  }

  lemma {:induction false} DocsForNone(docs: seq<Document>, p: string)
    requires forall k :: 0 <= k < |docs| ==> docs[k].path != p
    ensures DocsFor(docs, p) == []
  {
    if docs != [] {
      var init := docs[..|docs| - 1];
      assert forall k :: 0 <= k < |init| ==> init[k] == docs[k];
      DocsForNone(init, p);
    }
  }

  lemma {:induction false} DocsForAll(docs: seq<Document>, p: string)
    requires forall k :: 0 <= k < |docs| ==> docs[k].path == p
    ensures DocsFor(docs, p) == docs
  {
    if docs != [] {
      var init, last := docs[..|docs| - 1], docs[|docs| - 1];
      assert forall k :: 0 <= k < |init| ==> init[k] == docs[k];
      DocsForAll(init, p);
      assert DocsFor(docs, p) == init + [last];
    }
  }

  /** The index and the cache agree per path: the bodies of a path's documents, in index
      order, are exactly its cached lines, and a path without a cache entry has no documents.
      In particular a path has as many documents as cached lines. */
  lemma {:induction false} IndexMatchesCache(walk: seq<WalkEntry>, p: string)
    requires UniquePaths(walk)
    ensures Bodies(DocsFor(BuildDocs(walk), p)) ==
      if p in BuildLinesMap(walk) then BuildLinesMap(walk)[p] else []
  {
    if walk != [] {
      var init := walk[..|walk| - 1];
      var e := walk[|walk| - 1];
      assert UniquePaths(init);
      IndexMatchesCache(init, p);
      var before := DocsFor(BuildDocs(init), p);
      assert DocsFor(BuildDocs(walk), p) == before + DocsFor(EntryDocs(e), p) by {
        DocsForAppend(BuildDocs(init), EntryDocs(e), p);
      }
      if Lines(e).Some? && e.path == p {
        var lineReads := Lines(e).value;
        assert |before| == 0 by { LastPathFresh(walk); }
        assert DocsFor(EntryDocs(e), p) == FileDocs(p, lineReads) by {
          DocsForFile(e.path, lineReads, p);
        }
        assert BuildLinesMap(walk)[p] == Successes(lineReads);
        FileDocsFaithful(p, lineReads);
      } else {
        assert DocsFor(EntryDocs(e), p) == [] by {
          if Lines(e).Some? { DocsForFile(e.path, Lines(e).value, p); }
        }
        assert DocsFor(BuildDocs(walk), p) == before;
        assert (p in BuildLinesMap(walk) <==> p in BuildLinesMap(init))
          && (p in BuildLinesMap(init) ==> BuildLinesMap(walk)[p] == BuildLinesMap(init)[p]);
      }
    }
  }

  /** With every path walked once, the last entry's path is not cached before it. */
  lemma LastPathFresh(walk: seq<WalkEntry>)
    requires UniquePaths(walk) && walk != [] && Lines(walk[|walk| - 1]).Some?
    ensures walk[|walk| - 1].path !in BuildLinesMap(walk[..|walk| - 1])
  {
    var init, p := walk[..|walk| - 1], walk[|walk| - 1].path;
    LinesMapDomain(init, p);
    forall i | 0 <= i < |init| && Lines(init[i]).Some?
      ensures init[i].path != p
    {
      assert walk[i] == init[i];
    }
  }

  /** A path no indexed entry has (a ".git/" path, a non-file, a file that cannot be opened)
      gets neither documents nor a cache entry. */
  lemma SkippedPathAbsent(walk: seq<WalkEntry>, p: string)
    requires forall i :: 0 <= i < |walk| && walk[i].Entry? && walk[i].path == p ==> Lines(walk[i]).None?
    ensures p !in BuildLinesMap(walk)
    ensures DocsFor(BuildDocs(walk), p) == []
  {
    LinesMapDomain(walk, p);
    var docs := BuildDocs(walk);
    forall k | 0 <= k < |docs| ensures docs[k].path != p {
      var i := DocProvenance(walk, docs[k]);
    }
    DocsForNone(BuildDocs(walk), p);
  }

  /** Every read of every indexed file with path `p` succeeded; other files may have failed
      reads, since each file is numbered on its own. */
  predicate ReadsCleanly(walk: seq<WalkEntry>, p: string)
  {
    forall i :: 0 <= i < |walk| && walk[i].Entry? && walk[i].path == p && Lines(walk[i]).Some? ==>
      NoFailures(Lines(walk[i]).value)
  }

  /** When no read of its own file failed, document line k of a path is cached line k of that
      path. */
  lemma CleanBuildAligned(walk: seq<WalkEntry>, d: Document)
    requires UniquePaths(walk) && ReadsCleanly(walk, d.path)
    requires d in BuildDocs(walk)
    ensures d.path in BuildLinesMap(walk)
    ensures 1 <= d.line <= |BuildLinesMap(walk)[d.path]|
    ensures BuildLinesMap(walk)[d.path][d.line - 1] == d.body
  {
    var i := DocProvenance(walk, d);
    var lineReads := Lines(walk[i]).value;
    var cached := Successes(lineReads);
    assert BuildLinesMap(walk)[d.path] == cached by {
      LinesMapValue(walk, i);
    }
    var docs := FileDocs(d.path, lineReads);
    var k :| 0 <= k < |docs| && docs[k] == d;
    assert d.line == k + 1 && k < |cached| && d.body == cached[k] by {
      assert NoFailures(lineReads);
      FileDocsFaithful(d.path, lineReads);
      CleanFileNumbering(d.path, lineReads);
    }
  }

  /** A failed read shifts the numbering: the file "f" with reads "a", a failure and "b" gets
      documents numbered 1 and 3 but caches only two lines, so a match on "b" has no snippet. */
  lemma FailedReadMisnumbers()
    ensures
      var walk := [Entry("f", true, true, Some([LineOk("a"), LineErr, LineOk("b")]))];
      && BuildDocs(walk) == [Document("f", 1, "a"), Document("f", 3, "b")]
      && BuildLinesMap(walk) == map["f" := ["a", "b"]]
      && ReadLines(BuildLinesMap(walk), "f", 3, ContextRadius).None?
  {
    var lineReads := [LineOk("a"), LineErr, LineOk("b")];
    var walk := [Entry("f", true, true, Some(lineReads))];
    assert !Contains("f", GitMarker);
    assert walk[..0] == [];
    assert lineReads[..2] == [LineOk("a"), LineErr];
    assert lineReads[..2][..1] == [LineOk("a")];
    assert [LineOk("a")][..0] == [];
    assert FileDocs("f", [LineOk("a")]) == [Document("f", 1, "a")];
    assert Successes([LineOk("a")]) == ["a"];
    assert FileDocs("f", lineReads) == [Document("f", 1, "a"), Document("f", 3, "b")];
    assert Successes(lineReads) == ["a", "b"];
  }

  /** A failed read before later successful ones misplaces a snippet: the file "f" read as "a",
      a failure, "b" and "c" numbers "b" as line 3, its match is kept with the whole file as
      its window, and cached line 3 is "c", not "b". */
  lemma FailedReadWrongSnippet()
    ensures
      var walk := [Entry("f", true, true, Some([LineOk("a"), LineErr, LineOk("b"), LineOk("c")]))];
      var d := Document("f", 3, "b");
      && BuildDocs(walk) == [Document("f", 1, "a"), d, Document("f", 4, "c")]
      && BuildLinesMap(walk) == map["f" := ["a", "b", "c"]]
      && Kept(BuildLinesMap(walk), d) == [SearchResult(JoinLines(["a", "b", "c"]), "f", 3, LineRange(1, 3))]
      && BuildLinesMap(walk)["f"][d.line - 1] != d.body
  {
    var lineReads := [LineOk("a"), LineErr, LineOk("b"), LineOk("c")];
    var walk := [Entry("f", true, true, Some(lineReads))];
    assert !Contains("f", GitMarker);
    assert walk[..0] == [];
    assert lineReads[..3] == [LineOk("a"), LineErr, LineOk("b")];
    assert lineReads[..3][..2] == [LineOk("a"), LineErr];
    assert lineReads[..3][..2][..1] == [LineOk("a")];
    assert [LineOk("a")][..0] == [];
    assert FileDocs("f", [LineOk("a")]) == [Document("f", 1, "a")];
    assert Successes([LineOk("a")]) == ["a"];
    assert FileDocs("f", lineReads[..3]) == [Document("f", 1, "a"), Document("f", 3, "b")];
    assert Successes(lineReads[..3]) == ["a", "b"];
    assert FileDocs("f", lineReads) == [Document("f", 1, "a"), Document("f", 3, "b"), Document("f", 4, "c")];
    assert Successes(lineReads) == ["a", "b", "c"];
    assert ["a", "b", "c"][0..3] == ["a", "b", "c"];
  }

  // ---------------------------------------------------------------------------------------
  // search

  /** The search result for one matched document, if its snippet can be rebuilt. */
  function Kept(linesMap: map<string, seq<string>>, d: Document): seq<SearchResult>
    requires d.line >= 1
  {
    match ReadLines(linesMap, d.path, d.line, ContextRadius)
    case None => []
    case Some((snippet, (start, end))) => [SearchResult(snippet, d.path, d.line, LineRange(start, end))]
  }

  /** The results assembled from the matched documents, in match order. */
  function Assemble(linesMap: map<string, seq<string>>, matched: seq<Document>): seq<SearchResult>
    requires Numbered(matched)
  {
    if matched == [] then []
    else Assemble(linesMap, matched[..|matched| - 1]) + Kept(linesMap, matched[|matched| - 1])
  }

  /** The matching addresses are addresses of stored documents. */
  predicate ValidAddresses(engine: CodeSearchEngine, addrs: seq<nat>)
  {
    forall k :: 0 <= k < |addrs| ==> addrs[k] < |engine.index|
  }

  /** The documents at the matching addresses (`searcher.doc`). */
  function Retrieve(engine: CodeSearchEngine, addrs: seq<nat>): (r: seq<Document>)
    requires ValidAddresses(engine, addrs)
    ensures |r| == |addrs| && forall k :: 0 <= k < |addrs| ==> r[k] == engine.index[addrs[k]]
  {
    seq(|addrs|, k requires 0 <= k < |addrs| => engine.index[addrs[k]])
  }

  /** What `search` returns: the query's failure, or the assembled results. */
  function SearchOutcome(engine: CodeSearchEngine, matches: Result<seq<nat>, SearchError>)
    : Result<SearchResults, SearchError>
    requires WellFormed(engine)
    requires matches.Success? ==> ValidAddresses(engine, matches.value)
  {
    match matches
    case Failure(err) => Failure(err)
    case Success(addrs) => Success(SearchResults(Assemble(engine.linesMap, Retrieve(engine, addrs))))
  }

  /** `CodeSearchEngine::search`, given the outcome of running the query on the index. */
  method Search(engine: CodeSearchEngine, matches: Result<seq<nat>, SearchError>)
    returns (r: Result<SearchResults, SearchError>)
    requires WellFormed(engine)
    requires matches.Success? ==> ValidAddresses(engine, matches.value)
    ensures r == SearchOutcome(engine, matches)
  {
    if matches.Failure? {
      return Failure(matches.error);
    }
    var addrs := matches.value;
    ghost var matched := Retrieve(engine, addrs);
    var found: seq<SearchResult> := [];
    for i := 0 to |addrs|
      invariant found == Assemble(engine.linesMap, matched[..i])
    {
      assert matched[..i + 1][..i] == matched[..i];
      var retrieved := engine.index[addrs[i]];
      var filePath := retrieved.path;
      var lineNum := retrieved.line;
      match ReadLines(engine.linesMap, filePath, lineNum, ContextRadius)
      case Some((lines, (start, end))) =>
        found := found + [SearchResult(lines, filePath, lineNum, LineRange(start, end))];
      case None =>
    }
    assert matched[..|addrs|] == matched;
    return Success(SearchResults(found));
  }

  /** Assembling is compositional: results keep the order of the matches they come from. */
  lemma {:induction false} AssembleAppend(linesMap: map<string, seq<string>>, a: seq<Document>, b: seq<Document>)
    requires Numbered(a)
    requires Numbered(b)
    ensures Assemble(linesMap, a + b) == Assemble(linesMap, a) + Assemble(linesMap, b)
  {
    if b != [] {
      var b', last := b[..|b| - 1], b[|b| - 1];
      assert (a + b)[..|a + b| - 1] == a + b';
      assert (a + b)[|a + b| - 1] == last;
      assert Assemble(linesMap, a + b) == Assemble(linesMap, a + b') + Kept(linesMap, last);
      assert Assemble(linesMap, b) == Assemble(linesMap, b') + Kept(linesMap, last);
      AssembleAppend(linesMap, a, b');
    } else {
      assert a + b == a;
    }
  }

  /** One match is dropped exactly when its file is not cached or its line lies past the
      cached lines; otherwise it yields one result with its path and line and the clamped
      window around it. */
  lemma AssembleOne(linesMap: map<string, seq<string>>, d: Document)
    requires d.line >= 1
    ensures Assemble(linesMap, [d]) == Kept(linesMap, d)
    ensures Kept(linesMap, d) == [] <==> d.path !in linesMap || d.line > |linesMap[d.path]|
    ensures Kept(linesMap, d) != [] ==>
      var lines := linesMap[d.path];
      var start, end := Max(1, d.line - ContextRadius), Min(|lines|, d.line + ContextRadius);
      Kept(linesMap, d) == [SearchResult(JoinLines(lines[start - 1..end]), d.path, d.line, LineRange(start, end))]
  {
  }

  /** Within a result: the range lies in the file and contains the matched line, and the body
      is the cached window. */
  predicate ResultWithin(linesMap: map<string, seq<string>>, r: SearchResult)
  {
    && r.path in linesMap
    && 1 <= r.lineRange.start <= r.line <= r.lineRange.end <= |linesMap[r.path]|
    && r.body == JoinLines(linesMap[r.path][r.lineRange.start - 1..r.lineRange.end])
  }

  lemma {:induction false} AssembleSound(linesMap: map<string, seq<string>>, matched: seq<Document>)
    requires Numbered(matched)
    ensures |Assemble(linesMap, matched)| <= |matched|
    ensures forall r :: r in Assemble(linesMap, matched) ==> ResultWithin(linesMap, r)
  {
    if matched != [] {
      AssembleSound(linesMap, matched[..|matched| - 1]);
    }
  }

  /** When every read of the matched documents' files succeeded, no match is dropped: the
      k-th result carries the path and line of the k-th matched document. */
  lemma {:induction false} CleanSearchKeepsAll(walk: seq<WalkEntry>, addrs: seq<nat>)
    requires UniquePaths(walk) && ValidAddresses(Build(walk), addrs)
    requires forall k :: 0 <= k < |addrs| ==> ReadsCleanly(walk, BuildDocs(walk)[addrs[k]].path)
    ensures WellFormed(Build(walk))
    ensures
      var results := Assemble(BuildLinesMap(walk), Retrieve(Build(walk), addrs));
      && |results| == |addrs|
      && forall k :: 0 <= k < |addrs| ==>
        && results[k].path == BuildDocs(walk)[addrs[k]].path
        && results[k].line == BuildDocs(walk)[addrs[k]].line
  {
    BuildWellFormed(walk);
    if addrs != [] {
      var engine, m := Build(walk), BuildLinesMap(walk);
      var init := addrs[..|addrs| - 1];
      var matched := Retrieve(engine, addrs);
      var d := matched[|addrs| - 1];
      assert ValidAddresses(engine, init);
      CleanSearchKeepsAll(walk, init);
      assert matched[..|addrs| - 1] == Retrieve(engine, init);
      var prev, results := Assemble(m, Retrieve(engine, init)), Assemble(m, matched);
      assert results == prev + Kept(m, d);
      assert d in BuildDocs(walk);
      CleanBuildAligned(walk, d);
      AssembleOne(m, d);
      forall k | 0 <= k < |addrs|
        ensures results[k].path == BuildDocs(walk)[addrs[k]].path
        ensures results[k].line == BuildDocs(walk)[addrs[k]].line
      {
        if k < |init| {
          assert results[k] == prev[k] && init[k] == addrs[k];
        } else {
          assert results[k] == Kept(m, d)[0];
        }
      }
    }
  }

  /** When its file read cleanly, a match's snippet contains the matched text at offset
      `line - start`, provided the file's lines hold no "\n" (as `BufReader::lines` yields them). */
  lemma CleanSnippetCentred(walk: seq<WalkEntry>, d: Document)
    requires UniquePaths(walk) && ReadsCleanly(walk, d.path)
    requires d in BuildDocs(walk)
    requires d.path in BuildLinesMap(walk) && NoNewlines(BuildLinesMap(walk)[d.path])
    ensures d.line >= 1
    ensures
      var m := BuildLinesMap(walk);
      var r := Kept(m, d);
      && |r| == 1
      && r[0].lineRange.start <= d.line <= r[0].lineRange.end
      && |SplitLines(r[0].body)| == r[0].lineRange.end - r[0].lineRange.start + 1
      && SplitLines(r[0].body)[d.line - r[0].lineRange.start] == d.body
  {
    CleanBuildAligned(walk, d);
    SnippetLines(BuildLinesMap(walk), d.path, d.line, ContextRadius);
  }

  /** The directory of the end-to-end example: a.txt of five lines whose third is "needle". */
  function NeedleWalk(): seq<WalkEntry>
  {
    [Entry("a.txt", true, true, Some([LineOk("one"), LineOk("two"), LineOk("needle"), LineOk("four"), LineOk("five")]))]
  }

  /** The engine that directory should build. */
  function NeedleEngine(): CodeSearchEngine
  {
    CodeSearchEngine(
      [Document("a.txt", 1, "one"), Document("a.txt", 2, "two"), Document("a.txt", 3, "needle"),
       Document("a.txt", 4, "four"), Document("a.txt", 5, "five")],
      map["a.txt" := ["one", "two", "needle", "four", "five"]])
  }

  /** The five reads of a.txt, all successful. */
  function NeedleReads(): seq<LineRead>
  {
    [LineOk("one"), LineOk("two"), LineOk("needle"), LineOk("four"), LineOk("five")]
  }

  /** a.txt is indexed: it is a file, it can be opened and its path has no ".git/". */
  lemma NeedleIndexed()
    ensures NeedleWalk() == [Entry("a.txt", true, true, Some(NeedleReads()))]
    ensures Lines(NeedleWalk()[0]) == Some(NeedleReads())
  {
    assert !Contains("a.txt", GitMarker) by {
      assert "a.txt"[0] != GitMarker[0];
      assert !OccursAt("a.txt", GitMarker, 0);
    }
  }

  /** The cached lines of a.txt are its five texts. */
  lemma NeedleSuccesses()
    ensures Successes(NeedleReads()) == NeedleEngine().linesMap["a.txt"]
  {
    var lineReads, lines := NeedleReads(), NeedleEngine().linesMap["a.txt"];
    CleanFileNumbering("a.txt", lineReads);
    forall k | 0 <= k < 5 ensures Successes(lineReads)[k] == lines[k] {
      assert lineReads[k].text == lines[k];
    }
  }

  /** The five documents of a.txt are numbered 1 to 5. */
  lemma NeedleFile()
    ensures FileDocs("a.txt", NeedleReads()) == NeedleEngine().index
  {
    var lineReads, lines := NeedleReads(), NeedleEngine().linesMap["a.txt"];
    var docs, built := NeedleEngine().index, FileDocs("a.txt", lineReads);
    NeedleSuccesses();
    CleanFileNumbering("a.txt", lineReads);
    FileDocsFaithful("a.txt", lineReads);
    forall k | 0 <= k < 5 ensures built[k] == docs[k] {
      assert built[k].path == "a.txt" && built[k].line == k + 1 && built[k].body == lines[k];
    }
  }

  /** The build of that directory: five documents numbered 1 to 5, and the five lines cached. */
  lemma NeedleBuild()
    ensures Build(NeedleWalk()) == NeedleEngine()
  {
    var walk := NeedleWalk();
    NeedleIndexed();
    NeedleSuccesses();
    NeedleFile();
    assert walk[..0] == [];
    assert BuildLinesMap(walk) == map["a.txt" := Successes(NeedleReads())];
    assert BuildDocs(walk) == FileDocs("a.txt", NeedleReads());
  }

  /** The end-to-end example: a match on line 3 of a.txt yields path a.txt, line 3, the range
      1..5 (the window of 3 clamped to the file) and all five lines as the body. */
  lemma NeedleExample()
    ensures WellFormed(NeedleEngine()) && ValidAddresses(NeedleEngine(), [2])
    ensures SearchOutcome(NeedleEngine(), Success([2])) ==
      Success(SearchResults([SearchResult(JoinLines(["one", "two", "needle", "four", "five"]), "a.txt", 3, LineRange(1, 5))]))
  {
    var engine := NeedleEngine();
    var lines := ["one", "two", "needle", "four", "five"];
    var d := Document("a.txt", 3, "needle");
    assert Retrieve(engine, [2]) == [d];
    AssembleOne(engine.linesMap, d);
    assert Kept(engine.linesMap, d) == [SearchResult(JoinLines(lines), "a.txt", 3, LineRange(1, 5))] by {
      assert lines[0..5] == lines;
    }
  }
}
