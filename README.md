# spidermonkey: line cache, snippet engine and start-up configuration

This project models two parts of the spidermonkey code-search service in Dafny.

- **The search engine's full build, search and snippet code** (`CodeSearchEngine` in the `search_engine` crate).
  The full build walks a directory and skips `.git/` paths, non-files and files it cannot open.
  It adds one index document `(path, line, body)` per successfully read line, numbered by the reader's enumerate counter plus one.
  It caches the same successful lines per path (`lines_map`).
  Search takes the documents the index matched, in the order returned.
  For each one it rebuilds a snippet of up to 3 lines either side from the cache, clamped to the file.
  It drops matches whose file is not cached or whose line lies past the cached lines.
- **Start-up configuration and the `/search` handler of the binary** (`AppConfig` in `spidermonkey`).
  Defaults are overlaid with the optional fields of the YAML `scan_settings` record, then with the command-line values.
  The directory is then validated.
  A failed search is answered with an empty result list.

The filesystem is an input: a sequence of walk entries, each file carrying the outcome of every line read.
The full-text index is the sequence of documents the writer receives.
A query is represented by its outcome: the addresses of the matching documents in the searcher's order, or a failure.
`humantime::parse_duration` is a function parameter `parse`.
Loading the YAML file is an input whose outcome comes with the command line.

Files:

- `wrappers.dfy`: module `Wrappers`, with `Option` and `Result`.
- `text.dfy`: module `Text`, modelling `join("\n")`, `str::contains` and `str::trim` (Unicode White_Space), and the inverse of the join.
- `search_engine.dfy`: module `SearchEngine`, modelling `src/search_engine/src/lib.rs`.
- `spidermonkey.dfy`: module `Spidermonkey`, modelling `src/spidermonkey/src/main.rs` and the `ScanSettings` record of `src/spidermonkey/src/config.rs`.

`New` and `Search` are methods with loops, proved equal to the specification functions `Build` and `SearchOutcome`.
The lemmas state their properties in terms of those functions.
`AppConfig` is a class whose methods update its fields in place. `WithConfig` and `WithCli` are proved to produce `ApplyFile` and `ApplyCli` of the old value. `ExecCli` returns a fresh `AppConfig` whose value is `Effective` of the command line.

The model follows the code as written, including these easily misread points:

- The code's full build hard-codes the `.git/` exclusion and takes a writer memory budget.
  It does not take configurable exclude patterns.
  `main.rs` calls `CodeSearchEngine::new(dir, exclude_patterns)` and `reload`, which this `lib.rs` does not have.
- A query that fails to parse makes `search` return an error.
  The handler, not `search`, turns it into `{"results": []}`, and that reply has no `"time"` key.
- Document numbers count failed line reads but the cache does not hold them.
  So a failed read before the last successful one shifts the numbering: a match is then dropped or given the wrong window (`FailedReadMisnumbers`, `FailedReadWrongSnippet`).
  Each file is numbered on its own, so when no read of a document's own file failed, its line k is cached line k, whatever other files did (`CleanBuildAligned`).
- clap's `input` group (main.rs:85-89) is required and not `multiple`, so exactly one of `--directory` and `--config` is given.
  `--endpoint` and `--interval` combine with a file.
  `exec_cli` applies the file overlay and then the command-line overlay, so a command-line endpoint or interval wins over the file's.

## Model

| member | source | states |
|---|---|---|
| `SearchEngine.ReadLines` | src/search_engine/src/lib.rs:165-181 | `None` exactly when the path is not cached or the line lies past its cached lines. Otherwise `1 <= start <= line <= end <= total`, `start = max(1, line - n)`, `end = min(total, line + n)`, and the snippet is the cached lines `start..end` joined with "\n". Requires `line >= 1`, because `line - 1` is unsigned. |
| `SearchEngine.SnippetLines` | src/search_engine/src/lib.rs:177-180 | For cached lines without "\n", splitting the snippet gives back exactly the `end - start + 1` window lines. The matched line is at offset `line - start`. |
| `Text.SplitJoin` | src/search_engine/src/lib.rs:179 | Splitting on "\n" undoes `join("\n")` for a non-empty list of lines that hold no "\n". The empty list is excluded because its join is `""`, which splits to `[""]`. |
| `SearchEngine.New` | src/search_engine/src/lib.rs:67-116 | The built engine's index and cache are `BuildDocs` and `BuildLinesMap` of the walk. Every document's line number is at least 1. |
| `Text.Contains` | src/search_engine/src/lib.rs:82 | True exactly when the pattern occurs at some position of the string. |
| `SearchEngine.FileDocsFaithful` | src/search_engine/src/lib.rs:89-98 | A file yields one document per successful read, with its path and the k-th successful text. Its number is the position of a successful read of that very text, at least k + 1. Numbers strictly increase. |
| `SearchEngine.CleanFileNumbering` | src/search_engine/src/lib.rs:89-97 | With no failed read, the document at position k is numbered k + 1, and the cache holds every line's text. |
| `SearchEngine.DocProvenance` | src/search_engine/src/lib.rs:78-100 | Every document comes from an indexed walk entry with the same path and is one of that file's documents. |
| `SearchEngine.BuildWellFormed` | src/search_engine/src/lib.rs:89-96 | Every built document's line number is at least 1, as `read_lines` needs. |
| `SearchEngine.LinesMapDomain` | src/search_engine/src/lib.rs:78-101 | A path is cached exactly when some walk entry with that path is indexed: a file, not a `.git/` path, and openable. |
| `SearchEngine.LinesMapValue` | src/search_engine/src/lib.rs:88-100 | When each path is walked once, an indexed file's cache entry is exactly its successfully read lines, in order. |
| `SearchEngine.IndexMatchesCache` | src/search_engine/src/lib.rs:89-100 | Per path, the bodies of its documents in index order are exactly its cached lines. So the document count equals the cached line count. An uncached path has no documents. |
| `SearchEngine.SkippedPathAbsent` | src/search_engine/src/lib.rs:80-86 | A path whose entries are all skipped gets neither documents nor a cache entry. Skipped means a non-file, a `.git/` path, or a file that cannot be opened. |
| `SearchEngine.CleanBuildAligned` | src/search_engine/src/lib.rs:89-100 | When no read of the document's own file failed, document line k of its path is cached line k of that path. Failed reads in other files do not matter. |
| `SearchEngine.FailedReadMisnumbers` | src/search_engine/src/lib.rs:89-97 | Take a file read as "a", a failure, then "b". It gets documents 1 and 3 but caches two lines, so a match on "b" gets no snippet. |
| `SearchEngine.FailedReadWrongSnippet` | src/search_engine/src/lib.rs:89-97 | Take a file read as "a", a failure, "b", then "c". "b" is document line 3 and its match is kept with the range 1..3, but cached line 3 is "c", not "b". |
| `SearchEngine.Search` | src/search_engine/src/lib.rs:119-162 | The result is `SearchOutcome`. A query failure is returned as is. Otherwise the results are assembled from the matched documents in match order. |
| `SearchEngine.AssembleAppend` | src/search_engine/src/lib.rs:133-155 | Assembling distributes over concatenation of the matches, so results keep the order of their matches. |
| `SearchEngine.AssembleOne` | src/search_engine/src/lib.rs:147-154 | A match is dropped exactly when its file is not cached or its line is past the cached lines. Otherwise it yields one result with its path and line, the clamped range and the joined window. |
| `SearchEngine.AssembleSound` | src/search_engine/src/lib.rs:133-155 | There are no more results than matches. Every result's range lies within its cached file and contains its line, and its body is that window. |
| `SearchEngine.CleanSearchKeepsAll` | src/search_engine/src/lib.rs:134-155 | When no read of any matched document's file failed, no match is dropped. The k-th result has the k-th matched document's path and line. |
| `SearchEngine.CleanSnippetCentred` | src/search_engine/src/lib.rs:147-153 | When no read of the matched document's file failed, the snippet's line at offset `line - start` is the matched document's body. |
| `SearchEngine.NeedleBuild` | src/search_engine/src/lib.rs:78-105 | The five-line file `a.txt` builds five documents numbered 1 to 5 and caches its five lines. |
| `SearchEngine.NeedleExample` | src/search_engine/src/lib.rs:119-181 | A match on line 3 of that file yields path `a.txt`, line 3, range 1..5 and all five lines joined. |
| `Text.TrimStart` | src/spidermonkey/src/main.rs:200 | The result is a suffix. Everything removed is whitespace. It does not start with whitespace. |
| `Text.TrimEnd` | src/spidermonkey/src/main.rs:200 | The result is a prefix. Everything removed is whitespace. It does not end with whitespace. |
| `Text.Trim` | src/spidermonkey/src/main.rs:200 | The trimmed string is empty exactly when every character is whitespace. |
| `Spidermonkey.Validate` | src/spidermonkey/src/main.rs:199-207 | Fails, with the empty-directory error, exactly when the directory is all whitespace (empty after trimming). |
| `Spidermonkey.AppConfig.constructor` | src/spidermonkey/src/main.rs:153-161 | No directory, endpoint `127.0.0.1:3000`, no pre-scan commands, a 30-second interval, `[".git"]` excluded. |
| `Spidermonkey.Reparse` | src/spidermonkey/src/main.rs:173-177 | The interval is replaced only when a duration string is present and parses. Otherwise it is unchanged. |
| `Spidermonkey.ApplyFile` | src/spidermonkey/src/main.rs:163-182 | Each field whose setting is present is replaced by it. Each field whose setting is absent, and an interval string that does not parse, leave the field unchanged. |
| `Spidermonkey.AppConfig.WithConfig` | src/spidermonkey/src/main.rs:163-182 | The new value is `ApplyFile` of the old value. |
| `Spidermonkey.ApplyCli` | src/spidermonkey/src/main.rs:184-197 | Only the directory, endpoint and parsable interval given on the command line change. The pre-scan commands and exclude patterns are left as they are. |
| `Spidermonkey.AppConfig.WithCli` | src/spidermonkey/src/main.rs:184-197 | The new value is `ApplyCli` of the old value. Its frame allows only the directory, endpoint and interval fields to change. |
| `Spidermonkey.ExecCli` | src/spidermonkey/src/main.rs:210-222 | Returns a fresh config with value `Effective`, or `Effective`'s error. A config file that fails to load is an error. Otherwise the order is defaults, file overlay, command-line overlay, validation. |
| `Spidermonkey.StartupFailsIff` | src/spidermonkey/src/main.rs:210-222 | Start-up fails exactly when the config file fails to load or the chosen directory is blank. The chosen directory is the command line's, else the file's, else none. With neither, start-up always fails. The case where both a command-line directory and a file are given is one clap rejects before `exec_cli` runs. |
| `Spidermonkey.CliTakesPrecedence` | src/spidermonkey/src/main.rs:214-219 | After both overlays, the command line's directory, endpoint and parsable interval win over the file's. The lists come from the file overlay. Its directory clause covers command lines that give both `--directory` and `--config`, which clap rejects before `exec_cli` runs. |
| `Spidermonkey.EffectiveInterval` | src/spidermonkey/src/main.rs:173-195 | The effective interval is the command line's if it parses, else the file's if it parses, else 30 seconds. |
| `Spidermonkey.OverlaysIdempotent` | src/spidermonkey/src/main.rs:163-197 | Applying the same file settings, or the same command line, twice equals applying them once. |
| `Spidermonkey.SearchHandler` | src/spidermonkey/src/main.rs:43-54 | A failed search gives an empty result list without a time. A successful one passes its results through. |
| `Spidermonkey.HandlerEmptyIff` | src/spidermonkey/src/main.rs:47-53 | The reply's results are empty exactly when the query failed or every match was dropped. |

## Left out

- Tantivy internals are not modelled: the schema, query parsing and scoring, the `TopDocs` limit of 100,000,000, the writer's memory budget, and commit and reader generations. The index is the sequence of added documents, and a query is given by its outcome.
- Tantivy errors from creating the writer, adding a document or committing are not modelled. `New` always returns an engine.
- `SearchEngine.Search` requires every matching address to be the address of a stored document. A failing `searcher.doc` is not modelled.
- The order in which `WalkDir` visits entries and the file I/O itself are not modelled. The walk is an input sequence. The lemmas that need it assume each path is walked once.
- A file's reads are a finite sequence, so `New` always finishes. In the source, a read error that repeats forever (`BufReader::lines` returning `Err` without consuming input) keeps the `enumerate` loop at lib.rs:89 running, and `new` never returns. Invalid UTF-8 consumes its bytes and does not cause this. The hang is not modelled.
- `to_string_lossy` is not modelled. An entry's path is the lossy string. A flag says whether `to_str` succeeds, since a non-UTF-8 path skips the `.git/` test.
- `SearchEngine.UniquePaths` compares lossy strings, but `WalkDir` only guarantees distinct OS paths. Two non-UTF-8 names can give the same lossy string. The source then overwrites that path's cache entry but keeps both files' documents. `IndexMatchesCache`, `LinesMapValue` and the other lemmas that require `UniquePaths` say nothing about such a walk.
- Integer widths are not modelled: no `i64` or `usize` overflow of line numbers or of `line - 1 + n`.
- `SearchEngine.ReadLines` requires `line >= 1`. Line 0 never reaches `read_lines`, because every built document is numbered at least 1 (`BuildWellFormed`). At line 0 the unsigned `line - 1` at lib.rs:178 would underflow: a panic with overflow checks, a wrap-around without them. An uncached path returns `None` before that point.
- Elapsed time (`Instant`, the `time` field) is wall-clock and floating point. A reply only records whether it has a `"time"` key.
- The failure branch of `serde_json::to_value` in `search_handler` (main.rs:50) is not modelled. A successful search's results pass through unchanged.
- The background resync loop, `reload`, pre-scan command execution, the axum router, CORS and the listener are not modelled. They are concurrency, process spawning and network plumbing, and `reload` is not in this `lib.rs`.
- `build_cli` and clap parsing are not modelled; the command line arrives as optional strings. clap's rule that exactly one of `--directory` and `--config` is given is not checked by `ExecCli`.
- `read_config` is not modelled; its outcome arrives as `ConfigFile`. `humantime::parse_duration` is the parameter `parse`.
