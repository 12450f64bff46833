# tre-deployment-find, modelled in Dafny

`tre-deployment-find` looks up, among the deployment-revision messages of a
secure-scuttlebutt log, the first revision whose author is the requested one
(`--author`, else the input message's author, else the local identity) and
whose git repository and branch equal those of the local checkout, and prints (or writes back into an
input message file) that message's key as `revisionBranch` and its lineage
root as `revisionRoot`.

The model has three modules:

- `Records` (`records.dfy`): log messages (`Msg`), the input document (`Doc`,
  whose fields may be missing), the search descriptor (`SearchKv`), and the
  JavaScript notions the code relies on: a missing field reads as `undefined`
  (`Field`), truthiness of strings (`Truthy`) and `a || b` (`Or`).
- `Matching` (`matching.dfy`, for `index.js`): the revision stream is a finite
  sequence of elements followed by `Done` or `Failed(reason)`. `Drain` is the
  `pull.drain` callback: a loop that pushes each element's message onto a
  buffer. `FindMatching` is the end-of-stream callback, which reports the error
  or searches the buffer. `Check` is the `Array.find` predicate, with its ordered
  early returns. `FirstMatch` and `FindMessage` are `Array.find` itself.
  `Trace` is the sequence of debug verdicts one search produces.
- `Find` (`find_cli.dfy`, for `bin/find.js`): loading the input message,
  resolving type and author, building the search descriptor, merging the
  output record, choosing between write-back and print, and `Run`, the whole
  program flow. `Run` is imperative: it reassigns `author` and `inputKv` step by
  step, as the script does.

The file system, `ssb.whoami`, `gitInfo` and `messagesByType` are parameters of
`Run`: `readFile` (file name to read/parse result), `lookup` (the joint
whoami/git result) and `messagesByType` (content type to stream).

Three behaviours of the code are worth knowing:

- The lineage root is `revisionRoot || key` (bin/find.js:106), so an
  empty-string `revisionRoot` falls back to the key. `LineageRoot` is the
  nullish `revisionRoot ?? key` alternative, and
  `RevisionRootAgreesWithLineageRoot` states exactly where the two differ.
- No match is not handled: bin/find.js:84 reads `kv.key` of `undefined`, a
  TypeError that ends the process. `Run` models this as `Fail(MatchMissing)`.
- Repository and branch always come from `gitInfo`, even when the input file
  holds them (bin/find.js:74-75).

## Model

| member | source | states |
|---|---|---|
| `Matching.ValuesAt` | index.js:14-19 | the collected sequence has one message per stream element, and its i-th entry is the i-th element's `value` |
| `Matching.Drain` | index.js:14-19 | the loop's buffer is exactly the elements' messages, in arrival order: no element is dropped, added or reordered |
| `Matching.Check` | index.js:30-45 | the predicate accepts iff author, repository and branch all equal the target's; a rejection names the first failing check in the order author, repository, branch, and every earlier check passed |
| `Matching.FirstMatch` | index.js:30-46 | the index returned matches and no earlier buffered message does; no index is returned iff no buffered message matches |
| `Matching.FindMessage` | index.js:27-47 | a returned message is an element of the buffer and matches the target; the result is absent iff no buffered message matches; otherwise it is the message at the first matching index |
| `Matching.EarlierMatchWins` | index.js:30 | of two matching candidates, the earlier one is returned |
| `Matching.FirstMatchReadsOnlyMatchFields` | index.js:28-44 | buffers that agree on author, repository and branch, searched with targets that agree on those three fields, give the same result: content `type` and all other fields play no part |
| `Matching.TraceStopsAtFirstMatch` | index.js:30-46 | the predicate runs on the candidates up to and including the first match and on none after it; every verdict before the last is a rejection; a match is found iff an acceptance is logged |
| `Matching.FindMatching` | index.js:10-26 | a stream that ends in an error yields that error and no search; a completed stream yields the first match among all its messages, from the stream for the target's type |
| `Find.RevisionRoot` | bin/find.js:105-107 | the result is `content.revisionRoot` when that is present and non-empty, else the key; it is non-empty whenever the key is |
| `Find.RevisionRootAgreesWithLineageRoot` | bin/find.js:106 | falling back to the key on a falsy root gives the same root as falling back only on an absent one, unless `revisionRoot` is the empty string and the key is not |
| `Find.LoadInput` | bin/find.js:38-48 | no positional argument gives `{}`; an unreadable file gives its error; a parsed document with a `.value` is accepted unchanged, one without is rejected; an accepted document is the file's |
| `Find.ResolveType` | bin/find.js:49-52 | a truthy `--type` wins; otherwise the type is the input's non-empty `content.type`; an input `value` without `content` is a TypeError; otherwise the result is "type is not defined"; a resolved type is never empty |
| `Find.ResolveAuthor` | bin/find.js:54-65 | the author is `--author` if truthy, else the input message's truthy author, else the whoami feed id |
| `Find.Assemble` | bin/find.js:81-88 | the output keeps the input's key and other fields and has the descriptor's author; its content has `revisionBranch` = the match key, `revisionRoot` = the match's lineage root, type, repository and branch from the descriptor, and every other field as the input had it (absent if it was) |
| `Find.OutputRepositoryIsFromGit` | bin/find.js:69-78 | whatever the input file holds, the output's repository and branch are the checkout's |
| `Find.Deliver` | bin/find.js:89-93 | the record is written back iff `--write-back` is set and an input file name is given, to that file; otherwise it is printed, unchanged either way |
| `Find.Run` | bin/find.js:29-97 | the run fails with the first error in program order (no type and no file, unreadable file, missing `.value`, missing type or content, whoami/git failure, stream error, no match); otherwise it emits the merged record for the first match from the stream of the resolved type, searched with the resolved author and the git repository and branch |

## Left out

- The pull-stream plumbing and the ssb client (`tre-cli-client`, `ssb.close`, `multicb`): they are I/O and asynchronous callbacks. The stream is a finite sequence with an explicit end, and `whoami` and `gitInfo` are one `Lookup` input. When both of them fail, which error is reported depends on arrival order, which is not modelled.
- The client connection error at bin/find.js:30: it is I/O before any logic runs.
- `gitInfo`, `fs.readFileSync`, `JSON.parse` and `fs.writeFileSync`: they are I/O. Their results are inputs, and a write-back is an `Exit` value naming the file.
- The diagnostic lines on stderr (index.js:17-18, bin/find.js:58, 66-67), including the `human-time` rendering of the timestamp and the five-character truncations: they are display only. The debug messages of `findMessage` are modelled as `Verdict` values (`Trace`), without the key prefix.
- The stdout lines before the record: bin/find.js:41 (`console.log` of "input file: ...", when a file is given) and bin/find.js:68 (`console.dir(git)`, always) write to stdout, the same stream as the record printed at bin/find.js:92. `Printed(out)` names only the record, so in the print branch it is not everything stdout holds.
- `Element`: the lineage path `e.key` is kept, but the model never reads it. In the source, the display line reads its last entry (index.js:15, 18), and on an empty path `revRoot` is `undefined` and `.substr` throws, ending the drain. The model collects such an element like any other.
- `process.exit` in `bail`: each bail is a `Fail` result.
- `lodash.merge`: only the fixed shapes of bin/find.js:81-88 are modelled. JSON leaf values are strings, and a non-object `value` or `content` in the input file is not modelled.
- `findMatching` called as a library with an arbitrary `kv`: the target is the fixed-shape `SearchKv` that bin/find.js builds. Numbers, nested objects and `undefined` fields in the target are not modelled.
- JavaScript exceptions that are not caught (reading `.type` of a missing `content`, reading `.key` of a missing match) are modelled as the errors `ContentMissing` and `MatchMissing`. The stack trace Node prints for them is not modelled.
- The interactive selector: no code for it exists in these sources.
