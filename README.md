# Vibe-coding tool: file-block extractor, project snapshot and chat session

This Dafny project models the core of a terminal chat client that asks a hosted language
model to write a small website. The client streams the model's reply and finds the
`<<<FILE: path>>>\n…<<<END_FILE>>>` blocks in it. It writes each block under a per-session
project directory and keeps a snapshot of what it wrote. The next system prompt carries
that snapshot.

Modules, leaves first:

- `Wrappers`: `Option` and `Result`.
- `Text`: the JavaScript string built-ins the program uses. These are `trim`, `trimEnd`,
  `indexOf`, `split` on one character and `join`; `Text.TrimStart` is a helper that `Trim`
  is built from. Whitespace is ECMAScript's `\s` set.
- `Disk`: the disk as a map from path to content plus a set of directories. It models
  recursive `mkdirSync` and `writeFileSync` with the errors they throw, and `path.join` and
  `path.dirname` on `/`-separated paths.
- `Timestamps`: `new Date().toISOString()` for a given clock reading, and the
  `project-YYYYMMDDHHMMSS` directory name derived from it.
- `FileBlocks`: the global regular expression `FILE_PATTERN` as a hand-written scanner. It
  is proved equal to the declarative reading of the pattern, including its greedy and lazy
  choices.
- `FileManager`: the path sanitiser and the insertion-ordered snapshot (`this.files`).
  `parseAndWrite` is a `while` loop over the matches and is proved against a function
  `Run` of the starting state. `ensureDir`, `getContext` and `listFiles` are modelled too,
  in a `FileManager` class whose fields the methods update.
- `PromptText`, `Prompts`: `buildSystemPrompt` as a pure template over an optional context.
- `Chat`: `loadEnv` as a loop over the lines of `.env` that assigns into an `Environment`
  object. Also the API-key check, and `ChatSession` with `chat` and `reset`.

The model takes these as parameters:

- the text of `.env` (`None` when the file is missing);
- the process environment;
- the working directory;
- the clock reading;
- the model API, as a function from the request to the chunks it streams and whether it
  failed;
- the disk, as a `FileSystem` object that all managers of one process share.

Where the code does less than its comments promise (`// Each session gets a unique
timestamped folder`, src/fileManager.js:14; `// Security: prevent path traversal attacks`,
src/fileManager.js:41) or less than a reader would assume, the model follows the code:

- The traversal filter is one left-to-right pass. It does not keep paths inside the project
  directory: `....//x` becomes `../x` (`FileManager.SanitiseNotIdempotent`).
- A path that sanitises to the empty string is written like any other. Its target is the
  project directory itself, so `writeFileSync` throws (`FileManager.EmptyPathThrows`). It is
  one of the paths that name the project directory or a directory above it; `.`, `..` and
  `a/..` are the others, and the model does not treat those alike (see "Left out").
- The first write error ends the loop and propagates: the blocks after it are not written
  (`FileManager.Run`), and the writes before it stay on disk and in the snapshot.
- `loadEnv` sets a variable that is missing or holds the empty string
  (`Chat.FirstSettingWins`); a non-empty one is never overwritten
  (`Chat.ApplySettingsKeepsSet`).
- The folder name has a resolution of one second, so two managers created in the same
  second, such as one made by a quick `reset`, share one folder
  (`Timestamps.SameDirIffSameSecond`).
- The snapshot keeps the raw content of each block, while the disk gets the content with
  trailing whitespace trimmed and one `\n` added (`FileManager.RunConsistent`, for paths
  that `path.join` keeps apart; see "Left out").
- A block named `__proto__` is written to disk but never enters the snapshot: the key is
  served by the `__proto__` setter inherited from `Object.prototype`, which ignores a string
  value, so no entry is made (`FileManager.ProtoKeyNotRecorded`).
- A path ending in `/` makes `writeFileSync` throw, after `mkdirSync` has made its parent
  directory (`FileManager.TrailingSlashThrows`).

## Model

| member | source | states |
|---|---|---|
| `FileBlocks.FindEndSpec` | src/fileManager.js:10 | The lazy content group ends at the first end marker from the content start; nothing is found only when no end marker follows |
| `FileBlocks.SpaceEndSpec` | src/fileManager.js:10 | Greedy `\s*` takes the whole whitespace run and stops at the first other character |
| `FileBlocks.PathEndSpec` | src/fileManager.js:10 | Greedy `[^\n>]+` takes the whole run of characters other than newline and `>` |
| `FileBlocks.MatchAtSound` | src/fileManager.js:9-10 | A match the scanner reports at a position is a match of the pattern: opener, whitespace, non-empty path without newline or `>`, `>>>` and a newline, content, end marker |
| `FileBlocks.MatchAtComplete` | src/fileManager.js:9-10 | Wherever the pattern can match, the scanner finds a match with the same path end, the latest path start (greedy `\s*`) and the earliest end marker (lazy content) |
| `FileBlocks.NextMatchFound` | src/fileManager.js:38 | The match `exec` returns from `lastIndex` is the scanner's match at the position where it starts |
| `FileBlocks.NextMatchFirst` | src/fileManager.js:38 | No match starts between `lastIndex` and the match `exec` returns; when `exec` returns nothing, no match starts after `lastIndex` |
| `FileBlocks.ScanAt` | src/fileManager.js:36-38 | A match yields its block, and scanning resumes just past its end marker |
| `FileBlocks.NoEndMarkerNoBlocks` | src/fileManager.js:9-10 | A reply without an end marker yields no block, whatever openers it holds |
| `FileBlocks.ScanWellShaped` | src/fileManager.js:9-10 | Every extracted path is non-empty and has no newline or `>`, and no content holds an end marker |
| `FileBlocks.ScanCount` | src/fileManager.js:36-38 | Each block costs at least 27 characters, so a text of length n yields at most n/27 blocks |
| `FileBlocks.ScanDocument` | src/fileManager.js:34-38 | Scanning N rendered blocks separated by text without openers yields exactly those N blocks, in document order, duplicates kept |
| `FileBlocks.BlocksOfDocument` | src/fileManager.js:34-38 | Extraction inverts rendering for N well-formed blocks separated by opener-free text |
| `FileBlocks.SingleBlock` | src/fileManager.js:9-10 | One rendered block by itself is read back unchanged |
| `FileBlocks.IndexHtmlExample` | src/fileManager.js:9-10 | `<<<FILE: index.html>>>\n<h1>Hi</h1>\n<<<END_FILE>>>` yields the block `index.html` with content `<h1>Hi</h1>\n` |
| `FileBlocks.InnerOpenerSwallowed` | src/fileManager.js:10 | An opener inside a block's content does not start a block; the content runs to the first end marker |
| `FileManager.RemoveTraversalsIdentity` | src/fileManager.js:43 | The removal pass changes a path exactly when it contains `../` or `..\` |
| `FileManager.SanitiseIdentity` | src/fileManager.js:42-44 | A path is left unchanged exactly when it has no surrounding whitespace, no `../` or `..\`, and no leading `/` |
| `FileManager.SanitiseDropsClimbs` | src/fileManager.js:42-44 | Leading `../` and `../../` are removed, so `../../etc/passwd` becomes `etc/passwd` |
| `FileManager.SanitiseNotIdempotent` | src/fileManager.js:43 | `....//p` becomes `../p`, which still climbs; sanitising again gives `p`, so the sanitiser is not idempotent |
| `FileManager.SanitiseOneSlash` | src/fileManager.js:44 | A leading `/` is removed |
| `FileManager.SanitiseTwoSlashes` | src/fileManager.js:44 | Only one leading `/` is removed: `//p` becomes `/p` |
| `FileManager.SanitiseKeepsBareDotDot` | src/fileManager.js:43 | A bare `..`, with no separator after it, is kept unchanged |
| `FileManager.SanitiseKeepsLastDotDot` | src/fileManager.js:42-44 | `..` as the last segment of a clean path is kept: `a/..` passes unchanged |
| `FileManager.PutValid` | src/fileManager.js:54 | Writing a key keeps one entry per name holding the new content; an existing key keeps its place in key order, a new one is appended, and no other entry changes; writing `__proto__` changes nothing |
| `FileManager.PutAllValid` | src/fileManager.js:54 | A sequence of writes keeps names distinct, and names already present keep their positions |
| `FileManager.PutAllKeys` | src/fileManager.js:54 | After a sequence of writes, the keys are the old keys plus the written paths other than `__proto__` |
| `FileManager.PutAllContents` | src/fileManager.js:54 | After a sequence of writes, each key holds the content of its last write, or its old content if no write touched it (always so for `__proto__`) |
| `FileManager.TruncateSpec` | src/fileManager.js:80-82 | A file of at most 4000 characters is kept whole; a longer one keeps its first 4000 characters followed by `\n...(truncated)` |
| `FileManager.TruncateIdentity` | src/fileManager.js:80-82 | Truncation changes a file exactly when it is longer than 4000 characters and does not already end in the note at that point; truncating twice is the same as once |
| `FileManager.ContextOfSpec` | src/fileManager.js:71-86 | The context is absent exactly when the snapshot is empty; otherwise it lists the names in key order, and its file contents contain every file's rendered entry |
| `FileManager.WriteStepSpec` | src/fileManager.js:46-53 | One write only adds directories; on success exactly the joined path changes, to the trimmed content plus `\n`; on error the files are untouched |
| `FileManager.SafeWritesSpec` | src/fileManager.js:39-44 | Each block is written under its sanitised path, with its raw content |
| `FileManager.RunLength` | src/fileManager.js:38-58 | The loop completes some of the writes, and all of them when nothing throws |
| `FileManager.RunWritten` | src/fileManager.js:55 | The list of written paths grows by the paths of the completed writes, in order |
| `FileManager.RunTable` | src/fileManager.js:54 | The snapshot takes the contents of the completed writes, in order |
| `FileManager.RunAll` | src/fileManager.js:38-58 | When nothing throws, the written list is every sanitised path and the snapshot holds every write |
| `FileManager.RunTouchesOnlyTargets` | src/fileManager.js:48-53 | The loop never removes a file or directory, and any file it changes is the project directory joined with a written path |
| `FileManager.RunConsistent` | src/fileManager.js:53-54 | With the model's join, the snapshot never holds `__proto__` and every entry is on disk under the project directory as its content with trailing whitespace trimmed and one `\n` added, whether or not the loop throws |
| `FileManager.RunCreated` | src/fileManager.js:21-30 | The directory is created before `created` is set; a set flag stays set; no writes change nothing; a successful run with writes, or any completed write, leaves `created` set |
| `FileManager.EmptyPathThrows` | src/fileManager.js:42-53 | A path that sanitises to nothing names the project directory, so the write throws and nothing of it is recorded |
| `FileManager.TrailingSlashThrows` | src/fileManager.js:48-53 | A path ending in `/` names no file, so the write throws and nothing of it is recorded |
| `FileManager.ProtoKeyNotRecorded` | src/fileManager.js:53-55 | A block named `__proto__` that is written is reported as written, but the snapshot stays as it was |
| `FileManager.NoEndMarkerWritesNothing` | src/fileManager.js:34-58 | A reply without an end marker writes nothing and leaves the snapshot, the disk and `created` as they were |
| `FileManager.WrittenOfDocument` | src/fileManager.js:34-58 | For a reply of N rendered blocks that throws nothing, the written list is their N sanitised paths, and the snapshot takes their contents |
| `FileManager.FileManager.constructor` | src/fileManager.js:13-22 | The directory is `cwd/projects/project-<stamp>`, the snapshot is empty and `created` is false |
| `FileManager.FileManager.EnsureDir` | src/fileManager.js:25-30 | `mkdir` runs only while `created` is false, and the flag is set once it succeeds |
| `FileManager.FileManager.WriteOne` | src/fileManager.js:46-53 | `ensureDir`, then `mkdir` of the parent, then the write of the trimmed content, stopping at the first error |
| `FileManager.FileManager.WriteMatch` | src/fileManager.js:39-55 | One loop pass: sanitise, write, and record in the snapshot only when nothing threw |
| `FileManager.FileManager.ParseAndWrite` | src/fileManager.js:33-59 | The new snapshot, flag and disk, and the returned paths or error, are those of `Run` over the sanitised blocks from the old state |
| `FileManager.FileManager.GetContext` | src/fileManager.js:71-87 | Nothing exactly when the snapshot is empty; otherwise the directory and the names in key order |
| `FileManager.FileManager.ListFiles` | src/fileManager.js:89 | The snapshot's names, each once; a name is listed exactly when it has an entry |
| `Disk.MkdirSpec` | src/fileManager.js:50 | Recursive `mkdirSync` fails exactly when a file stands at the directory or above it, and it never removes a directory |
| `Disk.WriteFileSpec` | src/fileManager.js:53 | The write fails exactly when the target is a directory or ends in `/`, and then changes nothing; a successful write changes only its own path |
| `Disk.JoinPathInjective` | src/fileManager.js:48 | Different relative paths joined onto one directory give different paths |
| `Disk.DirnameOfJoin` | src/fileManager.js:50 | The parent of a directory joined with a bare name other than `.` and `..` is that directory |
| `Disk.DirnameIgnoresTrailingSlash` | src/fileManager.js:50 | `path.dirname` ignores a trailing `/`: the parent of `d/a/` is `d`, as for `d/a`, for a bare name `a` other than `.` and `..` |
| `Disk.FileSystem.MakeDir` | src/fileManager.js:50 | The disk after `mkdirSync`, and the error it threw |
| `Disk.FileSystem.Write` | src/fileManager.js:53 | The disk after `writeFileSync`, and the error it threw |
| `Timestamps.StripIso` | src/fileManager.js:15-16 | Removing `-`, `:`, `.`, `T` and `Z` from the ISO string leaves its seventeen digits |
| `Timestamps.StampIsSeconds` | src/fileManager.js:15-16 | The stamp is fourteen digits, the date and time to the second (`YYYYMMDDHHMMSS`) |
| `Timestamps.SameDirIffSameSecond` | src/fileManager.js:15-19 | Two clock readings give the same directory name exactly when they agree to the second |
| `Text.TrimIdentity` | src/chat.js:17 | `trim` changes a string exactly when it starts or ends with whitespace |
| `Text.TrimEndIgnoresTrailingSpace` | src/fileManager.js:53 | `trimEnd` removes all appended trailing whitespace, so contents that differ only in it land on disk the same |
| `Text.IndexOf` | src/chat.js:19 | `indexOf` gives the first occurrence, and gives -1 (here `None`) exactly when the character is absent |
| `Text.JoinSplit` | src/chat.js:15 | Joining the lines with `\n` gives back the file text |
| `Text.SplitJoin` | src/chat.js:15 | Splitting a `\n`-join of newline-free lines gives back the lines |
| `Text.JoinHasPiece` | src/fileManager.js:85 | Every entry occurs in the joined file contents |
| `Chat.StripQuotesIdentity` | src/chat.js:23 | A value is unchanged exactly when it neither starts nor ends with a quote |
| `Chat.StripQuotesBoth` | src/chat.js:23 | Two quotes around a value are removed even when they differ, and the inner text is not trimmed again |
| `Chat.StripQuotesOnce` | src/chat.js:23 | At most one quote is removed at each end |
| `Chat.ParseEnvLineSpec` | src/chat.js:17-23 | A line is skipped exactly when it is blank, a comment or has no `=` after trimming; otherwise key and value are the trimmed sides of the first `=`, with the value unquoted |
| `Chat.ParseSetting` | src/chat.js:19-23 | `key=value` with a clean key and value is read back as that setting |
| `Chat.ApplySettingsAppend` | src/chat.js:16-25 | Lines are applied one after another |
| `Chat.ApplySettingsKeepsSet` | src/chat.js:24 | A variable with a non-empty value is never overwritten |
| `Chat.ApplySettingsSources` | src/chat.js:16-25 | Loading removes no variable, and every new or changed value comes from a line |
| `Chat.FirstSettingWins` | src/chat.js:24 | The first non-empty setting of a missing or empty variable wins over later lines for the same key |
| `Chat.Environment.LoadLine` | src/chat.js:17-24 | One loop pass applies that line's setting, if any, by the rule of `Assign` |
| `Chat.Environment.LoadEnv` | src/chat.js:10-26 | The environment is unchanged without `.env`; otherwise the file's lines are applied in order |
| `Chat.DotenvKey` | src/chat.js:17-33 | With `OPENAI_API_KEY` unset or empty, a `.env` line `OPENAI_API_KEY=v` (v plain) gives the key `v`, or no key when `v` is empty or `your_api_key_here` |
| `Chat.SampleDotenvHasNoKey` | src/chat.js:17-33 | The sample `.env` line `OPENAI_API_KEY=your_api_key_here` gives no key when the variable is not already set, so `NewChatSession` returns nothing |
| `Chat.KeyFromEnvironmentWins` | src/chat.js:24-32 | A usable key already in the environment is the one used, whatever `.env` says |
| `Chat.ReplyAppend` | src/chat.js:74-80 | The reply to two runs of chunks is the first reply followed by the second |
| `Chat.ReplySkipsEmpty` | src/chat.js:75-79 | A chunk with no text or empty text adds nothing to the reply |
| `Chat.CollectReply` | src/chat.js:74-80 | The `for await` loop builds the reply: the chunk texts in order, empty ones skipped |
| `Chat.ChatSession.constructor` | src/chat.js:42-47 | Empty history, the fixed model name and a fresh file manager |
| `Chat.ChatSession.RequestFor` | src/chat.js:54-71 | The request holds the model, 8192 tokens, streaming, the system prompt built from the current context, then the history with the new user turn |
| `Chat.ChatSession.Respond` | src/chat.js:73-86 | After the request: on API failure nothing changes; otherwise history gains the assistant turn with the reply, and the files are those of the write loop over it |
| `Chat.ChatSession.Chat` | src/chat.js:49-86 | On API failure, history gains only the user turn and nothing else changes. Otherwise history gains the user turn, then the assistant turn with the concatenated chunk texts, and the files are those of the write loop over the reply |
| `Chat.ChatSession.Reset` | src/chat.js:104-107 | History becomes empty, and a fresh manager replaces the old one with an empty snapshot, `created` false and no context; files on disk stay |
| `Chat.NewChatSession` | src/chat.js:29-47 | `.env` is loaded first; there is no session exactly when the key is unusable; otherwise the session has that key and fresh state |
| `Prompts.PromptStartsWithPreamble` | src/prompts.js:20-28 | Every prompt starts with the same fixed preamble, whatever the context |
| `Prompts.PreambleShowsMarkers` | src/prompts.js:24-28 | The preamble shows the marker lines `<<<FILE: filename.html>>>` and `<<<END_FILE>>>` |
| `Prompts.PromptWithoutContext` | src/prompts.js:8-18 | Without a context the prompt ends with `No files created yet. This is a brand new project.` |
| `Prompts.PromptListsFiles` | src/prompts.js:11 | With a context the prompt contains `Files already created: ` followed by the names joined with `, ` |
| `Prompts.PromptEndsWithContents` | src/prompts.js:13-17 | With a context the prompt ends with the file contents verbatim, followed by the instruction to send complete files and never diffs |
| `Prompts.PromptDistinguishesContext` | src/prompts.js:8-18 | The prompt with a context differs from the prompt without one |
| `Prompts.PromptIgnoresDirectory` | src/prompts.js:5-62 | The prompt depends only on the names and contents, not on the project directory |

## Left out

- Terminal shell (`app.js`) and colours/banners (`src/ui.js`): terminal I/O driven by input events.
- The OpenAI client and `for await` streaming. A function parameter stands in for them and returns the chunks and a failure flag. A stream that fails partway counts as failed; the chunks printed before the failure are not modelled.
- Error kinds of the API call (authentication, rate limit, network): they collapse into `ApiFailed`, because only the terminal shell tells them apart.
- `process.stdout.write` and `console.*` output, including the "Files saved" report.
- `process.exit(1)`: modelled as `NewChatSession` returning `None`.
- `openBrowser`, `openProject`: OS shell calls through `child_process.exec`. `chat`'s automatic `openBrowser("index.html")` after a write is left out for the same reason.
- `ChatSession.listFiles` (it drops the file manager's result) and the field `client`: not modelled. `getDir` is the function `Chat.ChatSession.GetDir` and has no contract.
- Real file system: only map semantics are modelled. The errors modelled are a file standing where a directory is needed and a write to a directory. Permission, space and encoding errors are not.
- `Disk.JoinPath`: does not normalise `.`, `..` or repeated `/` as Node's `path.join` does. The sanitiser keeps `.`, a bare `..` and `a/..`, so this changes what the write loop does. In Node a block path that normalises to the project directory or above (`.`, `..`, `a/..`) makes `writeFileSync` throw EISDIR and ends the loop with nothing of it recorded; the model instead writes a file named `dir/..` (or `dir/.`, `dir/a/..`), records it and carries on. Likewise `a/b/..` lands on the file `a` in Node but on `dir/a/b/..` in the model. No containment property is claimed.
- Disk.DirnameOfJoin, Disk.DirnameIgnoresTrailingSlash: stated only for a name other than `.` and `..`, because the model's join keeps those segments while Node's `path.join` resolves them, so the parent is not `d` in Node.
- FileManager.RunConsistent: holds for the model's join, where different names give different files (`Disk.JoinPathInjective`). Node's `path.join` normalises, so `a.html` and `./a.html`, or `a//b.html` and `a/b.html`, name one file under two snapshot keys; a later write through one key then leaves the other key's snapshot content stale, which the model does not show.
- Chat.ChatSession.Chat: modelled as one uninterrupted step. In the source it awaits the stream, so a second message or `/reset` typed meanwhile can run beside it; calls are assumed not to overlap.
- `Chat.Environment`: variable names are compared case-sensitively, as on POSIX systems. On Windows, which the source also targets (`start ""`, src/fileManager.js:66-67), `process.env` ignores case, so a `.env` line `openai_api_key=…` would count as setting `OPENAI_API_KEY` for the check at src/chat.js:24; the model does not capture that.
- Strings are sequences of characters, not UTF-16 code units, so the 4000-character cut counts characters.
- `Object.keys` lists integer-like keys first in JavaScript; the snapshot is purely insertion-ordered.
- `Timestamps.ProjectDirName`: only clock readings with years 0–9999, because `toISOString`'s six-digit extended years do not arise from a real clock.
- `Chat.ChunkText`: `content || ""` is modelled for a string or a missing value; other falsy or non-string values of `delta.content` are not.
