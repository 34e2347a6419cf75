# cli-highlight command line: a verified model

`highlight [options] [file]` prints a file, or what arrives on standard input, with
ANSI syntax colouring. The colouring itself belongs to the highlighter library. The
command line owns three small pieces of logic, and this project models each of them
in Dafny:

- **The standard-input segmenter** (`segmenter.dfy`, module `Segmenter`). One string
  buffer, `code`, collects the chunks that `readable` events read. After each
  `readable` event, if the `--terminator` string is non-empty (truthy) and the whole
  buffer ends with it, the buffer is handed to `printCode` as one record (terminator
  included) and emptied. The `end` event appends any last chunk and hands over the
  buffer as the final record, even when that record is empty. The exit code is then 0.
  The pure functions `Readable`, `Run`, `Finish` and `Records` give the meaning of an
  event history. The class `StdinSegmenter` holds the mutable buffer. Its handlers
  `OnReadable` and `OnEnd` are proved to keep the buffer and records equal to those
  functions of the history. The lemmas state the properties: no text lost or
  duplicated, the buffer never left ending with the terminator, every early record
  terminated, a null read invisible, an empty terminator giving exactly one record,
  and records that depend on where the chunks were cut.
- **Option resolution** (`cli.dfy`, module `Cli`). `ignoreIllegals` is always true.
  The theme is the parsed theme text, when that text is truthy. The language is always
  `argv.language`: the language found from the file extension is computed and then
  overwritten (see Findings).
- **Mode dispatch** (`cli.dfy`). Stdin is read when no truthy file path is given and
  stdin is not a terminal. The file is read when a truthy path is given (exit 0).
  Otherwise help is shown (exit 1).

`text.dfy` (module `Text`) holds the string helpers: `endsWith`, substring occurrence,
JavaScript truthiness and concatenation of records. `wrappers.dfy` holds `Option`,
which stands for `null`/`undefined`.

The model follows the code, also where it differs from the command's described behaviour:

- Input `foo\0` with terminator `\0` gives two records, `foo\0` and then the empty
  final record. It does not give one. `TerminatedInputEndsWithEmptyRecord` proves this
  for any text ending with the terminator that arrives as one chunk.
- Splitting the same input into different chunks can change the records.
  `ChunkingChangesRecords` shows this (for example `a\0b` whole, against `a\0` and `b`).
- Input `foo` with no terminator gives the one record `foo`. `NoTerminatorOneRecord`
  proves this for any input in which the terminator does not occur.
- "`a + terminator` then `b` gives two records" holds only when `a + terminator`
  completes at a chunk boundary. `TwoRecords` proves it when `a + terminator` arrives
  as one chunk.
- A language inferred from the file extension is never used.

## Model

| member | source | states |
|---|---|---|
| Segmenter.ReadableLeavesNoTerminator | src/cli.ts:69-75 | with a non-empty terminator, after any readable event the buffer does not end with the terminator |
| Segmenter.OnlyTailSplits | src/cli.ts:71 | a chunk that contains the terminator but leaves the buffer not ending with it prints nothing and keeps all text in the buffer |
| Segmenter.NullReadUnchanged | src/cli.ts:65-68 | a null read from a buffer not ending with the terminator leaves buffer and records unchanged |
| Segmenter.RunAppend | src/cli.ts:64-76 | processing two event lists in turn equals processing their concatenation |
| Segmenter.RunKeepsText | src/cli.ts:65-73 | after any readable events, the records followed by the buffer are the earlier records and buffer followed by all non-null chunks |
| Segmenter.RunRecordsTerminated | src/cli.ts:71-73 | readable events only append records, in order, and every record they append ends with the non-empty terminator |
| Segmenter.RunLeavesNoTerminator | src/cli.ts:69-75 | with a non-empty terminator, the buffer never ends with it after any sequence of readable events |
| Segmenter.RunEmptyTerminator | src/cli.ts:69 | with an empty terminator readable events never print; all input stays in the buffer |
| Segmenter.RunNoOccurrence | src/cli.ts:71 | when the terminator occurs nowhere in buffer plus input, nothing is printed and all input stays in the buffer |
| Segmenter.NullReadInvisible | src/cli.ts:65-68 | a null read anywhere in an event history changes nothing |
| Segmenter.RecordsKeepText | src/cli.ts:63-88 | the records of a whole stream, concatenated, are exactly all the text received, readable chunks then the last chunk |
| Segmenter.RecordsShape | src/cli.ts:71-88 | a stream gives at least one record; every record but the final one ends with the non-empty terminator; the final one is the leftover buffer plus the last chunk |
| Segmenter.EmptyTerminatorOneRecord | src/cli.ts:69-88 | with an empty terminator the whole input is exactly one record, printed at end of stream |
| Segmenter.NoTerminatorOneRecord | src/cli.ts:63-88 | input in which the terminator never occurs is exactly one record |
| Segmenter.TwoRecords | src/cli.ts:63-88 | `a + terminator` as one chunk, then terminator-free text `b` in any chunks, gives exactly the records `a + terminator` and `b` |
| Segmenter.TerminatedInputEndsWithEmptyRecord | src/cli.ts:63-90 | one chunk ending with the terminator (`foo\0` with `\0`), then end of stream, gives that record and then the empty string |
| Segmenter.ChunkingChangesRecords | src/cli.ts:71 | the same text `a + terminator + b` gives one record as one chunk and the two records `a + terminator`, `b` as two chunks |
| Segmenter.ReadableStep | src/cli.ts:64-76 | after any history plus one readable event: the state is one more step, the buffer does not end with the non-empty terminator, every record ends with it, and records plus buffer are all input |
| Segmenter.StdinSegmenter.constructor | src/cli.ts:63 | the buffer starts empty with no records printed and the given terminator |
| Segmenter.StdinSegmenter.OnReadable | src/cli.ts:64-76 | appends the chunk; prints and empties the buffer exactly when the non-empty terminator ends it; afterwards the buffer does not end with the terminator, every record so far ends with it, and records plus buffer equal all input |
| Segmenter.StdinSegmenter.OnEnd | src/cli.ts:79-90 | appends the last chunk, prints the buffer as exactly one more record (possibly empty), returns the stream path's exit code `Cli.ExitCode(StreamMode)`, which is 0; all records together equal all input |
| Cli.Extension | src/cli.ts:49 | the extension is what `extname` returns with its first character (the dot) removed, or empty |
| Cli.ExtensionLanguage | src/cli.ts:48-53 | the extension is a candidate language exactly when the path is truthy and the extension is non-empty and supported |
| Cli.ResolveTheme | src/cli.ts:43-47 | a theme is set exactly when the theme text is truthy, and it is that text parsed |
| Cli.ResolveOptions | src/cli.ts:44-54 | `ignoreIllegals` is true, the theme is the resolved theme, and the language is always `argv.language`, whatever the extension |
| Cli.ResolveOptionsIntended | src/cli.ts:48-54 | corrected form: an explicit language wins; without one, the supported extension's language is used |
| Cli.ExtensionLanguageDiscarded | src/cli.ts:48-54 | the program and its corrected form differ exactly when no language is given and the extension names a supported language |
| Cli.PythonFileLosesLanguage | src/cli.ts:48-54 | `example.py` with `py` supported and no language option: the program passes no language, the corrected form passes `py` |
| Cli.Dispatch | src/cli.ts:60-103 | stream mode exactly when there is no truthy path and stdin is not a terminal; file mode exactly when a truthy path is given, for that path; help exactly when no truthy path and stdin is a terminal |
| Cli.ExitCode | src/cli.ts:87-103 | exit code 1 exactly for help, 0 for file mode and after the end of the stream |
| Cli.FileWins | src/cli.ts:96-98 | a non-empty path always selects file mode, whatever stdin is, with exit code 0 |
| Cli.InteractiveWithoutFileShowsHelp | src/cli.ts:100-103 | no truthy path and a terminal on stdin give help with exit code 1 |

## Left out

- Argument parsing with yargs (src/cli.ts:8-41): `argv` is an input. yargs turning numeric-looking values into numbers is not modelled; the terminator, language and file path are strings. An absent terminator is modelled as `""`, since both are falsy.
- Reading the theme and input files (`fs.readFileSync`, src/cli.ts:43, 97): their text is an input. A missing file, which crashes the program, is not modelled.
- The theme parser (src/cli.ts:46) is a parameter `parse` that always returns a theme. A malformed theme, which crashes the program, is not modelled. A parsed theme object is always truthy.
- `highlight`, `supportsLanguage` and `path.extname` are external code. `supportsLanguage` and `extname` are function parameters. `highlight` is not modelled: a record is what is handed to `printCode`.
- `process.stdout.write`, its error callback, `console.error`, and `process.exit` beyond the exit code are output side effects and are not modelled.
- The event loop and the promise (src/cli.ts:64, 78-94) are asynchronous scheduling. Events are sequential method calls. The stream guarantees that no event comes after `end` and that `end` comes once. `OnReadable` and `OnEnd` therefore require that `end` has not fired. The `.catch` branch (src/cli.ts:91-94) runs when `printCode` throws during the final write, that is when the external `highlight` fails, and exits with 1. `highlight` is assumed to return, so `Cli.ExitCode` and `OnEnd` give 0 for the stream path. A throw from `printCode` inside a `readable` handler (an uncaught exception) is not modelled either.
- UTF-8 decoding (src/cli.ts:61): chunks are already-decoded strings. `isTTY` is a boolean input to `Dispatch`.
- Segmenter.StdinSegmenter.OnEnd: the buffer is left holding the final record, as in the source. No later event is modelled because the process exits.

## Findings

| source | as written | input that shows it | evidently intended | confidence | as-written member | corrected member |
|---|---|---|---|---|---|---|
| src/cli.ts:54 | `options.language = argv.language` runs unconditionally, so the language inferred from the file extension on lines 48-53 is always overwritten, with `undefined` when `--language` is absent | `highlight example.py` with `supportsLanguage("py")` true and no `--language`: the language passed on is absent, not `py` | keep the extension's language unless `--language` is given, as the option's help text ("If omitted will try to auto-detect") and the code on lines 48-53 suggest | medium, not executed (the highlighter may still guess the language from the text) | Cli.ResolveOptions, shown by Cli.PythonFileLosesLanguage | Cli.ResolveOptionsIntended, related by Cli.ExtensionLanguageDiscarded |
