# composer-cli `blueprints freeze` and `compose info`, modelled in Dafny

This project models the two pieces of the composer command-line client that
carry real logic:

* the **blueprint freeze family** — `blueprints freeze` prints the depsolved
  module and package versions of each requested blueprint, `blueprints freeze
  show` prints the frozen blueprints as TOML, and `blueprints freeze save`
  writes each one to `NAME.frozen.toml` in the current directory. `freeze`
  and `freeze save` work through the server's reply one blueprint at a time,
  record a failing blueprint and carry on, and return an error if the server
  reported per-item errors or any blueprint failed locally; `freeze show`
  prints the TOML documents or fails as a whole. In all three a transport
  error aborts before any blueprint is looked at;
* **`compose info`** — one fixed-width summary line for a compose followed by
  its packages, modules and dependencies.

A command is a pure function from the client's reply to an `Outcome`: the
records printed on standard output and standard error (one per `Printf`/
`Println`), the files written (name to content, last write wins) and the
error returned (`None` for success). Everything the commands cannot see or
do not decide is a parameter: the client's reply, the TOML projection of a
blueprint (`project`, which may fail with an encoding or a decoding error),
and the outcome of opening and encoding a file (`Disk`).

Modules, leaves first:

| file | module | what |
|---|---|---|
| wrappers.dfy | `Wrappers` | `Option`, `Result` |
| text.dfy | `Text` | `%-Ns` padding, `strings.ReplaceAll`, `%d`, splitting into words, format columns |
| console.dfy | `Console` | the byte stream a sequence of prints makes, split back into lines |
| filepath.dfy | `FilePath` | `filepath.Base` with its Unix meaning |
| api.dfy | `Api` | the reply shapes: blueprints, parts, errors, compose records |
| batch.dfy | `Batch` | the per-item fold shared by the batch commands |
| freeze.dfy | `Freeze` | `freeze`, `freeze show`, `freeze save` |
| compose.dfy | `Compose` | `compose info` |
| scenarios.dfy | `Scenarios` | the repository's test scenarios as lemmas |

Behaviours of the code that are easy to misread; the model follows the code:

* The saved file name is `Base(ReplaceAll(name, " ", "-") + ".frozen.toml")`:
  the suffix is appended *before* the directory part is dropped. So the name
  always ends in `.frozen.toml`, and the guard that refuses `/`, `.` and `..`
  can never fire (`Freeze.SaveFilename`, `Freeze.SaveItemNeverRefuses`).
  The guard is still modelled, as written.
* The fields `freeze` prints are selected by encoding the blueprint as TOML and
  decoding the result, not by a direct field selection; either step can fail
  for one blueprint. The model keeps that step abstract (`project`).
* `freeze` and `freeze show` report a transport error as `Save Error: ...`,
  the message of `freeze save`; the model reproduces the text.
* In text mode `freeze show` fails when the client returns a response *or* an
  error; with a response and no error the message formats a nil error, which
  Go prints as `%!s(<nil>)`.
* The open-failure message of `freeze save` names a fixed `file.toml` rather
  than the derived file name; the model reproduces the text.

## Model

| member | source | states |
|---|---|---|
| Text.PadRight | cmd/composer-cli/compose/info.go:42-48 | a `%-Ns` field is `max(len, N)` long, begins with the text and is filled with blanks: padding never truncates |
| Text.ReplaceAll | cmd/composer-cli/blueprints/freeze.go:151 | every blank becomes a dash, every other character stays where it was |
| Text.ReplaceAllRemoves | cmd/composer-cli/blueprints/freeze.go:149-151 | after replacing blanks no blank remains, and no other character appears or disappears |
| Text.Decimal | cmd/composer-cli/compose/info.go:40 | the `%d` numeral is a non-empty digit string that begins with `0` only for zero |
| Text.ParseDecimalOfDecimal | cmd/composer-cli/compose/info.go:39-41 | the `%d` numeral of the image size reads back as the size |
| Text.ColumnAt | cmd/composer-cli/compose/info.go:42-48 | in a line of blank-separated verbs, verb i's padded field sits at its column start, followed by one blank unless last |
| Text.WordsOfColumns | cmd/composer-cli/compose/info.go:42-48 | reading such a line word by word gives back the non-empty field texts when none holds a blank |
| Console.Render | cmd/composer-cli/compose/info.go:42-63 | the stream of printed records is empty iff nothing was printed, and otherwise ends in a newline |
| Console.SplitLinesOfRender | cmd/composer-cli/compose/info.go:42-63 | when no printed record holds a newline, the output stream splits into exactly those records, one line each |
| FilePath.Base | cmd/composer-cli/blueprints/freeze.go:152 | `filepath.Base`: empty gives ".", all separators give "/", otherwise the result is non-empty and separator-free |
| FilePath.BaseIsLastElement | cmd/composer-cli/blueprints/freeze.go:152 | outside the degenerate cases the result is the text after the last separator, trailing separators ignored |
| FilePath.BaseOfPlainName | cmd/composer-cli/blueprints/freeze.go:152 | a path without separators is its own base |
| FilePath.BaseKeepsSuffix | cmd/composer-cli/blueprints/freeze.go:151-152 | a separator-free suffix of the path is a suffix of its base |
| FilePath.BaseCharsFromPath | cmd/composer-cli/blueprints/freeze.go:152 | every character of the base occurs in the path |
| FilePath.BaseOfJoin | cmd/composer-cli/blueprints/freeze.go:149-152 | any directory part in front of a plain name is dropped |
| Batch.ErrorLines | cmd/composer-cli/blueprints/freeze_test.go:69-71 | the server's per-item errors appear on standard error as one `id: msg` record each, in order |
| Batch.Start | cmd/composer-cli/blueprints/freeze.go:70-72 | before any item is processed nothing is on stdout or written, stderr holds exactly the server's errors, and the result is already an error iff there are any |
| Batch.Apply | cmd/composer-cli/blueprints/freeze.go:74-100 | one pass of the loop keeps the earlier output and appends the item's; a failure is sticky and sets only `ExecutionError("")`; only the item's file changes, to what it wrote |
| Batch.Run | cmd/composer-cli/blueprints/freeze.go:74-104 | every item's records appear in item order whatever the others did; the result is an error iff it was or some item failed; only written files change |
| Batch.LastWriteWins | cmd/composer-cli/blueprints/freeze.go:158-169 | a file holds what the last item writing that name wrote (create-or-truncate) |
| Batch.RunAppend | cmd/composer-cli/blueprints/freeze.go:141-173 | processing two runs of items equals processing the first, then the second from where it left off |
| Freeze.Header | cmd/composer-cli/blueprints/freeze.go:90-94 | the header starts `blueprint: NAME` and continues with ` vVERSION` exactly when the version is non-empty |
| Api.Entry | cmd/composer-cli/blueprints/freeze.go:95-100 | a module or package record is four blanks, the name, a dash and the version, in that order |
| Freeze.FrozenLines | cmd/composer-cli/blueprints/freeze.go:90-100 | header, then one `    name-version` record per module, then one per package, in input order |
| Freeze.FreezeItem | cmd/composer-cli/blueprints/freeze.go:74-100 | a blueprint succeeds iff its parts can be extracted; a failure prints one error record naming the failing step and nothing on stdout |
| Freeze.Freeze | cmd/composer-cli/blueprints/freeze.go:64-105 | a transport error aborts with nothing printed; otherwise all projectable blueprints print in order and the result is an error iff the server reported errors or a blueprint failed, and then it is the plain command error |
| Freeze.FreezeEffectsFacts | cmd/composer-cli/blueprints/freeze.go:74-100 | across a batch, each blueprint prints its projection's records, all items succeed iff every projection succeeds, and then nothing reaches stderr |
| Freeze.FreezePrintsEachSuccess | cmd/composer-cli/blueprints/freeze.go:74-101 | a projectable blueprint's records appear right after those of the blueprints before it; failed ones contribute nothing |
| Freeze.FreezeShow | cmd/composer-cli/blueprints/freeze.go:107-129 | JSON mode fails iff transport error or server errors; text mode fails iff response or error, reporting `Show Error: ` and the client's error, or Go's nil marker when there is only a response; else it prints each TOML document verbatim, in order |
| Freeze.NameOf | cmd/composer-cli/blueprints/freeze.go:142 | a name is found exactly when the `name` field is present and a string |
| Freeze.SaveFilename | cmd/composer-cli/blueprints/freeze.go:149-157 | for every name the file name has no separator and no blank, ends with `.frozen.toml`, and is never "/", "." or ".." |
| Freeze.SaveFilenameOfPlainName | cmd/composer-cli/blueprints/freeze.go:149-152 | a name without separators gives `ReplaceAll(name, " ", "-") + ".frozen.toml"` |
| Freeze.SaveItem | cmd/composer-cli/blueprints/freeze.go:141-170 | a blueprint is written iff it has a name and its file opens; it is saved in full iff encoding also succeeds; failures print one error record |
| Freeze.SaveItemNeverRefuses | cmd/composer-cli/blueprints/freeze.go:151-157 | the refusal branch is dead: an item's success and its write depend only on naming, opening and encoding |
| Freeze.SaveEffectsFacts | cmd/composer-cli/blueprints/freeze.go:141-170 | across a batch, all items succeed iff all are saved, and the written names are the opened files, all safe |
| Freeze.FreezeSave | cmd/composer-cli/blueprints/freeze.go:131-174 | transport error writes nothing; otherwise nothing on stdout, one file per named blueprint whose file opens, all safe, and error iff server errors or an unsaved blueprint, then the plain command error |
| Freeze.FreezeSaveLastWins | cmd/composer-cli/blueprints/freeze.go:158-169 | a saved blueprint whose file no later blueprint opens is what that file holds |
| Compose.ImageSizeField | cmd/composer-cli/compose/info.go:38-41 | the size field is empty iff the size is not positive, otherwise a digit string without a leading zero that reads back as the size |
| Compose.Summary | cmd/composer-cli/compose/info.go:42-48 | the summary line is the six verbs `%s %-8s %-15s %s %-16s %s` joined by single blanks, and is at least as long as its fixed widths require |
| Compose.SummaryAligned | cmd/composer-cli/compose/info.go:42-48 | when status, name and type fit their widths, every field starts at a fixed offset after the ID and the line length is fixed |
| Compose.SummaryWords | cmd/composer-cli/compose/info.go:42-48 | when ID, status, name, version and type are each one word, reading the summary word by word recovers them and, only when positive, the size |
| Compose.InfoLines | cmd/composer-cli/compose/info.go:50-63 | summary, `Packages:` and a record per package, `Modules:` and a record per module, `Dependencies:` and a record per dependency |
| Compose.Info | cmd/composer-cli/compose/info.go:29-66 | a client error or an error response ends the command with nothing on stdout; otherwise the compose is printed and the command succeeds |
| Compose.InfoLineCount | cmd/composer-cli/compose/info.go:42-63 | with no newline in any field, stdout has exactly 4 + packages + modules + dependencies lines |
| Scenarios.FreezeWithUnknownBlueprint | cmd/composer-cli/blueprints/freeze_test.go:20-74 | one found and one unknown blueprint: the found one's header and package print, the server error goes to stderr, the command fails with the plain command error |
| Scenarios.TestPartsLines | cmd/composer-cli/blueprints/freeze_test.go:67-68 | the test blueprint prints `blueprint: cli-test-bp-1 v0.0.3` and `    tmux-3.1c-2.fc34.x86_64` |
| Scenarios.FreezeSaveOneBlueprint | cmd/composer-cli/blueprints/freeze_test.go:133-192 | saving one plainly named blueprint writes only `NAME.frozen.toml` holding it, prints nothing and succeeds |
| Scenarios.SaveOneEffect | cmd/composer-cli/blueprints/freeze.go:141-169 | on a disk where nothing fails, a plainly named blueprint prints nothing, succeeds and is saved whole under `NAME.frozen.toml` |
| Scenarios.SaveFilenameDropsDirectories | cmd/composer-cli/blueprints/freeze.go:149-152 | a name with directory parts is saved under its last element only |
| Scenarios.FreezeShowToml | cmd/composer-cli/blueprints/freeze_test.go:256-295 | text-mode `freeze show` with a clean reply prints the documents verbatim and succeeds |

## Left out

- The HTTP client and the reply decoding: each command takes the client's reply as an input.
- Argument handling (`root.GetCommaArgs`) and command registration: the commands start from the reply to the already split names.
- `root.ExecutionError` and `root.ExecutionErrors` are not part of this model: their result is modelled as `ExecutionError(msg)`; in text mode `ExecutionErrors` is taken to print `id: msg` per error on standard error and to return the same value as `ExecutionError(cmd, "")`, as the freeze tests show.
- JSON output mode of `freeze` and `freeze save`: the JSON document is printed inside the client. Only `freeze show`'s own JSON branch is modelled, as failure or success, with no standard output.
- Freeze.FreezeShow: in JSON mode the source tests the error list against nil; the model treats a nil and an empty list alike, as the JSON-mode show test (an empty list, success) requires.
- The TOML encode-then-decode that selects a blueprint's parts: modelled as the opaque `project` function, which may fail with an encoding or a decoding error.
- TOML itself, so the content written by `freeze save` is modelled as the blueprint it encodes (`Saved`), or `Incomplete` when encoding failed after the file was created.
- Real file I/O, the 0600 permission and the deferred close: opening and encoding outcomes are the `Disk` parameters.
- A blueprint that is not a JSON object makes the source's type assertion panic; the model's blueprints are always objects.
- The dependencies of a compose are modelled as the text `%s` prints for each one.
- Freeze.Freeze: standard error is stated as the server's errors first, then one record per failed blueprint (text in `FreezeItem`); the full sequence is stated only when no blueprint fails.
- Freeze.FreezeSave: standard error is stated as the server's errors first; the per-blueprint records are stated by `SaveItem`.
- `modules info`, `compose metadata` and `compose logs`: they print through code that is not part of this model or only print a name the client returns.
- JSON output mode of `compose info`: the client prints the document; `Compose.Info` models text mode only, where `ExecutionErrors` prints the server's errors and fails.
- Go strings are byte strings; the model uses one character per rune, which is also the unit `fmt` pads by.
