# formatter: a Dafny model of the record model and row projection

The formatter reads tab-separated dump rows whose column 4 holds a JSON
payload describing an author or a work, and writes one of two projections:

- `format`: one row per record, `[key, revision, last_modified, name, personal_name]`
  for an author and `[key, revision, last_modified, title, subtitle]` for a
  work, with the two text columns stripped of newlines and backslashes;
- `assign`: one `[key, author_key]` row per author reference of a work.

A payload that does not decode skips its row; the run goes on with the next.

This project models that core as pure functions over immutable data:

| file | module | models |
|---|---|---|
| `wrappers.dfy` | `Wrappers` | Rust's `Option` and `Result` |
| `json.dfy` | `Json` | a parsed JSON value: null, boolean, integer, fraction, string, array, object |
| `records.dfy` | `Records` | `Record`, the untagged `Entity` union, `AuthorReference`, `AuthorKey`, `u32` |
| `arguments.dfy` | `Arguments` | `Task`, `Config` and `Config::build` |
| `sanitize.dfy` | `Sanitize` | `clean_string` |
| `serde.dfy` | `Serde` | the derived deserialiser and serialiser of `Record` |
| `projection.dfy` | `Projection` | the loop bodies of `format` and `assign`, and the whole runs |

Design choices:

- Turning JSON text into a value is serde_json's job. It enters the model as
  the parameter `parse: string -> Option<Json.Value>`, with `None` for text
  that is not JSON. `parse` reads number literals as serde_json does: `-0`
  and an integer literal outside the 64-bit range become floats, and
  other integer literals become integers. `Serde.Decode` then does what
  the derived deserialiser does with the value.
- The source throws the decode error away (`Err(_err)`), so `Decode`
  returns `Option<Record>` and carries no error detail.
- Integers and fractions are separate JSON values, as in serde_json.
  `revision: u32` accepts only an integer from 0 to 2^32 - 1.
- The untagged union is tried in declaration order. The `Author` variant
  needs a string `name` and an optional string `personal_name`. The `Work`
  variant needs a string `title`, an optional string `subtitle` and an
  optional `authors` array. An absent key and `null` both give `None`. Keys
  neither variant names are ignored.
- The derived deserialisers of the plain structs `AuthorReference` and
  `AuthorKey` also accept an array that lists the fields in declaration
  order. So an `AuthorReference` may be `{"author": …}` or `[…]`, and an
  `AuthorKey` may be `{"key": "…"}` or `["…"]`. The model accepts both
  forms. `Record` does not: its `flatten` field makes it read a map only.
  The untagged struct variants of `Entity` have no array form either. A
  payload that is not an object fails to decode.
- The csv reader and writer are gone. Input rows are the already-split
  field sequences the reader yields; output rows are what the writer is
  handed.
- The source indexes columns 1 to 4 and panics on a shorter row. The model
  builds this into the input row type `Projection.Row`: a row has at least
  five fields.
- An operator other than `assign` or `format` makes `Config::build` panic.
  The model returns the error `UnrecognizedOperation` instead.

Behaviours of the code that are easy to misread:

- The derived serialiser writes an absent `personal_name` or `subtitle` as
  `null` and keeps the key (formatter/src/lib.rs:25-45). None of those
  fields carries `skip_serializing_if`. `Serde.SerializeAbsentAsNull`
  states this.
- On a decode failure, `format` reports the payload, not the row's key
  (formatter/src/lib.rs:191). The diagnostics are left out in any case.
- A work whose `authors` list is present but empty writes no `assign` rows.
  The model gets this from writing one row per element.

## Model

| member | source | states |
|---|---|---|
| `Arguments.Build` | formatter/src/lib.rs:65-99 | Succeeds exactly when there are at least three arguments and the second is `assign` or `format`. The task then carries the third argument as file name, and its kind follows the operator. Fewer than two arguments gives "no operator specified". A known operator without a file name gives "no filename supplied". Any other operator fails with that operator, whether or not a file name follows |
| `Arguments.Message` | formatter/src/lib.rs:70-98 | Each refusal maps to the source's text, and distinct kinds of refusal map to distinct texts |
| `Arguments.BuildCommandLine` | formatter/src/lib.rs:65-99 | Every task is reachable. `<program> <operator> <filename>` builds exactly that task, under any program name |
| `Arguments.BuildIgnoresTrailing` | formatter/src/lib.rs:70-91 | Arguments after the file name never change the outcome |
| `Arguments.BuildIgnoresProgram` | formatter/src/lib.rs:68 | The first argument is skipped: replacing it never changes the outcome |
| `Sanitize.Delete` | formatter/src/lib.rs:110-111 | Deleting a character leaves no occurrence of it and never lengthens the text |
| `Sanitize.DeleteKeepsOthers` | formatter/src/lib.rs:110-111 | `replace(c, "")` loses only `c`. Every other character keeps its count. The length drops by the number of `c`s. The result is a subsequence of the input |
| `Sanitize.Clean` | formatter/src/lib.rs:109-114 | The cleaned text holds no newline and no backslash, and is never longer than the input |
| `Sanitize.CleanKeepsOthers` | formatter/src/lib.rs:109-114 | Only newlines and backslashes are lost. Every other character keeps its count. The length is the input's less those two counts. The result is a subsequence of the input |
| `Sanitize.CleanIsKeep` | formatter/src/lib.rs:109-114 | The two `replace` passes equal one left-to-right filter that keeps every character except newline and backslash |
| `Sanitize.CleanCharacterised` | formatter/src/lib.rs:109-114 | The cleaned text is the only subsequence of the input that has no newline or backslash and keeps every other character, so nothing is reordered |
| `Sanitize.CleanIdempotent` | formatter/src/lib.rs:109-114 | Cleaning twice is the same as cleaning once |
| `Sanitize.CleanKeepsCleanText` | formatter/src/lib.rs:109-114 | Text without newlines or backslashes comes out unchanged |
| `Sanitize.CleanConcat` | formatter/src/lib.rs:109-114 | Cleaning distributes over concatenation: it works character by character |
| `Serde.DecodeAuthorList` | formatter/src/lib.rs:40-56 | A `Vec<AuthorReference>` decodes exactly when every element does. The result then has one reference per element, in the same order |
| `Serde.Decode` | formatter/src/lib.rs:25-45 | Every decoded value comes from the payload, through the revision field and the untagged union `Serde.DecodeEntity`. The revision is the integer under `revision`. The name or title is the string under its key. An optional field is `Some` of the string stored there, and `None` only when the key is absent or null |
| `Serde.DecodeSucceeds` | formatter/src/lib.rs:25-56 | A payload decodes exactly when it is an object with a valid `u32` revision that has the author fields or the work fields |
| `Serde.DecodePrefersAuthor` | formatter/src/lib.rs:33-45 | An object with the author fields decodes as an author, even when it also has a `title` |
| `Serde.DecodeWorkNeedsNoAuthor` | formatter/src/lib.rs:33-45 | A work is decoded only from an object that lacks the author fields and has the work fields |
| `Serde.DecodeIgnoresUnknownKeys` | formatter/src/lib.rs:25-56 | Adding or changing a key the record does not name, whatever its value, never changes the decode |
| `Serde.FloatRevisionRefused` | formatter/src/lib.rs:30 | A revision stored as a float is refused, whatever its value. That includes the whole numbers serde_json reads as floats |
| `Serde.DecodeNullIsAbsent` | formatter/src/lib.rs:38-42 | For `personal_name`, `subtitle` and `authors`, a `null` decodes the same as an absent key |
| `Serde.DecodeAuthorReferenceShape` | formatter/src/lib.rs:47-56 | An author reference decodes exactly when it is an object or one-element array wrapping a string key, in either form |
| `Serde.DecodeKeepsAuthorKeys` | formatter/src/lib.rs:40-56 | A decoded work's author list matches the payload's `authors` array element by element: same length, same order, and each key is the string that element names |
| `Serde.Encode` | formatter/src/lib.rs:25-56 | Serialising writes the revision as an integer under `revision`. An author always gets exactly the keys `name`, `personal_name` and `revision`, and a work exactly `authors`, `subtitle`, `title` and `revision`, so an absent optional field still gets its key |
| `Serde.DecodeEncode` | formatter/src/lib.rs:25-56 | Round trip: decoding a serialised record gives the same record back, for authors and works alike |
| `Serde.EncodeInjective` | formatter/src/lib.rs:25-56 | Distinct records serialise to distinct JSON |
| `Serde.SerializeAbsentAsNull` | formatter/src/lib.rs:36-39 | An absent personal name serialises as `null`. A payload that lacks the key decodes to `None` |
| `Serde.DeserializeAuthorRecord` | formatter/src/lib.rs:266-289 | The source's author payload decodes to the expected author record |
| `Serde.DeserializeWorkRecord` | formatter/src/lib.rs:346-393 | The source's work payload decodes to the expected work, with both author references in order |
| `Serde.SerializeAuthorRecord` | formatter/src/lib.rs:235-264 | The source's author record serialises to the expected object |
| `Serde.SerializeWorkRecord` | formatter/src/lib.rs:291-344 | The source's work record serialises to the expected object |
| `Projection.FormatRecord` | formatter/src/lib.rs:196-222 | A formatted row has five columns. Key, revision text and timestamp are copied unchanged from columns 1 to 3, so the revision column is the input text and not the decoded number. The two text columns are clean: the cleaned name and personal name for an author, the cleaned title and subtitle for a work, with an absent value written empty |
| `Projection.FormatRow` | formatter/src/lib.rs:184-222 | One pass of `format`'s loop writes exactly one row when the payload decodes and none when it does not. Decoding is `Projection.DecodeRow`: parse the fifth field, then decode the value, and skip the row when either fails |
| `Projection.Format` | formatter/src/lib.rs:181-224 | A `format` run writes as many rows as it reads, less the rows whose payload fails to decode |
| `Projection.FormatShape` | formatter/src/lib.rs:196-222 | Every row a `format` run writes has five columns, and its two text columns hold no newline or backslash |
| `Projection.FormatConcat` | formatter/src/lib.rs:181-224 | Output order follows input order. The rows written for a prefix of the input come before those for the rest |
| `Projection.FormatSkipsFailure` | formatter/src/lib.rs:188-194 | A row that fails to decode writes nothing, and the rows after it are still formatted |
| `Projection.FormatOneToOne` | formatter/src/lib.rs:181-224 | When every payload decodes, output row i is the formatted row of input row i |
| `Projection.FormatSnoc` | formatter/src/lib.rs:181-224 | Processing one more input row appends exactly that row's `format` output to what the earlier rows wrote |
| `Projection.RunFormat` | formatter/src/lib.rs:181-224 | The source's loop, which decodes each row, `continue`s on failure and writes one row otherwise, computes the `format` run |
| `Projection.AuthorRows` | formatter/src/lib.rs:157-163 | One row per author reference, in list order. Row i holds the row's key and reference i's key, both as written |
| `Projection.AssignRecord` | formatter/src/lib.rs:153-169 | A work with an author list writes one row per reference, in order, with the key and author key unchanged. An author, or a work without a list, writes nothing |
| `Projection.Assign` | formatter/src/lib.rs:141-170 | An `assign` run writes one row per author reference of the decodable works, so its length is their total number of references |
| `Projection.AssignShape` | formatter/src/lib.rs:159-162 | Every row an `assign` run writes has two columns, and its first column is the key column of some input row |
| `Projection.AssignKeyed` | formatter/src/lib.rs:141-170 | Every row an `assign` run writes has two columns and starts with a value from the input's key column |
| `Projection.AssignConcat` | formatter/src/lib.rs:141-170 | Output order follows input order, grouped by input row |
| `Projection.AssignSkipsFailure` | formatter/src/lib.rs:145-151 | A row that fails to decode writes nothing, and the rows after it are still processed |
| `Projection.AssignSnoc` | formatter/src/lib.rs:141-170 | Processing one more input row appends exactly that row's `assign` output to what the earlier rows wrote |
| `Projection.RunAssign` | formatter/src/lib.rs:141-170 | The source's loop, with its `continue` on failure and its inner `for_each`, computes the `assign` run |
| `Projection.AssignRow` | formatter/src/lib.rs:144-169 | One pass of `assign`'s loop writes nothing for a row whose payload fails to decode. Otherwise it writes one row per author reference of the decoded record. Every row has two columns and starts with the row's key column, unchanged. For a work with an author list, row j ends with the key of reference j |
| `Projection.AssignOne` | formatter/src/lib.rs:144-169 | One pass of the loop writes nothing for a payload that fails to decode. Otherwise it writes the record's author rows under the row's key |
| `Projection.WriteAuthorRows` | formatter/src/lib.rs:157-163 | The `for_each` over a work's authors writes exactly that work's author rows |
| `Projection.FormatFromPayload` | formatter/src/lib.rs:188-222 | End to end, the text columns of `format` are the cleaned `name` and `personal_name` when the payload has the author fields. Otherwise they are the cleaned `title` and `subtitle`. A missing or null optional field is written empty |
| `Projection.AssignFromPayload` | formatter/src/lib.rs:145-169 | End to end, `assign` writes nothing when the payload has the author fields or no `authors` array. Otherwise it writes one row per array element, in order, pairing the row's key with the key that element names |
| `Projection.AssignedRowsAreFormatted` | formatter/src/lib.rs:145-154 | A row that `assign` writes anything for is a row that `format` writes a row for |
| `Projection.FormatAuthorRow` | formatter/src/lib.rs:196-209 | An author whose name holds a newline and whose personal name is null is written with the newline deleted and an empty personal name |
| `Projection.AssignWorkRow` | formatter/src/lib.rs:153-163 | A work with one author gives one `assign` row: the row's key and that author key |
| `Projection.FormatWorkRow` | formatter/src/lib.rs:210-222 | The same work gives one `format` row with the title and an empty subtitle |
| `Projection.UnparsableRow` | formatter/src/lib.rs:145-151 | A payload that is not JSON writes nothing in either mode: `assign` skips the row here, and `format` skips it likewise at formatter/src/lib.rs:188-194 |

## Left out

- `create_reader` and `create_writer`, and everything the csv crate does, are not modelled: the tab delimiter, quoting only when needed without doubling quotes, the strict field count, read errors and flushing. These are foreign library I/O. Rows come in already split and go out as field sequences.
- Parsing JSON text is serde_json's work. It is the `parse` parameter. Text that is not JSON is `None`.
- Serde.Decode: a JSON object is a map, so the model cannot express a payload that repeats a key, and it covers none of the derived code's handling of one. That handling depends on where the key sits. Some examples: a repeated `revision` fails the whole record. A repeated `name` or `personal_name` fails only the author attempt, so the payload can still decode as a work. A repeated `title`, `subtitle` or `authors` fails the work attempt. A repeated `author` or `key` inside a reference fails that reference and with it the work. A repeated key that the matching variant does not name is ignored.
- Serde.Decode: the model has no negative zero. serde_json reads the literal `-0` as the float -0.0, and the `u32` revision refuses it. `parse` must therefore yield a float for `-0`, as it does for integer literals beyond 64 bits. `Serde.FloatRevisionRefused` shows that every float revision is refused.
- The `eprintln!` diagnostics for rows that fail to decode are left out. They go to a side channel and never reach the output.
- The `.unwrap()` on `write_record` in `assign`, the `?` on writes and reads, and `wtr.flush()` are left out. They only matter when I/O fails.
- formatter/src/main.rs is not part of this model. It only dispatches the task and maps errors to exit code 1.
- The unused `Created` struct and the commented-out delimiter argument are not modelled.
- A row with fewer than five fields makes the source panic when it indexes. The input row type excludes such rows.
