# packit service-binding entries and formatted maps, in Dafny

This project models two small parts of the packit buildpack toolkit.

**The binding `Entry`** (`ServiceBindings`, `entry.dfy`) is the read-only content of one
service-binding entry. It comes in two kinds:

- A file-backed entry holds a path. Its file is opened lazily by the first streaming `Read`.
- A value-backed entry holds a reader over predefined bytes.

`Entry` is a class with the fields of the Go struct:

- `path` is a `const`.
- `value` is an optional cursor `(data, pos)`, the state of the `bytes.Reader`.
- `file` is an optional cursor over the content of the opened file, the open handle with its read position.

The file system is a parameter of the methods: a map from path to bytes, where a path outside
the map cannot be opened. `ReadBytes`, `ReadString`, `Read` and `Close` are methods with
`modifies this`. Their postconditions give the new cursor and handle. Client methods
(`ReadToEnd`, `ReadCloseRead`, `ReadBytesTwice`) prove what a caller sees over several calls:
a streaming loop yields the whole content, `Close` makes the next loop yield it again from
the first byte, and a second `ReadBytes` on a value-backed entry yields nothing.

**The formatted map** (`Scribe`, `formatted_map.dfy`, with string helpers in `Text`,
`text.dfy`) is a map from keys to strings or integers. `Render` is `FormattedMap.String`:

- The keys are sorted in Go's byte order.
- Each key is padded on the right with spaces to the length of the longest key.
- Each line continues with ` -> "`, the value and a closing quote.
- The lines are joined with single newlines, with no trailing newline.

The key is padded on its right, so the keys are left-aligned: the test's expected text
`"first  -> \"1\""` shows this.

`NewFormattedMapFromEnvironment` collapses a packit environment into one display entry per
variable:

- A key `NAME.op` is split at its first dot.
- `override` and `default` values are shown as they are.
- A `prepend` value is shown before `$NAME`, and an `append` value after it. The `NAME.delim` value, empty when absent, separates them.
- A `.delim` key never becomes an entry of its own.
- A key without an operation is copied through unchanged.

Example lemmas reproduce each case of `scribe/formatted_map_test.go`.

## Model

| member | source | states |
|---|---|---|
| ServiceBindings.ReaderRead | servicebindings/entry.go:63-65 | the value reader hands over at most len(b) bytes, exactly min(len(b), remaining) when not at the end, and advances by that count; it reports EOF with 0 bytes exactly when already at the end |
| ServiceBindings.ReadAll | servicebindings/entry.go:32-33 | io.ReadAll over the value reader, reading in chunks of any positive size, returns every byte from the cursor on and leaves the cursor at the end of the same data |
| ServiceBindings.ReadFile | servicebindings/entry.go:35 | os.ReadFile returns no error exactly when the path can be opened, and then the whole file; otherwise no bytes and the open failure |
| ServiceBindings.FileReadStep | servicebindings/entry.go:74 | one os.File.Read hands over at most len(b) of the next bytes and moves the handle past them; it reports EOF, with 0 bytes, exactly when the buffer is not empty and the handle is at the end |
| ServiceBindings.CopyInto | servicebindings/entry.go:64-74 | the bytes a read hands over replace the first bytes of b, and the rest of b is unchanged |
| ServiceBindings.BytesToString | servicebindings/entry.go:56 | string(bytes) has one character per byte, and converting it back gives exactly the same bytes |
| ServiceBindings.Entry.NewEntry | servicebindings/entry.go:16-21 | a new file entry holds only its path: no value reader and no open handle, so the next Read starts at the first byte |
| ServiceBindings.Entry.NewWithValue | servicebindings/entry.go:23-28 | a new value entry has a cursor at position 0 over exactly the given bytes, an empty path and no handle |
| ServiceBindings.Entry.ReadBytes | servicebindings/entry.go:30-36 | a value entry returns the bytes from its cursor on, with no error, and its cursor ends up at the end; a file entry returns the whole file or the open failure; the handle field is never changed |
| ServiceBindings.Entry.ReadString | servicebindings/entry.go:38-57 | returns the same error as ReadBytes, and either the empty string on error or the bytes ReadBytes returns, as a string; cursor and handle change as in ReadBytes |
| ServiceBindings.Entry.Read | servicebindings/entry.go:59-75 | a value entry reads exactly as bytes.Reader.Read; a file entry with no handle opens the file first, and on failure returns 0 with the error and keeps no handle; with a handle and a non-empty buffer it returns 0 and EOF at the end, and otherwise 1 to len(b) of the next bytes, advancing the handle; an empty buffer reads nothing and reports no error; b past n is untouched |
| ServiceBindings.Entry.Close | servicebindings/entry.go:77-92 | always clears the handle, rewinds a value cursor to 0 and returns no error, also on an entry already closed, so Close may be repeated |
| ServiceBindings.ReadToEnd | servicebindings/entry.go:59-75 | calling Read on a rewound entry until it reports an error yields the whole content and then EOF, or yields nothing and the open failure when the file cannot be opened |
| ServiceBindings.ReadCloseRead | servicebindings/entry.go:77-82 | after reading an entry to the end and closing it, reading it to the end again yields the same whole content |
| ServiceBindings.ReadBytesTwice | servicebindings/entry.go:32-33 | on a value entry, ReadBytes returns the rest of the value, and a second ReadBytes with no Close between returns nothing |
| Text.Less | scribe/formatted_map_test.go:18-22 | the order sort.Strings uses: compares character by character, and a proper prefix sorts before the longer string |
| Text.LessAtFirstDifference | scribe/formatted_map_test.go:18-22 | below a common prefix, the first differing character decides which string sorts first |
| Text.LessIrreflexive | scribe/formatted_map_test.go:18-22 | no key sorts before itself |
| Text.LessAsymmetric | scribe/formatted_map_test.go:18-22 | two keys never sort before each other |
| Text.LessTransitive | scribe/formatted_map_test.go:18-22 | the key order is transitive |
| Text.LessTotal | scribe/formatted_map_test.go:18-22 | any two distinct keys are ordered one way or the other |
| Text.SortedKeys | scribe/formatted_map_test.go:18-22 | the sorted key list holds every key of the map exactly once, in increasing order |
| Text.SortedKeysUnique | scribe/formatted_map_test.go:18-22 | any increasing listing of the keys is the sorted key list, so the rendering does not depend on the literal's key order |
| Text.Decimal | scribe/formatted_map_test.go:19-22 | an integer value prints as decimal digits with no leading zero, and "0" for zero |
| Text.DecimalRoundTrip | scribe/formatted_map_test.go:19-22 | reading the printed digits back gives the integer |
| Text.PadRight | scribe/formatted_map_test.go:22 | a padded key is the key followed by spaces up to the width, or the key itself when it is at least that wide |
| Text.JoinLines | scribe/formatted_map_test.go:22 | the joined text starts with the first line and ends with the last, so there is no trailing newline; with several lines a newline follows the first |
| Text.SplitJoin | scribe/formatted_map_test.go:22 | splitting the joined text at its newlines gives back exactly the lines, so there is one newline between lines and none at the end |
| Scribe.Display | scribe/formatted_map_test.go:19-22 | %v shows a string value as it is, and an integer as decimal digits whose value is that integer |
| Scribe.Line | scribe/formatted_map_test.go:22 | a line starts with its key and ends with a quote; its length is the padded key, the 5 characters ` -> "`, the value's text and the quote |
| Scribe.Width | scribe/formatted_map_test.go:18-22 | the padding width is the length of the longest key: no key is longer and some key has that length |
| Scribe.Lines | scribe/formatted_map_test.go:18-22 | the rendering has one line per key |
| Scribe.Render | scribe/formatted_map_test.go:18-22 | the rendering is empty exactly for the empty map |
| Scribe.LineLayout | scribe/formatted_map_test.go:22 | a line is the key, spaces up to the width, then ` -> "`, the value's text and a quote; it has no newline when key and value have none |
| Scribe.RenderLayout | scribe/formatted_map_test.go:18-22 | the rendered text splits at its newlines into one line per key, keys in increasing order, each laid out with the arrow at the column of the longest key |
| Scribe.RenderExample | scribe/formatted_map_test.go:17-22 | the test's map renders as its expected three lines |
| Scribe.DotIndex | scribe/formatted_map_test.go:30-38 | the index of the first dot of a key, or its length when it has none |
| Scribe.NameOf | scribe/formatted_map_test.go:30-38 | a key's name is its dot-free beginning, followed in the key by a dot when the key has one |
| Scribe.OperationOf | scribe/formatted_map_test.go:30-38 | a key is its name, a dot and its operation |
| Scribe.IsOperationKey | scribe/formatted_map_test.go:30-38 | a key with an operation holds a dot and is NAME.op |
| Scribe.SplitKey | scribe/formatted_map_test.go:30-38 | a key NAME.op with a dot-free NAME splits back into NAME and op, and has an operation exactly when op is one of the five |
| Scribe.JoinKey | scribe/formatted_map_test.go:30-38 | a key with a dot is its name, a dot and its operation, and its name has no dot |
| Scribe.KeyOfInjective | scribe/formatted_map_test.go:30-38 | keys NAME.op with dot-free names are equal only for equal names and operations |
| Scribe.Resolve | scribe/formatted_map_test.go:29-45 | a variable shows its override value; without one, its default value; without either, the prepend value and delimiter when given, then `$NAME`, then the delimiter and append value when given |
| Scribe.Variables | scribe/formatted_map_test.go:29-45 | the variables of an environment are exactly the dot-free names set by override, default, prepend or append |
| Scribe.NewFormattedMapFromEnvironment | scribe/formatted_map_test.go:29-56 | the derived map has exactly one entry per variable and one per key without an operation; a variable shows its resolved value, every other entry its value unchanged, and no key with an operation is an entry |
| Scribe.OverrideOrDefaultShown | scribe/formatted_map_test.go:30-31 | an override value, or a default value with no override, is shown as it is under NAME |
| Scribe.PrependShown | scribe/formatted_map_test.go:32-33 | a prepend value v with delimiter d is shown as v + d + "$NAME" |
| Scribe.AppendShown | scribe/formatted_map_test.go:34-35 | an append value v with delimiter d is shown as "$NAME" + d + v |
| Scribe.PrependAppendShown | scribe/formatted_map_test.go:36-38 | prepend p and append a with delimiter d are shown as p + d + "$NAME" + d + a |
| Scribe.PlainCopied | scribe/formatted_map_test.go:50-56 | an environment with no operation keys is copied through unchanged |
| Scribe.OperationsExample | scribe/formatted_map_test.go:29-45 | for any five distinct dot-free names and any values, the test's environment derives the five expected entries and nothing else |
| Scribe.EnvironmentExample | scribe/formatted_map_test.go:28-45 | the test's environment with every operation derives exactly its expected map |
| Scribe.PlainExample | scribe/formatted_map_test.go:49-56 | the test's plain string map derives exactly the same map |

## Left out

- Real operating-system I/O is not modelled. The file system is a map from path to bytes. Every failure of `os.Open` and `os.ReadFile` is the single error `OpenFailed(path)`, and read errors other than EOF do not occur.
- ServiceBindings.Entry.Close: closing an open file cannot fail in the model, though `os.File.Close` can report an error. Rewinding the value reader with `Seek(0, io.SeekStart)` cannot fail, as in Go.
- ServiceBindings.Entry.Read: the handle reads the file's content as it was when opened. A file that changes while open is not modelled.
- ServiceBindings.Entry.Read: the doc comment at `servicebindings/entry.go:59-60` says Read returns 0 and io.EOF at the end of the data, with no condition. For a file entry and an empty buffer the code returns 0 and no error instead, because `os.File.Read` does that for a zero-length buffer even at the end of the file. The model follows the code. A value entry does report EOF there, because `bytes.Reader.Read` checks for the end first.
- ServiceBindings.Entry.Read: for an open file the contract allows any count from 1 to min(len(b), remaining), because `os.File.Read` chooses the count. The body takes the largest.
- `io.ReadAll` grows its own buffer, while the entry reads its value in 512-byte chunks. ReadAll's contract holds for every chunk size.
- ServiceBindings.Entry.ReadString: the error branch after `io.ReadAll` on the value reader cannot be taken, because a bytes.Reader never reports an error other than EOF.
- ServiceBindings.BytesToString: Go strings are byte strings. The model keeps one character per byte and does no UTF-8 decoding.
- Concurrent use of an `Entry` is not modelled. The Go type is not safe for it.
- The implementation of `FormattedMap` (`scribe/formatted_map.go`) is not part of this model. The behaviour follows its test, and the following rules for inputs the test does not cover are this model's choices:
  - keys split at their first dot;
  - a key whose suffix is not one of the five operations is copied through as a plain key;
  - a variable's entry replaces a plain key with the same name.
- Scribe.NewFormattedMapFromEnvironment: a variable with both `override` and `default` shows the override value. What packit's Go implementation (`scribe/formatted_map.go`, not part of this model) does here is not known.
- Scribe.NewFormattedMapFromEnvironment: a variable with an `override` or `default` key and also a `prepend` or `append` key shows the override or default value alone (Scribe.OverrideOrDefaultShown). No test covers this input, and what `scribe/formatted_map.go` does here is not known.
- Go's `%v` formatting is modelled only for strings and non-negative integers, the value types the test uses.
- Text.PadRight: widths count characters. Keys with multi-byte characters, where Go counts bytes, are not modelled.
- The `packit.Environment` type is modelled only by its shape, a map from strings to strings.
- The test harness (`spec`, `gomega`) is not modelled.
