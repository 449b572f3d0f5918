# mimetics: the first-match file-type detector

This project models the file-type detector of the `mimetics` library and
proves what its lookup tables make of it.

A `Mimetics` instance holds four ordered tables:

- binary signatures (`magicNumbers`, lib/magic.js);
- MIME types (`mimeTypeMap`);
- text patterns (`fileTypeMap`, lib/types.js);
- edge-case remaps (`edgeCases`, lib/edge.js).

`getFileType` checks that its input is binary. It then walks the signatures
in insertion order and takes the first one the buffer begins with, remapped
through the edge cases. Only when no signature gives a non-empty key does it
decode the first `BUFFER_CHECK_SIZE` = 100 bytes as text. It then returns the
key of the first text pattern that matches, or `DEFAULT_FILE_TYPE` = `txt`.
`getMimeType` and `getMediaType` look the type up in the MIME map, and
`parse` bundles the three results. The `add*` methods and `setOptions`
assign into the tables in place.

The project also models the definition table of lib/definitions.js: the
records, the three shapes of their signatures (flat with `'*'` wildcards,
a set of alternatives, none), and a prefix matcher for those shapes.

Files, one module each:

- `tables.dfy`, module `Tables`: a JavaScript object iterated with
  `Object.entries` is a sequence of `(key, value)` pairs. Assigning to an
  existing key replaces its entry in place, and a new key goes last.
  `FirstWhere` is the shape of every "first entry that satisfies"
  `for … of` loop of the detector.
- `constants.dfy`, module `Constants`: lib/const.js.
- `signatures.dfy`, module `Signatures`: the signature comparison and the
  edge-case remap of `getFileTypeFromMagicNumbers`, as functions.
- `magic_table.dfy`, module `MagicTable`: lib/magic.js and lib/edge.js as
  constants, and what the first-match rule does with them.
- `patterns.dfy`, module `Patterns`: a fragment of regular expressions and
  first-match text sniffing. A pattern of the fragment is `/^\s*(A|B|…)/`,
  with or without the `i` flag, where each alternative is a concatenation of
  literals, `\s`, `\w`, `\d` or `.` under `*` or `+`, and `$`. The fragment
  is modelled exactly, with an existential (backtracking) match.
  28 of the 31 patterns of lib/types.js are in it as written (a pattern
  without a group is an alternation of one). The other three use a construct
  outside it and are rewritten, in `file_types.dfy`, into a pattern of the
  fragment that matches the same strings:
  - `xml`, `/^\s*(<?xml)/i` (lib/types.js:15): `<?` is an optional `<`, so
    the group becomes the two alternatives `<xml` and `xml`;
  - `h`, `/^\s*#\s*(include|define)/i` (lib/types.js:27): the `#\s*` before
    the group is copied into both alternatives, `#\s*include` and
    `#\s*define`;
  - `md` (lib/types.js:28): the bounded repeat `#{1,6}\s+\w+` becomes six
    alternatives, `#\s+\w+` up to `######\s+\w+`.
- `file_types.dfy`, module `FileTypes`: lib/types.js as a constant. It holds
  the consequences of its order, stated for any table that keeps the
  built-in leading entries, which covers every table that `addFileType`
  only extended.
- `mimetics.dfy`, module `Mimetics`:
  - the class `Mimetics`, with the four tables as fields, the `add*`
    methods, `setOptions`, and the two detection loops as methods with loop
    invariants;
  - the specification functions those methods are proved against
    (`MagicType`, `TextContentType`, `FileTypeOf`, `Parsed`, `Apply`);
  - the pure lookups (`ValidateBuffer`, `MimeType`, `MediaType`). The
    instance methods `getMimeType` and `getMediaType` are `MimeType` and
    `MediaType` applied to the instance's `mimeTypeMap`, as `Parse` does.
  - the class invariant `Valid()`: the ordered tables hold no key twice. The
    constructor establishes it and every method that assigns keeps it.
- `definitions.dfy`, module `Definitions`: lib/definitions.js. It has one
  constant per record, with the record's lines in its doc comment, the
  `MagicSpec` matcher, and the structural facts of the table.

Modelling choices:

- **Text decoding.** It is a parameter `decode: seq<byte> -> string`, a
  constant of the instance. It is applied to the first 100 bytes. This is
  what `decodeBufferToString` does in a browser (`TextDecoder` on
  `slice(0, 100)`) and on Node for a Node `Buffer` (`toString('utf8', 0,
  100)`). Node's handling of any other `Uint8Array`, and so of every
  `ArrayBuffer`, is listed under "Left out".
- **The MIME table.** lib/mimes is not part of this model. It is a map
  given to the constructor.
- **Values handed to `getMimeType`.** They are `Str(s)` or `Other` (null,
  undefined, a number, an object). A falsy string `""` is handled as the
  source handles it.
- **Signature entries.** They are arbitrary integers, because `addMagicNumber`
  accepts any array. A buffer byte is `0..255`.
- **The `i` flag.** It folds ASCII letters only. Without the `u` flag a
  character outside ASCII never folds onto an ASCII one, so for the ASCII
  literals of the built-in patterns this is exact.

An observation about the built-in text patterns:

- The `xml` pattern of lib/types.js:15 is `/^\s*(<?xml)/i`. In a regular
  expression `<?` makes the `<` optional, so the pattern matches `xml` and
  `<xml` but not an XML declaration `<?xml`.
- `FileTypes.XmlDeclarationIsTxt` proves that text beginning with `<?xml`
  (after blanks) matches no built-in pattern and is sniffed as `txt`.
- The model keeps the pattern as written.

## Model

| member | source | states |
|---|---|---|
| Tables.Put | lib/mimetics.js:79-81 | Property assignment: an existing key's entry is replaced at its position; a new key is appended last. |
| Tables.KeyIndex | lib/mimetics.js:80 | The position of a key is the first entry holding it, and there is none exactly when the key is absent. |
| Tables.PutGetSame | lib/mimetics.js:80 | After `obj[k] = v`, reading `k` gives `v`. |
| Tables.PutGetOther | lib/mimetics.js:80 | After `obj[k] = v`, every other key reads as before. |
| Tables.PutUnique | lib/mimetics.js:80 | Assignment keeps keys distinct; the table grows by one exactly when the key was new. |
| Tables.PutAllGet | lib/mimetics.js:67-68 | After a batch of assignments, a key holds the last value the batch gave it, or its old value if the batch never names it. |
| Tables.UpdateAllGet | lib/mimetics.js:67-68 | The same for the MIME map: the last value given, or the old membership and value. |
| Tables.PutAllUnique | lib/mimetics.js:67-68 | A batch of assignments keeps keys distinct. |
| Tables.FirstWhere | lib/mimetics.js:152-159 | The first entry whose value passes the test: it passes and no earlier one does; none found means none passes. |
| Tables.FirstWhereAt | lib/mimetics.js:170-171 | The first match is entry `i` when `i` passes and no earlier entry does. |
| Tables.FirstWhereAtMost | lib/mimetics.js:170-171 | If entry `i` passes, the first match is at `i` or earlier. |
| Tables.FirstWhereSame | lib/mimetics.js:170-171 | Two tests that agree on every value find the same entry. |
| Tables.Shadowed | lib/mimetics.js:152-154 | If every value accepted at a later position is accepted at an earlier one, the later position is never the first match. |
| Tables.ShadowedKey | lib/mimetics.js:152-154 | Such a shadowed entry's key, if it occurs only there, is never the key of the first match. |
| Signatures.SigMatchesStartsWith | lib/mimetics.js:153 | `every(buffer[ii] === byte)` holds exactly when the buffer begins with the signature; a buffer shorter than the signature never matches. |
| Signatures.PrefixSigMatches | lib/mimetics.js:153 | A buffer matching a signature matches every prefix of it. |
| Signatures.FirstSignatureSpec | lib/mimetics.js:152-160 | No key exactly when no signature matches; otherwise the key of a matching entry with no matching entry before it. |
| Signatures.FirstSignatureAt | lib/mimetics.js:152-154 | Entry `i` decides when it matches and no earlier entry does; later matches are ignored. |
| Signatures.RemapSpec | lib/mimetics.js:155-157 | A key in no edge-case list is returned unchanged; otherwise the result is the special key of the first list that includes it. |
| Signatures.MagicTypeSpec | lib/mimetics.js:151-161 | The detector returns null exactly when nothing matches, and otherwise the remap of the first matching key. |
| Signatures.ExtendedSignatureShadowed | lib/mimetics.js:152-154 | A later entry whose signature repeats or extends an earlier one is never the first match. |
| MagicTable.MagicKeysUnique | lib/magic.js:6-38 | The keys of the signature table are distinct. |
| MagicTable.Shadows | lib/magic.js:9-37 | Each listed later entry repeats or extends an earlier signature and is never the first match. |
| MagicTable.UnreachableKeys | lib/magic.js:15-37 | `avi`, `xls`, `ppt`, `xlsx`, `pptx`, `zip`, the `tiff_*` and the `GIF8*a` keys are never the first match for any buffer. |
| MagicTable.EdgeRemapNeverFires | lib/edge.js:8-9 | With the built-in tables the edge-case remap never changes the result. |
| MagicTable.ZipIsDocx | lib/magic.js:24-29 | A buffer beginning `50 4B 03 04` is `docx`, never `xlsx`, `pptx` or `zip`. |
| MagicTable.OfficeIsDoc | lib/magic.js:23-27 | A buffer beginning `D0 CF 11 E0` is `doc`, never `xls` or `ppt`. |
| MagicTable.RiffIsWebp | lib/magic.js:15-19 | Every buffer beginning `RIFF`, WAV and AVI included, is `webp`. |
| MagicTable.GifIsGif | lib/magic.js:9-37 | GIF87a and GIF89a buffers are `gif`, because the 4-byte `gif` prefix comes first. |
| MagicTable.LittleEndianTiffIsTif | lib/magic.js:11 | A buffer beginning `II*\0` is `tif`. |
| MagicTable.BigEndianTiffIsTiff | lib/magic.js:12 | A buffer beginning `MM\0*` is `tiff`. |
| MagicTable.ThisIsTxt | lib/magic.js:22 | A buffer beginning with the ASCII word `this` is `txt` by its signature. |
| MagicTable.Mp4MovExclusive | lib/magic.js:17-18 | The `mp4` and `mov` signatures differ at byte 3, so no buffer matches both. |
| Patterns.TrimStart | lib/types.js:7-37 | The text without its leading whitespace: a suffix of the input that does not begin with whitespace, and every removed character is whitespace. |
| Patterns.MatchesTrimmed | lib/types.js:7-37 | For patterns whose alternatives cannot begin with whitespace, `^\s*(…)` matches exactly when an alternative matches the text with its leading whitespace removed. |
| Patterns.MatchesAfterSpaces | lib/types.js:7-37 | For any pattern, an alternative matching after all the leading whitespace makes the pattern match. |
| Patterns.LeadingSpaceIrrelevant | lib/types.js:7-37 | Prepending whitespace never changes whether such a pattern matches. |
| Patterns.TextTypeSpec | lib/mimetics.js:170-172 | The sniffed type is `txt` when no pattern matches, and otherwise the key of the first matching pattern. |
| Patterns.TextTypeAt | lib/mimetics.js:170-171 | Pattern `i` decides when it matches and no earlier pattern does. |
| Patterns.TextTypeIsKey | lib/mimetics.js:170-172 | The sniffed type is always a key of the table or the default. |
| Patterns.TextTypeIgnoresLeadingSpace | lib/mimetics.js:170-171 | For a table of well-formed patterns, leading whitespace never changes the sniffed type. |
| Patterns.KeyNotSniffed | lib/mimetics.js:170-171 | A key all of whose entries carry a pattern that fails on the text is not the sniffed type. |
| Patterns.CoveringMatch | lib/mimetics.js:170-171 | In any table, a text matched by a pattern whose alternatives all occur, with the same flags, in earlier patterns is matched by one of those earlier patterns. |
| Patterns.CoveredNeverFirst | lib/mimetics.js:170-171 | In any table, a pattern each of whose alternatives already occurs, with the same flags, in an earlier pattern never decides the sniffed type. |
| Patterns.AltsStartWith | lib/types.js:27 | A pattern all of whose alternatives begin with a literal matches only text whose first non-blank characters are that literal. |
| Patterns.RejectsNoMatch | lib/mimetics.js:171 | A pattern that fails visibly at the first non-blank character does not match. |
| FileTypes.FileTypesWellFormed | lib/types.js:7-37 | The table has 31 entries, and no built-in alternative can begin with whitespace. |
| FileTypes.FileTypesKeepLeading | lib/types.js:7-17 | The first eleven built-in entries, php to cpp, are the `Leading` entries that the order lemmas assume. |
| FileTypes.FileKeysUnique | lib/types.js:6-38 | The keys of the text-pattern table are distinct. |
| FileTypes.FileKeysNonEmpty | lib/types.js:7-37 | No built-in pattern is keyed by the empty string. |
| FileTypes.ImportIsJs | lib/types.js:7-8 | Text whose first word begins with `import`, in any case, is `js`, never `py`, `java`, `cs`, `go`, `kt` or `ts`. |
| FileTypes.ClassIsRb | lib/types.js:7-11 | Text beginning `class`, in any case, is `rb`. |
| FileTypes.PackageIsJava | lib/types.js:7-13 | Text beginning `package`, in any case, is `java`. |
| FileTypes.SlashSlashIsCpp | lib/types.js:7-17 | Text beginning `//` is `cpp`, never `swift`. |
| FileTypes.ShebangIsSh | lib/types.js:7-10 | Text beginning `#!` is `sh`, never `bat`. |
| FileTypes.HashIsC | lib/types.js:7-16 | Other text beginning `#` is `c`; the `#` alternatives of `cpp`, `h` and `md` never get a say. |
| FileTypes.HNeedsHash | lib/types.js:27 | Text that the `h` pattern matches has `#` as its first non-blank character. |
| FileTypes.HNeverSniffed | lib/types.js:16-27 | In any table keeping the first ten built-in entries, `h` with its built-in pattern is never sniffed. |
| FileTypes.BatNeverSniffed | lib/types.js:10-26 | `bat` has the pattern of the earlier `sh`, so it is never sniffed. |
| FileTypes.GroovyCovered | lib/types.js:11-34 | Every text that the `groovy` pattern matches is matched by `rb`, `py` or `r`. |
| FileTypes.GroovyNeverSniffed | lib/types.js:11-34 | In a table keeping the built-in `rb`, `py` and `r` entries, `groovy` is never sniffed. |
| FileTypes.FileTypesUnreachable | lib/types.js:7-37 | The built-in table never sniffs `bat`, `h` or `groovy`. |
| FileTypes.FileTypesIgnoreLeadingSpace | lib/types.js:7-37 | Prepending whitespace never changes what the built-in table sniffs. |
| FileTypes.XmlDeclarationIsTxt | lib/types.js:15 | Text beginning `<?xml` matches no built-in pattern and comes out as `txt`. |
| Mimetics.ValidateBuffer | lib/mimetics.js:128-131 | Fails with INVALID_BUFFER exactly for non-binary input, and otherwise yields its bytes. |
| Mimetics.CheckedBytes | lib/mimetics.js:180-184 | The first `min(n, 100)` bytes of the buffer, from the start. |
| Mimetics.TextIgnoresLaterBytes | lib/mimetics.js:180-184 | On the decoding paths (a browser, or a Node `Buffer`), bytes after the first 100 never change the text result. |
| Mimetics.FileTypeSpec | lib/mimetics.js:138-144 | Fails exactly for non-binary input; a non-empty signature key is returned as is; otherwise the result is the text result, or null when that is `""`. |
| Mimetics.FileTypeNeverNull | lib/mimetics.js:141-143 | With no pattern keyed by `""`, a valid buffer always gets a type. |
| Mimetics.BuiltInNeverNull | lib/mimetics.js:141-143 | With the built-in tables, `getFileType` never returns null for a valid buffer. |
| Mimetics.BuiltInZipIsDocx | lib/mimetics.js:141-142 | With the built-in tables, a ZIP header is `docx` whatever the decoder yields. |
| Mimetics.BuiltInThisIsTxt | lib/mimetics.js:141-142 | A buffer beginning `this` is `txt` by signature, before any decoding. |
| Mimetics.MimeType | lib/mimetics.js:192-199 | INVALID_EXTENSION exactly for a non-string or empty extension; otherwise the mapped value when it is a non-empty string, else UNRECOGNIZED_EXTENSION for that extension. |
| Mimetics.MediaType | lib/mimetics.js:206-209 | Passes on `getMimeType`'s errors; otherwise the longest prefix of the MIME type that has no `/`, followed in the MIME type by `/` or by nothing. |
| Mimetics.BeforeSlashOf | lib/mimetics.js:208 | The media type of `type/subtype` is `type`. |
| Mimetics.MediaTypeOf | lib/mimetics.js:206-209 | A key mapped to `type/subtype` has media type `type`. |
| Mimetics.MimeTypeAfterAdd | lib/mimetics.js:88-90 | After `addMimeType(ext, m)` the key `ext` gives `m`, and every other argument gives what it gave before. |
| Mimetics.ApplySpec | lib/mimetics.js:60-72 | `setOptions` applies each present label's entries to its own table, and leaves a table alone when its label is absent. |
| Mimetics.ApplyGet | lib/mimetics.js:60-72 | After `setOptions`, each key reads the last value the options gave it, or its old value. |
| Mimetics.ApplyUnique | lib/mimetics.js:60-72 | `setOptions` keeps the keys of the ordered tables distinct. |
| Mimetics.FileTypeNonEmpty | lib/mimetics.js:141-143 | A type that `getFileType` returns is never the empty string. |
| Mimetics.ParsedSpec | lib/mimetics.js:115-121 | `parse` fails with INVALID_BUFFER exactly for non-binary input, and with INVALID_EXTENSION when the type is null. For a detected type `k` with no MIME string it fails with UNRECOGNIZED_EXTENSION(`k`); with MIME type `m` it returns `ext` = `k`, `mime` = `m` and `media` = the part of `m` before the first `/`. Every successful result has that form. |
| Mimetics.Mimetics.constructor | lib/mimetics.js:44-53 | A new instance has the built-in tables with the options applied, and its ordered tables have distinct keys. |
| Mimetics.Mimetics.AddMagicNumber | lib/mimetics.js:79-81 | Assigns one key of the signature table; the other tables are unchanged. |
| Mimetics.Mimetics.AddMimeType | lib/mimetics.js:88-90 | Assigns one key of the MIME map; the other tables are unchanged. |
| Mimetics.Mimetics.AddFileType | lib/mimetics.js:97-99 | Assigns one key of the pattern table; the other tables are unchanged. |
| Mimetics.Mimetics.AddEdgeCase | lib/mimetics.js:106-108 | Assigns one key of the edge-case table; the other tables are unchanged. |
| Mimetics.Mimetics.AddEntries | lib/mimetics.js:63-69 | One label of `setOptions`: its table becomes the batch update by that label's entries. |
| Mimetics.Mimetics.AddMagicNumbers | lib/mimetics.js:67-68 | The loop of `addMagicNumber` calls ends in the batch update of the signature table. |
| Mimetics.Mimetics.AddMimeTypes | lib/mimetics.js:67-68 | The loop of `addMimeType` calls ends in the batch update of the MIME map. |
| Mimetics.Mimetics.AddFileTypes | lib/mimetics.js:67-68 | The loop of `addFileType` calls ends in the batch update of the pattern table. |
| Mimetics.Mimetics.AddEdgeCases | lib/mimetics.js:67-68 | The loop of `addEdgeCase` calls ends in the batch update of the edge-case table. |
| Mimetics.Mimetics.SetOptions | lib/mimetics.js:60-72 | The tables become `Apply(old tables, opts)`, and the same instance is returned. |
| Mimetics.Mimetics.GetFileTypeFromMagicNumbers | lib/mimetics.js:151-161 | The nested loops return exactly `MagicType`: the remapped first matching key, or null. |
| Mimetics.Mimetics.GetFileTypeFromTextContent | lib/mimetics.js:168-173 | The loop returns exactly the sniffed type of the decoded first 100 bytes. |
| Mimetics.Mimetics.GetFileType | lib/mimetics.js:138-144 | Returns exactly `FileTypeOf` of the instance's tables. |
| Mimetics.Mimetics.Parse | lib/mimetics.js:115-121 | Returns exactly `Parsed` of the instance's tables. |
| Definitions.TokensMatchSpec | lib/definitions.js:136 | A flat signature matches exactly when the buffer is at least as long and every position is accepted; a `'*'` wildcard accepts any byte at its position. |
| Definitions.ExactIsPositional | lib/mimetics.js:153 | Without wildcards the definition matcher is the positional equality of `getFileTypeFromMagicNumbers`. |
| Definitions.ZipMagicSpec | lib/definitions.js:1-8 | A buffer has the ZIP signature set exactly when its first four bytes are one of the three `PK` markers; shorter buffers never match. |
| Definitions.WavMagicSpec | lib/definitions.js:133-138 | The wav signature requires `RIFF` at bytes 0-3 and `WAVE` at bytes 8-11, and accepts anything at bytes 4-7. |
| Definitions.Mp3MagicSpec | lib/definitions.js:116-126 | The mp3 set matches exactly when one full alternative (`ID3`, `FF FB`, `FF F3`, `FF F2`) is a prefix; a one-byte buffer never matches. |
| Definitions.MkvWebmSame | lib/definitions.js:97-108 | `mkv` and `webm` have equal signatures, so a buffer matches one exactly when it matches the other. |
| Definitions.WebpAviExclusive | lib/definitions.js:60-96 | The `webp` and `avi` signatures share `RIFF` but no buffer matches both. |
| Definitions.CanonicalExt | lib/definitions.js:13 | The canonical extension is non-empty, one of the record's extensions, and the first of a list. |
| Definitions.ExtsValid | lib/definitions.js:10-424 | Every record has at least one extension, and none is empty. |
| Definitions.CanonicalExts | lib/definitions.js:12-146 | `jpg` is the canonical extension of jpeg, and `zip` that of zip and epub. |
| Definitions.ZipFamily | lib/definitions.js:140-210 | `zip`, `docx`, `xlsx` and `pptx` share the ZIP set; `zip` is flagged `zipped`; each OOXML record lists `[Content_Types].xml` and one part path of its own. |
| Definitions.OnlyZipFlaggedInTable | lib/definitions.js:10-424 | No record but `zip` has `zipped: true`. |
| Definitions.TifTwins | lib/definitions.js:36-47 | The two `tif` records agree on every field but `magic`. |
| Definitions.OnlyTifTwinsInTable | lib/definitions.js:10-424 | They are the only records of type `tif`, so only an identity tells them apart. |

## Left out

- The scored detector of types.d.ts (`parseSync`, `parseAsync`, `fromName`, `fromFile`) and the weights of lib/constants.js: their implementation is not part of this model. Only its definition table is modelled; its `pattern` fields are kept as source text, with no matcher.
- The `Proxy` export (lib/mimetics.js:218-226): it is reflection over property access.
- The process-wide singleton (lib/mimetics.js:45-47): a second `new Mimetics(opts)` returns the first instance with `opts` applied. Here each constructor builds a fresh instance. The sharing of the required table modules between instances is global state and is also not modelled.
- The computed method names of `setOptions` (lib/mimetics.js:64-66): the four labels are a closed datatype, so the INVALID_METHOD error cannot arise.
- UTF-8 decoding (lib/mimetics.js:180-184): `TextDecoder` and `Buffer.toString` are host calls, and the `decode` parameter stands for them. The model covers the browser path and the Node path for a Node `Buffer`.
- Node's path for any other `Uint8Array` (lib/mimetics.js:183), which every `ArrayBuffer` input takes after the view of lib/mimetics.js:140: there `toString` is `Array.prototype.toString`. It ignores its arguments and joins every byte of the buffer in decimal with commas. Such text matches none of the built-in patterns, so the source returns `txt` where a Node `Buffer` with the same bytes may give another type, and a custom pattern sees bytes past the first 100. `decode` gets only the first 100 bytes and not the input's kind, so it cannot express this.
- The `instanceof` tests (lib/mimetics.js:129): they are the `Input` datatype. Its binary case carries only the bytes, so a `Uint8Array`, an `ArrayBuffer` and a Node `Buffer` with the same bytes are the same input.
- `new Mimetics(null)` and `setOptions(null)` (lib/mimetics.js:44, 60, 63): the default `opts = {}` replaces only `undefined`, so a `null` argument makes `opts[label]` throw a `TypeError`. `Options` has no null value, so this error path is not modelled.
- lib/mimes is not part of this model: the MIME table is a parameter.
- JavaScript's ordering of integer-like keys (which iterate first, in numeric order) and the `__proto__` key: table keys are ordered purely by insertion.
- Arbitrary regular expressions given to `addFileType`: only the fragment the built-in patterns use is modelled, with ASCII-only case folding.
- The error message texts of lib/const.js:18-23: only the error kinds are modelled.
- Non-array values under `magic` and non-string list elements under `edge`: they are typed as integer lists and string lists.
- test/test.js and test/tester.js: fixtures for file reading and for the scored detector.
