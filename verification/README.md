# conflag in Dafny

A model of conflag. The library fills a Go destination struct from three
sources:

- the values the struct already holds (the defaults);
- an INI-like config file of `# comments`, `[category]` headers and
  `key = value` entries;
- command-line flags: `--long`, its inverse, `-x`, and runs such as `-xyz`.

The model follows the library's own structure, one module per Go file:

| module | Go file | form |
|---|---|---|
| `Naming` | field.go (name derivation) | pure functions and lemmas |
| `Fields` | field.go (the field record and its setters) | class `Field`, with a `FieldState` snapshot and `Action`s |
| `Schema` | field.go and configuration.go (`processField`, `New`'s shape checks) | pure functions over an explicit description of the destination |
| `Configuration` | configuration.go, find_config_file.go, read_config.go | class `Config` with the builder methods, `FindConfigFile` and `Read` |
| `Locate` | find_config_file.go | the specification of the backward scan and of the source choice |
| `ConfigFile` | config_file.go | a specification `ParseFrom` and the loops proved against it |
| `CommandLine` | command_line.go | the specifications `FlagIndices` and `ScanFrom`, and the loops proved against them |
| `Convert`, `ReadConfig` | read_config.go | `Conversion` (readValue) and `Reconcile`, the order of the stages, with the methods proved against them |
| `Usage` | usage.go | pure functions, plus the word-wrap loop proved against the greedy wrap |

`Text`, `Sources` and `Wrappers` hold the Go string operations, the reader
and file system, and the `Option`/`Result` types.

Each field record is a `Fields.Field` object. Its `State()` is a
`FieldState` value, and a configuration's records give a `Registry`, a map
from registry key to state. The file parser and the tokenizer only ever
mark a field found, possibly with a raw value. Each is specified by the
sequence of `Action`s it performs (`Set(key, raw)` or `Mark(key)`).
`Apply` folds those actions over a registry. Every imperative reader is
proved to leave `Snapshot(fields) == Apply(old(Snapshot(fields)), actions)`
for exactly the actions its specification function yields. The
destination struct is one `Slot` object per field. `Destinations(fields)`
reads the slots, and only readValue writes them.

Go's map iteration is replaced by an explicit key order, the
`fieldKeysInOrder` that usage.go reads. Panics are returned as
`Error.Panic` values, and the operation stops there. `os.Open` looks
paths up in a `Disk` map from path to lines. A reader is a `Source`
holding its lines, whether it implements `io.Closer`, and whether it has
been closed.

Where the code departs from the library's described design, the model
follows the code:

- A nested field's long flag is the category with `-` for `_`, then `.`,
  then the flag (field.go:186), not `category-flag`.
- readConfigFile closes the reader only when the whole file was read
  without error (config_file.go:59-80). It does not close it after a
  failed parse.
- `Field` panics on an unknown key (configuration.go:177-187). The
  interface comment says it returns nil.

The two exceptions are the two rows of "## Findings". There
`Configuration.Config.FindConfigFile`, `Configuration.Find`,
`Configuration.Config.Read` and `Configuration.Config.ReadFound` use the
corrected scan `Locate.Locate` and the corrected open `Locate.Open`. The
code as written is modelled beside them, as `Locate.LocateAsWritten` and
`Locate.OpenAsWritten`.

## Model

| member | source | states |
|---|---|---|
| `Text.IndexOf` | config_file.go:58 | the first position of the character, or none exactly when it does not occur |
| `Text.IndexAfter` | config_file.go:58-66 | in `a + c + b` with no `c` in `a`, the first `c` is right after `a` and the pieces on each side are `a` and `b` |
| `Text.Split` | usage.go:215 | splitting yields at least one piece, and no piece holds the separator |
| `Text.JoinSplit` | usage.go:215-233 | joining the pieces of a split with the separator gives back the string |
| `Text.SplitJoin` | usage.go:163-183 | splitting a join of separator-free pieces gives back the pieces |
| `Text.TrimLeftDrops` | config_file.go:48 | left trimming keeps a suffix that starts with no space, and drops only spaces |
| `Text.TrimRightDrops` | config_file.go:48 | right trimming keeps a prefix that ends with no space, and drops only spaces |
| `Text.TrimmedEnds` | config_file.go:48 | a trimmed line neither starts nor ends with white space |
| `Naming.SnakeCase` | field.go:173-180 | a derived name holds no ASCII upper-case letter |
| `Naming.UnderscoredOnlyInserts` | field.go:173-179 | the case-transition rewrite only inserts underscores; every other character stays, in order |
| `Naming.UnderscoredWithoutBoundary` | field.go:173-179 | a name with no lower/digit-to-upper or lower-to-upper/digit boundary is left unchanged |
| `Naming.SnakeCaseAvoids` | field.go:173-180 | a character other than `_` or a letter that is absent from the name is absent from the snake-case name |
| `Naming.DerivedNamesHaveNoDot` | field.go:177-187 | derived file keys and categories never contain `.`, so a fresh field obeys the FileCategory/FileKey rule |
| `Naming.LongFlagRoundTrip` | field.go:181 | a top-level long flag is the file key with `-` for `_`: it holds no `_`, and turning `-` back gives the file key |
| `NamingExamples.TopLevelExample` | field.go:173-192 | `IntField` gets file key `int_field`, long flag `int-field`, no category and registry key `IntField` |
| `NamingExamples.NestedExample` | field.go:182-192 | `StructField.IntField` gets category `struct_field`, long flag `struct-field.int-field` and registry key `StructField.IntField` |
| `NamingExamples.DigitsExample` | field.go:173-180 | `Float32Field` becomes `float_32_field`, and matches do not overlap (`a1B` becomes `a_1b`) |
| `Fields.Fresh` | field.go:173-205 | a fresh record has the given kind; it is not required, not found, has no raw value, no short or inverse flags and an empty description; its file key, category and long flag are the derived defaults, and it is well named |
| `Fields.Field.constructor` | field.go:194-205 | the new record holds exactly the given attributes and writes to the given slot |
| `Fields.Field.Usage` | field.go:210-213 | only the description changes |
| `Fields.Field.Required` | field.go:215-218 | only `required` changes, to true |
| `Fields.Field.LongFlag` | field.go:220-223 | only the long flag changes |
| `Fields.Field.InverseLongFlag` | field.go:225-231 | the flag is stored first; then a non-boolean field panics |
| `Fields.Field.ShortFlag` | field.go:233-236 | only the short flag changes |
| `Fields.Field.InverseShortFlag` | field.go:238-246 | the flag is stored first; then a non-boolean field panics |
| `Fields.Field.FileCategory` | field.go:248-256 | a category holding `.` panics and changes nothing; otherwise only the category changes; the record stays well named |
| `Fields.Field.FileKey` | field.go:258-264 | a key holding `.` panics and changes nothing; otherwise only the key changes; the record stays well named |
| `Fields.Apply` | config_file.go:71-73 | the readers' writes keep the registered keys and change nothing but `found` and the raw value |
| `Fields.ApplyAt` | config_file.go:71-73 | after the writes a field is found iff it was before or some write names it, and holds the last raw value set, else its old one |
| `Fields.Untouched` | config_file.go:68-73 | a field no write names keeps its whole state |
| `Fields.ApplyConcat` | read_config.go:55-62 | two runs of writes in turn are the writes of both in order |
| `Fields.LaterRunWins` | read_config.go:55-66 | across two runs the second run's last value wins, then the first's, then the old one; found if either names the field |
| `Fields.SettingsKept` | command_line.go:54-66 | a field's flags, names, kind and description survive any writes |
| `Fields.Perform` | config_file.go:71-73 | writing one action into the records is one step of `Apply` |
| `Schema.Leaf` | field.go:159-205 | a scalar is registered iff its kind is in the allowed table, under its registry key, with the value it holds and the fresh record of the table's kind and the derived names; otherwise the type error names the kind |
| `Schema.Nested` | field.go:139-157 | a successful nested struct registers one record per member |
| `Schema.NestedSucceeds` | field.go:139-171 | a nested struct registers iff every member is a scalar of an allowed kind |
| `Schema.TopLevelSucceeds` | configuration.go:162-173 | New's loop succeeds iff every leaf has an allowed kind and no struct sits inside a struct member |
| `Schema.DeepNestingRejected` | field.go:139-144 | a struct inside a struct member fails with the nesting error |
| `Schema.NestedEntriesFresh` | field.go:139-205 | a nested struct registers only accepted scalars; the i-th entry is member i's, under `prefix.name`, with the fresh record of its kind and the names derived from prefix and name |
| `Schema.TopLevelEntriesFresh` | configuration.go:162-173 | every record New registers is fresh and well named, every member is accepted, and the entries are `Registered`: one per scalar member and one per member of a struct member, in member order, each with its kind's fresh record and derived names |
| `Schema.NotStructRejected` | configuration.go:139-149 | a non-pointer or a pointer to a non-struct fails with the pointer error |
| `Sources.Source.CloseIfCloser` | config_file.go:78-80 | the reader ends closed iff it was closed before or implements io.Closer |
| `Sources.Open` | find_config_file.go:92 | an existing path yields a fresh, open, closable reader over its lines; any other path yields an error naming it |
| `Locate.ScanSkip` | find_config_file.go:62-86 | the backward scan passes over tokens that are not a set config-file flag |
| `Locate.NoFlagGiven` | find_config_file.go:46-94 | without a flag token the args come back unchanged, nothing is closed, and the default reader, else the default name, else no source is chosen |
| `Locate.FlagGiven` | find_config_file.go:62-93 | one flag with a value: the value is the file to open, the default reader is closed, and the pair is removed while the other args keep their order |
| `Locate.FlagLast` | find_config_file.go:75-78 | a flag as last token fails with "Missing config file name" |
| `Locate.FlagTwice` | find_config_file.go:62-71 | a second flag fails with the duplicate error and closes the default reader |
| `Locate.EmptyArgumentTakenAsFlag` | find_config_file.go:52-63 | as written, an empty argument matches the unset long flag's spelling and takes the next argument as file name; the corrected scan leaves both alone |
| `Locate.Open` | find_config_file.go:88-93 | opening fails iff a flagged path is missing; an unopenable default name counts as no source; the args are kept |
| `Locate.MissingDefaultFile` | find_config_file.go:88-93 | for a default file name that does not exist, the code returns the open error while the documented behaviour is no source |
| `ConfigFile.FileIndex` | config_file.go:85-97 | the index holds exactly the fields with a file key, each under `category.key` or `key` |
| `ConfigFile.ParsedKeys` | config_file.go:58-73 | the parse writes only fields that the index points to |
| `ConfigFile.EntryLine` | config_file.go:58-66 | an entry splits at its first `=`, later `=` stay in the value, and key and value are trimmed |
| `ConfigFile.EntryAt` | config_file.go:58-66 | a line that is no comment or header, with its first `=` at `i`, is the entry split at `i` |
| `ConfigFile.HeaderLine` | config_file.go:53-56 | `[name]` sets the category to `name` trimmed, and `[]` to none |
| `ConfigFile.CommentLine` | config_file.go:48-51 | a `#` line is skipped |
| `ConfigFile.OnlyIndexedFieldsChange` | config_file.go:68-73 | a field outside the index keeps its whole state, `found` included |
| `ConfigFile.LastEntryWins` | config_file.go:71-73 | a field is found iff some entry names it, and holds the value of the last such entry |
| `ConfigFile.BuildConfigFileIndex` | config_file.go:85-97 | the loop builds exactly `FileIndex` |
| `ConfigFile.ReadLines` | config_file.go:46-74 | the scanner loop performs exactly the parse's writes and stops with its error: a malformed line or an unknown key |
| `ConfigFile.ParseFromSucceeds` | config_file.go:46-74 | from a line on, under the category in force there, the parse ends without error iff no later line is offending |
| `ConfigFile.ParseFromFirstError` | config_file.go:59-70 | the parse stops with the error of the first offending line |
| `ConfigFile.ParseErrors` | config_file.go:46-74 | readConfigFile fails iff some line is malformed or is an entry whose key, qualified by the category in force, is not indexed; the error is "Invalid configuration line: " and the trimmed line, or "Invalid configuration file key: " and the qualified key, of the first such line |
| `ConfigFile.TabbedLine` | config_file.go:48 | a line indented by two tabs trims to its text |
| `ConfigFile.SpacedEntry` | config_file.go:58-66 | `key = value` is the entry of that key and value |
| `ConfigFile.TabbedSpacedEntry` | config_file.go:48-66 | a `key = value` line indented by two tabs is the entry of that key and value |
| `ConfigFile.InvalidLineExample` | config_file.go:59-61 | the file of config_file_test.go's TestInvalidConfigLineFails fails with "Invalid configuration line: uint_field 50" |
| `ConfigFile.InvalidKeyExample` | config_file.go:68-70 | the file of TestInvalidKeyFails fails with "Invalid configuration file key: uint_fied" |
| `ConfigFile.ReadConfigFile` | config_file.go:42-82 | the file's writes as the parse says, no slot touched, and the reader closed iff it is a closer and the read succeeded |
| `CommandLine.Bound` | command_line.go:111-125 | the flags bound are the given ones except the zero rune or the empty string |
| `CommandLine.Bind` | command_line.go:111-136 | binding adds exactly the set flags, each to the field |
| `CommandLine.FlagIndices` | command_line.go:105-139 | the indexes hold exactly the set short and long flags, each bound to a field that has it as flag or inverse flag |
| `CommandLine.IndicesStep` | command_line.go:110-137 | the indexes over one more field extend the indexes over the fields before it |
| `CommandLine.BindSucceeds` | command_line.go:111-136 | one inner loop succeeds iff its set flags are distinct and none is bound yet |
| `CommandLine.FlagIndicesSucceed` | command_line.go:105-139 | buildFlagIndices panics iff some set short flag or set long flag, inverse flags included, is bound twice |
| `CommandLine.BindErrSticks` | command_line.go:113-120 | a panic in the inner loop ends it |
| `CommandLine.IndicesErrSticks` | command_line.go:110-137 | a panic on some field ends the whole build |
| `CommandLine.LongFlag` | command_line.go:49-67 | a `--name` token takes the next token only when there is one |
| `CommandLine.ShortRun` | command_line.go:68-93 | a `-xyz` run takes the next token only when there is one |
| `CommandLine.FlagToken` | command_line.go:49-93 | a flag token that reads a value leaves a value token after it |
| `CommandLine.ShortRunShares` | command_line.go:68-93 | in a successful run every rune is a flag; booleans set "true"/"false", the others all set the same next token, taken iff some rune is not boolean |
| `CommandLine.ShortRunTouches` | command_line.go:68-92 | a run, even a failing one, writes only indexed fields |
| `CommandLine.ScanFlagStep` | command_line.go:48-97 | after a flag token the scan resumes past it and its value, if it took one |
| `CommandLine.OnlyFlaggedFieldsChange` | command_line.go:48-97 | the tokenizer writes only fields bound to some flag |
| `CommandLine.DisallowedExtrasFail` | command_line.go:99-101 | once an extra argument was met with extras not allowed, the read fails |
| `CommandLine.NoExtrasUnlessAllowed` | command_line.go:99-102 | a successful read with extras not allowed returns none |
| `CommandLine.PlainExtras` | command_line.go:46-96 | the unconsumed plain tokens are plain tokens of the arguments |
| `CommandLine.FlagTokenConsumes` | command_line.go:49-93 | a flag token read without error takes the next token iff it names a non-boolean field and a next token exists |
| `CommandLine.ExtrasKept` | command_line.go:46-102 | the extras returned are those met so far followed by exactly the plain tokens that no flag took as its value, in source order |
| `CommandLine.PlainArgsReturned` | command_line.go:94-102 | plain args with extras allowed come back in order and touch no field |
| `CommandLine.BindFlags` | command_line.go:111-136 | the inner loop computes `Bind` |
| `CommandLine.ExtendIndex` | command_line.go:111-135 | one field binds its short flags, then its long flags, failing on the first flag already bound |
| `CommandLine.BuildFlagIndices` | command_line.go:105-139 | the loop computes `FlagIndices`, panics included |
| `CommandLine.ReadLongFlag` | command_line.go:49-67 | the `--name` branch performs `LongFlag`'s writes and returns its error or whether it took a value |
| `CommandLine.ReadShortFlags` | command_line.go:68-93 | the rune loop performs `ShortRun`'s writes and returns its error or whether it took a value |
| `CommandLine.ReadFlagToken` | command_line.go:49-93 | one flag token performs `FlagToken`'s writes |
| `CommandLine.ScanCommandLine` | command_line.go:46-102 | the token loop performs exactly the scan's writes and returns its extras or error |
| `CommandLine.ReadCommandLineFlags` | command_line.go:40-103 | the indexes, then the scan; the records change as specified and no slot is touched |
| `Convert.ParseUint` | read_config.go:107 | an accepted unsigned value fits in 64 bits |
| `Convert.ParseInt` | read_config.go:98 | an accepted signed value fits in 64 bits |
| `Convert.UintRoundTrip` | read_config.go:106-114 | every unsigned 64-bit number reads back from its decimal spelling, and no larger one does |
| `Convert.IntRoundTrip` | read_config.go:97-105 | every signed 64-bit number reads back from its decimal spelling |
| `Convert.UintRejectsSign` | read_config.go:106-113 | an unsigned value with `+` or `-` is refused |
| `Convert.LeadingZero` | read_config.go:97-114 | a leading zero does not change the value |
| `Convert.OutOfRange` | read_config.go:97-114 | values just beyond 64 bits are refused, not wrapped |
| `Convert.Conversion` | read_config.go:79-129 | a stored value comes only from a found field and is of the field's kind and range |
| `Convert.ConversionFails` | read_config.go:79-129 | conversion fails iff a required field is missing or a number does not parse |
| `Convert.ConversionSkips` | read_config.go:80-88 | the slot is left alone iff the field is not found and optional |
| `Convert.RequiredNamesDescription` | read_config.go:80-86 | a missing required field's error names its description |
| `Convert.LenientBool` | read_config.go:91-96 | a found boolean never fails, and is true iff the raw value is exactly "true" |
| `Convert.NumbersRoundTrip` | read_config.go:97-114 | a found number spelled in decimal stores the number |
| `Convert.StringVerbatim` | read_config.go:124-125 | a found string is stored verbatim |
| `ReadConfig.ReconcileCombined` | read_config.go:55-66 | reading stage by stage equals applying the file's writes and then the flags' writes at once |
| `ReadConfig.CommandLineWins` | read_config.go:55-66 | a flag's value overrides the file's; a field named by either is found |
| `ReadConfig.StoreSucceeds` | read_config.go:67-72 | the conversions succeed iff every field from the position on converts |
| `ReadConfig.StoredValues` | read_config.go:67-72 | after successful conversions each slot holds its field's converted value if there is one, else its old value |
| `ReadConfig.StoreStep` | read_config.go:67-72 | one conversion either stops the loop with its error or writes its slot and goes on |
| `ReadConfig.RequiredFieldsFound` | read_config.go:46-75 | a successful read leaves every required field found |
| `ReadConfig.StoredSlot` | read_config.go:67-72 | after successful conversions an unfound field keeps its slot, and a found one holds its conversion |
| `ReadConfig.SlotsAfterRead` | read_config.go:46-75 | after a successful read a field no source supplied keeps its default, and a supplied one holds its converted value |
| `ReadConfig.ReadValue` | read_config.go:79-129 | readValue returns the conversion's error and writes its value, if any, into the slot |
| `ReadConfig.ReadField` | read_config.go:67-71 | readValue on one field changes only that field's slot, and no record |
| `ReadConfig.ReadValues` | read_config.go:67-72 | the loop stores the conversions in key order and stops at the first error |
| `ReadConfig.ReadAfterFile` | read_config.go:62-74 | the command line, then the conversions, as `AfterFile` says |
| `ReadConfig.ReadSources` | read_config.go:55-74 | the file if any, the command line, then the conversions, as `Reconcile` says; the file is closed iff it parsed and is a closer |
| `ReadConfig.ReadWithFile` | read_config.go:55-74 | with a file: an error in it stops the read with the file still open |
| `Configuration.EntryKeys` | configuration.go:162-173 | the keys are listed in member order |
| `Configuration.EntryRegistryLast` | field.go:194 | a registered key holds the record and slot value of an entry under that key, and every entry's key is registered |
| `Configuration.BuiltFresh` | configuration.go:136-173 | a successful build had a pointer to a struct of accepted members; it hands New the `Registered` entries, each fresh and well named |
| `Configuration.NewFieldsUnread` | field.go:194-205 | every field New registers starts not found, not required and with no raw value |
| `Configuration.Find` | find_config_file.go:41-95 | the corrected scan, then the corrected open (both Findings rows): an opened path exists on disk, and the default reader is chosen only when there is one |
| `Configuration.Chosen` | read_config.go:51-56 | there are lines to read iff a source was chosen |
| `Configuration.RequiredFileReported` | read_config.go:51-53 | with no default source and no flag, a required file is reported missing; otherwise only the command line is read |
| `Configuration.UnopenableDefaultIgnored` | configuration.go:62-65 | a default file name that cannot be opened counts as no file |
| `Configuration.SuccessfulRead` | read_config.go:46-75 | after a successful Read required fields are found, unsupplied fields keep their defaults, and supplied fields hold their converted values |
| `Configuration.NewRecord` | field.go:194-205 | a fresh record with a fresh slot holding the member's value |
| `Configuration.AddEntry` | configuration.go:162-173 | one more registered record and slot under the entry's key, appended to the key order, and nothing else changes |
| `Configuration.New` | configuration.go:136-175 | the shape error or the first rejected member; otherwise a fresh config with default options and one record per member, in member order |
| `Configuration.Config.constructor` | configuration.go:151-161 | no fields, no file name or reader, unset file flags, file not required, extras not allowed, and the given args |
| `Configuration.Config.Register` | field.go:194 | the record is added under its key and appended to the key order; the options stay |
| `Configuration.Config.Field` | configuration.go:177-187 | the registered record, or a panic naming the key |
| `Configuration.Config.ConfigReader` | configuration.go:189-197 | sets the default reader, or panics and changes nothing when a reader or file name is already set |
| `Configuration.Config.ConfigFile` | configuration.go:199-207 | sets only the file name, or panics and changes nothing when a reader or file name is already set |
| `Configuration.Config.ConfigFileShortFlag` | configuration.go:209-212 | only the short config-file flag changes |
| `Configuration.Config.ConfigFileLongFlag` | configuration.go:214-217 | only the long config-file flag changes |
| `Configuration.Config.ConfigFileRequired` | configuration.go:219-222 | only `fileRequired` changes, to true |
| `Configuration.Config.Args` | configuration.go:224-227 | only the args change, to exactly the given sequence |
| `Configuration.Config.AllowExtraArgs` | configuration.go:229-232 | only `extraArgsAllowed` changes, to true |
| `Configuration.Config.ProgramName` | usage.go:50-52 | only the program name that Usage shows first changes |
| `Configuration.Config.ProgramDescription` | usage.go:54-59 | only the program description that Usage shows second changes |
| `Configuration.Config.FindConfigFile` | find_config_file.go:41-95 | the source and args that `Find` chooses under the corrected scan and open (both Findings rows), or its error; the default reader is closed iff the scan overrides it |
| `Configuration.Config.Read` | read_config.go:46-75 | records, slots and result as `Reading` says, over the corrected scan and open (both Findings rows); the default reader is closed when overridden or read without error |
| `Configuration.Config.ReadFound` | read_config.go:48-74 | the locate error, then the required-file check, then the reading of the chosen source; the source comes from the corrected scan and open |
| `Usage.Lines` | usage.go:222-231 | one line per row |
| `Usage.WrapKeepsWords` | usage.go:214-233 | the wrap keeps every word, in order |
| `Usage.WrapFits` | usage.go:220-228 | no row of two or more words is wider than the width |
| `Usage.WrapGreedy` | usage.go:221-225 | a new row starts only when the next word does not fit on the row before |
| `Usage.WrapExtends` | usage.go:220-229 | closed rows stay, and the row being filled only grows |
| `Usage.RowsProperties` | usage.go:214-233 | the wrap keeps the words, fits and is greedy; its first row is empty iff the first word is too long |
| `Usage.LinesFit` | usage.go:220-231 | every output line of two or more words is at most `width` code points |
| `Usage.JoinRows` | usage.go:222-233 | joining non-empty rows by spaces is joining all their words by spaces |
| `Usage.WrapRestores` | usage.go:214-233 | spaces for line breaks give back the input when the first word fits; otherwise the output starts with an empty line |
| `Usage.WrapExample` | usage.go:220-233 | two one-letter words at width 1 go on two lines |
| `Usage.RestrictWidthByWords` | usage.go:214-234 | the word loop computes the greedy wrap `Wrap` |
| `Usage.JoinedLinesShort` | usage.go:163 | the lines of a joined block are no longer than its longest line |
| `Usage.KeyLines` | usage.go:96-121 | at most two key lines, and none iff no short flag, no long flag and no file key |
| `Usage.Widest` | usage.go:123-127 | the widest line's length, attained by some line |
| `Usage.FormatFieldKeys` | usage.go:84-132 | one section per field, its key lines joined, and no key line wider than the returned width |
| `Usage.KeyWidthAttained` | usage.go:123-127 | the returned width is that of some field's widest key line, or 0 |
| `Usage.SectionsWithin` | usage.go:128 | each key section splits back into lines no wider than the key width |
| `Usage.SideRows` | usage.go:169-181 | as many lines as the longer of the key and description columns |
| `Usage.SideLineColumns` | usage.go:170-180 | a side-by-side line starts with its key line, and its description line starts at column keysWidth + 4 |
| `Usage.SideBySideColumns` | usage.go:156-184 | a side-by-side block has max(key lines, description lines) lines, with descriptions at column keysWidth + 4 |
| `Usage.VerticalBlock` | usage.go:186-212 | a stacked block is the key lines, then a blank line and the description; the blank line only when both exist |
| `Usage.ArgBlocks` | usage.go:68-78 | one block per field |
| `Usage.NarrowWidthClamped` | usage.go:44-46 | a width under 10 gives the same text as width 10 |
| `Usage.NameFirst` | usage.go:48-81 | a program name comes first, wrapped, followed by a blank line when anything else follows |
| `Usage.KeyLinesExamples` | usage.go:96-121 | `-v`/`--verbose` with key `verbose` gives `  -v, --verbose` and `  verbose`; `net.port` alone gives `  net.port` |

## Left out

- Reflection: the destination is a `Schema.Destination`. That is a pointer or not, to a struct whose members are scalars of a reflect kind or one level of nested structs. `reflect.Value` walking and `Kind.String` for other kinds are not modelled.
- Go map iteration order (read_config.go:67, command_line.go:110, config_file.go:89) is replaced by the explicit key order `order`. Which of several errors or panics surfaces first is therefore the one first in that order.
- `Convert.Conversion`: a float field stores its raw text, unparsed, since floating point is not modelled. So a malformed float is accepted.
- `ReadConfig.ReadValue`: the 64-bit result is stored as is. The truncation `SetInt`/`SetUint` performs on a narrower field (int8, uint16, …) is not modelled.
- Real I/O: `os.Open` becomes a lookup in a `Disk`, and a reader becomes the lines a `bufio.Scanner` would yield. Scanner errors (config_file.go:75-77), over-long lines and other read errors are not modelled.
- `os.Args[1:]` (configuration.go:159) is passed to `New` as a parameter.
- `Naming.SnakeCase`: case folding is ASCII only. `strings.ToLower` (field.go:178, :183) also lowers non-ASCII upper-case letters, so a member named `Ärger` gets `ärger` in Go and `Ärger` here. Unicode case tables are not modelled.
- `Configuration.Config.FindConfigFile`, `Configuration.Find`, `Configuration.Config.Read` and `Configuration.Config.ReadFound` use the corrected scan and open of the two Findings rows. So they differ from find_config_file.go:53-63 when an empty argument meets an unset long config-file flag, and from find_config_file.go:88-93 when a default file name cannot be opened. The code as written is `Locate.LocateAsWritten` and `Locate.OpenAsWritten`.
- `Schema.Identifiers` does not require distinct member names, which every Go struct has. A repeated name would register its key twice in the key order; the model does not rule that out.
- `Configuration.Config.FindConfigFile`: `append(args[:i], args[i+2:]...)` also overwrites the backing array of the config's args. Only the returned sequence is modelled.
- `Configuration.Config.AllowExtraArgs`: the usage line it is given is not stored, as in the code.
- `Configuration.Config.ProgramName` and `Configuration.Config.ProgramDescription`: usage.go reads a program name, a description and `fieldKeysInOrder` that configuration.go neither declares nor sets. The model adds these two setters and keeps the key order in `New`.
- The usage text also reads a `description` attribute of the field that field.go does not declare; field.go's `usage` attribute plays that role here, set by `Fields.Field.Usage`.
- `Usage` changes nothing, so it is the function `Usage.UsageText` of the options and the registry, with no method around it.
- The superseded API in options.go, conflag.go, configs.go and flags.go is not part of this model, and neither is doc.go.
- Panics end the operation with an `Error.Panic` value. Unwinding is not modelled.

## Findings

| source | as written | input that shows it | evidently intended | confidence | as-written member | corrected member |
|---|---|---|---|---|---|---|
| find_config_file.go:53-63 | each argument is compared with the spellings of both config-file flags, and an unset flag is spelled "" | short flag `c` only, args `["", "settings.ini"]`: the empty argument is taken as the flag and `settings.ini` is opened as the config file | compare only with the flags that are set, so both arguments are left alone | not executed | `Locate.LocateAsWritten` (`Locate.EmptyArgumentTakenAsFlag`) | `Locate.Locate` (`Locate.NoFlagGiven`, `Locate.FlagGiven`) |
| find_config_file.go:88-93 | a default file name that cannot be opened returns the `os.Open` error, so Read fails | `ConfigFile("missing.ini")` with no such file and no flag | an unopenable default file is ignored, as the ConfigFile comment says (configuration.go:62-65); a flagged name is still an error | not executed | `Locate.OpenAsWritten` (`Locate.MissingDefaultFile`) | `Locate.Open` (`Configuration.UnopenableDefaultIgnored`) |
