# YAML updater and priority maps, modelled in Dafny

This project models the core of a small Bukkit configuration library (the
`me.croabeast.file` package). The model has two parts.

- **`YAMLUpdater`.** It merges the default configuration shipped in a plugin's
  jar into the user's copy on disk, working in four steps:
  1. It reads the comments of the default file line by line, and records each
     block of blank and `#` lines under the dotted path of the key that
     follows it.
  2. It copies some *ignored* sections verbatim out of the user's file.
  3. It writes every key of the default configuration in order. Each key gets
     its comment and the user's value when there is one, the default's
     otherwise.
  4. It writes the file only when the text changed.
- **The priority maps.**
  - `Mappable`, `HashMappable` and the `MapUtils` implementations map integer
    keys to collections of sections or units.
  - `Configurable` groups the child sections of a configuration by their
    `priority`.
  - `ConfigurableUnit` holds the default rules for permission, priority and
    group.
  - `UnitMappable.getUnit` finds the first unit whose permission a player
    holds.

Modules, one file each:

| file | module | models |
|---|---|---|
| `results.dfy` | `Results` | `Option`, `Result` and the Java exceptions the core can raise |
| `text.dfy` | `JavaText` | the `String` and `StringBuilder` behaviour relied on: `trim`, `startsWith`, `indexOf`, `split` with its dropping of trailing empty strings, `replace`, and the "separator only when the builder is not empty" idiom |
| `sections.dfy` | `Sections` | Bukkit's `ConfigurationSection` as an ordered tree: `get`, `contains`, `getConfigurationSection`, `getKeys(deep)`, `getString`, `getInt` |
| `raw.dfy` | `RawYaml` | the raw SnakeYAML map, `getKeyAsObject` and `getSection` |
| `keypath.dfy` | `KeyPaths` | the `KeyBuilder` class |
| `comments.dfy` | `CommentScan` | `parseComments` |
| `ignored.dfy` | `IgnoredSections` | `getIndents`, `addIndent`, `IgnoreBuilder` and `parseIgnored` |
| `merge.dfy` | `Merge` | the constructor and `update` |
| `mappable.dfy` | `Mappables` | `Mappable`, `HashMappable` and the `MapUtils` implementations, as one class |
| `units.dfy` | `Units` | `ConfigurableUnit` and `UnitMappable` |
| `configurable.dfy` | `Configurable` | the `Configurable` read helpers and `toSectionMap` |

Each loop of the source is a Dafny method with a `while` loop. It is proved
equal to a recursive specification function, and the properties are lemmas
about those functions:

- `KeyBuilder.parseLine`, and the loop of `removeLastKey` inside it;
- the reading loop of `parseComments` and its look-ahead;
- the child loop of `IgnoreBuilder.build`;
- the `forEach` and the parent-path loop of `parseIgnored`;
- the main loop of `update` and its loop over the ignored sections;
- `getIndents` and `addIndent`;
- `filter`, `order`, `copy`, `getStoredValues`, `toList`, `toSet` and
  `toUnits`;
- `getUnit`;
- `getList`, `toStringList`, `getSections` and `toSectionMap`.

Mutable objects are Dafny classes:

- `KeyBuilder`, whose `StringBuilder` is a `string` field;
- `IgnoreBuilder`, whose shared `ignored` builder is a `TextBuffer` object;
- `Mappable`, with its keys in iteration order as a `seq<int>` and its
  collections as a `map<int, seq<T>>`;
- `Unit`.

A Java exception becomes an `Err` result:

- `NullPointerException` for a null supplier, function or predicate;
- `IllegalArgumentException` from `getSection` and `build`;
- `ArrayIndexOutOfBoundsException` where the source indexes an empty `split`,
  or cuts the last character of an empty string.

One place where the model departs from the source text:

- `UnitMappable.getUnit` calls `unit.hasPerm(player)`
  (src/main/java/me/croabeast/file/UnitMappable.java:38).
- `ConfigurableUnit` declares no such method. The only permission test it has
  is `hasPermission(CommandSender)`
  (src/main/java/me/croabeast/file/ConfigurableUnit.java:62-64).
- `Units.GetUnit` uses `Unit.HasPermission`, the method the call evidently
  means.

## Model

| member | source | states |
|---|---|---|
| KeyPaths.Token | src/main/java/me/croabeast/file/YAMLUpdater.java:308-315 | the key a line declares holds no quote character |
| KeyPaths.TokenOfKeyLine | src/main/java/me/croabeast/file/YAMLUpdater.java:308-315 | a line `k: v`, with no further colon, declares the key `k` with its quotes removed |
| KeyPaths.TokenOfMultiColonLine | src/main/java/me/croabeast/file/YAMLUpdater.java:308-315 | a line `k: v` whose `split(":")` gives more than two parts declares the text `k` before its first `": "`, with its quotes removed |
| KeyPaths.TokenNone | src/main/java/me/croabeast/file/YAMLUpdater.java:308-315 | no key exactly where `current[0]` throws: when the trimmed line is one or more colons and nothing else |
| KeyPaths.DropLast | src/main/java/me/croabeast/file/YAMLUpdater.java:326-333 | `removeLastKey` leaves a prefix of the path, strictly shorter unless the path was empty |
| KeyPaths.DropLastAppended | src/main/java/me/croabeast/file/YAMLUpdater.java:326-333 | removing the last key of `p + "." + seg` gives back exactly `p`, for any `p` |
| KeyPaths.DropLastSingle | src/main/java/me/croabeast/file/YAMLUpdater.java:326-333 | a one-segment path becomes empty |
| KeyPaths.KeyBuilder.constructor | src/main/java/me/croabeast/file/YAMLUpdater.java:294-298 | a new builder holds the empty path over the given configuration |
| KeyPaths.KeyBuilder.Copy | src/main/java/me/croabeast/file/YAMLUpdater.java:300-304 | the copy holds the same path and the same configuration |
| KeyPaths.KeyBuilder.IsEmpty | src/main/java/me/croabeast/file/YAMLUpdater.java:335-337 | true exactly when the path has length 0 |
| KeyPaths.KeyBuilder.Clear | src/main/java/me/croabeast/file/YAMLUpdater.java:339-341 | the path becomes empty |
| KeyPaths.KeyBuilder.RemoveLastKey | src/main/java/me/croabeast/file/YAMLUpdater.java:326-333 | the path becomes `DropLast` of the old path; it fails, leaving the path as it was, exactly where the source throws; an empty path is unchanged |
| KeyPaths.KeyBuilder.ParseLine | src/main/java/me/croabeast/file/YAMLUpdater.java:306-324 | the new path is `ParseLineSpec` of the path on entry; with the check, validity is checked against the path captured on entry; it fails exactly where the source throws |
| KeyPaths.KeyBuilder.ReadToken | src/main/java/me/croabeast/file/YAMLUpdater.java:308-315 | the key of the line is `Token(line)`: none exactly where `current[0]` throws (see `TokenNone`) |
| KeyPaths.KeyBuilder.ExtendBy | src/main/java/me/croabeast/file/YAMLUpdater.java:317-323 | the path becomes `Extend` of the path on entry and the key; it fails exactly where `removeLastKey` throws inside the existence check |
| KeyPaths.ExtendNeverPartial | src/main/java/me/croabeast/file/YAMLUpdater.java:317-323 | under the existence check the new path is either `old + "." + key`, when that is a key of the configuration, or just `key`; it is never a path cut back part-way |
| CommentScan.ReadLines | src/main/java/me/croabeast/file/YAMLUpdater.java:77-82 | the lines `readLine` returns contain no line terminator |
| CommentScan.LineEnd | src/main/java/me/croabeast/file/YAMLUpdater.java:82 | a line ends at the first `\n` or `\r`, or at the end of the text |
| CommentScan.IndexIn | src/main/java/me/croabeast/file/YAMLUpdater.java:104-105 | `List.indexOf`: the first index holding the key, or -1 when no index does |
| CommentScan.PopUntil | src/main/java/me/croabeast/file/YAMLUpdater.java:109-110 | the look-ahead pops until the path is empty or is a plain string prefix of the next key |
| CommentScan.File | src/main/java/me/croabeast/file/YAMLUpdater.java:99-102 | a non-empty buffer is stored under the key path and nothing else changes; an empty buffer stores nothing |
| CommentScan.KeyLine | src/main/java/me/croabeast/file/YAMLUpdater.java:91-112 | after a key line the buffer is empty; a line with no leading space becomes the recovery anchor; the pending block is filed under the path |
| CommentScan.AfterKey | src/main/java/me/croabeast/file/YAMLUpdater.java:99-112 | the block is filed under the line's path, then the buffer is cleared and the anchor kept |
| CommentScan.ReadLine | src/main/java/me/croabeast/file/YAMLUpdater.java:83-112 | one turn of the loop on the key builder is exactly `StepLine`, and the builder ends holding the new path |
| CommentScan.ReadKeyLine | src/main/java/me/croabeast/file/YAMLUpdater.java:91-112 | the key-line branch of the loop on the key builder is exactly `KeyLine` |
| CommentScan.EnterLine | src/main/java/me/croabeast/file/YAMLUpdater.java:91-97 | a top-level line clears the builder before `parseLine`, and the builder ends holding `LinePath` |
| CommentScan.FinishKeyLine | src/main/java/me/croabeast/file/YAMLUpdater.java:99-112 | the rest of the key-line branch, filing and look-ahead, is exactly `AfterKey` |
| CommentScan.Settle | src/main/java/me/croabeast/file/YAMLUpdater.java:104-112 | the look-ahead on the builder is `Resettle`: pop until the path prefixes the next key, and re-seed an emptied path from the anchor without the check; when the key is not found, the next key is `keys[0]` |
| CommentScan.ScanLines | src/main/java/me/croabeast/file/YAMLUpdater.java:82-113 | the reading loop computes `Scan` of the lines, stopping at the first line that throws |
| CommentScan.ScanFailureSticks | src/main/java/me/croabeast/file/YAMLUpdater.java:82-113 | once a line throws, the whole scan throws that same failure |
| CommentScan.ParseComments | src/main/java/me/croabeast/file/YAMLUpdater.java:70-119 | returns `CommentsOf(text)`, and its blocks are well formed |
| CommentScan.ListItemsSkipped | src/main/java/me/croabeast/file/YAMLUpdater.java:84 | a line whose trimmed form starts with `-` leaves the scanner exactly as it was |
| CommentScan.TrimmedCommentLine | src/main/java/me/croabeast/file/YAMLUpdater.java:86-89 | a blank or `#` line is buffered in trimmed form, which is a comment line |
| CommentScan.LineBlock | src/main/java/me/croabeast/file/YAMLUpdater.java:86-89 | a buffered line followed by `"\n"` is a block |
| CommentScan.BlockExtend | src/main/java/me/croabeast/file/YAMLUpdater.java:86-89 | appending a trimmed comment line and `"\n"` to a block, or to nothing, gives a block |
| CommentScan.StepKeepsBlocks | src/main/java/me/croabeast/file/YAMLUpdater.java:83-112 | every turn of the loop keeps the buffer and all filed values as blocks |
| CommentScan.ScanBlocks | src/main/java/me/croabeast/file/YAMLUpdater.java:82-113 | after every line of the file, the buffer and all filed values are blocks |
| CommentScan.CommentsWellFormed | src/main/java/me/croabeast/file/YAMLUpdater.java:82-116 | every stored block, and the trailing one stored under `null`, is non-empty, is made of trimmed blank or `#` lines, and ends in `"\n"` |
| CommentScan.IndexOfPrefix | src/main/java/me/croabeast/file/YAMLUpdater.java:82 | the first line feed of a text is found before anything appended after it |
| CommentScan.TopLevelKeyPath | src/main/java/me/croabeast/file/YAMLUpdater.java:91-97 | a top-level line `k: v` declares the path `k`, whatever the builder held |
| CommentScan.TopLevelLineTakesBlock | src/main/java/me/croabeast/file/YAMLUpdater.java:91-102 | a top-level key line files the pending block under its own key and clears the buffer |
| RawYaml.ParseDecimal | src/main/java/me/croabeast/file/YAMLUpdater.java:140-151 | only a non-empty text parses as an integer |
| RawYaml.ParseInt | src/main/java/me/croabeast/file/YAMLUpdater.java:140-151 | `Integer.parseInt` and `Long.parseLong`: a value exactly when the decimal text is in the 32-bit or 64-bit range |
| RawYaml.DigitsRoundTrip | src/main/java/me/croabeast/file/YAMLUpdater.java:140-151 | the decimal digits of a magnitude are ASCII digits and read back as that magnitude |
| RawYaml.ParseDecimalOfText | src/main/java/me/croabeast/file/YAMLUpdater.java:140-151 | the decimal text `toString` writes for any number reads back as that number |
| RawYaml.ParseIntOfText | src/main/java/me/croabeast/file/YAMLUpdater.java:140-151 | `parseInt(toString(n))` and `parseLong(toString(n))` give `n` back within range and throw outside it, so a path segment finds the Integer or Long key it spells |
| RawYaml.KeyIndex | src/main/java/me/croabeast/file/YAMLUpdater.java:125-153 | the index of the first entry holding the key, or -1 when there is none |
| RawYaml.Candidates | src/main/java/me/croabeast/file/YAMLUpdater.java:125-153 | the literal string is tried first, and no candidate is the null key |
| RawYaml.FirstHeld | src/main/java/me/croabeast/file/YAMLUpdater.java:125-153 | picks a candidate the context holds, or null exactly when it holds none |
| RawYaml.FirstHeldAppend | src/main/java/me/croabeast/file/YAMLUpdater.java:125-153 | a later group of candidates is tried only when no earlier one is held |
| RawYaml.KeyAsObject | src/main/java/me/croabeast/file/YAMLUpdater.java:125-153 | the result is null or a key of the context, and the string wins whenever the context holds it |
| RawYaml.KeyAsObjectIsFirstHeld | src/main/java/me/croabeast/file/YAMLUpdater.java:125-153 | the result is the first held candidate of: the string, Float, Double, Integer, Long |
| RawYaml.FloatsFirstHeld | src/main/java/me/croabeast/file/YAMLUpdater.java:128-139 | Float is tried before Double |
| RawYaml.IntsFirstHeld | src/main/java/me/croabeast/file/YAMLUpdater.java:140-151 | Integer is tried before Long |
| RawYaml.NumericSegment | src/main/java/me/croabeast/file/YAMLUpdater.java:140-145 | a segment `10` resolves to the integer key 10 when the map holds no string `"10"` and no float key 10 |
| RawYaml.GetSection | src/main/java/me/croabeast/file/YAMLUpdater.java:155-170 | success exactly when every segment of the path names a map inside the map the earlier segments reach (otherwise `IllegalArgumentException`); the result is the map reached by all segments but the last, which holds the last segment as a map |
| RawYaml.DescendCons | src/main/java/me/croabeast/file/YAMLUpdater.java:163-169 | a path descends through its first segment's map and then the rest, both to its end and to its last segment but one, and stops where the first segment is no map |
| RawYaml.KeyText | src/main/java/me/croabeast/file/YAMLUpdater.java:247-248 | `toString` of a key: a null key throws, a string key gives itself |
| IgnoredSections.GetIndents | src/main/java/me/croabeast/file/YAMLUpdater.java:172-179 | the loop computes `Indents`: two spaces per segment after the first |
| IgnoredSections.IndentsOfPath | src/main/java/me/croabeast/file/YAMLUpdater.java:172-179 | a path of n segments is indented by n - 1 copies of two spaces |
| IgnoredSections.AddIndentLoop | src/main/java/me/croabeast/file/YAMLUpdater.java:181-191 | the loop computes `AddIndent` |
| IgnoredSections.IndentLines | src/main/java/me/croabeast/file/YAMLUpdater.java:184-190 | each line kept by `split` is prefixed, and they are joined by `"\n"` with no separator before the first non-empty output |
| IgnoredSections.AddIndentOneLine | src/main/java/me/croabeast/file/YAMLUpdater.java:181-191 | a single line is indented as a whole |
| IgnoredSections.AddIndentLines | src/main/java/me/croabeast/file/YAMLUpdater.java:181-191 | under a non-empty indent, every line gets the indent and the line structure is kept |
| IgnoredSections.AddIndentDropsFinalLineFeed | src/main/java/me/croabeast/file/YAMLUpdater.java:181-191 | a trailing line feed is lost, because `split` drops trailing empty strings |
| IgnoredSections.AddIndentLosesLeadingBlank | src/main/java/me/croabeast/file/YAMLUpdater.java:185-188 | under an empty indent, a blank first line is lost, because the builder is empty when it is appended |
| IgnoredSections.Prefixed | src/main/java/me/croabeast/file/YAMLUpdater.java:185-188 | each part with the indent in front |
| IgnoredSections.Qualified | src/main/java/me/croabeast/file/YAMLUpdater.java:219-220 | an empty prefix gets no separator |
| IgnoredSections.TextBuffer.constructor | src/main/java/me/croabeast/file/YAMLUpdater.java:282 | the shared builder starts empty |
| IgnoredSections.TextBuffer.Append | src/main/java/me/croabeast/file/YAMLUpdater.java:233-242 | appending adds exactly the text at the end |
| IgnoredSections.IgnoreBuilder.constructor | src/main/java/me/croabeast/file/YAMLUpdater.java:194-202 | the builder holds the given path, map, prefix and shared output |
| IgnoredSections.IgnoreBuilder.Build | src/main/java/me/croabeast/file/YAMLUpdater.java:214-255 | appends exactly `Block` to the shared output, or fails as `Block` does: `"Invalid ignored section: <full path>"` for an absent segment |
| IgnoredSections.IgnoreBuilder.WriteHead | src/main/java/me/croabeast/file/YAMLUpdater.java:230-237 | appends the optional comment, re-indented, then `indent + key + ":"` |
| IgnoredSections.IgnoreBuilder.WriteUnder | src/main/java/me/croabeast/file/YAMLUpdater.java:238-253 | appends `Under`: `" {}\n"` for an empty map, `"\n"` and each child's block for a non-empty map, otherwise the value; the prefix is restored |
| IgnoredSections.IgnoreBuilder.BuildChildren | src/main/java/me/croabeast/file/YAMLUpdater.java:245-250 | the child loop appends `Children`, the blocks of all keys in order, restoring the prefix between siblings |
| IgnoredSections.IgnoreBuilder.BuildChild | src/main/java/me/croabeast/file/YAMLUpdater.java:247-249 | one child builder shares the output and the path prefix |
| IgnoredSections.IgnoreBuilder.WriteIgnoredValue | src/main/java/me/croabeast/file/YAMLUpdater.java:204-212 | a collection goes on the next lines as the re-indented dump plus `"\n"`; anything else is `" "` plus the dump |
| IgnoredSections.Later | src/main/java/me/croabeast/file/YAMLUpdater.java:200 | text already written stays in front of what follows |
| IgnoredSections.LaterLater | src/main/java/me/croabeast/file/YAMLUpdater.java:200 | two writes in a row are one write of their concatenation |
| IgnoredSections.ChildrenStep | src/main/java/me/croabeast/file/YAMLUpdater.java:245-250 | the blocks from child j on are the block of child j followed by the rest |
| IgnoredSections.BlockEndsLine | src/main/java/me/croabeast/file/YAMLUpdater.java:214-255 | every rendered block ends in a line feed if dumps do, so consecutive blocks never share a line |
| IgnoredSections.UnderEndsLine | src/main/java/me/croabeast/file/YAMLUpdater.java:239-253 | what follows the colon ends in a line feed |
| IgnoredSections.ChildrenEndLine | src/main/java/me/croabeast/file/YAMLUpdater.java:245-250 | the children's blocks end in a line feed, or are empty |
| IgnoredSections.ChildEndsLine | src/main/java/me/croabeast/file/YAMLUpdater.java:247-249 | each child's block ends in a line feed |
| IgnoredSections.EndsLineAppend | src/main/java/me/croabeast/file/YAMLUpdater.java:200 | text that ends a line still does after appending nothing or another such text |
| IgnoredSections.ScalarBlock | src/main/java/me/croabeast/file/YAMLUpdater.java:214-255 | a scalar under a plain key is written as the key line and `" "` plus its dump |
| IgnoredSections.TopLevelEntry | src/main/java/me/croabeast/file/YAMLUpdater.java:268-283 | a top-level section is rendered from the root map with an empty prefix |
| IgnoredSections.ParentPath | src/main/java/me/croabeast/file/YAMLUpdater.java:275-280 | the loop joins every segment but the last with `.` |
| IgnoredSections.IgnoreSection | src/main/java/me/croabeast/file/YAMLUpdater.java:269-282 | one turn of the `forEach` yields exactly `Entry` for the section |
| IgnoredSections.ForEachSection | src/main/java/me/croabeast/file/YAMLUpdater.java:268-283 | the `forEach` computes `CollectFrom` over the sections in order |
| IgnoredSections.ParseIgnored | src/main/java/me/croabeast/file/YAMLUpdater.java:258-286 | returns `Ignored` of the sections and the loaded document |
| IgnoredSections.CollectFromOk | src/main/java/me/croabeast/file/YAMLUpdater.java:268-283 | on success, every section is stored under its own name with its block, and earlier entries are kept |
| IgnoredSections.CollectFromErr | src/main/java/me/croabeast/file/YAMLUpdater.java:268-283 | the collection fails with the failure of the first failing section |
| IgnoredSections.CollectFromAllOk | src/main/java/me/croabeast/file/YAMLUpdater.java:268-283 | the collection succeeds when every section does |
| IgnoredSections.IgnoredSpec | src/main/java/me/croabeast/file/YAMLUpdater.java:258-286 | the result holds exactly the sections named, each with its block; it fails exactly when some section fails |
| Merge.New | src/main/java/me/croabeast/file/YAMLUpdater.java:50-68 | the constructor computes `Load`: the comments of the default file, then the ignored sections; a null list counts as empty |
| Merge.LoadSpec | src/main/java/me/croabeast/file/YAMLUpdater.java:50-68 | a built updater has well-formed comments and holds a text for exactly the ignored sections named |
| Merge.UnderIgnoredLoop | src/main/java/me/croabeast/file/YAMLUpdater.java:381-387 | true exactly when some non-empty ignored path followed by `.` is a prefix of the key |
| Merge.WriteKey | src/main/java/me/croabeast/file/YAMLUpdater.java:372-423 | one turn of the main loop writes exactly `Emit` of the key |
| Merge.WriteValue | src/main/java/me/croabeast/file/YAMLUpdater.java:398-423 | the value part is exactly `ValueLines` |
| Merge.ValueAt | src/main/java/me/croabeast/file/YAMLUpdater.java:398-399 | the user's value when present, the default's otherwise |
| Merge.Update | src/main/java/me/croabeast/file/YAMLUpdater.java:367-436 | the text is `Merged(u)`; the file is written only when that text differs from the existing contents, so a run whose existing text already equals the merged text writes nothing |
| Merge.IgnoredCopied | src/main/java/me/croabeast/file/YAMLUpdater.java:374-379 | a key equal to an ignored path emits exactly its cached block |
| Merge.BelowIgnoredSkipped | src/main/java/me/croabeast/file/YAMLUpdater.java:381-387 | a key strictly below an ignored path emits nothing |
| Merge.CurrentWins | src/main/java/me/croabeast/file/YAMLUpdater.java:398-399 | where the user has a value, the default makes no difference to what is written |
| Merge.DefaultFills | src/main/java/me/croabeast/file/YAMLUpdater.java:398-399 | where the user has no value, what is written depends only on the default |
| Merge.SingleLineValue | src/main/java/me/croabeast/file/YAMLUpdater.java:413-423 | a value that dumps as one line is written on one line at the depth of its path |
| Merge.CommentLinesIndented | src/main/java/me/croabeast/file/YAMLUpdater.java:390-396 | each comment line is prefixed by the key's indent and the block ends in a single `"\n"` |
| Merge.ReindentStep | src/main/java/me/croabeast/file/YAMLUpdater.java:390-396 | one line more in front of a comment adds that line, indented |
| Merge.WrittenBehind | src/main/java/me/croabeast/file/YAMLUpdater.java:371-424 | text already in the writer stays in front of what the remaining keys write |
| Merge.WrittenFirst | src/main/java/me/croabeast/file/YAMLUpdater.java:371-424 | the merged text is the first key's text followed by the rest's, or the first failure |
| JavaText.SplitJoin | src/main/java/me/croabeast/file/YAMLUpdater.java:330 | `split` on the separator gives back the segments of a path whose last segment is not empty |
| JavaText.SplitDropsTrailingSeparator | src/main/java/me/croabeast/file/YAMLUpdater.java:183 | a separator at the end makes no difference to `split` unless it is the whole text |
| JavaText.PiecesSplitFirst | src/main/java/me/croabeast/file/YAMLUpdater.java:156 | the pieces of a path are the segment `split(regex, 2)` cuts off, then the pieces of the rest |
| JavaText.IndexOfAfter | src/main/java/me/croabeast/file/YAMLUpdater.java:313 | in `k + ": " + v` with no colon in `k`, the first `": "` comes right after `k` |
| JavaText.PiecesLastEmpty | src/main/java/me/croabeast/file/YAMLUpdater.java:310-313 | the last piece of a split is empty only when the text is empty or ends with the separator |
| JavaText.SplitKeepsPieces | src/main/java/me/croabeast/file/YAMLUpdater.java:310-313 | a non-empty text not ending with the separator keeps every piece, so its split is not empty |
| JavaText.PiecesOfSeparators | src/main/java/me/croabeast/file/YAMLUpdater.java:310 | a text of separators only splits into empty pieces |
| JavaText.PiecesEmptyOnlySeparators | src/main/java/me/croabeast/file/YAMLUpdater.java:310 | a text whose pieces are all empty is made of separators only |
| JavaText.DropAllEmpty | src/main/java/me/croabeast/file/YAMLUpdater.java:310 | `split` drops a run made only of empty strings entirely |
| JavaText.SplitEmptyOnlySeparators | src/main/java/me/croabeast/file/YAMLUpdater.java:310 | `split(":")` gives nothing exactly for a non-empty text of colons only |
| Sections.GetPlainKey | src/main/java/me/croabeast/file/Configurable.java:73 | a path without a dot is looked up among the direct entries |
| Sections.Qualify | src/main/java/me/croabeast/file/Configurable.java:203 | a deep key of a child is the child's name, a dot and its own path |
| Sections.Lookup | src/main/java/me/croabeast/file/Configurable.java:73 | finds a value exactly when an entry has that name, and the value is that entry's |
| Sections.SectionAt | src/main/java/me/croabeast/file/Configurable.java:168 | a section exactly when the path holds a section value |
| Sections.NamesAreDeepKeys | src/main/java/me/croabeast/file/Configurable.java:201-204 | every direct child name is among the deep keys |
| Sections.Wrap32 | src/main/java/me/croabeast/file/ConfigurableUnit.java:115 | `intValue` of an integral number: the `int` congruent to it modulo 2^32 |
| Sections.Wrap32Fits | src/main/java/me/croabeast/file/ConfigurableUnit.java:115 | a number that fits an `int` keeps its value |
| Sections.IntValue | src/main/java/me/croabeast/file/ConfigurableUnit.java:115 | a `Number` of any class has an `intValue` (itself for an Integer, its low 32 bits for a Long, the truncation for a Double), anything else none |
| Sections.GetInt | src/main/java/me/croabeast/file/Configurable.java:341 | `getInt(path, def)`: the `intValue` of a number at the path, else `def` |
| Sections.SectionText | src/main/java/me/croabeast/file/Configurable.java:285-287 | `get("")` of the root prints as `YamlConfiguration[path='', root='YamlConfiguration']`; a nested section as `MemorySection` with its own path |
| Configurable.GetAs | src/main/java/me/croabeast/file/Configurable.java:71-77 | the value when it is an instance of the class (String, Integer, Long, Double/Float, Number, List, section or Object); null, not an exception, otherwise or for a null class |
| Configurable.NumberInstances | src/main/java/me/croabeast/file/Configurable.java:71-77 | `Number.class` admits exactly the values with an `intValue`: the Integer, Long and Double/Float ones |
| Configurable.GetAsLong | src/main/java/me/croabeast/file/Configurable.java:71-77 | a Long comes back for `Long.class` and `Number.class`, and is null for `Integer.class` |
| Configurable.GetOr | src/main/java/me/croabeast/file/Configurable.java:88-94 | the value at the path, or `def` when there is none |
| Configurable.GetList | src/main/java/me/croabeast/file/Configurable.java:114-126 | never empty: a list path yields its elements, or `[def]` if it has none; any other path yields `[get(path, def)]` |
| Configurable.GetSection | src/main/java/me/croabeast/file/Configurable.java:167-169 | a blank or null path is the whole configuration; otherwise it is the sub-section, or null |
| Configurable.GetKeys | src/main/java/me/croabeast/file/Configurable.java:201-204 | empty when the section is missing, otherwise its keys |
| Configurable.PutEntry | src/main/java/me/croabeast/file/Configurable.java:232 | `LinkedHashMap.put`: the new entry is present, other keys are kept, and nothing else is added |
| Configurable.SectionsOf | src/main/java/me/croabeast/file/Configurable.java:229-233 | every entry pairs a key with the section it names |
| Configurable.SectionsOfComplete | src/main/java/me/croabeast/file/Configurable.java:229-233 | every key that names a section is present |
| Configurable.CollectSections | src/main/java/me/croabeast/file/Configurable.java:230-233 | the loop computes `SectionsOf` |
| Configurable.GetSections | src/main/java/me/croabeast/file/Configurable.java:225-236 | empty when the section is missing, otherwise the key/section pairs |
| Configurable.GetSectionsEntries | src/main/java/me/croabeast/file/Configurable.java:225-236 | exactly the pairs of a key and its section, over the keys that name sections |
| Configurable.ToStringList | src/main/java/me/croabeast/file/Configurable.java:281-299 | `def` for a null section, an absent value or an empty list; `[value.toString()]` for a present non-list value; for a non-empty list, `NullPointerException` exactly when an element is null, and the element-wise `toString`, in order, otherwise |
| Configurable.ToStringListOrEmpty | src/main/java/me/croabeast/file/Configurable.java:308-310 | the same with an empty default: empty exactly for a null section, an absent value or an empty list; an exception exactly for a list holding a null |
| Configurable.AddToSet | src/main/java/me/croabeast/file/Configurable.java:343-345 | adding to a set keeps it a set, holding the old elements and the new one |
| Configurable.GroupedDistinct | src/main/java/me/croabeast/file/Configurable.java:333-346 | every priority group is a set |
| Configurable.GroupedSound | src/main/java/me/croabeast/file/Configurable.java:333-346 | a section sits under a priority only if a key names it and it has that priority |
| Configurable.GroupedComplete | src/main/java/me/croabeast/file/Configurable.java:333-346 | every child section sits under its own priority |
| Configurable.Group | src/main/java/me/croabeast/file/Configurable.java:333-348 | the loop builds `GroupedBy`, as an insertion-ordered set map |
| Configurable.ToSectionMap | src/main/java/me/croabeast/file/Configurable.java:324-349 | empty for a null section, a non-section sub-path or no keys; otherwise the child sections grouped by `getInt("priority", def)`, a number of any class ranking by its `intValue`, with the priorities descending |
| Configurable.SectionMapGroups | src/main/java/me/croabeast/file/Configurable.java:333-346 | under each priority, exactly the child sections of that priority (the `intValue` of a number under `priority`, else 0 for the default permission and 1 otherwise), once each |
| Units.PermissionOf | src/main/java/me/croabeast/file/ConfigurableUnit.java:52-54 | the `permission` value, `"DEFAULT"` when absent |
| Units.PriorityOf | src/main/java/me/croabeast/file/ConfigurableUnit.java:113-116 | a number of any class under `priority` ranks by its `intValue`; otherwise 0 for the default permission and 1 otherwise |
| Units.ImplicitPriority | src/main/java/me/croabeast/file/ConfigurableUnit.java:113-116 | without a number under `priority` the rank is 0 or 1, and 0 exactly when the permission matches `default` ignoring case |
| Units.IntegralPriority | src/main/java/me/croabeast/file/ConfigurableUnit.java:113-116 | an Integer priority ranks as itself, a Long or BigInteger one by its low 32 bits, a Double one by its `intValue` |
| Units.WidePriority | src/main/java/me/croabeast/file/ConfigurableUnit.java:113-116 | `priority: 3000000000` ranks -1294967296 |
| Units.BareSectionPriority | src/main/java/me/croabeast/file/ConfigurableUnit.java:52-116 | a section with neither key has permission `"DEFAULT"` and priority 0 |
| Units.Unit.constructor | src/main/java/me/croabeast/file/ConfigurableUnit.java:129-141 | a unit over the given section and group test |
| Units.Unit.Permission | src/main/java/me/croabeast/file/ConfigurableUnit.java:52-54 | the unit's `permission` value as text, `"DEFAULT"` when absent |
| Units.Unit.HasPermission | src/main/java/me/croabeast/file/ConfigurableUnit.java:62-64 | the sender holds the unit's permission, so `"DEFAULT"` when none is set |
| Units.Unit.Group | src/main/java/me/croabeast/file/ConfigurableUnit.java:72-74 | null exactly when `group` is absent, else its value as text |
| Units.Unit.Priority | src/main/java/me/croabeast/file/ConfigurableUnit.java:113-116 | the `intValue` of a number under `priority`; otherwise 0 or 1, and 0 exactly for the default permission |
| Units.Unit.InGroupNonNull | src/main/java/me/croabeast/file/ConfigurableUnit.java:90-92 | false for a blank or missing group; otherwise `isInGroup` |
| Units.Unit.InGroupAsNull | src/main/java/me/croabeast/file/ConfigurableUnit.java:100-102 | true for a blank or missing group; otherwise `isInGroup` |
| Units.GroupTests | src/main/java/me/croabeast/file/ConfigurableUnit.java:90-102 | the strict test implies the lenient one, and they agree when a group is set |
| Units.Of | src/main/java/me/croabeast/file/ConfigurableUnit.java:129-141 | a fresh unit over that section whose `isInGroup` always holds |
| Units.OfUnit | src/main/java/me/croabeast/file/ConfigurableUnit.java:149-151 | a fresh unit over the same section as the given unit |
| Units.OfGroups | src/main/java/me/croabeast/file/ConfigurableUnit.java:90-141 | for such a unit the lenient test always passes and the strict one passes exactly when a group is set |
| Units.FirstPassing | src/main/java/me/croabeast/file/UnitMappable.java:37-38 | none exactly when no unit passes; otherwise the unit at the first passing index |
| Units.FirstPassingAppend | src/main/java/me/croabeast/file/UnitMappable.java:36-39 | the search of two collections in turn is the search of their concatenation |
| Units.FirstInFlatten | src/main/java/me/croabeast/file/UnitMappable.java:36-39 | the nested search finds the first passing unit of all collections laid end to end |
| Units.GetUnit | src/main/java/me/croabeast/file/UnitMappable.java:33-42 | null for no player; otherwise the first unit, in `values()` order and then in collection order, whose permission the player holds, or null when there is none |
| Units.AsSet | src/main/java/me/croabeast/file/UnitMappable.java:51-63 | empty with no map; otherwise exactly the map's entries in its order |
| Units.AsList | src/main/java/me/croabeast/file/UnitMappable.java:72-84 | empty with no map; otherwise exactly the map's entries in its order |
| Mappables.AddAll | src/main/java/me/croabeast/file/Mappable.java:93 | `addAll`: the elements of both, nothing else; a list appends, a set stays a set |
| Mappables.Keep | src/main/java/me/croabeast/file/Mappable.java:58 | `removeIf(p.negate())`: each element's count is kept when it passes and becomes 0 when it fails |
| Mappables.KeepDistinct | src/main/java/me/croabeast/file/Mappable.java:58 | filtering a set leaves a set |
| Mappables.Filtered | src/main/java/me/croabeast/file/Mappable.java:57-60 | every key is kept, even when its collection becomes empty |
| Mappables.UpdateEach | src/main/java/me/croabeast/file/Mappable.java:58 | the `forEach` replaces each stored collection by its update and keeps the keys |
| Mappables.FilteredIs | src/main/java/me/croabeast/file/Mappable.java:58 | a map holding each collection filtered is `Filtered` |
| Mappables.FilteredWellFormed | src/main/java/me/croabeast/file/Mappable.java:57-60 | filtering keeps the map well formed |
| Mappables.Mappable.Filter | src/main/java/me/croabeast/file/Mappable.java:57-60 | removes, in place, exactly the failing elements of every collection, keeps every key, and returns the same instance; a null predicate throws unless the map is empty |
| Mappables.Mappable.Order | src/main/java/me/croabeast/file/Mappable.java:78-80 | natural order when ascendant, reverse order otherwise |
| Mappables.Mappable.OrderBy | src/main/java/me/croabeast/file/HashMappable.java:63-71 | a fresh map with the same keys and element-equal collections, keys in comparator order (except a `HashMappable`) |
| Mappables.InsertKey | src/main/java/me/croabeast/file/MapUtils.java:142-143 | `TreeMap.put` of a new key keeps the keys sorted and adds exactly that key |
| Mappables.Mappable.Copy | src/main/java/me/croabeast/file/HashMappable.java:83-91 | a fresh map with the same keys in the same order and element-equal collections; the receiver is unchanged |
| Mappables.CopyOfStored | src/main/java/me/croabeast/file/MapUtils.java:153-157 | copying a stored collection into a fresh one of its kind gives the same elements |
| Mappables.CopyOfIntoSet | src/main/java/me/croabeast/file/MapUtils.java:211-215 | a set filled from a list holds its elements once each |
| Mappables.Mappable.StoredValuesWith | src/main/java/me/croabeast/file/Mappable.java:90-95 | a null supplier throws; otherwise every element of every collection, in `values()` order, in a fresh collection |
| Mappables.Mappable.StoredValues | src/main/java/me/croabeast/file/HashMappable.java:103-105 | all elements, gathered into the stored collection kind |
| Mappables.StoredFromMembers | src/main/java/me/croabeast/file/Mappable.java:93 | an element is gathered exactly when some collection holds it |
| Mappables.StoredFromDistinct | src/main/java/me/croabeast/file/Mappable.java:93 | gathering into a set never repeats an element |
| Mappables.StoredFromList | src/main/java/me/croabeast/file/Mappable.java:93 | gathering into a list appends the collections in order |
| Mappables.StoredSet | src/main/java/me/croabeast/file/Mappable.java:134-136 | `BaseSet.getStoredValues` is the union of the stored sets |
| Mappables.StoredList | src/main/java/me/croabeast/file/Mappable.java:155-157 | `BaseList.getStoredValues` is the concatenation, of length the sum of the sizes |
| Mappables.FlattenSize | src/main/java/me/croabeast/file/Mappable.java:155-157 | the concatenation's length is the sum of the collection sizes |
| Mappables.Pairs | src/main/java/me/croabeast/file/Mappable.java:114-116 | the entries, in key order |
| Mappables.PairsCover | src/main/java/me/croabeast/file/Mappable.java:114-116 | the entry set lists every mapping and nothing else |
| Mappables.Mappable.Iterator | src/main/java/me/croabeast/file/Mappable.java:114-116 | walks exactly the entries of `entrySet()` |
| Mappables.Mappable.Instance | src/main/java/me/croabeast/file/HashMappable.java:113-115 | returns this very map |
| Mappables.Mappable.Empty | src/main/java/me/croabeast/file/MapUtils.java:46-48 | a map with no entries |
| Mappables.Mappable.FromMap | src/main/java/me/croabeast/file/MapUtils.java:55-57 | a null map gives an empty map; otherwise exactly the given entries, in that map's order |
| Mappables.Mappable.Put | src/main/java/me/croabeast/file/HashMappable.java:88 | `Map.put`: a new key goes last, an existing key keeps its place, and only that key's collection changes |
| Mappables.NewHashMappable | src/main/java/me/croabeast/file/HashMappable.java:35-38 | a null supplier throws; otherwise an empty map of the supplier's kind |
| Mappables.NewHashMappableOf | src/main/java/me/croabeast/file/HashMappable.java:46-49 | a null supplier or map throws; otherwise exactly the given entries |
| Mappables.Converted | src/main/java/me/croabeast/file/MapUtils.java:118 | collected through `toSet`, the converted elements are a set |
| Mappables.MapSeq | src/main/java/me/croabeast/file/MapUtils.java:201 | the elements through the function, in order |
| Mappables.Mappable.MapGroups | src/main/java/me/croabeast/file/MapUtils.java:128-132 | a fresh insertion-ordered map with the same keys, each collection converted |
| Mappables.Mappable.ToList | src/main/java/me/croabeast/file/MapUtils.java:128-132 | the same keys, each set's elements now a list |
| Mappables.Mappable.ToSet | src/main/java/me/croabeast/file/MapUtils.java:211-215 | the same keys; each list becomes a set holding exactly its elements, once each |
| Mappables.Mappable.ToUnits | src/main/java/me/croabeast/file/MapUtils.java:115-120 | a null function throws; otherwise the same keys, each element mapped through the function |

## Left out

- The YAML parser and serialiser are not modelled. `YamlConfiguration.loadConfiguration`, `yaml.load`, `yaml.dump` and `saveToString` belong to SnakeYAML and Bukkit. Loaded configurations are inputs (`Section`, `Node`). Dump and save are the uninterpreted functions of the `RawYaml.Ext` record.
- `RawYaml.KeyAsObject` does not model floating point. `Float.valueOf` and `Double.valueOf` are parameters of `Ext`. Only the order in which their results are tried is modelled.
- File and stream I/O is left out:
  - the class loader and resource lookup;
  - `FileReader` and `BufferedReader`;
  - `Files.readAllBytes` and `Files.write`;
  - the existence check.

  The file contents are input strings. `Merge.Update` returns the text, and whether it would be written, instead of writing it.
- The `YAMLUpdater.of` factories (src/main/java/me/croabeast/file/YAMLUpdater.java:453-474) are left out. They only resolve the loader and the varargs, then call the constructor (`Merge.New`).
- `Configurable.asSectionMap` and `asUnitMap` are left out. They are compositions of `toSectionMap` and `toUnits` on the whole configuration (src/main/java/me/croabeast/file/Configurable.java:256-271). Both parts are modelled.
- The thin `FileConfiguration` delegations of `Configurable` have no logic of their own and are not modelled: `set`, `contains`, the `toStringList(path)` instance forms and `Configurable.of`.
- Permission checks and group membership belong to the server. They are parameters: `permits` stands for `CommandSender.hasPermission`, and `inGroup` for the abstract `isInGroup`.
- `Units.GetUnit`: the permission test is `hasPermission`, not the undeclared `hasPerm` the source calls.
- Hash iteration order is not modelled. A set is a duplicate-free `seq`, kept in insertion order. `Mappables.Mappable.OrderBy` promises comparator key order only for the insertion-ordered implementations (`hashed` false), because a `HashMappable` re-wraps its result in a `HashMap`.
- `Mappables.Mappable.Copy`, `OrderBy`, `ToSet` and `Configurable.ToSectionMap` do not model the element order inside a copied `HashSet`; they keep insertion order.
- Unchecked casts in `getList` cannot fail under erasure, so the `catch` there is not modelled.
- Java identity and aliasing between collections are not modelled. Collections are values, so "a separate collection" means only that later changes to the copy cannot reach the original.
- `Sections` keeps only the part of Bukkit's `ConfigurationSection` the core reads. Defaults layered under a configuration, and path separators other than `.`, are not modelled.
- `RawYaml.ParseDecimal` and `RawYaml.ParseInt` accept ASCII digits only. `Integer.parseInt` also accepts other Unicode decimal digits, through `Character.digit`; a path segment spelled in such digits is read here as a string key.
- `Sections.IntValue` takes a Double's or Float's `intValue` as given (the `whole` field of `Real`): converting floating point to `int` is not modelled. A Long's and a BigInteger's `intValue` is computed (`Wrap32`).
- `Sections.Value` has a null only as a list element: Bukkit's `set(path, null)` removes a key, so a section never holds null itself.
- `Configurable.GetAs`: `Double.class` and `Float.class` are one class (`RealClass`), and so are `Long.class` and `BigInteger.class` (`LongClass`), because `Value` keeps each pair together. `Boolean.class` and the other scalar classes are not offered; only `ObjectClass` admits such a value.
- `Sections.IsRoot`: the root is recognised by its empty path. Bukkit refuses an empty key, so no nested section has that path.
