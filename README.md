# awp playlist and player core, modelled in Dafny

awp is a weighted-random music player. It keeps a playlist file of tracks,
each with a weight and a volume. It plays a random track, chosen with
probability proportional to its weight, through an mplayer child process.
Keystrokes during a track promote or demote it, and the volume the player
reports is remembered. This project models the parts of awp that are logic
rather than process plumbing:

- **The playlist store and its file format** (`awp/playlist.py`).
  - An ordered map from path to `(weight, volume)`, with a `dirty` flag and
    the file it was read from.
  - The line parser and the canonical serialiser.
  - `add_item` and `update`, which change entries in place.
  - `diff`, and the strategy-driven `merge`.
  - The common-divisor guess and the "repeated list" flattening.
- **The weighted draw** (`awp/rand.py`). The scaled random draw is an input,
  so the choice is deterministic.
- **The arrow-key escape tokenizer** (`awp/readesc.py`).
- **The per-track control logic of the two players** (`awp/play.py` and
  `awp/simple.py`):
  - the `Volume: X %` scraper over the child's output;
  - the keystroke loop;
  - the post-track update and write.
- **The older top-level playlist store** (`playlist.py`).
- **The command-line merge** (`awp/merge.py`).

Module layout, one module per file:

| file | module | models |
|---|---|---|
| `wrappers.dfy` | `Wrappers`, `Errors` | `None` as `Option`, a raised exception as `Result.Err`. Each Python exception is an `Errors.Error` constructor. |
| `text.dfy` | `Text` | Slicing, `lstrip`, `split('\t', 2)`, and the lines `for line in f` yields. |
| `ordered_map.dfy` | `OrderedMaps` | `OrderedDict`: assignment, `pop`, `update`, `get`, `items`. |
| `playlist_format.dfy` | `PlaylistFormat` | The line grammar, `readfile`'s loop as a function, `write`'s text, and the round trip. |
| `file_system.dfy` | `Files` | An abstract file store (`open`, `os.rename`) and the `os.path` naming of the temporary file. |
| `merge_strategies.dfy` | `MergeStrategies` | `average`, `extreme`, `update` and `existsonly`. |
| `playlist_merge.dfy` | `PlaylistMerge` | `diff`, and `merge`'s loop as a function. |
| `repeated_list.dfy` | `RepeatedLists` | `_common_divisor_weight` and `to_repeated_list`. |
| `playlist.dfy` | `Playlists` | The `Playlist` class and its methods. |
| `rand.dfy` | `Rand` | `weighted_choice`. |
| `readesc.dfy` | `ReadEsc` | `readesc`. |
| `scraper.dfy` | `VolumeScraper` | Both `out_reader` scanners. |
| `play.dfy` | `PlayControl` | `play` in awp/play.py. |
| `simple.dfy` | `SimpleControl` | `play` in awp/simple.py. |
| `legacy_playlist.dfy` | `LegacyPlaylists` | The older `Playlist`. |
| `merge_cli.dfy` | `MergeCli` | `merge(*playlists)`. |

Modelling choices:

- Weights and volumes are `real`.
- `float(text)` and `'{}'.format(x)` are the two abstract functions of
  `PlaylistFormat.NumberText`.
  - The round-trip results require, of each number actually stored,
    `PlaylistFormat.NumberOk`: formatting then parsing it gives it back, and
    its text is clean (non-empty, no tab or newline, not starting with a
    blank or `#`).
- Files are a `map<string, string>` held by `Files.FileSystem`.
- Streams (the child's output, the keyboard) are finite strings. The end of
  the string is EOF, or the child exiting.
- The iteration order of the plain dict that `next` builds is a parameter
  `order`, a permutation of the playlist's paths. So is the scaled draw
  `x = random.random() * total`.

Two behaviours of the code worth noting:

- **Empty playlist.** `weighted_choice` of an empty dict falls off its loop
  and returns None. The failure comes only when the caller unpacks that None
  (`Errors.EmptySelection` in the two `PlayTrack` methods).
- **All weights zero.** There is no failure. The draw is 0, and the first key
  is chosen (`Rand.AllZeroChoosesFirst`).

## Model

| member | source | states |
|---|---|---|
| Text.LStrip | awp/playlist.py:40 | The result is a suffix of the input. It does not start with whitespace. Everything removed was whitespace. |
| Text.DropLast | awp/playlist.py:38 | The input is the result plus exactly one final character, whatever that character is. Empty text stays empty. |
| Text.Find | awp/playlist.py:41 | It returns the index of the first tab, or the length of the line when there is none. |
| Text.SplitTab2 | awp/playlist.py:41 | It gives 1 to 3 parts, and exactly 1 when the line has no tab. The first two parts hold no tab. Rejoined with tabs, the parts give back the line, so a third part keeps any further tabs. |
| Text.SplitThreeFields | awp/playlist.py:41-46 | Splitting `a\tb\tc` with tab-free `a` and `b` gives `[a, b, c]` for any `c`. |
| Text.SplitTwoFields | awp/playlist.py:41-44 | Splitting `a\tb` with tab-free fields gives `[a, b]`. |
| Text.LinesCons | awp/playlist.py:37 | A line ending in its only newline is the first line of any text it begins. |
| Text.Lines | awp/playlist.py:37 | The lines `for line in f` yields. `LinesCons` and `LinesSingle` fix how it splits, and `LinesHaveNoInnerNewline` that only a line's last character can be a newline. |
| OrderedMaps.OrderedMap.Get | awp/playlist.py:132 | `get` returns the value exactly when the key is present. |
| OrderedMaps.OrderedMap.Put | awp/playlist.py:78 | Assignment stores the value and leaves every other key as it was. A present key keeps its place. A new key is appended. |
| OrderedMaps.OrderedMap.Remove | awp/playlist.py:176 | `pop(k, None)` removes `k`, keeps the other keys in order, and changes no other lookup. |
| OrderedMaps.OrderedMap.PutAll | awp/playlist.py:127-129 | `update(other)` takes other's value for other's keys and keeps the rest. Keys new to the map are appended in other's order. |
| OrderedMaps.OrderedMap.Items | awp/playlist.py:70 | The items are the (key, value) pairs in key order. |
| PlaylistFormat.Float | awp/playlist.py:49-50 | Conversion fails with ValueError exactly when `float` rejects the text. |
| PlaylistFormat.ParseLine | awp/playlist.py:38-50 | A line is skipped exactly when it is empty or a comment once its last character is dropped. A kept line without a tab raises ValueError carrying the line. |
| PlaylistFormat.ParseLines | awp/playlist.py:37-51 | The records read before the first bad line, and that line's error. Its meaning is given by `LoadLinesParses`, `SingleLineParses` and `ParseSerialized`. |
| PlaylistFormat.LoadLines | awp/playlist.py:37-51 | `readfile`'s loop, adding each record as it is read. `LoadLinesParses` shows it adds, in order, the records before the first bad line, and turns dirty exactly when one was added. |
| PlaylistFormat.PutRecords | awp/playlist.py:73-78 | `add_item` of each record in turn. `PutFreshRecords` shows new distinct paths are appended in order, and `RecordsRebuild` that a playlist's own records rebuild it. |
| PlaylistFormat.ThreeFieldLine | awp/playlist.py:45-51 | A `w\tv\tpath` line whose numbers parse reads as the record `(path, w, v)`, with the path being the whole remainder, tabs included. |
| PlaylistFormat.TwoFieldLine | awp/playlist.py:42-44 | A `w\tpath` line whose weight parses reads as `(path, w, 1)`. |
| PlaylistFormat.SingleFieldLine | awp/playlist.py:47-48 | A kept line with no tab raises ValueError carrying the line. |
| PlaylistFormat.BadWeightRaises | awp/playlist.py:41-49 | A kept line whose weight field `float` rejects raises ValueError carrying that field, whatever follows it. |
| PlaylistFormat.BadVolumeRaises | awp/playlist.py:45-50 | A three-field line whose volume field `float` rejects raises ValueError carrying that field. |
| PlaylistFormat.LastLineLosesLastChar | awp/playlist.py:38 | A last line without a newline loses its last character, even though that character is not a newline. |
| PlaylistFormat.LoadLinesParses | awp/playlist.py:37-78 | Adding the records as they are read equals adding, in order, every record before the first bad line. The playlist turns dirty exactly when a record was added. |
| PlaylistFormat.LinesHaveNoInnerNewline | awp/playlist.py:37-38 | A line of the file, once its last character is dropped, holds no newline. |
| PlaylistFormat.ParsedPathsHaveNoNewline | awp/playlist.py:37-51 | No path parsed from a file holds a newline. |
| PlaylistFormat.PutRecordsNoNewline | awp/playlist.py:73-78 | Adding newline-free paths keeps every path newline-free. |
| PlaylistFormat.RecordsOf | awp/playlist.py:70 | The records of a playlist are its (path, entry) pairs in entry order. |
| PlaylistFormat.FormatRecord | awp/playlist.py:71 | The line `write` emits for one entry. `FormatRecordParses` and `FormatRecordIsOneLine` show it is one line that reads back as the entry. |
| PlaylistFormat.Serialize | awp/playlist.py:69-71 | The whole text `write` emits. `ParseSerialized` and `LoadSerialized` show reading it back gives the entries in order, and `SerializeOne` gives the one-entry case. |
| PlaylistFormat.FormatRecordParses | awp/playlist.py:45-71 | When both of the entry's numbers round-trip (`EntryOk`), its canonical `weight\tvolume\tpath\n` line reads back as the entry it was written from. |
| PlaylistFormat.FormatRecordIsOneLine | awp/playlist.py:71 | When both of the entry's numbers round-trip, its canonical line holds exactly one newline, at its end. |
| PlaylistFormat.ParseSerialized | awp/playlist.py:37-71 | When every stored number round-trips and no path holds a newline, reading the text `write` emits gives back every entry, in entry order, with no error. |
| PlaylistFormat.PutFreshRecords | awp/playlist.py:73-78 | Adding records with new, distinct paths appends those paths in order and maps each to its entry. |
| PlaylistFormat.LoadSerialized | awp/playlist.py:33-71 | When every stored number round-trips and no path holds a newline, loading a saved playlist into an empty one rebuilds the same entries, in the same order. |
| PlaylistFormat.RecordsRebuild | awp/playlist.py:73-78 | Adding a playlist's own records to an empty playlist gives that playlist. |
| PlaylistFormat.LegacyLineResaved | awp/playlist.py:11-12 | Loading then saving turns a legacy two-field line into the canonical three-field line with volume 1. |
| PlaylistFormat.SingleLineParses | awp/playlist.py:37-51 | A file of one newline-terminated line yields just what that line yields. |
| PlaylistFormat.SerializeOne | awp/playlist.py:69-71 | A one-entry playlist is written as its one canonical line. |
| Files.LastSlash | awp/playlist.py:61 | It returns the position of the last `/`, or -1 when there is none. |
| Files.RStripSlash | awp/playlist.py:61 | It strips exactly the trailing slashes. |
| Files.Split | awp/playlist.py:61 | The tail of `os.path.split` is the last path component. |
| Files.Basename | awp/playlist.py:61-62 | The last component holds no slash. |
| Files.BasenameAfterSlash | awp/playlist.py:61-62 | Text without slashes after a slash (or at the start) is the last component. |
| Files.JoinBasename | awp/playlist.py:62 | Joining a slash-free name makes it the last component. |
| Files.Join | awp/playlist.py:62 | `os.path.join` of two parts. `JoinBasename` shows that a slash-free name joined to a directory becomes the last component. |
| Files.TempPath | awp/playlist.py:59-62 | The temporary `.NAME~` beside the target. `TempPathDiffers` shows it is never the target itself. |
| Files.TempPathDiffers | awp/playlist.py:59-62 | The temporary file is `.NAME~` beside the target, so it is never the target itself. |
| Files.FileSystem.Read | awp/playlist.py:36 | A read gives the file's text exactly when the file exists. |
| Files.FileSystem.Write | awp/playlist.py:63-64 | Writing replaces that file's text and changes nothing else. |
| Files.FileSystem.Rename | awp/playlist.py:66 | `os.rename` moves the text to the target and removes the source. A missing source raises OSError and changes nothing. |
| MergeStrategies.Present | awp/playlist.py:239-251 | The values kept are exactly the ones present, at most two, and none when both are None. |
| MergeStrategies.Apply | awp/playlist.py:233-273 | `strategy(path, ours, theirs)`. `AverageIsMean`, `ExtremeChoice`, `TakeNewerPrefersNew`, `ExistsOnlyDelegates` and `ExistsOnlyPairFails` give its result and its exceptions for each built-in strategy. `NeverDropsKeeps` shows the built-ins never return None given a value. |
| MergeStrategies.MostExtreme | awp/playlist.py:252 | It returns one of the values, and that value is greatest under the key `(|v - m|, v)`. |
| MergeStrategies.AverageIsMean | awp/playlist.py:236-240 | `average` is the mean of the values present. It raises ZeroDivisionError when none is present. |
| MergeStrategies.ExtremeChoice | awp/playlist.py:242-253 | `extreme(m)` picks the value further from `m`, the greater on a tie, and the only value when one side is None. It raises IndexError when both are None. |
| MergeStrategies.ExtremeTieFavoursGreater | awp/playlist.py:246-252 | `extreme(10)` of 5 and 15 is 15, in either order. |
| MergeStrategies.TakeNewerPrefersNew | awp/playlist.py:255-259 | `update` returns `new` unless it is None, and `old` otherwise. |
| MergeStrategies.ExistsOnlyDelegates | awp/playlist.py:261-271 | `existsonly(s)` returns None when `old` is None, and otherwise returns what `s` returns. |
| MergeStrategies.ExistsOnlyPairFails | awp/playlist.py:265-273 | `existsonly` of a pair gives closures that call the pair itself, so they raise TypeError once `old` is present. |
| MergeStrategies.NeverDropsKeeps | awp/playlist.py:236-259 | `average`, `extreme` and `update` given some value never return None. `extreme` and `update` return one of the values given. |
| PlaylistMerge.UnionPaths | awp/playlist.py:127-129 | The paths walked are this playlist's keys, then the other's new keys in its order. They are distinct and are exactly the paths of either side. |
| PlaylistMerge.DiffOver | awp/playlist.py:131-134 | Every item pairs both sides' `get` for a path whose sides differ. Every differing path walked is listed. |
| PlaylistMerge.Diff | awp/playlist.py:119-135 | `diff(other)`. `DiffProperties` shows it lists exactly the paths whose entries differ, once each, in the union order, and `DiffSelfEmpty` that a playlist has no diff with itself. |
| PlaylistMerge.DiffProperties | awp/playlist.py:119-135 | A diff lists exactly the paths whose entries differ, once each, with both sides, in the union order. |
| PlaylistMerge.DiffOverOrdered | awp/playlist.py:124-131 | A diff keeps the order of the paths walked. |
| PlaylistMerge.DiffOverMembers | awp/playlist.py:131-134 | A path is listed exactly when it was walked and its sides differ. |
| PlaylistMerge.DiffSelfEmpty | awp/playlist.py:133 | `x.diff(x)` is empty. |
| PlaylistMerge.MeanVolume | awp/playlist.py:159 | The default midpoint raises ZeroDivisionError exactly for an empty playlist. Otherwise it is the mean volume: times the number of entries, it gives the sum of the volumes. |
| PlaylistMerge.ChooseStrategies | awp/playlist.py:158-166 | Only the default pair can fail, and only on an empty playlist. On a non-empty one the default is `average` for weights and `extreme` of the mean volume for volumes. A single strategy is used for both fields. A pair is used as given. |
| PlaylistMerge.MeanWithinVolumes | awp/playlist.py:159-160 | The default volume midpoint lies between the playlist's quietest and loudest volume. |
| PlaylistMerge.MergeItem | awp/playlist.py:172-178 | One diff item merged. `Combined` shows that with never-dropping strategies it gives the combined entry. |
| PlaylistMerge.MergeChanges | awp/playlist.py:171-178 | Merge's item loop. `MergeLeavesOthers`, `MergeDirty` and `MergeNeverDropping` give what it does to other paths, to `dirty`, and to the named paths. |
| PlaylistMerge.MergeLeavesOthers | awp/playlist.py:171-178 | Paths the diff does not name keep their entries. |
| PlaylistMerge.MergeDirty | awp/playlist.py:175-178 | Merge leaves `dirty` set exactly when it started set or some item reached before any failure was upserted. Popping alone leaves `dirty` as it was. |
| PlaylistMerge.Combined | awp/playlist.py:173 | With strategies that never drop, a diff item merges to its combined entry. |
| PlaylistMerge.MergeNeverDropping | awp/playlist.py:171-178 | With never-dropping strategies nothing fails, every named path gets its combined entry, and new paths are appended in diff order. |
| PlaylistMerge.MergeKeysAreUnion | awp/playlist.py:119-178 | Merging with never-dropping strategies gives this playlist's keys, then the other's new keys in its order. |
| PlaylistMerge.NewPathsOfDiff | awp/playlist.py:124-125 | The diff's paths that this playlist lacks are the other's paths it lacks, in the other's order. |
| PlaylistMerge.DiffOverAllDiffer | awp/playlist.py:133-134 | When every walked path differs, the diff keeps them all. |
| RepeatedLists.NonZero | awp/playlist.py:187 | The weights kept are exactly the non-zero ones. |
| RepeatedLists.Min | awp/playlist.py:192 | It returns a weight no greater than any other. |
| RepeatedLists.Weights | awp/playlist.py:187 | It lists every entry's weight, in entry order. |
| RepeatedLists.SearchDown | awp/playlist.py:196-199 | A candidate found divides every weight and is the greatest such candidate at or below the start. None means no whole candidate from the start down to 1 divides them. |
| RepeatedLists.CommonDivisorAsWritten | awp/playlist.py:185-202 | `_common_divisor_weight` as written, for integer-typed weights. `AsWrittenAssertsOnFourAndSix` shows it asserts on weights 4 and 6, and `DocExampleDefaultScale` that it gives 1 for weights 1, 2 and 5. |
| RepeatedLists.IntendedDivisor | awp/playlist.py:180-202 | The corrected search, trying every candidate down to 1. Its properties are `IntendedDivisorProperties`. |
| RepeatedLists.AgreesUnlessAsserting | awp/playlist.py:185-202 | Wherever the code as written does not raise AssertionError, the corrected search gives the same divisor or the same error. |
| RepeatedLists.IntendedDivisorProperties | awp/playlist.py:180-202 | A returned divisor divides every non-zero weight. The minimum is returned when it divides all. Whole weights with a minimum below 1000 always get a divisor, and no whole number between it and the minimum divides them. Otherwise ValueError. |
| RepeatedLists.CommonDivisor | awp/playlist.py:185-202 | The search loop computes the intended divisor. |
| RepeatedLists.AsWrittenAssertsOnFourAndSix | awp/playlist.py:196-200 | As written, weights 4 and 6 hit the assertion. The intended search returns 2. |
| RepeatedLists.ExhaustedSearch | awp/playlist.py:196-200 | For whole weights, a search that finds nothing down to 1 started from a minimum of at most 0. |
| RepeatedLists.Repeat | awp/playlist.py:226 | `[p] * n` holds `p` exactly `n` times. |
| RepeatedLists.RepeatedCounts | awp/playlist.py:224-227 | Each path appears `int(weight / scale)` times. A path not in the playlist appears zero times. |
| RepeatedLists.DocExamples | awp/playlist.py:208-220 | The docstring's examples hold. Weights 1, 2 and 5 give foo, bar x2 and baz x5. With scale 2 they give bar, baz, baz. |
| RepeatedLists.DocExampleDefaultScale | awp/playlist.py:191-223 | For weights 1, 2 and 5 the default scale is 1. |
| Playlists.Replacement | awp/play.py:194 | A literal-or-None argument keeps the old value on None and replaces it otherwise. |
| Playlists.Updated | awp/playlist.py:85-90 | An entry with each field kept, mapped or replaced. `Replacement` and `DoubleWeightKeepsVolume` give the literal, None and doubling cases. |
| Playlists.DoubleWeightKeepsVolume | awp/playlist.py:82-83 | `update(p, lambda x: x*2)` doubles the weight and keeps the volume. |
| Playlists.LoadedPathsHaveNoNewline | awp/playlist.py:37-51 | No path loaded from a file holds a newline. |
| Playlists.ReloadSaved | awp/playlist.py:27-71 | A file holding what `write` emitted for a playlist loads back as that playlist, when every stored number round-trips and no path holds a newline. |
| Playlists.LoadedEntries | awp/playlist.py:27-51 | `Playlist(path).entries`, or the error loading raises. `LoadedPathsHaveNoNewline` and `PlayControl.PersistedUpdateReloads` give what it loads. |
| Playlists.ChoiceTable | awp/playlist.py:97 | The draw table keys each path with its volume and weights it by its weight, in the dict's iteration order. |
| Playlists.Playlist.constructor | awp/playlist.py:24-29 | A new playlist is empty and clean, with no file. |
| Playlists.Playlist.AddItem | awp/playlist.py:73-78 | A present path keeps its place. A new path goes last. The playlist becomes dirty. |
| Playlists.Playlist.ReadFile | awp/playlist.py:33-51 | The file is remembered even when it is missing. Its records are appended in order. A bad line stops the load with the earlier records kept. The playlist turns dirty when a record was added. |
| Playlists.Playlist.AddLines | awp/playlist.py:37-51 | The loop adds the records before the first bad line and raises that line's error. |
| Playlists.Playlist.Write | awp/playlist.py:69-71 | The text is one canonical line per entry, in entry order. |
| Playlists.Playlist.WriteFile | awp/playlist.py:53-67 | The target is the argument, or else the remembered file. With neither it raises ValueError and changes nothing. Atomically, the target gets the text and the temporary file is gone. The playlist becomes clean. |
| Playlists.Playlist.ReplaceAtomically | awp/playlist.py:59-66 | After writing `.NAME~` and renaming it, the target holds the text and `.NAME~` is gone. |
| Playlists.Playlist.Update | awp/playlist.py:80-90 | An unknown path raises KeyError and changes nothing. Otherwise each field is kept, mapped or replaced, the entry keeps its place, and the playlist is dirty. |
| Playlists.Playlist.Next | awp/playlist.py:95-98 | The result is the weighted choice over (path, volume) keys, with the volume stored for the path. It is None for an empty playlist. |
| Playlists.Playlist.Copy | awp/playlist.py:100-103 | The copy is a new, clean playlist with no file and the same entries. |
| Playlists.Playlist.Diff | awp/playlist.py:119-135 | The loop builds exactly the diff of the two entry maps. |
| Playlists.Playlist.Merge | awp/playlist.py:137-178 | The strategies are settled first, and the default fails on an empty playlist. A file name is then loaded. The diff items are then merged in turn. Any failure leaves the items before it merged. |
| Playlists.Playlist.MergeItems | awp/playlist.py:171-178 | The loop leaves the entries, dirty flag and exception that merge's loop defines. |
| Playlists.Playlist.ApplyItem | awp/playlist.py:172-178 | A None result pops the path without touching `dirty`. Otherwise the merged entry is upserted and `dirty` set. A raised exception changes nothing. |
| Playlists.Playlist.CommonDivisorWeight | awp/playlist.py:180-202 | It returns the corrected common divisor of the weights (`IntendedDivisor`), which agrees with the code wherever the code does not raise AssertionError (`RepeatedLists.AgreesUnlessAsserting`). |
| Playlists.Playlist.ToRepeatedList | awp/playlist.py:204-227 | A given non-zero scale repeats each path `int(weight / scale)` times, in entry order. A missing or zero scale uses the corrected common divisor and passes on its ValueError. |
| Playlists.Playlist.RepeatedList | awp/playlist.py:224-227 | The loop builds each path's repetitions in entry order. |
| Playlists.Open | awp/playlist.py:27-31 | A non-empty name loads that file into an empty playlist. No name, or an empty one, gives an empty, clean playlist. |
| Rand.WeightedChoice | awp/rand.py:3-11 | The loop returns the key at the index the subtraction walk stops at. It returns None when the dict is empty. |
| Rand.Choose | awp/rand.py:6-11 | The index the subtraction walk stops at. `ChooseIsFirstReaching` and `ChooseNoneIffNeverReached` show it is the first key whose running sum reaches the draw, and None exactly when none does. |
| Rand.ChooseIsFirstReaching | awp/rand.py:7-11 | The chosen key is the first at which the running weight sum reaches `x`. |
| Rand.ChooseNoneIffNeverReached | awp/rand.py:8-11 | The result is None exactly when no running sum reaches `x`. |
| Rand.NonEmptyAlwaysChooses | awp/rand.py:6-11 | With non-negative weights and `0 <= x <= total`, a non-empty dict always gives a key. |
| Rand.ChosenHasPositiveWeight | awp/rand.py:8-11 | With `x > 0`, the chosen key has positive weight. |
| Rand.AllZeroChoosesFirst | awp/rand.py:6-11 | With all weights zero the total is 0, and the first key is chosen. |
| ReadEsc.NameOf | awp/readesc.py:7-12 | Exactly the four arrow escapes have names. |
| ReadEsc.EscapePrefixes | awp/readesc.py:23 | The texts that start an escape are: the empty text, ESC, `ESC [`, and the four escapes. |
| ReadEsc.Chars | awp/readesc.py:25-26 | A buffer is yielded one character at a time, in order. |
| ReadEsc.ReadEsc | awp/readesc.py:6-27 | The generator yields exactly what the stream defines. Undoing the names gives back the input less the dropped tail. That tail is empty or an incomplete escape. |
| ReadEsc.Run | awp/readesc.py:14-26 | What the generator yields for the rest of the stream. `Reassembles` shows undoing the names gives the input back, less a trailing incomplete escape. |
| ReadEsc.YieldChars | awp/readesc.py:25-26 | Each character of the buffer is yielded after what came before. |
| ReadEsc.UnescapeChars | awp/readesc.py:25-26 | Characters yielded alone stand for themselves. |
| ReadEsc.Reassembles | awp/readesc.py:14-27 | Replacing each name by its escape gives the input, less only a trailing incomplete escape. Between reads the buffer is empty or a proper escape prefix. |
| ReadEsc.ArrowKeysAreNamed | awp/readesc.py:7-22 | `\x1b[A`, `\x1b[B`, `\x1b[C` and `\x1b[D` yield UP, DOWN, RIGHT and LEFT. |
| ReadEsc.PlainCharYieldedAlone | awp/readesc.py:23-27 | A character other than ESC is yielded at once, by itself. |
| ReadEsc.FailedPrefixNotRescanned | awp/readesc.py:23-27 | `ESC ESC [ A` yields four single characters and no UP. |
| ReadEsc.EscapeThenOther | awp/readesc.py:23-27 | ESC followed by anything but `[` is yielded as two characters. |
| ReadEsc.TrailingPrefixDropped | awp/readesc.py:16-17 | An incomplete escape at the end of the input is dropped silently. |
| VolumeScraper.OutReader | awp/play.py:100-130 | The scanner loop echoes and reports exactly what the scan of the whole output defines. |
| VolumeScraper.OutReaderSpec | awp/play.py:100-130 | The scan of the whole output. `EchoIsPrefixOfOutput` shows the echo is a prefix of the output, and `NoVolumeEchoesAll` and `ReportRecorded` what is reported. |
| VolumeScraper.Scan | awp/play.py:107-114 | The outer scanning loop. `ScanEchoPrefix`, `NoVolumeEchoesAll`, `DoubledVNotRescanned` and `ScanVolumeHeader` give what it echoes and when a report starts. |
| VolumeScraper.ScanReport | awp/play.py:115-128 | The loop inside a report. `ReportBody`, `ReportRecorded` and `PartialReportDropped` give what a complete or cut-off report records. |
| VolumeScraper.ReadReport | awp/play.py:115-128 | After `Volume:`, it either stops at EOF or a bad number, or echoes the report, records it, and resumes after `%`. |
| VolumeScraper.EchoIsPrefixOfOutput | awp/play.py:102-130 | The echoed text is always a prefix of the child's output. |
| VolumeScraper.ScanEchoPrefix | awp/play.py:107-114 | The outer loop echoes a prefix of what it held back and read. |
| VolumeScraper.ScanReportEchoPrefix | awp/play.py:115-128 | The inner loop echoes a prefix of what it held back and read. |
| VolumeScraper.NoVolumeEchoesAll | awp/play.py:110-114 | Output with no `V` is echoed whole and holds no report. |
| VolumeScraper.DoubledVNotRescanned | awp/play.py:111-114 | `VVolume: 50%` is echoed with no report, because the failed prefix is not rescanned. |
| VolumeScraper.PartialReportDropped | awp/simple.py:101-103 | A report cut off by EOF before `%` echoes and records nothing. |
| VolumeScraper.ScanVolumeHeader | awp/play.py:110-116 | Reading `Volume:` starts a report, with nothing echoed before it. |
| VolumeScraper.ReportBody | awp/play.py:117-128 | A report body up to `%` records `float(body) * VOL_MAX / 100` and echoes the whole report. |
| VolumeScraper.ReportRecorded | awp/play.py:115-128 | A complete report records its volume and is echoed. Without its `%` it records and echoes nothing. |
| VolumeScraper.FudgeDisablesReports | awp/play.py:121 | With `VOL_FUDGE` other than 1 no report is recorded and no number is parsed. |
| VolumeScraper.LastReport | awp/play.py:122 | `new_volume[0]` is the last report, or None when there is none. |
| PlayControl.KeyLoop | awp/play.py:139-173 | The loop from `weight_change = 1` ends in the state the key grammar defines. |
| PlayControl.KeyLoopSpec | awp/play.py:139-173 | The key grammar over bursts. `WeightChangeIsProduct`, `ReadAheadNotInterpreted` and `QuitStops` give the weight change, the read-ahead and quitting. |
| PlayControl.Pow2IsOne | awp/play.py:193 | A power of two is 1 only for exponent 0, so the multiplier is 1 exactly when the doublings and halvings cancel. |
| PlayControl.FactorIsPow2 | awp/play.py:152-158 | The product of the key factors is 2 raised to the number of `f` keys less the number of `q` and `d` keys. |
| PlayControl.WeightChangeIsProduct | awp/play.py:139-158 | `weight_change` is the product of the factors of the keys interpreted. |
| PlayControl.ReadAheadNotInterpreted | awp/play.py:163-172 | Another key is sent with the rest of its burst, and the keys in that burst are never interpreted. For example `xf` changes nothing. |
| PlayControl.QuitStops | awp/play.py:159-162 | `Q` sends `q` and ends the loop, and nothing after it is read. |
| PlayControl.PostTrack | awp/play.py:191-195 | The playlist is reloaded from its file. Only a changed weight or a reported volume leads to an update and an atomic write. |
| PlayControl.PostTrackSpec | awp/play.py:191-195 | Reload, update and write after a track. `UnchangedTrackWritesNothing` and `PersistedUpdateReloads` give the no-change case and what the written file reloads as. |
| PlayControl.UpdateAndWrite | awp/play.py:194-195 | The weight is multiplied and the volume replaced unless None, in place. The file is then written atomically. A missing path raises KeyError. |
| PlayControl.UnchangedTrackWritesNothing | awp/play.py:193 | A track with no weight change and no report writes nothing. |
| PlayControl.PersistedUpdateReloads | awp/play.py:191-195 | When the stored numbers, the updated entry's included, round-trip, re-reading the file after a persisted update gives the reloaded entries with only the played entry changed, in the same order. |
| PlayControl.PlayTrack | awp/play.py:132-195 | One pass draws a track, scans the output and runs the keys. A `Q` changes no file. Otherwise the player does the post-track update with the last reported volume. An empty draw fails. |
| SimpleControl.KeyLoop | awp/simple.py:131-144 | The loop's updates, the text sent, and quitting are exactly what the key grammar defines. |
| SimpleControl.KeysSpec | awp/simple.py:131-144 | The key grammar. `KeysClosedForm` gives its effect on the entries in closed form. |
| SimpleControl.ApplyReports | awp/simple.py:105-107 | Each complete report replaces the track's volume at once. |
| SimpleControl.ReportsSpec | awp/simple.py:105-107 | The report updates. `ReportsClosedForm` gives their effect in closed form. |
| SimpleControl.KeysClosedForm | awp/simple.py:133-142 | `update(filename, weight=lambda x: x*2.)` for `f` and `x/2.` for `q` and `d`: before `Q`, the weight is doubled once per `f` and halved once per `q` or `d`. The volume, the order and the other entries are unchanged. |
| SimpleControl.ReportsClosedForm | awp/simple.py:99-110 | The reports leave the last reported volume, the weight unchanged, and the playlist dirty when there was a report. |
| SimpleControl.UpdatesCommute | awp/simple.py:107-139 | The key updates and the report updates touch different fields, so either order gives the same entries. |
| SimpleControl.PromoteThenDemote | awp/simple.py:137-139 | `f` then `d` leaves the entries as they were. |
| SimpleControl.PlayTrack | awp/simple.py:114-161 | One track is a fresh draw from the playlist as it now is. The keys and reports update it in place. It is written atomically only if dirty, and `Q` skips the write. |
| LegacyPlaylists.LegacyLoadAgrees | playlist.py:11-45 | The legacy load succeeds exactly when the packaged grammar reads the lines without error and no path repeats or is already present. It then stores what the packaged load stores. |
| LegacyPlaylists.LegacyLoad | playlist.py:11-45 | The legacy `readfile` loop. `LegacyLoadAgrees` relates it to the packaged load, and `RepeatedPathRaises` gives the repeated-path case. |
| LegacyPlaylists.RepeatedPathRaises | playlist.py:43-65 | Given a repeated path, the legacy load raises TypeError and keeps the first value. The packaged load keeps the second. |
| LegacyPlaylists.FreshPathsCons | playlist.py:43-45 | A record list is fresh exactly when its first path is new and the rest are fresh after it. |
| LegacyPlaylists.LegacyPlaylist.constructor | playlist.py:5-9 | A new legacy playlist is empty. |
| LegacyPlaylists.LegacyPlaylist.AddItem | playlist.py:41-45 | With `warn`, a present path raises TypeError and nothing is stored. Otherwise the path is overwritten in place. There is no dirty flag. |
| LegacyPlaylists.LegacyPlaylist.ReadFile | playlist.py:11-28 | The records are appended in order. A bad line or a repeated path stops the load, with the earlier records kept. |
| LegacyPlaylists.LegacyPlaylist.AddLines | playlist.py:14-28 | The loop stores what the legacy load defines. |
| LegacyPlaylists.LegacyPlaylist.Update | playlist.py:47-52 | An unknown path raises KeyError. Otherwise each literal replaces its field, None keeps it, and the entry keeps its place. |
| LegacyPlaylists.LegacyPlaylist.Next | playlist.py:57-60 | The result is the same weighted choice as the packaged store, and None when empty. |
| LegacyPlaylists.OpenLegacy | playlist.py:5-9 | A non-empty name loads that file. Otherwise the playlist is empty. |
| MergeCli.LoadAll | awp/merge.py:10 | Every path is loaded in order. On failure, the error is that of a path every earlier path of which loaded, so the first failure propagates. |
| MergeCli.MergeStepKeys | awp/merge.py:13-15 | A merge with `extreme` gives the target's paths in order, then the other's new paths in the other's order. It holds exactly the paths of both sides. |
| MergeCli.FoldKeysAreUnion | awp/merge.py:12-15 | The result holds exactly the paths of all inputs. They are the first input's paths in its order, then each path found only in later inputs, at its first occurrence, in input order (`FirstNew` of `AllKeys`). |
| MergeCli.Fold | awp/merge.py:14-15 | The merge of each later playlist in turn into the first. `FoldKeysAreUnion` gives its paths. |
| MergeCli.MergeStep | awp/merge.py:13-15 | One merge with `(extreme(16), extreme(0.5))`. `MergeStepKeys` gives its paths, and `MergeOne` shows it never raises. |
| MergeCli.FoldInto | awp/merge.py:14-15 | The loop merges the later playlists in argument order and leaves them unchanged. |
| MergeCli.MergeOne | awp/merge.py:13-15 | `merge` with `(extreme(16), extreme(0.5))` never raises. |
| MergeCli.MergeAnyDirty | awp/playlist.py:171-178 | What merge stores does not depend on the dirty flag it starts with. |
| MergeCli.MergeFiles | awp/merge.py:9-16 | No arguments print nothing. A failing load ends the command. Otherwise it prints the canonical text of the fold over a copy of the first playlist. |
| MergeCli.LoadPlaylists | awp/merge.py:10 | The loop loads each file into a new playlist, in order. |

## Left out

- **Floating point.** Numbers are `real`. `float()` and number formatting are
  the abstract `NumberText`, so IEEE rounding, `str(float)` precision and
  Python 2 integer division in `average` are not modelled.
- **Process and terminal plumbing.** Not modelled:
  - `Popen` and the mplayer arguments;
  - `RaiseOnExit`, gevent spawn/join, and `select`;
  - terminal modes;
  - the EPIPE and ESRCH filters;
  - the screen-clearing entry line.

  The child's output and the keyboard are finite strings, and their end
  stands for the child exiting.
- **Concurrency.** The key loop and the scanner run concurrently in both
  players. The model runs the scanner and the key loop one after the other.
  For simple.py, `SimpleControl.UpdatesCommute` shows the order does not
  change the entries. Interleavings of the echoed text with other terminal
  output are not modelled.
- **Filesystem.** A missing file is the only I/O error modelled. Permission
  errors and partial writes are not. `os.path.split`/`join` are modelled for
  plain POSIX paths only.
- **The endless loops.** `while True` in awp/play.py and `for ... in playlist`
  in awp/simple.py are modelled one pass at a time
  (`PlayControl.PlayTrack`, `SimpleControl.PlayTrack`).
  - For simple.py, these passes are not chained.
  - The model does not follow the greenlet that `return` leaves running.
  - Keyboard EOF is not distinguished from the child exiting.
- **Randomness.** The scaled draw `x` (`random.random() * total`) is an input.
  The distribution of the draw is not modelled. The iteration order of the
  dict `next` builds is the input `order`.
- **Output-only code.** The overwrite warning of `add_item`,
  `format_entry`/`__str__`, `verify` (`os.access`) and `from_directory`
  (directory walk, libmagic) are not modelled. The legacy `writefile` in
  playlist.py cannot run (it joins floats and never imports `os`), so it is
  not modelled either. The root scripts play.py, simple.py, rainymood.py and
  debug.py, and the CLIs awp/lastfm.py, awp/to_m3u.py, awp/missing.py,
  awp/stats.py, awp/generate.py and awp/verify.py, are not part of this model.
- **Settings.** `VOL_MAX` and `VOL_FUDGE == 1` are the parameter
  `VolumeScraper.Settings`, not read from the environment.
- **Custom strategies.** A user strategy function is a total function of
  `(path, ours, theirs)`. A strategy that raises is modelled only for the
  built-in strategies.
- RepeatedLists.CommonDivisorAsWritten: models the brute-force branch for
  integer-typed weights only. With float weights, which `readfile` always
  produces, Python 2's `xrange` raises TypeError on a float argument. That
  TypeError is not modelled.
- Playlists.Playlist.CommonDivisorWeight: follows the corrected search
  (`RepeatedLists.IntendedDivisor`). Where the code raises AssertionError
  (integer weights 4 and 6) or TypeError (`xrange` of float weights), it
  returns the divisor the corrected search finds.
- Playlists.Playlist.ToRepeatedList: uses the corrected divisor, so where
  `_common_divisor_weight` raises AssertionError or TypeError it returns a
  repeated list instead.
- SimpleControl.PlayTrack: an exception the scanner raises (KeyError from its
  `update`, ValueError from a bad number) ends only its greenlet, so the
  reports before it are applied and nothing else is reported.
- `int(weight / scale)` is truncation toward zero, and a negative count
  repeats a path zero times, as Python's list repetition does.

## Findings

| source | as written | input that shows it | evidently intended | confidence | as-written member | corrected member |
|---|---|---|---|---|---|---|
| awp/playlist.py:196-200 | The `assert False` is inside the `for` loop, so the brute-force search gives up after the first candidate (`min_weight - 1`) that fails. | integer weights 4 and 6: 4 does not divide 6, 3 divides neither, and the assertion fires, though 2 divides both | Try every candidate down to 1, and assert only after the loop; 1 always divides whole weights. | not executed | RepeatedLists.AsWrittenAssertsOnFourAndSix | RepeatedLists.IntendedDivisorProperties |
