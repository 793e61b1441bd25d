# CDDB metadata handling of `freenas_rip_cd.py`

`freenas_rip_cd.py` rips an audio CD with cdda2wav, encodes each track with
lame and, when the disc's artist and album are known, moves the `.mp3` files
to `/tmp/<artist>/<album>`. This project models the metadata logic inside
`main` in Dafny and proves properties about it. That logic covers:

- reading `audio.cddb`, the CDDB file cdda2wav writes: the `DTITLE=`,
  `DYEAR=`, `DGENRE=` and `TTITLE<n>=` lines;
- splitting the disc title into artist and album;
- the empty default used when that file is missing;
- removing `"` and `/` from every field and title;
- the yes/no questions before encoding;
- the `.wav`/`.mp3` file names and the tag values for each encoder run;
- the decision whether to publish the result.

Modules, one file each:

| file | module | what it holds |
|---|---|---|
| `wrappers.dfy` | `Wrappers` | `Option` and `Result` |
| `text.dfy` | `Text` | Python 2 string operations: `find`, the last occurrence of a substring, `(.*)` up to the newline, `\d*`, `int(d)`, `str(n)`, one-character `replace` |
| `cddb.dfy` | `Cddb` | The `disc_info`/`songs` record. The line scan as a specification function `Scan` and as the loop `ScanCddb`. The artist/album split. The missing-file default. |
| `sanitise.dfy` | `Sanitise` | The two sanitising loops and the `replace` chains they apply |
| `naming.dfy` | `Naming` | `%.2d` padding, file names, the track tag, the encoding loop, the publication guard and the album directory |
| `prompt.dfy` | `Prompt` | `.upper().strip()`, the four answers, and the loop that asks until one is given |
| `pipeline.dfy` | `Pipeline` | The steps of `main` in order, and what holds of their composition |

The two places where the script raises are modelled as `Err` results:

- `EmptyTrackNumber` is `int('')` on a `TTITLE=` line with no digits.
- `NoDiscTitle` is `re.match` given `None` when an existing `audio.cddb` has no
  `DTITLE=` line.

A field that was never assigned (`disc_info.get` returns `None`) is `None`.
A field assigned the empty string is `Some("")`.

Behaviour of the script worth knowing:

- **Split position.** The split into artist and album happens at the *last*
  `" / "`, because the first group of `(.*) / (.*)` is greedy.
  (`Cddb.SplitTitle`, `Cddb.AlbumHasNoSeparator`.)
- **Which value wins.** A disc field is taken while it is unset *or empty*.
  So, among the lines that no earlier disc step takes, the first non-empty
  value for a key wins, and an empty value is overwritten by a later line.
  A line holding two disc keys is taken by the first step that fires, and
  the `continue` skips the other keys on it: in the lines
  `DTITLE=a DYEAR=1999` and `DYEAR=2000`, the year becomes `2000`.
  (`Cddb.DiscFieldFirstNonEmptyWins`, `Cddb.ScanLineField`,
  `Cddb.TitleLineHidesYear`, `Cddb.TwoKeyLineExample`.)
- **Parse errors.** Reading an existing file raises in the two cases above.
  (`Cddb.ParseCddbFailsIff`, `Cddb.ScanFailsOnlyOnBareTrack`.)
- **Unset fields.** A field whose key appears on no line of an existing
  file stays unset (`None`). It is not set to the empty string. An unset
  artist, album, year or genre reaches lame as the text `None`.
  (`Cddb.FieldUnsetWithoutKey`, `Pipeline.UnsetFieldsTaggedNone`.)
- **The '/' replacement.** In disc fields, '/' becomes `" - "` (with
  spaces). In track titles it is deleted.
- **Relative album paths.** Sanitising keeps `.` characters. A disc title
  `.. / x` gives artist `..`, so the album directory is `/tmp/../x`, which
  is `/x`. The `os.makedirs` and the `mv` at lines 151-154 then aim at a
  directory outside `/tmp`; whether they succeed depends on permissions.
  (`Pipeline.DotDotArtistLeavesTmp`.)

## Model

| member | source | states |
|---|---|---|
| Text.Find | freenas_rip_cd.py:60 | the leftmost index at which the key occurs, and no earlier one; `None` only when it occurs nowhere |
| Text.ContainsIff | freenas_rip_cd.py:60 | `key in line` (`Text.Contains`) holds exactly when the key occurs at some index |
| Text.FindLast | freenas_rip_cd.py:84 | the rightmost occurrence, present exactly when the pattern occurs, with none after it |
| Text.TakeLine | freenas_rip_cd.py:60 | `(.*)` takes a prefix with no newline that stops at a newline or the end |
| Text.DigitRun | freenas_rip_cd.py:78 | `\d*` takes the longest run of digits |
| Text.DecimalValue | freenas_rip_cd.py:79 | `int(d)` on a digit string; pinned down by `Text.Decimal`, `Text.LeadingZero` and `Naming.Pad2`, which read values back through it |
| Text.Decimal | freenas_rip_cd.py:144 | `str(n)` is a digit string with no leading zero that `int` reads back as `n` |
| Text.LeadingZero | freenas_rip_cd.py:138 | a leading `0` does not change the value `int` reads |
| Text.DecimalLength | freenas_rip_cd.py:138 | `str(n)` has one digit exactly below 10, and at most two exactly below 100 |
| Text.Remove | freenas_rip_cd.py:103 | `replace(c, '')` leaves no `c`, keeps every other character and never lengthens |
| Text.Replace | freenas_rip_cd.py:103 | `replace(c, rep)` leaves no `c` unless `rep` holds one, and keeps every other character |
| Text.RemoveAppend | freenas_rip_cd.py:106 | deleting a character distributes over concatenation |
| Text.ReplaceAppend | freenas_rip_cd.py:103 | replacing a character distributes over concatenation |
| Cddb.Set | freenas_rip_cd.py:60 | assigning one `disc_info` key changes that key and no other |
| Cddb.Capture | freenas_rip_cd.py:60 | `re.findall(key + '(.*)', line)[0]` exists exactly when the key is in the line, and holds no newline |
| Cddb.CaptureIsRestOfLine | freenas_rip_cd.py:60 | the captured value is the text after the leftmost key, up to the newline or the end of the line |
| Cddb.TrackMatch | freenas_rip_cd.py:78 | `TTITLE(\d*)=(.*)` matches exactly when the pattern occurs somewhere; the number is all digits and the title holds no newline; which match and which groups: `Cddb.TrackMatchGroups` |
| Cddb.TrackMatchFromLeftmost | freenas_rip_cd.py:78 | the search from any index before the leftmost match stops at that match |
| Cddb.TrackMatchGroups | freenas_rip_cd.py:78 | the match taken is the leftmost `TTITLE` followed by digits and `=`; the first group is those digits, and the second is the rest of the line after the `=`, up to the newline |
| Cddb.TrackMatchOfTrackLine | freenas_rip_cd.py:78 | the line `TTITLE<digits>=<name>`, with no newline in the name, yields exactly `digits` and `name`, whether or not the line ends in its newline |
| Cddb.TrackTextSetsTitle | freenas_rip_cd.py:76-79 | on the line's own text: `TTITLE<digits>=<name>`, with or without its newline, with at least one digit, taken by no disc step, sets `songs[int(digits) + 1] = name` and changes nothing else |
| Cddb.ScanLine | freenas_rip_cd.py:57-81 | one pass of the loop body as a function; characterised by `Cddb.UnmatchedLineChangesNothing`, `Cddb.TrackLineSetsOneTitle`, `Cddb.TrackTextSetsTitle`, `Cddb.DiscLineIsNotATrack`, `Cddb.ScanLineField` and `Cddb.ScanLineSongs` |
| Cddb.Scan | freenas_rip_cd.py:50-81 | the whole loop as a function, stopping at the first raise; characterised by `Cddb.DiscFieldFirstNonEmptyWins`, `Cddb.SongsHoldLastTitles` and `Cddb.ScanFailsOnlyOnBareTrack` |
| Cddb.ScanOneLine | freenas_rip_cd.py:57-81 | one pass of the loop body equals one step of the specification: `DTITLE=`, `DYEAR=`, `DGENRE=` while unset or empty, each with `continue`, then `TTITLE` |
| Cddb.ScanCddb | freenas_rip_cd.py:50-81 | the loop over the file's lines produces exactly `Scan(lines)`, stopping at the first raise |
| Cddb.UnmatchedLineChangesNothing | freenas_rip_cd.py:57-81 | a line holding no key and no `TTITLE<digits>=` leaves `disc_info` and `songs` unchanged |
| Cddb.TrackLineSetsOneTitle | freenas_rip_cd.py:76-79 | a `TTITLEn=rest` line taken by no disc step sets `songs[n+1] = rest`, overwriting any earlier title, and changes no other key and no disc field |
| Cddb.DiscLineIsNotATrack | freenas_rip_cd.py:61 | a line taken by a disc step does not touch `songs` (the `continue`) |
| Cddb.ScanFailsOnlyOnBareTrack | freenas_rip_cd.py:79 | the scan raises only with `EmptyTrackNumber`, and only if some line is `TTITLE=` with no digits |
| Cddb.FirstNonEmpty | freenas_rip_cd.py:57 | a value found is non-empty and sits at an index before which every value seen was empty, so it is the first non-empty one; when none is found, every value seen was empty |
| Cddb.FirstNonEmptySnoc | freenas_rip_cd.py:57 | one more value counts only if no earlier value was non-empty |
| Cddb.SettledSnoc | freenas_rip_cd.py:57-60 | one more value replaces a field exactly while the field is unset or empty |
| Cddb.ScanLineField | freenas_rip_cd.py:57-75 | on any line, one pass sets a scanned field to the captured value when its own step takes the line (`Cddb.Takes`: unset or empty and the key present, with `Cddb.Unset` for `not disc_info.get(k)`), and no earlier step took it first (`Cddb.StepTakes`); otherwise the field is left as it was |
| Cddb.TitleLineHidesYear | freenas_rip_cd.py:57-67 | a first line setting the title takes the turn even when it also holds `DYEAR=`, so after a following `DYEAR=` line the year is that line's capture |
| Cddb.TwoKeyLineExample | freenas_rip_cd.py:57-67 | the lines `DTITLE=a DYEAR=1999` and `DYEAR=2000` leave the year `2000`, although the first line holds `DYEAR=` |
| Cddb.DiscFieldFirstNonEmptyWins | freenas_rip_cd.py:57-75 | after the scan, each disc field holds the first non-empty value seen for its key, or `""` if all were empty, or is unset if its key never appeared |
| Cddb.TitleUnsetIffNoTitleLine | freenas_rip_cd.py:57-63 | the title stays unset exactly when no line holds `DTITLE=` |
| Cddb.FieldUnsetWithoutKey | freenas_rip_cd.py:57-75 | a disc field whose key appears on no line is never assigned |
| Cddb.CapturesEmpty | freenas_rip_cd.py:57-75 | no value is captured for a key exactly when no line holds it |
| Cddb.ScanLineKeepsSetField | freenas_rip_cd.py:57 | one pass never changes a field that holds a non-empty value |
| Cddb.SetFieldIsKept | freenas_rip_cd.py:57-75 | a field that holds a non-empty value keeps it to the end of the scan |
| Cddb.ScanLineSongs | freenas_rip_cd.py:76-81 | one pass over a line with at most one pattern updates `songs` only through its `TTITLE` match |
| Cddb.SongsHoldLastTitles | freenas_rip_cd.py:76-81 | track `n` is in `songs` exactly when a `TTITLE(n-1)=` line exists, and its title is that of the last such line |
| Cddb.ScanLinePlainFails | freenas_rip_cd.py:79 | a line with at most one pattern raises exactly when it is a bare `TTITLE=` |
| Cddb.PlainScanFailsIffBareTrack | freenas_rip_cd.py:76-81 | when each line holds at most one pattern, the scan raises exactly when some line is a bare `TTITLE=` |
| Cddb.ScanHasNoNewlines | freenas_rip_cd.py:56-81 | no field and no title produced by the scan holds a newline |
| Cddb.SplitTitle | freenas_rip_cd.py:84 | a split exists exactly when the title holds `" / "`; artist + `" / "` + album is the title, and no `" / "` starts after the artist |
| Cddb.SplitTitleUnique | freenas_rip_cd.py:84 | those clauses fix the split: any artist and album rejoining to the title around a separator after which none starts are the ones `SplitTitle` gives |
| Cddb.AlbumHasNoSeparator | freenas_rip_cd.py:84-86 | the album never holds `" / "`, because the split is at the last one |
| Cddb.SplitAtOnlySeparator | freenas_rip_cd.py:84-86 | with exactly one `" / "`, artist and album are the text on either side of it |
| Cddb.SplitDiscFields | freenas_rip_cd.py:84-86 | artist and album are set together, exactly when the title holds `" / "`, rejoin to the title around a separator after which none starts, and leave the other fields as they were |
| Cddb.ScanLeavesArtistAlbumUnset | freenas_rip_cd.py:50-81 | the scan itself never sets artist or album |
| Cddb.SplitDisc | freenas_rip_cd.py:84-86 | the split applied to the disc record; characterised by `Cddb.SplitDiscFields` |
| Cddb.ParseCddb | freenas_rip_cd.py:50-86 | reading an existing file; characterised by `Cddb.ParseCddbFailsIff` and `Cddb.ParseCddbSplitsTitle` |
| Cddb.ParseCddbFailsIff | freenas_rip_cd.py:79-84 | reading an existing file raises exactly when a line raises or no line holds `DTITLE=`; the latter is `NoDiscTitle` |
| Cddb.ParseCddbSplitsTitle | freenas_rip_cd.py:50-86 | a successful read keeps the scanned title, year, genre and track titles; artist and album are set exactly when the title holds `" / "`, and then rejoin to it around a separator after which none starts, which by `Cddb.SplitTitleUnique` is the last-`" / "` split |
| Cddb.TrackNumbers | freenas_rip_cd.py:96 | `enumerate(..., start=1)` over `n` files gives exactly the numbers 1..n |
| Cddb.MissingFile | freenas_rip_cd.py:89-97 | without the file, all five fields are `""`, and `songs` has keys 1..N, each mapped to `""` |
| Cddb.DefaultMetadata | freenas_rip_cd.py:89-97 | the assignments and the enumeration loop build exactly that record |
| Cddb.MissingFileTrackCount | freenas_rip_cd.py:96-97 | the default has exactly N tracks |
| Cddb.ReadMetadata | freenas_rip_cd.py:50-97 | the file's record if it exists, else the default; characterised by the `ParseCddb` and `MissingFile` lemmas |
| Sanitise.CleanDiscText | freenas_rip_cd.py:103 | a cleaned disc field holds no `"` and no '/' |
| Sanitise.CleanDiscTextIsOnePass | freenas_rip_cd.py:103 | the two `replace` calls delete each `"`, turn each '/' into `" - "` and keep every other character in order |
| Sanitise.CleanDiscTextIdempotent | freenas_rip_cd.py:103 | cleaning a disc field twice is cleaning it once |
| Sanitise.CleanField | freenas_rip_cd.py:102-104 | `None` stays `None`; a present value becomes present and clean |
| Sanitise.CleanDisc | freenas_rip_cd.py:101-104 | every one of the five fields is cleaned |
| Sanitise.SanitiseDisc | freenas_rip_cd.py:101-104 | the loop over the five keys yields exactly the cleaned record |
| Sanitise.CleanDiscIdempotent | freenas_rip_cd.py:101-104 | sanitising the disc record twice is sanitising it once |
| Sanitise.CleanTitle | freenas_rip_cd.py:106 | a cleaned title holds no `"` and no '/' |
| Sanitise.CleanTitleDeletesOnly | freenas_rip_cd.py:106 | a title loses exactly its `"` and '/' characters; the rest stay in order |
| Sanitise.CleanTitleIdempotent | freenas_rip_cd.py:106 | cleaning a title twice is cleaning it once |
| Sanitise.CleanSongs | freenas_rip_cd.py:105-106 | the same track numbers, each title clean |
| Sanitise.SanitiseSongs | freenas_rip_cd.py:105-106 | the loop over the track numbers yields exactly the cleaned map |
| Sanitise.CleanMetadata | freenas_rip_cd.py:99-106 | both sanitising loops on the record; characterised by `Sanitise.CleanMetadataIsClean` |
| Sanitise.CleanMetadataIsClean | freenas_rip_cd.py:99-106 | after both loops, no field or title holds `"` or '/', the track numbers are kept, and a second pass changes nothing |
| Naming.Pad2 | freenas_rip_cd.py:138 | `%.2d` gives at least two digits, exactly two below 100, reads back as the number, and is `str(n)` from 10 up |
| Naming.WavName | freenas_rip_cd.py:138 | `'audio_%.2d.wav' % n`; characterised by `Naming.WavNameReadsBack` and `Naming.WavNameInjective` |
| Naming.WavNameReadsBack | freenas_rip_cd.py:138 | the `.wav` name is `audio_` + digits that read back as the track number + `.wav` |
| Naming.WavNameInjective | freenas_rip_cd.py:138 | equal `.wav` names mean equal track numbers |
| Naming.Mp3Name | freenas_rip_cd.py:139 | `'%.2d %s.mp3' % (n, title)`; characterised by `Naming.Mp3NameReadsBack` and `Naming.Mp3NameInjective` |
| Naming.Mp3NameReadsBack | freenas_rip_cd.py:139 | the `.mp3` name ends in `.mp3`; the text before its first space reads back as the number, and the rest is the title |
| Naming.Mp3NameInjective | freenas_rip_cd.py:139 | equal `.mp3` names mean equal track numbers and titles |
| Naming.TrackTag | freenas_rip_cd.py:144 | `'%s/%s' % (n, numsongs)`; characterised by `Naming.TrackTagReadsBack` |
| Naming.TrackTagReadsBack | freenas_rip_cd.py:144 | the track tag holds a '/', and the text on either side reads back as the track number and `len(songs)` |
| Naming.TagText | freenas_rip_cd.py:142-145 | `'%s' % disc_info.get(k)`: a set value as it stands, an unset one as the text `None`; used for every run by `Naming.JobTags` and `Pipeline.UnsetFieldsTaggedNone` |
| Naming.JobFor | freenas_rip_cd.py:136-137 | the pass of the loop for track `n`, carrying `songs[n]`, `len(songs)` and the disc record; characterised by `Naming.PlanEncoding` and `Naming.JobsWriteDistinctFiles` |
| Naming.WavFile | freenas_rip_cd.py:138 | the `.wav` file a run reads; its name reads back by `Naming.WavNameReadsBack`, and runs differ by `Naming.JobsWriteDistinctFiles` |
| Naming.Mp3File | freenas_rip_cd.py:139 | the `.mp3` file a run writes; number and title read back by `Naming.Mp3NameReadsBack`, and runs differ by `Naming.JobsWriteDistinctFiles` |
| Naming.TagsOf | freenas_rip_cd.py:142-145 | the six tag values on lame's command line; characterised by `Naming.JobTags` and `Pipeline.UnsetFieldsTaggedNone` |
| Naming.JobTags | freenas_rip_cd.py:136-145 | lame gets the track's own title, a track tag that reads back as the track number and `len(songs)`, and each disc value as it stands, or `None` when unset |
| Naming.PlanEncoding | freenas_rip_cd.py:136-145 | one encoder run per track, each built from the current record with `len(songs)`; no track twice; every track covered |
| Naming.JobsWriteDistinctFiles | freenas_rip_cd.py:138-139 | two different tracks never read the same `.wav` file or write the same `.mp3` file |
| Naming.ShouldPublish | freenas_rip_cd.py:148 | `disc_info.get('artist') and disc_info.get('album')`; characterised by `Naming.AlbumDir` |
| Naming.Join | freenas_rip_cd.py:149 | POSIX `os.path.join` of two parts; pinned down for the album directory by `Naming.AlbumDirIsTmpArtistAlbum` |
| Naming.AlbumDir | freenas_rip_cd.py:148-149 | an album directory exists exactly when artist and album are both non-empty |
| Naming.AlbumDirIsTmpArtistAlbum | freenas_rip_cd.py:149 | with no '/' in artist or album, the directory is the path string `/tmp/<artist>/<album>`, not normalised |
| Prompt.Upper | freenas_rip_cd.py:115 | `upper()` keeps the length and maps each character on its own |
| Prompt.StripLeft | freenas_rip_cd.py:115 | what is removed is all whitespace, and what is left starts with a non-space |
| Prompt.StripRight | freenas_rip_cd.py:115 | what is removed is all whitespace, and what is left ends with a non-space |
| Prompt.Strip | freenas_rip_cd.py:115 | `.strip()` as `rstrip` after `lstrip`; characterised by `Prompt.StripLeft`, `Prompt.StripRight` and `Prompt.StripSplits` |
| Prompt.StripSplits | freenas_rip_cd.py:115 | every reply is its stripped form with whitespace on either side |
| Prompt.Normalise | freenas_rip_cd.py:115 | `.upper().strip()`; characterised by `Prompt.NormaliseIgnoresPadding`, `Prompt.NormaliseIgnoresCase`, `Prompt.NormalisedIsCore` and `Prompt.PaddedWordReadsAsWord` |
| Prompt.IsAnswer | freenas_rip_cd.py:114 | `resp in ('Y', 'N', 'YES', 'NO')` (`Prompt.AnswerWord`) after normalising; see the examples and `Prompt.FirstAnswer` |
| Prompt.IsYes | freenas_rip_cd.py:116 | `resp in ('Y', 'YES')` (`Prompt.YesWord`) after normalising; see `Prompt.YesExample` and `Prompt.NoExample` |
| Prompt.UpperKeepsSpace | freenas_rip_cd.py:115 | upper-casing never turns whitespace into non-whitespace or back |
| Prompt.UpperIdempotent | freenas_rip_cd.py:115 | upper-casing twice is upper-casing once |
| Prompt.StripLeftPadded | freenas_rip_cd.py:115 | leading whitespace does not survive `lstrip` |
| Prompt.StripRightPadded | freenas_rip_cd.py:115 | trailing whitespace does not survive `rstrip` |
| Prompt.NormaliseIgnoresPadding | freenas_rip_cd.py:114-115 | whitespace around a reply never changes how it is read |
| Prompt.NormaliseIgnoresCase | freenas_rip_cd.py:114-115 | letter case never changes how a reply is read |
| Prompt.NormalisedIsCore | freenas_rip_cd.py:115 | every reply is its normalised form, in some letter case, with whitespace around it |
| Prompt.PaddedWordReadsAsWord | freenas_rip_cd.py:114-116 | conversely, a word in any case with whitespace around it reads as the upper-case word |
| Prompt.YesExample | freenas_rip_cd.py:116 | `yes` typed in lower case is read as yes |
| Prompt.NoExample | freenas_rip_cd.py:114-116 | ` n ` ends the question but is not yes |
| Prompt.NotAnAnswerExample | freenas_rip_cd.py:114 | `yeah` is not one of the four answers, so the question is asked again |
| Prompt.FirstAnswer | freenas_rip_cd.py:114-115 | the answer taken is one of `Y`, `N`, `YES`, `NO`, and exists exactly when some reply is one |
| Prompt.FirstAnswerIsFirst | freenas_rip_cd.py:114-115 | the answer taken is the first reply that is an answer; all earlier replies are ignored |
| Prompt.AskYesNo | freenas_rip_cd.py:113-115 | with prompting off, `resp` stays `''`; otherwise the loop ends with the first answer, or raises when input runs out |
| Pipeline.Prepare | freenas_rip_cd.py:50-106 | read, then sanitise; characterised by `Pipeline.PrepareMetadata`, `Pipeline.NoFileOutcome`, `Pipeline.PreparedIsClean` and `Pipeline.PublishedOnlyWithSeparator` |
| Pipeline.PrepareMetadata | freenas_rip_cd.py:50-106 | the scan loop, then the split or the default, then both sanitising loops, give exactly the read-then-cleaned record |
| Pipeline.NoFileOutcome | freenas_rip_cd.py:89-106 | without a metadata file, every field is `""`, there are `n` tracks numbered 1..n with empty titles, and nothing is published |
| Pipeline.PreparedIsClean | freenas_rip_cd.py:99-149 | the record that reaches encoding is clean; when it is published, the directory is the path string `/tmp/<artist>/<album>` |
| Pipeline.PublishedOnlyWithSeparator | freenas_rip_cd.py:84-148 | a record read from a file is published only if its title held `" / "`, under the cleaned parts on either side of the last one |
| Pipeline.PlanFromFile | freenas_rip_cd.py:136-145 | encoding fails exactly when reading fails, with the same error; otherwise it makes exactly one run per track of the prepared record, each built from that record, and no two runs share a `.wav` or `.mp3` file |
| Pipeline.UnsetFieldsTaggedNone | freenas_rip_cd.py:84-144 | for a file with no `DYEAR=` line the year tag of every run is `None`, likewise the genre, and artist and album when the disc title holds no `" / "` |
| Pipeline.DotDotArtistLeavesTmp | freenas_rip_cd.py:84-149 | the one-line file `DTITLE=.. / x` is published to `/tmp/../x` |

## Left out

- The external programs are not modelled: `cdda2wav` (line 45), `lame`
  (142-145), and `mv`, `rm -rf` and `rmdir` (154-156). The model stops at the
  file names and tag values given to lame.
- Directory handling is not modelled: `tempfile.mkdtemp`, `os.mkdir`,
  `os.makedirs`, `os.path.isfile` and `os.path.exists`. Reading the file is
  not modelled either. The input is the file's lines, or `None` when the file
  is missing.
- `glob` enumeration is not modelled. Only the number of `.wav` files is an
  input, and the `.mp3` files moved at line 153 are not modelled.
- The `BASEDIR` prefixes joined onto the `.wav` and `.mp3` names at lines
  138-139 are left out, because `mkdtemp` picks them at random. The names
  are modelled without them.
- The interactive edit passes (lines 117-123 and 130-134) are not modelled.
  Their values come from the terminal, and they loop until the user
  confirms. The model starts encoding from the record as read and
  sanitised. Edited values are not sanitised again by the script.
- `_rl_input` and readline pre-filling are not modelled. The replies to a
  question are an input sequence, and running out of them stands for
  `raw_input` raising.
- `print` output, timestamps and elapsed time are not modelled.
- Python 2 dictionary order in `songs.items()` is not guaranteed.
  `Naming.PlanEncoding` takes the tracks in an arbitrary order and makes no
  claim about which order the script uses.
- Shell quoting of the lame command line is not modelled. Sanitising removes
  `"`, but `$` and backquotes in titles would still reach the shell.
- `str.upper()` is modelled for the C locale: only ASCII letters change.
  Bytes are modelled as characters.
- Cddb.SongsHoldLastTitles: stated only for files whose lines each hold at
  most one of the four patterns. On a line that also holds a disc key, a
  disc step may take the line first.
- Cddb.PlainScanFailsIffBareTrack: stated under the same assumption. The
  converse direction (`Cddb.ScanFailsOnlyOnBareTrack`) holds for every
  input.
- Cddb.DiscFieldFirstNonEmptyWins: for the year and the genre, stated only
  for files whose lines holding that key hold no key that the scan tries
  earlier. For the title it holds for every file.
