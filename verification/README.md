# Camera firmware: a verified model

A Dafny model of the self-contained algorithms of the camera and gimbal firmware, with proofs of what they
promise. `dafny verify dfyconfig.toml` checks everything. One module per component, named as its file.

**The configuration file and its two programs.** The camera application loads `key=value` text strictly and rewrites
one key at a time (`camera_app/src/config.c`); the web service has its own reader, its own batch editor and its own
form validation (`web/mt11-web.c`). `Ini` says what a line, a section and the values of a key are, once for both.
`AppConfig` and `ConfigSave` specify the application's loader and editor, `Settings` says what each text means for
its field, `WebIni` and `WebSave` the web service's editor and what it installs, `WebForm` the form. `LineBuffer`,
`CameraApp`, `WebService`, `WebPage` and `FormService` hold the programs' own loops, down to the loader's 512-byte
buffer that is cut in place, each proved to compute its specification. `TwoPrograms` and `WebForm.FormThenLoad` join
both programs: what the web service installs, the application loads, with exactly the submitted values.
`SupportTable` writes out the support proxy's rows of both programs and shows that the general results apply to
them. `Publish` runs any number of writers of both kinds against one directory, step by step in any order, each
stopping or failing anywhere, and finds the exact conditions under which no change is lost and the result loads;
`Backups` says what is left at the backup path.

**Login sessions.** `Sessions` is the file of "token expiry" lines, `SessionRuns` whole histories of logins,
logouts, clock ticks and reboots, with a definition of which logins should still count that never mentions the
file. `SessionStore` holds the loops over the array of sixteen entries. `SessionFaults` lets any store fail or be cut.

**Restart generations.** `Restart` interleaves any number of web workers with the launcher and dying processes: what a
restart stops is exactly what its scans saw, never an instance of its own request, and no restart gets stuck.

**Telemetry in video.** `AnnexB` splits a byte stream into units however it is read in pieces; `Telemetry` undoes
emulation prevention and SEI coding.

**Numeric loops.** `Autofocus`, `RateCurve`, `Transform` (reals for `float`), `Crc` and `Frames` (bit-vector
registers), `Polynomials` (the registers as remainders).

**Log.** `LogTail`: rotation and the page that shows the tail.

## Results that need a condition

- `TwoPrograms.EditThenLoad`: on a text the application accepts, a web edit succeeds exactly if it can be written
  (`Writes`: nothing is missing where nothing may be added, the text is not empty and not above 64 KiB); it never
  meets a duplicate key. The settings page installs the result (`InstallThenLoad`) exactly if also the old text is
  not above 64 KiB and none of its assignments has an empty key: the application accepts such a line and
  `validate_ini()` refuses it (`SupportTable.EmptyKeyRefused`). The edited text loads if and only if every changed
  value fits its line (`RewritesFit`) and the new values pass the support proxy's rule. The web service does not
  look at the loader's buffer: `EditSpoils` gives, for every row and any two accepted values of which the new one is
  not shorter by three or more, a text it spoils, and `ShorterFits` shows that shorter values never do.
- `LogTail.ShowsTheTailExactly`: a capture process started again on a current file above 512 KiB discards both files. In
  every run the page shows the tail of everything captured if and only if that never happened or the lines captured
  since fill the page. `OneCapture` is the run without restarts, `DiscardExample` one that shows too little.
- `Transform.AxisExact`, `InverseAfterTransform`, `TransformAfterInverse`: there and back is exact for angles strictly
  inside (-180, 180), and at a half turn exactly for the signs of the offset stated there.
- `Publish`: the two writers are atomic but not serialised. `EditOfLast`: what the application installs is the edit
  of the text it replaces if and only if that text and the one it opened have the same `Frame`: the same other
  lines, with the key assigned, or to be added, at the same places (`ConfigSave.FramePresent`). That holds if
  nothing was installed between. `ChangeLost` is a schedule in which a web worker's text is replaced by an edit of
  the text before it. `ca_config_param_save` judges the support proxy's rule on the text it loaded, which need not
  be the text its editor opens a moment later: `EditLoads` says exactly when the edit loads, and
  `SupportTable.RuleBreaks` is a schedule of two acceptable jobs after which the file does not load.
- `SessionRuns.AcceptedExactly` is for histories whose stores succeed; `SessionFaults.LoginLost` is one where a cut
  store loses a live login. For every history `FileIsList` says exactly which entries the file lists, told event by
  event and without the file, and `AcceptedIfListed` that a token is accepted if and only if it is on that list.
  Nothing is ever gained: `AcceptedOnlyIf`, `NeverBack` and `DestroyedForGood`.
- `Restart`: the comment asks for the started record to be older both before and after the scan. With a record
  that only grows the second look implies the first, and the invariant uses only the second.
- `Autofocus.Search` needs head room below the `int` limits: closer to them `maximum - position`, the window
  `best_position` plus or minus the step, and the fine loop's last `position++` overflow in the C code.

## Model

| member | source | states |
|---|---|---|
| Ini.TrimParts | camera_app/src/config.c:280-289 | trimming removes white space at both ends only, and all of it |
| Ini.TrimUnique | web/mt11-web.c:3033-3037 | the trimmed text is the only bare text between two runs of white space, so both programs trim alike |
| Ini.ClassifyAssignment | camera_app/src/config.c:530-538 | any line with `=` that does not start like a header or comment assigns the trimmed text before its first `=` |
| Ini.EntrySplit | web/mt11-web.c:3070-3081 | conversely an assignment line splits at its first `=` into key and value |
| Ini.ClassifyHeader | camera_app/src/config.c:512-529 | a bracketed name with only white space after it is a header with the trimmed name |
| Ini.LinesFlatten | camera_app/src/config.c:498-509 | cutting a text into lines loses nothing; only the last line may lack its newline |
| Ini.FlattenLines | camera_app/src/config.c:685-713 | lines written one after the other are read back as the same lines |
| Ini.ValuesConcat | camera_app/src/config.c:498-563 | what a text assigns is what its first part assigns, then what the rest assigns in the section reached |
| Decimal.PrintedReadsBack | camera_app/src/config.c:750-751 | a printed number is read back by strtol() and, if not negative, by strtoul() |
| Decimal.PrintLength | web/mt11-web.c:2753-2757 | a number below ten to the k prints in at most k digits |
| Decimal.StrtolExactly | camera_app/src/config.c:355-366 | strtol() takes exactly the numerals (white space, a sign, leading zeros, the printed number), each for its number |
| Decimal.StrtoulExactly | camera_app/src/config.c:375-386 | strtoul() takes exactly those of magnitude below two to the 64, negative ones wrapped |
| AppConfig.LoadLineField | camera_app/src/config.c:546-560 | one accepted line changes exactly what it says about each field |
| AppConfig.RefusedLine | camera_app/src/config.c:498-563 | a line the loader refuses, for any of its reasons, makes the whole text unacceptable |
| AppConfig.LoadMeaning | camera_app/src/config.c:480-580 | the loader succeeds exactly when all lines are well formed and every field is assigned at most once and acceptably, and then every field holds its assigned or its old value |
| Settings.SetFieldExactly | camera_app/src/config.c:303-387 | set_field() takes exactly the texts that mean something for the field, told kind by kind and character by character, and stores what they mean: a string or timezone the text itself, a switch true or false, an option its value, a number the number denoted |
| Settings.LoadExactly | camera_app/src/config.c:480-580 | the loader returns a structure exactly if the lines are well formed, every field holds the meaning of the one text assigned to it or what it held, and the support rule holds |
| Settings.FailureExactly | camera_app/src/config.c:498-575 | a failed load names the first refused line, by its number, with what is wrong with it, or the support rule if no line is |
| LineBuffer.TrimInPlace | camera_app/src/config.c:280-289 | on the character array: the returned pointer holds the trimmed string and nothing outside the old string is written |
| LineBuffer.StrChr | camera_app/src/config.c:513-530 | distance to the first occurrence, or to the terminating NUL |
| LineBuffer.ScanHeader | camera_app/src/config.c:512-529 | the loader's pointer work on a header line yields what the line means |
| LineBuffer.ScanEntry | camera_app/src/config.c:530-544 | writing a NUL over `=` and trimming both sides in place yields key and unquoted value |
| LineBuffer.ScanLine | camera_app/src/config.c:510-544 | the whole in-place scan of a line yields what the line means |
| CameraApp.FGets | camera_app/src/config.c:498-504 | one line or the first 511 characters of it, as a C string in the buffer |
| CameraApp.TooLong | camera_app/src/config.c:504-509 | the missing-newline test refuses exactly the lines of more than 510 characters |
| CameraApp.LoadItem | camera_app/src/config.c:510-560 | the branches on a scanned line take the specified step, for every kind of line |
| CameraApp.Load | camera_app/src/config.c:480-580 | the loop over buffered lines returns the specified configuration or the specified error with its line number; on success every field holds the meaning of the text assigned to it |
| CameraApp.FirstPass | camera_app/src/config.c:659-675 | finds whether any part of the section, repeated or not, assigns the key |
| CameraApp.SaveField | camera_app/src/config.c:647-735 | both passes write exactly the specified text, for a missing file too |
| CameraApp.FindParam | camera_app/src/config.c:582-589 | the row of the index-th numeric parameter |
| CameraApp.ParamRowIsIndexth | camera_app/src/config.c:582-589 | the row found has a parameter name and exactly index named rows stand before it; none is found exactly if there are no more |
| CameraApp.NumberTextReads | camera_app/src/config.c:750-759 | the text a number is saved as is plain, and where accepted reads back as that number |
| CameraApp.NumberTextTaken | camera_app/src/config.c:750-762 | the field takes the text of a number exactly if it takes the number (0 and 1 for a switch, a value of an option, a number in range), and stores it; the text is the number in decimal or the last option with that value |
| CameraApp.HeldIsTaken | camera_app/src/config.c:624-642 | every number a field can hold is one it takes |
| CameraApp.CameraConfig.ParamSave | camera_app/src/config.c:737-771 | succeeds exactly for a whole number in range that the indexed field takes, over a file that loads, if the resulting structure passes the support rule and the file can be written; then structure and file hold it, the file is the edit of the old one, and loading it gives the structure; on any failure both stay |
| ConfigSave.PutKeepsOthers | camera_app/src/config.c:678-724 | every other key of every section reads as before, in any text |
| ConfigSave.PutSets | camera_app/src/config.c:678-724 | the key reads the new value wherever it was assigned, and once if it was not |
| ConfigSave.PutEnded | camera_app/src/config.c:710-719 | every written line ends in a newline |
| ConfigSave.SavedLines | camera_app/src/config.c:678-724 | the saved bytes read back as exactly the lines the editor wrote |
| ConfigSave.SavedNew | camera_app/src/config.c:716-719 | without a file the new one is exactly a blank line, the header and the setting |
| ConfigSave.PutSurvivors | camera_app/src/config.c:644-724 | all other lines survive in order; a header is added exactly when no line belongs to the section |
| ConfigSave.PutTwice | camera_app/src/config.c:678-724 | a second save replaces the first line by line |
| ConfigSave.SaveSave | camera_app/src/config.c:644-724 | saving one value and then another leaves the bytes of saving the second alone |
| ConfigSave.SaveFixedPoint | camera_app/src/config.c:644-724 | saving the same value again changes no byte |
| ConfigSave.SaveKeepsLines | camera_app/src/config.c:644-646 | comments, unknown settings and other sections survive verbatim, on whole texts |
| ConfigSave.PutFills | camera_app/src/config.c:678-724 | the written lines are the frame of the input with the new setting in every open place |
| ConfigSave.SlotsRead | camera_app/src/config.c:678-724 | conversely the frame of the input can be read off the written lines |
| ConfigSave.SavedAlike | camera_app/src/config.c:647-735 | saving a value makes two files the same if and only if they have the same frame |
| ConfigSave.FramePresent | camera_app/src/config.c:647-735 | the frame of a text that assigns the key is its other lines, completed, and the places of the key's own lines |
| ConfigSave.PutStrict | camera_app/src/config.c:480-544 | saving a plain value writes only lines the loader takes |
| ConfigSave.SaveKeepsLoadable | camera_app/src/config.c:480-580 | saving keeps the lines acceptable and changes exactly one field |
| ConfigSave.SaveThenLoad | camera_app/src/config.c:737-771 | for every text the loader accepts, or none: editing and then loading is loading and then setting the field, judged by the support rule |
| WebService.TrimSpan | web/mt11-web.c:3033-3037 | the span between the moved pointers is the trimmed text |
| WebService.LookAt | web/mt11-web.c:3052-3092 | the pointer work on one line finds the section or the key, value and `=` the line means |
| WebService.IniGetValue | web/mt11-web.c:3045-3100 | returns the first assignment's unquoted value if the caller's buffer can hold it |
| WebService.CopyLines | web/mt11-web.c:3122-3191 | the first loop rewrites exactly the lines an update names, sets each found flag exactly for the updates it meets, and fails exactly on a duplicate; repeated update names included |
| WebService.TallyLine | web/mt11-web.c:3150-3178 | the found flags count the assignments met so far |
| WebService.AddSection | web/mt11-web.c:3211-3221 | appends every still missing key of one section and marks exactly those |
| WebService.AddMissing | web/mt11-web.c:3200-3223 | appends one block per section for exactly the keys not found |
| WebService.EditedText | web/mt11-web.c:3200-3223 | the appended bytes are the lines the specification adds, final newline completed |
| WebService.IniApplyUpdates | web/mt11-web.c:3113-3236 | returns the specified text or the specified error |
| WebIni.EditedReads | web/mt11-web.c:3124-3191 | rewritten lines read the new value at every assignment of an updated key, and everything else as before |
| WebIni.BlocksRead | web/mt11-web.c:3200-3223 | the added blocks assign every missing key exactly once and nothing else |
| WebIni.EditedLookup | web/mt11-web.c:3113-3236 | every key's values in the edited lines |
| WebIni.AppliedLookup | web/mt11-web.c:3113-3236 | a successful edit assigns every updated key exactly once, to its value, and leaves all other keys alone |
| WebIni.GetAfterEdit | web/mt11-web.c:3045-3236 | reading after editing gives the new value, or for other keys what was read before |
| WebIni.EditFixed | web/mt11-web.c:3157-3178 | lines that already hold the values are copied unchanged |
| WebIni.ApplyTwice | web/mt11-web.c:3113-3236 | applying the same updates again returns the same bytes |
| WebIni.LinesSurvive | web/mt11-web.c:3122-3191 | every old line stands where it stood, as it was or, if it assigned an updated key another value, with its text up to the `=` and the new value in quotes |
| WebIni.AppliedNew | web/mt11-web.c:3200-3223 | into an empty text the edit writes exactly the header and the key with its value in quotes |
| WebSave.EditedValid | web/mt11-web.c:2972-3031 | an edit spoils no line `validate_ini()` accepts, repairs none and adds none it refuses |
| WebSave.AppliedValid | web/mt11-web.c:2972-3031 | the text of a successful edit passes `validate_ini()` if and only if every old line does |
| WebPage.ValidateIni | web/mt11-web.c:2972-3031 | the pointer loop passes exactly the texts of 1 to 65536 characters with a header and an assignment in which every line is blank, a comment, a whole header or an assignment with a key |
| WebPage.InstallUpdates | web/mt11-web.c:8383-8403 | read, edit, validate: the text the settings page installs, or none |
| TwoPrograms.SameSections | web/mt11-web.c:3045-3100 | on lines the loader takes, both programs see the same values of every key |
| TwoPrograms.ReadersAgree | web/mt11-web.c:3045-3100 | the web reader returns for each field exactly the text the loader handed to set_field(), and nothing exactly when there was none |
| TwoPrograms.EditStrict | web/mt11-web.c:3157-3190 | rewriting keeps lines well formed; only their length can make the loader refuse them |
| TwoPrograms.RewrittenFits | camera_app/src/config.c:504-509 | a rewritten line fits the loader's buffer exactly when the text before its `=` and the value together leave room for four characters in 510 |
| TwoPrograms.RewritesFitMeaning | camera_app/src/config.c:504-509 | a condition on the input, that every changed value has room on its line, holds exactly if every line of the result fits the buffer |
| TwoPrograms.ShorterFits | web/mt11-web.c:3171-3177 | a value shorter by three or more fits wherever the old one did |
| TwoPrograms.NeverDuplicate | web/mt11-web.c:3150-3156 | in a text the application accepts no update meets a key twice |
| TwoPrograms.EditSucceeds | web/mt11-web.c:3192-3230 | on such a text the edit succeeds exactly if nothing is missing where nothing may be added, there is something to write, and the result is not above the limit |
| TwoPrograms.EditThenLoad | web/mt11-web.c:3113-3236 | a web edit of an acceptable text succeeds exactly under that condition, and the result loads if and only if every changed value fits its line and the support rule holds, with exactly the new values and all other fields unchanged |
| TwoPrograms.InstalledExactly | web/mt11-web.c:8383-8403 | over an acceptable text the settings page installs something if and only if the old text is at most 64 KiB, the edit can be written, and no old assignment has an empty key |
| TwoPrograms.InstallThenLoad | web/mt11-web.c:8383-8403 | and what it installs loads if and only if every changed value fits its line and the support rule holds, with exactly the new values and all other fields unchanged |
| TwoPrograms.EditSpoils | web/mt11-web.c:3168-3178 | for every row, every accepted old value and every other accepted value not shorter by three or more, a whole text that loads, whose edit is installed, and that then fails with its second line too long |
| FormService.ValidTextParameter | web/mt11-web.c:3302-3338 | the character loops accept exactly the specified texts |
| WebForm.ValidatorsAgree | web/mt11-web.c:3302-3338 | the form's validator and set_field() accept the same texts |
| WebForm.NormalizedIsSettable | web/mt11-web.c:3384-3416 | a value the form accepts can be quoted in the file and is taken by set_field(); numbers keep their value |
| WebForm.RowTakesExactly | web/mt11-web.c:3384-3416 | a row takes exactly its options, the numbers in its range, or the texts its field takes, and the field stores what was submitted |
| FormService.CollectDescribedParameters | web/mt11-web.c:3366-3435 | collects the shown rows in order, or fails exactly on a missing or invalid one or when the updates do not fit |
| FormService.SupportOfStep | web/mt11-web.c:3449-3464 | each update overwrites its setting in the texts the rule looks at, whatever came before |
| FormService.CollectReplacementUpdates | web/mt11-web.c:3439-3484 | as above, and fails on exactly the submissions the support proxy's rule excludes |
| WebForm.CollectedGood | web/mt11-web.c:3366-3435 | the updates of an accepted form are distinct, quotable and settable |
| WebForm.CollectedExactly | web/mt11-web.c:3366-3435 | the rows are collected exactly if every shown row takes the text submitted for it |
| WebForm.UpdatedExactly | web/mt11-web.c:3366-3435 | the updates put exactly what was submitted into a structure: a text itself, the number a text denotes, the value of an option; fields not offered keep theirs |
| WebForm.AcceptedExactly | web/mt11-web.c:3439-3484 | a form is accepted exactly if every shown row takes its text and the structure that holds what was submitted passes the support rule |
| WebForm.SupportRulesAgree | web/mt11-web.c:3449-3476 | the rule on submitted texts is the application's support_valid() on the resulting structure |
| WebForm.FormThenLoad | web/mt11-web.c:3439-3484 | every accepted form over an acceptable text is installed if and only if the old text is at most 64 KiB, the edit can be written and no old assignment has an empty key; and then it loads if and only if every changed value fits its line, each offered field then holding what its submitted text stands for and every other field what it held |
| SupportTable.TableIsGood | camera_app/src/config.c:227-269 | the application's support proxy rows meet all that the general results ask of a table |
| SupportTable.EmptyFileLoads | camera_app/src/config.c:480-580 | an empty file loads to the defaults |
| SupportTable.RuleOnRows | camera_app/src/config.c:271-278 | the support rule, slot by slot: off, or a host, a passphrase when signing, a name for each stream with a port, and no port twice |
| SupportTable.FormIsGood | web/mt11-web.c:1700-1728 | the form's support proxy rows name the application's rows, with the same bounds, and offer all the rule looks at |
| SupportTable.SupportFormLoads | web/mt11-web.c:8383-8403 | the same for the support proxy's fourteen rows of both programs, with no assumption about a table: over a text that loads with these rows an accepted form is installed unless the old or new text is above 64 KiB or an old assignment has an empty key, and loads if and only if every changed value fits its line, all fourteen slots then holding the submitted text, the number it denotes, or whether it is `true` |
| SupportTable.EmptyKeyRefused | web/mt11-web.c:3018-3022 | a text the application accepts and over which no form is installed |
| SupportTable.HostSpoiled | web/mt11-web.c:3168-3178 | a text that loads, and that the settings page spoils by replacing its host by one character |
| SupportTable.PageTurnsOn | web/mt11-web.c:8383-8403 | over an empty file the settings page installs a text that loads with the proxy on and its first video stream unnamed |
| SupportTable.RuleBreaks | camera_app/src/config.c:760-768 | two jobs acceptable on an empty file, one of them the text the settings page itself installs, and a schedule after which the configuration path names a text the support rule refuses |
| Publish.PublishedImmutable | web/mt11-web.c:4086-4169 | no step of any writer changes a byte of a published inode |
| Publish.BothPasses | camera_app/src/config.c:661-719 | the application's two passes read the same bytes even if the path is replaced between them, so it writes its edit of the version it opened |
| Publish.InvStep | web/mt11-web.c:4117-4169 | every step of every writer, success or failure, keeps the invariant |
| Publish.ExecInv | camera_app/src/config.c:678-735 | the invariant holds after every schedule |
| Publish.ConfigIsComplete | web/mt11-web.c:4117-4169 | the configuration path names the last text of a history in which every text was there initially, is the text of a web worker that finished, or is a finished application's edit of an earlier version; no writer installs twice |
| Publish.BackupWasConfig | web/mt11-web.c:4143-4147 | the backup path names a whole text the configuration path held earlier, or the backup found at the start |
| Backups.BackupAfterInstall | web/mt11-web.c:4143-4165 | in every schedule, once a web worker has installed its text the backup path names a whole text the configuration path held, no longer the backup found at the start |
| Backups.AloneInstalls | web/mt11-web.c:4117-4169 | a lone web worker, in any pieces, failing anywhere or not: when its text is installed the backup path names the text it replaced, and without a failure it ends with its text installed |
| Backups.NothingLeft | web/mt11-web.c:4117-4169 | in every schedule a writer that is done, whether it installed or failed, leaves no temporary file |
| Publish.PublishedForever | web/mt11-web.c:4086-4169 | however a schedule goes on, published files keep their bytes and the history only grows |
| Publish.AlwaysLoadable | camera_app/src/config.c:678-735 | if every writer's own job is loadable, so are the lines of every text the path ever names |
| Publish.EditOfLast | camera_app/src/config.c:647-735 | an installed edit is the edit of the text it replaces if and only if that text and the opened one have the same frame: the same other lines and the key's places |
| Publish.EditLoads | camera_app/src/config.c:737-771 | an installed edit loads exactly if the support rule holds of the version it went onto with the field set |
| Publish.ChangeLost | camera_app/src/config.c:644-646 | for any old text and any web text that passes `validate_ini()`, a schedule that ends in the edit of the first although the web worker installed the second in between |
| Publish.RuleBroken | camera_app/src/config.c:760-768 | for any old text that loads and on which the edit is acceptable, and any valid, acceptable web text on which the field breaks the rule, a schedule after which the file does not load |
| Sessions.EntryReads | web/mt11-web.c:2724-2736 | a stored entry reads back unless expired |
| Sessions.TornEntries | web/mt11-web.c:2719-2737 | every prefix of the stored lines reads as the unexpired part of its whole lines |
| Sessions.TornFile | web/mt11-web.c:2688-2739 | every byte prefix of a stored file loads to the unexpired part of a prefix of the entries, never to a cut expiry |
| Sessions.StoreLoad | web/mt11-web.c:2688-2769 | loading what was stored gives exactly the unexpired entries |
| Sessions.StoredForm | web/mt11-web.c:2741-2769 | the file is the boot line and a line with token, space and expiry for each entry |
| Sessions.OtherBoot | web/mt11-web.c:2646-2649 | another boot's file, whole or torn, loads to nothing |
| Sessions.StoredFits | web/mt11-web.c:154-156 | sixteen entries always fit the session file's limit |
| Sessions.RandomToken | web/mt11-web.c:2266-2291 | the printing loop gives a valid token for any 32 bytes |
| Sessions.TokensDiffer | web/mt11-web.c:2287-2289 | different bytes give different tokens |
| SessionStore.LoadSessions | web/mt11-web.c:2688-2739 | fills the array with exactly the entries the file lists |
| SessionStore.Push | web/mt11-web.c:2785-2792 | the array with its first of sixteen dropped and the new entry at its end |
| SessionStore.StoreSessions | web/mt11-web.c:2741-2769 | builds exactly the stored text |
| SessionStore.SessionFile.Create | web/mt11-web.c:2771-2796 | appends the new session, dropping the first of sixteen, and reports whether the store succeeded; a failed or cut store leaves what it had written |
| SessionStore.SessionFile.Valid | web/mt11-web.c:2798-2814 | accepts exactly the listed tokens |
| SessionStore.SessionFile.Destroy | web/mt11-web.c:2817-2838 | rewrites the file without the token, with the same outcomes of the store; true means it is no longer accepted |
| SessionStore.KeepOthers | web/mt11-web.c:2832-2834 | closes the gaps in place, keeping the order of the other entries |
| SessionStore.TokenGone | web/mt11-web.c:2816-2838 | after a logout that reports success the token is not accepted |
| SessionRuns.LiveAfterLogin | web/mt11-web.c:2771-2796 | a login drops the earliest live login exactly when it finds sixteen |
| SessionRuns.LiveAfterLogout | web/mt11-web.c:2817-2838 | a logout removes exactly its token |
| SessionRuns.LogoutReports | web/mt11-web.c:2817-2838 | a logout reports success exactly for a text that is no token, or when the file can be read and either nothing lists the token or the store succeeded |
| SessionRuns.LiveAfterReboot | web/mt11-web.c:2646-2649 | no login survives a reboot |
| SessionRuns.FileIsLive | web/mt11-web.c:2688-2838 | after any history the file lists exactly the live logins, in login order |
| SessionRuns.AcceptedExactly | web/mt11-web.c:2798-2814 | a token is accepted exactly when it was created this boot, has not expired, was never destroyed and was never evicted by a login that found sixteen live ones |
| SessionRuns.ListSorted | web/mt11-web.c:2771-2796 | the list is in login order and sorted by expiry |
| SessionRuns.ListBounded | web/mt11-web.c:154-155 | in every history the live list never exceeds sixteen |
| SessionRuns.EvictsEarliest | web/mt11-web.c:2785-2789 | an eviction always drops the login that would expire first |
| SessionFaults.StoreLeavesPrefix | web/mt11-web.c:2741-2769 | a login or logout leaves the list as it was, or a prefix of what it intended, and all of that if its store succeeded; which one, `FileIsList` says |
| SessionFaults.FileIsList | web/mt11-web.c:2688-2838 | in every history, whatever stores fail or are cut, the file lists exactly the list told event by event: pushed or removed entries, cut to the lines a torn store wrote whole; the unexpired ones after a tick; none after a reboot |
| SessionFaults.AcceptedIfListed | web/mt11-web.c:2798-2814 | a token is accepted if and only if that list has it |
| SessionFaults.LoginLost | web/mt11-web.c:2741-2796 | a history in which the second login's cut store loses the first login, which is live |
| SessionFaults.NothingAppears | web/mt11-web.c:2771-2838 | however stores fail, nothing is listed but what was listed before or the login's own entry, and neither a reboot nor a successful logout leaves it |
| SessionFaults.AcceptedOnlyIf | web/mt11-web.c:2798-2814 | in every history an accepted token comes from a login of this boot that has not expired, was listed and accepted at every step since, and was not logged out with success |
| SessionFaults.NeverBack | web/mt11-web.c:2798-2814 | a token that is not accepted is never accepted again unless a login issues it |
| SessionFaults.DestroyedForGood | web/mt11-web.c:2816-2838 | a logout that reports success is final, whatever stores fail later |
| Restart.PidListed | web/mt11-web.c:4992-4998 | membership in the used part of the array |
| Restart.AddStale | web/mt11-web.c:5084-5090 | the in-place merge keeps the list, adds each new process once, and never passes 32 slots |
| Restart.OwnProceed | web/mt11-web.c:5065-5094 | a worker's own step keeps every process it lists older than the generation it publishes |
| Restart.InvStep | web/mt11-web.c:5065-5094 | every step of workers, launcher and processes keeps the invariant |
| Restart.ExecInv | web/mt11-web.c:4951-4990 | the invariant holds in every interleaving |
| Restart.NeverSignalsOwn | web/mt11-web.c:5075-5079 | no restart ever signals an instance started for its own or a later request |
| Restart.ListsFit | web/mt11-web.c:5068-5092 | no worker's list outgrows its 32 slots, and all it will signal is older than its request |
| Restart.ListsWhatItSaw | web/mt11-web.c:5065-5092 | in every interleaving a worker about to stop instances lists exactly the living ones its scans saw: all of the first scan, and all of the second if the started record was below its generation at both looks |
| Restart.KillSends | web/mt11-web.c:5027-5029 | the signal to a listed process is sent, and stays sent |
| Restart.DoneHasStopped | web/mt11-web.c:5065-5093 | in every interleaving a restart that is done has sent its signal to everything its scans saw |
| Restart.RequestsDistinct | web/mt11-web.c:4966-4990 | in every interleaving each restart counts the request up by one, and no two workers share a generation |
| Restart.SomeoneProceeds | web/mt11-web.c:5065-5094 | no restart gets stuck: while one is not done, some worker has a step that takes it further or a signal to send |
| AnnexB.UnitsGrow | tools/video_telemetry.py:24-28 | reading on after a start code gives the closed units and then those of the open rest |
| AnnexB.FourAreEnough | tools/video_telemetry.py:29-30 | without a start code the last four bytes are all that matters |
| AnnexB.ReadOn | tools/video_telemetry.py:21-30 | one round of the reader loses no unit and invents none |
| AnnexB.Split | tools/video_telemetry.py:24-30 | the matches of what is pending, taken two at a time, give the closed units and the kept rest |
| AnnexB.KeptUnits | tools/video_telemetry.py:31-35 | at the end of the stream what is kept holds at most the last unit |
| AnnexB.Nals | tools/video_telemetry.py:18-35 | however the stream is cut into non-empty reads, the units are those of the whole stream |
| AnnexB.NoStartInside | tools/video_telemetry.py:15 | no start code begins inside an escaped unit |
| AnnexB.SplitJoined | tools/video_telemetry.py:18-35 | units joined by start codes, after any number of zero bytes, are given back exactly |
| Telemetry.UnescapeEscape | tools/video_telemetry.py:45-52 | dropping the emulation prevention bytes undoes inserting them, at any position |
| Telemetry.EscapeIsEscaped | tools/video_telemetry.py:45-52 | escaped bytes never contain a forbidden triple |
| Telemetry.Rbsp | tools/video_telemetry.py:45-52 | the byte loop with its zero counter computes the unescaped bytes |
| Telemetry.RunReads | tools/video_telemetry.py:57-65 | a type or size coded in runs of 255 reads back |
| Telemetry.ReadRunAt | tools/video_telemetry.py:57-65 | the loop reads one coded number and its end, or finds the bytes cut |
| Telemetry.WalkReads | tools/video_telemetry.py:54-72 | walking coded messages recovers exactly the telemetry records, in order |
| Telemetry.RunForm | tools/video_telemetry.py:57-65 | the type and size code in closed form: 255 for every whole 255, then the rest |
| Telemetry.RecordOf | tools/video_telemetry.py:69-72 | a message yields its data exactly if it is of type 5 and begins with the sixteen identifier bytes |
| Telemetry.ReadTelemetry | tools/video_telemetry.py:38-72 | the loops compute the walk, for any bytes |
| Telemetry.TelemetryInverts | tools/video_telemetry.py:38-72 | extraction inverts coding and escaping for every list of messages |
| Telemetry.DataComesOut | tools/video_telemetry.py:38-72 | data behind the identifier, in a type 5 message anywhere in a coded unit of type 6 (39 or 40 in H.265), comes out whole and in its place |
| Telemetry.SeiIsUnit | tools/video_telemetry.py:18-35 | a coded unit is one the splitter gives back whole |
| Telemetry.StreamInverts | tools/video_telemetry.py:18-72 | from the bytes of a stream of coded and other units, exactly the records come out |
| Telemetry.Extract | tools/video_telemetry.py:18-72 | the same for a stream read in any pieces |
| Autofocus.BestOfIsBest | camera_app/src/media/autofocus.c:8-21 | the running best has the highest score, ties nearest to the initial position, then first |
| Autofocus.CoarseFacts | camera_app/src/media/autofocus.c:63-71 | coarse positions ascend by at most the step from minimum to maximum, as few as that allows |
| Autofocus.FineExactly | camera_app/src/media/autofocus.c:72-87 | the fine pass visits every position within a step of the best coarse one, in order and once |
| Autofocus.SamplePosition | camera_app/src/media/autofocus.c:23-40 | moves, measures, and keeps the better sample |
| Autofocus.Search | camera_app/src/media/autofocus.c:42-97 | refuses exactly the invalid arguments, never moves outside the range, fails only if a move or a measurement did and then returns to the initial position, and otherwise did both passes and stopped at the best fine sample |
| Autofocus.FineIsAuthoritative | camera_app/src/media/autofocus.c:76-87 | the result is the best sample of the fine pass alone, at most 2 * step + 1 of them |
| Autofocus.SampleBound | camera_app/src/media/autofocus.c:63-87 | at most ceil(range / step) + 1 plus 2 * step + 1 samples |
| Autofocus.HigherNeighbour | camera_app/src/media/autofocus.c:63-75 | with one peak, a coarse position further than a step from it is beaten by another |
| Autofocus.CoarseNearPeak | camera_app/src/media/autofocus.c:72-75 | so the fine window always holds the peak |
| Autofocus.FixedScore | camera_app/src/media/autofocus.c:23-40 | a lens with a fixed score per position gives samples of that score |
| Autofocus.FindsThePeak | camera_app/src/media/autofocus.c:42-97 | for every fixed strictly unimodal score a completed search ends at the global peak |
| Autofocus.SearchPeak | camera_app/src/media/autofocus.c:42-97 | the running search with such a lens returns the global peak and leaves the lens there |
| RateCurve.VendorRateResponse | sitl/gimbal_sim.py:172-196 | the checks and the fresh search give the interpolated rate the firmware uses, times the gain; the linear response without a curve; and the error exactly for a malformed curve |
| RateCurve.RateOnCurve | camera_app/include/camera_app/gimbal_rate.h:17-19 | the rate is the point on the straight line through the command's neighbouring knots, or through the nearest two beyond the ends |
| RateCurve.ResponseOnCurve | sitl/gimbal_sim.py:187-196 | the simulator's response to a command is that point times the gain |
| RateCurve.ResponseOtherwise | sitl/gimbal_sim.py:179-195 | without a curve it is the command's share of the full scale times the gain; rest, clamped commands and malformed curves as in the code |
| RateCurve.SegmentResumes | camera_app/include/camera_app/gimbal_rate.h:15-17 | a pointer left at a smaller command's segment finds the same segment as a fresh search |
| RateCurve.RateMonotone | camera_app/include/camera_app/gimbal_rate.h:18-19 | the interpolated and extrapolated rate never falls as the command grows |
| RateCurve.RateCommand | camera_app/include/camera_app/gimbal_rate.h:10-27 | the loop with its running segment computes the specified choice |
| RateCurve.ChosenIsBest | camera_app/include/camera_app/gimbal_rate.h:16-25 | among the commands compared so far none is closer, and away from rest the choice is strictly better than rest |
| RateCurve.BestCommand | camera_app/include/camera_app/gimbal_rate.h:8-27 | minimises the error over all 201 commands, and is 0 whenever 0 ties for best |
| RateCurve.BestOnCurve | camera_app/include/camera_app/gimbal_rate.h:8-27 | for every good curve: away from rest the command is closer than rest and as close as any of the 201 on the measured curve; at rest none is closer than rest or command 0 |
| RateCurve.CommandMonotone | camera_app/include/camera_app/gimbal_rate.h:10-27 | a faster requested rate never gives a smaller command |
| RateCurve.CommandMovesClosest | sitl/gimbal_sim.py:172-196 | in the simulator with a gain of one, the firmware's command moves the gimbal no further from the requested rate than any other command |
| Crc.ComputeCrc16 | web/mt11-web.c:4299-4313 | the bit loop computes the register specification; sitl/gimbal_sim.py has the same one |
| Crc.ComputeCrc8 | sitl/gimbal_sim.py:36-42 | the reflected eight-bit register |
| Crc.ShiftsLinear | sitl/gimbal_sim.py:31-32 | the register is linear over exclusive or |
| Crc.ShiftsInjective | sitl/gimbal_sim.py:31-32 | shifting never merges two registers |
| Crc.FeedKeepsApart | sitl/gimbal_sim.py:27-33 | the same bytes keep different registers different |
| Crc.TwoBytes | sitl/gimbal_sim.py:27-33 | two different pairs of bytes never leave the same register |
| Crc.BurstDetected | sitl/gimbal_sim.py:27-33 | bodies of equal length that differ only within two neighbouring bytes never share a CRC |
| Crc.ZeroResidue | sitl/gimbal_sim.py:288-291 | the CRC of a body and two bytes is zero exactly when they are its CRC, high byte first |
| Polynomials.RemainderOf | sitl/gimbal_sim.py:27-33 | a multiple of a polynomial plus a shorter rest leaves that rest in long division |
| Polynomials.Division | sitl/gimbal_sim.py:27-33 | and every bit string is such a sum |
| Polynomials.Crc16IsRemainder | sitl/gimbal_sim.py:27-33 | the CRC of any bytes is the remainder of their bits times x^16 after division by x^16 + x^12 + x^5 + 1 |
| Polynomials.Crc8IsRemainder | sitl/gimbal_sim.py:36-42 | the header checksum is, with all bits reversed, the remainder after division by x^8 + x^5 + x^4 + 1 |
| Frames.SiyiRoundTrip | sitl/gimbal_sim.py:95-106 | parsing a built frame gives its fields |
| Frames.SiyiBytes | sitl/gimbal_sim.py:95-97 | each field stands at its place, words low byte first, with the CRC of all before it at the end |
| Frames.SiyiOnlyBuilt | sitl/gimbal_sim.py:100-106 | only built frames parse |
| Frames.Mt11RoundTrip | sitl/gimbal_sim.py:45-68 | parsing a built frame gives its fields |
| Frames.Mt11Bytes | sitl/gimbal_sim.py:45-58 | the same for this format |
| Frames.Mt11OnlyBuilt | sitl/gimbal_sim.py:61-68 | a frame that parses and carries the builder's addresses is the built one |
| Frames.A8RoundTrip | sitl/gimbal_sim.py:71-92 | parsing a built frame gives its fields |
| Frames.A8Bytes | sitl/gimbal_sim.py:71-80 | the same for this format |
| Frames.A8OnlyBuilt | sitl/gimbal_sim.py:83-92 | a frame that parses and carries the builder's addresses is the built one |
| Frames.CorruptionRejected | sitl/gimbal_sim.py:61-106 | all three parsers reject a frame whose body changed within two neighbouring bytes |
| Frames.XfAcceptsExactly | sitl/gimbal_sim.py:288-291 | the XFRobot test accepts exactly 40-byte frames with the right head and CRC |
| LogTail.Capture.Line | web/mt11-web.c:4038-4072 | one line: opened, discarded or rotated as needed, then written whole |
| LogTail.ShownIsTail | web/mt11-web.c:2233-2264 | the two files shown together are the tail of both |
| LogTail.LineHolds | web/mt11-web.c:4060-4072 | a line keeps the files a line-aligned suffix that is everything or more than 512 KiB |
| LogTail.RotatesWhenFull | web/mt11-web.c:4060-4072 | a line that would take the current file past 512 KiB carries that file over whole and begins a new one; any other is appended |
| LogTail.FilesBounded | web/mt11-web.c:4046-4072 | in every run each file holds at most 512 KiB or is one single captured line |
| LogTail.CaptureHolds | web/mt11-web.c:4027-4072 | in every run the files hold a line-aligned suffix of what was captured since the last discard, all of it or more than 512 KiB |
| LogTail.SinceSplits | web/mt11-web.c:4046-4059 | what was captured before the last discard is longer than 512 KiB |
| LogTail.ShowsTheTailExactly | web/mt11-web.c:2189-2264 | in every run the page shows exactly the last 256 KiB of everything captured, or all of it, if and only if nothing was discarded or the lines since then fill the page |
| LogTail.ShowsTheTail | web/mt11-web.c:2189-2264 | without a discard it always does |
| LogTail.OneCapture | web/mt11-web.c:4027-4072 | from empty files, after any sequence of lines, that needs no condition |
| LogTail.DiscardShows | web/mt11-web.c:4046-4059 | right after a discard the page is right if and only if the new line alone fills it |
| LogTail.DiscardExample | web/mt11-web.c:4046-4059 | a run after which the page does not show the tail of what was captured |
| Transform.WrapDegrees | include/apcam/gimbal_transform.h:25-30 | both loops end within [-180, 180] and compute the wrapped angle |
| Transform.WrapTurns | include/apcam/gimbal_transform.h:25-30 | wrapping adds whole turns only, towards zero and only when needed |
| Transform.AxisExact | include/apcam/gimbal_transform.h:31-52 | on one axis there and back is exact if and only if the angle is strictly inside (-180, 180) or a half turn on the right side of the offset |
| Transform.HalfTurnFlips | include/apcam/gimbal_transform.h:25-53 | a half turn that comes back as the opposite one |
| Transform.TransformAngles | include/apcam/gimbal_transform.h:31-41 | the nested loops compute the transform, also when output and input are the same array |
| Transform.InverseTransformAngles | include/apcam/gimbal_transform.h:42-53 | the same for the inverse |
| Transform.PickRow | include/apcam/gimbal_transform.h:35-38 | a row of a signed permutation picks one coordinate |
| Transform.PickColumn | include/apcam/gimbal_transform.h:46-50 | a column picks the row that has its entry |
| Transform.MatrixProducts | include/apcam/gimbal_transform.h:34-51 | for any matrix the transform multiplies by its rows and the inverse by its columns |
| Transform.TransformMeans | include/apcam/gimbal_transform.h:31-53 | each output is the signed coordinate and the joint zero position, for angles up to whole turns and inside [-180, 180], with no turn where none is needed; rates have no zero position |
| Transform.InverseAfterTransform | include/apcam/gimbal_transform.h:31-53 | exact for rates; for angles the same modulo 360, and exact if and only if as stated per axis |
| Transform.TransformAfterInverse | include/apcam/gimbal_transform.h:31-53 | the same in the other order |

## Left out

- CameraApp.FGets: texts with NUL characters.
- CameraApp.Load: texts with NUL characters, where `fgets` and `strlen` disagree; read errors and a file that cannot be opened for another reason than being absent.
- AppConfig.SetField: the field table is any table of well-formed rows (`GoodTable`), of which only the support proxy's rows are written out (`SupportTable`); `inet_pton` is an arbitrary predicate; the size tests of numeric kinds and 32-bit `unsigned long` are not modelled.
- Ini.IsSpace: the C locale only; text is a sequence of characters, not of encoded bytes.
- CameraApp.CameraConfig.ParamSave: values that are not finite (reals stand for `float`) and NUL characters in the file; the file is a value, its publication is in `Publish`.
- WebService.IniApplyUpdates: the growing buffer is a string; allocation failures and message texts.
- FormService.CollectDescribedParameters: form decoding, and the FLOAT, IPV4 and LUT kinds, which no parameter of the replacement table uses.
- Publish.ConfigIsComplete: the ownership and modes of files; the rename is atomic and bytes once written stay, so power loss between the calls of `fsync` is not modelled.
- SessionRuns.FileIsLive: histories whose stores succeed (`SessionFaults.FileIsList` is for all), tokens and boot identities that never repeat, a clock and a file that can be read, the clock read once per operation; locking makes each operation one step.
- Publish.AlwaysLoadable: the lines and fields of the texts; for the support rule see `EditLoads` and `RuleBroken`.
- SupportTable.SupportFormLoads: the other rows of the application's table and of the form are not written out; loading means loading with the support proxy's rows, and the form is its part for them.
- RateCurve.CommandMovesClosest: other gains of the simulator.
- SessionStore.SessionFile.Create: the random token is a parameter.
- Restart.ListsWhatItSaw: a scan of `/proc` sees processes one at a time and may miss those that come and go meanwhile.
- Restart.NeverSignalsOwn: the launcher is taken by its contract alone (it records the request before it forks); process numbers are not reused; nothing is claimed about which instance runs after a restart, because a stale launch may fork after the second scan.
- Telemetry.ReadTelemetry: JSON decoding of the recovered bytes.
- Autofocus.Search: `errno`, and the 64-bit limit of scores.
- RateCurve.RateCommand: rounding of `float`; a curve that is too short or not increasing, which the firmware does not check.
- Crc.BurstDetected: corruption that straddles a body and its trailer, for which the guarantee does not hold.
- Frames.SiyiFrame: what `struct.pack` refuses is `None`.
- LogTail.Capture.Line: partial writes, file permissions, and reads racing a rotation.
- Transform.WrapDegrees: rounding of `float`, with which the loops may not end for huge angles.
- Sockets, HTTP, pages and translations, `/proc` scraping, MAVLink, RTSP, MP4, media back ends, trigonometric models and build scripts: input and output around the algorithms above, or mathematics of another kind.
