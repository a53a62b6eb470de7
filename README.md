# Auto-configuration matcher of mupen64plus-input-sdl, in Dafny

This project models `src/autoconfig.c` of the SDL input plugin. Given the
name a joystick reports, the plugin looks the name up in the profile
database `InputAutoCfg.ini` and writes the winning profile into the
configuration sections `AutoConfig0` .. `AutoConfig3` of the host.

- `text.dfy` (module `Text`) covers the C string helpers the matcher relies on:
  - `StripSpace`, as a recursive `Strip` and as the two-pointer method;
  - `strchr`, `strcasecmp` and `strcasestr` with ASCII case folding;
  - `atoi`, and `%i` formatting.
- `name_match.dfy` (module `NameMatch`) is `auto_compare_name`.
  - The platform markers `Unix:`, `Linux:`, `OSX:`, `Win32:` and `XInput:` are chosen by the build target, the datatype `Platform`.
  - The word loop takes the header apart on single spaces and cuts each word to 63 characters.
  - Scoring: 4 per word found in the device name, ignoring case; 4 more for an exact header; plus the marker bonus; -1 when a word is missing.
- `defaults.dfy` (module `AutoConfig`) is the parse loop of `auto_set_defaults`.
  - The database is cut at its first NUL, split at `'\n'`, and each line is stripped and classified.
  - `Step` is one trip round the loop and `Run` is the whole pass.
  - The result is the controller count plus the log of every `ConfigSetParameter` call, in order.
  - `AutoSetDefaults` is the loop as the source writes it, a `while` over character positions, proved equal to `SetDefaults`.
- `copy.dfy` (module `ConfigCopy`) is `auto_copy_inputconfig` with `CopyParamCallback`, over an abstract host store.
  - The class `ConfigStore` holds the sections.
  - A copy can fail where the host refuses to open a section, set a parameter or list one.
- `scenarios.dfy` (module `Scenarios`) traces two concrete databases through the whole pass.

Three behaviours of the code that are easy to misread, all modelled as
written:
- Any keyword line under an adopted header sets the parse state to "parameters read", including an unknown keyword (`src/autoconfig.c:363`). The state change happens before the keyword is compared with `__NextController:`, so an unknown keyword makes the next header start a new search.
- A header that is not adopted leaves the "name found" state alone (`src/autoconfig.c:297-298`). Headers that follow one another with no body line between them share the next body.
- A later header takes `AutoConfig0` over only when its score is strictly greater (`src/autoconfig.c:309`). The count then restarts at 1, but sections opened for the earlier header keep what was written to them.

## Model

| member | source | states |
|---|---|---|
| Text.Strip | src/autoconfig.c:50-61 | the stripped string is no longer than the input and neither starts nor ends with space, tab, CR or LF |
| Text.StripSpace | src/autoconfig.c:50-61 | the slice left between the two pointers is `Strip(s)`, the input without leading and trailing space, tab, CR and LF |
| Text.StripIsStrippedSlice | src/autoconfig.c:50-61 | `Strip(s)` is a slice of `s` with no strip-space at either end and only strip-space outside it |
| Text.StrippedSliceIsStrip | src/autoconfig.c:50-61 | any slice with that property is `Strip(s)` |
| Text.StripIdempotent | src/autoconfig.c:50-61 | stripping twice is stripping once |
| Text.StripDropsTrailingSpace | src/autoconfig.c:57-58 | cutting trailing whitespace off before stripping changes nothing |
| Text.IndexOf | src/autoconfig.c:180 | `strchr` as an index: no earlier occurrence, and the character is at the index unless it is the end |
| Text.FindChar | src/autoconfig.c:284 | the scan from position i stops at the first occurrence of the character, or at the end |
| Text.EqualsIgnoreCase | src/autoconfig.c:340-347 | `strcasecmp(a, b) == 0`: equal strings always compare equal, and strings of different lengths never do |
| Text.EqualsIgnoreCaseLower | src/autoconfig.c:340-347 | comparing ignoring case is exactly comparing the two strings with every letter lowered |
| Text.Atoi | src/autoconfig.c:342 | a string of digits reads as its decimal value, `-` followed by digits as the negated value, and a string without digits as 0 |
| Text.ContainsIgnoreCase | src/autoconfig.c:195 | `strcasestr` finds the needle exactly when some offset matches it ignoring case |
| Text.AtoiFormatInt | src/autoconfig.c:342 | `atoi` reads back every integer written with `%i` |
| Text.DecimalInjective | src/autoconfig.c:313 | different non-negative integers print differently with `%i` |
| NameMatch.Score | src/autoconfig.c:168-204 | a header scores at least 0 exactly when every word of its unmarked rest occurs in the name; a match scores its marker bonus plus between 4 per word and 4 more than that, and a mismatch scores -1 |
| NameMatch.StripPlatform | src/autoconfig.c:137-167 | the marker bonus is at most 2, and a header that earns none is left unchanged |
| NameMatch.BonusIffMarker | src/autoconfig.c:137-167 | a header earns a bonus exactly when it starts with a marker of the build, and earns 2 exactly for `XInput:` on SDL 2 Windows |
| NameMatch.StripMarker | src/autoconfig.c:137-167 | each marker of the build, followed by any text whose stripped form has no marker, is removed together with the whitespace around that text, and earns its own bonus |
| NameMatch.MarkerAddsBonus | src/autoconfig.c:137-167 | a recognised marker, with or without whitespace after it, adds its bonus to the score of the same header without the marker, and leaves a mismatch at -1 |
| NameMatch.StripKeepsMarker | src/autoconfig.c:139-140 | stripping keeps a leading marker, and what follows it strips to the stripped remainder |
| NameMatch.UnixThenLinuxBonus | src/autoconfig.c:138-149 | on Linux, `Unix:Linux:` loses both markers and the bonus stays 1, because each check sets the bonus rather than adding to it |
| NameMatch.Truncate | src/autoconfig.c:183-192 | a word is cut to at most 63 characters and is a prefix of the original |
| NameMatch.Words | src/autoconfig.c:172-194 | every word the loop takes apart has 1 to 63 characters |
| NameMatch.SkipSpaces | src/autoconfig.c:175-176 | the pointer stops at the first non-space at or after i, having passed only spaces |
| NameMatch.SkipSpacesWords | src/autoconfig.c:175-176 | skipping spaces does not change the words that remain |
| NameMatch.MatchWords | src/autoconfig.c:171-204 | the word loop finds every word exactly when all words of the header occur in the name, and adds 4 for each word found |
| NameMatch.CompareName | src/autoconfig.c:130-205 | the returned score is the closed form `Score`: bonus, plus 4 for an exact header, plus 4 per word, or -1 when a word is missing |
| NameMatch.SpaceFreeIsOneWord | src/autoconfig.c:180-186 | a header without spaces is one word, cut to 63 characters |
| NameMatch.NoWordsIffSpaces | src/autoconfig.c:172-178 | a header has no words exactly when it is all spaces |
| NameMatch.WordsOccurIn | src/autoconfig.c:171-194 | every word taken from a header occurs in that header |
| NameMatch.ExactHeaderScore | src/autoconfig.c:168-204 | a header that equals the device name once its marker is removed always matches, with the exact bonus and 4 per word |
| NameMatch.ExactBeatsSameWords | src/autoconfig.c:168-170 | of two headers with the same words and marker, the one equal to the device name scores exactly 4 more |
| NameMatch.BlankHeaderMatches | src/autoconfig.c:172-178 | a header of spaces only matches every device |
| AutoConfig.SectionName | src/autoconfig.c:313 | `AutoConfig%i` is the prefix `AutoConfig` followed by digits that read back as the slot index, so different slots never share a section |
| AutoConfig.CString | src/autoconfig.c:272 | the text the loop sees is a prefix of the file holding no NUL: the whole file, or the part before its first NUL |
| AutoConfig.Lines | src/autoconfig.c:276-286 | the visited lines hold no `'\n'`, and there are none exactly when the text is empty |
| AutoConfig.JoinLines | src/autoconfig.c:276-286 | joining the visited lines gives the text back, less a final `'\n'` |
| AutoConfig.LinesJoin | src/autoconfig.c:276-286 | lines without `'\n'`, the last one non-empty, are exactly the lines visited in their join |
| AutoConfig.Classify | src/autoconfig.c:287-393 | a header's name, a parameter's key and value and a keyword are all stripped; a key holds no `=`; a keyword ends in `:` and holds no `=` |
| AutoConfig.ClassifyShape | src/autoconfig.c:290-358 | the pointer tests, on any line, cut out a stripped header name and a stripped key and value with no `=` in the key, and take a line as a keyword only when it ends in `:` and holds no `=` |
| AutoConfig.ClassifyIgnoresSurroundingSpace | src/autoconfig.c:287 | whitespace around a line never changes what it is |
| AutoConfig.ClassifyHeader | src/autoconfig.c:294-306 | a bracketed name is read as a header holding the stripped name |
| AutoConfig.ClassifyParam | src/autoconfig.c:329-339 | `key=value` is read as a parameter with key and value stripped, split at the first `=`, also for an empty key and for a key starting with `[` on a line that does not end in `]` |
| AutoConfig.ClassifyKeyword | src/autoconfig.c:358 | a word ending in `:` without `=` is read as a keyword |
| AutoConfig.ClassifyLine | src/autoconfig.c:287-393 | the pointer tests on one line agree with the classification: blank or comment, header, parameter, keyword, invalid |
| AutoConfig.TypedValue | src/autoconfig.c:340-353 | the value has the type its key calls for: `device` the `atoi` integer, `plugged` and `mouse` a boolean that is true exactly for `true` in any case, other keys the string itself |
| AutoConfig.TypedValueRoundTrip | src/autoconfig.c:340-353 | a value of the type its key calls for reads back as itself: `device` through `atoi`, `plugged` and `mouse` through `strcasecmp` with `true`, other keys as strings |
| AutoConfig.Step | src/autoconfig.c:289-393 | one line keeps the bookkeeping valid, never lowers the best score, writes only into `AutoConfig0` .. `AutoConfig3`, and stops with at most 4 |
| AutoConfig.Run | src/autoconfig.c:278-404 | a pass reports at most 4 slots and writes only into the four slot sections |
| AutoConfig.SetDefaults | src/autoconfig.c:207-404 | the same bounds hold for `auto_set_defaults`, including its early returns without a name or a file |
| AutoConfig.OnHeader | src/autoconfig.c:294-326 | the header branch computes exactly the transition `Step` gives |
| AutoConfig.OnParam | src/autoconfig.c:329-355 | the parameter branch computes exactly the transition `Step` gives |
| AutoConfig.OnKeyword | src/autoconfig.c:358-390 | the keyword branch computes exactly the transition `Step` gives |
| AutoConfig.ParseLine | src/autoconfig.c:283-393 | one trip round the loop on a raw line is `Step` on its classification |
| AutoConfig.AutoSetDefaults | src/autoconfig.c:207-404 | the `while` loop over character positions returns the count and writes of `SetDefaults` |
| AutoConfig.RunNext | src/autoconfig.c:278-394 | the pass continues from the matcher and writes one line leaves |
| AutoConfig.AdoptIffBetter | src/autoconfig.c:309-324 | a header is adopted exactly when it scores strictly more than the best so far; adoption reopens `AutoConfig0` with the device index and count 1; a header not adopted writes nothing |
| AutoConfig.StepLosingHeader | src/autoconfig.c:296-325 | a header not adopted writes nothing, and starts a new search only after a body line |
| AutoConfig.SkippedWhileSearching | src/autoconfig.c:329-362 | parameter and keyword lines are dropped while searching |
| AutoConfig.InertLines | src/autoconfig.c:290-393 | blank, comment and invalid lines change nothing |
| AutoConfig.UnknownKeywordIsBody | src/autoconfig.c:358-388 | an unknown keyword under an adopted header writes nothing but counts as a body line |
| AutoConfig.StepNextController | src/autoconfig.c:365-383 | `__NextController:` with a free slot opens the next `AutoConfig%i` with the device index |
| AutoConfig.SharedBody | src/autoconfig.c:296-343 | a losing header right after an adopted one shares its body, which is written into the open section |
| AutoConfig.NewSearchAfterBody | src/autoconfig.c:296-334 | after a body line, a losing header starts a new search and its parameters are dropped |
| AutoConfig.RunKeepsSlot | src/autoconfig.c:396-401 | once a slot is open, the pass reports at least one |
| AutoConfig.ZeroSlots | src/autoconfig.c:396-404 | the pass reports 0 exactly when no header matches or `AutoConfig0` cannot be opened, and then writes nothing |
| AutoConfig.SetDefaultsZero | src/autoconfig.c:222-404 | `auto_set_defaults` returns 0 exactly when it has no name, no file, no matching header or no `AutoConfig0`, and then writes nothing |
| AutoConfig.CapEndsPass | src/autoconfig.c:369-373 | `__NextController:` with four slots open ends the pass with 4, whatever follows |
| AutoConfig.NextControllersFill | src/autoconfig.c:365-383 | a run of `__NextController:` lines opens every free slot in order and then stops at 4 |
| AutoConfig.StaleSlotsSurvive | src/autoconfig.c:309-324 | a better header restarts the count at 1, while the slot opened before it keeps its write |
| AutoConfig.BetterHeaderTakesOver | src/autoconfig.c:309-343 | under a better later header, a shared key is written into `AutoConfig0` again after the earlier value |
| ConfigCopy.Opened | src/autoconfig.c:98-108 | opening a section adds it empty when missing and changes no other section |
| ConfigCopy.Copy | src/autoconfig.c:94-128 | a successful copy leaves both sections present; no section but the destination changes, and only the two opened sections can appear |
| ConfigCopy.CopyFailsIff | src/autoconfig.c:94-128 | the copy returns 0 exactly when opening the source, opening the destination, setting `name` or listing the source fails |
| ConfigCopy.CopyCopiesSource | src/autoconfig.c:120-121 | after a successful copy into a writable section, every source parameter is in the destination with its typed value |
| ConfigCopy.CopyName | src/autoconfig.c:110-121 | `name` holds the given device name unless the source has a `name`, which the listing copies over it |
| ConfigCopy.CopyKeepsDestination | src/autoconfig.c:63-91 | destination parameters that the source lacks keep their values |
| ConfigCopy.CopyDestinationKeys | src/autoconfig.c:94-128 | the destination's keys afterwards are its own, the source's, and `name` when a name is given |
| ConfigCopy.CopyOntoItself | src/autoconfig.c:94-128 | copying a section onto itself without a name only opens it |
| ConfigCopy.ConfigStore.OpenSection | src/autoconfig.c:98 | `ConfigOpenSection` succeeds unless refused, and then creates a missing section |
| ConfigCopy.ConfigStore.SetParameter | src/autoconfig.c:113 | `ConfigSetParameter` replaces or adds the typed value unless the section is locked |
| ConfigCopy.ConfigStore.GetParameter | src/autoconfig.c:75 | `ConfigGetParameter` finds a value exactly when the parameter exists |
| ConfigCopy.ConfigStore.CopyParam | src/autoconfig.c:63-91 | the callback sets the source's value, with its type, under the same key in the destination, and a failed set changes nothing |
| ConfigCopy.ConfigStore.CopyAll | src/autoconfig.c:121 | listing with the callback merges every source parameter into the destination, whatever the listing order |
| ConfigCopy.ConfigStore.CopyInputConfig | src/autoconfig.c:94-128 | the returned flag and the new store are the ones `Copy` specifies |
| Scenarios.XInputPadScore | src/autoconfig.c:156-204 | on an SDL 2 Windows build, `XInput: Pad` scores 10 against `Pad` |
| Scenarios.XInputPadScenario | src/autoconfig.c:274-404 | a three-line XInput database gives one slot: the device index, `plugged` as boolean true, `device` as integer 7 |
| Scenarios.GenericScores | src/autoconfig.c:171-204 | against `Generic Gamepad Pro Controller`, `Generic Gamepad` scores 8 and `Generic Gamepad Pro` scores 12, on every build |
| Scenarios.GenericGamepadScenario | src/autoconfig.c:294-355 | with the generic and the more specific header in one file, `AutoConfig0` is reopened for the second and receives its `X Axis` last |

## Left out

- Locating and reading `InputAutoCfg.ini` (`ConfigGetSharedDataFilepath`, `fopen`, `ftell`, `fread`, `malloc`) becomes the `db: Option<string>` parameter. `None` stands for every failure at lines 226-270.
- The `EMSCRIPTEN` build, which matches by a name obtained from JavaScript (`input-lib.js`), is not part of this model.
- `DebugMessage` calls are left out: they only log.
- The return codes of `ConfigSetParameter` that `auto_set_defaults` ignores are not modelled. Every write is recorded in the write log, and the host's store behind the handle is not modelled there.
- The host's `ConfigOpenSection` refusals are the `refused` set of `Host` and the sets in `Faults`. The internals of the host store (`m64p_config`) are not part of this model.
- `Text.Atoi` does not model `int` overflow, which is undefined in C: the value is the mathematical one.
- `Text.EqualsIgnoreCase` and `Text.ContainsIgnoreCase` fold ASCII letters only, as in the C locale. Other locales are not modelled.
- One Dafny `char` stands for one byte of a C string. Text in a multi-byte encoding such as UTF-8 is not modelled: the source cuts words at 63 bytes and compares them byte by byte, which the model states in characters.
- `AutoConfig.Value` keeps a float as its 32-bit pattern: floats are only copied, never computed with. The parse loop never writes a float, so `AutoConfig.Render` is not defined for one.
- `ConfigCopy.ConfigStore.CopyParam`: the 1024-byte string buffer handed to `ConfigGetParameter` is not modelled; the model copies a string of any length whole.
- `ConfigCopy.ConfigStore.CopyParam`: the `default:` branch for an unknown parameter type is not modelled. `Value` has exactly the four types the callback handles.
- `ConfigCopy.ConfigStore.CopyAll` leaves the host's listing order open: it picks any remaining key. The contract holds for every order.
- `plugin.h`, `input_static.h` and the SDL calls that produce the device name are not part of this model. The name is the `Option<string>` parameter.
