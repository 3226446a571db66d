# StudentHub core logic in Dafny

This project models the logic inside a small React Native study app (notes,
goals, a calculator, a media list, translations). It proves properties of
that logic. The model covers four pieces:

- **Calculator notation** (`calculator.dfy`). `evaluateExpression` turns display text into
  JavaScript source with a chain of global replacements. `formatExpression`
  turns it back with another chain. Both chains are 11-row rule tables over
  `ReplaceAll`, a model of `String.prototype.replace` with a `/g` pattern
  (`strings.dfy`). The model gives the results character by character, and
  the round trip over any display text built from the values the calculator's
  buttons append (data/calculatorData.ts). A function button appends its bare
  name (`sin`, `cos`, `tan`, `log`, `sqrt`), so a call is a name followed by
  the `(` button; a name followed by any other button stays a bare name.
- **Media helpers** (`media.dfy`):
  - `extractYouTubeId`: its regular expression is modelled by the match it
    finds. The greedy leading `.*` stops at the first line terminator and
    backtracks to the last marker position. The alternatives of group 1 are
    tried in order. The id is kept only when its run is 11 characters long.
  - `getThumbnailForVideo`: picks the YouTube still or the placeholder image.
  - `formatDuration`: writes minutes and two-digit seconds.
- **Record store** (`storage.dfy`). A `Store` object holds the three
  AsyncStorage keys. Each key is missing, unreadable, or holds a list.
  - Each operation reads its list the way `getNotes` does: a missing or
    unreadable entry gives `[]`.
  - It then upserts, appends, replaces, or filters the list by id, and
    writes the list back.
  - Every method states the new content of the key it writes and that the
    other two keys are unchanged.
  - A `saveNote` over an unreadable entry therefore replaces it with a
    one-note list.
- **Translation** (`translation.dfy`). This models `t(key, params)`:
  - The table lookup falls back from the language to English to the key.
    An empty string counts as a missing entry.
  - `None` stands for the `TypeError` that JS raises when no table exists.
  - The parameter loop is a `while` loop. Each parameter replaces the first
    `{name}`, using ECMAScript's `$$`, `$&`, `` $` `` and `$'` replacement
    patterns.

The calculator chains work as follows:
- The JavaScript names are `Math.PI`, `Math.E`, `Math.log10(` and `Math.log(`.
- Characters are rewritten blindly, not token by token: the `e` of a number
  such as `1e+21` becomes `Math.E`.
- The round trip over the button values fails for `^` (see Findings).

## Model

| member | source | states |
|---|---|---|
| Calculator.Sanitize | utils/calculatorUtils.ts:3-14 | `evaluateExpression`'s rewriting: the eleven rows applied in order, each to the text the previous row produced; its properties are the lemmas below |
| Strings.ReplaceAll | utils/calculatorUtils.ts:4 | a global replacement writes only characters of the text or of the replacement |
| Strings.ReplaceAllBefore | utils/calculatorUtils.ts:4-14 | a prefix where no occurrence of the pattern can start, not even one completed by the next character, is kept as it is and only the rest is replaced |
| Calculator.SanitizeRemovesGlyphs | utils/calculatorUtils.ts:4-14 | no `×`, `÷`, `π` or `^` is left in the sanitised text, for every input |
| Calculator.SanitizeRemovesE | utils/calculatorUtils.ts:7-13 | no lowercase `e` is left: row 7 rewrites all of them and no later JavaScript name contains one |
| Calculator.SanitizePlain | utils/calculatorUtils.ts:3-14 | text made of digits, `.`, `+`, `-` and parentheses passes through sanitising unchanged |
| Calculator.SanitizeStarCount | utils/calculatorUtils.ts:4-14 | `*` count of the output = `*` count + `×` count + 2 × `^` count of the input |
| Calculator.SanitizeSlashCount | utils/calculatorUtils.ts:5-14 | `/` count of the output = `/` count + `÷` count of the input |
| Calculator.ExponentExample | utils/calculatorUtils.ts:7 | the exponent marker of `1e+21` is read as Euler's number: `1Math.E+21` |
| Calculator.KeySanitizes | utils/calculatorUtils.ts:3-14 | the value of every button other than a function button is rewritten, on its own, into its JavaScript text |
| Calculator.CallSanitizes | utils/calculatorUtils.ts:8-13 | a function name followed by `(` is rewritten, on its own, into its `Math.` call: `log(` into `Math.log10(`, `ln(` into `Math.log(` |
| Calculator.NameSanitizes | utils/calculatorUtils.ts:3-14 | a bare function name followed by anything that cannot continue a pattern (not `(`, `i`, `q` or `a`) is kept, and what follows is sanitised on its own |
| Calculator.SanitizeKeys | data/calculatorData.ts:9-41 | sanitising the display text of any sequence of button values gives their JavaScript texts, each name followed by `(` read as one call and every other name kept bare |
| Calculator.BareNameExample | data/calculatorData.ts:41 | the `sqrt` button followed by `9` stays `sqrt9` through sanitising and formatting |
| Calculator.Format | utils/calculatorUtils.ts:23-34 | `formatExpression`: the eleven rows applied in order; its properties are the lemmas below |
| Calculator.FormatRemovesOperators | utils/calculatorUtils.ts:24-34 | no `*` and no `/` is left in formatted text, for every input |
| Calculator.FormatLastRowDead | utils/calculatorUtils.ts:24-34 | the final `**` → `^` row never changes anything: formatting equals the first ten rows |
| Calculator.FormatCaretCount | utils/calculatorUtils.ts:24-34 | formatting shows exactly as many `^` as its input holds |
| Calculator.KeyFormats | utils/calculatorUtils.ts:23-34 | each button value's JavaScript text formats, on its own, to what is shown for it; a bare name is kept |
| Calculator.NameFormats | utils/calculatorUtils.ts:23-34 | a bare function name is left alone by both formatting chains: it holds none of their patterns' first characters |
| Calculator.CallFormats | utils/calculatorUtils.ts:28-33 | each `Math.` call is formatted, on its own, back into its name and `(` |
| Calculator.FormatScript | utils/calculatorUtils.ts:23-34 | formatting the JavaScript text of button values shows each value, calls and bare names included, with `**` shown as `××` |
| Calculator.RoundTripAsWritten | utils/calculatorUtils.ts:3-34 | format(sanitise(d)) gives back every button value of `d` except `^`, which comes back as `××` |
| Calculator.RoundTrip | utils/calculatorUtils.ts:3-34 | for display text built from button values without `^`, formatting inverts sanitising |
| Calculator.PowerRoundTripExample | utils/calculatorUtils.ts:14-34 | `2^3` comes back as `2××3` |
| Calculator.StarClashExample | utils/calculatorUtils.ts:4-14 | `2××3` and `2^3` both sanitise to `2**3`, so no formatter can tell them apart |
| Calculator.FormatFixed | utils/calculatorUtils.ts:23-34 | the corrected `formatExpression`: the row of line 34 first, then the rows of lines 24-33 in order; its properties are the lemmas below |
| Calculator.FixedFirstRow | utils/calculatorUtils.ts:24-34 | with the `**` row moved first, it turns exactly the `^` keys' `**` back into `^` |
| Calculator.KeyFormatsFixed | utils/calculatorUtils.ts:24-34 | the rest of the corrected chain gives back each button value's display text |
| Calculator.CallFormatsFixed | utils/calculatorUtils.ts:28-34 | the rest of the corrected chain turns each `Math.` call back into its name and `(` |
| Calculator.FixedRoundTrip | utils/calculatorUtils.ts:3-34 | the corrected chain inverts sanitising on display text built from button values, `^` included, when no `×` is followed by `×` or `^` |
| Calculator.FixedPowerExample | utils/calculatorUtils.ts:14-34 | with the corrected chain `2^3` survives the round trip |
| Calculator.LogarithmsExample | utils/calculatorUtils.ts:11-32 | the buttons `log`, `(`, `ln`, `(`, `2`, `)`, `)` give `log(ln(2))`, which sanitises to `Math.log10(Math.log(2))` and formats back; the two log rows do not interfere |
| Strings.Contains | utils/mediaUtils.ts:3 | `includes` holds exactly when the text starts with the pattern at some position |
| Media.IsYouTubeUrl | utils/mediaUtils.ts:3 | a URL is treated as YouTube exactly when `youtube.com` or `youtu.be` starts at some position of it |
| Media.MarkerAt | utils/mediaUtils.ts:13 | an alternative of group 1 matched at a position has length at least 2, fits in the text, and ends in `/` or `=` |
| Media.FirstLineEnd | utils/mediaUtils.ts:13 | `^.*` reaches up to the first line terminator, or to the end of the text |
| Media.LastMarkerFrom | utils/mediaUtils.ts:13 | backtracking finds the last marker at or before a position, and no marker after it |
| Media.RunLength | utils/mediaUtils.ts:13 | group 2 is the longest run of `[^#&?]` characters: it stops at `#`, `&`, `?` or the end |
| Media.ExtractYouTubeId | utils/mediaUtils.ts:12-16 | the id is empty or 11 characters of `[^#&?]` |
| Media.ExtractAfterLastMarker | utils/mediaUtils.ts:13-15 | the last marker on the first line alone decides: its run if that is 11 long, else `""` |
| Media.ExtractWithoutMarker | utils/mediaUtils.ts:14-15 | no marker starting on the first line (up to its terminator) gives `""` |
| Media.ExtractAfterFinalMarker | utils/mediaUtils.ts:13-15 | with no `/` or `=` after a first-line marker, that marker decides the result |
| Media.IdAfterMarker | utils/mediaUtils.ts:13-15 | a marker followed by exactly 11 id characters, with no marker starting after it on the first line, yields those characters |
| Media.EmbedLink | utils/mediaUtils.ts:12-16 | `a + "embed/" + id + b` yields `id` when no marker starts after `embed/` on the first line; query tails such as `?t=42` or `?si=x` are allowed |
| Media.ShortLink | utils/mediaUtils.ts:12-16 | `a + "youtu.be/" + id + b` yields `id` under the same condition on what follows `youtu.be/` |
| Media.EmbedExample | utils/mediaUtils.ts:12-16 | the embed link of the sample media list yields `IhuwS5ZLwKY` |
| Media.NoFallbackFirstRun | utils/mediaUtils.ts:13 | in `a + "youtu.be/" + id + "&v=" + c` the run after `youtu.be/` is the 11-character id |
| Media.NoFallback | utils/mediaUtils.ts:13-15 | that id is still lost (`""`) when the later `&v=` run is not 11 long: there is no fallback to an earlier marker |
| Media.Thumbnail | utils/mediaUtils.ts:1-10 | a URL containing `youtube.com` or `youtu.be` gives the still URL for an id of length 0 or 11; any other URL gives the placeholder |
| Media.ThumbnailOfYouTube | utils/mediaUtils.ts:3-5 | a YouTube URL's thumbnail is the still URL of the id `extractYouTubeId` returns |
| Media.ThumbnailOfEmbedLink | utils/mediaUtils.ts:1-10 | an embed link's thumbnail is the still URL of its 11-character id |
| Media.ThumbnailWithoutId | utils/mediaUtils.ts:1-10 | a YouTube URL where no marker starts on the first line still gets a still URL, with an empty id; `/` and `=` may appear elsewhere |
| Media.SiteThumbnail | utils/mediaUtils.ts:1-10 | the bare site address `https://www.youtube.com/` gets the still URL of the empty id |
| Media.NatToString | utils/mediaUtils.ts:21 | the decimal form has no leading zero, and has one digit exactly below 10 |
| Media.NatToStringValue | utils/mediaUtils.ts:21 | the decimal form reads back as the number |
| Media.SecondsText | utils/mediaUtils.ts:21 | the seconds part is always two digits |
| Media.SecondsTextValue | utils/mediaUtils.ts:21 | the seconds part reads back as the seconds, and starts with `0` exactly below 10 |
| Media.FormatDuration | utils/mediaUtils.ts:18-22 | the text is the minutes, one `:` and two characters of seconds |
| Media.DurationParts | utils/mediaUtils.ts:18-22 | minutes × 60 + seconds = input, seconds < 60, and padding appears exactly below 10 seconds |
| Media.DurationOneColon | utils/mediaUtils.ts:21 | the text holds exactly one `:` |
| Media.DurationRoundTrip | utils/mediaUtils.ts:18-22 | reading the `m:ss` text back gives the input seconds |
| Media.DurationExamples | utils/mediaUtils.ts:18-22 | 765, 225 and 61 seconds are written `12:45`, `3:45` and `1:01`, as in the sample media list |
| Storage.FindIndex | utils/storageUtils.ts:18 | `findIndex` returns the first index holding the id, or -1 exactly when no record holds it |
| Storage.Upsert | utils/storageUtils.ts:18-26 | the saved record is in the new list, which keeps the old length when the id was present and grows by one otherwise |
| Storage.UpsertExisting | utils/storageUtils.ts:18-22 | a note whose id is present overwrites the first holder; the length and every other position are unchanged |
| Storage.UpsertNew | utils/storageUtils.ts:18-26 | a note with a new id is appended: the length grows by one and the old notes keep their positions |
| Storage.UpsertFinds | utils/storageUtils.ts:18-26 | after saving, looking up the id finds the saved note |
| Storage.UpsertTwice | utils/storageUtils.ts:18-26 | saving the same note twice gives the same list as saving it once |
| Storage.RemoveId | utils/storageUtils.ts:37 | the filtered list has no record with the id and is no longer than before; it holds only old records, and every record with another id is kept |
| Storage.RemoveIdAppend | utils/storageUtils.ts:37 | filtering preserves order: filtering a list is filtering each part of it in turn |
| Storage.RemoveIdAbsent | utils/storageUtils.ts:82 | deleting an id that no record carries leaves the list as it was |
| Storage.RemoveIdTwice | utils/storageUtils.ts:37 | deleting the same id twice is the same as deleting it once |
| Storage.AppendDuplicates | utils/storageUtils.ts:58 | `saveGoal`/`saveAchievement` always append, so an existing id ends up held twice |
| Storage.Store.GetNotes | utils/storageUtils.ts:5-13 | the notes read are the stored list, or `[]` when the key is missing or unreadable |
| Storage.Store.SaveNote | utils/storageUtils.ts:15-32 | the notes key is set to the upsert of the notes read; goals and achievements are unchanged |
| Storage.Store.DeleteNote | utils/storageUtils.ts:34-42 | the notes key is set to the notes read minus those with the id; the other keys are unchanged |
| Storage.Store.GetGoals | utils/storageUtils.ts:45-53 | the goals read are the stored list, or `[]` when missing or unreadable |
| Storage.Store.SaveGoal | utils/storageUtils.ts:55-63 | the goals key is set to the goals read plus the goal at the end; the other keys are unchanged |
| Storage.Store.UpdateGoal | utils/storageUtils.ts:65-77 | with the id present, the goals key is set to the list with its first holder replaced; otherwise nothing is written and the entry stays as it was |
| Storage.Store.DeleteGoal | utils/storageUtils.ts:79-87 | the goals key is set to the goals read minus those with the id; the other keys are unchanged |
| Storage.Store.GetAchievements | utils/storageUtils.ts:90-98 | the achievements read are the stored list, or `[]` when missing or unreadable |
| Storage.Store.SaveAchievement | utils/storageUtils.ts:100-108 | the achievements key is set to the list read plus the new one at the end; the other keys are unchanged |
| Storage.Store.ClearAllData | utils/storageUtils.ts:111-123 | all three keys are removed |
| Storage.ClearThenRead | utils/storageUtils.ts:111-123 | after clearing, notes, goals and achievements all read back as `[]` |
| Storage.SaveThenFind | utils/storageUtils.ts:15-28 | a saved note is read back as the first note with its id, whatever the entry held before |
| Storage.SaveThenDelete | utils/storageUtils.ts:15-42 | saving and then deleting a note's id leaves no note with that id, and the other keys are untouched |
| Translation.LanguageTable | hooks/useTranslation.ts:9 | the language's table if there is one, else English's; none only when both are absent |
| Translation.Lookup | hooks/useTranslation.ts:9-12 | fails exactly when English is absent and the language has no non-empty entry; returns `""` only for the key `""` |
| Translation.LookupOwn | hooks/useTranslation.ts:12 | a non-empty entry of the language is used |
| Translation.LookupUnknownLanguage | hooks/useTranslation.ts:9 | a language without a table looks up like English |
| Translation.LookupEnglish | hooks/useTranslation.ts:12 | a missing or empty entry falls back to the non-empty English entry |
| Translation.LookupKey | hooks/useTranslation.ts:12 | with no non-empty entry anywhere, the key itself is the text |
| Translation.Expand | hooks/useTranslation.ts:17 | a value without `$` is inserted verbatim |
| Translation.ReplaceFirst | hooks/useTranslation.ts:17 | a text without the placeholder is left unchanged |
| Translation.ReplaceFirstAt | hooks/useTranslation.ts:17 | the text before the first occurrence and everything after it, later occurrences included, is kept |
| Translation.Placeholder | hooks/useTranslation.ts:17 | the placeholder is `{`, then exactly the name, then `}` |
| Translation.PlaceholderAfter | hooks/useTranslation.ts:17 | a placeholder preceded by no `{` is the occurrence that is replaced |
| Translation.Substitute | hooks/useTranslation.ts:15-18 | the parameters applied one after another in entry order, each to the text the earlier ones produced; its properties are the lemmas below and the loop of `Translate` |
| Translation.SubstituteSnoc | hooks/useTranslation.ts:16-18 | parameters apply in entry order: the last one acts on the text the earlier ones produced |
| Translation.SubstituteNoBrace | hooks/useTranslation.ts:16-18 | a text without `{` is left unchanged by any parameters |
| Translation.Translate | hooks/useTranslation.ts:7-22 | `t` fails exactly when the lookup does; otherwise it returns the looked-up text with the parameters substituted in order |
| Translation.NoParams | hooks/useTranslation.ts:15-21 | with no parameters the result is the looked-up text |
| Translation.FirstOccurrenceOnly | hooks/useTranslation.ts:17 | a parameter fills only the first `{name}`; later ones stay |
| Translation.LaterSeesEarlier | hooks/useTranslation.ts:16-18 | a later parameter fills a placeholder that an earlier one inserted |
| Translation.DollarPatterns | hooks/useTranslation.ts:17 | `$&` in a value repeats the placeholder and `$$` writes one `$` |

## Left out

- The evaluation of the sanitised text by `Function` (utils/calculatorUtils.ts:18). It is dynamic JavaScript with floating-point results. Only the rewriting is modelled.
- SanitizeKeys: holds for display text built from whole button values. A display that `←` has cut inside a name (such as `si`) is outside it. So is a display holding a result of `=`, written by `toString` (`Infinity`, `NaN`), unless its text happens to be made of button values: `1e+21` is, and ExponentExample shows that its `e` is then read as Euler's number.
- RoundTripAsWritten: the same domain as SanitizeKeys, for the same reason.
- RoundTrip: the same domain as SanitizeKeys, for the same reason.
- FixedRoundTrip: the same domain as SanitizeKeys, for the same reason.
- The `C`, `←` and `=` buttons and the display state of the calculator screen are not modelled; only the text that the other buttons append is.
- Media.FormatDuration: restricted to whole non-negative seconds. JavaScript's `Math.floor` and `%` on negative or fractional numbers are not modelled.
- Media.NatToString: writes the JavaScript decimal form only for whole numbers. The exponent notation JavaScript uses from `1e21` up is not modelled.
- Strings are sequences of Unicode characters. UTF-16 surrogate pairs are not distinguished; every glyph the code handles is a single code unit.
- AsyncStorage's asynchrony and the `JSON.stringify`/`JSON.parse` round trip. The records are stored as values, which that round trip preserves for these record shapes.
- A parse failure is modelled as the `Unreadable` entry. Stored JSON that parses to something other than a list is not modelled.
- Storage's `setItem`/`multiRemove` failures. The `catch` blocks only log, so a rejected write leaves the key as it was. The model's writes always succeed.
- `console.error` logging in every `catch`.
- Translation.Translate: parameters are strings in entry order. `String(paramValue)` for numbers is not modelled. Neither is `Object.entries` putting integer-like keys first.
- Translation.Lookup: keys that name inherited `Object.prototype` properties (such as `constructor`) are not modelled.
- The content of data/translations is not part of this model. The tables and the current language from the language context are parameters.
- The React hook, the contexts and the UI screens are not modelled.

## Findings

| source | as written | input that shows it | evidently intended | confidence | as-written member | corrected member |
|---|---|---|---|---|---|---|
| utils/calculatorUtils.ts:34 | the `**` → `^` row runs last, after line 24 has already turned every `*` into `×`, so it never fires. The screen formats only display text, never sanitised text, so the lost `^` does not show in the app as it stands | `formatExpression("2**3")`, the sanitised form of `2^3`, gives `2××3` | a power written `^` is shown as `^` again, so `2^3` survives the round trip | not executed | Calculator.RoundTripAsWritten, Calculator.PowerRoundTripExample, Calculator.FormatLastRowDead | Calculator.FixedRoundTrip, Calculator.FixedPowerExample |

Not in the table: the result of `=` is written back to the display with
`toString`, and for large numbers that text uses exponent notation. Sanitising
`1e+21` gives `1Math.E+21` (Calculator.ExponentExample), which JavaScript
cannot parse. The intended handling of such a display is not evident from the
code (a number format without exponent would avoid it), so the model records
the behaviour without a corrected chain.
