# cf — a Dafny model of the line colouriser

`cf` reads text line by line and writes each line to a true-colour terminal.
The colours come from a list of rules (`ColorizerItem`). Each rule has a
regular expression, a foreground and a background colour written as hex
strings, and three switches:

- `GroupMatch`: colour only capture group 1;
- `IgnoreCase`;
- `FullRow`: colour the whole line.

This project models the part of the program that decides what one line looks
like. The model follows src/Program.cs and src/Config.cs:

- `ParseColor` turns a colour string into an optional RGB colour.
- `SetColor` writes the escape string that selects the terminal's
  foreground and/or background.
- The per-line block handles one line, in order:
  - it drops the matches of a `GroupMatch` rule that have no capture group;
  - a line no rule matched is written after a reset;
  - when a `FullRow` rule matched, the first such rule colours the whole line;
  - otherwise every match becomes an entry. The entries are sorted stably by
    start index, and the entries that begin before the running index are
    removed. The line is then written as uncoloured gaps and coloured tokens,
    with a reset after each token.
- `ColorizerItem` is modelled with its default values.

## How the model is organised

| module (file) | what it holds |
|---|---|
| `Options` (options.dfy) | the `Option` type used for nullable values |
| `Color` (color.dfy) | `ParseColor`, which uses `int.TryParse` with `NumberStyles.HexNumber` on each pair, and `FormatHex`, the six-digit encoder that is its partner |
| `Escape` (escape.dfy) | `SetColorCode`, the string `SetColor` writes, and `DecodeSetColor`, a decoder for those strings |
| `Config` (config.dfy) | `ColorizerItem`, its defaults and the colours a rule asks for |
| `Matches` (matches.dfy) | the GroupMatch filter, the effective span of a match (`eidx`, `elen`) and the `SelectMany` collection in rule order |
| `StableSort` (sorting.dfy) | the `OrderBy(w => w.eidx)` step, as a stable insertion sort |
| `Overlap` (overlap.dfy) | the overlap sweep as written: the method `RemoveOverlaps`, plus `Survivors`, which states per position which entries survive. It also holds the intended sweep `SweepFrom` |
| `Emit` (emit.dfy) | the print-out loop, and a model of the terminal |
| `Engine` (engine.dfy) | the dispatch of one line between the no-match, FullRow and partial paths, plus the worked examples |

Console writes become a list of events:

- `Reset`, which is `ResetColors()`;
- `SetColor(fg, bg)`;
- `Text(s)`;
- `NewLine`.

`Render` turns the events into the exact characters written. `Paint` replays
them on a model terminal and gives each written character with the colours
it is shown in:

- `ESC[0m` clears both channels;
- a `38;2` sequence sets only the foreground;
- a `48;2` sequence sets only the background.

`Texts` is the text alone. The properties of a line are stated against
`Texts` and `Paint`:

- the line is written exactly once, in order;
- each character shows the colours of the rule whose kept match covers it.

The regular-expression engine is not modelled. For each rule, the matches it
returns on the line are an input (`RawMatch`). `WellFormed` asks that there is
one match list per rule and that every span lies inside the line. The .NET
engine guarantees both for lines without characters above U+FFFF; see
"Left out" for the others.

`Paint` starts from the terminal's default colours. For every line after the
first this is what the program leaves behind (`Engine.LineEndsReset`). The
program does not reset before the first line. Every gap write starts with a
reset, so gaps, and everything after a first gap, show the same colours
whatever the terminal showed before (`Emit.GapFacts`, `Emit.EmitPaintAnyPen`).
A token at index 0 of the first line, or a FullRow line that is the first
line, has no reset in front of it. A colour write there that sets only one
channel keeps whatever the other channel showed before, and the `Paint`
properties do not cover that inherited channel.

## Model

| member | source | states |
|---|---|---|
| Color.ParseColor | src/Program.cs:193-215 | the result is "no colour" exactly when the string is empty or all white space. A non-blank string that is not six characters long after dropping `#` and the alpha pair gives white |
| Color.ParsePair | src/Program.cs:207-209 | a pair is accepted exactly when each character is a hex digit or white space and at least one is a hex digit. A pair with a single hex digit has that digit's value, below 16 |
| Color.SixHexDigits | src/Program.cs:196-211 | after dropping `#` and the alpha pair, six hex digits are read as three base-16 pairs: red from characters 0-1, green from 2-3, blue from 4-5 |
| Color.HexValueIgnoresCase | src/Program.cs:207-209 | a lower-case hex digit has the value of its upper-case form, and the encoder writes that upper-case digit for the value |
| Color.ExampleLowerCase | src/Program.cs:202-211 | the lower-case colour `d8e21d` of the default `procname` rule decodes to (216, 226, 29) |
| Color.ExampleTrailingSpace | src/Program.cs:206-211 | `FF880 ` decodes to (255, 136, 0): the space around the last digit is skipped |
| Color.OtherLengthsGiveWhite | src/Program.cs:195-214 | a non-blank string of any length other than 6 or 8, or 7 or 9 after a leading `#`, gives white |
| Color.ParseFormatHex | src/Program.cs:202-211 | every colour written as six hex digits is read back as the same colour |
| Color.PrefixesIgnored | src/Program.cs:197-200 | a leading `#`, two leading alpha characters, or both, leave the decoded colour of six hex digits unchanged. The alpha characters are never examined; without the `#` they only must not start with `#` |
| Color.ParseFormatHexWithAlpha | src/Program.cs:197-211 | `#AARRGGBB` reads back the colour whatever the two alpha characters are, and so does `AARRGGBB` when they do not start with `#` |
| Color.UndecodablePairsGiveWhite | src/Program.cs:196-214 | a non-blank string that has six characters after dropping `#` and the alpha pair, one pair of which the hex parser rejects, falls back to white |
| Color.ExampleOrangeWithAlpha | src/Program.cs:193-215 | `#80FF8800` is orange (255, 136, 0): the alpha pair `80` is ignored |
| Color.ExampleBlankAndShort | src/Program.cs:195-214 | the empty string is no colour; a two-character string is white |
| Escape.SetColorCode | src/Program.cs:12-29 | every write is escape sequences starting with ESC and ending in `m`. It is `ESC[0m` exactly when both channels are absent. `Escape.SetColorCodeRoundTrip` and `Escape.SetColorCodeShape` give the rest |
| Escape.SetColorCodeRoundTrip | src/Program.cs:12-29 | the string written for any pair of optional colours decodes back to exactly that pair, so the four cases never produce the same string |
| Escape.SetColorCodeShape | src/Program.cs:16-26 | no colour writes `ESC[0m`; a foreground alone writes one `ESC[38;2;R;G;Bm`; a background alone writes one `ESC[48;2;R;G;Bm`; with both, the foreground sequence comes before the background one. R, G and B are written by `Escape.Decimal` |
| Escape.Decimal | src/Program.cs:19-22 | a channel is written as a non-empty string of decimal digits without a leading zero; `Escape.SetColorCodeRoundTrip` reads the value back |
| Config.DefaultItemDefaults | src/Config.cs:1-10 | a rule built without values has no note, empty colours and an empty pattern, and all three switches off. It asks for no colour |
| Config.BlankColorsAskForNothing | src/Config.cs:4-5 | a rule whose colour strings are blank asks for neither channel |
| Matches.FilterMatches | src/Program.cs:236 | the filter keeps at most as many matches as the engine returned. `Matches.FilterMatchesKeeps` says which ones and `Matches.FilterMatchesInOrder` that their order is kept |
| Matches.FilterMatchesKeeps | src/Program.cs:235-237 | for every match, the filtered list holds it as often as the engine returned it when it passes the filter, and never otherwise. A match passes when the rule is not GroupMatch or the match has more than one group |
| Matches.FilterMatchesInOrder | src/Program.cs:235-237 | the kept matches are an order-preserving subsequence of the engine's matches |
| Matches.FilterMatchesUnique | src/Program.cs:235-237 | the filtered list is the only list in the engine's order that holds each match as often as `Matches.FilterMatchesKeeps` says, so order and counts determine it |
| Matches.FilterMatchesSubset | src/Program.cs:236 | every kept match was returned by the engine and passes the filter |
| Matches.Effective | src/Program.cs:269-270 | the span of a kept match: group 1 under GroupMatch, else the whole match. `Matches.CollectByRule` states it for every collected entry |
| Matches.CollectFrom | src/Program.cs:264-271 | every collected entry names the rule it came from. `Matches.CollectEmptyIff`, `Matches.CollectOrdered` and `Matches.CollectByRule` give its contents |
| Matches.CollectEmptyIff | src/Program.cs:241-271 | the collected list is empty exactly when no rule kept a match |
| Matches.CollectOrdered | src/Program.cs:264-271 | collected entries come in rule order |
| Matches.CollectByRule | src/Program.cs:264-271 | the entries of rule `k` in the collection are exactly rule `k`'s kept matches, in the engine's order. Each is the whole match, or group 1 under GroupMatch |
| StableSort.SortByStart | src/Program.cs:272 | the result is ordered by start index and is a permutation of the input |
| StableSort.SortByStartStable | src/Program.cs:272 | for every start index, the entries with that start keep their input order |
| StableSort.StableSortUnique | src/Program.cs:272 | any two sequences sorted by start that keep every start's entries in the same order are equal, so the sort result is determined |
| StableSort.SortByStartIdempotent | src/Program.cs:272 | sorting an already sorted list changes nothing |
| StableSort.SortByStartTies | src/Program.cs:264-273 | when the input is in rule order, entries with equal starts come out in rule order |
| Overlap.Survivors | src/Program.cs:275-292 | the reference for which entries the sweep as written keeps: position 0, and every entry that starts at or after the end of the entry just before it. `Overlap.RemoveOverlaps` is proved to compute it |
| Overlap.RemoveOverlaps | src/Program.cs:275-292 | the two loops keep exactly the entries at position 0 and those starting at or after the end of the entry just before them, removed or not. Order is kept |
| Overlap.SurvivorsSubseq | src/Program.cs:287-292 | the kept entries are a subsequence of the sorted ones |
| Overlap.FirstSurvives | src/Program.cs:275-285 | the first sorted entry is always kept |
| Overlap.ChainedSurvives | src/Program.cs:275-292 | entries that already do not overlap are all kept |
| Overlap.OverlapSurvives | src/Program.cs:281-284 | on entries (0,5), (1,1), (3,2) the sweep as written keeps (0,5) and (3,2), which overlap. The intended sweep keeps only (0,5) |
| Overlap.SweepChained | src/Program.cs:275-285 | the intended sweep keeps entries that do not overlap and start at or after the running index |
| Overlap.SweepSubseq | src/Program.cs:275-292 | the intended sweep keeps a subsequence of its input |
| Overlap.ChainedSweep | src/Program.cs:275-292 | the intended sweep keeps every entry of a list that already does not overlap |
| Emit.ColorEvents | src/Program.cs:250-254 | a rule's colour writes are at most two, none exactly when the rule asks for no colour. Each sets exactly one channel and none is a reset; with both channels the background is written first. `Emit.ColorEventsPen` gives the colours they leave |
| Emit.ColorEventsPen | src/Program.cs:308-315 | a rule's colour writes, starting from the default colours, leave the terminal in exactly the rule's colours and write no text |
| Emit.EmitFrom | src/Program.cs:296-325 | the print-out loop over the kept entries. `Emit.EmitReconstructs`, `Emit.EmitPaint` and `Emit.EmitEndsReset` state what it writes |
| Emit.GapFacts | src/Program.cs:300-304 | a gap write shows its text in the default colours whatever the terminal showed before, and leaves the default colours |
| Emit.EmitReconstructs | src/Program.cs:296-325 | when the kept entries do not overlap, the gaps, tokens and tail written from the running index on are exactly the rest of the line |
| Emit.EmitPaint | src/Program.cs:296-325 | when the kept entries do not overlap, every character from the running index on is shown once, in order. Inside a kept entry it has that entry's rule colours; in a gap it has the default colours |
| Emit.EmitPaintAnyPen | src/Program.cs:296-325 | when the first kept entry leaves a gap, the rest of the line shows the colours of `Emit.EmitPaint` whatever the terminal showed before |
| Emit.EmitEndsReset | src/Program.cs:298-325 | once at least one entry is written, the loop leaves the terminal at its default colours, whatever it showed before |
| Engine.FirstFullRowFrom | src/Program.cs:243 | the chosen rule is the lowest-indexed FullRow rule with a kept match. None is chosen exactly when there is no such rule |
| Engine.Dispatch | src/Program.cs:241-335 | on each of the three paths, the writes for a line end with the line terminator. `Engine.NoMatchLine`, `Engine.FullRowPrecedence` and `Engine.LineReconstructs` give the rest |
| Engine.LineEvents | src/Program.cs:231-335 | the writes for one line end with the line terminator. `Engine.LineEndsReset` and `Engine.PidExample` state more |
| Engine.PartialPathNonEmpty | src/Program.cs:241-292 | when some rule matched, the sorted and the kept lists are not empty |
| Engine.LineEndsReset | src/Program.cs:241-335 | every line, on each of the three paths, leaves the terminal at its default colours |
| Engine.LineReconstructs | src/Program.cs:241-335 | when the kept entries do not overlap, the text written for the line is the line. Each character shows the FullRow rule's colours, the covering entry's rule colours, or none |
| Engine.IntendedReconstructs | src/Program.cs:241-335 | with the intended sweep, every line is written exactly once, each character in the colours `LineCells` gives it |
| Engine.NoMatchLine | src/Program.cs:331-335 | when no rule kept a match, nothing is collected, and the line is written after a reset, verbatim, followed by a line terminator |
| Engine.NoMatchRendered | src/Program.cs:331-335 | on the console, such a line is `ESC[0m`, the line, then the line terminator |
| Engine.FullRowPrecedence | src/Program.cs:243-259 | when rule `k` is the first matching FullRow rule, the line is written whole and every character shows rule `k`'s colours. Every colour write carries only rule `k`'s channels |
| Engine.PartialPathOrder | src/Program.cs:264-273 | the partial path sorts exactly the collected entries, and only those. The sort is stable, and equal starts are broken by rule order |
| Engine.OverlapBreaksReconstruction | src/Program.cs:275-325 | with three plain rules matching `abcde`, `b` and `de` on `abcdefgh`, the program keeps `abcde` and `de` and writes `abcdedefgh` |
| Engine.NoteNeverRead | src/Program.cs:231-335 | two rule lists that differ only in note, pattern or IgnoreCase write the same events for the same matches. The note is a label only |
| Engine.DefaultItemBehaviour | src/Config.cs:4-9 | a rule built without values keeps every match, colours the whole match, and writes no colour sequence |
| Engine.PidExample | src/Program.cs:231-335 | the GroupMatch rule `\[(\d+)\]` with foreground `FF0000` on `proc[42] started` produces these writes: reset, `proc[`, red foreground, `42`, reset, `] started`, newline |

## Left out

- Engine.LineReconstructs: stated only for lines whose kept entries do not overlap. The sweep as written can keep overlapping entries, and the line is then not written once (see Findings).
- The regular-expression engine is left out: the construction of `Regex` with `IgnoreCase`, and `Matches(line)`. Its results are inputs, one `RawMatch` per match. Each gives the index, length and group count, and the index and length of group 1. A group 1 that did not participate reaches the model as the engine reports it: index 0, length 0.
- Reading standard input, the loop over lines, the cancellation token, the Ctrl-C handler and the exit codes are left out. So is the final `ResetColors()` after the last line. These are I/O and process control.
- Loading the configuration is left out: the default config path, JSON (de)serialisation, command-line options, the `--test` and `--demo` modes and src/Types.cs. None of these touches the per-line logic.
- `Console.Write` is replaced by the event list. `Environment.NewLine` is the parameter `nl` of `Render`.
- Color.ParsePair: accepts exactly two hex digits, or one hex digit with white space before or after it. The .NET parser also accepts trailing NUL characters; that tolerance is not modelled.
- Color.ParseColor: a model string is a sequence of Unicode scalar values, while the source counts UTF-16 code units in `Length` and `Substring`. The two agree on strings without characters above U+FFFF. With such a character they differ: `"\U{1F600}AABBCC"` has 7 scalars, so the model gives white, but 8 code units in the source, which drops the first two as alpha and gives (170, 187, 204).
- Line positions: match indices, lengths and the running index are counted in Unicode scalar values, while the source counts UTF-16 code units in `Match.Index`, `Match.Length` and `Substring`. They agree on lines without characters above U+FFFF. On other lines the positions differ, and a match can end inside a surrogate pair, which no model position can express. `WellFormed` is stated for the first kind of line.
- Color.ParseColor: the `#` test is modelled as an exact comparison of the first character. `StartsWith("#")` in the current culture is not modelled. The model's strings are never null; a null colour string behaves like the empty one in the source.
- `Color.FromArgb` gives an opaque colour. The model's `Rgb` keeps only the three channels, which are all that `SetColor` writes.
- `Substring` can throw, but not here: gap and tail writes happen only when the running index is before their start, and `WellFormed` keeps every token inside the line. So no exception path is modelled.
- Three behaviours a reader might expect are not in the code and so are not modelled: merging channels of overlapping rules per character, merging adjacent spans, and discarding zero-length matches. Zero-length matches are kept: their colour writes and an empty token are written, followed by a reset.

## Findings

| source | as written | input that shows it | evidently intended | confidence | as-written member | corrected member |
|---|---|---|---|---|---|---|
| src/Program.cs:281-284 | the running index `idx` is set to the end of every sorted entry, including an entry just marked for removal | the sorted entries (0,5), (1,1), (3,2) on the line `abcdefgh`. The entry (1,1) is removed but sets `idx` to 2, so (3,2) is kept although it overlaps (0,5). The line is written as `abcdedefgh` | advance `idx` only past kept entries, so kept entries never overlap and every line is written exactly once | not executed | Engine.OverlapBreaksReconstruction | Engine.IntendedReconstructs |

`LineEvents` is the program as written. `IntendedLineEvents` is the same
dispatch with the corrected sweep `SweepFrom`, which advances the running
index only past entries it keeps. `Engine.LineEndsReset` holds for both.
