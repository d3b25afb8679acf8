# opencode-usage in Dafny

A model of the core of `opencode-usage`, a command-line tool that reads
OpenCode's stored OAuth credentials and queries the Claude and Codex usage
endpoints. It then draws each provider's rate-limit windows in the terminal
as coloured progress bars with reset countdowns.

The model has six modules:

- `Common` (`common.dfy`): the shared shapes. These are optional values,
  thrown errors as `Result`, JavaScript `Date`s as `Instant` (a millisecond
  count or the invalid date), and one HTTP exchange. A fetcher's observable
  behaviour is `Fetched`: the request it issued, if any, and what it
  resolved or rejected with.
- `Text` (`text.dfy`): the JavaScript string primitives the renderer uses.
  These are `repeat`, `padStart`/`padEnd`, integer printing, `toFixed(2)`
  on exact values, and `join`. It also has the inverse operations used to
  state what rendered text carries: parsing numerals and `split`.
- `Auth` (`auth.dfy`): `src/auth.ts`. It covers the candidate locations of
  `auth.json`, the first-success probe over them (a `for` loop proved
  against a recursive specification), and the two OAuth resolvers.
- `ClaudeProvider` (`claude.dfy`): `src/providers/claude.ts`. It covers the
  guards in front of the request, the request, and the mapping of the JSON
  body into `ClaudeUsage`.
- `CodexProvider` (`codex.dfy`): `src/providers/codex.ts`. It covers the
  guards, the header record that is built and then extended in place, and
  the mapping into `CodexUsage`.
- `Display` (`display.dfy`): `src/display.ts`.
  - A printed line is a sequence of pieces. Each piece is an ANSI escape or
    visible text, so `Visible` gives what the terminal shows and widths are
    stated about that.
  - `bar`, `line` and `subLine` are functions.
  - `formatDuration` is a method that pushes parts onto a list, as the
    source does. It is proved equal to a function that is read back by a
    parser.
  - A provider block is a sequence of `Row`s, one per `console.log` call.
    `RenderRow` turns a row into its line, and `Print` renders the rows in
    order. The block lemmas state what each printed line of a block shows.

I/O is replaced by inputs:

- The file system is a map from paths to contents, and `JSON.parse` is a
  function returning an option.
- The environment is a record.
- What `fetch` settles with is a `Result`: a rejection (a refused
  connection, a failed DNS lookup) or a response record with a status line
  and the outcome of `res.json()`.
- `Date.now()` is a single `now`.
- `new Date(iso)` is a function from strings to `Instant`.
- JavaScript `Number(string)` is a function returning an option.

## Model

| member | source | states |
|---|---|---|
| Display.ColorForPercent | src/display.ts:16-20 | red exactly from 80, yellow exactly on [50, 80), green exactly below 50; 50 and 80 take the higher tier |
| Display.ColorMonotone | src/display.ts:16-20 | a larger percentage never gets a milder colour |
| Display.DotOf | src/display.ts:22-24 | the dot shows exactly "●" and opens with the colour's escape |
| Display.Dot | src/display.ts:22-24 | `dot`: shows exactly "●", opened by the escape of the percentage's colour tier |
| Display.BlockTable | src/display.ts:14 | the glyph of 0..8 eighths is the BLOCKS table, from blank to full block |
| Display.CellsInRange | src/display.ts:26-31 | for 0..100 the full, partial and empty cell counts are non-negative and sum to 20; a drawn partial index lies strictly between 0 and 8, so its glyph is neither blank nor full |
| Display.Bar | src/display.ts:26-40 | what the bar shows: `full` full blocks, then the partial glyph when one is drawn, then `empty` spaces; every run of cells sits over the grey background and is opened by the percentage's colour tier when filled and by the dim style when blank |
| Display.BarVisible | src/display.ts:26-40 | for 0..100 the bar shows `full` full blocks, then the partial glyph if any, then `empty` spaces: exactly 20 characters |
| Display.SplitMinutes | src/display.ts:44-47 | total minutes = days·1440 + hours·60 + minutes, with hours < 24 and minutes < 60 |
| Display.JoinedWords | src/display.ts:44-53 | for a positive delta the joined components are empty exactly under one minute; otherwise they start with a digit, so they are neither "now" nor "< 1m" |
| Display.DurationLabel | src/display.ts:42-54 | "now" exactly for a delta ≤ 0; "< 1m" exactly for a delta strictly between 0 and one minute |
| Display.UnitToken | src/display.ts:50-52 | a component is its printed number followed by its unit letter; it starts with a digit and is a token the reader accepts exactly when the number is positive |
| Display.FormatDuration | src/display.ts:42-54 | the method that pushes parts and joins them returns exactly the duration label |
| Display.TakeUnitPositive | src/display.ts:50-52 | the reader takes a unit's value exactly when the next token is a positive numeral without leading zero followed by that unit, and consumes only that token; a zero value means the token is absent |
| Display.ParseDurationWords | src/display.ts:49-52 | the parts read back, in order, as the days, the hours and the minutes shown (0 for an omitted part) |
| Display.DurationLabelRoundTrip | src/display.ts:44-53 | from one minute up the label reads back as the split's days, hours and shown minutes (minutes only when there is no day), and it has exactly one word per nonzero component |
| Display.TimeUntil | src/display.ts:56-58 | "now" exactly when the instant is valid and not after `now`; "< 1m" exactly for an invalid date or an instant less than a minute ahead |
| Display.PercentTail | src/display.ts:61-63 | the percentage part shows a space and the rounded percentage right-aligned to 4 |
| Display.PercentTailColor | src/display.ts:62-63 | the percentage is drawn in the percentage's colour tier: its escape opens the readout |
| Display.ResetPad | src/display.ts:67-68 | the gap is at least 2 and at least what fills the line to 62; it is one of the two |
| Display.ResetTail | src/display.ts:66-69 | the annotation part shows the gap's spaces then "resets …" |
| Display.WindowLineText | src/display.ts:60-70 | `line` (Display.WindowLine) without a reset instant is only the left part; with one it shows the left part, the gap, and "resets " followed by the time left until the instant at `now` |
| Display.WindowLineLayout | src/display.ts:64-69 | without a reset instant only the left part is printed; with one the visible line is left part, gap, annotation |
| Display.LineLeftVisible | src/display.ts:61-63 | the left part shows the indent and the label padded to 14, a space, the bar, a space and the padded percentage |
| Display.PercentTextWidth | src/display.ts:61 | a percentage in 0..100 prints in exactly the 4 columns it is padded to |
| Display.LineLeftWidth | src/display.ts:61-67 | for a label of ≤ 14 characters and 0..100 the left part is 42 visible characters, the width the source assumes |
| Display.WindowLineWidth | src/display.ts:60-69 | under the same conditions an annotated line is max(62, 44 + annotation length) wide: exactly 62 when the annotation fits |
| Display.SubLine | src/display.ts:72-75 | `subLine` shows the indent, the label padded to 12, a space and the rounded percentage with "%"; the dimmed label is followed by the percentage in its tier's colour |
| Display.SubLineText | src/display.ts:72-75 | for a label of ≤ 12 characters the rounded percentage and "%" start at column 17 and end the line |
| Display.BalanceLine | src/display.ts:87 | an amount line shows the indent, the dimmed title, six spaces, "$" and the amounts |
| Display.HeaderVisible | src/display.ts:81 | a header shows "\n  ● " and the name |
| Display.HeaderLine | src/display.ts:81 | a header line shows "\n  ● ", the name and its suffix, and its dot carries the given colour |
| Display.PlanTag | src/display.ts:93 | the plan suffix shows "  (plan)" |
| Display.HeaderRowText | src/display.ts:93 | a header row shows the dot, the name and, when there is a plan, "  (plan)" |
| Display.MaxColor | src/display.ts:80-81 | the header dot takes the more severe colour of the two percentages |
| Display.ClaudeRows | src/display.ts:79-89 | the header with the colour of the larger window, then the 5h and 7d windows with their reset instants, then the optional rows; the count is 3 plus one per optional part shown |
| Display.ClaudeRowOrigin | src/display.ts:84-88 | a Sonnet or Opus sub-line, or an overage row, occurs only when the record has that part (overage: present and enabled) |
| Display.ClaudeOptionalRows | src/display.ts:84-88 | Sonnet and Opus sub-lines appear exactly when the shares exist, right after the windows and in that order, with their percentages; the overage row appears exactly when overage exists and is enabled, last, with its amounts |
| Display.ClaudeBlockHead | src/display.ts:79-83 | the block `displayClaude` prints (Display.DisplayClaude) opens with "\n  ● Claude", its dot in the colour of the larger window, then the 5h and 7d window lines with their resets at `now` |
| Display.ClaudeBlockShares | src/display.ts:84-85 | a Sonnet share prints its sub-line fourth; an Opus share prints its sub-line right after it, or fourth without one |
| Display.ClaudeBlockOverage | src/display.ts:84-88 | the block has one line per part shown, and with enabled overage the last printed line is the overage line with its amounts |
| Display.OverageLineCents | src/display.ts:87 | whole-cent overage amounts print as dollars, a point and two cent digits |
| Display.ClaudeOverageLine | src/display.ts:86-88 | with enabled overage the last Claude line shows both amounts in dollars and cents; without it there is no overage line |
| Display.OverageFromResponse | src/display.ts:86-88 | from the response: enabled `used_credits`/`monthly_limit` in cents end the block as "$d.cc / $d.cc"; disabled overage prints nothing |
| Display.CodexRows | src/display.ts:91-101 | the header with the plan and the colour of max(primary, secondary or 0), then the primary window, then the optional rows; the count follows the optional parts |
| Display.CodexOptionalRows | src/display.ts:95-100 | the Secondary line appears exactly when the window exists, third, with its values; the Credits line exactly when credits exist and are not unlimited, last, with the balance |
| Display.CodexBlockHead | src/display.ts:91-94 | the block `displayCodex` prints (Display.DisplayCodex) opens with "\n  ● Codex  (plan)", its dot in the colour of max(primary, secondary or 0), then the Primary window line |
| Display.CodexBlockTail | src/display.ts:95-100 | one line per part shown; a secondary window prints third, and credits that are not unlimited print last with their balance |
| Display.ErrorMessage | src/display.ts:105 | the message line shows the indent and the error text |
| Display.DisplayError | src/display.ts:103-106 | two lines: a red dot with the provider's name, then the message |
| Display.Separator | src/display.ts:77 | the rule shows 62 "─" |
| Display.TitleLine | src/display.ts:109 | the title shows "\n  OpenCode Usage" |
| Display.DisplayHeader | src/display.ts:108-111 | the title line, then the rule |
| Display.DisplayFooter | src/display.ts:113-116 | the rule, then an empty line |
| Text.Repeat | src/display.ts:35 | n copies of the character |
| Text.PadEnd | src/display.ts:63 | the string followed by spaces up to the width, never truncated |
| Text.PadStart | src/display.ts:61 | spaces then the string up to the width, never truncated |
| Text.NatToString | src/display.ts:50 | a non-empty run of decimal digits, with a leading "0" only for zero |
| Text.ParseNatToString | src/display.ts:50-52 | a printed number reads back as itself |
| Text.ParseNatLeading | src/display.ts:50-52 | a numeral without leading zero reads as a positive number |
| Text.IntToString | src/display.ts:61 | a leading "-" exactly for negatives, followed by digits without a leading zero (except for 0 itself) that read back as the magnitude |
| Text.NatToStringShort | src/display.ts:61 | numbers below 1000 print in at most three digits, so "100%" fills the 4 columns |
| Text.ToFixed2 | src/display.ts:87 | ends with a point and exactly two digits, and has a leading "-" exactly for negative values |
| Text.ToFixed2Cents | src/display.ts:87 | an amount in whole cents, divided by 100, prints as its dollars, a point and two cent digits |
| Text.SplitJoin | src/display.ts:53 | splitting a space-join of space-free words gives the words back |
| Text.Join | src/display.ts:53 | no words join to ""; one word joins to itself; otherwise the join starts with the first word |
| Auth.CandidatePaths | src/auth.ts:37-49 | the ~/.local/share then ~/Library/Application Support locations, with the XDG location in front exactly when XDG_DATA_HOME is non-empty |
| Auth.GetAuthPaths | src/auth.ts:37-49 | building the list and unshifting the XDG location gives the candidate locations |
| Auth.LoadAuthFileFirstSuccess | src/auth.ts:51-61 | succeeds exactly when some candidate reads and parses, with the parse of the first such; earlier failures are skipped; otherwise fails with "No auth.json found…" |
| Auth.ReadAuthFile | src/auth.ts:51-61 | the loop that returns on the first success resolves to the probe over the candidate locations |
| Auth.ResolveClaudeAuth | src/auth.ts:65-71 | absent unless the anthropic entry exists and is OAuth; token is `access`; expired exactly when now > expires |
| Auth.ResolveCodexAuth | src/auth.ts:76-83 | the same for the openai entry, with `accountId` passed through unchanged, absence included |
| Auth.GetClaudeAuth | src/auth.ts:63-72 | a failed lookup propagates its error; otherwise the resolved anthropic entry |
| Auth.GetCodexAuth | src/auth.ts:74-84 | a failed lookup propagates its error; otherwise the resolved openai entry |
| ClaudeProvider.UsageHeaders | src/providers/claude.ts:37-40 | exactly the bearer token and the beta header "oauth-2025-04-20" |
| ClaudeProvider.MapUsage | src/providers/claude.ts:47-69 | percents unchanged, reset instants parsed from `resets_at`, Sonnet/Opus/overage present exactly when the response has them, overage enabled copied and cents divided by 100 |
| ClaudeProvider.FetchUsage | src/providers/claude.ts:31-70 | lookup error, missing auth, expired token, in that order, each rejects before any request; otherwise one request to the usage URL with the headers, a rejected fetch passes its error on, a non-2xx status rejects with the status line, a 2xx body is mapped |
| ClaudeProvider.ApiErrorCarriesStatus | src/providers/claude.ts:43 | the error message carries the status code's digits, which read back as the status |
| CodexProvider.BuildHeaders | src/providers/codex.ts:37-42 | always the bearer token; the account-id header exactly when the account id is a non-empty string, with its value; nothing else |
| CodexProvider.CreditBalance | src/providers/codex.ts:67 | 0 exactly when the balance is zero or not numeric; otherwise its numeric value |
| CodexProvider.ResetInstant | src/providers/codex.ts:57 | the reset instant lies a whole number of seconds after `now`, exactly `reset_after_seconds` of them |
| CodexProvider.MapUsage | src/providers/codex.ts:50-71 | plan and percents unchanged, resets `reset_after_seconds`·1000 ms after now, secondary and credits present exactly when the response has them, credits' `unlimited` copied |
| CodexProvider.FetchUsage | src/providers/codex.ts:32-72 | lookup error, missing auth, expired token, in that order, each rejects before any request; otherwise one request to the usage URL with the built headers, a rejected fetch passes its error on, a non-2xx status rejects with the status line, a 2xx body is mapped |

## Left out

- `src/index.ts` is not part of this model. It runs the two fetchers concurrently with `Promise.allSettled` and prints a block or an error per provider. The block and error renderings it chooses between are modelled.
- I/O is modelled as inputs, listed above: `readFile`, `homedir()`, `process.env`, `fetch`, `res.json()` and `console.log`. A `display*` function returns its lines instead of printing them.
- `JSON.parse` and `Number(string)` are inputs returning an option. Ill-typed JSON shapes (a missing required field, a wrong type) are not modelled: the response records are typed.
- `path.join` is modelled as the list of components it is given. Normalisation and the platform separator are left out.
- `Date.now()` is one `now` per operation. The source reads the clock twice in `line` (for the annotation and for its length) and twice in `fetchCodexUsage`; the model assumes both reads agree.
- `new Date(resets_at)` is an input function from strings to `Instant`. ISO-8601 parsing is not modelled.
- CodexProvider.MapUsage: `reset_after_seconds` is taken as an integer, and an `Instant` is a whole number of milliseconds. Fractional seconds and IEEE rounding in `Date` arithmetic are not modelled.
- Text.ToFixed2: numbers are exact reals, so `toFixed(2)` rounds the exact value, a tie going up in magnitude. IEEE double representation error, and the binary rounding it causes, is not modelled. The same holds for `percent / 100 * 20` in `bar` and for `/ 100` on the cent amounts.
- The CYAN constant is unused by the source and is not modelled.
- Escape codes are modelled as an abstract `Style`; their byte sequences are not modelled. The properties are stated on visible text and on which style opens a piece.
- `res.json()` rejection is an abstract error message (`Failure(error)`). The exact text a JSON syntax error produces is not modelled.
