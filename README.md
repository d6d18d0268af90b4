# Math bot core, in Dafny

A Telegram bot that answers maths questions, modelled at the level of its own
logic. The bot's core has four parts, all in `bot.py`:

- **The normaliser** (`MathBot.preprocess_expression`). It applies a fixed table
  of Russian command words in order. The first four entries (`реши`, `решить`,
  `посчитай`, `вычисли`) delete the word. The other five rename it to the English
  name of an algebra call. It then rewrites `^`, `π` and `∞` and collapses
  whitespace.
- **The dispatcher** (`MathBot.solve_expression`). It echoes the message and the
  cleaned text, then does one of two things:
  - If the cleaned text holds no letter, it tries the restricted numeric `eval`
    and prints its value. If either raises, it goes on to the symbolic branches.
  - Otherwise it takes the first symbolic branch whose keyword occurs (`diff`,
    `integrate`, `limit`, `solve` or `=`, else simplify), and calls the
    computer-algebra library. The `diff`, `integrate` and `limit` branches and a
    `solve` call split their arguments on commas; a bare equation and the general
    branch parse the whole text.
- **The history store** (`MathBot.format_result`). `USER_HISTORY` maps each user
  to a list of answers. The list is created when the user's first message is answered, grows only on
  success, and is cut to its newest ten entries.
- **The history view** (the `"history"` button of `button_handler`). It lists the
  newest five entries, newest first, numbered from 1. Each result is cut to fifty
  characters, with `...` added only when it was longer.

Layout:

- `wrappers.dfy`: `Option` and `Result`.
- `text.dfy`: the Python string operations the core uses, as functions with their
  laws: `in`, `str.replace`, `str.split()`, `' '.join`, `str.split(c)` and
  `str.strip()`.
- `normaliser.dfy`: the normaliser. `Preprocess` is the loop;
  `Normalised` is its specification.
- `dispatcher.dfy`: the dispatcher. The algebra library and the restricted `eval`
  form an `Engine` of opaque calls, any of which may fail (raise). Printing a
  value (`str`, `pretty`) is such a call too. `SolveSteps`
  and the per-branch methods build the step list by appending, and are proved
  equal to `SolveCleaned` and the per-branch functions.
- `history.dfy`: the `Store` class (the `USER_HISTORY` dictionary) with
  `FormatResult` and `ShowHistory`, proved against `Record` and `View`.

The help text's example "производная x^2 + 3x" (`bot.py:83`, `bot.py:339`)
normalises to `diff x**2 + 3x`. That text holds no `diff(` call and no comma, so
the `diff` branch finds one argument and answers success with no result
(`DiffArity`).

The table entry `решить` never fires on the bare word `решить`, because the entry
`реши` comes first and consumes its first four letters (`SolveCommandLeavesTail`).
It fires only when deleting `реши` joins the text around it into `решить`, as in
`ререшишить` (`SolveWordRebuilt`). The model keeps the table as written.

## Model

| member | source | states |
|---|---|---|
| Normaliser.Preprocess | bot.py:103-131 | The loop over the table, the three glyph rewrites and the whitespace collapse compute `Normalised(text)`: the table applied entry by entry in order, then `^`, `π`, `∞`, then `' '.join(text.split()).strip()`. |
| Normaliser.NormalisedHasNoGlyphs | bot.py:122-126 | The output contains no `^`, no `π` and no `∞`. |
| Normaliser.NormalisedWellSpaced | bot.py:129-131 | The output has no whitespace at either end, and its tokens are separated by single spaces. |
| Normaliser.NormalisedTokens | bot.py:129-131 | The output's whitespace-separated tokens are those of the substituted text, in the same order. |
| Normaliser.NormalisedIsCollapsed | bot.py:129-131 | The final `strip()` removes nothing: the output equals the collapsed text. |
| Normaliser.SolveCommandLeavesTail | bot.py:106-119 | Because `реши` is replaced before `решить`, the message `решить` normalises to `ть`. |
| Normaliser.SolveWordRebuilt | bot.py:106-119 | The entry `решить` can still fire: deleting `реши` from `ререшишить` leaves `решить`, which the next entry deletes, so the message normalises to empty text. |
| Normaliser.DerivativeBecomesDiff | bot.py:106-119 | Any text containing `производная` normalises to text containing `diff`, whatever else the table and the glyph rewrites do. |
| Normaliser.ApplyRulesFixed | bot.py:118-119 | Once the table has produced `t`, later entries that leave `t` unchanged leave the final result `t`. |
| Normaliser.ApplyRulesKeep | bot.py:118-119 | An occurrence of `t` that no later pattern can overlap survives the rest of the table. |
| Text.ReplaceAllChars | bot.py:118-126 | Every character of `s.replace(p, r)` comes from `s` or from `r`. |
| Text.ReplaceAllRemoves | bot.py:122-126 | Replacing a one-character pattern by text without that character leaves no occurrence of it. |
| Text.ReplaceAllAbsent | bot.py:118-119 | A pattern that does not occur leaves the text unchanged. |
| Text.ReplaceAllFires | bot.py:118-119 | A pattern that occurs is replaced: the replacement occurs in the result. |
| Text.ReplaceAllAround | bot.py:118-119 | Replacing a pattern that cannot overlap `t` treats the text on either side of an occurrence of `t` separately, and keeps `t`. |
| Text.ReplaceAllKeeps | bot.py:118-126 | An occurrence of `t` survives the replacement of a pattern that cannot overlap it. |
| Text.Words | bot.py:129 | Every token of `s.split()` is non-empty and free of whitespace. |
| Text.WordsOfJoinSpaced | bot.py:129 | Splitting tokens joined by single spaces gives the tokens back. |
| Text.CollapseWellSpaced | bot.py:129 | `' '.join(s.split())` has no whitespace at either end and single spaces between tokens. |
| Text.CollapseWords | bot.py:129 | The collapse keeps the tokens of its input, in order. |
| Text.CollapseKeeps | bot.py:129 | Any whitespace-free text occurring in the input occurs in the collapsed text. |
| Text.StripLeft | bot.py:131 | The result is a suffix of the input that starts with a non-space, and everything removed was whitespace. |
| Text.StripRight | bot.py:131 | The result is a prefix of the input that ends with a non-space, and everything removed was whitespace. |
| Text.StripTrimmed | bot.py:131 | `strip()` leaves text that neither starts nor ends with whitespace unchanged. |
| Text.SplitOn | bot.py:168 | `s.split(c)` has at least one part, and no part contains `c`. |
| Text.SplitOnCount | bot.py:168 | `s.split(c)` has exactly one part more than `s` has `c` characters. |
| Text.JoinOnSplitOn | bot.py:168 | Joining the parts of `s.split(c)` with `c` gives `s` back. |
| Text.SplitOnJoinOn | bot.py:168 | Splitting a `c`-join of `c`-free parts gives the parts back. |
| Text.ContainsTransitive | bot.py:165-206 | A substring of a substring is a substring. |
| Dispatcher.ClassifyFirstMatch | bot.py:165-228 | The branch taken is the one whose keyword test holds and whose every predecessor's test fails, in the order `diff`, `integrate`, `limit`, `solve`/`=`, general. |
| Dispatcher.ArgumentsCount | bot.py:167-168 | Deleting the call prefix and every `)` and splitting on `,` gives one argument more than the cleaned text has commas. |
| Dispatcher.DeleteKeepsCount | bot.py:167 | Deleting text that holds no comma keeps the number of commas. |
| Dispatcher.SolveCleaned | bot.py:133-242 | A success starts with the raw-text echo followed by the cleaned-text echo. A failure has exactly one step, the error. The result is numeric exactly when the cleaned text has no letter and neither `eval` nor printing its value raises. The numeric result is the value `eval` returned, with three steps. |
| Dispatcher.SolveExpression | bot.py:133-242 | Normalising and then answering by appending steps computes `Solve`, that is `SolveCleaned` on the normalised text. |
| Dispatcher.SolveSteps | bot.py:141-235 | The step-appending body computes `SolveCleaned`. |
| Dispatcher.SymbolicSteps | bot.py:165-228 | The `if`/`elif` chain runs the branch `Classify` picks, with the arguments split for its call name. |
| Dispatcher.DiffSteps | bot.py:165-176 | The `diff` branch appends function, variable and derivative, and returns the derivative, or the first error of a library call or of printing a value. |
| Dispatcher.IntegrateSteps | bot.py:178-189 | The `integrate` branch appends function, variable and integral, and returns the integral, or the first error of a library call or of printing a value. |
| Dispatcher.LimitSteps | bot.py:191-204 | The `limit` branch appends function, variable, point and limit, and returns the limit, or the first error of a library call or of printing a value. |
| Dispatcher.EquationSteps | bot.py:206-220 | The equation branch appends equation and solutions, and returns the solutions, or the first error of a library call or of printing a value. |
| Dispatcher.GeneralSteps | bot.py:222-228 | The general branch appends the parsed and the simplified expression, and returns the simplified one, or the first error of a library call or of printing a value. |
| Dispatcher.NoCallNoResult | bot.py:229-235 | A symbolic branch that makes no call still reports success, with no result and only the two echo steps. |
| Dispatcher.KeywordHasLetter | bot.py:146-165 | Text holding `diff`, `integrate` or `limit` holds a letter, so the numeric path is never tried on those branches. |
| Dispatcher.DiffArity | bot.py:169 | On the `diff` branch, text with other than exactly one comma answers success with no result and only the echo steps. |
| Dispatcher.IntegrateArity | bot.py:182 | On the `integrate` branch, text without a comma answers success with no result and only the echo steps. |
| Dispatcher.LimitArity | bot.py:195 | On the `limit` branch, text with fewer than two commas answers success with no result and only the echo steps. |
| Dispatcher.EquationDefaultsToX | bot.py:206-220 | On the equation branch, for a bare equation (any commas) or a `solve` call without a comma, the equation is solved for `x`, and the answer is the solutions after the echo, printed equation and printed solutions steps. |
| Dispatcher.SymbolicSucceeds | bot.py:165-228 | With a library none of whose calls raises, no symbolic branch fails. |
| Dispatcher.FailuresComeFromEngine | bot.py:237-242 | With a library none of whose calls raises, `solve_expression` always succeeds: every failure comes from a library call. |
| History.Record | bot.py:259-268 | After a success the list ends with the new entry. It has one entry more, or ten once it is full, and it is the newest part of the old list followed by the new entry. |
| History.RecordIsNewest | bot.py:266-268 | Recording is appending and then keeping the last ten entries, Python's `[-10:]`. |
| History.NewestOfNewest | bot.py:267-268 | Cutting to the newest `n` before appending more keeps what cutting afterwards would keep. |
| History.RecordEachKeepsNewest | bot.py:259-268 | After any run of successful answers, the history is the newest ten of the old history followed by those answers, oldest first. |
| History.PreviewShape | bot.py:355 | A result of at most fifty characters is shown whole. A longer one shows its first fifty followed by `...`, and only then is the preview longer than fifty. |
| History.ViewNewestFirst | bot.py:351-355 | The listing has at most five lines; line `k` is numbered `k+1` and shows the `k`th newest entry's expression and the preview of its result. |
| History.LatestListedFirst | bot.py:259-268 | Right after a successful answer, the listing's first line is that answer. |
| History.Response | bot.py:249-276 | A failed answer gives the apology. A successful one gives the steps and the pretty-printed result, and raises exactly when `pretty` or `str` of the result raises. |
| History.Store.FormatResult | bot.py:244-276 | Only the caller's history changes. A success whose result prints records the new entry with `Record`. Otherwise an existing list stays as it was, and an unseen user gets an empty list, even when printing raises. Every list stays at most ten long, and the reply is `Response`. |
| History.Store.Remember | bot.py:266-268 | Appending to the caller's list and cutting it to its last ten entries sets that list to `Record` of the old one; no other user's list changes. |
| History.Store.ShowHistory | bot.py:350-357 | The loop builds exactly `View` of the caller's history: the empty message for a missing or empty history, else the numbered listing. |

## Left out

- The Telegram handlers, keyboards, start and help texts, `send_chat_action` and `asyncio.sleep` are chat transport, not logic.
- The Flask routes, the self-ping loop and the thread start-up are HTTP keep-alive plumbing.
- The computer-algebra library (`sympify`, `diff`, `integrate`, `limit`, `solve`, `simplify`, `pretty`, `str`) and the restricted numeric `eval` are opaque `Engine` calls. Which inputs make them raise, and what they return, is not modelled. The model assumes every such call returns: the source sets no time-out, and the numeric gate admits letter-free text such as `9**9**9**9`, on which `eval` may run without bound. Printing a value is one `show` function, so printing the same value twice, once into a step (`bot.py:151`) and once more in `format_result` (`bot.py:263`), gives the same text or the same exception both times.
- `datetime.now().isoformat()` is a clock read; `FormatResult` takes the time stamp as a parameter.
- The Markdown text of each step and of the reply is not modelled: steps are a `Step` datatype, and a reply is the data it shows.
- `str.isalpha` is exact for code points below U+0530 (Latin and its extensions, IPA, spacing modifiers, Greek, Cyrillic and its supplement), as Unicode 15 classifies them. Letters from U+0530 on (Armenian, Hebrew, Arabic, CJK and the rest) count as non-letters.
- `str.replace` with an empty pattern is not modelled; the bot never passes one.
- Of the symbols `x, y, z` the dispatcher creates, only `x` is used, and only `x` is modelled (`Engine.x`).
- Concurrent access to `USER_HISTORY` is not modelled: each call runs alone.
- The normaliser is not idempotent (`ререшиши` becomes `реши`, which becomes empty), so no idempotence is claimed.
