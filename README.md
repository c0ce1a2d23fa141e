# psudohash_helper in Dafny

psudohash_helper.py is an interactive front end for the psudohash.py
wordlist generator. It asks the operator for the keywords to mutate, then
whether to append numbering (level and limit), years, and padding symbols
(before, after, custom), then for the output file name. It assembles the
psudohash.py command from the answers, shows it, and runs it when the
operator confirms.

This project models that session. Terminal input becomes a finite
sequence of answer lines with a cursor that moves forward as prompts read
from it. Reaching the end of the lines is what Python reports as an
end-of-file error on `input()`; here the session ends with `InputEnded`.

- `wrappers.dfy` (`Wrappers`): the `Option` type standing for Python's `None`.
- `text.dfy` (`Text`): `str.strip()`, `str.lower()` and `','.join` over
  ASCII, with the facts the prompts need. `Strip` gives exactly the middle
  of a line between whitespace runs. Surrounding whitespace never changes
  it. Stripping commutes with lower-casing.
- `prompts.dfy` (`Prompts`): `get_input` as `GetInput`, and `ask_yes_no`
  as `AskYesNo`, a loop that reads lines until one is a yes or a no.
  `ClassifyForms` proves exactly which answers count as each. The loop is
  proved to compute `NextReply`, the first line from the cursor that is a
  yes or a no, and the lemmas beside it say which line that is, that every
  line before it is a retry, and that there is no answer exactly when
  every remaining line is a retry. `CollectKeywords` is the keyword loop
  of `main`, proved to compute `KeywordsFrom`.
- `command.dfy` (`Command`): the collected answers (`Config`) and the
  argument vector built from them. `BuildCommand` mirrors the in-place
  `command +=` / `append` steps and is proved equal to `CommandLine`, the
  launcher followed by the rendered option list `Options`. The lemmas
  cover the following:
  - which flags appear under which gates;
  - their fixed order;
  - the value each flag carries;
  - reading the command back (`Parse`), which returns the options, so the
    vector is unambiguous, for a reader that knows which flags take a
    value, even when an answer looks like a flag;
  - token positions;
  - the absence of empty tokens.
- `helper.dfy` (`Helper`): `main` from the keywords to the execution
  prompt, as `RunHelper`, with one method per gated group of questions.
  Each method is proved to compute a function over the lines
  (`NumberingFrom`, `YearsFrom`, `PaddingsFrom`), and each function is
  tied line by line to the answers: which line holds each gate, that the
  lines before it are retries, and which lines give the values. `Session`
  reads the answers in the order of `main`, and `RunHelper` is proved to
  return exactly `Session` of the lines. A session that does not run out
  of answers is unchanged by any further answers, and one that does run
  out ends otherwise once more answers follow.

## Model

| member | source | states |
|---|---|---|
| Text.Strip | psudohash_helper.py:5 | the stripped text has no whitespace at either end, and is empty exactly when the line is all whitespace |
| Text.StripSplits | psudohash_helper.py:5 | every line is leading whitespace, then its stripped text, then trailing whitespace |
| Text.StripOf | psudohash_helper.py:5 | a non-empty trimmed text between two whitespace runs is what stripping returns: the stripped text is unique |
| Text.StripAbsorbsPadding | psudohash_helper.py:5 | extra whitespace around a line never changes its stripped text |
| Text.LowerAt | psudohash_helper.py:10 | lower-casing maps each character on its own, A-Z to a-z and everything else unchanged |
| Text.LowerConcat | psudohash_helper.py:10 | lower-casing a concatenation lower-cases each part |
| Text.LowerKeepsSpace | psudohash_helper.py:10 | lower-casing neither creates nor removes whitespace |
| Text.StripLowerCommute | psudohash_helper.py:10 | lower-then-strip equals strip-then-lower, so the order of the two calls does not matter |
| Text.Join | psudohash_helper.py:36 | the comma-joined keywords start with the first keyword |
| Text.JoinAppend | psudohash_helper.py:36 | joining one more keyword appends a comma and that keyword |
| Prompts.GetInput | psudohash_helper.py:4-6 | a blank answer yields the default; any other answer yields its stripped text, non-empty and trimmed; a present default always yields a value |
| Prompts.LowerIsCase | psudohash_helper.py:10-14 | the texts that lower-case to an all-lower-case word are exactly that word with any of its letters upper-cased |
| Prompts.ClassifyForms | psudohash_helper.py:8-16 | an answer is a yes exactly when its stripped text is `y` or `yes` in any letter case, a no exactly when it is `n` or `no` in any letter case, and a retry otherwise |
| Prompts.ClassifyPadded | psudohash_helper.py:10 | whitespace around an answer never changes whether it is a yes, a no or a retry |
| Prompts.FirstAnswerIs | psudohash_helper.py:8-16 | the loop settles on an answer with the cursor at `next` exactly when reply `next - 1` is the first from the cursor that is not a retry, and it is that answer |
| Prompts.FirstAnswerNone | psudohash_helper.py:8-16 | the loop finds no answer exactly when every reply from the cursor on is a retry |
| Prompts.FirstAtLines | psudohash_helper.py:10-16 | the first non-retry reply from the cursor is a given line exactly when every line between the cursor and it classifies as a retry and it classifies as that reply |
| Prompts.NextReplyIs | psudohash_helper.py:8-16 | over the lines, `ask_yes_no` settles on an answer with the cursor at `next` exactly when line `next - 1` is the first yes-or-no line from the cursor and reads as that answer |
| Prompts.NextReplyNone | psudohash_helper.py:8-16 | over the lines, `ask_yes_no` runs out of lines exactly when no line from the cursor on is a yes or a no |
| Prompts.AskYesNo | psudohash_helper.py:8-16 | the loop returns exactly `NextReply`: the answer of the first yes-or-no line with the cursor just past it, or no answer with all lines consumed |
| Prompts.NextReplyStable | psudohash_helper.py:8-16 | an answer the loop settles on is the same whatever lines come after |
| Prompts.NextReplyResumes | psudohash_helper.py:8-16 | when no line gives an answer, the loop goes on with the lines that follow them |
| Prompts.ClassifyBlankNo | psudohash_helper.py:10-16 | a blank answer is a retry and `n` is a no |
| Prompts.KeywordsFromLines | psudohash_helper.py:24-30 | the keywords are the stripped, non-empty answers in order, up to the first blank line; with no result, no line from the cursor on is blank |
| Prompts.CollectKeywords | psudohash_helper.py:24-30 | the loop returns exactly `KeywordsFrom`, with the cursor just past the blank line that ended it, or all lines consumed when none came |
| Prompts.KeywordsStable | psudohash_helper.py:24-30 | keywords ended by a blank line are the same whatever lines come after |
| Prompts.KeywordsEnd | psudohash_helper.py:24-30 | when the lines run out before a blank line, a blank line after them ends the loop with one keyword per line read |
| Command.BaseTokens | psudohash_helper.py:64 | the base group renders as `-w` with the comma-joined keywords, then `-o` with the output file |
| Command.NumberingTokens | psudohash_helper.py:66-67 | the numbering group renders as `-an level -nl limit` exactly when numbering was accepted, otherwise as nothing |
| Command.YearsTokens | psudohash_helper.py:68-69 | the years group renders as `-y spec` exactly when years were accepted and the spec is non-empty, otherwise as nothing |
| Command.PaddingTokens | psudohash_helper.py:70-76 | when paddings were accepted, the group renders as `-cpb` if before was chosen, then `-cpa` if after was chosen, then `-ap symbols` if the symbols are non-empty; otherwise as nothing |
| Command.CommandGroups | psudohash_helper.py:64-76 | the command is the launcher, then the base, numbering, years and padding groups, in that order |
| Command.BuildCommand | psudohash_helper.py:64-76 | building the list in place, group by group, produces exactly `CommandLine` |
| Command.ParseRender | psudohash_helper.py:64-76 | reading a rendered list of well-formed options back gives the same options, whatever text the values hold |
| Command.CommandParses | psudohash_helper.py:64-76 | the command starts with `python3 psudohash.py`, and the rest reads back as exactly the configured options |
| Command.OptionsFlags | psudohash_helper.py:64-76 | `-w` and `-o` always appear; `-an`/`-nl` exactly when numbering was accepted; `-y` exactly when years were accepted with a non-empty spec; `-cpb`, `-cpa`, `-ap` exactly when paddings were accepted and the respective answer is yes or non-empty |
| Command.FlagPresent | psudohash_helper.py:64-76 | a flag is in the option list exactly when `Selected`, the gate table read off `main`, says so |
| Command.OptionsOrdered | psudohash_helper.py:64-76 | flags appear in the fixed order `-w -o -an -nl -y -cpb -cpa -ap`, so no flag appears twice |
| Command.OptionsValues | psudohash_helper.py:64-76 | only the two pad switches lack a value, and every value is the configuration field its flag stands for |
| Command.CommandLayout | psudohash_helper.py:64-76 | the command length is 6 plus each gated group's size; the first six tokens are the base; with numbering, tokens 6-9 are the numbering pair |
| Command.CommandTokensNonEmpty | psudohash_helper.py:40-76 | given what the prompts guarantee (non-empty stripped keywords, non-empty defaults, years gated on a non-empty spec, symbols only when non-empty), no token is empty |
| Command.DisabledFieldsIgnored | psudohash_helper.py:66-76 | an answer behind a declined gate never reaches the command |
| Command.MinimalCommand | psudohash_helper.py:64 | keywords admin and root with every gate declined and the default output file give `python3 psudohash.py -w admin,root -o output.txt` |
| Command.YearsCommand | psudohash_helper.py:68-69 | years accepted with spec 2020 append `-y 2020` directly after the base tokens |
| Helper.NumberingLines | psudohash_helper.py:39-44 | the numbering group settles on its answers exactly when: accepted, the gate is the first yes-or-no line from the cursor and a yes, and level and limit are the next two lines stripped, or 1 and 50 when blank; declined, the gate is the first yes-or-no line and a no, and both stay empty |
| Helper.YearsLines | psudohash_helper.py:47-50 | the years group settles on its answers exactly when: accepted, the gate is the first yes-or-no line from the cursor and a yes, and the spec is the next line stripped, or absent when blank; declined, the gate is a no and the spec stays empty |
| Helper.PaddingsLines | psudohash_helper.py:53-58 | the padding group settles on its answers exactly when: accepted, the gate is the first yes-or-no line and a yes, the before and after switches are the next two yes-or-no lines in order, and the symbols are the line after them stripped, or empty when blank; declined, the gate is a no and nothing is set |
| Helper.AskNumbering | psudohash_helper.py:39-44 | the method returns exactly `NumberingFrom`; when the lines run out it has no result and all lines are consumed |
| Helper.AskYears | psudohash_helper.py:47-50 | the method returns exactly `YearsFrom`; when the lines run out it has no result and all lines are consumed |
| Helper.AskPaddings | psudohash_helper.py:53-58 | the method returns exactly `PaddingsFrom`; when the lines run out it has no result and all lines are consumed |
| Helper.NumberingStable | psudohash_helper.py:39-44 | settled numbering answers are the same whatever lines come after |
| Helper.YearsStable | psudohash_helper.py:47-50 | settled years answers are the same whatever lines come after |
| Helper.PaddingsStable | psudohash_helper.py:53-58 | settled padding answers are the same whatever lines come after |
| Helper.SessionKeywords | psudohash_helper.py:24-76 | the session ends for want of keywords exactly when the first answer is blank; a generated session's answers satisfy `Collected`, its command is `CommandLine` of them, and its keywords are the stripped answers before the first blank line |
| Helper.SessionFromGenerated | psudohash_helper.py:38-76 | once keywords are in, the session never ends for want of them, and a generated one keeps them, satisfies `Collected` and carries `CommandLine` |
| Helper.Configure | psudohash_helper.py:38-83 | the method returns exactly `SessionFrom`; a generated session keeps the given keywords, its answers satisfy `Collected`, and its command is `CommandLine` of them |
| Helper.Conclude | psudohash_helper.py:61-83 | the method returns exactly `AfterPaddings`: the output file (default `output.txt`), the command, and the execution answer, or `InputEnded` when the lines run out |
| Helper.RunHelper | psudohash_helper.py:18-83 | the method returns exactly `Session` of the lines; it stops for want of keywords exactly when the first answer is blank; a generated session's answers satisfy `Collected` and its command is `CommandLine` of them, with the keywords being the stripped answers before the first blank line |
| Helper.SessionStable | psudohash_helper.py:18-83 | a session that does not run out of answers ends the same way whatever answers follow |
| Helper.SessionFilled | psudohash_helper.py:18-83 | whatever the answers, followed by a blank line and seven `n` lines the session never ends with `InputEnded` |
| Helper.InputEndedMeansMoreNeeded | psudohash_helper.py:18-83 | a session ends with `InputEnded` exactly when more answers change its outcome |

## Left out

- Printing is not modelled: the banner (lines 19-21), the retry hint (line 16), the missing-keyword message (line 32), the display of the command joined by spaces (lines 79-80) and the result messages. Prompt texts and how a default appears inside them are also left out. None of these affect the command.
- Running the command is not modelled (lines 84-93). Launching `subprocess.run` and reporting a failed or missing psudohash.py are side effects on the host. `RunHelper` returns the command and the operator's choice instead.
- End of input and interrupts are not modelled as Python handles them. Python raises an uncaught `EOFError` when input runs out. The model ends the session with `InputEnded`. `KeyboardInterrupt` is not modelled.
- Only ASCII character semantics are modelled. `str.strip()` and `str.lower()` also treat non-ASCII whitespace and letters (for example U+00A0 and U+00C4). The model strips the ASCII whitespace of `str.isspace()` and lower-cases only A-Z.
- The comma-joined `-w` value is not shown to split back into the keywords. A keyword may itself contain a comma, and then psudohash.py's own splitting (not part of this model) gives different words.
- Prompts.Classify: carries no contract of its own; what it accepts is stated by `Prompts.ClassifyForms`.
- Text.Lower: its own contract states only that the length is kept; the per-character mapping is `Text.LowerAt`.
- Helper.SessionFilled: completion is shown for one continuation, a blank line followed by seven `n` lines; other continuations that answer every prompt are covered only through `Session` itself.
