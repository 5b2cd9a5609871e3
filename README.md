# Word Power bot: spellings, edit distance and weights

This project models the computational core of a Discord word-guessing bot. It proves properties of that model in Dafny. The model has three parts.

- **Spelling extraction.** `Word._extract_spellings` (module `AhDictionary`) turns one catalogue entry into the tuple of accepted spellings. It cuts a trailing star marker ` *`, cuts a ` (gloss)` suffix, and splits the rest on `/`. The file's entry grammar is modelled as a datatype `Vocabulary` with a renderer, and extraction is proved to invert it. The few Python `str` operations it relies on are in module `PyStr`: `find`, slicing with a negative stop, `split` and `join`.
- **Levenshtein distance and scoring** (module `Levenshtein`).
  - `EditDistance` is the recursive unit-cost edit distance over the prefix table.
  - `levenshtein_distance` is a method of the class `DistanceBuffer`, which owns the module-level row buffer `dp` as an array. The method swaps the operands so that the shorter one sizes the row, grows the buffer, and runs the rolling-row loops. It is proved to return `EditDistance`, and to leave the buffer in a stated shape.
  - The `edit` command's score is the minimum distance over the spellings. A guess is judged correct by membership in the spellings.
- **Per-player weights** (module `Weights`).
  - The nested default-0.5 table is a `map<string, map<string, real>>` with an explicit default lookup.
  - The two update formulas are idealised over `real`.
  - The class `Game` holds the table and the aggression value `A`. Its method `RecordGuess` reads one weight, applies one formula and writes one key back.

The model follows the code as written:
- Gloss removal cuts at the first ` (` (`str.find`).
- An entry that ends in `)` but has no ` (` is accepted. `find` returns -1, and the slice drops only the last character (`UnmatchedParenthesis`).
- Empty pieces such as the one in `a//b` are kept (`EmptyPiecesKept`). The grammar's SPELLING may be empty too, and the grammar lemmas cover those entries.
- The function returns only the spellings. Callers test `entry[-1] == '*'` themselves.
- A trailing `*` removes two characters whether or not a space precedes it (`MarkerWithoutSpace`).
- The failure on an empty entry, or one that is empty once the marker is cut, is Python's `IndexError` from `[-1]`, modelled as `IndexOutOfRange`.

## Model

| member | source | states |
|---|---|---|
| PyStr.Find | ahdictionary.py:77 | `s.find(pat)` is -1 exactly when `pat` occurs nowhere; otherwise `pat` occurs at the result and at no earlier index |
| PyStr.Split | ahdictionary.py:78 | `s.split(sep)` has at least one piece, no piece contains `sep`, and joining the pieces with `sep` gives back `s` |
| PyStr.SplitJoin | ahdictionary.py:78 | splitting a join of pieces free of `sep` gives back exactly those pieces |
| PyStr.SliceTo | ahdictionary.py:75-77 | `s[:stop]` is a prefix of `s` whose length is `stop` clamped to the string, counted from the end when `stop` is negative |
| PyStr.Join | ahdictionary.py:78 | `sep.join(ps)`: the pieces with `sep` between neighbours; its properties are SplitJoin and Split's contract |
| AhDictionary.StripMarker | ahdictionary.py:74-75 | the result is a prefix of the entry, equal to it exactly when the entry does not end in `*`, and otherwise two characters shorter (or empty) |
| AhDictionary.StripGloss | ahdictionary.py:76-77 | the result is a prefix of the entry, equal to it exactly when the entry does not end in `)`; otherwise it stops right before the first ` (`, or, when there is none, drops only the last character |
| AhDictionary.ExtractSpellings | ahdictionary.py:72-78 | fails exactly on an empty entry or one left empty by the marker cut; otherwise the tuple is non-empty, no spelling contains `/`, and its `/`-join is the entry without marker and gloss |
| AhDictionary.MarkerIgnored | ahdictionary.py:74-75 | for an entry not already ending in `*`, appending ` *` does not change the result |
| AhDictionary.MarkerCutOnce | ahdictionary.py:74-75 | only one marker is cut: `"x * *"` and `"x *"` give different results, so MarkerIgnored needs its requirement |
| AhDictionary.MarkerWithoutSpace | ahdictionary.py:74-75 | a trailing `*` cuts two characters even without a space: `"ab*"` gives `("a",)` and `"a*"` fails |
| AhDictionary.FindGloss | ahdictionary.py:77 | in `SPELLINGS (GLOSS)` with no `(` in SPELLINGS, the first ` (` is right after SPELLINGS |
| AhDictionary.GlossRemoved | ahdictionary.py:76-77 | `SPELLINGS (GLOSS)` with no `(` in SPELLINGS yields SPELLINGS split on `/` |
| AhDictionary.PlainEntry | ahdictionary.py:74-78 | a non-empty entry without `/` that ends in neither `*` nor `)` yields the one-element tuple of itself |
| AhDictionary.EmptyEntriesFail | ahdictionary.py:74-76 | `""`, `" *"` and `"*"` fail on the `[-1]` index |
| AhDictionary.UnmatchedParenthesis | ahdictionary.py:76-77 | an entry ending in `)` with no ` (` is not rejected; only its last character is dropped before the split |
| AhDictionary.EmptyPiecesKept | ahdictionary.py:78 | `"a//b"` yields `("a", "", "b")`: empty pieces are kept |
| AhDictionary.SpellingsPart | ahdictionary.py:14-15 | every character of the SPELLINGS part of a conforming entry is a spelling character or `/`, so it has no `(`; the part is empty exactly when its only SPELLING is empty |
| AhDictionary.ExtractBody | ahdictionary.py:76-78 | a conforming SPELLINGS or PARENTHESIZED entry yields exactly its spellings, except the empty entry, which fails |
| AhDictionary.ExtractRendered | ahdictionary.py:11-21 | every entry the grammar generates yields exactly its spellings, except `""` and `" *"` (one empty SPELLING, no gloss), which fail; no returned spelling contains `/`, `(`, `)`, `*` or a newline |
| AhDictionary.EmptySpellingEntries | ahdictionary.py:14-21 | `"a/ *"` yields `("a", "")`, `" (g)"` yields `("",)`, and `" *"` fails |
| AhDictionary.TheaterExample | ahdictionary.py:72-78 | `"theater/theatre (noun)"` yields `("theater", "theatre")` |
| AhDictionary.GregariousExample | ahdictionary.py:72-78 | `"gregarious *"` yields `("gregarious",)` |
| Levenshtein.DistBounds | word_power_bot.py:68-74 | every table cell lies between the difference of the prefix lengths and the larger of them |
| Levenshtein.DistLower | word_power_bot.py:68-74 | every table cell is at least the difference of the prefix lengths |
| Levenshtein.DistUpper | word_power_bot.py:68-74 | every table cell is at most the larger prefix length |
| Levenshtein.EditDistanceBounds | word_power_bot.py:57-75 | `abs(len s - len t) <= d(s, t) <= max(len s, len t)`, and `d("", t) == len t` |
| Levenshtein.DistCell | word_power_bot.py:74 | an inner cell is the minimum of the cell above plus 1, the cell to the left plus 1, and the diagonal plus the substitution cost |
| Levenshtein.DistSymmetric | word_power_bot.py:62-63 | the table of `a` against `b` is the transpose of the table of `b` against `a` |
| Levenshtein.EditDistanceSymmetric | word_power_bot.py:62-63 | `d(s, t) == d(t, s)`, which makes the operand swap harmless |
| Levenshtein.DistZeroIff | word_power_bot.py:68-74 | a table cell is 0 exactly when the two prefixes are equal |
| Levenshtein.DistZeroEqual | word_power_bot.py:68-74 | a zero cell means equal prefixes |
| Levenshtein.EqualDistZero | word_power_bot.py:68-74 | equal prefixes give a zero cell |
| Levenshtein.EditDistanceZeroIff | word_power_bot.py:57-75 | `d(s, t) == 0` exactly when `s == t`; in particular `d(s, s) == 0` |
| Levenshtein.HorseRos | test.py:96-105 | the test case `("horse", "ros", 3)` holds in both argument orders |
| Levenshtein.KittenSitting | test.py:89 | the listed case `("kitten", "sitting", 3)` holds |
| Levenshtein.MinDistance | word_power_bot.py:203 | the `edit` score is attained by some spelling and no spelling scores lower |
| Levenshtein.MinDistanceExtend | word_power_bot.py:203 | one more spelling lowers the minimum to its own distance when that is smaller |
| Levenshtein.IsCorrect | word_power_bot.py:242 | a guess is correct when it is one of the accepted spellings; ScoreZeroIffCorrect relates it to the score |
| Levenshtein.ScoreZeroIffCorrect | word_power_bot.py:242 | the `edit` score is 0 exactly when the guess is among the spellings, the test the correctness check uses |
| Levenshtein.DistanceBuffer.constructor | word_power_bot.py:56 | the buffer starts empty and newly allocated, so a caller that creates it may run the distance methods on it |
| Levenshtein.DistanceBuffer.LevenshteinDistance | word_power_bot.py:57-75 | returns `d(s, t)`; the buffer grows to at least `min(len s, len t) + 1` and never shrinks; cells past `m` keep their values; cells `0..m` end as the last row of the table of the longer string against the shorter |
| Levenshtein.DistanceBuffer.ResetRow | word_power_bot.py:65-67 | grows the buffer to at least `m + 1`, sets `dp[k] == k` for `k <= m`, and leaves later cells alone |
| Levenshtein.DistanceBuffer.NextRow | word_power_bot.py:69-74 | one outer iteration turns row `i` of the table into row `i + 1` in cells `0..m` and leaves later cells alone |
| Levenshtein.DistanceBuffer.FillCell | word_power_bot.py:72-74 | one inner iteration stores the table value of cell `j + 1`, returns the next diagonal value and changes no other cell |
| Levenshtein.DistanceBuffer.EditScore | word_power_bot.py:203 | the `edit` command's `min` over the spellings equals MinDistance; the buffer never shrinks and ends holding the last row of the table for the last spelling |
| Weights.Lookup | word_power_bot.py:115-117 | `weights[user][entry]` on the nested default-0.5 table; its properties are LookupUnseen, LookupStore and LookupInUnitInterval |
| Weights.Store | word_power_bot.py:248 | `weights[user][entry] = w`; its properties are LookupStore and StoreInUnitInterval |
| Weights.CorrectStep | word_power_bot.py:244 | the correct-guess formula `w / (A - w (A - 1))`; its properties are CorrectStepRange, StepsInverse and CorrectAlongCurve |
| Weights.WrongStep | word_power_bot.py:247 | the wrong-guess formula `A w / (1 + w (A - 1))`; its properties are WrongStepRange, StepsInverse and WrongAlongCurve |
| Weights.Curve | word_power_bot.py:241 | the curve `1 / (1 + A^x)` of the comment; StepsAlongCurve shows the two formulas move along it |
| Weights.LookupStore | word_power_bot.py:248 | after the write, the written player and entry read back the new weight; every other pair keeps its weight |
| Weights.LookupUnseen | word_power_bot.py:115-117 | an unseen player or entry reads as 0.5 |
| Weights.LookupInUnitInterval | word_power_bot.py:239 | a weight read from a table whose weights are in (0, 1) is in (0, 1) |
| Weights.StoreInUnitInterval | word_power_bot.py:248 | writing a weight in (0, 1) keeps all weights in (0, 1) |
| Weights.CorrectStepRange | word_power_bot.py:244 | for `0 < w < 1` and `A > 1`, the denominator exceeds 1 and the new weight lies in `(0, w)` |
| Weights.WrongStepRange | word_power_bot.py:247 | for `0 < w < 1` and `A > 1`, the denominator exceeds 1 and the new weight lies in `(w, 1)` |
| Weights.StepsInverse | word_power_bot.py:241-247 | `correct(wrong(w)) == w` and `wrong(correct(w)) == w` |
| Weights.CorrectUndoesWrong | word_power_bot.py:241-247 | `correct(wrong(w)) == w` |
| Weights.WrongUndoesCorrect | word_power_bot.py:241-247 | `wrong(correct(w)) == w` |
| Weights.PowerSucc | word_power_bot.py:241 | `A^(x+1) == A * A^x` for every integer `x`, and `A^x > 0` |
| Weights.StepsAlongCurve | word_power_bot.py:241-247 | on the curve `1/(1 + A^x)`, a correct guess moves from `x` to `x + 1` and a wrong one from `x` to `x - 1` |
| Weights.CorrectAlongCurve | word_power_bot.py:241-244 | a correct guess moves from the curve's point at `x` to its point at `x + 1` |
| Weights.WrongAlongCurve | word_power_bot.py:241-247 | a wrong guess moves from the curve's point at `x` to its point at `x - 1` |
| Weights.CorrectOnCurve | word_power_bot.py:244 | from `1/(1 + p)`, a correct guess reaches `1/(1 + A p)` |
| Weights.WrongOnCurve | word_power_bot.py:247 | from `1/(1 + A q)`, a wrong guess reaches `1/(1 + q)` |
| Weights.UpdateExamples | word_power_bot.py:244-247 | with `A = 2`, 0.5 becomes 1/3 after a correct guess and 2/3 after a wrong one; with `A = 1.5`, a wrong guess gives 0.6 |
| Weights.Game.constructor | word_power_bot.py:125-128 | the state after loading holds the loaded table and an aggression value greater than 1 |
| Weights.Game.RecordGuess | word_power_bot.py:239-248 | returns the old weight (default 0.5) and the new one by the formula for a correct or a wrong guess; the weight falls after a correct guess and rises after a wrong one; the table changes at that one player and entry only; the weights stay in (0, 1) |

## Left out

- Discord wiring is not modelled: the bot object, commands, event handlers, reactions, message sending and voice playback. It is asynchronous I/O against a library outside this model.
- `load_data` and `store_data` are not modelled, because they fetch and post JSON over Discord and HTTP. Only the rule `aggression_value > 1` is kept, as a precondition of `Game.constructor`.
- Weights.Game.constructor: requires every loaded weight to be in (0, 1). The source does not check the loaded weights, and without this requirement the range and direction results of `RecordGuess` would not hold.
- `randomize_hidden` is not modelled, because it is driven by `random.choice`/`choices` and by voice-channel membership. That includes its reads of `user_weights[word]`, which insert 0.5 entries into the table.
- The read at word_power_bot.py:239 inserts a 0.5 entry into the `defaultdict` before the write. `Store` shows only the table after the write, which overwrites that entry.
- `translate_accents` is not modelled, because it depends on Unicode normalisation from `unicodedata`.
- The rest of `Word` is not modelled: HTTP scraping, definition rewriting with regular expressions, audio caching and file writes, and the `functools.cache` on `make_word`.
- Python float rounding of the update formulas and the `:.2f` display are not modelled. The formulas are stated over `real`, and nothing is claimed about float results.
- `print` logging is not modelled.
- Weights.Game.RecordGuess: the read, the formula and the write are one atomic step for a fixed `secret`. In the source, `await msg.add_reaction` (lines 243 and 246) runs between the read at line 239 and the write at line 248, and the write reads the global `hidden_word_entry` again. A `new` command (line 209) or another guess's `randomize_hidden` (line 250) running during that await can change the entry, so the weight computed for one entry is stored under another, and two concurrent guesses can lose an update. The model does not capture this interleaving.
- Weights.CorrectStep and Weights.WrongStep: they state only that the denominator is non-zero. The source would raise `ZeroDivisionError` on a zero denominator, and that case is not modelled.
- Levenshtein.DistanceBuffer.ResetRow: `dp.extend` grows the same Python list. The model allocates a larger array, so the method promises `dp == old(dp) || fresh(dp)` and not the identity of the list.
- Only `kitten`/`sitting` and `horse`/`ros` are proved from the distance tests' list of cases. The test file narrows its list to the last case.
