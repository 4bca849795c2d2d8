# Unfamiliar-word finder: a Dafny model

The system takes a text and a learner profile (language, age, whether
the learner is a native speaker, and a proficiency level) and lists the
words of the text that the learner may not know. It has three parts:

- **Punctuation removal.** Every character of Python's
  `string.punctuation` (the 32 ASCII punctuation characters) is deleted.
- **Threshold calculation.** The profile becomes a rank threshold, which
  is the number of most frequent words the learner is assumed to know.
  The calculation can also produce an error message instead.
  - A non-native learner's level is used as the threshold directly.
  - A native English speaker aged 4 < age < 18 gets `2975*age - 15954`.
  - A native speaker of any other language aged 6 < age < 25 gets the
    difference of two quadratics.
  - Any other native speaker gets a fixed English or German message, and
    the threshold keeps its initial 0.
- **Word-list generation.** The stripped text is split on whitespace and
  lowercased, and each word is kept once. If there is an error message,
  that message is the result. Otherwise the frequency of the last word of
  the top-N list is the cutoff. The words whose frequency is at most the
  cutoff are joined with `", "`.

Modules:

- `wrappers.dfy`: module `Wrappers`, an `Option` type.
- `text.dfy`: module `Text`. Holds punctuation removal, `str.split()`
  with Python's whitespace set, ASCII lowercasing and `join`. It also
  proves that the `", "`-joined list can be read back into its words.
- `threshold.dfy`: module `Threshold`. Holds the calculator, which
  returns the source's (threshold, error) pair.
- `wordlist.dfy`: module `WordList`. Holds the word set, the frequency
  filter and the whole computation.

The frequency library is passed in as a `Corpus` value. It holds two
total functions, `topN(lang, n)` and `frequency(word, lang)`, and nothing
else is assumed about them. The source indexes the top-N list with `-1`
without checking it. When that list is empty, the model returns an
explicit `RaisedIndexError` outcome, and does not require a non-empty
list.

The English formula gives -1079 at age 5, so the threshold can be
negative. The model assumes no sign (`Threshold.ThresholdExamples`).

## Model

| member | source | states |
|---|---|---|
| Text.PunctuationRanges | app.py:34 | a character is in the 32-character punctuation string exactly when it lies in one of the four ASCII ranges used by the model |
| Text.PunctuationIsAsciiSymbols | app.py:34 | the punctuation set is exactly the printable non-space ASCII characters that are not letters or digits |
| Text.RemovePunctuation | app.py:32-36 | the result contains no punctuation and is never longer than the input |
| Text.RemovePunctuationCounts | app.py:32-36 | every non-punctuation character survives exactly as often as it occurs, and no punctuation character survives |
| Text.RemovePunctuationAppend | app.py:35 | removal is character by character and keeps order: removing from `a + b` equals removing from `a`, then from `b` |
| Text.RemovePunctuationKeeps | app.py:35 | text without punctuation is unchanged |
| Text.RemovePunctuationIdempotent | app.py:32-36 | removing punctuation twice equals removing it once |
| Text.TokenLength | app.py:67 | gives the length of the maximal leading run of non-whitespace characters |
| Text.Split | app.py:67 | `str.split()` yields only non-empty tokens without whitespace |
| Text.SplitKeepsText | app.py:67 | the tokens read in order spell the text with only its whitespace removed |
| Text.SplitNoPunctuation | app.py:64-67 | tokens of punctuation-free text are punctuation-free |
| Text.SplitJoinSpaces | app.py:67 | splitting non-empty whitespace-free words joined by single spaces returns exactly those words |
| Text.SplitOfSpaces | app.py:67 | text made only of whitespace has no tokens |
| Text.SplitOfWord | app.py:67 | a non-empty whitespace-free word is exactly one token |
| Text.SplitAppend | app.py:67 | where whitespace (or an end) separates two texts, the tokens of the concatenation are the tokens of each, in order |
| Text.SplitAtGap | app.py:67 | any non-empty run of whitespace, however long, only separates tokens: `Split(a + g + b) == Split(a) + Split(b)` |
| Text.Lower | app.py:70 | each `A`-`Z` becomes the letter 32 code points higher (its lowercase form), every other character is kept in place, and the length is unchanged; the result has no upper-case ASCII letter |
| Text.LowerIdempotent | app.py:70 | lowercasing twice equals lowercasing once |
| Text.LowerKeepsClasses | app.py:70 | lowercasing neither creates nor removes whitespace or punctuation |
| Text.Join | app.py:82 | `sep.join`: the empty list gives the empty string; otherwise the result is the first word followed, in order, by the separator and each later word (no separator before the first or after the last), so its length is the words' total length plus one separator per neighbouring pair |
| Text.RemovePunctuationOfCommaJoin | app.py:82 | stripping punctuation from words joined by `", "` gives the words joined by `" "` |
| Text.CommaJoinRoundTrip | app.py:82 | the `", "`-joined output, stripped and split, gives back exactly the word list in order |
| Threshold.ThresholdCalculator | app.py:38-59 | an error is returned exactly for a native speaker outside the language's open age interval; it is then that language's fixed message and the threshold is 0 |
| Threshold.EnglishVocabulary | app.py:49 | the linear English model is positive exactly from age 6 on |
| Threshold.GermanVocabulary | app.py:55 | the difference of quadratics, scaled by 100, is the integer polynomial `-1879a^2 + 403900a - 2487900`, and it is positive for every age in 6 < age < 25 |
| Threshold.NonNativeUsesLevel | app.py:43-44 | a non-native learner gets the level as threshold and no error, for any language and age |
| Threshold.EnglishThreshold | app.py:47-49 | native English, 4 < age < 18: threshold `2975*age - 15954`, no error |
| Threshold.EnglishOutOfRange | app.py:40-51 | native English, age <= 4 or age >= 18: the English message and threshold 0 |
| Threshold.GermanVocabularySimplified | app.py:55 | the difference of quadratics is `-18.79a^2 + 4039a - 24879`; scaled by 100 it is the integer polynomial `-1879a^2 + 403900a - 2487900` |
| Threshold.GermanThreshold | app.py:53-55 | native speaker of a language other than "en", 6 < age < 25: the simplified quadratic, no error |
| Threshold.GermanOutOfRange | app.py:53-57 | native speaker of a language other than "en", age <= 6 or age >= 25: the German message and threshold 0 |
| Threshold.ThresholdExamples | app.py:43-55 | English age 10 gives 13796; English age 5 gives -1079; German age 12 gives 20883.24; non-native level 500 gives 500 |
| WordList.Dedup | app.py:73 | the deduplicated list has no repeats and has the same members as its input |
| WordList.DedupKeeps | app.py:73 | a list without repeats is unchanged by deduplication |
| WordList.LowerAll | app.py:70 | the comprehension lowercases the tokens position by position into a new list: same length, element i is the lowercase form of token i, with no upper-case letter left |
| WordList.TextWords | app.py:64-73 | the word set has no repeats; its members are exactly the lowercased whitespace tokens of the punctuation-stripped text; each is non-empty, lowercase and free of whitespace and punctuation |
| WordList.KeepRare | app.py:81 | a word is kept exactly when it is in the input and its frequency is at most the cutoff; no repeats are introduced |
| WordList.KeepRareKeepsRare | app.py:81 | filtering words that all meet the cutoff keeps the whole list in order |
| WordList.Cutoff | app.py:79-80 | no cutoff exactly when the top-N list is empty (where `[-1]` fails); otherwise the frequency of the list's last word |
| WordList.GenerateWordList | app.py:76-80 | the `IndexError` happens exactly when there is no error message and the top-N list is empty |
| WordList.DiagnosticIsResult | app.py:76-77 | on an error the result is that message verbatim, and it is the same for every corpus, so no lookup matters |
| WordList.ResultListsRareWords | app.py:78-82 | otherwise the result is the `", "`-join of a repeat-free list holding exactly the text words whose frequency is at most that of the last top-N word (inclusive at the boundary); read back by stripping and splitting, it gives that list again |
| WordList.EmptyTextGivesEmptyList | app.py:64-82 | with no error and a non-empty top-N list, an empty text gives the empty string |
| WordList.TextWordsOfList | app.py:64-82 | the word set of an already produced, `", "`-joined list is that list |
| WordList.GenerateWordListIdempotent | app.py:61-83 | whenever the computation returns a string (a word list or a diagnostic), running it again on that string with the same learner and corpus returns the same string |
| WordList.HelloWorldWords | app.py:64-73 | "Hello, hello WORLD!" has the word set ["hello", "world"] |

## Left out

- The web layer: the `index` and `highlight` routes, templates, form
  reading and `app.run` (app.py:10-30, app.py:85-86). It is I/O with no
  logic.
- Numeric coercion: `int(age)` and `int(ger_level)` can raise
  `ValueError`. Age and level are taken as already-parsed integers.
- The internals of the frequency library. `top_n_list` and
  `word_frequency` are opaque, so `Corpus.topN` and `Corpus.frequency`
  are arbitrary functions. The `wordlist='best'` argument is fixed inside
  `topN`.
- Threshold.GermanVocabulary: it is evaluated in exact real arithmetic.
  Python float rounding of the quadratic is not modelled. Thresholds are
  `real` in every branch; in the two integer branches they hold whole
  numbers.
- Text.Lower: only ASCII `A`-`Z` are lowercased. Python's full Unicode
  case mapping, including multi-character results, is not modelled.
- Text.IsSpace: holds the full set of characters Python's `str.isspace`
  accepts. No other Unicode detail of `str.split()` is modelled.
- WordList.Dedup: Python's set iteration order is unspecified. The model
  fixes first-occurrence order. The membership and no-repeat properties
  hold for any order. The exact output string, and the idempotence lemma
  stated on it, depend on the order chosen.
- The source calls `threshold_calculator` twice per request: once to
  test for an error and once more in whichever branch follows. The
  function is pure, so the model calls it once.
