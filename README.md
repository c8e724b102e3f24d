# space-slug in Dafny

A model of the slug generator of `space-slug` (`src/index.ts`). The model covers:

- **`word`**: draws `count || 1` distinct words (none for a negative count) from a category list of a locale's dictionary, or from an explicit list.
- **`digits`**: draws `count || 4` distinct decimal digits (none for a negative count).
- **`cleanString`**: deletes every character that is not an ASCII letter, a digit or whitespace, turns each whitespace run into the separator, and trims the result.
- **`spaceSlug`**: merges the options over `{ locale: 'en', separator: '-', dictionary: defaultWords }`. It substitutes `[adjective(1), noun(1), digits(2)]` when no parts are given. It resolves every part (a function of the merged options, a string, a `Set` or an array; anything else is an error) to a fragment that is cleaned, then transformed (by default `toLowerCase`). It joins the fragments with the separator.
- **`uniqueSpaceSlug`**: retries `spaceSlug` while the slug is among `usedSlugs` or `isUnique` refuses it. It gives up once the attempt counter passes `maxAttempts || 5`.

Modelling choices:

- **Randomness.** `Math.random()` is an explicit oracle: a finite sequence `rnd` of reals in `[0, 1)`. An index is `Math.floor(r * n)`, as in the source. Every drawing step returns the draws it left, and these are threaded through the parts and the attempts.
- **Running out of draws.** A sampling loop that exhausts the oracle stops with the model-only error `OutOfDraws`. The source instead loops for ever, for instance on `digits(11)`. So every property of a successful result is a partial-correctness statement.
- **Sets.** A JavaScript `Set<string>` is a duplicate-free sequence, so insertion order decides the join order.
- **Optional numbers.** Counts and `maxAttempts` are `Option<int>`. `x || d` becomes `OrDefault`, where an absent value or 0 both give `d`.
- **Parts.** `word(category)(count, list)` and `digits(count)` are named by their arguments. Any other function is an opaque `Custom` closure.
- **Caller functions.** A caller-supplied `cleanString`, `transform` or `isUnique` is an opaque function parameter.
- **Imperative code.** The `while` loops of `word` and `digits` are the methods `Sampling.Word` and `Sampling.Digits`. The retry recursion of `_uniqueSpaceSlug` is the loop `Unique.RetryLoop`. Each is proved equal to a recursive specification function (`SampleWords`, `SampleDigits`, `Retry`), and the properties are proved about those functions.

Files:

- `types.dfy`: options, results, outputs, `join`.
- `sampling.dfy`: `word` and `digits`.
- `clean.dfy`: `cleanString`.
- `assembly.dfy`: `spaceSlug`.
- `unique.dfy`: `uniqueSpaceSlug`.

## Model

| member | source | states |
|---|---|---|
| SlugTypes.Join | src/index.ts:196-207 | `join` of no elements is `''`; of one element is that element |
| SlugTypes.JoinEndsWithLast | src/index.ts:207 | a joined list of two or more ends with the separator followed by its last element |
| SlugTypes.JoinEmptySeparator | src/index.ts:124 | joining with `''` is plain concatenation |
| Sampling.Pick | src/index.ts:92 | `Math.floor(Math.random() * n)` is a valid index into a list of `n > 0` words |
| Sampling.Add | src/index.ts:93 | `set.add(x)`: the members become the old ones plus `x`; the size grows by at most one; order is kept |
| Sampling.Fill | src/index.ts:89-95 | the fill loop ends with exactly `max(c, size)` distinct members, all from the pool, keeping what was there; it fails only by running out of draws; it consumes a prefix of the draws |
| Sampling.FilledWithinDistinct | src/index.ts:81-94 | a set filled from a list cannot hold more members than the list has distinct words, so the loop cannot finish for a count above that |
| Sampling.SampleWords | src/index.ts:67-97 | fails with "no words" exactly when the resolved list (`_words` if non-empty, else `dictionary[locale][type]`) is empty or missing; fails with "too few words" exactly when `count \|\| 1` exceeds its length; on success returns exactly `count \|\| 1` distinct words (none when that is negative), all from the list, and that count is at most the number of distinct words |
| Sampling.Words | src/index.ts:71-79 | a non-empty explicit list is the one used; otherwise the list is the dictionary's list for the locale and category whenever both are present, and a non-empty list comes from nowhere else |
| Sampling.OrDefaultIsOr | src/index.ts:81 | `count \|\| d` on a number: a given non-zero count wins; an absent count or 0 gives the default |
| Sampling.Word | src/index.ts:89-96 | the imperative `while (set.size < c)` loop returns exactly what `SampleWords` specifies, with the same draws left |
| Sampling.JoinDigits | src/index.ts:124 | a set of digit strings joined with `''` has one digit character per member, in order |
| Sampling.SampleDigits | src/index.ts:116-125 | on success the string has length `count \|\| 4` (0 when that is negative), all characters are `0`-`9` and pairwise distinct; a count above 10 can never finish; the only failure is running out of draws |
| Sampling.Digits | src/index.ts:116-125 | the imperative loop over `0`-`9` returns exactly what `SampleDigits` specifies |
| Clean.Filter | src/index.ts:129 | the kept subsequence holds exactly the characters of the input that satisfy the class |
| Clean.Strip | src/index.ts:129 | `replace(/[^a-zA-Z0-9\s]+/g, '')` keeps exactly the letters, digits and whitespace |
| Clean.DropRun | src/index.ts:131 | removes exactly the leading whitespace of a string and leaves a suffix that starts with a non-space |
| Clean.DropTrailing | src/index.ts:131 | removes exactly the trailing whitespace and leaves a prefix that ends with a non-space |
| Clean.Trim | src/index.ts:131 | `trim()` leaves no whitespace at either end and introduces no character |
| Clean.TrimSlice | src/index.ts:131 | `trim()` removes only whitespace, and only at the two ends: the result is a contiguous slice of the input, and everything before and after that slice is whitespace |
| Clean.CleanString | src/index.ts:127-131 | every character of the result is a letter, a digit or a character of the separator; the result neither starts nor ends with whitespace |
| Clean.Collapse | src/index.ts:130 | `replace(/\s+/g, sep)` writes only characters of the input that are not whitespace, or characters of `sep` |
| Clean.ReplaceRunsNone | src/index.ts:130 | a string without whitespace passes the run replacement unchanged |
| Clean.ReplaceRunsConcat | src/index.ts:130 | the run replacement works piecewise, the second piece continuing a run the first left open |
| Clean.ReplaceWholeRun | src/index.ts:130 | a whole whitespace run becomes one separator, or nothing when it continues a run |
| Clean.CollapseRun | src/index.ts:130 | each maximal whitespace run between non-whitespace characters becomes exactly one separator |
| Clean.ReplaceRunsKeeps | src/index.ts:130 | the run replacement keeps, in order, every character of a class that neither the runs nor the separator contain |
| Clean.ReplaceRunsEmptySeparator | src/index.ts:130 | with separator `''` the run replacement deletes all whitespace |
| Clean.StripThenNotSpace | src/index.ts:129-130 | deleting whitespace from what the first replacement kept leaves exactly the letters and digits |
| Clean.TrimNoSpace | src/index.ts:131 | `trim` leaves a string without whitespace unchanged |
| Clean.StripKeepsAlnum | src/index.ts:129 | the first replacement keeps every letter and digit, in order |
| Clean.EmptySeparatorKeepsAlnum | src/index.ts:127-131 | with separator `''` the result is exactly the letters and digits of the input, in order |
| Clean.KeepsAlnumInOrder | src/index.ts:127-131 | for a separator without letters, digits or whitespace (such as `-`), the letters and digits of the result are exactly those of the input, in order |
| Clean.CleanAlnum | src/index.ts:127-131 | a string of letters and digits is left unchanged, whatever the separator |
| Clean.AlnumSeparatorIdempotent | src/index.ts:127-131 | with a separator of letters and digits, cleaning twice equals cleaning once |
| Clean.DashSeparatorNotIdempotent | src/index.ts:127-131 | with separator `-`, `"\na"` cleans to `"-a"` (whitespace becomes `-` before `trim`), which cleans again to `"a"`, so cleaning is not idempotent |
| Clean.CleanNewlineA | src/index.ts:127-131 | `cleanString("\na", "-")` is `"-a"` |
| Clean.CleanDashA | src/index.ts:127-131 | `cleanString("-a", "-")` is `"a"`: the `-` is deleted |
| Assembly.Merge | src/index.ts:172-175 | `{ ...defaults, ...options }`: each option the caller gives wins; the others come from the defaults |
| Assembly.DefaultOptions | src/index.ts:29-33 | the defaults are locale `'en'`, separator `'-'` and the bundled dictionary; no clean function and no transform |
| Assembly.SettingsOf | src/index.ts:172-187 | the merged locale defaults to `'en'`, the dictionary to the bundled words, the separator to `'-'`; the custom clean function is the caller's own; the transform is the caller's |
| Assembly.TransformWith | src/index.ts:177 | a caller's transform is applied as given; without one, the fragment is `toLowerCase` of its input: same length, no ASCII capital left |
| Assembly.CleanWith | src/index.ts:185-187 | a caller's clean function is applied to the string alone; without one, the result is `cleanString` with the merged separator: every character left is a letter, a digit or a character of the separator, and neither end is whitespace |
| Assembly.DefaultParts | src/index.ts:180-182 | the default parts are `adjective(1)`, `noun(1)`, `digits(2)`, in that order |
| Assembly.PartsOf | src/index.ts:180-182 | the parts given are used when there is at least one; otherwise the default parts; the result is never empty |
| Assembly.Lower | src/index.ts:177 | `toLowerCase` keeps the length and lower-cases each ASCII capital in place |
| Assembly.LowerKeeps | src/index.ts:177 | `toLowerCase` leaves a string without capitals unchanged |
| Assembly.LowerConcat | src/index.ts:177 | `toLowerCase` distributes over concatenation |
| Assembly.CleanEach | src/index.ts:196-198 | `map(_cleanString)` cleans each element in place and keeps the length |
| Assembly.Fragment | src/index.ts:190-203 | a resolved value is refused, with the invalid-output error, exactly when it is not a string, a `Set` or an array; a string is cleaned; the elements of a `Set` or array are cleaned and joined with the separator |
| Assembly.EvaluateBuiltin | src/index.ts:189-190 | a given value evaluates to itself using no draw; `word` yields a `Set` and `digits` a string; a part that is not a caller's function fails only with a sampling error |
| Assembly.Resolve | src/index.ts:189-205 | on success there is one fragment per part |
| Assembly.ResolveErrors | src/index.ts:189-205 | parts made only of `word`, `digits` and given values fail only with a sampling or invalid-output error |
| Assembly.ResolveCons | src/index.ts:189-205 | the first part's transformed fragment comes first, and the rest resolve on the draws it left |
| Assembly.ResolveLiteralAt | src/index.ts:190-205 | a value given as a part, wherever it stands, contributes its cleaned and transformed fragment at its own position |
| Assembly.ResolveRejectsUnsupported | src/index.ts:201-202 | a given value that is not a string, `Set` or array, anywhere in the parts, makes the resolution fail |
| Assembly.ResolveLiterals | src/index.ts:189-205 | parts that are all supported values always resolve and use no draw |
| Assembly.UnsupportedRejected | src/index.ts:201-202 | such a value anywhere makes `spaceSlug` fail |
| Assembly.SlugJoinsFragments | src/index.ts:189-207 | the slug is the separator-join of exactly one fragment per part (the default parts when none are given); an error is the resolution's error |
| Assembly.SpaceSlug | src/index.ts:168-208 | a slug built only from `word`, `digits` and given values fails only with a sampling or invalid-output error, never with the retry error |
| Assembly.OneWordFragment | src/index.ts:180-207 | without options, `adjective(1)` or `noun(1)` yields one word of its default list, cleaned with `-` and lower-cased |
| Assembly.DigitsKept | src/index.ts:127-131 | cleaning with `-` and lower-casing keep a string of digits |
| Assembly.TwoDigitFragment | src/index.ts:116-125 | `digits(2)` yields two distinct digits, which cleaning and lower-casing keep |
| Assembly.ResolveThree | src/index.ts:189-205 | three parts resolve to three fragments in order, each on the draws the one before left |
| Assembly.DefaultSlugShape | src/index.ts:180-207 | with no parts and no options the slug is an adjective, a noun and two distinct digits, each cleaned and lower-cased, joined with `-` (tests/spaceSlug.test.ts:75-79) |
| Assembly.LiteralLastPart | src/index.ts:190-207 | a value given as the last part ends the slug, after the separator, as its cleaned and transformed fragment |
| Assembly.PlainFragment | src/index.ts:177-195 | without options, a string of lower-case letters and digits is its own fragment |
| Assembly.EndsWithText | tests/spaceSlug.test.ts:167-172 | without options, a given string such as `'ezra'` after any first part makes the slug end with `-ezra` |
| Assembly.PlainPair | src/index.ts:196-198 | without options, two such strings in a list make the fragment `w1-w2` |
| Assembly.LowerKeepsDashed | src/index.ts:177 | lower-casing keeps `w1-w2` for words without capitals |
| Assembly.PlainPairFragment | src/index.ts:195-198 | an array or `Set` of two such strings gives the fragment `w1-w2`, so `-w1-w2` once the separator before it is added |
| Assembly.EndsWithArray | tests/spaceSlug.test.ts:174-178 | a given array `['ezra', 'holocron']` after any first part makes the slug end with `-ezra-holocron` |
| Assembly.EndsWithSet | tests/spaceSlug.test.ts:180-184 | a given `Set` of the same two strings does the same, in insertion order |
| Assembly.EmptySeparatorFragment | src/index.ts:177-195 | with separator `''` and no custom functions, a string's fragment is its letters and digits, lower-cased |
| Assembly.LowerAlnumCons | src/index.ts:127-131 | lower-cased letters and digits of a concatenation split after its first piece |
| Assembly.ResolveTextsCons | src/index.ts:189-205 | with separator `''`, given strings resolve one after the other, using no draw |
| Assembly.ResolveTexts | src/index.ts:189-205 | with separator `''`, the fragments of given strings run together to the lower-cased letters and digits of all of them, and no draw is used |
| Assembly.EmptySeparatorSlug | tests/spaceSlug.test.ts:201-206 | with separator `''` and no custom functions, the slug of given strings is their letters and digits, lower-cased, run together (`['a very', 'b@d  string']` gives `averybdstring`) |
| Unique.RetryLoop | src/index.ts:134-161 | the imperative retry loop returns exactly the result, candidates and `isUnique` queries that the recursion `Retry` specifies, starting at attempt 1 |
| Unique.UniqueSpaceSlug | src/index.ts:163-166 | `uniqueSpaceSlug` is the retry loop around `spaceSlug` on the same parts and options |
| Unique.NotUsed | src/index.ts:148-152 | the candidates not among the used slugs: a string is kept exactly when it is a candidate and not used |
| Unique.MaxAttempts | src/index.ts:140 | `maxAttempts \|\| 5`: a given non-zero value wins; an absent value or 0 gives 5 |
| Unique.Retry | src/index.ts:134-161 | the `isUnique` queries are at most the candidates assembled, and a returned slug is one of them |
| Unique.RetryAccepted | src/index.ts:139-160 | a returned slug is the last candidate; it is not among `usedSlugs`; `isUnique` accepted it when given and was asked about it last; its attempt number is at most `maxAttempts \|\| 5` (tests/spaceSlug.test.ts:236-243) |
| Unique.RetryRejectsAllButLast | src/index.ts:148-158 | every candidate before the last was used or refused by `isUnique` |
| Unique.RetryAsksUnusedOnly | src/index.ts:148-157 | `isUnique` is asked only about candidates that are not used slugs, and never when it is absent; when a slug is returned, it was asked about exactly the unused candidates, in order |
| Unique.RetryBounds | src/index.ts:139-149 | at most `maxAttempts \|\| 5` plus one slugs are assembled; when no assembly fails, the run can only fail by exhausting its attempts, after assembling exactly that many plus one |
| Unique.RetryExhaustedCount | src/index.ts:139-146 | when no assembly yields the retry error itself, a run that ends with it carries the raw `maxAttempts` and assembled exactly `maxAttempts \|\| 5`, less the attempts already made, plus one candidates |
| Unique.UniqueExhaustedCount | src/index.ts:134-166 | a `uniqueSpaceSlug` run over parts made only of `word`, `digits` and given values that exhausts its attempts assembled exactly `maxAttempts \|\| 5` plus one slugs |
| Unique.RetryAllRejected | tests/spaceSlug.test.ts:228-251 | when every slug the parts can produce is used, or `isUnique` always says no, the run fails |
| Unique.AlwaysUniqueFirst | tests/spaceSlug.test.ts:253-258 | with no used slugs, an `isUnique` that always says yes and at least one attempt, the result is that of the first assembly |
| Unique.RetryFirst | src/index.ts:138-142 | the first candidate is the first assembly; its error, if any, ends the run before the attempt check |
| Unique.UniqueFirstCandidate | src/index.ts:134-166 | the first candidate of `uniqueSpaceSlug` is `spaceSlug` on the same parts, options and draws; its error is the run's error |

## Left out

- The word lists of `./data/en` and `./data/emojis` are not part of this model. `defaultWords` is a parameter: a map from locale to categories to word lists.
- The shortcuts `noun`, `adjective`, `color`, `season`, `emoji`, `verb`, `animal` and `cosmos` (src/index.ts:99-113) are `word` of their category. They are written as `WordFn` with that category name.
- Uniform randomness is not stated. Draws are an arbitrary finite oracle, and `Math.floor(r * n)` is computed on exact reals rather than on floating point.
- Sampling.Fill, Sampling.SampleWords, Sampling.SampleDigits: where the source loops for ever (a count above the number of distinct words, or `digits(11)`), the model stops with `OutOfDraws` once the finite oracle is exhausted.
- The `async`/`Promise` machinery of `uniqueSpaceSlug` is left out. `isUnique` is a pure `string -> bool`, applied in the same order as the source awaits it.
- Error message texts are left out; only the kind of error is modelled. The "not unique" message prints `options.maxAttempts`, and the model keeps that raw optional value in `RetriesExhausted`.
- The `TypeError` raised when the locale is missing from the dictionary (src/index.ts:74) is merged with the "no words" error.
- Options explicitly set to `undefined` are not modelled. An absent option and an `undefined` one both count as absent, although the source's spread would let `undefined` override a default.
- `toLowerCase` lower-cases only the ASCII capitals; other letters are not mapped.
- `Custom` parts receive the merged `spaceSlug` options only. In the source, a part called from `uniqueSpaceSlug` also sees `isUnique`, `maxAttempts` and `usedSlugs`, which the bundled parts ignore.
- An absent `usedSlugs` is the empty list, which behaves the same.
- Unique.RetryAsksUnusedOnly: the exact sequence of `isUnique` queries is stated only for a run that returns a slug. For a failed run only the inclusion and "never for a used slug" are stated.
- Assembly.CleanEach: a caller's `cleanString` gets only the element. In the `Set` and array branches (src/index.ts:197, 199) JavaScript's `map` also passes the index and the list, so `spaceSlug([['a', 'b']], { cleanString: (s, i) => s + (i ?? '') })` is `a0-b1` there and `a-b` in the model. The string branch (src/index.ts:195) passes the string alone, as the model does.
- Clean.Collapse: the separator is inserted literally. JavaScript's `replace` expands `$$`, `$&`, `` $` `` and `$'` in a string replacement, so `cleanString('a b', '$$')` is `'a$b'` there; `join` (src/index.ts:197, 199, 207) uses the separator literally, as the model does everywhere.
- Sampling.OrDefault, Unique.MaxAttempts: counts are integers. A fractional count (`word(t)(1.5)` draws 2 words, `digits(2.5)` draws 3 digits, since the loops compare `<`), `NaN` (which `||` treats as absent) and `maxAttempts: Infinity` (which never exhausts) are not modelled.
- The test expectations at tests/spaceSlug.test.ts:214, 216 and 219-223 disagree with the code, which the model follows. `cleanString` deletes `-`, so `'space-slug'` becomes `'spaceslug'`. `trim` runs after whitespace has become the separator, so a leading newline becomes a leading `-` (`Clean.CleanNewlineA`).
