# zerrium-tools: a verified model of its logic

zerrium-tools is a browser toolbox written in React. Most of it is user
interface. This project models, in Dafny, the three parts that compute
something, and proves what they promise:

- **The password generator** (`src/pages/PasswordGenerator.tsx`).
  - `generateNumber` maps a random 32-bit word into a range.
  - `secureShuffle` swaps array slots from the top down.
  - `generatePassword` splits the length across the four character classes, draws each class from its alphabet, lays the classes out and shuffles.
  - `onClickGenerateMultiple` joins several passwords with newlines.
  - The option handlers keep at least one character class enabled.

  The page is the class `PasswordGen.PasswordGenerator`, with its state as fields.
- **The formatter/minifier `PP`** (`src/utils/pretty-data.js`).
  - The class `PrettyData.PP` keeps the indentation table `shift` and the `step`.
  - The constructor and `setStep` rebuild the table in a loop.
  - `xml`, `css` and `sql` walk text segments with a depth counter. `sql` also rewrites its segment array in place.
  - `isSubquery` counts parentheses.
  - `xmlmin`, `cssmin` and `sqlmin` are whitespace rewrites.
- **The navigation tables** (`src/components/Router.tsx`, `src/components/Page.tsx`, `src/routes.tsx`).
  - `convertToRouteObject` flattens the two-level link tree into the router's route list.
  - `findAccordationIndex` finds the sidebar group that holds a link.
  - Both link trees of the site are written out as constants.

## How the model is organised

- `wrappers.dfy` (`Wrappers`): `Option` and `Result`.
- `js_string.dfy` (`JsString`): the JavaScript string built-ins the code relies on.
  - ECMAScript's `\s` class.
  - `replace` with a string pattern, which replaces the first occurrence only.
  - Global literal `replace`, `split` and `join`.
  - The whitespace rewrites `/\s+/g`, `/\s+$/`, `/^\n+/` and `/\n+/g`.
  - The invariant most lemmas use, `NonSpaces(s)`: the characters of `s` that are not whitespace.
- `password_generator.dfy` (`PasswordGen`).
  - Randomness is a tape `t: nat -> Word` of 32-bit words read at a position `pos`. Every method returns the next position.
  - Functions (`Plan`, `DraftFor`, `Shuffle`, `ShuffleRounds`, `Password`, `Passwords`) give the meaning.
  - Methods with loops (`SecureShuffle` on an `array<char>`, `DrawCharacters`, `GeneratePassword`, ...) are proved equal to those functions.
  - Lemmas state the properties: permutation, lengths, alphabets, minimums, one line per password.
- `pretty_data.dfy` (`PrettyData`).
  - Each of `xml`, `css` and `sql` is a method of class `PP` whose loop is proved equal to a walk function.
  - The walk functions carry the invariants: depth, trimmed output, non-whitespace content, no leading newline.
  - `Marked(s)` says that every `~` of `s` starts a whole `~::~` separator. It is what a text without `~` becomes after the separator rewrites, and it ties the segments back to the text.
- `navigation.dfy` (`Navigation`).
  - `ConvertToRouteObject` and `FindAccordionIndex` are loops, proved against the functions `Routes` and `AccordionIndex`.

## Model

| member | source | states |
|---|---|---|
| `JsString.TrimStart` | src/utils/pretty-data.js:80 | the rest after the leading whitespace (the `\s*` of `>\s*<`) is no longer than the text and does not start with whitespace |
| `JsString.TrimStartSuffix` | src/utils/pretty-data.js:80 | trimming cuts off exactly a prefix made of whitespace |
| `JsString.NonSpacesTrimStart` | src/utils/pretty-data.js:80 | trimming the start removes whitespace only |
| `JsString.SingleSpacedTrimStart` | src/utils/pretty-data.js:306-311 | a single-spaced text stays single-spaced when its leading space is cut |
| `JsString.CountAppend` | src/utils/pretty-data.js:187 | occurrence counts of a character add up over a concatenation |
| `JsString.RemoveAllLength` | src/utils/pretty-data.js:187 | `str.replace(/c/g, '')` is shorter by exactly the number of `c` in `str` |
| `JsString.ReplaceFirst` | src/pages/PasswordGenerator.tsx:24-26 | a first-occurrence replace loses at most the pattern's length |
| `JsString.ReplaceFirstCharAt` | src/pages/PasswordGenerator.tsx:24-26 | replacing the first occurrence of a character cuts the string at that occurrence and nowhere else |
| `JsString.Split` | src/utils/pretty-data.js:84 | `split` always gives at least one piece |
| `JsString.SplitJoinRoundTrip` | src/utils/pretty-data.js:80-84 | joining a split with its separator gives back the string |
| `JsString.ReplaceAllIsSplitJoin` | src/utils/pretty-data.js:80-84 | a global literal replace equals split on the pattern, then join with the replacement |
| `JsString.ReplaceAllSameIsIdentity` | src/utils/pretty-data.js:223-231 | replacing a literal by itself changes nothing |
| `JsString.JoinSnoc` | src/pages/PasswordGenerator.tsx:142-146 | one more part extends a join by the separator and that part |
| `JsString.JoinEmptyAppend` | src/utils/pretty-data.js:252-259 | without a separator the join of `a + b` is the join of `a` followed by the join of `b` (the `concat` of the first `sql` loop) |
| `JsString.SplitWithoutSeparator` | src/pages/PasswordGenerator.tsx:146 | a text without the separator splits into itself |
| `JsString.SplitAtFirstSeparator` | src/pages/PasswordGenerator.tsx:146 | a split cuts at the first separator and continues after it |
| `JsString.SplitJoinInverse` | src/pages/PasswordGenerator.tsx:141-147 | splitting a join on a one-character separator that no part contains gives back the parts |
| `JsString.NonSpacesAppend` | src/utils/pretty-data.js:156 | the non-whitespace characters of a concatenation are those of its parts, in order |
| `JsString.CollapseSpacesSingleSpaced` | src/utils/pretty-data.js:156 | `/\s+/g -> " "` leaves one plain space per whitespace run, keeps every other character in order, and keeps whether the text starts with whitespace |
| `JsString.CollapseSpacesFixesSingleSpaced` | src/utils/pretty-data.js:306 | collapsing a single-spaced text changes nothing (collapsing is idempotent) |
| `JsString.TrimEnd` | src/utils/pretty-data.js:145 | `/\s+$/ -> ""` gives a prefix that does not end in whitespace, and everything it cut is whitespace |
| `JsString.NonSpacesTrimEnd` | src/utils/pretty-data.js:145 | trimming the end removes whitespace only |
| `JsString.StripLeadingNewlines` | src/utils/pretty-data.js:181 | `/^\n+/ -> ""` gives a text that does not start with a newline |
| `JsString.StripLeadingNewlinesSuffix` | src/utils/pretty-data.js:181 | it cuts off exactly a prefix made of newlines |
| `JsString.NonSpacesStripLeadingNewlines` | src/utils/pretty-data.js:181 | it removes whitespace only |
| `JsString.SqueezeNewlines` | src/utils/pretty-data.js:287 | `/\n+/g -> "\n"` keeps the first character and leaves no two adjacent newlines |
| `JsString.NonSpacesSqueezeNewlines` | src/utils/pretty-data.js:287 | squeezing newline runs removes whitespace only |
| `JsString.NonSpacesReplaceAllPadded` | src/utils/pretty-data.js:267 | replacing every `pat` by `pat` plus whitespace (`,` by `,\n` and two tabs) keeps the non-whitespace characters |
| `PasswordGen.RemoveDistinct` | src/pages/PasswordGenerator.tsx:24 | removing a character from an alphabet without repeats removes exactly that character and keeps it free of repeats |
| `PasswordGen.RemoveTwoDistinct` | src/pages/PasswordGenerator.tsx:25-26 | two successive removals remove exactly the two characters |
| `PasswordGen.LowerAlphabetsAreTheLetters` | src/pages/PasswordGenerator.tsx:18 | the lower-case alphabet has no repeats and holds exactly `a`-`z` |
| `PasswordGen.UpperAlphabetsAreTheLetters` | src/pages/PasswordGenerator.tsx:19 | the upper-case alphabet has no repeats and holds exactly `A`-`Z` |
| `PasswordGen.NumbersAreTheDigits` | src/pages/PasswordGenerator.tsx:20 | the number alphabet has no repeats and holds exactly `0`-`9` |
| `PasswordGen.LowerNoAmbiguousLetters` | src/pages/PasswordGenerator.tsx:24 | the unambiguous lower-case alphabet is `a`-`z` without `l` |
| `PasswordGen.UpperNoAmbiguousLetters` | src/pages/PasswordGenerator.tsx:25 | the unambiguous upper-case alphabet is `A`-`Z` without `I` and `O` |
| `PasswordGen.NumericNoAmbiguousDigits` | src/pages/PasswordGenerator.tsx:26 | the unambiguous number alphabet is `0`-`9` without `0` and `1` |
| `PasswordGen.SpecialCharsExtendURL` | src/pages/PasswordGenerator.tsx:21-22 | the URL-safe symbols are a prefix of the 32 symbols |
| `PasswordGen.SpecialsAreNotAlphanumeric` | src/pages/PasswordGenerator.tsx:21-22 | no symbol is a letter, a digit or a newline, and every URL-safe symbol is a symbol |
| `PasswordGen.GenerateNumber` | src/pages/PasswordGenerator.tsx:49-60 | `min` for equal bounds, a value in `[min, max)` for `min < max`, and one in `[max, min]` for reversed bounds |
| `PasswordGen.GenerateNumberIsScaledFloor` | src/pages/PasswordGenerator.tsx:55-59 | for distinct bounds the result is `u * (max - min) / 2^32 + min`, rounded down |
| `PasswordGen.ScaleBounds` | src/pages/PasswordGenerator.tsx:55-59 | a word scaled by `k` and divided by `2^32` lies in `[0, k)` for positive `k` and in `[k, 0]` for negative `k` |
| `PasswordGen.GenerateNumberAt` | src/pages/PasswordGenerator.tsx:49-60 | draws a word only when the bounds differ, and returns what `Draw` specifies |
| `PasswordGen.Plan` | src/pages/PasswordGenerator.tsx:84-94 | a disabled class gets length 0, and with either letter case enabled the four lengths add up to `passwordLength`; at most three words are drawn |
| `PasswordGen.PlanMeetsMinimums` | src/pages/PasswordGenerator.tsx:84-94 | with every class enabled and minimums that fit, each class gets at least its minimum, with two upper-case letters and one lower-case letter |
| `PasswordGen.PlanLengths` | src/pages/PasswordGenerator.tsx:84-94 | the opening computations of `generatePassword` give `Plan` |
| `PasswordGen.AlphabetsFor` | src/pages/PasswordGenerator.tsx:98-119 | every alphabet the options can select has a character to pick |
| `PasswordGen.PickIn` | src/pages/PasswordGenerator.tsx:99-100 | `n[generateNumber(0, n.length)]` is a character of `n` |
| `PasswordGen.Drawn` | src/pages/PasswordGenerator.tsx:97-101 | a drawing loop gives one character per iteration, none for a negative count |
| `PasswordGen.DrawnIn` | src/pages/PasswordGenerator.tsx:97-101 | every drawn character is in the alphabet |
| `PasswordGen.DrawnAt` | src/pages/PasswordGenerator.tsx:97-101 | the k-th character is picked with the k-th word |
| `PasswordGen.DrawCharacters` | src/pages/PasswordGenerator.tsx:97-101 | one drawing loop gives `Drawn`, one word per iteration |
| `PasswordGen.DraftFor` | src/pages/PasswordGenerator.tsx:96-122 | the four loops use one word per character, digits first |
| `PasswordGen.DraftForIs` | src/pages/PasswordGenerator.tsx:96-122 | each loop starts where the one before stopped |
| `PasswordGen.DraftForIn` | src/pages/PasswordGenerator.tsx:96-122 | each class holds only characters of its alphabet |
| `PasswordGen.DraftIn` | src/pages/PasswordGenerator.tsx:96-122 | each class draws from the alphabet the options choose (`avoidAmbiguous`, `isSpecialURL`) |
| `PasswordGen.DrawClasses` | src/pages/PasswordGenerator.tsx:96-122 | the four drawing loops give `DraftFor` |
| `PasswordGen.DraftAllowed` | src/pages/PasswordGenerator.tsx:96-124 | every laid-out character is allowed by the options |
| `PasswordGen.DraftClassCounts` | src/pages/PasswordGenerator.tsx:124 | in the layout each class's characters are counted only in its own part |
| `PasswordGen.LayoutClassCounts` | src/pages/PasswordGenerator.tsx:124 | the class counts of `lower + upper + digits + specials` are the four part lengths |
| `PasswordGen.Swap` | src/pages/PasswordGenerator.tsx:75-77 | a swap keeps the length |
| `PasswordGen.SwapAt` | src/pages/PasswordGenerator.tsx:75-77 | a swap trades slots `i` and `j` and leaves every other slot alone |
| `PasswordGen.ShuffleFrom` | src/pages/PasswordGenerator.tsx:73-78 | the swaps from index `i` down keep the length and use `i` words |
| `PasswordGen.ShuffleFromStep` | src/pages/PasswordGenerator.tsx:73-78 | index `i` swaps with `generateNumber(0, i)`, then the swaps below follow |
| `PasswordGen.SwapStep` | src/pages/PasswordGenerator.tsx:74-77 | the three assignments of the swap body are one step of `ShuffleFrom` |
| `PasswordGen.ShuffleFromPermutes` | src/pages/PasswordGenerator.tsx:73-78 | the swaps keep the multiset of characters |
| `PasswordGen.ShuffleFromKeepsAbove` | src/pages/PasswordGenerator.tsx:73-78 | slots above the current index are not touched again |
| `PasswordGen.Shuffle` | src/pages/PasswordGenerator.tsx:62-81 | a shuffle keeps the length |
| `PasswordGen.ShufflePermutes` | src/pages/PasswordGenerator.tsx:62-81 | a shuffle is a permutation: same characters with the same multiplicities |
| `PasswordGen.ShuffleMovesLastSlot` | src/pages/PasswordGenerator.tsx:66-78 | every partner is below its index, so the last slot always gets an element from further down |
| `PasswordGen.ShuffleSwapsPair` | src/pages/PasswordGenerator.tsx:66-78 | on two characters every shuffle swaps them |
| `PasswordGen.DrawPartners` | src/pages/PasswordGenerator.tsx:63-70 | the first loop draws `n - 1` partners, the k-th being `generateNumber(0, n - 1 - k)` on the k-th word |
| `PasswordGen.SecureShuffle` | src/pages/PasswordGenerator.tsx:62-81 | the in-place shuffle of the array leaves it as `Shuffle` of its old contents |
| `PasswordGen.ShuffleRounds` | src/pages/PasswordGenerator.tsx:125-127 | the shuffle loop keeps the length |
| `PasswordGen.ShuffleRoundsStep` | src/pages/PasswordGenerator.tsx:125-127 | a counter below the freshly drawn `generateNumber(1, 3)` shuffles once more |
| `PasswordGen.RoundStep` | src/pages/PasswordGenerator.tsx:125-127 | one more shuffle keeps the loop's result |
| `PasswordGen.ShuffleRoundsStop` | src/pages/PasswordGenerator.tsx:125 | a counter at or above the fresh bound ends the loop, after one word |
| `PasswordGen.ShuffleRoundsPermutes` | src/pages/PasswordGenerator.tsx:125-127 | repeated shuffling is a permutation |
| `PasswordGen.ShuffleRepeatedly` | src/pages/PasswordGenerator.tsx:125-127 | the loop with its bound re-drawn before every test gives `ShuffleRounds` |
| `PasswordGen.GeneratePassword` | src/pages/PasswordGenerator.tsx:83-130 | `generatePassword` gives `Password` and the next tape position |
| `PasswordGen.PasswordRearrangesDraft` | src/pages/PasswordGenerator.tsx:124-129 | a password is a rearrangement of the drawn characters |
| `PasswordGen.PasswordLength` | src/pages/PasswordGenerator.tsx:92-129 | the length is the sum of the four class lengths, a negative one counting as 0; shuffling does not change it |
| `PasswordGen.PasswordAllowed` | src/pages/PasswordGenerator.tsx:83-130 | every character comes from an enabled class, in the alphabet the options choose |
| `PasswordGen.PasswordExcludes` | src/pages/PasswordGenerator.tsx:84-122 | a disabled class never appears, and with `avoidAmbiguous` none of `l I O 0 1` appears |
| `PasswordGen.ExcludedWhenAllowed` | src/pages/PasswordGenerator.tsx:18-26 | a text of allowed characters has none of a disabled class, no ambiguous one when they are avoided, and no newline |
| `PasswordGen.AllowedClass` | src/pages/PasswordGenerator.tsx:18-26 | the same facts for one allowed character |
| `PasswordGen.AlphabetClasses` | src/pages/PasswordGenerator.tsx:18-26 | each chosen alphabet lies in its class without its ambiguous characters, and the symbols belong to no other class |
| `PasswordGen.PasswordIsOneLine` | src/pages/PasswordGenerator.tsx:83-130 | a password holds no newline |
| `PasswordGen.PasswordMeetsMinimums` | src/pages/PasswordGenerator.tsx:83-130 | with every class enabled and minimums that fit, the password has the requested length, at least the minimum digits and symbols, two upper-case letters and one lower-case letter |
| `PasswordGen.Passwords` | src/pages/PasswordGenerator.tsx:141-147 | `n` successive generations give `n` passwords |
| `PasswordGen.TerminatedSnoc` | src/pages/PasswordGenerator.tsx:144 | `temp += password + "\n"` appends the password and one newline |
| `PasswordGen.TerminatedIsJoin` | src/pages/PasswordGenerator.tsx:142-146 | the accumulated text is the newline join plus one final newline |
| `PasswordGen.TerminatedStep` | src/pages/PasswordGenerator.tsx:143-145 | one more iteration adds the next password and its newline |
| `PasswordGen.PasswordsNoNewline` | src/pages/PasswordGenerator.tsx:141-147 | no generated password holds a newline |
| `PasswordGen.PasswordLinesSplitBack` | src/pages/PasswordGenerator.tsx:141-147 | the text area, split at newlines, gives back exactly the generated passwords |
| `PasswordGen.PasswordGenerator.constructor` | src/pages/PasswordGenerator.tsx:29-41 | the initial state: empty text boxes, two passwords of length 8, one digit and one symbol minimum, URL symbols and ambiguity avoidance off |
| `PasswordGen.PasswordGenerator.OnClickGenerate` | src/pages/PasswordGenerator.tsx:132-134 | the text box gets a password for the current settings, and nothing else changes |
| `PasswordGen.PasswordGenerator.OnClickGenerateMultiple` | src/pages/PasswordGenerator.tsx:141-147 | the text area gets `numberOfPassword` passwords joined by single newlines, with no trailing newline (`temp.slice(0, -1)`) |
| `PasswordGen.PasswordGenerator.OnChangeNumberOfPassword` | src/pages/PasswordGenerator.tsx:154-158 | a non-empty field sets the count; an empty one leaves it |
| `PasswordGen.PasswordGenerator.OnChangeOptionPasswordLength` | src/pages/PasswordGenerator.tsx:160-164 | a non-empty field sets the length and nothing else |
| `PasswordGen.PasswordGenerator.OnChangeOptionMinimumNumbers` | src/pages/PasswordGenerator.tsx:166-170 | a non-empty field sets the digit minimum and nothing else |
| `PasswordGen.PasswordGenerator.OnChangeOptionMinimumSpecials` | src/pages/PasswordGenerator.tsx:172-176 | a non-empty field sets the symbol minimum and nothing else |
| `PasswordGen.PasswordGenerator.OnChangeIsUppercase` | src/pages/PasswordGenerator.tsx:178-183 | sets the flag; unchecking the last enabled class turns lower case on, so some class stays enabled |
| `PasswordGen.PasswordGenerator.OnChangeIsLowercase` | src/pages/PasswordGenerator.tsx:185-190 | sets the flag, or keeps lower case on when it is the only class left |
| `PasswordGen.PasswordGenerator.OnChangeIsNumber` | src/pages/PasswordGenerator.tsx:192-197 | sets the flag; unchecking the last enabled class turns lower case on |
| `PasswordGen.PasswordGenerator.OnChangeIsSpecial` | src/pages/PasswordGenerator.tsx:199-204 | sets the flag; unchecking the last enabled class turns lower case on |
| `PasswordGen.PasswordGenerator.OnChangeIsSpecialURL` | src/pages/PasswordGenerator.tsx:206-208 | changes only the URL-symbol flag |
| `PasswordGen.PasswordGenerator.OnChangeAvoidAmbiguous` | src/pages/PasswordGenerator.tsx:210-212 | changes only the ambiguity flag |
| `PrettyData.Indent` | src/utils/pretty-data.js:172-178 | `shift[depth]` as concatenated: the table line, or the text `undefined` outside the table |
| `PrettyData.ShiftTableShape` | src/utils/pretty-data.js:51-62 | the table has 101 lines, the first a bare newline, each next one adding `step` |
| `PrettyData.ShiftLineClosedForm` | src/utils/pretty-data.js:57-60 | line `d` is a newline followed by `d` copies of the step |
| `PrettyData.RepeatSnoc` | src/utils/pretty-data.js:66 | one more repetition appends the string once more |
| `PrettyData.RepeatSpace` | src/utils/pretty-data.js:66 | `' '.repeat(n)` is `n` plain spaces |
| `PrettyData.ShiftLineIsWhitespace` | src/utils/pretty-data.js:64-74 | with a blank step every table line is whitespace only |
| `PrettyData.BlankIsWhitespace` | src/utils/pretty-data.js:66 | a text of plain spaces has no non-whitespace character |
| `PrettyData.ShiftLineShape` | src/utils/pretty-data.js:64-74 | with a blank step a table line is a newline followed by spaces only |
| `PrettyData.PP.constructor` | src/utils/pretty-data.js:51-62 | `new PP()` has a two-space step and the table built from it |
| `PrettyData.PP.RebuildShift` | src/utils/pretty-data.js:57-60 | resetting `shift` and pushing `shift[ix] + step` 100 times builds the table of the current step |
| `PrettyData.PP.SetStep` | src/utils/pretty-data.js:64-74 | for `n >= 0` the step is `n` spaces and the table is rebuilt from it; a negative `n` throws after the table was reset to `["\n"]` |
| `PrettyData.PP.Xml` | src/utils/pretty-data.js:78-150 | the loop of `xml()` gives `XmlOut` |
| `PrettyData.PP.XmlBranch` | src/utils/pretty-data.js:93-142 | the chain of branches appends the indentation and segment that `XmlAction` chooses, with its new depth and comment flag |
| `PrettyData.PP.Css` | src/utils/pretty-data.js:154-182 | the loop of `css()` gives `CssOut` |
| `PrettyData.PP.Sql` | src/utils/pretty-data.js:237-291 | `sql()` is the semicolon rewrite applied to `SqlLayout` |
| `PrettyData.PP.SqlQuoteLoop` | src/utils/pretty-data.js:252-259 | the quote-alternation loop keeps odd pieces whole and splits even ones, giving `SqlSegments` |
| `PrettyData.PP.SqlLayoutLoop` | src/utils/pretty-data.js:261-284 | the second loop, rewriting `ar[ix]` in place, gives the text of `SqlWalk` |
| `PrettyData.PP.SqlBranch` | src/utils/pretty-data.js:270-283 | the three branches place the segment as `SqlPlace` says |
| `PrettyData.CloseTagGaps` | src/utils/pretty-data.js:299 | `/>\s*</g -> "><"` never lengthens the text |
| `PrettyData.CloseTagGapsHead` | src/utils/pretty-data.js:299 | the rewrite keeps the first character |
| `PrettyData.CloseTagGapsTrimStart` | src/utils/pretty-data.js:299 | closing gaps and trimming the start commute |
| `PrettyData.CloseTagGapsNoGaps` | src/utils/pretty-data.js:299 | afterwards no whitespace stands between a `>` and the next `<` |
| `PrettyData.CloseTagGapsNoGapsCut` | src/utils/pretty-data.js:299 | the same, for a text that starts with a gap |
| `PrettyData.CloseTagGapsNoGapsStep` | src/utils/pretty-data.js:299 | the same, for a text that starts with no gap |
| `PrettyData.CloseTagGapsNonSpaces` | src/utils/pretty-data.js:299 | the rewrite removes whitespace only |
| `PrettyData.CloseTagGapsFixedPoints` | src/utils/pretty-data.js:299 | a text is left unchanged exactly when it has no gap |
| `PrettyData.XmlMinIdempotent` | src/utils/pretty-data.js:295-300 | `xmlmin(xmlmin(t, true), true) == xmlmin(t, true)` |
| `PrettyData.XmlMinNoGaps` | src/utils/pretty-data.js:295-300 | `xmlmin`'s result has no gap whatever the comment stripper does, and with comments kept it removes whitespace only |
| `PrettyData.DropSpacesAfterHead` | src/utils/pretty-data.js:307-311 | removing whitespace after a pattern keeps the first character |
| `PrettyData.SingleSpacedAppend` | src/utils/pretty-data.js:306 | two single-spaced texts joined without a space on both sides of the seam are single-spaced |
| `PrettyData.SingleSpacedSuffix` | src/utils/pretty-data.js:306 | a suffix of a single-spaced text is single-spaced |
| `PrettyData.SingleSpacedPrefix` | src/utils/pretty-data.js:306 | a prefix of a single-spaced text is single-spaced |
| `PrettyData.NoSpaceAfterAppend` | src/utils/pretty-data.js:307-311 | "no whitespace after `c`" survives a concatenation whose seam has none |
| `PrettyData.NoSpaceAfterSuffix` | src/utils/pretty-data.js:307-311 | and holds for every suffix |
| `PrettyData.NoSpaceAfterPrefix` | src/utils/pretty-data.js:307-311 | and for every prefix |
| `PrettyData.NoSpaceAfterTrimStart` | src/utils/pretty-data.js:307-311 | and after trimming the start |
| `PrettyData.DropSpacesAfterNonSpaces` | src/utils/pretty-data.js:307-311 | `/pat\s+/g -> pat` removes whitespace only |
| `PrettyData.DropSpacesAfterNonSpacesCut` | src/utils/pretty-data.js:307-311 | the same, when the text starts with `pat` and whitespace |
| `PrettyData.DropSpacesAfterNonSpacesStep` | src/utils/pretty-data.js:307-311 | the same, when it does not |
| `PrettyData.NonSpacesOfJoin` | src/utils/pretty-data.js:307-311 | replacing a tail by one with the same non-whitespace characters keeps those of the whole |
| `PrettyData.DropSpacesAfterSingleSpaced` | src/utils/pretty-data.js:307-311 | the rewrite keeps a single-spaced text single-spaced |
| `PrettyData.DropSpacesAfterSingleSpacedCut` | src/utils/pretty-data.js:307-311 | the same, when the text starts with `pat` and whitespace |
| `PrettyData.DropSpacesAfterSingleSpacedStep` | src/utils/pretty-data.js:307-311 | the same, when it does not |
| `PrettyData.DropSpacesAfterMakesNoSpaceAfter` | src/utils/pretty-data.js:307-309 | after `/c\s+/g -> c` no whitespace follows a `c` |
| `PrettyData.MakesNoSpaceAfterCut` | src/utils/pretty-data.js:307-309 | the same, when the text starts with `c` and whitespace |
| `PrettyData.MakesNoSpaceAfterStep` | src/utils/pretty-data.js:307-309 | the same, when it does not |
| `PrettyData.DropSpacesAfterKeepsNoSpaceAfter` | src/utils/pretty-data.js:307-311 | a later rewrite does not put whitespace back after an earlier one's character |
| `PrettyData.KeepsNoSpaceAfterCut` | src/utils/pretty-data.js:307-311 | the same, when the text starts with `pat` and whitespace |
| `PrettyData.KeepsNoSpaceAfterStep` | src/utils/pretty-data.js:307-311 | the same, when it does not |
| `PrettyData.CssMinShape` | src/utils/pretty-data.js:302-312 | `cssmin`'s result is single-spaced with no whitespace after `{`, `}` or `;`, and with comments kept it removes whitespace only |
| `PrettyData.SpacesThenHasSpaceBefore` | src/utils/pretty-data.js:315 | a whitespace run ending at `c` puts a whitespace character directly before that `c` |
| `PrettyData.DropSpacesBeforeFirstNone` | src/utils/pretty-data.js:315 | with no whitespace directly before a `c`, `/\s+c/ -> c` changes nothing |
| `PrettyData.DropSpacesBeforeFirstCut` | src/utils/pretty-data.js:315 | in a single-spaced text it removes exactly the space before the first `c` that has one |
| `PrettyData.DropSpacesBeforeFirstKeepsHead` | src/utils/pretty-data.js:315 | before that place the first character is kept |
| `PrettyData.DropSpacesBeforeFirstNonSpaces` | src/utils/pretty-data.js:315 | the rewrite removes whitespace only |
| `PrettyData.DropSpacesBeforeFirstSingleSpaced` | src/utils/pretty-data.js:315 | the rewrite keeps a single-spaced text single-spaced |
| `PrettyData.SqlMinShape` | src/utils/pretty-data.js:314-316 | `sqlmin`'s result is single-spaced and differs from the input in whitespace only |
| `PrettyData.XmlStep` | src/utils/pretty-data.js:143-146 | after a segment outside a comment the output does not end in whitespace |
| `PrettyData.XmlStepDepth` | src/utils/pretty-data.js:111-131 | a segment moves the depth by at most one, and it rises exactly at an opening tag outside a comment |
| `PrettyData.XmlActionOpening` | src/utils/pretty-data.js:114-115 | an opening tag outside a comment is written behind the current depth's line and opens one level |
| `PrettyData.XmlActionIndentChoice` | src/utils/pretty-data.js:93-142 | a segment is written behind nothing, the current line, or the line one level lower when it closes a level |
| `PrettyData.XmlActionIndent` | src/utils/pretty-data.js:93-142 | a branch that writes an indentation writes a table line or `undefined`, before a non-empty segment |
| `PrettyData.IndentShape` | src/utils/pretty-data.js:52-60 | a line of a blank-step table starts with a newline and then a space, and is whitespace only |
| `PrettyData.IndentIsIndentLike` | src/utils/pretty-data.js:52-60 | any lookup, in range or not, gives `undefined` or a newline not followed by another |
| `PrettyData.IndentNonSpaces` | src/utils/pretty-data.js:52-60 | a table line in range is whitespace only |
| `PrettyData.NoBlankLeadTrimEnd` | src/utils/pretty-data.js:145 | trimming the end keeps the output free of a blank first line |
| `PrettyData.NoBlankLeadAppend` | src/utils/pretty-data.js:94-141 | so does appending an indentation and a segment that does not start with a newline |
| `PrettyData.XmlStepNoBlankLead` | src/utils/pretty-data.js:91-147 | so does one iteration |
| `PrettyData.XmlWalkNoBlankLead` | src/utils/pretty-data.js:91-147 | so does the whole loop, when no segment starts with a newline |
| `PrettyData.XmlNoLeadingNewline` | src/utils/pretty-data.js:149 | `xml()`'s result does not start with a newline when no segment does |
| `JsString.TrimStartLacks` | src/utils/pretty-data.js:80 | dropping leading whitespace brings in no character |
| `PrettyData.CloseTagGapsLacks` | src/utils/pretty-data.js:80 | `/>\s*</g -> "><"` brings in no character, so no `~` |
| `JsString.ReplaceAllHead` | src/utils/pretty-data.js:81-83 | a replaced text starts with the text's first character or with the replacement's |
| `PrettyData.ReplaceKeepsUnmarked` | src/utils/pretty-data.js:81-83 | replacing a pattern without `~` by a copy of itself with cuts put in keeps every `~` at the start of a whole separator, and removing the separators gives what it gave before |
| `PrettyData.ReplaceByCut` | src/utils/pretty-data.js:81-83 | the same for a replacement made of the pattern with one cut put in |
| `PrettyData.ReplaceKeepsClean` | src/utils/pretty-data.js:81-83 | a replacement that does not start with a newline and does not end in a cut puts no cut before a newline |
| `PrettyData.SplitCleanCuts` | src/utils/pretty-data.js:84 | when no cut is followed by a newline, no piece after the first starts with one, and the first piece starts with the text's first character |
| `PrettyData.CutBeforeTags` | src/utils/pretty-data.js:81 | `/></g -> ">~::~<"` adds separators only, and none before a newline |
| `PrettyData.CutBeforeXmlnsPrefix` | src/utils/pretty-data.js:82 | the same for `/xmlns:/g -> "~::~xmlns:"` |
| `PrettyData.CutBeforeXmlnsDefault` | src/utils/pretty-data.js:83 | the same for `/xmlns=/g -> "~::~xmlns="` |
| `PrettyData.XmlSegmentsNonSpaces` | src/utils/pretty-data.js:79-84 | for a text without `~`, the segments put back together are the text up to whitespace |
| `PrettyData.XmlSegmentsLeads` | src/utils/pretty-data.js:79-84 | for a text without `~`, only the first segment can start with a newline, and only when the text does |
| `PrettyData.XmlTextNoLeadingNewline` | src/utils/pretty-data.js:78-150 | for a text without `~` that does not start with a newline, `xml()`'s result does not start with one either |
| `PrettyData.XmlSegmentsOfNewlineTag` | src/utils/pretty-data.js:80-84 | the text `"\n<a>"` is one segment |
| `PrettyData.NewlineTagIsOpening` | src/utils/pretty-data.js:114 | that segment takes the opening-tag branch |
| `PrettyData.XmlWalkOfOpeningTag` | src/utils/pretty-data.js:91-147 | a single opening-tag segment is written behind `shift[0]` |
| `PrettyData.XmlOutOfOpeningTag` | src/utils/pretty-data.js:149 | so `xml()` of such a text is the text itself |
| `PrettyData.XmlKeepsLeadingNewline` | src/utils/pretty-data.js:149 | `xml("\n<a>") == "\n<a>"`: the output can start with a newline |
| `PrettyData.XmlIndentWhitespace` | src/utils/pretty-data.js:93-142 | with the depths in the table every indentation is whitespace |
| `PrettyData.AppendSegmentNonSpaces` | src/utils/pretty-data.js:141-146 | appending an indentation and a segment, trimmed or not, adds the segment's non-whitespace characters |
| `PrettyData.XmlStepNonSpaces` | src/utils/pretty-data.js:91-147 | one iteration adds the segment's non-whitespace characters |
| `PrettyData.XmlWalkSnoc` | src/utils/pretty-data.js:91 | one more segment is one more iteration, with the segment before it as `ar[ix - 1]` |
| `PrettyData.XmlWalkLastNonSpaces` | src/utils/pretty-data.js:91-147 | the last iteration adds the last segment's non-whitespace characters |
| `PrettyData.XmlWalkNonSpaces` | src/utils/pretty-data.js:91-147 | while the depth stays in the table the loop adds and removes whitespace only |
| `PrettyData.NonSpacesDropFirstNewline` | src/utils/pretty-data.js:149 | dropping the first newline removes whitespace only |
| `PrettyData.XmlOutNonSpaces` | src/utils/pretty-data.js:78-150 | while the depths stay in the table, `xml()`'s result has the non-whitespace characters of its segments put back together, and so those of the text itself when the text has no `~` |
| `PrettyData.CssOut` | src/utils/pretty-data.js:181 | `css()`'s result never starts with a newline |
| `PrettyData.BalanceSnoc` | src/utils/pretty-data.js:171-174 | the depth rises by one after a segment with `{`, falls by one at a segment with `}` and no `{`, and is unchanged otherwise |
| `PrettyData.CssLevelIsLower` | src/utils/pretty-data.js:171-178 | a segment is written at the lower of the depths before and after it, so `}` goes at the reduced depth |
| `PrettyData.CssLinesNonSpaces` | src/utils/pretty-data.js:169-180 | the first `k` laid-out segments hold only their own non-whitespace characters |
| `JsString.CollapseSpacesLacks` | src/utils/pretty-data.js:156 | `/\s+/g -> " "` brings in no character but the space |
| `PrettyData.CutAfterOpenBrace` | src/utils/pretty-data.js:157 | `/\{/g -> "{~::~"` adds separators only |
| `PrettyData.CutAroundCloseBrace` | src/utils/pretty-data.js:158 | `/}/g -> "~::~}~::~"` adds separators only |
| `PrettyData.CutAfterSemicolon` | src/utils/pretty-data.js:159 | `/;/g -> ";~::~"` adds separators only |
| `PrettyData.CutBeforeComment` | src/utils/pretty-data.js:160 | `/\/\*/g -> "~::~/*"` adds separators only |
| `PrettyData.CutAfterComment` | src/utils/pretty-data.js:161 | `/\*\//g -> "*/~::~"` adds separators only |
| `PrettyData.MergeSkipsSep` | src/utils/pretty-data.js:162 | a separator not followed by optional whitespace and another one is passed over whole |
| `PrettyData.MergeUnmarkNonSpaces` | src/utils/pretty-data.js:162 | `/~::~\s*~::~/g -> "~::~"` removes separators and whitespace only |
| `PrettyData.CssSegmentsNonSpaces` | src/utils/pretty-data.js:156-163 | for a text without `~`, the segments put back together are the text up to whitespace |
| `PrettyData.CssOutNonSpaces` | src/utils/pretty-data.js:154-182 | while the depths stay in the table, `css()`'s result has the non-whitespace characters of its segments put back together, and so those of the text itself when the text has no `~` |
| `PrettyData.IsSubqueryCounts` | src/utils/pretty-data.js:186-188 | `isSubquery(str, level) == level + count('(') - count(')')` |
| `PrettyData.SqlLayout` | src/utils/pretty-data.js:286-287 | before the semicolon rewrite, `sql()`'s text neither starts with a newline nor holds an empty line |
| `PrettyData.SqlSegmentsSnoc` | src/utils/pretty-data.js:252-259 | one more piece appends itself (odd index) or its split (even index) |
| `PrettyData.SqlWalkSnoc` | src/utils/pretty-data.js:262-284 | one more segment is one more iteration |
| `PrettyData.SqlWalkLevel` | src/utils/pretty-data.js:264 | after the loop the parenthesis level is the number of `(` minus the number of `)` |
| `PrettyData.SqlWalkDeep` | src/utils/pretty-data.js:270-283 | the subquery depth stays between 0 and the number of subqueries opened |
| `PrettyData.SelectCommasNonSpaces` | src/utils/pretty-data.js:266-268 | the comma rewrite inserts whitespace only |
| `PrettyData.SqlStepNonSpaces` | src/utils/pretty-data.js:262-284 | one iteration adds the segment's non-whitespace characters |
| `PrettyData.SqlWalkLastNonSpaces` | src/utils/pretty-data.js:262-284 | the last iteration adds the last segment's non-whitespace characters |
| `PrettyData.SqlWalkNonSpaces` | src/utils/pretty-data.js:262-284 | while the depth stays in the table the loop adds whitespace only |
| `PrettyData.CutBeforeQuote` | src/utils/pretty-data.js:239 | `/'/ig -> "~::~'"` adds separators only |
| `PrettyData.QuotePiecesNonSpaces` | src/utils/pretty-data.js:238-240 | for a text without `~`, the quote pieces put back together are the text up to whitespace |
| `PrettyData.SqlSegmentsNonSpaces` | src/utils/pretty-data.js:252-259 | when `split_sql` changes whitespace only on the pieces it is given, so does the first loop |
| `PrettyData.SqlLayoutNonSpaces` | src/utils/pretty-data.js:237-287 | with that hypothesis on this text's pieces, `sql()` before the semicolon rewrite has the non-whitespace characters of the quote pieces, in order, and so those of the text itself when the text has no `~` |
| `Navigation.ConvertToRouteObject` | src/components/Router.tsx:83-95 | an empty input fails (`input[0]` is undefined); otherwise the nested loops give `Routes(input)` |
| `Navigation.ChildRoutesSnoc` | src/components/Router.tsx:87-89 | one more child appends one route with its link and element |
| `Navigation.AllRoutesSnoc` | src/components/Router.tsx:85-93 | the routes of one more item follow those before it |
| `Navigation.AllRoutesLength` | src/components/Router.tsx:85-93 | one route per child of each group and one per leaf |
| `Navigation.AllRoutesPlacement` | src/components/Router.tsx:85-93 | the k-th route of item `i` sits right after the routes of the items before it, so the order of the items is kept |
| `Navigation.RoutesShape` | src/components/Router.tsx:84-94 | `2 + RouteCount` routes: first `/` with `index` and the first item's element, last `*` with the not-found page |
| `Navigation.RouterRoutes` | src/components/Router.tsx:43-98 | the site's tree gives 19 routes, the home page at `/` and again at `home`, and the catch-all last |
| `Navigation.Groups` | src/components/Page.tsx:30 | the filter keeps exactly the items with children |
| `Navigation.ChildGroups` | src/components/Page.tsx:30 | one link list per group |
| `Navigation.IndexOf` | src/components/Page.tsx:33 | `indexOf` is -1 exactly when the link is absent, otherwise the first position holding it |
| `Navigation.FindAccordionIndex` | src/components/Page.tsx:28-39 | the loop gives `AccordionIndex` of the groups' link lists |
| `Navigation.AccordionIndexSpec` | src/components/Page.tsx:31-38 | the result is -1 or an index into the groups (not into `LinkItems`); -1 exactly when no group holds the URL; otherwise that group holds it and no later one does |
| `Navigation.GroupsWithoutLeaf` | src/components/Page.tsx:30 | dropping a leaf item changes neither the groups nor the link lists |
| `Navigation.NoChildLink` | src/components/Page.tsx:30-38 | a URL that is no group child's link gives -1 |
| `Navigation.PageHomeOpensNoGroup` | src/routes.tsx:20-51 | in the sidebar tree the leaf link `home` gives -1 |

## Left out

- User interface: rendering, toasts, clipboard and `useState` plumbing. The page's state is the fields of `PasswordGenerator`, and a React state update is modelled as taking effect at once.
- `crypto.randomBytes(4).readUInt32LE()` is a foreign random source. It is the supplied tape of 32-bit words, so `u / 2^32 * k` is exact integer arithmetic.
- `async`/`await` and `Promise.all` in `secureShuffle` and `generatePassword`: the promises wrap plain numbers, so the model runs sequentially.
- `e as unknown as number` in the numeric handlers: the options are integers, and an empty field is `None`.
- The generated passwords are not stated to be uniformly distributed. There is no probability in the model.
- `split_sql` and the semicolon lookahead rewrite of `sql()` are the parameters `split` and `semicolons`. Their keyword chains and lookahead are not modelled. The content lemmas for `sql()` therefore take as a hypothesis that `split` changes whitespace only, on the pieces of the text at hand.
- The comment-stripping patterns of `xmlmin` and `cssmin` are the parameter `stripComments`.
- `htmlmin` and the JSON functions are not part of this model.
- `React.lazy` and `createBrowserRouter`: page elements are opaque values named by their component. The `icon` and `key` fields of the link items are not modelled.
- `PrettyData.PP.SqlLayoutLoop`: its `ensures` states the text it builds, not the array `ar` it leaves rewritten. `ar` is local and dead after the loop.
- `PrettyData.CssOutNonSpaces`, `PrettyData.XmlOutNonSpaces` and `PrettyData.SqlLayoutNonSpaces` assume that every depth stays inside the 101-line table. Outside it the text `undefined` is inserted, as in the code.
- `PrettyData.SqlSegmentsNonSpaces` and `PrettyData.SqlLayoutNonSpaces`: the real `split_sql` does not satisfy their hypothesis on every text.
  - Its `/ig` rewrites write the keyword back in upper case: `"select a"` becomes `"SELECT a"`.
  - `/~::~+/g` can leave a stray `::~` where two cuts meet, as in `"x UNION (SELECT y"`.
  - So the lemmas cover only texts whose even quote pieces `split_sql` changes in whitespace alone: keywords already in upper case and no two cuts back to back.
- `PrettyData.XmlOutNonSpaces`, `PrettyData.CssOutNonSpaces` and `PrettyData.SqlLayoutNonSpaces` relate the result to the text itself only when the text has no `~`.
  - A `~::~` already in the text is cut like the inserted ones and disappears: `xml("a~::~b")` gives `"ab"`.
  - Part of one can combine with an inserted cut, as `~::xmlns:` does.
  - For any text they still relate the result to the segments put back together.
- `PrettyData.XmlNoLeadingNewline` assumes that no segment starts with a newline. Without that hypothesis the property is false: `xml("\n<a>")` is `"\n<a>"` (`PrettyData.XmlKeepsLeadingNewline`). `PrettyData.XmlTextNoLeadingNewline` meets the hypothesis for every text without `~` that does not start with a newline.
- No concrete sidebar lookup returning a group index (such as `jwt` giving 0) is stated: evaluating the literal tree is too costly for the verifier. The general lemma `Navigation.AccordionIndexSpec` covers it; only the `home` case is stated for the concrete tree.

## Notes on the code as written

- `secureShuffle` draws the partner of index `i` with `generateNumber(0, i)`, which lies in `[0, i)`. The comment calls it a Durstenfeld shuffle, but an index never stays in place, which makes it Sattolo's algorithm (`ShuffleMovesLastSlot`, `ShuffleSwapsPair`). The model follows the code.
- The upper-case length is `remainder - generateNumber(1, min(remainder, remainder - 2))`. With every class enabled, non-negative minimums and `passwordLength >= minimumNumbers + minimumSpecials + 3`, this leaves at least two upper-case letters and one lower-case letter (`PlanMeetsMinimums`).
- The bound of the shuffle loop, `generateNumber(1, 3)`, is drawn again before every test. That gives one or two shuffles, and a draw even on the test that ends the loop (`ShuffleRounds`).
- `shift[depth]` outside `0..100` is `undefined` in JavaScript, and `+` appends the text `undefined`. The model does the same (`Indent`) instead of restricting the depth.
- The `css()` branch taken when `/\*\\/` matches (a `*` followed by a backslash) does the same as the final `else`. The model keeps the branch.
- `sqlmin`'s `/\s+\(/` without `g` removes the first whitespace run that ends at a `(`. That `(` is not always the first `(` of the text.
- In `findAccordationIndex`, `a.indexOf(i)` compares arrays by identity. Each group's list is a fresh array from `map`, so it returns the current index. When several groups hold the URL, the last one wins.
- `xml()`'s tag-name test at lines 107-109 compares a one-element match array with a string using `==`. That compares the match's single string, which is how `ClosesPrevious` reads it.
