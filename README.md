# CampusConnect onboarding, modelled in Dafny

`project.cpp` is a console program that walks a new student through four
steps, each step filling fields of one shared `UserProfile` record:

- **select a university.** The program searches a catalog case-insensitively, lists the matches and picks one by number.
- **enter a student ID** of at least three bytes.
- **complete the profile.** The major is stored verbatim, then the daily routine ("1"/"2"), then three comma-separated checklists of study habits, interests and lifestyle.
- **choose premium or not** ("1"/"2").

It then prints a summary.

This project models the logic under the prompts and proves what it promises.

- `Text.dfy` models `toLower`, an ASCII-only lowercasing, and `std::string::find`.
- `Choices.dfy` models `parseChoices`:
  - splitting on ',' the way `getline(ss, token, ',')` does;
  - `stoi`, which skips white space, reads an optional sign and digits, ignores what follows, and rejects values outside 32-bit `int`;
  - resolving 1-based numbers against an option catalog.
- `Search.dfy` models the university match filter: catalog entries whose lowercase form contains the lowercase query, in catalog order.
- `Onboarding.dfy` models the `UserProfile` record as a class, and each step as a method that writes only that step's fields.
  - Console input is a finite sequence of lines, read from a position `from`.
  - Each step returns `Accepted(next)`, where `next` is the first unread line. If no acceptable answer remains it returns `Exhausted`. Past the end of input the source spins forever re-prompting on empty lines.
  - Every step method is proved equal to a pure step function on an `Answers` value, a snapshot of the eight profile fields.
  - `Run` composes those step functions in `main`'s order.
  - `SearchRound` is one iteration of `selectUniversity`'s loop.
  - `ChooseRoutine` is the routine loop of `completeProfile`.
  - `ReadChecklists` is the three straight-line `parseChoices` calls that follow that loop.
- `Summary.dfy` models the text `showSummary` prints: each list as its items each followed by ", ", and the premium flag as "Yes" or "No".
- `Catalogs.dfy` holds the fixed option lists and the university list.
- `Examples.dfy` works through concrete inputs to the parser.
- `SearchExamples.dfy` works through a concrete university search.
- `Wrappers.dfy` holds `Option`, `Reply` (a value and the next unread line) and `Outcome`.

Strings are sequences of `char`, and one `char` stands for one byte of a
`std::string`. So `length()` counts bytes, and `::tolower` acts on each byte
alone.

## Model

| member | source | states |
|---|---|---|
| Text.LowerChar | project.cpp:31 | `::tolower` in the C locale changes a byte exactly when it is 'A'..'Z', moves it up by 32, and never yields an upper-case letter |
| Text.ToLower | project.cpp:30-33 | the result has the input's length and contains no ASCII upper-case letter |
| Text.ToLowerAt | project.cpp:30-33 | each character is lowered on its own; it changes exactly when it is 'A'..'Z', and then becomes 'a'..'z' |
| Text.ToLowerFixed | project.cpp:30-33 | a string is left unchanged exactly when it has no upper-case letter |
| Text.ToLowerIdempotent | project.cpp:30-33 | lowering twice is lowering once |
| Text.FindFrom | project.cpp:63 | a found position is at or after the start and the needle occurs there; the empty needle is found at the start |
| Text.Find | project.cpp:63 | a found position is one where the needle occurs; the empty needle is found at 0 |
| Text.Contains | project.cpp:63 | a needle longer than the text is never found |
| Text.FindFromFirst | project.cpp:63 | `find` returns the first position at which the needle occurs; it finds nothing exactly when the needle occurs nowhere |
| Text.ContainsIsSubstring | project.cpp:63 | `find(...) != npos` holds exactly when the needle occurs somewhere; the empty needle always occurs |
| Choices.NextToken | project.cpp:41 | one `getline` call returns a token without ',' and strictly shortens the rest of the stream |
| Choices.NextTokenSplits | project.cpp:41 | the stream is the token, the consumed ',' and the rest; without a ',' the whole stream is the last token |
| Choices.NextTokenSplit | project.cpp:41 | a comma-free prefix followed by ',' is read back as exactly that token |
| Choices.TokensShape | project.cpp:38-41 | the tokens `getline` yields hold no ',', are no more than the input's characters, and there are none exactly when the input is empty |
| Choices.TokensOfJoin | project.cpp:41 | joining comma-free tokens with ',' and splitting again gives the tokens back (last token non-empty) |
| Choices.TrailingCommaIgnored | project.cpp:41 | a trailing ',' yields no extra token |
| Choices.SkipSpace | project.cpp:43 | `stoi` skips leading white space: the rest is no longer than the input and does not start with a space |
| Choices.SkipSpaceSuffix | project.cpp:43 | what remains after skipping is the input's own tail, and every character skipped is white space |
| Choices.DigitPrefix | project.cpp:43 | the digits `stoi` reads are all digits, and the character after them, if any, is not a digit |
| Choices.DigitPrefixIsPrefix | project.cpp:43 | those digits are the input's own first characters, so they are the longest run of digits at the front |
| Choices.LeadingIntegerShape | project.cpp:43 | after the optional sign a number needs a digit, and it is negative only after '-' |
| Choices.StoiShape | project.cpp:43 | `stoi` succeeds only with a value within 32-bit `int`, and only when the first character after the white space and the sign is a digit |
| Choices.NoDigitNoNumber | project.cpp:42-47 | a token with no digit at all (such as "", " " or "abc") never parses |
| Choices.Decimal | project.cpp:43 | a decimal numeral is a non-empty run of digits |
| Choices.DecimalValue | project.cpp:43 | reading a numeral back gives its number |
| Choices.DigitPrefixOf | project.cpp:43 | reading digits stops at the first non-digit |
| Choices.StoiDecimal | project.cpp:43 | `stoi` of a numeral within `int` range, followed by anything not starting with a digit, is that number |
| Choices.Pick | project.cpp:43-46 | a token picks at most one option; it picks one exactly when it parses to n with 1 <= n <= size, and then picks `options[n-1]` |
| Choices.Picks | project.cpp:41-48 | never more options than tokens, and every one a member of the catalog |
| Choices.PicksAppend | project.cpp:41-48 | tokens are resolved one by one in order: the picks of a concatenation are the concatenated picks |
| Choices.PicksSingle | project.cpp:43-46 | one token picks what `Pick` says |
| Choices.DroppedToken | project.cpp:42-47 | a token that does not parse or is out of range is dropped without affecting the others |
| Choices.PicksSnoc | project.cpp:41-48 | each loop iteration appends the pick of the next token |
| Choices.SelectedOptionsShape | project.cpp:36-50 | `parseChoices` returns only catalog options, no more of them than tokens, and nothing for empty input |
| Choices.ParseChoices | project.cpp:36-50 | the `while (getline ...)` loop returns the picks of the input's tokens |
| Search.MatchesQuery | project.cpp:63 | the test of one entry: a query longer than the entry never matches it |
| Search.Filter | project.cpp:61-66 | the kept entries are exactly the catalog entries passing the test, never more than the catalog |
| Search.Matches | project.cpp:61-66 | the matches are exactly the catalog entries that contain the query, ignoring case |
| Search.FilterMatches | project.cpp:61-66 | the `for` loop builds exactly that match list |
| Search.Kept | project.cpp:61-66 | the positions of kept entries are positions in the catalog |
| Search.FilterAtKept | project.cpp:61-66 | the k-th kept entry is the catalog entry at the k-th kept position |
| Search.KeptIncreasing | project.cpp:61-66 | kept positions increase, so catalog order is preserved |
| Search.KeptExactly | project.cpp:61-66 | a position is kept exactly when its entry passes the test |
| Search.MatchesInOrder | project.cpp:61-66 | the match list is an order-preserving subsequence of the catalog containing each matching entry and no other |
| Search.EmptyQueryListsAll | project.cpp:63 | an empty query lists the whole catalog unchanged |
| Search.EmptyTestRedundant | project.cpp:63 | the `query.empty()` test agrees with the substring test alone |
| Search.CaseInsensitive | project.cpp:59-63 | a query and its lower-case form give the same matches |
| Search.FilterSameTest | project.cpp:61-66 | filtering depends only on which entries pass the test |
| Onboarding.UserProfile.constructor | project.cpp:10-19 | a new profile is blank: empty strings and lists, premium false |
| Onboarding.LineAt | project.cpp:22-27 | a read inside the input returns that line; every read returns a line of the input or "" |
| Onboarding.FirstAccepted | project.cpp:96-103 | a re-prompt loop stops at a line inside the input that it accepts |
| Onboarding.FirstAcceptedIsFirst | project.cpp:96-103 | every line before the accepted one was rejected; nothing is accepted exactly when every remaining line is rejected |
| Onboarding.Prompt | project.cpp:96-103 | an accepted answer passes the check and the loop stops reading within the input |
| Onboarding.PromptAt | project.cpp:96-103 | the first acceptable line at or after `from` is the answer, and reading resumes right after it |
| Onboarding.UniversityChoice | project.cpp:57-90 | a selected university is a catalog entry, and at least a query and a choice were read |
| Onboarding.UniversityChoiceSelects | project.cpp:76-86 | the university is `matches[idx-1]` for a number idx in range, read right after the query that produced `matches`, and reading stops after it |
| Onboarding.NoMatchSearchesAgain | project.cpp:68-71 | a query without matches is dropped and the search starts over on the next line |
| Onboarding.RejectedChoiceSearchesAgain | project.cpp:77-89 | "r", a non-number or a number outside the list starts a new search after the choice, selecting nothing |
| Onboarding.ValidChoiceSelects | project.cpp:80-86 | a number in range selects that match and ends the step |
| Onboarding.UniversityStep | project.cpp:53-91 | `selectUniversity` changes only the university; it stores a catalog entry after reading at least two lines, and changes nothing when no selection remains |
| Onboarding.SearchRound | project.cpp:58-89 | one loop iteration either selects what the step would select, or leaves the step's result to the following lines |
| Onboarding.SelectUniversity | project.cpp:53-91 | the profile and outcome are those of the step function; only `university` is written |
| Onboarding.StudentIdChoice | project.cpp:96-103 | the stored ID is a line of the input, read after `from`, of three or more bytes |
| Onboarding.StudentIdIsFirstLongEnough | project.cpp:96-103 | the stored ID is the first line of three or more bytes; every earlier line was shorter; none is stored exactly when all remaining lines are short |
| Onboarding.StudentIdStep | project.cpp:94-104 | `enterStudentID` changes only the ID, stores one of three or more bytes, and changes nothing when no such line remains |
| Onboarding.EnterStudentId | project.cpp:94-104 | the profile and outcome are those of the step function; only `student_id` is written |
| Onboarding.RoutineChoice | project.cpp:113-118 | the routine is "Early Bird" or "Night Owl" |
| Onboarding.RoutineFollowsFirstAnswer | project.cpp:113-118 | the routine follows the first "1" or "2", "Early Bird" exactly for "1"; every other line re-prompts; none is chosen exactly when no such line remains |
| Onboarding.RoutineStep | project.cpp:113-118 | the routine loop changes only the routine, stores one of the two names, and changes nothing when no "1" or "2" remains |
| Onboarding.ChooseRoutine | project.cpp:113-118 | the routine loop yields the step function's profile and outcome; only `routine` is written |
| Onboarding.ChecklistStep | project.cpp:120-142 | the three `parseChoices` calls change only the three lists, read exactly three lines, and keep every entry within its own catalog |
| Onboarding.ReadChecklists | project.cpp:120-142 | the three lists are the parser's picks from three consecutive lines against the habit, interest and lifestyle catalogs |
| Onboarding.ProfileStep | project.cpp:107-143 | `completeProfile` stores the next line as the major whatever it is, changes no field outside its own, and when it completes it has read at least five lines, stored a valid routine and only catalog entries |
| Onboarding.CompleteProfile | project.cpp:107-143 | the major is the next line verbatim, then routine, then the three lists; only those fields are written |
| Onboarding.PremiumChoice | project.cpp:154-167 | the flag follows a "1" or "2" line of the input, and it is true exactly for "1" |
| Onboarding.PremiumFollowsFirstAnswer | project.cpp:154-167 | premium follows the first "1" or "2", true exactly for "1"; every other line re-prompts |
| Onboarding.PremiumStep | project.cpp:146-168 | `offerPremium` changes only the flag, and changes nothing when no "1" or "2" remains |
| Onboarding.OfferPremium | project.cpp:146-168 | the profile and outcome are those of the step function; only `premium` is written |
| Onboarding.LineAtPadded | project.cpp:22-27 | reading from input followed by empty lines reads the same as from the input itself |
| Onboarding.PromptPadded | project.cpp:96-103 | a re-prompt loop that rejects "" ends the same way whether or not empty lines follow the input |
| Onboarding.UniversityChoiceBlank | project.cpp:57-90 | once input has ended the search never selects: "" lists every entry but is not a number |
| Onboarding.UniversityChoicePadded | project.cpp:57-90 | the university search ends the same way whether or not empty lines follow the input |
| Onboarding.ProfileStepPadded | project.cpp:107-143 | `completeProfile` ends the same way whether or not empty lines follow the input |
| Onboarding.EndOfInputNeverAccepted | project.cpp:57-90 | once input has ended no step accepts anything |
| Onboarding.Onboard | project.cpp:200-207 | `main` runs the four steps in order on a blank profile, each reading on where the last stopped |
| Onboarding.Run | project.cpp:193-207 | a run that completes read at least nine lines and stopped within the input |
| Onboarding.RunPadded | project.cpp:193-207 | appending empty lines, which is what every read returns once input has ended, never changes a run's answers or outcome, so `Exhausted` means the source re-prompts forever |
| Onboarding.RunAnswersArePlausible | project.cpp:204-207 | after a completed run the university is in the catalog, the ID has at least three characters, the routine is one of the two, and every list entry comes from its own catalog |
| Onboarding.EndOfInputLeavesBlank | project.cpp:204-207 | with input already ended the first step never completes and the profile stays blank |
| Summary.RenderList | project.cpp:179 | a printed non-empty list ends in ", ", with two characters per item at least |
| Summary.RenderItems | project.cpp:179 | the `for` loop prints each item followed by ", " |
| Summary.RenderListSnoc | project.cpp:179 | one more item is printed after the others |
| Summary.RenderListAppend | project.cpp:179 | printing two lists in turn prints their concatenation |
| Summary.RenderListAt | project.cpp:179 | every item is printed, in order, followed by ", " |
| Summary.PremiumLabel | project.cpp:190 | the premium line says "Yes" or "No" |
| Summary.PremiumLabelDistinct | project.cpp:190 | the label determines the flag |
| Summary.SummaryBody | project.cpp:172-188 | the lines before the premium line end with a newline |
| Summary.SummaryShowsPremium | project.cpp:190 | the summary ends with "Premium: Yes" exactly when the profile is premium |
| Summary.SummaryText | project.cpp:171-191 | the summary is the lines before the premium line followed by one more line, ending in a newline |
| Summary.ShowSummary | project.cpp:171-191 | the printed text is the summary of the profile's answers |
| Summary.OnboardAndSummarize | project.cpp:193-213 | `main` runs the four steps and prints the summary of the answers only when every step completed |
| Examples.TokenExamples | project.cpp:41 | ",," gives two empty tokens, "1," one token, "" none |
| Examples.StoiExamples | project.cpp:43 | " -7x" reads -7 and "abc" does not parse |
| Examples.SmallNumbers | project.cpp:43 | "1", "2", "3" and "99" read as those numbers |
| Examples.OneThreeTokens | project.cpp:41 | "1,3" splits into "1" and "3" |
| Examples.InterestPicks | project.cpp:128-134 | against the interest catalog "1" picks Sports, "2" Coding, "3" Volunteering, and "abc" and "99" pick nothing |
| Examples.InterestExample | project.cpp:128-134 | "1,3" against the interest catalog gives Sports and Volunteering |
| Examples.FourTokens | project.cpp:41 | "2,abc,99,2" splits into its four pieces |
| Examples.DroppedAndDuplicated | project.cpp:36-50 | `parseChoices("2,abc,99,2", interests)` is Coding twice: bad tokens are dropped and duplicates kept |
| SearchExamples.ListAllThenFirst | project.cpp:58-86 | pressing Enter and then "1" selects the catalog's first entry |

## Left out

- Console output: prompts, banners, menus, "Invalid choice." and the other messages. Only the summary text is modelled.
- `getInput` is replaced by reading the next element of a finite sequence of lines, with "" past the end.
- Non-termination: when no acceptable answer remains, each step loops forever in the source. The model returns `Exhausted` instead and claims no termination.
- `::tolower` beyond ASCII: the C locale lowers only 'A'..'Z', and so does the model.
- `stoi`'s exceptions are not modelled as exceptions. Both `invalid_argument` and `out_of_range` become `None`; every caller catches them and drops the token or choice.
- The hard-coded university list in `main` (project.cpp:194-198) appears as the constant `Universities`. The steps take the catalog as a parameter.
- The closing "Thank you" line of `main` is not modelled.
- The program has no validator or step classes and no callbacks, and no step can fail: every step re-prompts until it gets an acceptable answer.
