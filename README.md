# Lucky prize draw: the draw engine and the input validators

This project models the core of a prize-draw application, in which
participants are drawn at random as winners of prizes. It has three parts.

- **The in-browser giveaway store** (`src/hooks/useGiveaway.ts`), in
  `giveaway.dfy`.
  - It holds three lists: prizes with a remaining `quantity`, participants,
    and winner records that pair a prize with a participant.
  - `startDraw` draws `winnerCount` participants for the selected prize from
    its eligible pool. The pool is the participants who have not yet won
    that prize. The draw appends one winner record per pick and lowers the
    prize's quantity.
  - Prizes and participants can be added and deleted. A deletion also
    removes the winner records that depend on it.
  - The store is the class `GiveawayStore`. Each method is proved equal to a
    function over the `Store` value (`Draw`, `WithPrize`, `WithoutPrize`,
    ...). Lemmas about those functions state what the hook promises.
- **The server-side draw handler** (`ajax/draw.php`), in `draw_endpoint.dfy`.
  - It does the same draw over the `prizes`, `participants` and `winners`
    tables.
  - It checks the request method and the parameters.
  - It then checks the prize and its quantity, and then the eligible pool.
  - It inserts one `winners` row per selected participant in a loop and
    updates the quantity.
  - It answers with the list of winners.
  - The tables are the sequence fields of `Database`. `HandleDraw` is
    proved equal to the function `DrawResult`.
- **The validators** (`src/utils/validation.ts`), in `validation.dfy`. These
  are pure checks of e-mail addresses, phone numbers, free text, uploaded
  files and the participant and prize forms.
  - Each regular expression is restated as a character-level predicate.
  - Each validator is proved equivalent to that predicate, or to the rule
    the source states.

Shared pieces are in `seqs.dfy` and `wrappers.dfy`:

- an order-keeping `Filter`;
- the distinctness predicates `Distinct` and `UniqueKeys`;
- `Shuffle`, which stands for the random order;
- `JsSlice`, JavaScript's `slice(0, end)`;
- an `Option` type.

Randomness, identifiers and the clock are parameters.

- **Randomness.** `Shuffle(s, rolls)` takes a list of random rolls. It
  reorders `s` by moving element `rolls[0] % |s|` to the front, then
  recursing on the rest with the remaining rolls. Every permutation can be
  reached this way. Each result is proved to be a permutation that keeps
  the elements distinct.
- **Identifiers.** The winner ids made from `Date.now()` and `Math.random()`
  are the function `newId`, and the ids of new prizes and participants are
  arguments.
- **The clock.** The source reads the clock once per record: `new Date()` runs once per new winner record, and `NOW()` once per INSERT. The model follows this with a function `clock`, where `clock(i)` is the reading for the `i`-th record of a draw. Nothing is assumed about how the readings relate to each other.

## Model

| member | source | states |
|---|---|---|
| Giveaway.FindPrize | src/hooks/useGiveaway.ts:82-86 | the lookup finds nothing exactly when no prize has the id; otherwise it returns the first prize in list order with that id, as `find` does |
| Giveaway.EligiblePool | src/hooks/useGiveaway.ts:88-90 | a participant is in the pool iff it is listed and has no winner record for this prize; the pool is no longer than the list and keeps it duplicate-free |
| Giveaway.Draw | src/hooks/useGiveaway.ts:76-126 | a rejected draw leaves the store unchanged; a successful one has a selected, existing prize, keeps the participants and adds one winner record per pick (the full behaviour is stated by `DrawRejections`, `DrawSuccess`, `DrawDecrementsSelected` and `DrawPreservesInv`) |
| Giveaway.NewWinners | src/hooks/useGiveaway.ts:110-116 | one record per pick, in pick order, each for the prize, naming that pick, with the `i`-th generated id and the `i`-th clock reading, and carrying the automatic-draw note |
| Giveaway.DecrementQuantity | src/hooks/useGiveaway.ts:122-126 | ids and order are kept; prizes with the id lose `count` units and all others are unchanged |
| Giveaway.Commit | src/hooks/useGiveaway.ts:118-126 | the two setter calls: participants unchanged, prizes kept in number, the old records kept as a prefix with one new record per pick after them (its effect on a draw is stated by `CommitShape` and `CommitPreservesInv`) |
| Giveaway.WithPrize | src/hooks/useGiveaway.ts:135-142 | exactly one prize is appended after the unchanged old ones: the draft's name, description, quantity and image with the new id; participants and winners are unchanged |
| Giveaway.WithParticipant | src/hooks/useGiveaway.ts:150-157 | exactly one participant is appended after the unchanged old ones: the draft's name, e-mail, phone and address with the new id; prizes and winners are unchanged |
| Giveaway.PoolIgnoresOtherPrizes | src/hooks/useGiveaway.ts:88-90 | winner records for other prizes do not change a prize's pool: winning one prize does not exclude a participant from another |
| Giveaway.DrawRejections | src/hooks/useGiveaway.ts:77-100 | each rejection holds iff its condition holds and the earlier checks passed: no selected prize (null or empty id), unknown prize, pool smaller than the count (checked first), quantity below the count (checked second); a rejected draw leaves the store unchanged |
| Giveaway.DrawPicks | src/hooks/useGiveaway.ts:107-108 | the shuffled-and-sliced picks are `count` distinct pool members (distinct ids), all listed and none a previous winner of the prize |
| Giveaway.DrawSuccess | src/hooks/useGiveaway.ts:107-126 | a successful draw with count >= 1 appends exactly `count` records after the unchanged old ones; each is for the selected prize, has the automatic-draw note and names an eligible participant, with no pair repeated; the selected prize's quantity drops by `count`, other prizes and all participants are unchanged |
| Giveaway.CommitShape | src/hooks/useGiveaway.ts:110-126 | committing distinct eligible picks appends one record per pick after the old ones and decrements only the prize with that id |
| Giveaway.DrawDecrementsSelected | src/hooks/useGiveaway.ts:122-126 | after a successful draw the selected prize is still there and its quantity is the old one minus `count` |
| Giveaway.DrawExcludesWinnersFromPrize | src/hooks/useGiveaway.ts:88-90 | after a draw the winners are no longer eligible for that prize, and every other prize's pool is unchanged |
| Giveaway.DecrementKeepsPrizes | src/hooks/useGiveaway.ts:122-126 | decrementing a prize that has at least `count` units keeps every quantity >= 0, the ids unique and every prize present |
| Giveaway.AppendKeepsPairsUnique | src/hooks/useGiveaway.ts:110-119 | records for distinct participants that have not won the prize never repeat a (prize, participant) pair |
| Giveaway.CommitPreservesInv | src/hooks/useGiveaway.ts:107-126 | the commit of a draw that passed the checks keeps the store invariant (quantities >= 0, unique winner pairs, unique ids, records point at existing entries) |
| Giveaway.DrawPreservesInv | src/hooks/useGiveaway.ts:88-126 | every draw, whatever the count's sign, keeps the store invariant |
| Giveaway.FirstPrizeAfterDecrement | src/hooks/useGiveaway.ts:122-126 | the prize found by id after the decrement is the one found before, with `count` fewer units |
| Giveaway.NegativeCountInflatesQuantity | src/hooks/useGiveaway.ts:92-126 | as written, a negative count passes both checks, records max(pool + count, 0) winners and raises the prize's quantity by -count |
| Giveaway.WithoutPrize | src/hooks/useGiveaway.ts:144-148 | after `deletePrize` the prizes are those without the id and the winners are those not for that prize; participants are unchanged and distinctness is kept |
| Giveaway.WithoutParticipant | src/hooks/useGiveaway.ts:159-163 | after `deleteParticipant` the participants are those without the id and the winners are those not naming them; prizes are unchanged and distinctness is kept |
| Giveaway.AddPrizeKeepsInv | src/hooks/useGiveaway.ts:135-142 | appending a prize with a fresh id keeps the invariant iff its quantity is not negative (the hook does not check it) |
| Giveaway.AddParticipantKeepsInv | src/hooks/useGiveaway.ts:150-157 | appending a participant with a fresh id keeps the invariant |
| Giveaway.DeletePrizeKeepsInv | src/hooks/useGiveaway.ts:144-148 | deleting a prize keeps the invariant and leaves neither the prize nor any record of it |
| Giveaway.DeleteParticipantKeepsInv | src/hooks/useGiveaway.ts:159-163 | deleting a participant keeps the invariant and leaves neither the participant nor any record of them |
| Giveaway.GiveawayStore.constructor | src/hooks/useGiveaway.ts:31-71 | the store starts with the four sample prizes, the ten sample participants and no winners, and satisfies the invariant |
| Giveaway.GiveawayStore.StartDraw | src/hooks/useGiveaway.ts:76-133 | for a count >= 1, the outcome and new state are those of `Draw` on the old state, and the invariant is kept |
| Giveaway.GiveawayStore.AddPrize | src/hooks/useGiveaway.ts:135-142 | the new state is the old one with exactly one prize appended; the invariant is kept iff the quantity is not negative |
| Giveaway.GiveawayStore.DeletePrize | src/hooks/useGiveaway.ts:144-148 | the new state is `WithoutPrize` of the old one, and the invariant is kept |
| Giveaway.GiveawayStore.AddParticipant | src/hooks/useGiveaway.ts:150-157 | the new state is the old one with exactly one participant appended, and the invariant is kept |
| Giveaway.GiveawayStore.DeleteParticipant | src/hooks/useGiveaway.ts:159-163 | the new state is `WithoutParticipant` of the old one, and the invariant is kept |
| DrawEndpoint.FirstMatch | ajax/draw.php:24-27 | the position of the first row with the id and at least `winner_count` units, or the table length when no row matches |
| DrawEndpoint.SelectPrize | ajax/draw.php:24-32 | the prize query finds nothing exactly when no row has the id and at least `winner_count` units; otherwise it returns the first such row |
| DrawEndpoint.SelectParticipants | ajax/draw.php:35-43 | the selection has min(count, eligible) rows, all of them eligible |
| DrawEndpoint.WinnerRows | ajax/draw.php:52-57 | one inserted row per selected participant, in selection order, each with the prize id, that participant's id, the clock reading of that row's INSERT and the automatic-draw note |
| DrawEndpoint.Entries | ajax/draw.php:59-63 | one response entry per selected participant, in selection order, with that participant's name and e-mail and the prize name |
| DrawEndpoint.DecrementPrize | ajax/draw.php:67-70 | ids, names and order are kept; rows with the id lose `count` units and all others keep their quantity |
| DrawEndpoint.Commit | ajax/draw.php:50-70 | the writes of a draw: participants unchanged, the old winner rows kept as a prefix followed by the new rows, the prizes decremented |
| DrawEndpoint.DrawResult | ajax/draw.php:6-76 | a failed request changes no table; a successful one is a POST answered with "Undian berhasil!", keeps the participants and adds one winner row per response entry (the full behaviour is stated by `Rejections`, `SuccessRows`, `SuccessDecrements` and `DrawPreservesInv`) |
| DrawEndpoint.EligibleRows | ajax/draw.php:35-38 | a row is eligible iff it is a participant whose id is not among the winners of this prize |
| DrawEndpoint.Rejections | ajax/draw.php:6-48 | in order: non-POST gives "Method not allowed"; a missing or zero `prize_id`, or a zero `winner_count` (a missing one defaults to 1), gives "Invalid parameters"; no row with the id and enough units gives the prize message, before the participant check; a negative count gives a database error; fewer eligible participants than the count gives "Tidak cukup peserta yang tersedia"; every failure writes nothing |
| DrawEndpoint.RejectedWithoutReading | ajax/draw.php:6-18 | the answer to a bad method or bad parameters is the same whatever the tables hold, and the tables are unchanged |
| DrawEndpoint.SelectionEligible | ajax/draw.php:35-43 | the selection has min(count, eligible) rows, all distinct, all participants who have not won the prize |
| DrawEndpoint.SuccessRows | ajax/draw.php:50-64 | on success exactly `winner_count` rows are appended after the old ones, each for the prize with the automatic-draw note, the clock reading of its own INSERT and an eligible participant, with no pair repeated; the k-th response entry holds that participant's name and e-mail and the prize name |
| DrawEndpoint.SuccessDecrements | ajax/draw.php:66-70 | on success every row with the prize id had at least `winner_count` units and loses exactly that many; other rows are unchanged |
| DrawEndpoint.DecrementKeepsPrizes | ajax/draw.php:66-70 | the update keeps every quantity >= 0 when the prize had enough units, and keeps ids unique and every prize present |
| DrawEndpoint.AppendKeepsPairsUnique | ajax/draw.php:50-64 | inserting rows for distinct participants who have not won the prize repeats no (prize, participant) pair |
| DrawEndpoint.CommitPreservesInv | ajax/draw.php:50-70 | the writes of a draw that passed the checks keep the table invariant |
| DrawEndpoint.DrawPreservesInv | ajax/draw.php:6-76 | every request keeps the table invariant |
| DrawEndpoint.Database.InsertWinner | ajax/draw.php:53-57 | exactly one row is appended to `winners`; the other tables are unchanged |
| DrawEndpoint.Database.UpdateQuantity | ajax/draw.php:67-70 | only the rows with the prize id lose `count` units; the other tables are unchanged |
| DrawEndpoint.RecordWinners | ajax/draw.php:50-64 | the loop appends exactly the rows `WinnerRows` gives for the selection, in selection order, after the old winner rows, and returns the matching `Entries`; prizes and participants are unchanged |
| DrawEndpoint.HandleDraw | ajax/draw.php:6-76 | the response and the new tables are those of `DrawResult` on the old tables, through the early exits, the insert loop and the update; the table invariant is kept |
| Validation.LeadingSpaces | src/utils/validation.ts:16 | the count covers a run of whitespace that is followed by a non-space or by the end |
| Validation.TrimEnd | src/utils/validation.ts:16 | the result is a prefix, what was cut off is whitespace, and the result does not end in whitespace |
| Validation.Trim | src/utils/validation.ts:16 | the result is the slice of the input between the leading and trailing whitespace runs, with no whitespace at either end; it is empty iff the input is all whitespace |
| Validation.IndexOf | src/utils/validation.ts:5 | the index is that of the first occurrence of the character, or the length when there is none |
| Validation.EmailMatchesPattern | src/utils/validation.ts:4-7 | the character-level rule (no whitespace, one '@' after a non-empty part, a '.' strictly inside the domain part, at most 254 characters) holds iff the length is at most 254 and the address is a non-empty run without whitespace or '@', one '@', a non-empty run, a '.', and a non-empty run |
| Validation.ValidateEmail | src/utils/validation.ts:4-7 | `validateEmail` holds iff the address matches the regular expression, stated as that sequence of runs, and has at most 254 characters |
| Validation.PhoneRepeatChars | src/utils/validation.ts:11 | `[...]{lo,hi}` matches iff the length is in range and every character is a digit, whitespace, '-', '+', '(' or ')' |
| Validation.ValidatePhone | src/utils/validation.ts:9-13 | `validatePhone` is true for the empty string, and otherwise iff the length is 8..20 and every character is allowed |
| Validation.StripAngles | src/utils/validation.ts:16 | the result has no '<' or '>', keeps exactly the other characters, and is the input itself when the input has none |
| Validation.SanitizeText | src/utils/validation.ts:15-17 | the result is at most `maxLength` long (default 255), has no '<' or '>', and uses only input characters; it is the trimmed text itself when that fits and has no angle brackets |
| Validation.SanitizeCanLeaveLeadingSpace | src/utils/validation.ts:16 | since the brackets are removed after trimming, `"< a"` becomes `" a"`, which starts with a space |
| Validation.CheckFile | src/utils/validation.ts:19-50 | the result is valid iff the type is allowed and the size is within the limit; a bad type is reported before a bad size |
| Validation.ValidateImageFile | src/utils/validation.ts:19-32 | valid iff the type is one of the five image types and the size is at most 5242880 bytes; the type error comes first |
| Validation.ValidateExcelFile | src/utils/validation.ts:34-50 | valid iff the type is one of the two Excel types and the size is at most 10485760 bytes; the type error comes first |
| Validation.FieldChecks | src/utils/validation.ts:57-62 | the e-mail and phone tests of the record check agree with the pattern predicates |
| Validation.ValidateParticipantData | src/utils/validation.ts:52-66 | valid iff the name is filled in and not blank, the e-mail is present and valid, and the phone, if present, is valid; the first failing check, in that order, decides the error |
| Validation.ValidatePrizeData | src/utils/validation.ts:68-79 | valid iff the name is filled in and not blank and the quantity is a number in 1..1000; the name error comes first |
| Seqs.Filter | src/hooks/useGiveaway.ts:88-90 | the result keeps exactly the elements satisfying the test, is no longer than the input, and keeps it duplicate-free |
| Seqs.FilterAppend | src/hooks/useGiveaway.ts:145-146 | filtering a concatenation is the concatenation of the filtered parts, so the kept elements stay in order |
| Seqs.Shuffle | src/hooks/useGiveaway.ts:107 | the random order is a permutation of the input (same multiset, same length) and keeps it duplicate-free |
| Seqs.JsSlice | src/hooks/useGiveaway.ts:108 | `slice(0, end)` is the first `end` elements for 0 <= end <= length, the whole list past the end, and all but the last `-end` elements for a negative end |

## Left out

- Randomness: `Shuffle` stands for both `sort(() => 0.5 - Math.random())` and `ORDER BY RAND()`, with the random rolls as a parameter. The distribution is not modelled. The comparator shuffle is not uniform anyway.
- Giveaway.DrawPicks: proves that the picks are distinct eligible participants. It does not prove that every such choice can happen.
- Winner ids, new prize and participant ids, and the per-record clock readings are parameters. The model does not capture that `Date.now()` can repeat within one millisecond; the invariant lemmas for adding take a fresh id as a hypothesis.
- The `setTimeout` delay, the `toast` messages and the `isDrawing` flag are not modelled. The draw's outcome stands for its toast message.
- React's asynchronous state updates and stale closures are not modelled. Each store method acts atomically on the current state.
- Giveaway.GiveawayStore.StartDraw: requires `winnerCount >= 1`, which the hook does not check (see Findings). `Giveaway.Draw` keeps the hook's behaviour for any count.
- JavaScript `parseInt`, `typeof` and truthiness are not modelled.
  - A text form field is `Option<string>`. Missing, null and non-string values are all `None`.
  - The prize quantity is `Option<int>`, with `None` for NaN.
  - `maxLength` is an integer.
  - A phone value that is present but not a string is not modelled. The source has no `typeof` test for the phone. Such a value, for example the number 1234, is tested as the string "1234" and rejected. A `None` phone in the model is accepted.
- Whitespace for `trim` and `\s` is the explicit set in `Validation.IsSpace`: the ASCII whitespace characters, U+00A0, U+1680, U+2000 to U+200A, U+2028, U+2029, U+202F, U+205F, U+3000 and U+FEFF. Characters are Dafny `char`s, and UTF-16 surrogate pairs are not modelled.
- HTTP headers, JSON encoding and decoding, and `exit` are not modelled.
  - The request is its method plus two optional integer fields. A missing body or field is `None`.
  - Non-integer JSON values of `prize_id` and `winner_count` (strings, floats, booleans) are not modelled.
- The `Database` class of `config/database.php` is not part of this model, and neither is the SQL engine. Each query is the function its SQL text describes.
  - A negative `winner_count` reaching `LIMIT` is assumed to raise the database error that the `catch` branch reports. The error's text is not modelled.
  - Any other database failure is not modelled. Integer parameters are assumed to be bound as integers.
- Partial inserts left behind by a failure inside the insert loop are not modelled, since the handler uses no transaction. Neither are concurrent requests. A successful draw commits all its writes.
- Only the table columns the handler reads or writes are modelled.
- DrawEndpoint.SelectPrize: takes the first matching row in table order. Without `ORDER BY`, the database may return any matching row. The rows can differ only if ids repeat, and the primary key rules that out.
- The React components, the PHP pages `index.php` and `draw.php`, and `assets/js/script.js` are not modelled. They render and fetch; the pool filter in the page duplicates the hook's.

## Findings

| source | as written | input that shows it | evidently intended | confidence | as-written member | corrected member |
|---|---|---|---|---|---|---|
| src/hooks/useGiveaway.ts:92-126 | `startDraw` has no lower bound on `winnerCount`. The count input in `src/pages/Index.tsx` (`parseInt(value) \|\| 1`) lets a negative number through. Both checks (`pool.length < count`, `quantity < count`) then pass. `slice(0, count)` keeps all but the last `-count` shuffled participants, and the quantity is increased by `-count`. | prize "3" with quantity 5 and 10 eligible participants, `winnerCount = -3`: 7 winners are recorded and the quantity becomes 8 | a draw needs `winnerCount >= 1`. It records exactly `winnerCount` winners and lowers the quantity by that much. | not executed | Giveaway.NegativeCountInflatesQuantity | Giveaway.GiveawayStore.StartDraw |
