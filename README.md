# A verified model of the FitTrack app's core

FitTrack is a React Native app. A user signs in against a local account
table and logs what they eat in the day's meals. The home screen shows the
day's protein, carbohydrate and calorie totals. The map screen keeps a set
of favourite places, in a per-user cache on the device and in a remote
`favorite_places` table.

This Dafny project models the parts of the app that make decisions or
change stored state. It covers:

- today's meal ledger (`Home.tsx`): its storage key, loading and saving,
  the totals folded from the food catalog, the reset, and the add-food
  selection together with `handleAdd`;
- the one-line meal summary (`joinAndTruncate` and the item labels);
- favourites sync (`favorites.ts`): cache, remote table, authentication,
  optimistic writes and their rollbacks;
- the map screen's optimistic favourite toggle (`Map.tsx`);
- the login and register screens' account table (`App.tsx`).

Modules follow the program:

- `Text`: what `trim`, `toLowerCase`, `String(n)`, `padStart`, `join` and
  `slice` do in JavaScript.
- `Store`: device storage items that parse or do not.
- `Catalog`: `SAMPLE_FOODS` and the glycemic colours.
- `Ledger`: a day's record, its totals and the `MealStorage` class.
- `Selection`: the add-food counter.
- `Home`: the `HomeScreen` class and `HandleAdd`.
- `MealView`: the meal summaries.
- `Favorites`: the `FavoritesSync` class.
- `MapScreen`: the `MapScreen` class.
- `Accounts`: the login and register decisions and the `AccountStore` class.

Modelling choices:

- Grams are integer tenths and calories whole kilocalories. Every catalog
  value has at most one decimal.
- A day's record keeps its meals in the order they were first inserted.
  JavaScript uses that order for string keys that are not integer-like,
  which covers every meal name the screens pass (`Café da manhã`,
  `Refeição` and the like). Integer-like keys come first in JavaScript;
  the model does not reorder them.
- The selection's keys are integers, so JavaScript visits them in
  ascending order.
- Everything outside the app is a parameter:
  - the device clock is a `CalendarDay`, one per reading (`handleAdd`
    reads it twice);
  - the ending of each remote call is an `Outcome`;
  - the signed-in user is `authUser`;
  - a `removeItem` that throws is the flag `removeFails`;
  - a `setItem('lastLoggedUser', …)` that throws is the flag `lastUserFails`.

## Model

| member | source | states |
|---|---|---|
| Text.TrimStart | App.tsx:44 | only whitespace is dropped from the front, and what remains does not start with whitespace |
| Text.TrimEnd | App.tsx:44 | only whitespace is dropped from the back, and what remains does not end with whitespace |
| Text.Trim | App.tsx:44 | `trim()` is `TrimStart` then `TrimEnd`, so whitespace goes from both ends and nothing else |
| Text.Normalize | App.tsx:115 | the account key: the trimmed e-mail lower-cased |
| Text.TrimIgnoresPadding | App.tsx:49 | whitespace around a string never survives `trim` |
| Text.ToLower | App.tsx:49 | length is kept and each character is lower-cased on its own |
| Text.TrimLowerCommute | App.tsx:115 | `trim` and `toLowerCase` can be applied in either order |
| Text.NormalizeIgnoresCaseAndPadding | App.tsx:115 | spellings that differ only in letter case and surrounding whitespace normalise to the same account key |
| Text.DecimalString | Home.tsx:59-60 | `String(n)` is a non-empty run of digits without a leading zero, one digit exactly below 10 |
| Text.DecimalRoundTrip | Home.tsx:162 | reading back the digits of `String(n)` gives `n` |
| Text.PadStart2 | Home.tsx:59-60 | a short string gets leading zeros up to two characters; a longer one is kept |
| Text.Join | Home.tsx:150 | `names.join(sep)`: empty for no names, the name itself for one; its content is stated by `Text.JoinSnoc` |
| Text.JoinSnoc | Home.tsx:150 | joining one more name appends the separator and that name, so the text is the names in order with a separator between each two neighbours |
| Text.JoinLength | Home.tsx:150 | the joined text's length is the names' lengths plus one separator's length between each two neighbours |
| Text.SliceTo | Home.tsx:152 | `slice(0, end)` is a prefix: exactly `end` characters when in range, counted back from the end when `end` is negative |
| Store.Read | Home.tsx:64-73 | a missing or unparsable item reads as the empty value, a parsable one as its content |
| Store.ReadAfterWrite | Home.tsx:75-81 | an item written reads back as written, and other items read as before |
| Catalog.Find | Home.tsx:126 | `find` answers a row of the catalog with the id asked for, and nothing only when no row has it |
| Catalog.FindFirst | Home.tsx:126 | `find` answers the first row carrying the id: the row at `k` when no earlier row carries it |
| Catalog.SampleIds | Home.tsx:30-53 | the catalog has 22 rows numbered 1 to 22 in order |
| Catalog.FindSample | Home.tsx:30-53 | an id is in the catalog exactly when it lies in 1..22, and it names row `id - 1` |
| Catalog.FindApple | Home.tsx:35 | id 5 is the apple with 0.3 g protein, 14 g carbohydrate and 52 kcal |
| Catalog.GlycemicColor | Home.tsx:84-93 | the colour is that level's own colour when the level has one, otherwise grey |
| Catalog.GlycemicTextColor | Home.tsx:94-97 | the text colour is dark exactly for the medium level and white for every other |
| Catalog.DarkTextOnYellowOnly | Home.tsx:94-97 | the badge text is dark exactly on the yellow badge of the medium level |
| Catalog.SampleLevelsAreColoured | Home.tsx:30-53 | no catalog food falls back to the grey badge |
| Ledger.IndexOf | Home.tsx:296 | the slot of a meal is the first one carrying its name, and -1 only when none does |
| Ledger.Lookup | Home.tsx:296 | `day[meal] ?? []`: the list of the meal's slot, empty when there is none; stated by `Ledger.LookupPut` |
| Ledger.Put | Home.tsx:297 | `day[meal] = items`: an existing meal keeps its place, a new one goes last, and every other slot keeps its meal |
| Ledger.LookupPut | Home.tsx:296-297 | assigning a meal's list replaces that meal's list only and keeps one slot per meal |
| Ledger.ItemMacros | Home.tsx:126-131 | one item's contribution: nothing for an unknown id, else each macro (0 when missing) times `qty ?? 1`; see `Ledger.UnknownItemIsZero` |
| Ledger.DayMacros | Home.tsx:125-131 | the reference sum over every slot and item that `Ledger.ComputeTotals` is proved to compute |
| Ledger.ItemsMacrosAppend | Home.tsx:125-132 | a meal's total splits over the two halves of its list |
| Ledger.DayMacrosAppend | Home.tsx:125-132 | the day's total splits over the two halves of its slots |
| Ledger.SlotOrderIrrelevant | Home.tsx:125 | any rearrangement of the day's slots gives the same totals |
| Ledger.ItemOrderIrrelevant | Home.tsx:125 | any rearrangement of a meal's items gives the same totals |
| Ledger.UnknownItemIsZero | Home.tsx:126-127 | an item whose id is not in the catalog adds nothing |
| Ledger.UnknownItemSkipped | Home.tsx:126-127 | an unknown item inside a meal leaves the other items' sum as it is |
| Ledger.AddToMeal | Home.tsx:295-297 | `existing[meal] = [...currentList, ...items]`; stated by `Ledger.AddToMealLookup` and `Ledger.AddToMealTotals` |
| Ledger.AddToMealLookup | Home.tsx:295-297 | adding appends to that meal's list, keeps every other meal's list and keeps one slot per meal |
| Ledger.DayMacrosUpdate | Home.tsx:297 | replacing one slot moves the totals by the difference between the two slots |
| Ledger.AddToMealTotals | Home.tsx:295-298 | an addition raises the day's totals by exactly the added items' contribution |
| Ledger.AdditionsCommute | Home.tsx:295-298 | two additions give the same totals in either order |
| Ledger.ComputeTotals | Home.tsx:123-132 | the loop's three accumulators end equal to the day's totals |
| Ledger.AccumulateSlot | Home.tsx:125-132 | the inner loop adds exactly one meal's total to the accumulators |
| Ledger.RoundingIsExact | Home.tsx:133-135 | the rounding to one decimal and to whole kcal changes no total |
| Ledger.ApplesAtBreakfast | Home.tsx:128-131 | `n` apples at breakfast add n times the apple's protein, carbohydrate and calories |
| Ledger.TodayKey | Home.tsx:55-62 | the key starts with `meals_`, and for a valid date its length is 12 plus the year's digits |
| Ledger.TwoDigitsRoundTrip | Home.tsx:59-60 | a month or day below 100 is written as two digits that read back as itself |
| Ledger.KeyParts | Home.tsx:61 | the year, the month and the day can each be found at fixed places in the key |
| Ledger.TodayKeyInjective | Home.tsx:56-62 | different dates get different keys, so one day's ledger never overwrites another's |
| Ledger.MealStorage.LoadMealsForToday | Home.tsx:64-73 | what is loaded has one slot per meal whenever the storage holds well-formed records |
| Ledger.MealStorage.SaveMealsForToday | Home.tsx:75-81 | only today's key changes, and loading it back gives what was saved |
| Ledger.MealStorage.RemoveItem | Home.tsx:180 | only the given key is removed |
| Selection.Inc | Home.tsx:274 | one more portion of `id`, every other count kept |
| Selection.Dec | Home.tsx:275-283 | one portion less; a count that would reach zero is deleted, others are kept |
| Selection.IncKeepsPositive | Home.tsx:274 | `inc` keeps every count at least one |
| Selection.DecKeepsPositive | Home.tsx:275-283 | `dec` keeps every count at least one |
| Selection.DecUndoesInc | Home.tsx:274-283 | `dec` undoes `inc` |
| Selection.MinKey | Home.tsx:285 | the first key JavaScript visits is the smallest selected id |
| Selection.Total | Home.tsx:285 | `totalSelected`: the counts summed, smallest id first; stated by `Selection.TotalDelete` and the lemmas after it |
| Selection.TotalDelete | Home.tsx:285 | the sum of counts does not depend on the order: any one count can be taken out first |
| Selection.TotalUpdate | Home.tsx:285 | setting one count moves the total by the difference |
| Selection.TotalInc | Home.tsx:274-285 | `inc` raises `totalSelected` by one |
| Selection.TotalDec | Home.tsx:275-285 | `dec` lowers `totalSelected` by one when the id is selected and leaves it alone otherwise |
| Selection.TotalZeroIffEmpty | Home.tsx:285-288 | with every count at least one, the total is at least the number of ids, and zero exactly when nothing is selected |
| Selection.SelectionItems | Home.tsx:289-293 | one item per selected id in ascending id order, each carrying its id, its count and its catalog name or 'Item' |
| Selection.SelectionItemsCover | Home.tsx:289-293 | every selected id gets an item |
| Selection.ItemFor | Home.tsx:290-292 | the item has the id and its count, the catalog name when the id is known and 'Item' otherwise |
| Home.HomeScreen.constructor | Home.tsx:117-120 | the screen starts with an empty ledger and zero totals |
| Home.HomeScreen.LoadAndCompute | Home.tsx:138-142 | the screen shows today's stored ledger and the totals of exactly that ledger |
| Home.HomeScreen.ResetMeals | Home.tsx:178-189 | after a removal today's key is gone, the ledger reads as empty and the totals are zero; when the removal throws nothing changes |
| Home.RouteMeal | Home.tsx:270 | the meal is the route's parameter, 'Refeição' when it has none |
| Home.HandleAdd | Home.tsx:287-298 | nothing is written while no portion is selected; otherwise the ledger read under the first clock reading, with the selection appended to the route's meal, is saved under the second reading's key |
| Home.AddAcrossMidnight | Home.tsx:66-77 | when the two clock readings fall on different days, the save leaves the first day's record untouched |
| Home.AddSelectionEffect | Home.tsx:289-298 | an add grows the meal's list by the selection's items, keeps every other meal, and raises the totals by the selection's contribution |
| Home.AddHappensIffSelected | Home.tsx:285-288 | an add happens exactly when some portion is selected |
| MealView.JoinAndTruncate | Home.tsx:149-153 | the joined names when they fit; otherwise a prefix of them followed by '...', exactly `maxChars` long when `maxChars` is at least 3 |
| MealView.TruncateBound | Home.tsx:149-153 | with a limit of at least 3 the result never exceeds it, and the text is cut only when it is too long |
| MealView.DisplayName | Home.tsx:160-161 | the catalog name when the id is in the catalog, the stored name otherwise |
| MealView.MealLabel | Home.tsx:159-163 | the label starts with the catalog name or the stored name, and ends with ' x' and the quantity exactly when the quantity exceeds one |
| MealView.LabelQuantityRoundTrip | Home.tsx:162 | the quantity can be read back from the label that shows it |
| MealView.Labels | Home.tsx:159-163 | one label per item, in order |
| MealView.MealSummary | Home.tsx:155-170 | a meal with no items shows the placeholder; any other shows at most 36 characters, the full joined labels when they fit |
| Favorites.CacheKey | favorites.ts:52 | the cache key is the prefix followed by the user id |
| Favorites.CacheKeyInjective | favorites.ts:50-67 | each user has a cache key of their own |
| Favorites.Payload | favorites.ts:130-138 | the upserted row belongs to the user and the place |
| Favorites.RowsOf | favorites.ts:106-109 | exactly the user's rows: each row of that user as often as the table holds it, and no other row |
| Favorites.ServerIds | favorites.ts:81-91 | the place ids of exactly the user's rows |
| Favorites.Upsert | favorites.ts:140-142 | the row holding the pair is overwritten, otherwise the payload is added; stated by `Favorites.UpsertEffect` |
| Favorites.DeleteRows | favorites.ts:167-171 | every row of the pair is dropped; stated by `Favorites.DeleteEffect` |
| Favorites.UniqueCount | favorites.ts:140-142 | under the unique constraint a pair is held by at most one row |
| Favorites.UpsertEffect | favorites.ts:140-142 | after an upsert exactly one row holds the pair, it is the payload, the constraint still holds, the user gains that id, and other users keep their rows |
| Favorites.DeleteEffect | favorites.ts:167-171 | after a delete no row holds the pair, the constraint still holds, the user loses exactly that id, and other users keep their rows |
| Favorites.UpsertKeepsUnique | favorites.ts:140-142 | an upsert keeps the unique constraint and leaves exactly one row, the payload, for its pair |
| Favorites.UpsertIds | favorites.ts:140-142 | an upsert adds its place to its own user's ids and leaves other users' rows alone |
| Favorites.DeleteKeepsUnique | favorites.ts:167-171 | a delete keeps the unique constraint and leaves no row for its pair |
| Favorites.DeleteIds | favorites.ts:167-171 | under the constraint a delete takes exactly its place from its user's ids and leaves other users' rows alone |
| Favorites.DeletedGone | favorites.ts:167-171 | a pair no row holds is not among the user's ids |
| Favorites.FavoritesSync.constructor | favorites.ts:44-47 | the sync starts with an empty cache and table under the given session |
| Favorites.FavoritesSync.ActiveUser | favorites.ts:44-47 | a user counts as signed in exactly when the session has a non-empty id |
| Favorites.FavoritesSync.LoadFavoritesCache | favorites.ts:50-59 | the user's cached set, empty when the item is missing or unparsable |
| Favorites.FavoritesSync.SaveFavoritesCache | favorites.ts:61-67 | only this user's cache changes and reads back as saved |
| Favorites.FavoritesSync.IdsAnswer | favorites.ts:70-95 | signed out: empty; server error: the cache; otherwise the server's ids |
| Favorites.FavoritesSync.FetchFavoriteIds | favorites.ts:70-95 | answers as `IdsAnswer` does; a server answer overwrites the user's cache, and in every other case the cache is left alone |
| Favorites.FavoritesSync.FetchFavoriteRows | favorites.ts:98-117 | the user's rows on success, none when signed out or on an error |
| Favorites.FavoritesSync.AddFavorite | favorites.ts:120-154 | refused without a user; otherwise the id is cached and the row upserted; on an error the row is not written and the id is deleted from the cache again, so the user's cache is back to its value before the call exactly when the place was not in it; the result is ok exactly on success |
| Favorites.FavoritesSync.RemoveFavorite | favorites.ts:156-182 | refused without a user; otherwise the id leaves the cache and its row is deleted; on an error the table is kept and the id is cached again, so the user's cache is back to its value before the call exactly when the place was in it; the result is ok exactly on success |
| Favorites.FavoritesSync.ToggleFavorite | favorites.ts:185-190 | a remove when the caller believes the place is a favourite, an add otherwise |
| Favorites.AddRollbackExact | favorites.ts:146-148 | on sets: adding then deleting an id gives the set back exactly when the id was not in it (used by `Favorites.FavoritesSync.AddFavorite`) |
| Favorites.RemoveRollbackExact | favorites.ts:174-176 | on sets: deleting then adding an id gives the set back exactly when the id was in it (used by `Favorites.FavoritesSync.RemoveFavorite`) |
| MapScreen.Flip | Map.tsx:109-114 | the place's membership is flipped and every other id's is kept |
| MapScreen.FlipTwice | Map.tsx:109-124 | flipping twice gives the set back |
| MapScreen.RevertRestores | Map.tsx:118-124 | the revert undoes the optimistic flip whichever way it went |
| MapScreen.MapScreen.constructor | Map.tsx:72-73 | the screen starts with no favourites and no busy place |
| MapScreen.MapScreen.LoadFavorites | Map.tsx:87-101 | the screen shows the ids `fetchFavoriteIds` answers and says whether anyone is signed in; a server answer overwrites the user's cache, otherwise the cache is kept |
| MapScreen.MapScreen.BeginToggle | Map.tsx:104-114 | the place is marked busy and its membership flipped |
| MapScreen.MapScreen.FinishToggle | Map.tsx:118-134 | a failure reverts the flip, and the place is no longer busy |
| MapScreen.MapScreen.OnToggleFavorite | Map.tsx:103-135 | a success leaves the membership flipped and a failure as it was; the place ends not busy; a screen that agreed with the cache or the server agrees with it afterwards |
| Accounts.EmailShapeIffPattern | App.tsx:120 | that character test accepts exactly the strings `^[^\s@]+@[^\s@]+\.[^\s@]+$` matches |
| Accounts.HasAccount | App.tsx:50 | `users[e]` is truthy: the key is present with a non-empty password |
| Accounts.EmailShape | App.tsx:120 | the character test equivalent to the pattern, by `Accounts.EmailShapeIffPattern` |
| Accounts.LoginDecision | App.tsx:43-59 | a login succeeds exactly when both fields are filled and the stored password of the normalised e-mail is the one typed, signing in the trimmed e-mail; empty fields, unknown account and wrong password are told apart |
| Accounts.RegisterDecision | App.tsx:114-136 | a registration succeeds exactly when both fields are filled, the normalised e-mail matches the pattern and has no account; the guards apply in that order |
| Accounts.AfterRegister | App.tsx:125-131 | the table after a registration: one new entry on success, the same table otherwise |
| Accounts.RegisterRefusedKeepsTable | App.tsx:114-129 | a refused registration, an existing account in particular, leaves the table as it was |
| Accounts.RegisterAddsItsEntry | App.tsx:130-131 | a successful registration adds the normalised e-mail with its password, for an e-mail that had no account |
| Accounts.RegisterKeepsOtherEntries | App.tsx:130-131 | a registration changes no other entry |
| Accounts.RegisterThenLogin | App.tsx:43-136 | after registering, logging in with any spelling of the same normalised e-mail and the same password succeeds |
| Accounts.RegisterThenWrongPassword | App.tsx:54-57 | after registering, any other non-empty password is refused as wrong |
| Accounts.LoginIgnoresCaseAndPadding | App.tsx:49 | the login address may differ from the registered one in letter case and surrounding whitespace |
| Accounts.AccountStore.constructor | App.tsx:20-37 | the store holds the given storage items |
| Accounts.AccountStore.GetUsers | App.tsx:20-29 | the stored table, or the empty one when the item is missing, empty or unparsable |
| Accounts.AccountStore.SaveUsers | App.tsx:31-37 | only the 'users' item changes, and it reads back as saved |
| Accounts.AccountStore.HandleLogin | App.tsx:43-59 | answers the login decision and never writes the table; a success records the trimmed but not lower-cased e-mail as the last user and navigates, unless that write throws, which stops the handler |
| Accounts.AccountStore.HandleRegister | App.tsx:114-136 | answers the register decision; on success it saves the table with the new entry, then records the normalised e-mail as the last user and navigates, unless that write throws, which stops the handler with the account saved; a refusal writes nothing |

## Left out

- Toasts, alerts, navigation and rendering are left out because they only display results. The strings the handlers choose are kept where it matters: the refusal reasons, the reply messages and the meal placeholder.
- Integer-like meal names (such as `"2"`) would come first, in ascending order, when JavaScript enumerates a day's record. The model keeps insertion order for every meal name, which agrees with JavaScript for the names the screens use.
- Text.ToLower: lower-cases ASCII letters only. JavaScript's full Unicode case mapping (accented capitals, for example) is not modelled.
- Text: strings are sequences of code points, while JavaScript counts UTF-16 code units. `length` and `slice` in `joinAndTruncate` therefore differ for characters outside the Basic Multilingual Plane.
- Floating point is not modelled. Catalog grams have one decimal and are kept as exact tenths. `Math.round` is modelled in the sense of `Ledger.RoundingIsExact`: on those values it is the identity.
- JSON encoding is not modelled. A storage item either parses to the expected shape or does not. An item that parses to a different shape (`null`, an array, wrong field types) is not modelled.
- Failed storage writes are left out: the source catches them and carries on (`saveMealsForToday`, `saveUsers`, `saveFavoritesCache`). Two failures have visible effect, and the model keeps both. A `removeItem` that throws during reset is caught (Home.tsx:186); the ledger and the totals are then not cleared. A `setItem('lastLoggedUser', …)` that throws in the login or register handler is not caught and stops the handler.
- The session lookup (`safeGetAuthUserId`) is the field `authUser`. Its error path reads as no user.
- Every remote call is decided by an `Outcome` parameter.
- `fetchFavoriteRows` orders rows by `created_at`, newest first. The model keeps table order and has no `id` or `created_at` column.
- Concurrency is left out: overlapping asynchronous toggles, React state batching, and the focus listener racing a save. Each operation runs to completion on its own.
- Catalog.GlycemicColor: looks up only the table's own four levels. In the source, `GLYCEMIC_COLORS[level]` also finds keys inherited from `Object.prototype`, so a level such as `constructor` yields that inherited value instead of grey. No catalog food carries such a level.
- Accounts.HasAccount: reads only the table's own entries. In the source, a key such as `constructor` is inherited from `Object.prototype` and reads as truthy, so a login as `constructor` is refused as a wrong password rather than as an unknown account.
- `userEmail` on the home screen, the search filter of the add-food screen, and the `description`, `rating`, `distance`, `hours`, `phone` and `diabeticFriendly` fields are left out: they are only displayed.
- The test-credentials button of the login screen fills the two fields and calls nothing, so it is left out.
- The remaining screens (`Diagnostico.tsx`, `Profile.tsx`, `FavoritePlaces.tsx`) are not part of this model.
- The device clock is an input, a `CalendarDay`. Dates with years below zero are not modelled.
- Selection: selection keys are natural numbers, since they are catalog ids.
