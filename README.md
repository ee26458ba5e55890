# MehMaybeTomorrow: a verified model of the todo and reward core

MehMaybeTomorrow is a todo application with a small game economy. Completing
tasks earns keys. Keys open loot boxes. A box yields a reward (a theme, a badge,
an animation or a feature), drawn by weight. A user may own many rewards and
activate one of each type.

This project models three groups of code in Dafny and proves properties of the
model:

- **The reward economy** (`rewardController.js` and the `Key`, `Reward`,
  `LootBox` and `UserReward` schemas).
  - Modules `KeyModel`, `RewardModel`, `LootBoxModel` and `UserRewardModel` hold
    the documents and the schema validation that creates them.
  - `LootDraw` is the weighted draw. Its loop is proved to compute a
    specification function, and the first-covering-interval distribution is
    proved about that function.
  - `RewardEconomy.RewardStore` is a class over the key, catalog and ownership
    collections, with one method per request handler. Every handler keeps the
    store invariant: non-negative balances, one record per (user, reward) pair,
    and at most one active reward of each type per user.
- **The server todo and user stores** (`todoController.js`, `Todo.js`,
  `userController.js`, `User.js`).
  - `TodoModel`: the todo schema.
  - `TodoHandlers.TodoStore`: the todo collection and its handlers, including the
    day-window queries.
  - `UserModel`: the user schema.
  - `UserHandlers.UserStore`: profile update, password change and account
    deletion.
- **The client list logic** (the pages, components and context under
  `frontend/src`).
  - `ClientTodos`: the shared search predicate, and replace and remove by id.
  - `TodoPage`: filtering, sorting and the drag-and-drop reorder. The reorder is
    done in place on an array, as the page's `splice` calls do.
  - `FinishedPage`, `TagEditing`, `CreateTodoForm`, `TodoItemCard` and
    `RewardsPage`.
  - `RewardContext`: the client key and active-reward state.

Shared helpers:

- `Common`: `Option`, `Result` and the HTTP status codes.
- `Text`: JavaScript's `trim`, `toLowerCase` and `includes`.
- `Seqs`: `filter`, subsequences and reading a collection.
- `Sorting`: an insertion sort, descending by key, proved stable (`Sorting.SortStable`).

Each request handler takes the authenticated user as a parameter. Each handler's
outcome is a `Result` carrying the status code the source sends. A failed
schema validation inside a handler's `try` becomes 500, as in the source.

Some behaviours of the code differ from the description of the system or from
what a reader might expect. The model follows the code in each case:

- `openLootBox` reports `isNew` as `!userReward._id`. That is false on both
  paths, so the model always returns false.
  - When the record already existed, the `reward` of the response is the bare
    id (`RewardRef.Unpopulated`).
  - When the record was just created, the reward is populated.
- `getUserKeys` creates a zero-key record for a user who has none.
- The server stores only the title and description of a new todo. The tags,
  priority and subtasks that the create form sends take the schema defaults
  (`TodoModel.DefaultsOnCreate`).
- The update handler ignores the `tags` that a todo card sends
  (`TodoItemCard.ToggleKeepsStoredTags`).
- `handleDrop` applies indices to the full `todos` array. The page then filters
  and re-sorts that array for display.
- Filters on the rewards page throw on an ownership record whose reward has left
  the catalog. So does the active-reward lookup. Both functions return that
  outcome explicitly.

## Model

| member | source | states |
|---|---|---|
| KeyModel.CreateKey | backend/models/Key.js:4-19 | a key document is created exactly when `user` is given; it keeps that user, and `count` falls back to 0 |
| KeyModel.CountDefaultsToZero | backend/models/Key.js:11-14 | a document created without a count holds zero keys |
| KeyModel.NegativeCountAccepted | backend/models/Key.js:11-14 | the schema has no minimum on `count`, so any integer (negative too) is stored as given |
| RewardModel.ParseRewardType | backend/models/Reward.js:11-15 | only the four listed type strings parse, and each parses to the type whose name it is |
| RewardModel.RewardTypeRoundTrip | backend/models/Reward.js:11-15 | every type's name parses back to that type |
| RewardModel.ParseRarity | backend/models/Reward.js:20-24 | only the five rarity strings parse, each to the tier whose name it is |
| RewardModel.RarityRoundTrip | backend/models/Reward.js:20-24 | every rarity's name parses back to it |
| RewardModel.CreateReward | backend/models/Reward.js:4-36 | validation succeeds exactly when name and description are present and non-empty, a value is given and type and rarity are enum members; the result holds the parsed fields and the optional image |
| RewardModel.CreateRewardRoundTrip | backend/models/Reward.js:4-36 | a reward with a non-empty name and description validates back to itself |
| LootBoxModel.CreateItem | backend/models/LootBox.js:4-16 | an item validates exactly when both paths are present and the weight lies in [0, 100]; the stored item is that reward and weight |
| LootBoxModel.CreateItems | backend/models/LootBox.js:42 | the list validates exactly when every item does; the order and length are kept, and every weight passes its check |
| LootBoxModel.CreateLootBox | backend/models/LootBox.js:18-47 | a box validates exactly when name, description, a known rarity and valid items are present; the stored name, description, rarity, image and items are the given ones; `cost` falls back to 1 |
| LootBoxModel.CreateLootBoxRoundTrip | backend/models/LootBox.js:18-47 | every valid stored box, written back as a document, validates to itself |
| LootBoxModel.EmptyBoxAccepted | backend/models/LootBox.js:42 | a box with no items passes validation |
| UserRewardModel.CreateUserReward | backend/models/UserReward.js:4-28 | created exactly when both references are given; `isActive` defaults to false and `acquiredAt` to now |
| UserRewardModel.DefaultsOnCreate | backend/models/UserReward.js:16-23 | a record created from its two references alone is inactive and acquired now |
| UserRewardModel.OneRecordPerPair | backend/models/UserReward.js:31 | under the unique compound index, two stored records of the same (user, reward) pair are the same record |
| LootDraw.Select | backend/controllers/rewardController.js:160-180 | the drawn position is always inside the item list |
| LootDraw.SelectRewardFromLootBox | backend/controllers/rewardController.js:160-180 | the loop yields no reward exactly for an empty box, and otherwise the reward of the `Draw` specification |
| LootDraw.WalkFromIsFirst | backend/controllers/rewardController.js:170-177 | the loop stops at `k` exactly when `k` is the first position whose running sum reaches the random number |
| LootDraw.FallbackUnreachable | backend/controllers/rewardController.js:179 | for a random number within the total, the loop always returns from inside, so the last-item fallback is never taken |
| LootDraw.SelectIsFirstCovering | backend/controllers/rewardController.js:162-179 | the drawn item is the first whose running sum reaches the random number |
| LootDraw.DrawInRange | backend/controllers/rewardController.js:166 | `Math.random() * total` lies in [0, total] |
| LootDraw.TotalNonNegative | backend/controllers/rewardController.js:162-165 | the total weight of schema-valid items is non-negative |
| LootDraw.PrefixMonotone | backend/controllers/rewardController.js:170-174 | the running sums of schema-valid weights never decrease |
| LootDraw.DrawnIffInInterval | backend/controllers/rewardController.js:160-180 | item `k` is drawn exactly when the random number lies in its interval of the running sums, whose width is its weight |
| LootDraw.ZeroWeightNeverDrawn | backend/controllers/rewardController.js:160-180 | an item of weight 0 after the first position is never drawn |
| LootDraw.AllZeroWeightsDrawFirst | backend/controllers/rewardController.js:160-180 | when all weights are 0 the first item is drawn |
| LootDraw.SingleItemAlwaysDrawn | backend/controllers/rewardController.js:160-180 | a one-item box always yields its item |
| LootDraw.SeventyThirty | backend/controllers/rewardController.js:160-180 | with weights 70 and 30 the first reward is drawn exactly for r <= 70 |
| RewardEconomy.Activated | backend/controllers/rewardController.js:225-247 | activation keeps the key set; the target becomes active, the user's other records of the same type become inactive, and nothing else changes |
| RewardEconomy.ActivatedKeepsInvariant | backend/controllers/rewardController.js:225-247 | activation keeps both the pair index and "at most one active reward of each type per user" |
| RewardEconomy.ActivatedIdempotent | backend/controllers/rewardController.js:204-261 | activating the same reward twice equals activating it once |
| RewardEconomy.ActivatedIsOnlyActiveOfType | backend/controllers/rewardController.js:225-247 | after activation, the target is the user's only active record of its type |
| RewardEconomy.RewardStore.constructor | backend/controllers/rewardController.js:1-4 | a store over the given catalogs starts with no balances and no ownership, and is valid |
| RewardEconomy.RewardStore.GetUserKeys | backend/controllers/rewardController.js:7-30 | returns the balance (0 when missing) and leaves a record for the user, creating only that one |
| RewardEconomy.RewardStore.AddUserKeys | backend/controllers/rewardController.js:33-68 | 400 with nothing changed for a missing or non-positive amount; otherwise the balance grows by exactly the amount and the new balance is returned |
| RewardEconomy.RewardStore.GetLootBoxes | backend/controllers/rewardController.js:71-87 | every box exactly once, by ascending cost |
| RewardEconomy.RewardStore.OpenLootBox | backend/controllers/rewardController.js:90-157 | 404 for an unknown box; 400 when the user cannot afford it; 500 when the draw yields no reward or a reward missing from the catalog; in each error case nothing changes; in every other case the open succeeds: exactly the cost is debited, the drawn reward's record is reused or created inactive, and the invariant holds |
| RewardEconomy.RewardStore.FindOwned | backend/controllers/rewardController.js:185-187 | exactly the user's records (active ones only when asked), populated from the catalog, without repeated rewards |
| RewardEconomy.RewardStore.GetUserRewards | backend/controllers/rewardController.js:183-201 | all of the user's records, populated, without repeats, newest `acquiredAt` first |
| RewardEconomy.RewardStore.GetActiveRewards | backend/controllers/rewardController.js:264-283 | exactly the user's active records, populated, without repeats |
| RewardEconomy.RewardStore.SetActiveReward | backend/controllers/rewardController.js:204-261 | 404 for a reward the user does not own; 500 with nothing changed when it left the catalog; otherwise it succeeds: the records become `Activated` of the old ones, and the populated target is returned |
| TodoModel.ParsePriority | backend/models/Todo.js:34-38 | only "low", "medium" and "high" parse, each to its own priority |
| TodoModel.RequiredTrimmed | backend/models/Todo.js:19-24 | a required trimmed path passes exactly when the trimmed value is non-empty and its length in UTF-16 code units (JavaScript's `length`) is within the limit, and holds that trimmed value |
| TodoModel.WideTitleTooLong | backend/models/Todo.js:23 | a title of 51 characters above U+FFFF is 102 code units long and is rejected |
| TodoModel.OptionalTrimmed | backend/models/Todo.js:25-29 | an optional trimmed path stays missing when missing; otherwise it passes within the limit in UTF-16 code units and holds the trimmed value |
| TodoModel.CreateTags | backend/models/Todo.js:39-45 | tags pass exactly when each trimmed tag has at most 20 UTF-16 code units, and are stored trimmed and in order |
| TodoModel.CreateSubtask | backend/models/Todo.js:4-15 | a subtask needs a non-empty trimmed title of at most 100 UTF-16 code units, and is stored with the trimmed title; `completed` defaults to false |
| TodoModel.CreateSubtasks | backend/models/Todo.js:46 | the list passes exactly when every subtask does, keeping order and length |
| TodoModel.CreatePriority | backend/models/Todo.js:34-38 | the priority passes when missing (becoming Medium) or when it is an enum member |
| TodoModel.CreateTodo | backend/models/Todo.js:17-56 | validation succeeds exactly when every path passes its check; the result is a valid todo owned by the given user, with the trimmed title and description, the validated priority, tags and subtasks, both timestamps `now` and `completed` defaulting to false |
| TodoModel.SubtasksValid | backend/models/Todo.js:4-15 | every validated subtask satisfies the subtask constraints |
| TodoModel.DefaultsOnCreate | backend/controllers/todoController.js:6-13 | a todo created from title, description and owner alone has no tags and no subtasks, Medium priority, and is not completed |
| TodoModel.CreateTodoRoundTrip | backend/models/Todo.js:17-56 | every valid stored todo validates back to itself, so the setters and validators are idempotent |
| TodoHandlers.StartOfDay | backend/controllers/todoController.js:35-43 | the start of the day containing `t`, a multiple of the day length, at most one day before `t` |
| TodoHandlers.WindowsAreCalendarDays | backend/controllers/todoController.js:35-43 | the requested-date window (to 23:59:59.999) and the today window (to the next midnight, exclusive) both select exactly the todos created on the same day |
| TodoHandlers.UpdateFields | backend/controllers/todoController.js:126-133 | the update succeeds exactly when the given title and description validate; given fields take their trimmed values, missing ones keep the old value, `updatedAt` becomes now, nothing else changes, and validity is kept |
| TodoHandlers.EmptyUpdateOnlyTouches | backend/controllers/todoController.js:126-133 | an update with no fields changes only `updatedAt` |
| TodoHandlers.UpdateIdempotent | backend/controllers/todoController.js:126-133 | applying the same update twice equals applying it once |
| TodoHandlers.BlankTitleRejected | backend/models/Todo.js:19-24 | an all-white-space title is rejected by an update |
| TodoHandlers.TodoStore.constructor | backend/models/Todo.js:58 | an empty collection is valid |
| TodoHandlers.TodoStore.CreateTodo | backend/controllers/todoController.js:4-26 | the stored todo is the schema's validation of title, description and owner only, so it holds the trimmed title and description; 500 with nothing stored when validation fails |
| TodoHandlers.TodoStore.FindOwn | backend/controllers/todoController.js:45-55 | exactly the user's todos inside the window, each once, newest first |
| TodoHandlers.TodoStore.GetTodos | backend/controllers/todoController.js:29-69 | 500 exactly for an invalid date; otherwise the user's todos, restricted to the requested day when a date is given, newest first |
| TodoHandlers.TodoStore.GetTodayTodos | backend/controllers/todoController.js:72-102 | exactly the user's todos created today, newest first |
| TodoHandlers.TodoStore.UpdateTodo | backend/controllers/todoController.js:105-146 | 404 for an unknown id; 403 for another user's todo; 500 when validation fails; in each error case nothing changes; otherwise only that todo is replaced by `UpdateFields` |
| TodoHandlers.TodoStore.DeleteTodo | backend/controllers/todoController.js:149-185 | 404 or 403 with nothing changed; otherwise exactly that todo is removed |
| TodoHandlers.TodoStore.DeleteAllOf | backend/controllers/userController.js:108 | exactly the user's todos are removed |
| UserModel.EmailParts | backend/models/User.js:19 | an address matching the pattern splits as `a@b.c` into non-empty parts without white space |
| UserModel.EmailFromParts | backend/models/User.js:19 | every such `a@b.c` matches the pattern |
| UserModel.CreateUsername | backend/models/User.js:6-12 | the username passes exactly when its trimmed form has at least three UTF-16 code units, and is stored trimmed |
| UserModel.CreateEmail | backend/models/User.js:13-20 | the email passes exactly when its trimmed, lower-cased form matches the pattern, and is stored in that form |
| UserModel.CreatePassword | backend/models/User.js:21-25 | the password passes exactly when it has at least eight UTF-16 code units, and is stored untrimmed |
| UserModel.WideCredentialsLongEnough | backend/models/User.js:6-25 | two characters above U+FFFF are a long-enough username and four a long-enough password, since each counts two code units |
| UserModel.CreateUser | backend/models/User.js:4-30 | a user validates exactly when all three paths do; the result is a valid user with the trimmed username, the trimmed lower-case email, the password as given and both timestamps `now` |
| UserModel.ToJson | backend/models/User.js:33-37 | the JSON form has every stored path except the password, with unchanged values |
| UserHandlers.ReplaceKeepsUnique | backend/models/User.js:9-16 | replacing one account with a profile that clashes with no other account keeps usernames and emails unique |
| UserHandlers.UserStore.constructor | backend/models/User.js:39 | an empty collection is valid |
| UserHandlers.UserStore.UpdateProfile | backend/controllers/userController.js:5-52 | 409 when another account has the trimmed username or normalised email; 500 when validation fails; 404 for an unknown requester; in each error case nothing changes; otherwise it succeeds, and only the requester's username, email and `updatedAt` change, uniqueness is kept, and the reply holds no password |
| UserHandlers.UserStore.ChangePassword | backend/controllers/userController.js:55-100 | 404 for an unknown requester; 401 when the current password does not verify; 500 when no new password is given; in each error case nothing changes; otherwise only the password (hashed) and `updatedAt` change |
| UserHandlers.UserStore.DeleteAccount | backend/controllers/userController.js:103-131 | the requester's todos are deleted first; then 404 for an unknown requester, or exactly that account is removed |
| ClientTodos.EmptySearchMatches | frontend/src/pages/TodoPage.jsx:243-245 | the empty search matches every todo |
| ClientTodos.SearchIgnoresTermCase | frontend/src/pages/TodoPage.jsx:243-254 | a search and its lower-cased term match the same todos |
| ClientTodos.UntrimmedTermMatters | frontend/src/pages/TodoPage.jsx:243-254 | the term is trimmed only for the blank test, so " a" does not match the title "a" |
| ClientTodos.ReplaceById | frontend/src/pages/TodoPage.jsx:146-152 | same length; each entry with the updated id becomes the update, the others stay |
| ClientTodos.RemoveById | frontend/src/pages/TodoPage.jsx:154-160 | exactly the entries with other ids remain, in their order, as many as there are such entries |
| ClientTodos.ReplaceKeepsIds | frontend/src/pages/TodoPage.jsx:146-152 | a replacement keeps every position's id |
| ClientTodos.ReplaceIdempotent | frontend/src/pages/TodoPage.jsx:146-152 | replacing twice equals replacing once |
| ClientTodos.ReplaceAbsent | frontend/src/pages/TodoPage.jsx:146-152 | replacing an absent id changes nothing |
| ClientTodos.RemoveAbsent | frontend/src/pages/TodoPage.jsx:154-160 | removing an absent id changes nothing |
| ClientTodos.ReplaceThenRemove | frontend/src/pages/TodoPage.jsx:146-160 | removing after replacing equals removing |
| TodoPage.Visible | frontend/src/pages/TodoPage.jsx:240-282 | the displayed list is a permutation of the filtered todos, sorted by the chosen score, highest first; todos with equal scores keep their list order |
| Sorting.SortStable | frontend/src/pages/TodoPage.jsx:266-282 | `Array.prototype.sort` is stable: for every key value, the elements with that key appear in the sorted list in their input order |
| TodoPage.VisibleContents | frontend/src/pages/TodoPage.jsx:240-265 | a todo is displayed exactly when it passes search, priority and enthusiasm; the filter keeps order |
| TodoPage.NoFilterShowsAll | frontend/src/pages/TodoPage.jsx:240-265 | with no filters set, every todo is displayed |
| TodoPage.PriorityOrder | frontend/src/pages/TodoPage.jsx:268-274 | by priority, a heavier todo comes first (a missing priority counts as medium) |
| TodoPage.ScoreOrder | frontend/src/pages/TodoPage.jsx:266-282 | by enthusiasm, higher enthusiasm comes first (a missing or zero value counts as 2); by date, newest first |
| TodoPage.AddTodo | frontend/src/pages/TodoPage.jsx:134-144 | the new todo is prepended, the form closes, and nothing else changes |
| TodoPage.UpdateTodo | frontend/src/pages/TodoPage.jsx:146-152 | the list is replaced by id with its length kept, and nothing else changes |
| TodoPage.DeleteTodo | frontend/src/pages/TodoPage.jsx:154-160 | exactly the todos with other ids remain, in order, repeats included; the random pick is cleared exactly when it was the deleted todo |
| TodoPage.AddThenDelete | frontend/src/pages/TodoPage.jsx:134-160 | deleting a freshly added todo restores the list |
| TodoPage.ClearFilters | frontend/src/pages/TodoPage.jsx:162-169 | date, tag, priority, enthusiasm and random pick are cleared; every other part of the page state stays |
| TodoPage.ClearFiltersIdempotent | frontend/src/pages/TodoPage.jsx:162-169 | clearing twice equals clearing once, and afterwards only the search filters |
| TodoPage.SpliceOut | frontend/src/pages/TodoPage.jsx:231 | `splice(i, 1)` shifts the later elements down by one |
| TodoPage.SpliceIn | frontend/src/pages/TodoPage.jsx:233 | `splice(j, 0, x)` puts `x` at `j` and shifts the later elements up |
| TodoPage.SpliceOutMultiset | frontend/src/pages/TodoPage.jsx:231 | removal takes out exactly that element |
| TodoPage.SpliceInMultiset | frontend/src/pages/TodoPage.jsx:233 | insertion adds exactly that element |
| TodoPage.MovedIsPermutation | frontend/src/pages/TodoPage.jsx:227-233 | the reorder is a permutation, and it puts the dragged todo at the drop index |
| TodoPage.MovedKeepsOthers | frontend/src/pages/TodoPage.jsx:227-233 | apart from the moved todo, the others keep their relative order |
| TodoPage.MovedBack | frontend/src/pages/TodoPage.jsx:227-233 | dragging back from the drop index restores the list |
| TodoPage.SpliceOutInPlace | frontend/src/pages/TodoPage.jsx:231 | the in-place removal leaves the array's first n-1 cells equal to `SpliceOut` of the old contents |
| TodoPage.SpliceInInPlace | frontend/src/pages/TodoPage.jsx:233 | the in-place insertion leaves the array equal to `SpliceIn` of the old first n-1 cells |
| TodoPage.HandleDrop | frontend/src/pages/TodoPage.jsx:219-237 | returns the page unchanged when nothing is dragged or it is dropped in place; otherwise the list becomes `Moved(todos, dragged, drop)` and the drag is cleared |
| FinishedPage.UpdateTodo | frontend/src/pages/FinishedPage.jsx:60-73 | an unchecked task leaves the list, and exactly the others stay, in order and each entry kept; a completed one replaces its entries in place with the length kept |
| FinishedPage.UncheckThenDelete | frontend/src/pages/FinishedPage.jsx:60-77 | deleting after unchecking equals deleting |
| FinishedPage.DeleteTodo | frontend/src/pages/FinishedPage.jsx:75-77 | exactly the tasks with other ids remain, in order, as many as there are such entries |
| FinishedPage.ClearFilters | frontend/src/pages/FinishedPage.jsx:79-82 | only the date and tag selections are reset |
| FinishedPage.FilteredTasks | frontend/src/pages/FinishedPage.jsx:85-100 | exactly the tasks matching the search, as a subsequence, each match kept |
| FinishedPage.BlankSearchShowsAll | frontend/src/pages/FinishedPage.jsx:86-88 | a blank search returns the whole list |
| TagEditing.AddTag | frontend/src/components/CreateTodo.jsx:16-21 | the trimmed input is appended exactly when it is non-empty and absent, and the input is cleared only then; otherwise nothing changes; no duplicates arise; the todo card's handler (TodoItem.jsx:13-18) is the same edit |
| TagEditing.RemoveTag | frontend/src/components/CreateTodo.jsx:23-25 | the tag is gone, every other tag stays in order, no duplicates arise, and one entry goes per copy of the tag; the todo card's handler (TodoItem.jsx:20-22) is the same edit |
| TagEditing.SelectExistingTag | frontend/src/components/CreateTodo.jsx:27-31 | the tag is present afterwards, the old tags are a prefix, and nothing else is added; the todo card's handler (TodoItem.jsx:24-28) is the same edit |
| TagEditing.SelectIdempotent | frontend/src/components/CreateTodo.jsx:27-31 | selecting twice equals selecting once |
| TagEditing.SelectThenRemove | frontend/src/components/CreateTodo.jsx:23-31 | removing a just-selected tag equals removing it |
| TagEditing.Suggestions | frontend/src/components/CreateTodo.jsx:272-273 | the suggestions are exactly the available tags not yet on the todo, in the available order and each kept; the todo card (TodoItem.jsx:151-152) filters its suggestions the same way |
| TagEditing.PickSuggestion | frontend/src/components/CreateTodo.jsx:272-278 | picking a suggestion appends exactly it, and it is no longer suggested |
| CreateTodoForm.Blank | frontend/src/components/CreateTodo.jsx:6-12 | the form starts empty with Medium priority |
| CreateTodoForm.AddSubtask | frontend/src/components/CreateTodo.jsx:34-44 | a non-blank input appends a new, uncompleted subtask with the trimmed title and clears the input; a blank input changes nothing; titles stay trimmed and non-empty |
| CreateTodoForm.RemoveSubtask | frontend/src/components/CreateTodo.jsx:47-49 | every draft with that id goes, and every other draft stays, in order, repeats included |
| CreateTodoForm.AddThenRemoveSubtask | frontend/src/components/CreateTodo.jsx:34-49 | removing a freshly added subtask restores the drafts |
| CreateTodoForm.Submit | frontend/src/components/CreateTodo.jsx:51-75 | on success the created todo is reported and the form resets, except for the two text inputs; on failure the form is unchanged |
| TodoItemCard.Init | frontend/src/components/TodoItem.jsx:7-11 | the card copies the todo's fields; a missing description becomes "" |
| TodoItemCard.ToggleBody | frontend/src/components/TodoItem.jsx:49-59 | the request carries the card's fields with `completed` negated |
| TodoItemCard.ToggleComplete | frontend/src/components/TodoItem.jsx:47-67 | only on success does the card flip `completed` and report the server's todo; a failure changes nothing |
| TodoItemCard.ToggleTwice | frontend/src/components/TodoItem.jsx:47-67 | two successful toggles restore the card |
| TodoItemCard.ToggleKeepsStoredTags | backend/controllers/todoController.js:126-133 | the server stores the toggled flag, but never the tags a toggle sends |
| RewardsPage.FilteredRewards | frontend/src/pages/RewardsPage.jsx:47-52 | the filter throws exactly when a record without a reward meets a set filter; otherwise the result is the order-preserving subsequence of every record with the selected type and rarity |
| RewardsPage.ClearFilters | frontend/src/pages/RewardsPage.jsx:41-44 | both selections reset |
| RewardsPage.ClearedShowsAll | frontend/src/pages/RewardsPage.jsx:41-52 | after clearing, the whole list is shown in order |
| RewardsPage.CatalogRecordsNeverThrow | frontend/src/pages/RewardsPage.jsx:47-52 | records populated from a catalog that holds their rewards never make the filter throw |
| RewardContext.StopIndex | frontend/src/contexts/RewardContext.jsx:104 | `find` stops at the first record that is not another type with a reward, or at the end |
| RewardContext.ActiveRewardByType | frontend/src/contexts/RewardContext.jsx:103-106 | `null` exactly when every active entry has a reward of another type; a found reward has the requested type and belongs to the first such entry; it throws exactly when the first entry not passed over has lost its reward |
| RewardContext.PopulatedLookup | frontend/src/contexts/RewardContext.jsx:103-106 | when every entry has its reward, the lookup never throws and is `null` exactly when no active reward has the type |
| RewardContext.RewardState.constructor | frontend/src/contexts/RewardContext.jsx:14-46 | mounting takes the fetched count and list; a thrown key request skips the list request |
| RewardContext.RewardState.UpdateKeys | frontend/src/contexts/RewardContext.jsx:49-64 | nothing changes without `forceRefresh`; otherwise a successful answer replaces the count |
| RewardContext.RewardState.AddKeys | frontend/src/contexts/RewardContext.jsx:67-84 | the result is true exactly on a successful answer, and only then is the count replaced by the server's |
| RewardContext.RewardState.RefreshActiveRewards | frontend/src/contexts/RewardContext.jsx:87-100 | a successful answer replaces the list; otherwise it is kept |

## Left out

- HTTP routing, cookies, JSON encoding and React rendering are not modelled. Neither are the authentication middleware and `authController.js`. Each handler receives the authenticated user id.
- Password hashing and verification (argon2) are parameters of `ChangePassword`: `hash` and `verify`.
- `Date.now()`, `new Date()` and `Math.random()` are parameters: `now` and `u`.
- Network requests on the client are parameters. Each answer is a `Fetch`/`Option` value: one that threw, one without `success`, or data.
- Local time zones and daylight saving time are not modelled: days are UTC days of 86400000 ms (`TodoHandlers.StartOfDay`).
- Concurrency and transactions are not modelled. Each handler runs atomically, and a failure part-way through leaves no partial write. For example, `openLootBox` debits and creates only after every check passes.
- Malformed MongoDB ObjectIds (a CastError, answered with 500) are not modelled. Ids are natural numbers, and an unknown id is just absent.
- Loot box weights are mathematical reals. JavaScript's floating-point rounding of the sums is not modelled.
- RewardEconomy.RewardStore.AddUserKeys: the amount is an `Option<int>`, so a non-number amount, JavaScript's `<= 0` coercions and a fractional amount are not modelled. A fraction such as 0.5 passes the guard at backend/controllers/rewardController.js:37 and would be added to the balance.
- UserHandlers.UserStore.ChangePassword: `currentPassword` is a `string`, so the request without one is not modelled. There `argon2.verify` (backend/controllers/userController.js:70) throws, and the handler answers 500 (line 95), not 401.
- UserModel.ToJson: the version key `__v` that `toObject` adds (backend/models/User.js:34) is not among the modelled paths, so the JSON form also lacks it.
- Explicit `null` fields in update bodies are not modelled. A field is either absent (left unchanged) or a string.
- `updateProfile` treats username and email as always present. A missing field in that request is not modelled.
- `RewardEconomy.RewardStore`: the `Key` collection has no unique index on `user`, but the model holds at most one balance per user (a map). Duplicate key records are not modelled.
- `RewardEconomy.RewardStore`: the reward and loot box catalogs are constants. The admin or seed scripts that write them are not modelled.
- `RewardEconomy.RewardStore.OpenLootBox`: an empty `items` list makes the source read `items[-1].reward` and throw. The model answers this with 500 and changes nothing, as the source's catch does.
- `UserHandlers.UserStore.Valid`: it does not keep the eight-character minimum on `password`, because stored passwords are hashes written by `ChangePassword`.
- `UserHandlers.UserStore.DeleteAccount` deletes a user's todos and account, but not their key balance or ownership records. The source does not delete those either.
- `TodoPage`: the drag start and drag over handlers only set `draggedItemIndex` or call `preventDefault`, and are not modelled. So are the random pick (`Math.random`), the tag fetch after add and update, and the date and tag selection (sent to the server, not filtered on the client).
- `FinishedPage`: fetching the finished tasks is not modelled. So is the server side of its date and tag filters.
- `TodoItemCard`: `handleUpdate` and `handleDelete` send requests whose results are handled by the pages (`TodoPage.UpdateTodo`, `TodoPage.DeleteTodo`), and are not modelled separately. Edit mode and locale date formatting are left out.
- `CreateTodoForm`: the subtask id is a parameter, standing for `Date.now().toString()`. Two drafts added in the same millisecond share an id, and `RemoveSubtask` removes both.
- `RewardsPage`: the type and rarity drop-downs are modelled as the enum values or "All". A filter string outside the enums is impossible through the drop-downs.
- Strings are sequences of Unicode scalar values. Schema lengths are measured in UTF-16 code units (`Text.Utf16Length`), as JavaScript does. A lone surrogate, which a JavaScript string may hold, cannot be represented.
- `Text.Lower` folds ASCII letters only. The full Unicode case mapping of `toLowerCase` is not modelled.
