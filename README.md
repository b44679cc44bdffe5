# FastAPI tutorial backends, modelled in Dafny

This project models the server side of eight small FastAPI backends. Each backend keeps its
data in a module-level list or dictionary, in a JSON file, or in two SQLite tables:

- `todo.dfy` (`TodoApi`): the to-do list of task1. A `TodoList` class holds the list. Its
  methods append an item, flip a flag or rename the first item with an id, remove that item,
  and clear the completed items.
- `blog.dfy` (`BlogApi`): the read-only blog of task2. The three shipped posts are listed
  without their bodies and looked up by slug.
- `shortener.dfy` (`UrlShortener`): the URL shortener of task4. A `UrlDb` class holds the
  code-to-entry dictionary. It covers custom or regenerated codes, redirects that count
  clicks and expire after seven days, and read-only statistics.
- `polls.dfy` (`Polls`): the polls of task5. A `PollStore` class holds the list of polls.
  It covers the latest poll, creation with at least two option texts, and votes.
- `guestbook.dfy` (`Guestbook`): the guestbook of task7. It covers paging by slice,
  creation with stripped and non-empty fields, deletion of every entry with an id, and
  editing of a message.
- `catalog.dfy` (`ProductCatalog`): the product filter of task8. It is a pure pipeline over
  the constant catalogue:
  - a case-insensitive category filter;
  - a substring search;
  - inclusive price bounds read by a decimal parser;
  - a stable sort by price.

  The category list is `sorted(set(...))`.
- `tokens.dfy` (`TokenAuth`): the bearer-token registry of task9. A `TokenRegistry` class
  covers login, logout and the verifier. The verifier checks the scheme, then the token,
  then its one-hour lifetime (deleting an expired token), then the role.
- `microblog.dfy` (`Microblog`): the microblog of task10. It covers:
  - a login whose access token is the username, and the bearer check;
  - a `Blog` class over the posts and likes tables, with an ownership rule on delete and
    the unique (user, post) like constraint;
  - listings newest first, like counts and liked-by-me.

`common.dfy` holds the pieces the backends share:

- `Http`: the status codes 400, 401, 403 and 404 and the `Option`/`Result` types.
- `Text`: Python's `str.strip`, `str.lower`, `startswith`, `in` on strings and `split`.
- `Bearer`: the `authorization.split(" ")[1]` token extraction.
- `Seqs`: list comprehension filters, first-match search and removal by index.
- `Sorting`: Python's stable `sort`, with and without `reverse=True`.

Each handler that changes state is a method of a class whose fields are the data it
changes. The method's `ensures` ties the new state and the answer to functions of the old
state. Lemmas about those functions state what the handlers promise: round trips,
idempotence, counts and what stays unchanged. Error answers are `Err(status)`, with the
HTTP status the handler raises. The clock, `uuid4` and `secrets.token_urlsafe` become
parameters: `now` in whole seconds, `id` and `token` for the fresh identifier, and
`candidates` for the stream of random codes.

## Model

| member | source | states |
|---|---|---|
| Text.IsSpace | task7/backend/main.py:79-80 | the characters Python's `str.isspace` accepts: tab to carriage return, U+001C to space, U+0085, U+00A0, U+1680, U+2000..U+200A, U+2028, U+2029, U+202F, U+205F and U+3000 (a definition, used by Strip) |
| Text.StripBy | task7/backend/main.py:79-80 | cutting a set of characters from both ends gives a slice of the input with only such characters cut, none left at either end, empty exactly when every character is in the set |
| Text.StripByUnspaced | task7/backend/main.py:79-80 | a text with no such character at either end is kept whole |
| Text.Strip | task7/backend/main.py:73-80 | the result is a slice of the input with only whitespace cut from both ends, it has no whitespace at either end, and it is empty exactly when the input is all whitespace |
| Text.StripUnspaced | task7/backend/main.py:79-80 | a text with no whitespace at either end strips to itself |
| Text.StripIdempotent | task7/backend/main.py:79-80 | stripping a stripped text changes nothing |
| Text.Lower | task8/backend/main.py:39-43 | lowering keeps the length, keeps every character that is not a capital, and turns each capital into the small letter that upper-cases back to it |
| Text.LowerUpperInverse | task8/backend/main.py:39-43 | lowering and an independently written upper-casing are inverse bijections between the capitals and the small letters |
| Text.LowerIdempotent | task8/backend/main.py:39-43 | lowering a lowered text changes nothing |
| Text.Split | task9/backend/main.py:30 | `split` on one separator gives at least one part, no part holds the separator, and joining the parts with it gives back the input |
| Text.SplitHeadMaximal | task9/backend/main.py:30 | the first part runs up to the first separator, or to the end when there is none |
| Text.SplitJoin | task9/backend/main.py:30 | splitting joined separator-free parts gives back the parts |
| Text.SplitAfterWord | task9/backend/main.py:30 | a word followed by the separator is the first part, and the rest splits on its own |
| Text.StartsWith | task9/backend/main.py:25 | Python's `s.startswith(prefix)`: the prefix is no longer than the text and equals its first characters (a definition, used by Bearer.Credential, Contains, TokenRegistry.Verify and TokenRegistry.Logout) |
| Text.Contains | task8/backend/main.py:43 | Python's `needle in hay`: the needle occurs at some offset of the text, the empty needle everywhere (a definition, used by the search step) |
| Bearer.Credential | task9/backend/main.py:25-30 | a token is read exactly when the header starts with "Bearer "; it is space-free, follows the scheme, and runs up to the next space or the end of the header |
| Bearer.CredentialRoundTrip | task9/backend/main.py:30 | "Bearer " followed by a space-free token reads back as that token |
| Seqs.Filter | task1/backend/main.py:78 | the comprehension keeps, in order, exactly the elements satisfying the test |
| Seqs.FilterIdempotent | task1/backend/main.py:78 | filtering twice by one test is filtering once |
| Seqs.FilterKeepsAll | task7/backend/main.py:90-91 | the filter keeps the length exactly when every element passes |
| Seqs.FilterAppend | task10/backend/main.py:214 | filtering distributes over concatenation |
| Seqs.IndexOf | task1/backend/main.py:52-56 | the first index holding the key, or None exactly when the key is absent |
| Seqs.RemoveAt | task1/backend/main.py:70 | removal at an index drops one element and shifts the later ones down |
| Seqs.FilterRemoveAt | task10/backend/main.py:206-214 | removing an element lowers a filter's length by one when the element passes the test |
| Sorting.SortBy | task8/backend/main.py:55-58 | the sort is a permutation ordered by the key, ascending or descending |
| Sorting.Stable | task8/backend/main.py:55-58 | elements with equal keys keep their relative order |
| Sorting.SortFilter | task10/backend/main.py:86 | sorting a filtered list equals filtering the sorted list |
| TodoApi.Toggled | task1/backend/main.py:51-56 | toggling keeps the length and every id, and an absent id changes nothing |
| TodoApi.Renamed | task1/backend/main.py:59-64 | renaming keeps the length and every id, and an absent id changes nothing |
| TodoApi.Deleted | task1/backend/main.py:67-72 | deleting only ever removes items, and an absent id changes nothing |
| TodoApi.Incomplete | task1/backend/main.py:78 | the comprehension's test `not todo.completed` (a definition, used by WithoutCompleted, WithoutCompletedKeepsIncomplete and TodoList.DeleteCompleted) |
| TodoApi.WithoutCompleted | task1/backend/main.py:75-79 | every item left is an incomplete item of the list |
| TodoApi.ToggledChangesOneFlag | task1/backend/main.py:51-56 | toggling flips the flag of exactly the first item with the id and keeps every task and id |
| TodoApi.ToggleTwice | task1/backend/main.py:51-56 | toggling twice restores the list |
| TodoApi.RenamedChangesOneTask | task1/backend/main.py:59-64 | renaming replaces exactly the first matching task and keeps every flag and id |
| TodoApi.DeletedRemovesOne | task1/backend/main.py:67-72 | deleting a present id removes one item and keeps the rest in order; an absent id changes nothing |
| TodoApi.DeleteTwice | task1/backend/main.py:67-72 | with unique ids the deleted id is gone and a second delete changes nothing |
| TodoApi.WithoutCompletedKeepsIncomplete | task1/backend/main.py:75-79 | clearing keeps exactly the incomplete items, in order, and is idempotent |
| TodoApi.UniqueAfterFilter | task1/backend/main.py:78 | filtering keeps ids unique |
| TodoApi.TodoList.GetAll | task1/backend/main.py:37-38 | answers the whole list |
| TodoApi.TodoList.Create | task1/backend/main.py:41-48 | appends an incomplete item with the fresh id and answers it |
| TodoApi.TodoList.Toggle | task1/backend/main.py:51-56 | the new list is the toggled list; 404 exactly when no item has the id |
| TodoApi.TodoList.Update | task1/backend/main.py:59-64 | the new list is the renamed list; 404 exactly when no item has the id |
| TodoApi.TodoList.Delete | task1/backend/main.py:67-72 | the new list is the list without its first item with the id; 404 exactly when there is none |
| TodoApi.TodoList.DeleteCompleted | task1/backend/main.py:75-79 | the new list holds the incomplete items |
| BlogApi.Summary | task2/backend/main.py:58-60 | the `PostBase` view of a post: every field but the content (a definition, used by ListPosts and ListedSlugsResolve) |
| BlogApi.ListPosts | task2/backend/main.py:58-60 | every post, in order, with all fields but the content |
| BlogApi.PostBySlug | task2/backend/main.py:63-67 | the first post with the slug, or 404 exactly when no post has it |
| BlogApi.ListedSlugsResolve | task2/backend/main.py:58-67 | every listed slug resolves to the post first listed under it |
| BlogApi.ShippedPosts | task2/backend/main.py:31-56 | on the shipped posts each slug finds its post and an unknown slug gives 404 |
| UrlShortener.Live | task4/backend/main.py:60 | an entry is still served while at most seven days, in seconds, have passed since its creation, the negation of the `> timedelta(days=EXPIRATION_DAYS)` test (a definition, used by RedirectTarget and RedirectThenStats) |
| UrlShortener.HasCustomCode | task4/backend/main.py:33 | the truthiness of `url_data.custom_code`: present and not empty (a definition, used by UrlDb.Create) |
| UrlShortener.FirstFreeCode | task4/backend/main.py:38-40 | the regeneration loop stops at the first candidate code not in use |
| UrlShortener.RedirectTarget | task4/backend/main.py:55-65 | the long URL exactly when the code is known and at most seven days old, else 404 |
| UrlShortener.Clicked | task4/backend/main.py:63 | a successful redirect adds one click to its own entry and changes nothing else |
| UrlShortener.StatsOf | task4/backend/main.py:68-78 | the stored URL, clicks and creation time of a known code, expired or not; 404 otherwise |
| UrlShortener.CreatedThenStats | task4/backend/main.py:42-46 | a new code reports its URL, no clicks and its creation time, and other codes keep theirs |
| UrlShortener.FreshEntryLifetime | task4/backend/main.py:23 | a new code redirects for exactly seven days, the boundary included |
| UrlShortener.RedirectThenStats | task4/backend/main.py:60-63 | the reported clicks rise by one per live redirect and not for an expired one |
| UrlShortener.UrlDb.Create | task4/backend/main.py:30-52 | 400 exactly when a non-empty custom code is taken; otherwise one new entry under the custom code or a free generated one, with no clicks |
| UrlShortener.UrlDb.Redirect | task4/backend/main.py:55-65 | answers the redirect target and counts the click |
| UrlShortener.UrlDb.GetStats | task4/backend/main.py:68-78 | answers the statistics |
| Polls.OptionsFrom | task5/backend/main.py:59 | one option per distinct text, each with no votes, so never more options than texts |
| Polls.RepeatedOptionsCollapse | task5/backend/main.py:56-59 | two equal texts pass the two-option check but give a single option |
| Polls.LatestOf | task5/backend/main.py:49-52 | the last poll, or 404 exactly when there is none |
| Polls.Voted | task5/backend/main.py:66-74 | a vote keeps the number of polls and their ids, and an unknown id changes nothing |
| Polls.VoteReply | task5/backend/main.py:66-74 | 404 exactly when no poll has the id or its first such poll lacks the option; a success answers that poll as it is after the vote |
| Polls.VoteCountsOnce | task5/backend/main.py:66-74 | a vote adds one to the chosen option of the first poll with the id; everything else is unchanged, and a refused vote changes nothing |
| Polls.PollStore.Latest | task5/backend/main.py:49-52 | answers the latest poll |
| Polls.PollStore.Create | task5/backend/main.py:55-63 | 400 exactly when fewer than two texts are given; otherwise appends the poll, which becomes the latest |
| Polls.PollStore.Vote | task5/backend/main.py:66-74 | answers the vote reply and records the vote; a success answers the stored poll after the increment |
| Guestbook.Window | task7/backend/main.py:67-69 | the slice from `start` holds at most `limit` entries, in order, clipped to the list, and is empty once `start` passes the end |
| Guestbook.Page | task7/backend/main.py:65-69 | page `page` holds the entries from `(page - 1) * limit` on, at most `limit` of them, clipped to the list |
| Guestbook.OrDefault | task7/backend/main.py:65 | an omitted query parameter takes its declared default, a given one is kept (a definition, used by GetEntries and DefaultPageIsFirstFive) |
| Guestbook.PageStart | task7/backend/main.py:67 | `start = (page - 1) * limit`, a natural number for the admitted page and limit (a definition, used by Page) |
| Guestbook.DefaultPageIsFirstFive | task7/backend/main.py:64-69 | a request without parameters gets the first five entries, or all of them when there are fewer |
| Guestbook.EntryOnItsPage | task7/backend/main.py:67-69 | entry `k` appears as item `k % limit` of page `k / limit + 1` |
| Guestbook.NotId | task7/backend/main.py:90 | the comprehension's test `e.id != entry_id` (a definition, used by DeleteFilter and GuestbookStore.Delete) |
| Guestbook.DeleteFilter | task7/backend/main.py:90-91 | the filter drops exactly the entries with the id, and keeps the length exactly when no entry has it |
| Guestbook.Edited | task7/backend/main.py:97-105 | an edit keeps the length and every id, and an unknown id or a missing message changes nothing |
| Guestbook.EditedChangesOneMessage | task7/backend/main.py:99-104 | an edit replaces only the message of the first entry with the id, by the stripped text |
| Guestbook.GuestbookStore.GetEntries | task7/backend/main.py:64-69 | answers the page, with page 1 and limit 5 for parameters left out |
| Guestbook.GuestbookStore.Create | task7/backend/main.py:72-85 | 400 exactly when the stripped name or message is empty; otherwise appends the stripped entry |
| Guestbook.GuestbookStore.Delete | task7/backend/main.py:88-94 | removes every entry with the id; 404 exactly when there is none |
| Guestbook.GuestbookStore.Update | task7/backend/main.py:97-105 | the new list is the edited list; 404 exactly when no entry has the id |
| ProductCatalog.ParseUnsigned | task8/backend/main.py:47-50 | an accepted unsigned decimal is not negative, is digits with at most one point and not the point alone, and a plain digit string reads as its value |
| ProductCatalog.FloatSpace | task8/backend/main.py:47-50 | the characters `float` cuts from the ends: `str.isspace` characters except U+001C..U+001F (a definition) |
| ProductCatalog.PointReal | task8/backend/main.py:47-50 | the value of digits, a point and digits: the whole part plus the fraction over ten to the number of fraction digits, never negative |
| ProductCatalog.PointValue | task8/backend/main.py:47-50 | digits around one point parse to the whole part plus the scaled fraction |
| ProductCatalog.FractionalBound | task8/backend/main.py:47-51 | the bound "19.99" reads as 19.99 |
| ProductCatalog.BarePointBounds | task8/backend/main.py:47-51 | either side of the point may be empty: "5." reads as 5.0 and ".5" as 0.5 |
| ProductCatalog.TwoPointsBound | task8/backend/main.py:47-53 | a bound with two points does not parse, so it is ignored |
| ProductCatalog.ParseNumber | task8/backend/main.py:47-50 | `float` on decimal text: a value is read exactly when the text, stripped of `float`'s whitespace, is an unsigned decimal or a sign followed by one; a sign-free decimal reads as itself and a negative value needs a leading minus |
| ProductCatalog.ParseSignedText | task8/backend/main.py:47-50 | after stripping: a value is read exactly when the text is an unsigned decimal or a sign followed by one; a sign-free decimal reads as itself and a negative value needs a leading minus |
| ProductCatalog.SignedDecimal | task8/backend/main.py:47-50 | the text `float` accepts once stripped: an unsigned decimal, optionally after a `-` or `+` (a definition, used by ParseNumber and ParseSignedText) |
| ProductCatalog.FileSeparatorSpoilsNumber | task8/backend/main.py:47-53 | a bound with a leading U+001C does not parse, although `str.strip` would reduce it to "5" |
| ProductCatalog.SignedParse | task8/backend/main.py:47-50 | a minus in front of an unsigned decimal negates its value and a plus keeps it |
| ProductCatalog.DecimalString | task8/backend/main.py:47-50 | a number's decimal spelling is a non-empty string of digits |
| ProductCatalog.DecimalStringValue | task8/backend/main.py:47-50 | the digits of a number's spelling have that number as their value |
| ProductCatalog.ParseDecimalString | task8/backend/main.py:47-50 | parsing a whole number's spelling gives the number |
| ProductCatalog.NotANumber | task8/backend/main.py:47 | "abc" does not parse |
| ProductCatalog.Present | task8/backend/main.py:39-49 | the truthiness of an optional query string: present and not empty (a definition, used by ByCategory, BySearch and ByPrice) |
| ProductCatalog.InCategory | task8/backend/main.py:40 | the category test: the lowered category equals the lowered parameter (a definition, used by ByCategory and CategoryStep) |
| ProductCatalog.NameContains | task8/backend/main.py:43 | the search test: the lowered search occurs in the lowered name (a definition, used by BySearch and SearchStep) |
| ProductCatalog.AtLeast | task8/backend/main.py:48 | the inclusive lower bound `p["price"] >= min_price_val` (a definition, used by ByPrice and PriceStep) |
| ProductCatalog.AtMost | task8/backend/main.py:51 | the inclusive upper bound `p["price"] <= max_price_val` (a definition, used by ByPrice and PriceStep) |
| ProductCatalog.ByCategory | task8/backend/main.py:39-40 | the category comprehension, skipped for a missing, empty or "all" parameter (what it keeps is stated by CategoryStep) |
| ProductCatalog.BySearch | task8/backend/main.py:42-43 | the search comprehension, skipped for a missing or empty search (what it keeps is stated by SearchStep) |
| ProductCatalog.ByPrice | task8/backend/main.py:45-53 | the `try` block: a lower bound that does not parse skips both bounds, an upper one that does not parse skips only itself (what it keeps is stated by PriceStep) |
| ProductCatalog.Selected | task8/backend/main.py:37-53 | the three steps applied to the catalogue in source order (what it keeps is stated by SelectedIsFilteredDb) |
| ProductCatalog.CategoryStep | task8/backend/main.py:39-40 | the category step keeps, in order, exactly the products whose lowered category equals the lowered parameter, unless it is missing, empty or "all" |
| ProductCatalog.SearchStep | task8/backend/main.py:42-43 | the search step keeps, in order, exactly the products whose lowered name contains the lowered search |
| ProductCatalog.PriceStep | task8/backend/main.py:45-53 | the price step keeps, in order, exactly the products within the bounds that parse, and none is applied when the lower bound fails |
| ProductCatalog.PipelineKeeps | task8/backend/main.py:39-53 | the three steps keep, in order, exactly the products passing every test |
| ProductCatalog.SelectedIsFilteredDb | task8/backend/main.py:37-53 | before sorting, the answer is a subsequence of the catalogue holding exactly the products that pass every test |
| ProductCatalog.FilterProducts | task8/backend/main.py:30-60 | a permutation of the selection, sorted by price for the two sort values and stable on equal prices; any other value keeps catalogue order |
| ProductCatalog.InclusiveBounds | task8/backend/main.py:46-51 | a product priced exactly at both bounds passes them |
| ProductCatalog.BadMaxKeepsMin | task8/backend/main.py:45-53 | a bad upper bound leaves a parsed lower bound applied |
| ProductCatalog.BadMinDropsMax | task8/backend/main.py:45-53 | with the lower bound "abc" every product stays, whatever the upper bound |
| ProductCatalog.SubsequenceTransitive | task8/backend/main.py:37-53 | a subsequence of a subsequence is a subsequence |
| ProductCatalog.StrLess | task8/backend/main.py:65 | Python's `<` on `str`: lexicographic by code point, a proper prefix sorting first (a definition, used by StrictlySorted, SortedUnique and Categories) |
| ProductCatalog.StrLessIrreflexive | task8/backend/main.py:65 | no string sorts before itself |
| ProductCatalog.StrLessTransitive | task8/backend/main.py:65 | string order is transitive |
| ProductCatalog.StrLessTotal | task8/backend/main.py:65 | two different strings are ordered one way or the other |
| ProductCatalog.InsertUnique | task8/backend/main.py:65 | adding a string to a strictly sorted list keeps it strictly sorted and adds just that string |
| ProductCatalog.SortedUnique | task8/backend/main.py:65 | `sorted(set(s))` is strictly sorted and has exactly the values of `s` |
| ProductCatalog.StrictlySortedDistinct | task8/backend/main.py:65 | a strictly sorted list has no repeats |
| ProductCatalog.StrictlySortedUnique | task8/backend/main.py:65 | two strictly sorted lists with the same values are equal |
| ProductCatalog.Categories | task8/backend/main.py:63-66 | the categories are strictly sorted and are exactly the categories in the catalogue |
| ProductCatalog.ShippedCategories | task8/backend/main.py:11-21 | on the shipped catalogue the categories are books, clothing, electronics |
| TokenAuth.Expired | task9/backend/main.py:37 | a token is stale once more than 3600 seconds have passed since its creation (a definition, used by VerifyReply and LoginThenVerify) |
| TokenAuth.RoleAllows | task9/backend/main.py:43 | a missing or empty required role admits every role; otherwise only an equal role (a definition, used by VerifyReply) |
| TokenAuth.VerifyReply | task9/backend/main.py:24-48 | the stored user data exactly when the scheme is right, the token known, not expired and the role allowed; only 401 or 403 otherwise, and 403 exactly for a known live token whose role is refused |
| TokenAuth.AfterVerify | task9/backend/main.py:37-38 | the verifier deletes exactly an expired presented token and keeps every other entry |
| TokenAuth.AfterLogout | task9/backend/main.py:75-77 | logout deletes exactly the presented token and keeps every other entry |
| TokenAuth.LoginThenVerify | task9/backend/main.py:57-63 | a login's token verifies for exactly 3600 seconds, the last included, and then gives 401 and is deleted |
| TokenAuth.ExpiredIsUnauthorized | task9/backend/main.py:37-47 | an expired token gives 401 whatever role is asked, never 403, and is deleted |
| TokenAuth.ForbiddenKeepsToken | task9/backend/main.py:43-47 | a 403 keeps the token, which still verifies without a role |
| TokenAuth.LogoutThenVerify | task9/backend/main.py:72-78 | after logout the header no longer verifies, and a second logout changes nothing |
| TokenAuth.TokenRegistry.Verify | task9/backend/main.py:24-48 | answers the verifier's reply and leaves the registry as the verifier does |
| TokenAuth.TokenRegistry.VerifyAdmin | task9/backend/main.py:50-51 | the verifier with the role "admin" |
| TokenAuth.TokenRegistry.Login | task9/backend/main.py:55-69 | 401 with no change unless the credentials are `FAKE_USER`'s; otherwise stores the user data at `now` under the new token |
| TokenAuth.TokenRegistry.Logout | task9/backend/main.py:72-78 | 401 exactly for a bad scheme; otherwise the token is gone |
| Microblog.UserOf | task10/backend/main.py:57 | the `User` answered for a user record: its id and username, never its password (a definition, used by CurrentUser and Login) |
| Microblog.CurrentUser | task10/backend/main.py:48-57 | the user whose username is the bearer token, else 401 |
| Microblog.Login | task10/backend/main.py:60-67 | succeeds exactly when the username exists and the password matches, and the access token is the username |
| Microblog.LoginThenAuthenticate | task10/backend/main.py:52-67 | a login's token authenticates as the user who logged in |
| Microblog.ListPosts | task10/backend/main.py:135-147 | all posts, newest first |
| Microblog.OwnedBy | task10/backend/main.py:86 | the filter `PostDB.owner_username == username` (a definition, used by UserPosts and UserPostsFollowListing) |
| Microblog.UserPosts | task10/backend/main.py:83-95 | exactly the user's posts, newest first |
| Microblog.UserPostsFollowListing | task10/backend/main.py:86 | a user's listing is the full listing without the other users' posts, in the same order |
| Microblog.OnPost | task10/backend/main.py:214 | the filter `LikeDB.post_id == post_id` (a definition, used by LikesCount, LikeRaisesCount, UnlikeLowersCount and Blog.GetLikesCount) |
| Microblog.LikesCount | task10/backend/main.py:211-216 | the count never exceeds the number of likes, and is zero exactly when no like is on the post |
| Microblog.LikedBy | task10/backend/main.py:218-222 | a like row has the user and the post (a definition; LikedMeansCounted relates it to the count) |
| Microblog.LikedMeansCounted | task10/backend/main.py:211-222 | a post has a positive count exactly when some user likes it |
| Microblog.UniquePairs | task10/backend/main.py:133 | the `unique_user_post` constraint: no two like rows share the (user, post) pair (a definition, used by Blog.Valid, AddPairLike and RemovePairLike) |
| Microblog.UniquePostIds | task10/backend/main.py:122 | the primary key of `posts`: no two post rows share an id (a definition, used by Blog.Valid and RemovePostRow) |
| Microblog.RemovePostRow | task10/backend/main.py:176-181 | deleting a post row keeps post ids unique and leaves no row with that id |
| Microblog.LikeRaisesCount | task10/backend/main.py:194-196 | a new like raises its post's count by one and no other |
| Microblog.UnlikeLowersCount | task10/backend/main.py:206-207 | removing a like lowers its post's count by one and no other |
| Microblog.RemovePairLike | task10/backend/main.py:133 | under the unique pair constraint, removing a pair's like leaves none and keeps the constraint |
| Microblog.AddPairLike | task10/backend/main.py:133 | adding a like for an unliked pair keeps the constraint |
| Microblog.Blog.GetPosts | task10/backend/main.py:135-147 | answers the listing |
| Microblog.Blog.GetUserPosts | task10/backend/main.py:83-95 | answers the user's listing |
| Microblog.Blog.CreatePost | task10/backend/main.py:149-170 | appends one post owned by the user, stamped `now` |
| Microblog.Blog.DeletePost | task10/backend/main.py:172-183 | 404 exactly for an unknown post, 403 exactly for another owner's, with nothing changed and no other error; the owner's delete of an existing post succeeds, the post is gone and likes stay |
| Microblog.Blog.Like | task10/backend/main.py:185-198 | 404 for an unknown post, 400 for a repeated pair; otherwise one like is added and the count rises by one |
| Microblog.Blog.Unlike | task10/backend/main.py:200-209 | 404 exactly when the pair has no like; otherwise that like is removed and the count drops by one |
| Microblog.Blog.GetLikesCount | task10/backend/main.py:211-216 | answers the number of likes on the post |
| Microblog.Blog.IsLikedBy | task10/backend/main.py:218-222 | true exactly when a like has the user and the post |

## Left out

- Persistence is not modelled: the JSON file helpers `read_db`/`write_db` in task7, `load_polls`/`save_polls` in task5 and the unused `read_posts`/`write_posts` in task10. The stored lists are class fields instead. The server-error path of a corrupt guestbook file is not modelled either.
- The SQLAlchemy engine, sessions and commits of task10 are not modelled: two sequences of rows stand for the two tables.
- CORS middleware, routing and the root health routes are not modelled. The same goes for the protected greeting routes of task9, which only format the verifier's result.
- Route order is not modelled. In task1 `DELETE /api/todos/completed` is declared after `DELETE /api/todos/{todo_id}`, so a router that matches in order sends it to `delete_todo`. `TodoList.DeleteCompleted` models the handler as written.
- `HttpUrl` validation of the long URL in task4 is not modelled; the URL is any string.
- `Query(ge=1)` in task7 rejects a page or limit below 1 with 422. That check is not modelled: `Guestbook.Page` and `GuestbookStore.GetEntries` require both (after the defaults 1 and 5 are applied) to be at least 1.
- ProductCatalog.ParseNumber covers decimal text with a sign and surrounding whitespace, cutting the characters `float` cuts (`FloatSpace`). It does not cover exponents, underscores, `inf` or `nan`, nor the non-ASCII Unicode decimal digits (such as Arabic-Indic `١٠٠`), all of which Python's `float` also accepts; those strings count as bad bounds here. Products carry integer prices and bounds are exact rationals, so float rounding is not modelled.
- Text.Lower maps only ASCII letters and the Cyrillic capitals U+0400 to U+042F, which are the letters the shipped data uses; other cased scripts are left as they are.
- Text.Strip uses the code points that Python's `str.isspace` accepts.
- Clocks are whole seconds: `time.time()`, `datetime.utcnow()` and `datetime.now(timezone.utc)` become an `int` parameter `now`. The fractional seconds of task9's lifetime check are lost.
- `uuid4()` and `secrets.token_urlsafe(6)` become parameters. `TodoList.Create`, `PollStore.Create` and `Blog.CreatePost` require the new id to be unused, which is the uuid uniqueness their lists rely on.
- UrlDb.Create requires an unused code among the supplied candidates when no custom code is given. The Python loop draws random codes until one is free.
- `TokenRegistry.Login` stores under the supplied token without requiring it to be fresh, as the dictionary assignment does. Earlier tokens survive only when the new token is fresh.
- Microblog.ListPosts, Microblog.UserPosts and Microblog.UserPostsFollowListing order rows with equal timestamps in table order. SQL `ORDER BY timestamp DESC` leaves that order to the database.
- Polls: the order of options in the poll's dictionary is not kept; a Dafny `map` has no order.
- The `print` call in task1's `delete_completed_todos` is console output and is not modelled.
- The `isinstance` branch of task1's `delete_completed_todos`, which also accepts plain dictionaries, is not modelled: the list holds only `TodoItem`s.
- Concurrency between requests is not modelled; every handler runs to completion alone.
- task3, task6 and every frontend are not part of this model.
