# my-blog: gift rooms and forum, modelled in Dafny

my-blog is a Django site where people open *rooms* to collect money for a gift.
Donations lower what a room still has to collect, and a room closes once the
gift is paid for. A private room is seen only by its creator and its guests.
Each room has a forum: *posts* with nested reply *threads*, and like/dislike
*opinions* on both.

This project models the business logic of the site without a database:

- `wrappers.dfy` (`Wrappers`): `Option`, `Result`, `Outcome`, and the fact that a
  sequence is duplicate-free exactly when its multiset has no repeats.
- `ordering.dfy` (`Ordering`): a stable descending sort by an integer key, standing
  for `order_by('-field')`. It is proved sorted and a permutation.
- `rooms.dfy` (`Rooms`): the `Room` class and its donation ledger. `donate` is
  specified by the pure `Settle`. Also `get_patrons`, and guest and observer
  handling.
- `room_queries.dfy` (`RoomQueries`): the queries over all rooms
  (`get_visible`, `most_popular`, `most_patrons`, `most_to_collect`).
- `room_forms.dfy` (`RoomForms`): the form validators for creating and updating
  rooms, for messages and for donations.
- `threads.dfy` (`Threads`): the reply forest. It covers `get_main`,
  `get_secondary`, `show_children` and `get_all_children`.
- `votes.dfy` (`Votes`): the Opinion table, `get_likes`, `score` and the
  `data_with_likes` ranking.

Conventions:

- Money is integer cents, because `DecimalField(decimal_places=2)` holds exact
  cents. The donation minimum of 1 PLN is therefore 100.
- Dates are integer day numbers. `datetime.now().date()` becomes a `today`
  parameter.
- Users are compared by primary key, as Django compares model instances.
- A table is a sequence, and a row's primary key is its position (threads).
- An input sequence of rows stands for the queryset in its default order:
  rooms by `-date_expires` (src/rooms/models.py:91-92), donations by `date`
  (src/rooms/models.py:268-269). `Thread` and `Opinion` declare no ordering, so
  the database chooses the order of their querysets; the model takes primary-key
  order there (see "Left out"). Filters keep the input order; an explicit
  `order_by` re-sorts. When a sort ties, the order
  is unspecified in the source; the model keeps the input order (see "Left out").
- A thread's parent is a foreign key, so it names an existing row
  (`ParentsExist`). Nothing else is assumed of the table: parent cycles are
  possible in the data.

Where the code and its own documentation disagree, the model follows the code:

- `RoomRegisterForm.clean_date_expires` has a docstring saying
  `today <= expires < today + 183`. The code accepts `today < expires <= today + 183`.
- `num_patrons` and `most_patrons` count rows of the `Donation` through-table,
  i.e. donations, not distinct donors. A user who donates twice counts twice.
- `Donation.date` is `auto_now`, so the `date` passed to `donate` is overwritten
  by the save date. The model records `today`.
- `donate` defaults the comment to the *requested* amount, not the amount
  actually recorded.
- The `donate` docstring (src/rooms/models.py:159) says `'user'` is an int, but
  `Donation(user=...)` (src/rooms/models.py:179-185) needs a `User` instance and
  raises `ValueError` for an int. The model passes a `User`.
- `get_all_children` collects `show_children()` of every root, so the roots
  themselves do not appear in its result.

## Model

| member | source | states |
|---|---|---|
| Rooms.Settle | src/rooms/models.py:172-178 | The recorded amount is min(amount, to_collect). The new to_collect is max(to_collect - amount, 0), and the decrease equals the recorded amount. The room stays active iff it was active and amount < to_collect; the else-branch never reopens it. |
| Rooms.SettleKeepsOpenIffOutstanding | src/rooms/models.py:173-178 | A non-negative donation keeps "active iff something left to collect, and to_collect >= 0" true. |
| Rooms.LedgerConservation | src/rooms/models.py:172-186 | Over any run of donations, the recorded amounts sum to exactly the decrease of to_collect, and never to more than was outstanding. |
| Rooms.DonateTestRun | src/rooms/tests/test_models.py:105-116 | 500 PLN outstanding: 200 leaves 300 and the room open; the remaining 300 closes it at 0; both are recorded in full. |
| Rooms.FullCollectionScenario | src/rooms/models.py:172-178 | 1000 PLN outstanding: 500 leaves 500 and the room open; 500 more closes it at 0; a further 100 records 0. A donation of 1500 records 1000. |
| Rooms.Donors | src/rooms/models.py:194-196 | The donors' usernames: each exactly once, and exactly those of some ledger row. |
| Rooms.GetPatrons | src/rooms/models.py:190-199 | The same set of usernames, without duplicates, ordered by each user's total donated, largest first; no more entries than donations. |
| Rooms.Named | src/rooms/models.py:202 | The guests with that username, and exactly those; empty iff nobody has it. |
| Rooms.WithoutUser | src/rooms/models.py:205 | Removing a guest keeps exactly the guests with another primary key. |
| Rooms.GuestRemoveEffect | src/rooms/models.py:201-206 | After removing the single guest of that name, no guest of that name is left, and every other guest is kept. |
| Rooms.Room.constructor | src/rooms/models.py:51-86 | A new room is active and has no guests, observers or donations. |
| Rooms.Room.NumPatrons | src/rooms/models.py:105-107 | Counts ledger rows, so it is at least the number of distinct patrons. |
| Rooms.Room.Collected | src/rooms/models.py:214-216 | collected() + to_collect == price, so collected() never exceeds the price while to_collect is non-negative. Room.Donate keeps LedgerMatches: collected() equals the sum of the recorded donations. |
| Rooms.Room.Donate | src/rooms/models.py:152-188 | Missing user or amount: the error, and nothing changes. Otherwise the balance becomes Settle's and exactly one donation is appended: the user, the clamped amount, today, and the comment (or the requested amount). Other fields are unchanged, and a ledger that accounted for collected() still does. |
| Rooms.Room.CanSee | src/rooms/models.py:117-129 | True iff the room is visible, or the user is a guest or the creator (by primary key). |
| Rooms.Room.AddObserver | src/rooms/models.py:144-150 | A valid key joins the observers and reports valid. A malformed one reports invalid and changes nothing. Other fields never change. |
| Rooms.Room.GetGuestsDict | src/rooms/models.py:208-212 | One entry per guest; a name is listed iff some guest has it. |
| Rooms.Room.GuestRemove | src/rooms/models.py:201-206 | If not exactly one guest has the name: the error, and the guests are unchanged. Otherwise that guest is removed and the remaining usernames are returned; nothing else changes. |
| RoomQueries.GetVisible | src/rooms/models.py:7-18 | On a queryset qs of the table: a row is returned iff it is a public row of qs, or any row of the whole table that the user created or is a guest of. No row is returned twice (distinct). |
| RoomQueries.GetVisibleAgreesWithCanSee | src/rooms/models.py:117-129 | On the whole table, get_visible returns a room iff can_see admits the user. |
| RoomQueries.MostPopular | src/rooms/models.py:32-37 | A permutation of the rooms, ordered by price - to_collect, largest first. |
| RoomQueries.WithDonations | src/rooms/models.py:42 | Exactly the rooms with at least one donation, with their multiplicities. |
| RoomQueries.MostPatrons | src/rooms/models.py:39-45 | Exactly the rooms with a donation, each as often as in the input, ordered by number of donation rows, largest first. |
| RoomQueries.MostToCollect | src/rooms/models.py:47-48 | A permutation of the rooms, ordered by to_collect, largest first. |
| RoomForms.RegisterCleanDateExpires | src/rooms/forms.py:35-48 | Accepts d iff today < d <= today + 183, returning d unchanged. A later date fails with "too late", today or earlier with "not in the future". |
| RoomForms.RegisterClean | src/rooms/forms.py:50-57 | Rejects iff to_collect is present and non-zero (truthy). |
| RoomForms.UpdateCleanPrice | src/rooms/forms.py:80-90 | Accepts a price iff it is at least price - to_collect of the room, returning it unchanged. |
| RoomForms.UpdateCleanDateExpires | src/rooms/forms.py:92-104 | Accepts d iff today < d <= created + 183, returning d unchanged. The 183-day check comes first. |
| RoomForms.MessageClean | src/rooms/forms.py:125-131 | Rejects iff receiver and sender are the same user. |
| RoomForms.DonateCleanAmount | src/rooms/forms.py:151-157 | Accepts an amount iff it is at least 1 PLN, returning it unchanged. |
| RoomForms.UpdateWindowWithinRegisterWindow | src/rooms/forms.py:92-104 | For a room created on or before today, an expiry the update form accepts is one the register form accepts. On the creation day the two forms agree. |
| RoomForms.CleanPriceCoversLedger | src/rooms/forms.py:80-90 | When the ledger accounts for collected(), clean_price accepts exactly the prices covering the sum of the donations. |
| RoomForms.AcceptedDonationProgresses | src/rooms/forms.py:151-157 | An accepted amount strictly lowers what an open room has to collect. The room is closed iff nothing is left. |
| Threads.HasParent | src/forum/models.py:137-140 | True iff the parent is set. |
| Threads.Ancestor | src/forum/models.py:127-133 | Following parent pointers from a thread stays inside the table. |
| Threads.AncestorShift | src/forum/models.py:127-133 | Following i and then j parent pointers is following i + j. |
| Threads.NoneStaysNone | src/forum/models.py:127-133 | Once a chain of parents has ended at a root, it stays ended. |
| Threads.RootOffCycle | src/forum/models.py:127-133 | A thread without a parent is not its own ancestor. |
| Threads.IncreasingIdsAreRanked | src/forum/models.py:127-133 | If replies have larger keys than their parents, every thread is ranked. |
| Threads.AncestorsOutrank | src/forum/models.py:127-133 | Under a ranking, k steps up from a thread reach a thread that outranks it by at least k, once the top one is positive. |
| Threads.RankedOffCycle | src/forum/models.py:157-163 | A positively ranked thread is not its own ancestor, so a ranking excludes exactly the threads where show_children would not end. |
| Threads.DistanceBounded | src/forum/models.py:127-133 | A chain of parents from x to a thread on no cycle is shorter than the table (no thread repeats). |
| Threads.DistanceUnique | src/forum/models.py:127-133 | Such a chain reaches that thread after one number of steps only. |
| Threads.DistanceRank | src/forum/models.py:127-133 | Positive iff t is x or an ancestor of x, and then the table size less the distance. |
| Threads.DescentRankRanked | src/forum/models.py:157-163 | Ranking by distance below t is a ranking, positive at t. |
| Threads.DescentRank | src/forum/models.py:157-163 | Every thread that is not its own ancestor has a ranking positive at it, so show_children is defined on it. |
| Threads.Select | src/forum/models.py:97 | Exactly the positions whose rows pass the test, in increasing order. |
| Threads.Children | src/forum/models.py:111 | Exactly the threads whose parent is t, in table order. |
| Threads.Roots | src/forum/models.py:103 | Exactly the threads of the post that have no parent, in table order. |
| Threads.AllRoots | src/forum/models.py:97 | Exactly the threads that have no parent, in table order. |
| Threads.OfPost | src/forum/models.py:72 | Exactly the threads of the post, nested replies included, in table order. |
| Threads.SelectIgnoresLaterRows | src/forum/models.py:72 | Rows added later do not change the selection of earlier positions. |
| Threads.OfPostGrows | src/forum/models.py:72 | A new thread adds one to its own post's thread count, and nothing to any other post's. |
| Threads.IncreasingSubsetShorter | src/forum/models.py:103 | An increasing sequence contained in another is no longer than it. |
| Threads.RootsAmongThreadsOfPost | src/forum/models.py:103 | A post has no more main threads than threads. |
| Threads.Summarise | src/forum/models.py:120-151 | Fails iff the thread's author is NULL (deleted). Otherwise the summary names the thread, its row, its author, its parent, and its number of direct replies. |
| Threads.DecimalString | src/forum/models.py:106 | str(n) is non-empty, with two or more digits from 10 on. |
| Threads.DecimalStringInjective | src/forum/models.py:106 | Different positions give different str() keys, so no get_main entry overwrites another. |
| Threads.NumeralsStep | src/forum/models.py:104-106 | The key str(num) is new, and with it the keys cover "0"..str(num). |
| Threads.GetMain | src/forum/models.py:102-108 | Fails iff some main thread of the post has a NULL author. Otherwise the keys are exactly "0".."n-1" for the n main threads of the post, and key str(i) holds the summary of the i-th main thread. |
| Threads.GetSecondary | src/forum/models.py:110-116 | Fails iff some reply to t has a NULL author. Otherwise the keys are exactly 0..n-1 for the n replies to t, key i holds the summary of the i-th reply, and every entry names t as its parent. |
| Threads.ShowChildren | src/forum/models.py:157-163 | One entry per direct reply, in order; each maps the reply to that reply's own show_children. A thread without replies gives []. It is defined on every thread that is not its own ancestor (a positive ranking, DescentRank). |
| Threads.ShowChildrenIgnoresRank | src/forum/models.py:157-163 | The tree does not depend on which ranking is used. |
| Threads.NodesInMember | src/forum/models.py:157-163 | A thread is in a reply forest iff it heads an entry or sits in an entry's replies. |
| Threads.ShowChildrenNodes | src/forum/models.py:157-163 | The threads in show_children(t) are its replies and the threads of their own trees. |
| Threads.ShowChildrenOnlyBelow | src/forum/models.py:157-163 | Every thread in show_children(t) descends from t. |
| Threads.ShowChildrenAllBelow | src/forum/models.py:157-163 | Every thread descending from t appears in show_children(t). |
| Threads.ShowChildrenIsSubtree | src/forum/models.py:157-163 | show_children(t) holds exactly the descendants of t. |
| Threads.ShowChildrenExcludesRoot | src/forum/models.py:157-163 | t itself is not in show_children(t). |
| Threads.RootRanked | src/forum/models.py:95-100 | Every thread without a parent has a ranking, whatever cycles exist elsewhere. |
| Threads.GetAllChildren | src/forum/models.py:95-100 | Needs only that parents exist. One entry per thread without a parent, in table order, each that root's show_children (under every ranking). |
| Votes.Cast | src/forum/models.py:79-84 | The new opinion has the given user and value and is attached to the target and to no other post or thread. |
| Votes.GetLikes | src/forum/models.py:75-77 | The sum is 0 when the target has no opinions. On a valid table it lies between -rows and +rows. |
| Votes.LikesLessDislikes | src/forum/models.py:153-155 | On a table of +1/-1 rows, the sum is the number of likes less the number of dislikes. |
| Votes.GetLikesSplits | src/forum/models.py:75-77 | The sum over two parts of the table is the sum of the parts. |
| Votes.UniformBallots | src/forum/models.py:75-77 | n votes of value v sum to n * v. |
| Votes.LikesAfterVotes | src/forum/tests/test_models.py:31-43 | After k likes and m dislikes on a target without earlier opinions, get_likes is k - m (0, 1 and -1 in the tests). |
| Votes.VoteCountsForItsTargetOnly | src/forum/models.py:191-202 | A vote changes its own target's sum by its value and leaves every other post's and thread's sum unchanged. |
| Votes.OpinionTable.constructor | src/forum/models.py:180-204 | The table starts empty and valid. |
| Votes.OpinionTable.PostAddLike | src/forum/models.py:79-84 | Appends exactly one +1 row for the post. Its likes rise by one; every other post's and thread's likes are unchanged; the table stays valid. |
| Votes.OpinionTable.ThreadAddLike | src/forum/models.py:165-170 | Appends exactly one +1 row for the thread. Its likes rise by one; every other post's and thread's likes are unchanged; the table stays valid. |
| Votes.OpinionTable.PostAddDislike | src/forum/models.py:86-91 | Appends exactly one -1 row for the post. Its likes fall by one; every other post's and thread's likes are unchanged; the table stays valid. |
| Votes.OpinionTable.ThreadAddDislike | src/forum/models.py:172-177 | Appends exactly one -1 row for the thread. Its likes fall by one; every other post's and thread's likes are unchanged; the table stays valid. |
| Votes.OpinionTable.Insert | src/forum/models.py:180-204 | Creating an opinion of an allowed value appends it and changes only its target's sum. |
| Votes.Score | src/forum/models.py:67-73 | score less all_likes (missing taken as 0) is the number of threads of the post; the score is at least the likes plus the main threads. |
| Votes.ScoreCountsEveryThread | src/forum/models.py:67-73 | Each new thread of a post raises its score by one, and leaves other posts' scores alone. |
| Votes.DataWithLikes | src/forum/models.py:40-45 | A permutation of the posts, ordered by all_likes, largest first, with a missing value as 0. |
| Ordering.SortDesc | src/rooms/models.py:35 | A permutation of the input, sorted by the key, largest first. |
| Ordering.SortDescMembers | src/rooms/models.py:35 | Sorting keeps exactly the same elements. |
| Wrappers.DistinctIffSingleOccurrences | src/rooms/models.py:194-198 | A sequence has no duplicates iff no element occurs twice in its multiset. |
| Wrappers.PermutationKeepsDistinct | src/rooms/models.py:194-198 | A reordering of a duplicate-free sequence is duplicate-free. |

## Left out

- `percent_left`, `percent_got` and `update_score` (src/rooms/models.py:97-103, 131-138) divide Decimals and store a float; the model holds only integer cents.
- `VisibleManager.search` and `PostQuerySet.search` filter with `icontains`, whose case folding depends on the database collation.
- `summarise_for_list`, `PostQuerySet.summarise`, `Room.all_likes` and `Room.all_comments` only tune queries or aggregate over joins. `PostQuerySet.summarise`'s loop result is also discarded.
- Votes.DataWithLikes: `all_likes` is an input to the model. The model does not compute the `Sum` over the joined thread and post opinions, which SQL evaluates over every (thread opinion, post opinion) pair.
- Votes.Score: takes `all_likes` as the input that `data_with_likes` annotated.
- Threads.Summarise: leaves out `model_to_dict`'s remaining text fields and the `strftime` date format; the author is its primary key, not its username. A NULL author is modelled as the `AuthorDeleted` failure where the source raises `AttributeError`.
- The `Message` model, `DonationQuerySet.get_chart_data`/`resume`, `__str__` methods and the form field, widget and label declarations carry no logic.
- src/forum/views.py is request handling around the modelled operations and is not part of this model.
- Ordering.SortDesc: when two rows tie on the key, the database returns them in an unspecified order. The model keeps input order, and no contract relies on it.
- Rooms.GetPatrons: the grouping of `values_list(...).annotate(...)` is modelled as one entry per username, ordered by total. Tie order is unspecified as above.
- Rooms.Room.Donate: two concurrent donations can race on `to_collect` (lost update); the model runs one call at a time. `save()` and database failures are not modelled.
- Rooms.Room.AddObserver: the ORM's conversion of the argument to a key is reduced to a valid key or a malformed value that raises `ValueError`. A well-formed key that names no user is added by the model, where the source fails the foreign-key constraint (`IntegrityError`); `add_observer(None)` raises a `TypeError` that the source does not catch and the model does not represent.
- Threads.ShowChildren: on a thread that is its own ancestor the source recurses until Python raises `RecursionError`; the model's precondition (a positive ranking, which exists exactly for the threads on no parent cycle) excludes that thread. The ranking is a ghost argument.
- Threads.ShowChildren: Python's recursion limit (1000 frames by default) also raises `RecursionError` on a reply chain deeper than that; the model's recursion has no depth limit.
- Threads.GetMain: `Thread` has no `Meta.ordering`, so the order of `filter(...)`, and with it which thread gets key "0", is chosen by the database; the model fixes primary-key order. The same holds for Threads.GetSecondary, Threads.ShowChildren and Threads.GetAllChildren (`children.all()`, `filter(parent__isnull=True)`).
- Threads.GetAllChildren: a cycle among threads below a root cannot occur, since a root's descendants all lead up to it; cycles elsewhere in the table are not reached.
- Datetimes are reduced to day numbers; time of day and time zones are not modelled.
- `Opinion.date` (src/forum/models.py:204) is not part of the model's `Opinion` record; nothing in the core reads it.
- Rooms.Room.Donate: a key present with the value `None` is merged with an absent key. The source returns the error dict only for an absent key; `amount=None` raises `TypeError` at the comparison (src/rooms/models.py:172), and `user=None` fails when the donation is saved. The model reports `MissingData` for both. Likewise a `comment` key present as `None` is taken as absent (the requested amount is recorded as the comment), where the source saves NULL into a non-null column and fails.
