# Voting: the vote table, the ballot snapshot and the per-user item view

This project models the data layer of a small ranked-choice voting web application,
`src/schema.rs`. The model covers three operations:

- `Vote::save_ballot` replaces one voter's rows in the `votes` table. It deletes all
  of them, then inserts one row per submitted item id, with the list index as
  `ordinal`.
- `Vote::run_election` loads the vote rows of open (not `done`) items, ordered by
  `(user_id, ordinal)`. It groups consecutive rows of one voter into a ranked list of
  item ids and hands the lists to an instant-runoff tally from an external crate. It
  then turns the tally's answer into an item: the winner, the first of the tied items,
  or nothing when the tally reports an error.
- `Item::for_user` lists every open item with a flag saying whether the given voter
  has a vote row for it. The voter's ranked items come first, in ranking order.

Tables are sequences of records. `Vote` rows are keyed by `(user_id, item_id)`, and
`i32` columns are the newtype `Int32`. The `votes` table is a class, `VoteTable`,
whose `rows` field `SaveBallot` updates in place with a loop of inserts. The query
pipelines of `run_election` and `for_user` are functions.

Modules:

- `Seqs`: filtering and flattening of sequences.
- `Schema`: the records, the key and `Int32`.
- `BallotStore`: `save_ballot`.
- `Election`: `run_election`.
- `ItemView`: `for_user`.

Three behaviours of the code are modelled as they are:

- **No ballot validation.** The code stores submitted ids without checking them.
  At tally time, the inner join drops ids that name no item, and the
  `done = false` filter drops ids of closed items.
- **No transaction.** The code replaces a ballot without a transaction; see
  Findings.
- **Panics.** An empty tie, or a winner id with no item, makes the code panic.

## Model

| member | source | states |
|---|---|---|
| Schema.AsInt32 | src/schema.rs:155 | `i as i32` keeps the index modulo 2^32 and is the identity below 2^31 |
| Schema.FindItem | src/schema.rs:136 | `find(iid)`: nothing exactly when no item has id `iid`; otherwise an item of the table with that id, the only one under the `items` key |
| BallotStore.BallotRows | src/schema.rs:151-156 | the inserted rows: one per submitted id, all of the voter, item `votes[i]` at position `i`, with ordinal `i` when the ballot has at most 2^31 ids |
| BallotStore.Replaced | src/schema.rs:145-157 | the table after delete-then-insert: other voters' rows are exactly those before, and every row of the voter names a submitted id |
| BallotStore.FirstRepeat | src/schema.rs:151-156 | the position of the first insert the `(user_id, item_id)` key refuses: the prefix before it is distinct, the id there repeats an earlier one, and it is the whole length exactly when all ids are distinct |
| BallotStore.FirstRepeatIsFirst | src/schema.rs:151-156 | any position with those two properties is `FirstRepeat` |
| BallotStore.ReplacedVoterRows | src/schema.rs:150-157 | after the save the voter's rows are exactly `(uid, votes[i], i)` for each `i`, dense from 0 in submission order |
| BallotStore.EmptyBallotWithdraws | src/schema.rs:145-157 | saving an empty ballot leaves the voter with no rows |
| BallotStore.ReplacedKeepsOthers | src/schema.rs:146-148 | every other voter's rows are unchanged, in content and in order |
| BallotStore.ReplaceNotMerge | src/schema.rs:146-148 | the result is the same as if the voter had had no rows, and no old row of the voter survives unless it is resubmitted |
| BallotStore.ReplaceIdempotent | src/schema.rs:145-157 | saving the same ballot twice gives the table that saving it once gives |
| BallotStore.HasKeyReplaced | src/schema.rs:145-157 | after the save, the voter has a row for an item exactly when the item is on the ballot; other voters keep the keys they had |
| BallotStore.ReplacedKeyed | src/schema.rs:24-30 | a save of distinct ids keeps the `(user_id, item_id)` key unique |
| BallotStore.FailedSaveIsPartial | src/schema.rs:146-156 | a ballot that repeats an id leaves the voter with a strict prefix of the submission, and the old ballot is gone |
| BallotStore.PartialWriteWitness | src/schema.rs:146-156 | voter 7 holding `[1, 2]` who submits `[3, 3]` ends up holding `[3]`, which is neither ballot |
| BallotStore.VoteTable.constructor | src/schema.rs:24-30 | a table starts from rows that satisfy the key |
| BallotStore.VoteTable.DeleteVoter | src/schema.rs:146-148 | `DELETE ... WHERE user_id = uid` keeps exactly the other voters' rows, in order, and keeps the key |
| BallotStore.VoteTable.Insert | src/schema.rs:152-156 | the insert succeeds exactly when the key is absent and then appends the row; otherwise the table is unchanged |
| BallotStore.VoteTable.SaveBallot | src/schema.rs:145-157 | saves exactly when the ids are distinct; fails at `FirstRepeat` otherwise; either way the table is the old one with the voter's rows replaced by the inserted prefix, and the key holds |
| BallotStore.SaveStep | src/schema.rs:151-156 | one pass of the insert loop: the insert is refused exactly when the id was inserted before, and otherwise extends the table by the next ballot row |
| BallotStore.VoteTable.SaveBallotAtomic | src/schema.rs:145-157 | the all-or-nothing save: a repeated id changes nothing, and a ballot of distinct ids replaces the voter's rows |
| Election.LiveItem | src/schema.rs:118-120 | the inner join plus `done = false` as a row test: some item with the row's item id exists and is open |
| Election.LiveRows | src/schema.rs:118-120 | the rows kept are rows of the table that name an open item, and every such row is kept |
| Election.InsertRow | src/schema.rs:121 | inserting a row into rows sorted by `(user_id, ordinal)` keeps them sorted and adds exactly that row |
| Election.SortRows | src/schema.rs:121 | `ORDER BY user_id, ordinal`: a sorted permutation of its input |
| Election.Snapshot | src/schema.rs:118-124 | the loaded rows: sorted by `(user_id, ordinal)` and a permutation of the rows of open items |
| Election.ItemIds | src/schema.rs:131 | the map to `item_id`: one id per row, position for position |
| Election.Runs | src/schema.rs:127-132 | `group_by(user_id)`: the runs concatenate back to the rows, are non-empty, hold one voter each, and neighbouring runs have different voters |
| Election.Ballots | src/schema.rs:127-132 | the lists handed to the tally: each non-empty, and together the loaded rows' item ids in `(user_id, ordinal)` order |
| Election.Chosen | src/schema.rs:134-141 | the id looked up is the winner, or the first tied id; there is none only for an empty tie |
| Election.Lookup | src/schema.rs:136-139 | `find(iid).unwrap()` panics exactly when no item has the id and otherwise returns such an item |
| Election.RunElection | src/schema.rs:116-142 | `None` exactly when the tally fails; it panics exactly when the tally decides and either the tie is empty or no item has the chosen id; otherwise the returned item is in the table and carries the chosen id |
| Election.RunsOfSorted | src/schema.rs:127-132 | on rows sorted by voter, each run holds all of its voter's rows, the runs' voters strictly increase, and every voter has a run |
| Election.SnapshotSorted | src/schema.rs:118-124 | the loaded rows are sorted by voter and are a permutation of the rows of open items |
| Election.VotersAreLiveVoters | src/schema.rs:118-132 | a voter gets a ballot exactly when they have a row for an open item |
| Election.OneBallotPerVoter | src/schema.rs:118-132 | one non-empty ballot per voter with open rows, voters in increasing order, each ballot the item ids of its voter's loaded rows |
| Election.VoterRowsInOrdinalOrder | src/schema.rs:118-124 | a voter's loaded rows are their rows for open items, in ascending ordinal order |
| Election.BallotIdsLive | src/schema.rs:118-132 | every id on every ballot names an open item |
| Election.ElectedItemIsLive | src/schema.rs:134-141 | when the tally picks an id from a ballot, `run_election` returns that item, and it is open |
| Election.SortedRowsUnique | src/schema.rs:121 | two sorted orders of the same rows agree when one has no ties in `(user_id, ordinal)` |
| Election.QueryOrderDetermined | src/schema.rs:118-124 | any tie-free order the database may return for the query is the snapshot |
| Election.ItemIdsFilter | src/schema.rs:119-131 | dropping rows of closed items and then taking item ids is taking ids and then dropping closed ids |
| Election.LiveBallotRowsStrict | src/schema.rs:150-157 | a saved ballot's rows of open items are strictly ordered by ordinal |
| Election.LiveVoterRows | src/schema.rs:118-124 | after a save, the voter's rows for open items are the saved rows for open items |
| Election.VoterSnapshotRows | src/schema.rs:118-124 | after a save, the voter's loaded rows are the saved rows for open items, in submission order |
| Election.LiveBallotIds | src/schema.rs:119-131 | the ids of a saved ballot's open rows are the submitted ids of open items |
| Election.SubmittedBallotIsTallied | src/schema.rs:118-132 | after `save_ballot(uid, votes)` the tally receives as `uid`'s ballot the submitted ids of open items, in submission order; with no such id, `uid` has no ballot |
| ItemView.VoteFor | src/schema.rs:100-103 | the join condition holds of a vote row exactly when it has key `(uid, iid)` |
| ItemView.Matches | src/schema.rs:100-103 | the vote rows joined with an item: exactly the table's rows of that voter and item |
| ItemView.MatchesIffKey | src/schema.rs:100-103 | the left join finds a vote row for an item exactly when the voter has that key |
| ItemView.JoinItem | src/schema.rs:99-107 | an item yields at least one joined row; each carries an ordinal exactly when the voter has a row for the item, and that ordinal is the ordinal of such a row |
| ItemView.LeftJoin | src/schema.rs:99-104 | the join before ordering: only open items, each with an ordinal exactly when the voter has a row for it, taken from such a row, and every open item appears |
| ItemView.InsertJoined | src/schema.rs:105 | inserting a joined row into rows in query order keeps them in query order and adds exactly that row |
| ItemView.SortJoined | src/schema.rs:105 | `ORDER BY user_id DESC, ordinal ASC` on the joined rows: a permutation in which rows with an ordinal come first, by ascending ordinal |
| ItemView.QueryRows | src/schema.rs:99-108 | the loaded rows are a permutation of the join; rows with an ordinal precede those without and their ordinals ascend |
| ItemView.Flags | src/schema.rs:109-111 | the map from ordinal to flag: one flag per loaded row, true exactly when its ordinal is not NULL |
| ItemView.QueryRowFacts | src/schema.rs:99-108 | each loaded row is an open item of the table, with an ordinal exactly when the voter ranked it |
| ItemView.OpenItemLoaded | src/schema.rs:99-108 | every open item is loaded |
| ItemView.ForUser | src/schema.rs:98-111 | `for_user(uid)`: only open items of the table, each flag true exactly when `uid` has a vote row for it, every open item present, and every flagged entry before every unflagged one |
| ItemView.KeyedMatchesAtMostOne | src/schema.rs:24-30 | under the votes key an item joins with at most one row |
| ItemView.JoinKeyed | src/schema.rs:99-104 | with keyed rows, the join before ordering lists each open item exactly once, in the model's `items` order, with its flag |
| ItemView.FlagsPermutation | src/schema.rs:109-111 | reordering the loaded rows reorders their flags the same way |
| ItemView.ForUserKeyed | src/schema.rs:98-111 | with keyed rows, `for_user` holds each open item exactly once with its flag, as a permutation of the items-order view `OpenItemFlags` |
| ItemView.QueryRowsAfterSave | src/schema.rs:105-111 | after `save_ballot(uid, votes)`, each ranked row of `uid`'s view carries its item's position in `votes`; with `QueryRows`' ascending ordinals, the ranked items come in submission order |
| ItemView.SavedRowPosition | src/schema.rs:150-157 | after a save, a row of the voter has the position of its item in the ballot as ordinal |
| ItemView.ForUserAfterSave | src/schema.rs:98-111 | after `save_ballot(uid, votes)`, `uid`'s flags are exactly membership in `votes` |
| ItemView.MatchesReplaced | src/schema.rs:100-103 | a save by one voter leaves another voter's joined rows unchanged |
| ItemView.LeftJoinSameMatches | src/schema.rs:98-108 | the view depends on the vote rows only through each item's joined rows |
| ItemView.ForUserOtherVoter | src/schema.rs:98-111 | saving one voter's ballot leaves every other voter's view unchanged |

## Left out

- The instant-runoff algorithm (`rcir::run_election`, src/schema.rs:3 and 134) is external. It is the function parameter `tally`, including the `MajorityMode::RemainingMajority` argument.
- Diesel and SQLite mechanics are not modelled: connections, the `table!`/`joinable!` macros, and `unwrap` on storage errors. The only failure modelled is the key violation on insert.
- `save_ballot` panics on a refused insert. `SaveBallot` returns `InsertFailed(at)` instead and leaves the table as the panic leaves it.
- Election.SortRows: the database may order rows that tie on `(user_id, ordinal)` either way. `SortRows` is one stable order. `QueryOrderDetermined` shows the choice does not matter when there are no such ties, and rows written by `save_ballot` never tie within a voter.
- ItemView.SortJoined: the query leaves unspecified the order among the rows without an ordinal (the items the voter did not rank) and among ranked rows with equal ordinals. The model keeps their order in `items`. Only the relative order of ranked rows, and that they come before unranked ones, is promised.
- BallotStore.ReplacedVoterRows: the per-index ordinal equality is stated only for ballots of at most 2^31 ids. Beyond that, `i as i32` wraps, which `AsInt32` models.
- Election.SubmittedBallotIsTallied requires at most 2^31 ids, for the same reason. Wrapped ordinals would interleave in the sort.
- ItemView.QueryRowsAfterSave requires at most 2^31 ids, for the same reason.
- Election.LiveItem tests whether an open item with the row's item id exists. That matches the inner join only under the `items` primary key. With two item rows for one id, the join would return the vote row twice; the model returns it once.
- Election.ElectedItemIsLive assumes that item ids are unique (the `items` primary key). The items table is a plain sequence, so the key is stated as a requirement.
- `Item::all` (src/schema.rs:94-96) only loads the items table. In the model, that table is the `items` sequence itself.
- `NewUser::login` (src/schema.rs:80-90), the `users` table and the foreign keys are not modelled. `src/main.rs` is not part of this model.
- Transactions and concurrent submissions are not modelled. The code has neither.
- The commented-out helpers (src/schema.rs:160-179) are not modelled.

## Findings

| source | as written | input that shows it | evidently intended | confidence | as-written member | corrected member |
|---|---|---|---|---|---|---|
| src/schema.rs:146-156 | the voter's rows are deleted, then the items are inserted one by one with no transaction; a repeated id fails on the key after the delete and the earlier inserts | voter 7 holding `[1, 2]` submits `[3, 3]` and is left holding `[3]` | a rejected ballot leaves the previous ballot in place | medium, not executed | BallotStore.VoteTable.SaveBallot, BallotStore.PartialWriteWitness | BallotStore.VoteTable.SaveBallotAtomic |
