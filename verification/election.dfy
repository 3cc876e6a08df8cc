/** `Vote::run_election`: load the live vote rows in `(user_id, ordinal)` order,
    group consecutive rows of one voter into a ranked list of item ids, hand the
    lists to the instant-runoff tally and turn its answer into an item. The tally
    itself belongs to an external crate; here it is the parameter `tally`. */
module Election {
  import opened Seqs
  import opened Schema
  import opened BallotStore

  /** The inner join with `items` plus `done = false`: a vote row is kept when its
      item exists and is still open. As an existence test this matches the join
      only under the `items` primary key; with two item rows for one id the join
      would return the vote row twice. */
  function LiveItem(items: seq<Item>): (p: Vote -> bool)
    ensures forall v :: p(v) <==> exists k :: 0 <= k < |items| && items[k].id == v.itemId && !items[k].done
  {
    (v: Vote) => IsLive(items, v.itemId)
  }

  /** The rows the query keeps, in table order. */
  function LiveRows(items: seq<Item>, rows: seq<Vote>): (r: seq<Vote>)
    ensures forall k :: 0 <= k < |r| ==> r[k] in rows && IsLive(items, r[k].itemId)
    ensures forall k :: 0 <= k < |rows| && IsLive(items, rows[k].itemId) ==> rows[k] in r
  {
    Filter(rows, LiveItem(items))
  }

  /** `iid` names an open item, as a filter on item ids. */
  function LiveId(items: seq<Item>): Int32 -> bool
  {
    (iid: Int32) => IsLive(items, iid)
  }

  /** `ORDER BY user_id ASC, ordinal ASC`, as a comparison of two rows. */
  predicate RowLeq(a: Vote, b: Vote)
  {
    a.userId < b.userId || (a.userId == b.userId && a.ordinal <= b.ordinal)
  }

  /** The strict version: `a` comes before `b` and the two differ in the sort key. */
  predicate RowLess(a: Vote, b: Vote)
  {
    a.userId < b.userId || (a.userId == b.userId && a.ordinal < b.ordinal)
  }

  function RowOrder(): (Vote, Vote) -> bool
  {
    (a: Vote, b: Vote) => RowLeq(a, b)
  }

  function StrictRowOrder(): (Vote, Vote) -> bool
  {
    (a: Vote, b: Vote) => RowLess(a, b)
  }

  predicate SortedRows(s: seq<Vote>)
  {
    forall i, j :: 0 <= i < j < |s| ==> RowLeq(s[i], s[j])
  }

  predicate StrictlySortedRows(s: seq<Vote>)
  {
    forall i, j :: 0 <= i < j < |s| ==> RowLess(s[i], s[j])
  }

  /** Puts `v` into the sorted `s` in front of the first row it does not follow. */
  function InsertRow(v: Vote, s: seq<Vote>): (r: seq<Vote>)
    requires SortedRows(s)
    ensures SortedRows(r) && multiset(r) == multiset(s) + multiset{v}
  {
    if |s| == 0 || RowLeq(v, s[0]) then
      [v] + s
    else
      var rest := InsertRow(v, s[1..]);
      assert s == [s[0]] + s[1..];
      HeadBelowRest(s[0], v, s[1..], rest);
      [s[0]] + rest
  }

  lemma HeadBelowRest(x: Vote, v: Vote, t: seq<Vote>, rest: seq<Vote>)
    requires RowLeq(x, v) && SortedRows(rest)
    requires forall k :: 0 <= k < |t| ==> RowLeq(x, t[k])
    requires multiset(rest) == multiset(t) + multiset{v}
    ensures SortedRows([x] + rest)
  {
    forall k | 0 <= k < |rest|
      ensures RowLeq(x, rest[k])
    {
      assert rest[k] in multiset(rest);
      if rest[k] != v {
        assert rest[k] in multiset(t);
      }
    }
  }

  /** The ordering the query applies to the rows it loads. */
  function SortRows(s: seq<Vote>): (r: seq<Vote>)
    ensures SortedRows(r) && multiset(r) == multiset(s)
  {
    if |s| == 0 then []
    else
      assert s == [s[0]] + s[1..];
      InsertRow(s[0], SortRows(s[1..]))
  }

  /** The `Vec<Vote>` that `run_election` loads: live rows sorted by voter, then ordinal. */
  function Snapshot(items: seq<Item>, rows: seq<Vote>): (r: seq<Vote>)
    ensures SortedRows(r) && multiset(r) == multiset(LiveRows(items, rows))
  {
    SortRows(LiveRows(items, rows))
  }

  /** `group_by(|v| v.user_id)`: maximal runs of consecutive rows of one voter. */
  function Runs(s: seq<Vote>): (r: seq<seq<Vote>>)
    ensures Flatten(r) == s
    ensures forall k :: 0 <= k < |r| ==> |r[k]| > 0
    ensures forall k, j :: 0 <= k < |r| && 0 <= j < |r[k]| ==> r[k][j].userId == r[k][0].userId
    ensures forall k :: 0 <= k < |r| - 1 ==> r[k][0].userId != r[k + 1][0].userId
    ensures |s| > 0 ==> |r| > 0 && r[0][0] == s[0]
  {
    if |s| == 0 then []
    else
      var rest := Runs(s[1..]);
      if |rest| > 0 && rest[0][0].userId == s[0].userId then
        var r := [[s[0]] + rest[0]] + rest[1..];
        assert Flatten(r) == [s[0]] + rest[0] + Flatten(rest[1..]);
        assert Flatten(rest) == rest[0] + Flatten(rest[1..]);
        r
      else
        var r := [[s[0]]] + rest;
        assert r[1..] == rest;
        r
  }

  /** `.map(|v| v.item_id)`. */
  function ItemIds(s: seq<Vote>): (r: seq<Int32>)
    ensures |r| == |s| && forall k :: 0 <= k < |s| ==> r[k] == s[k].itemId
  {
    seq(|s|, k requires 0 <= k < |s| => s[k].itemId)
  }

  /** The ranked lists handed to the tally: one list of item ids per run. */
  function Ballots(items: seq<Item>, rows: seq<Vote>): (r: seq<seq<Int32>>)
    ensures forall k :: 0 <= k < |r| ==> |r[k]| > 0
    ensures Flatten(r) == ItemIds(Snapshot(items, rows))
  {
    var runs := Runs(Snapshot(items, rows));
    FlattenItemIds(runs);
    seq(|runs|, k requires 0 <= k < |runs| => ItemIds(runs[k]))
  }

  /** The voter of each run: the key `group_by` computes and the code then drops. */
  function Voters(items: seq<Item>, rows: seq<Vote>): seq<Int32>
  {
    RunVoters(Runs(Snapshot(items, rows)))
  }

  /** What the instant-runoff tally decides. */
  datatype ElectionResult = Winner(id: Int32) | Tie(ids: seq<Int32>)

  /** The tally's `Result`: a decision, or an error that `.ok()?` turns into `None`. */
  datatype TallyResult = Decided(result: ElectionResult) | TallyFailed

  /** A Rust call that returns a value, or panics on an `unwrap` or an index. */
  datatype Outcome<T> = Returns(value: T) | Panics

  /** The item id the code looks up: the winner, or the first of the tied items
      (`iids[0]`, which has none to give when the tie is empty). */
  function Chosen(res: ElectionResult): (c: Option<Int32>)
    ensures c.None? <==> res == Tie([])
    ensures res.Winner? ==> c == Some(res.id)
    ensures res.Tie? && c.Some? ==> c.value == res.ids[0]
  {
    match res
    case Winner(w) => Some(w)
    case Tie(ts) => if |ts| == 0 then None else Some(ts[0])
  }

  /** `all_items.find(iid).get_result::<Item>(conn).unwrap()`. */
  function Lookup(items: seq<Item>, iid: Int32): (r: Outcome<Option<Item>>)
    ensures r.Panics? <==> forall k :: 0 <= k < |items| ==> items[k].id != iid
    ensures r.Returns? ==> r.value.Some? && r.value.value in items && r.value.value.id == iid
  {
    match FindItem(items, iid)
    case Some(it) => Returns(Some(it))
    case None => Panics
  }

  /** `Vote::run_election`. */
  function RunElection(items: seq<Item>, rows: seq<Vote>, tally: seq<seq<Int32>> -> TallyResult): (r: Outcome<Option<Item>>)
    ensures r == Returns(None) <==> tally(Ballots(items, rows)).TallyFailed?
    ensures r.Returns? && r.value.Some? ==>
      var res := tally(Ballots(items, rows)).result;
      r.value.value in items && Chosen(res) == Some(r.value.value.id)
    ensures tally(Ballots(items, rows)) == Decided(Tie([])) ==> r.Panics?
    ensures r.Panics? <==>
      var t := tally(Ballots(items, rows));
      t.Decided? && (Chosen(t.result).None? ||
                     forall k :: 0 <= k < |items| ==> items[k].id != Chosen(t.result).value)
  {
    match tally(Ballots(items, rows))
    case TallyFailed => Returns(None)
    case Decided(res) =>
      match Chosen(res)
      case None => Panics
      case Some(iid) => Lookup(items, iid)
  }

  // ---------------------------------------------------------------------------
  // Properties of the snapshot and its grouping

  predicate SortedByVoter(s: seq<Vote>)
  {
    forall i, j :: 0 <= i < j < |s| ==> s[i].userId <= s[j].userId
  }

  lemma RowsOfCons(x: Vote, t: seq<Vote>, u: Int32)
    ensures RowsOf([x] + t, u) == (if x.userId == u then [x] else []) + RowsOf(t, u)
  {
    assert ([x] + t)[1..] == t;
  }

  /** Every run has a first row, whose voter is the run's voter. */
  predicate NonEmptyRuns(r: seq<seq<Vote>>)
  {
    forall k :: 0 <= k < |r| ==> |r[k]| > 0
  }

  function RunVoter(run: seq<Vote>): Int32
    requires |run| > 0
  {
    run[0].userId
  }

  /** Each run is the whole of its voter's rows. */
  predicate RunsAreVoters(s: seq<Vote>, r: seq<seq<Vote>>)
    requires NonEmptyRuns(r)
  {
    forall k :: 0 <= k < |r| ==> r[k] == RowsOf(s, RunVoter(r[k]))
  }

  function RunVoters(r: seq<seq<Vote>>): seq<Int32>
    requires NonEmptyRuns(r)
  {
    seq(|r|, k requires 0 <= k < |r| => RunVoter(r[k]))
  }

  /** The runs' voters strictly increase, so no voter has two runs. */
  predicate VotersIncrease(r: seq<seq<Vote>>)
    requires NonEmptyRuns(r)
  {
    forall k, l :: 0 <= k < l < |r| ==> RunVoter(r[k]) < RunVoter(r[l])
  }

  /** Every voter who has a row has a run. */
  predicate VotersCovered(s: seq<Vote>, r: seq<seq<Vote>>)
    requires NonEmptyRuns(r)
  {
    forall i :: 0 <= i < |s| ==> exists k :: 0 <= k < |r| && RunVoter(r[k]) == s[i].userId
  }

  /** Covering carries over from the rest to the whole when the rest's runs are
      those of the whole from index `shift` on and the first row is covered. */
  lemma CoverShift(x: Vote, t: seq<Vote>, rt: seq<seq<Vote>>, r: seq<seq<Vote>>, shift: nat)
    requires NonEmptyRuns(rt) && NonEmptyRuns(r) && VotersCovered(t, rt)
    requires |r| == |rt| + shift && |r| > 0 && RunVoter(r[0]) == x.userId
    requires forall k :: 0 <= k < |rt| ==> RunVoter(r[k + shift]) == RunVoter(rt[k])
    ensures VotersCovered([x] + t, r)
  {
    var s := [x] + t;
    forall i | 0 <= i < |s|
      ensures exists k :: 0 <= k < |r| && RunVoter(r[k]) == s[i].userId
    {
      if i == 0 {
        assert RunVoter(r[0]) == s[0].userId;
      } else {
        assert s[i] == t[i - 1];
        var k :| 0 <= k < |rt| && RunVoter(rt[k]) == t[i - 1].userId;
        assert RunVoter(r[k + shift]) == RunVoter(rt[k]);
      }
    }
  }

  /** The first row joins the first run of the rest when both belong to one voter. */
  lemma MergeCase(x: Vote, t: seq<Vote>, rt: seq<seq<Vote>>)
    requires NonEmptyRuns(rt) && |rt| > 0 && RunVoter(rt[0]) == x.userId
    requires RunsAreVoters(t, rt) && VotersIncrease(rt) && VotersCovered(t, rt)
    ensures var r := [[x] + rt[0]] + rt[1..];
      NonEmptyRuns(r) && RunsAreVoters([x] + t, r) && VotersIncrease(r) && VotersCovered([x] + t, r)
  {
    var r := [[x] + rt[0]] + rt[1..];
    assert NonEmptyRuns(r) && forall k :: 0 <= k < |r| ==> RunVoter(r[k]) == RunVoter(rt[k]) by {
      assert forall k :: 0 < k < |r| ==> r[k] == rt[k];
    }
    assert VotersIncrease(r);
    assert RunsAreVoters([x] + t, r) by {
      forall k | 0 <= k < |r|
        ensures r[k] == RowsOf([x] + t, RunVoter(r[k]))
      {
        MergeRun(x, t, rt, k);
      }
    }
    CoverShift(x, t, rt, r, 0);
  }

  lemma MergeRun(x: Vote, t: seq<Vote>, rt: seq<seq<Vote>>, k: nat)
    requires NonEmptyRuns(rt) && |rt| > 0 && RunVoter(rt[0]) == x.userId
    requires RunsAreVoters(t, rt) && VotersIncrease(rt)
    requires k < |rt|
    ensures var r := [[x] + rt[0]] + rt[1..];
      r[k] == RowsOf([x] + t, RunVoter(rt[k]))
  {
    RowsOfCons(x, t, RunVoter(rt[k]));
    assert RowsOf(t, RunVoter(rt[k])) == rt[k];
    if k > 0 {
      assert RunVoter(rt[0]) < RunVoter(rt[k]);
    }
  }

  /** The first row opens a run of its own when the rest starts with another voter. */
  lemma NewRunCase(x: Vote, t: seq<Vote>, rt: seq<seq<Vote>>)
    requires SortedByVoter([x] + t)
    requires NonEmptyRuns(rt) && !(|rt| > 0 && RunVoter(rt[0]) == x.userId)
    requires |t| > 0 ==> |rt| > 0 && rt[0][0] == t[0]
    requires |t| == 0 ==> |rt| == 0
    requires RunsAreVoters(t, rt) && VotersIncrease(rt) && VotersCovered(t, rt)
    ensures var r := [[x]] + rt;
      NonEmptyRuns(r) && RunsAreVoters([x] + t, r) && VotersIncrease(r) && VotersCovered([x] + t, r)
  {
    NewRunAbove(x, t, rt);
    NewRunVoters(x, t, rt);
    NewRunIncrease(x, rt);
    NewRunShift(x, rt);
    CoverShift(x, t, rt, [[x]] + rt, 1);
  }

  lemma NewRunIncrease(x: Vote, rt: seq<seq<Vote>>)
    requires NonEmptyRuns(rt) && VotersIncrease(rt)
    requires forall k :: 0 <= k < |rt| ==> x.userId < RunVoter(rt[k])
    ensures NonEmptyRuns([[x]] + rt) && VotersIncrease([[x]] + rt)
  {
    var r := [[x]] + rt;
    assert forall k :: 0 < k < |r| ==> r[k] == rt[k - 1];
    forall k, l | 0 <= k < l < |r|
      ensures RunVoter(r[k]) < RunVoter(r[l])
    {
      assert r[l] == rt[l - 1];
      if k > 0 {
        assert r[k] == rt[k - 1];
      }
    }
  }

  lemma NewRunShift(x: Vote, rt: seq<seq<Vote>>)
    requires NonEmptyRuns(rt)
    ensures NonEmptyRuns([[x]] + rt)
    ensures RunVoter(([[x]] + rt)[0]) == x.userId
    ensures forall k :: 0 <= k < |rt| ==> RunVoter(([[x]] + rt)[k + 1]) == RunVoter(rt[k])
  {
    var r := [[x]] + rt;
    forall k | 0 <= k < |rt|
      ensures RunVoter(r[k + 1]) == RunVoter(rt[k])
    {
      assert r[k + 1] == rt[k];
    }
  }

  lemma NewRunVoters(x: Vote, t: seq<Vote>, rt: seq<seq<Vote>>)
    requires NonEmptyRuns(rt) && RunsAreVoters(t, rt)
    requires forall k :: 0 <= k < |t| ==> x.userId < t[k].userId
    requires forall k :: 0 <= k < |rt| ==> x.userId < RunVoter(rt[k])
    ensures NonEmptyRuns([[x]] + rt) && RunsAreVoters([x] + t, [[x]] + rt)
  {
    var r := [[x]] + rt;
    assert forall k :: 0 < k < |r| ==> r[k] == rt[k - 1];
    FilterNone(t, VoterIs(x.userId));
    RowsOfCons(x, t, x.userId);
    forall k | 0 < k < |r|
      ensures r[k] == RowsOf([x] + t, RunVoter(r[k]))
    {
      NewRunRest(x, t, rt, k - 1);
    }
  }

  lemma NewRunRest(x: Vote, t: seq<Vote>, rt: seq<seq<Vote>>, k: nat)
    requires NonEmptyRuns(rt) && RunsAreVoters(t, rt)
    requires k < |rt| && x.userId < RunVoter(rt[k])
    ensures rt[k] == RowsOf([x] + t, RunVoter(rt[k]))
  {
    RowsOfCons(x, t, RunVoter(rt[k]));
  }

  /** When the rest starts with another voter, every voter of the rest comes after the first row's. */
  lemma NewRunAbove(x: Vote, t: seq<Vote>, rt: seq<seq<Vote>>)
    requires SortedByVoter([x] + t)
    requires NonEmptyRuns(rt) && !(|rt| > 0 && RunVoter(rt[0]) == x.userId)
    requires |t| > 0 ==> |rt| > 0 && rt[0][0] == t[0]
    requires |t| == 0 ==> |rt| == 0
    requires VotersIncrease(rt)
    ensures forall k :: 0 <= k < |t| ==> x.userId < t[k].userId
    ensures forall k :: 0 <= k < |rt| ==> x.userId < RunVoter(rt[k])
  {
    var s := [x] + t;
    forall k | 0 <= k < |t|
      ensures x.userId < t[k].userId
    {
      assert s[0] == x && s[1] == t[0] && s[k + 1] == t[k];
      assert RunVoter(rt[0]) == t[0].userId;
    }
    forall k | 0 <= k < |rt|
      ensures x.userId < RunVoter(rt[k])
    {
      assert k == 0 || RunVoter(rt[0]) < RunVoter(rt[k]);
    }
  }

  /** On rows sorted by voter, each run holds all the rows of its voter, the runs'
      voters strictly increase, and every voter in the rows has a run. */
  lemma {:induction false} RunsOfSorted(s: seq<Vote>)
    requires SortedByVoter(s)
    ensures NonEmptyRuns(Runs(s))
    ensures RunsAreVoters(s, Runs(s)) && VotersIncrease(Runs(s)) && VotersCovered(s, Runs(s))
  {
    if |s| > 0 {
      var x, t := s[0], s[1..];
      assert s == [x] + t;
      RunsOfSorted(t);
      var rt: seq<seq<Vote>> := Runs(t);
      if |rt| > 0 && RunVoter(rt[0]) == x.userId {
        assert Runs(s) == [[x] + rt[0]] + rt[1..];
        MergeCase(x, t, rt);
      } else {
        assert Runs(s) == [[x]] + rt;
        NewRunCase(x, t, rt);
      }
    }
  }

  /** The loaded rows come back sorted by voter and are a permutation of the live rows. */
  lemma SnapshotSorted(items: seq<Item>, rows: seq<Vote>)
    ensures SortedByVoter(Snapshot(items, rows))
    ensures multiset(Snapshot(items, rows)) == multiset(LiveRows(items, rows))
  {
  }

  /** The grouping facts of `RunsOfSorted`, for the loaded rows. */
  lemma SnapshotRuns(items: seq<Item>, rows: seq<Vote>)
    ensures var runs := Runs(Snapshot(items, rows));
      NonEmptyRuns(runs) && RunsAreVoters(Snapshot(items, rows), runs) &&
      VotersIncrease(runs) && VotersCovered(Snapshot(items, rows), runs)
  {
    SnapshotSorted(items, rows);
    RunsOfSorted(Snapshot(items, rows));
  }

  /** A voter has a run exactly when they have a row. */
  lemma VoterHasRun(s: seq<Vote>, r: seq<seq<Vote>>, u: Int32)
    requires NonEmptyRuns(r) && RunsAreVoters(s, r) && VotersCovered(s, r)
    ensures (exists k :: 0 <= k < |r| && RunVoter(r[k]) == u) <==> RowsOf(s, u) != []
  {
    if exists k :: 0 <= k < |r| && RunVoter(r[k]) == u {
      var k :| 0 <= k < |r| && RunVoter(r[k]) == u;
      assert r[k] == RowsOf(s, u);
    }
    if RowsOf(s, u) != [] {
      var m := RowsOf(s, u)[0];
      assert m in s && VoterIs(u)(m);
      var i :| 0 <= i < |s| && s[i] == m;
      var k :| 0 <= k < |r| && RunVoter(r[k]) == s[i].userId;
    }
  }

  /** Reordering rows does not change who has rows. */
  lemma SameVoters(a: seq<Vote>, b: seq<Vote>, u: Int32)
    requires multiset(a) == multiset(b)
    ensures RowsOf(a, u) != [] <==> RowsOf(b, u) != []
  {
    FilterMultiset(a, b, VoterIs(u));
    assert |RowsOf(a, u)| == |multiset(RowsOf(a, u))|;
    assert |RowsOf(b, u)| == |multiset(RowsOf(b, u))|;
  }

  /** The voters are exactly those with at least one live row. */
  lemma VotersAreLiveVoters(items: seq<Item>, rows: seq<Vote>, u: Int32)
    ensures u in Voters(items, rows) <==> RowsOf(LiveRows(items, rows), u) != []
  {
    var s := Snapshot(items, rows);
    var runs: seq<seq<Vote>> := Runs(s);
    SnapshotRuns(items, rows);
    SnapshotSorted(items, rows);
    VoterHasRun(s, runs, u);
    SameVoters(s, LiveRows(items, rows), u);
    InRunVoters(runs, u);
  }

  lemma InRunVoters(r: seq<seq<Vote>>, u: Int32)
    requires NonEmptyRuns(r)
    ensures u in RunVoters(r) <==> exists k :: 0 <= k < |r| && RunVoter(r[k]) == u
  {
    var voters := RunVoters(r);
    if u in voters {
      var k :| 0 <= k < |voters| && voters[k] == u;
      assert RunVoter(r[k]) == u;
    }
    if exists k :: 0 <= k < |r| && RunVoter(r[k]) == u {
      var k :| 0 <= k < |r| && RunVoter(r[k]) == u;
      assert voters[k] == u;
    }
  }

  /** Each voter with at least one live row contributes exactly one non-empty ballot,
      and every ballot is the item ids of its voter's loaded rows. */
  lemma OneBallotPerVoter(items: seq<Item>, rows: seq<Vote>)
    ensures |Voters(items, rows)| == |Ballots(items, rows)|
    ensures forall k, l :: 0 <= k < l < |Voters(items, rows)| ==> Voters(items, rows)[k] < Voters(items, rows)[l]
    ensures forall u :: u in Voters(items, rows) <==> RowsOf(LiveRows(items, rows), u) != []
    ensures forall k :: 0 <= k < |Ballots(items, rows)| ==>
      |Ballots(items, rows)[k]| > 0 &&
      Ballots(items, rows)[k] == ItemIds(RowsOf(Snapshot(items, rows), Voters(items, rows)[k]))
  {
    var s := Snapshot(items, rows);
    var runs: seq<seq<Vote>> := Runs(s);
    var voters := Voters(items, rows);
    var ballots := Ballots(items, rows);
    SnapshotRuns(items, rows);
    forall u
      ensures u in voters <==> RowsOf(LiveRows(items, rows), u) != []
    {
      VotersAreLiveVoters(items, rows, u);
    }
    forall k | 0 <= k < |ballots|
      ensures |ballots[k]| > 0 && ballots[k] == ItemIds(RowsOf(s, voters[k]))
    {
      assert ballots[k] == ItemIds(runs[k]) && voters[k] == RunVoter(runs[k]);
    }
    forall k, l | 0 <= k < l < |voters|
      ensures voters[k] < voters[l]
    {
      assert voters[k] == RunVoter(runs[k]) && voters[l] == RunVoter(runs[l]);
    }
  }

  lemma ItemIdsConcat(a: seq<Vote>, b: seq<Vote>)
    ensures ItemIds(a + b) == ItemIds(a) + ItemIds(b)
  {
  }

  lemma {:induction false} FlattenItemIds(runs: seq<seq<Vote>>)
    ensures Flatten(seq(|runs|, k requires 0 <= k < |runs| => ItemIds(runs[k]))) == ItemIds(Flatten(runs))
  {
    if |runs| > 0 {
      var ids := seq(|runs|, k requires 0 <= k < |runs| => ItemIds(runs[k]));
      assert ids[1..] == seq(|runs[1..]|, k requires 0 <= k < |runs[1..]| => ItemIds(runs[1..][k]));
      FlattenItemIds(runs[1..]);
      ItemIdsConcat(runs[0], Flatten(runs[1..]));
    }
  }

  /** Every id on every ballot names an open item. */
  lemma BallotIdsLive(items: seq<Item>, rows: seq<Vote>)
    ensures forall k, j :: 0 <= k < |Ballots(items, rows)| && 0 <= j < |Ballots(items, rows)[k]| ==>
      IsLive(items, Ballots(items, rows)[k][j])
  {
    var s := Snapshot(items, rows);
    var runs: seq<seq<Vote>> := Runs(s);
    forall k, j | 0 <= k < |runs| && 0 <= j < |runs[k]|
      ensures IsLive(items, runs[k][j].itemId)
    {
      FlattenMember(runs, k, j);
      assert runs[k][j] in multiset(LiveRows(items, rows));
      assert LiveItem(items)(runs[k][j]);
    }
  }

  /** When the tally picks an item that is on some ballot, `run_election` returns that
      item, and the item is open. */
  lemma ElectedItemIsLive(items: seq<Item>, rows: seq<Vote>, tally: seq<seq<Int32>> -> TallyResult, k: nat, j: nat)
    requires ItemsKeyed(items)
    requires k < |Ballots(items, rows)| && j < |Ballots(items, rows)[k]|
    requires tally(Ballots(items, rows)).Decided?
    requires Chosen(tally(Ballots(items, rows)).result) == Some(Ballots(items, rows)[k][j])
    ensures RunElection(items, rows, tally).Returns?
    ensures var r := RunElection(items, rows, tally).value;
      r.Some? && r.value.id == Ballots(items, rows)[k][j] && r.value in items && !r.value.done
  {
    BallotIdsLive(items, rows);
    var iid := Ballots(items, rows)[k][j];
    var m :| 0 <= m < |items| && items[m].id == iid && !items[m].done;
  }

  /** Two sorted orders of the same rows agree when one has no ties in the sort key:
      the database's choice among ties is then immaterial. */
  lemma {:induction false} SortedRowsUnique(a: seq<Vote>, b: seq<Vote>)
    requires SortedRows(a) && StrictlySortedRows(b)
    requires multiset(a) == multiset(b)
    ensures a == b
  {
    assert |a| == |multiset(a)| == |multiset(b)| == |b|;
    if |a| > 0 {
      SameHead(a, b);
      var x := a[0];
      assert a == [x] + a[1..] && b == [x] + b[1..];
      TailMultiset(a, b);
      SortedRowsUnique(a[1..], b[1..]);
    }
  }

  /** The least row of a multiset heads every sorted order of it, when that order is strict. */
  lemma SameHead(a: seq<Vote>, b: seq<Vote>)
    requires SortedRows(a) && StrictlySortedRows(b)
    requires multiset(a) == multiset(b) && |a| > 0 && |b| > 0
    ensures a[0] == b[0]
  {
    assert a[0] in multiset(b);
    var j :| 0 <= j < |b| && b[j] == a[0];
    assert b[0] in multiset(a);
    var i :| 0 <= i < |a| && a[i] == b[0];
    assert i == 0 || RowLeq(a[0], a[i]);
  }

  lemma TailMultiset(a: seq<Vote>, b: seq<Vote>)
    requires multiset(a) == multiset(b) && |a| > 0 && |b| > 0 && a[0] == b[0]
    ensures multiset(a[1..]) == multiset(b[1..])
  {
    assert a == [a[0]] + a[1..] && b == [b[0]] + b[1..];
    assert multiset(a) == multiset{a[0]} + multiset(a[1..]);
    assert multiset(b) == multiset{b[0]} + multiset(b[1..]);
    forall x
      ensures multiset(a[1..])[x] == multiset(b[1..])[x]
    {
      assert multiset(a)[x] == multiset{a[0]}[x] + multiset(a[1..])[x];
      assert multiset(b)[x] == multiset{b[0]}[x] + multiset(b[1..])[x];
    }
  }

  /** Any order the database may return for the query is the snapshot, provided no
      voter has two live rows at one ordinal. */
  lemma QueryOrderDetermined(items: seq<Item>, rows: seq<Vote>, loaded: seq<Vote>)
    requires StrictlySortedRows(loaded)
    requires multiset(loaded) == multiset(LiveRows(items, rows))
    ensures loaded == Snapshot(items, rows)
  {
    SortedRowsUnique(Snapshot(items, rows), loaded);
  }

  lemma {:induction false} ItemIdsFilter(items: seq<Item>, s: seq<Vote>)
    ensures ItemIds(Filter(s, LiveItem(items))) == Filter(ItemIds(s), LiveId(items))
  {
    if |s| > 0 {
      ItemIdsFilter(items, s[1..]);
      var head := if LiveItem(items)(s[0]) then [s[0]] else [];
      ItemIdsConcat(head, Filter(s[1..], LiveItem(items)));
      assert ItemIds(s)[1..] == ItemIds(s[1..]);
    }
  }

  /** A submitted ballot's rows are strictly ordered by ordinal, and stay so when the
      rows of closed items are dropped. */
  lemma LiveBallotRowsStrict(items: seq<Item>, uid: Int32, votes: seq<Int32>)
    requires |votes| <= 0x8000_0000
    ensures StrictlySortedRows(LiveRows(items, BallotRows(uid, votes)))
  {
    var mine := BallotRows(uid, votes);
    assert forall i, j :: 0 <= i < j < |mine| ==> StrictRowOrder()(mine[i], mine[j]);
    FilterPairwise(mine, LiveItem(items), StrictRowOrder());
    var live := LiveRows(items, mine);
    forall i, j | 0 <= i < j < |live|
      ensures RowLess(live[i], live[j])
    {
      assert StrictRowOrder()(live[i], live[j]);
    }
  }

  /** One voter's loaded rows are that voter's live rows, in ascending ordinal order. */
  lemma VoterRowsInOrdinalOrder(items: seq<Item>, rows: seq<Vote>, u: Int32)
    ensures multiset(RowsOf(Snapshot(items, rows), u)) == multiset(RowsOf(LiveRows(items, rows), u))
    ensures SortedRows(RowsOf(Snapshot(items, rows), u))
    ensures forall i, j :: 0 <= i < j < |RowsOf(Snapshot(items, rows), u)| ==>
      RowsOf(Snapshot(items, rows), u)[i].ordinal <= RowsOf(Snapshot(items, rows), u)[j].ordinal
  {
    var s := Snapshot(items, rows);
    FilterMultiset(s, LiveRows(items, rows), VoterIs(u));
    FilterPairwise(s, VoterIs(u), RowOrder());
    var mine := RowsOf(s, u);
    forall i, j | 0 <= i < j < |mine|
      ensures RowLeq(mine[i], mine[j])
    {
      assert RowOrder()(mine[i], mine[j]);
    }
    forall i, j | 0 <= i < j < |mine|
      ensures mine[i].ordinal <= mine[j].ordinal
    {
      assert VoterIs(u)(mine[i]) && VoterIs(u)(mine[j]);
    }
  }

  /** After the save, the voter's live rows are the live rows of the submitted ballot. */
  lemma LiveVoterRows(items: seq<Item>, rows: seq<Vote>, uid: Int32, votes: seq<Int32>)
    ensures RowsOf(LiveRows(items, Replaced(rows, uid, votes)), uid) == LiveRows(items, BallotRows(uid, votes))
  {
    ReplacedVoterRows(rows, uid, votes);
    FilterCommute(Replaced(rows, uid, votes), LiveItem(items), VoterIs(uid));
  }

  /** After the save, the voter's loaded rows are the live rows of the submitted ballot,
      in submission order. */
  lemma VoterSnapshotRows(items: seq<Item>, rows: seq<Vote>, uid: Int32, votes: seq<Int32>)
    requires |votes| <= 0x8000_0000
    ensures RowsOf(Snapshot(items, Replaced(rows, uid, votes)), uid) == LiveRows(items, BallotRows(uid, votes))
  {
    var after := Replaced(rows, uid, votes);
    LiveVoterRows(items, rows, uid, votes);
    VoterRowsInOrdinalOrder(items, after, uid);
    LiveBallotRowsStrict(items, uid, votes);
    SortedRowsUnique(RowsOf(Snapshot(items, after), uid), LiveRows(items, BallotRows(uid, votes)));
  }

  /** The item ids of a ballot's live rows are the submitted ids that name open items. */
  lemma LiveBallotIds(items: seq<Item>, uid: Int32, votes: seq<Int32>)
    ensures ItemIds(LiveRows(items, BallotRows(uid, votes))) == Filter(votes, LiveId(items))
  {
    ItemIdsFilter(items, BallotRows(uid, votes));
    assert ItemIds(BallotRows(uid, votes)) == votes;
  }

  /** End to end: after `save_ballot(uid, votes)` the tally receives, as `uid`'s ballot,
      exactly the submitted ids that name open items, in submission order; a voter
      none of whose ids is open gets no ballot at all. */
  lemma SubmittedBallotIsTallied(items: seq<Item>, rows: seq<Vote>, uid: Int32, votes: seq<Int32>)
    requires |votes| <= 0x8000_0000
    ensures var after := Replaced(rows, uid, votes);
      var live := Filter(votes, LiveId(items));
      (live != [] ==> exists k :: 0 <= k < |Ballots(items, after)| &&
                                  Voters(items, after)[k] == uid && Ballots(items, after)[k] == live) &&
      (live == [] ==> uid !in Voters(items, after))
  {
    var after := Replaced(rows, uid, votes);
    var live := Filter(votes, LiveId(items));
    VoterSnapshotRows(items, rows, uid, votes);
    LiveBallotIds(items, uid, votes);
    LiveVoterRows(items, rows, uid, votes);
    VotersAreLiveVoters(items, after, uid);
    assert |ItemIds(LiveRows(items, BallotRows(uid, votes)))| == |LiveRows(items, BallotRows(uid, votes))|;
    if live != [] {
      OneBallotPerVoter(items, after);
      var k :| 0 <= k < |Voters(items, after)| && Voters(items, after)[k] == uid;
      assert Ballots(items, after)[k] == live;
    }
  }
}
