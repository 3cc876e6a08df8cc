/** `Vote::save_ballot`: a voter's submission replaces their rows of the `votes`
    table. The table is a class whose `rows` the operation updates in place; the
    functions below say what the table holds afterwards. */
module BallotStore {
  import opened Seqs
  import opened Schema

  /** The rows `save_ballot(uid, votes)` inserts: item `votes[i]` at ordinal `i as i32`. */
  function BallotRows(uid: Int32, votes: seq<Int32>): (r: seq<Vote>)
    ensures |r| == |votes|
    ensures forall i :: 0 <= i < |r| ==> r[i].userId == uid && r[i].itemId == votes[i]
    ensures |votes| <= 0x8000_0000 ==> forall i :: 0 <= i < |r| ==> r[i].ordinal as int == i
  {
    seq(|votes|, i requires 0 <= i < |votes| => Vote(uid, votes[i], AsInt32(i)))
  }

  /** The table after deleting every row of `uid` and then inserting `votes` in order. */
  function Replaced(rows: seq<Vote>, uid: Int32, votes: seq<Int32>): (r: seq<Vote>)
    ensures forall v :: v in r && v.userId != uid <==> v in rows && v.userId != uid
    ensures forall v :: v in r && v.userId == uid ==> v.itemId in votes
  {
    var kept := Filter(rows, VoterIsNot(uid));
    var r := kept + BallotRows(uid, votes);
    assert forall v :: v in kept <==> v in rows && v.userId != uid by {
      forall v | v in kept ensures v in rows && v.userId != uid {
        var k :| 0 <= k < |kept| && kept[k] == v;
        assert VoterIsNot(uid)(kept[k]);
      }
      forall v | v in rows && v.userId != uid ensures v in kept {
        var k :| 0 <= k < |rows| && rows[k] == v;
        assert VoterIsNot(uid)(rows[k]);
      }
    }
    r
  }

  /** The length of the longest prefix of `votes` that repeats no id; `|votes|` when
      every id is distinct. The insert at this position is the one the key refuses. */
  function FirstRepeat(votes: seq<Int32>): (n: nat)
    ensures n <= |votes| && Distinct(votes[..n])
    ensures n < |votes| ==> votes[n] in votes[..n]
    ensures n == |votes| <==> Distinct(votes)
  {
    if |votes| == 0 then 0
    else
      var init := votes[..|votes| - 1];
      var m := FirstRepeat(init);
      assert init[..m] == votes[..m];
      if m < |init| then
        assert init[m] == votes[m];
        m
      else if votes[|votes| - 1] in init then |votes| - 1
      else
        assert votes == init + [votes[|votes| - 1]];
        |votes|
  }

  /** The contract of `FirstRepeat` pins down its value. */
  lemma FirstRepeatIsFirst(votes: seq<Int32>, n: nat)
    requires n <= |votes| && Distinct(votes[..n])
    requires n < |votes| ==> votes[n] in votes[..n]
    ensures FirstRepeat(votes) == n
  {
    var f := FirstRepeat(votes);
    assert forall j, k :: 0 <= j < k < n ==> votes[j] != votes[k] by {
      forall j, k | 0 <= j < k < n ensures votes[j] != votes[k] {
        assert votes[..n][j] != votes[..n][k];
      }
    }
    assert forall j, k :: 0 <= j < k < f ==> votes[j] != votes[k] by {
      forall j, k | 0 <= j < k < f ensures votes[j] != votes[k] {
        assert votes[..f][j] != votes[..f][k];
      }
    }
    assert f < |votes| ==> exists j :: 0 <= j < f && votes[j] == votes[f];
    assert n < |votes| ==> exists j :: 0 <= j < n && votes[j] == votes[n];
  }

  lemma BallotRowsSnoc(uid: Int32, votes: seq<Int32>, x: Int32)
    ensures BallotRows(uid, votes + [x]) == BallotRows(uid, votes) + [Vote(uid, x, AsInt32(|votes|))]
  {
  }

  /** After a save the voter's rows are exactly the submitted ballot: item `votes[i]`
      at ordinal `i`, dense from 0 and in submission order (for any ballot short
      enough that `i as i32` does not wrap). */
  lemma ReplacedVoterRows(rows: seq<Vote>, uid: Int32, votes: seq<Int32>)
    ensures RowsOf(Replaced(rows, uid, votes), uid) == BallotRows(uid, votes)
    ensures |votes| <= 0x8000_0000 ==>
      |RowsOf(Replaced(rows, uid, votes), uid)| == |votes| &&
      forall i :: 0 <= i < |votes| ==> RowsOf(Replaced(rows, uid, votes), uid)[i] == Vote(uid, votes[i], i as Int32)
  {
    var kept := Filter(rows, VoterIsNot(uid));
    FilterConcat(kept, BallotRows(uid, votes), VoterIs(uid));
    FilterNone(kept, VoterIs(uid));
    FilterAll(BallotRows(uid, votes), VoterIs(uid));
  }

  /** Submitting an empty ballot leaves the voter with no rows. */
  lemma EmptyBallotWithdraws(rows: seq<Vote>, uid: Int32)
    ensures RowsOf(Replaced(rows, uid, []), uid) == []
  {
    ReplacedVoterRows(rows, uid, []);
  }

  /** Rows of every other voter are untouched, in content and in order. */
  lemma ReplacedKeepsOthers(rows: seq<Vote>, uid: Int32, votes: seq<Int32>)
    ensures Filter(Replaced(rows, uid, votes), VoterIsNot(uid)) == Filter(rows, VoterIsNot(uid))
    ensures forall other :: other != uid ==> RowsOf(Replaced(rows, uid, votes), other) == RowsOf(rows, other)
  {
    var kept := Filter(rows, VoterIsNot(uid));
    FilterConcat(kept, BallotRows(uid, votes), VoterIsNot(uid));
    FilterAll(kept, VoterIsNot(uid));
    FilterNone(BallotRows(uid, votes), VoterIsNot(uid));
    forall other | other != uid
      ensures RowsOf(Replaced(rows, uid, votes), other) == RowsOf(rows, other)
    {
      FilterConcat(kept, BallotRows(uid, votes), VoterIs(other));
      FilterNone(BallotRows(uid, votes), VoterIs(other));
      FilterCommute(rows, VoterIsNot(uid), VoterIs(other));
      FilterAll(Filter(rows, VoterIs(other)), VoterIsNot(uid));
    }
  }

  /** Replace, not merge: the outcome is what it would have been had the voter never
      voted, so no row of the previous ballot survives unless it is submitted again. */
  lemma ReplaceNotMerge(rows: seq<Vote>, uid: Int32, votes: seq<Int32>)
    ensures Replaced(rows, uid, votes) == Replaced(Filter(rows, VoterIsNot(uid)), uid, votes)
    ensures forall v :: v in RowsOf(rows, uid) && v !in BallotRows(uid, votes) ==> v !in Replaced(rows, uid, votes)
  {
    FilterAll(Filter(rows, VoterIsNot(uid)), VoterIsNot(uid));
  }

  /** Saving the same ballot twice in a row leaves the table as saving it once. */
  lemma ReplaceIdempotent(rows: seq<Vote>, uid: Int32, votes: seq<Int32>)
    ensures Replaced(Replaced(rows, uid, votes), uid, votes) == Replaced(rows, uid, votes)
  {
    ReplacedKeepsOthers(rows, uid, votes);
  }

  /** A voter has a row for item `iid` after the save exactly when `iid` is on the
      ballot; for any other voter the answer is what it was. */
  lemma HasKeyReplaced(rows: seq<Vote>, uid: Int32, votes: seq<Int32>, u: Int32, iid: Int32)
    ensures HasKey(Replaced(rows, uid, votes), u, iid) <==>
      if u == uid then iid in votes else HasKey(rows, u, iid)
  {
    var after := Replaced(rows, uid, votes);
    HasKeyRowsOf(after, u, iid);
    HasKeyRowsOf(rows, u, iid);
    if u == uid {
      ReplacedVoterRows(rows, uid, votes);
      if iid in votes {
        var i :| 0 <= i < |votes| && votes[i] == iid;
        assert RowsOf(after, u)[i].itemId == iid;
      }
    } else {
      ReplacedKeepsOthers(rows, uid, votes);
    }
  }

  /** `HasKey` asks whether the voter's own rows mention the item. */
  lemma HasKeyRowsOf(rows: seq<Vote>, u: Int32, iid: Int32)
    ensures HasKey(rows, u, iid) <==>
      exists k :: 0 <= k < |RowsOf(rows, u)| && RowsOf(rows, u)[k].itemId == iid
  {
    var mine := RowsOf(rows, u);
    if HasKey(rows, u, iid) {
      var k :| 0 <= k < |rows| && rows[k].userId == u && rows[k].itemId == iid;
      assert VoterIs(u)(rows[k]);
      assert rows[k] in mine;
    }
    if exists k :: 0 <= k < |mine| && mine[k].itemId == iid {
      var k :| 0 <= k < |mine| && mine[k].itemId == iid;
      assert mine[k] in rows && VoterIs(u)(mine[k]);
    }
  }

  /** Distinct keys, as a relation between an earlier and a later row. */
  function NotSameKey(): (Vote, Vote) -> bool
  {
    (a: Vote, b: Vote) => !SameKey(a, b)
  }

  /** A save of distinct ids keeps the `(user_id, item_id)` key unique. */
  lemma ReplacedKeyed(rows: seq<Vote>, uid: Int32, votes: seq<Int32>)
    requires Keyed(rows) && Distinct(votes)
    ensures Keyed(Replaced(rows, uid, votes))
  {
    var kept := Filter(rows, VoterIsNot(uid));
    FilterPairwise(rows, VoterIsNot(uid), NotSameKey());
    var after := Replaced(rows, uid, votes);
    forall i, j | 0 <= i < j < |after|
      ensures !SameKey(after[i], after[j])
    {
      if j < |kept| {
        assert NotSameKey()(kept[i], kept[j]);
      } else if i < |kept| {
        assert VoterIsNot(uid)(kept[i]);
      }
    }
  }

  /** What `save_ballot` reports: every insert succeeded, or the insert at
      position `at` broke the `(user_id, item_id)` key and panicked. */
  datatype SaveResult = Saved | InsertFailed(at: nat)

  /** A failed save has already deleted the old ballot and kept the inserts before the
      failing one: the voter is left with a strict prefix of the submission. */
  lemma FailedSaveIsPartial(rows: seq<Vote>, uid: Int32, votes: seq<Int32>)
    requires !Distinct(votes)
    ensures var n := FirstRepeat(votes);
      n < |votes| && RowsOf(Replaced(rows, uid, votes[..n]), uid) == BallotRows(uid, votes[..n])
  {
    ReplacedVoterRows(rows, uid, votes[..FirstRepeat(votes)]);
  }

  /** Voter 7 holds ballot [1, 2] and submits [3, 3]: the second insert fails, the
      voter is left holding [3], which is neither the old ballot nor the new one. */
  lemma PartialWriteWitness()
    ensures var before := [Vote(7, 1, 0), Vote(7, 2, 1)];
      var votes: seq<Int32> := [3, 3];
      var after := Replaced(before, 7, votes[..FirstRepeat(votes)]);
      FirstRepeat(votes) == 1 && after == [Vote(7, 3, 0)] && after != before
  {
    var votes: seq<Int32> := [3, 3];
    assert votes[..1] == [3];
    FirstRepeatIsFirst(votes, 1);
    var before := [Vote(7, 1, 0), Vote(7, 2, 1)];
    FilterNone(before, VoterIsNot(7));
    assert votes[..1] == [3];
  }

  /** One insert of the save loop: it is refused exactly when the id was already
      inserted, and otherwise extends the replaced table by the next ballot row. */
  lemma SaveStep(rows: seq<Vote>, uid: Int32, votes: seq<Int32>, i: nat)
    requires i < |votes|
    ensures HasKey(Replaced(rows, uid, votes[..i]), uid, votes[i]) <==> votes[i] in votes[..i]
    ensures Replaced(rows, uid, votes[..i]) + [Vote(uid, votes[i], AsInt32(i))] == Replaced(rows, uid, votes[..i + 1])
    ensures Distinct(votes[..i]) && votes[i] !in votes[..i] ==> Distinct(votes[..i + 1])
  {
    HasKeyReplaced(rows, uid, votes[..i], uid, votes[i]);
    BallotRowsSnoc(uid, votes[..i], votes[i]);
    assert votes[..i + 1] == votes[..i] + [votes[i]];
  }

  /** The `votes` table: its rows in insertion order, under the `(user_id, item_id)`
      primary key. */
  class VoteTable {
    var rows: seq<Vote>

    ghost predicate Valid()
      reads this
    {
      Keyed(rows)
    }

    constructor (initial: seq<Vote>)
      requires Keyed(initial)
      ensures Valid() && rows == initial
    {
      rows := initial;
    }

    /** `DELETE FROM votes WHERE user_id = uid`. */
    method DeleteVoter(uid: Int32)
      requires Valid()
      modifies this
      ensures Valid()
      ensures rows == Filter(old(rows), VoterIsNot(uid))
    {
      FilterPairwise(rows, VoterIsNot(uid), NotSameKey());
      rows := Filter(rows, VoterIsNot(uid));
    }

    /** `INSERT INTO votes VALUES (v)`, refused when the key is already present. */
    method Insert(v: Vote) returns (ok: bool)
      requires Valid()
      modifies this
      ensures Valid()
      ensures ok <==> !HasKey(old(rows), v.userId, v.itemId)
      ensures rows == if ok then old(rows) + [v] else old(rows)
    {
      ok := !HasKey(rows, v.userId, v.itemId);
      if ok {
        rows := rows + [v];
      }
    }

    /** `save_ballot(uid, ballot)`: delete the voter's rows, then insert one row per
        submitted id with its list index as ordinal, with no transaction around them.
        The insert of a repeated id fails; the delete and the earlier inserts stay. */
    method SaveBallot(uid: Int32, ballot: Ballot) returns (result: SaveResult)
      requires Valid()
      modifies this
      ensures Valid()
      ensures result == Saved <==> Distinct(ballot.votes)
      ensures result.InsertFailed? ==> result.at == FirstRepeat(ballot.votes) < |ballot.votes|
      ensures rows == Replaced(old(rows), uid, ballot.votes[..FirstRepeat(ballot.votes)])
    {
      DeleteVoter(uid);
      var votes := ballot.votes;
      var i := 0;
      assert votes[..0] == [];
      while i < |votes|
        invariant 0 <= i <= |votes|
        invariant Valid()
        invariant Distinct(votes[..i])
        invariant rows == Replaced(old(rows), uid, votes[..i])
      {
        SaveStep(old(rows), uid, votes, i);
        var ok := Insert(Vote(uid, votes[i], AsInt32(i)));
        if !ok {
          FirstRepeatIsFirst(votes, i);
          return InsertFailed(i);
        }
        i := i + 1;
      }
      assert votes[..i] == votes;
      FirstRepeatIsFirst(votes, i);
      return Saved;
    }

    /** The all-or-nothing save: a ballot that repeats an id is refused before anything
        is deleted, so the voter keeps the previous ballot. */
    method SaveBallotAtomic(uid: Int32, ballot: Ballot) returns (result: SaveResult)
      requires Valid()
      modifies this
      ensures Valid()
      ensures result == Saved <==> Distinct(ballot.votes)
      ensures result.InsertFailed? ==> result.at == FirstRepeat(ballot.votes) && rows == old(rows)
      ensures result == Saved ==> rows == Replaced(old(rows), uid, ballot.votes)
    {
      var n := FirstRepeat(ballot.votes);
      if n < |ballot.votes| {
        return InsertFailed(n);
      }
      assert ballot.votes[..n] == ballot.votes;
      result := SaveBallot(uid, ballot);
    }
  }
}
