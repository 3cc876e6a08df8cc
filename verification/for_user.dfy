/** `Item::for_user`: every open item, left-joined with the given voter's vote row
    for it, ordered so that the voter's ranked items come first in ranking order,
    and reduced to a flag saying whether that row exists. */
module ItemView {
  import opened Seqs
  import opened Schema
  import opened BallotStore

  /** `user_id = uid AND item_id = iid`: the join condition for one item. */
  function VoteFor(uid: Int32, iid: Int32): (p: Vote -> bool)
    ensures forall v :: p(v) <==> SameKey(v, Vote(uid, iid, v.ordinal))
  {
    (v: Vote) => v.userId == uid && v.itemId == iid
  }

  /** The vote rows the left join pairs with item `iid`. */
  function Matches(rows: seq<Vote>, uid: Int32, iid: Int32): (m: seq<Vote>)
    ensures forall k :: 0 <= k < |m| ==> m[k] in rows && m[k].userId == uid && m[k].itemId == iid
    ensures forall k :: 0 <= k < |rows| && rows[k].userId == uid && rows[k].itemId == iid ==> rows[k] in m
  {
    Filter(rows, VoteFor(uid, iid))
  }

  /** A row of the joined query: the item, and the `ordinal` column, NULL when no
      vote row matched. */
  datatype Joined = Joined(item: Item, ordinal: Option<Int32>)

  lemma MatchesIffKey(rows: seq<Vote>, uid: Int32, iid: Int32)
    ensures Matches(rows, uid, iid) != [] <==> HasKey(rows, uid, iid)
  {
    var m := Matches(rows, uid, iid);
    if m != [] {
      assert m[0] in rows && VoteFor(uid, iid)(m[0]);
      var k :| 0 <= k < |rows| && rows[k] == m[0];
    }
    if HasKey(rows, uid, iid) {
      var k :| 0 <= k < |rows| && rows[k].userId == uid && rows[k].itemId == iid;
      assert VoteFor(uid, iid)(rows[k]);
    }
  }

  /** The joined rows for one item: one per matching vote row, or a single row with
      a NULL ordinal when there is none. */
  function JoinItem(it: Item, rows: seq<Vote>, uid: Int32): (r: seq<Joined>)
    ensures |r| > 0
    ensures forall k :: 0 <= k < |r| ==> r[k].item == it
    ensures forall k :: 0 <= k < |r| ==> (r[k].ordinal.Some? <==> HasKey(rows, uid, it.id))
    ensures forall k :: 0 <= k < |r| && r[k].ordinal.Some? ==> Vote(uid, it.id, r[k].ordinal.value) in rows
  {
    var m := Matches(rows, uid, it.id);
    MatchesIffKey(rows, uid, it.id);
    if |m| == 0 then [Joined(it, None)]
    else seq(|m|, k requires 0 <= k < |m| => Joined(it, Some(m[k].ordinal)))
  }

  /** `items LEFT JOIN votes ON ... WHERE done = false`, before ordering: the rows
      for each open item in turn, in the order of `items`. */
  function LeftJoin(items: seq<Item>, rows: seq<Vote>, uid: Int32): (r: seq<Joined>)
    ensures forall k :: 0 <= k < |r| ==>
      r[k].item in items && !r[k].item.done && (r[k].ordinal.Some? <==> HasKey(rows, uid, r[k].item.id))
    ensures forall i :: 0 <= i < |items| && !items[i].done ==>
      exists k :: 0 <= k < |r| && r[k].item == items[i]
    ensures forall k :: 0 <= k < |r| && r[k].ordinal.Some? ==> Vote(uid, r[k].item.id, r[k].ordinal.value) in rows
  {
    if |items| == 0 then []
    else
      var head := if items[0].done then [] else JoinItem(items[0], rows, uid);
      var tail := LeftJoin(items[1..], rows, uid);
      var r := head + tail;
      assert forall k :: 0 <= k < |tail| ==> r[|head| + k] == tail[k];
      assert forall i :: 1 <= i < |items| ==> items[i] == items[1..][i - 1];
      assert !items[0].done ==> r[0] == head[0];
      r
  }

  /** `ORDER BY user_id DESC, ordinal ASC` on the joined rows. A joined row's
      `user_id` is `uid` when a vote row matched and NULL otherwise, and SQLite
      sorts NULL below every value: rows with an ordinal come first, by ascending
      ordinal, and the rows without one follow. */
  predicate JoinedLeq(a: Joined, b: Joined)
  {
    if a.ordinal.None? then b.ordinal.None?
    else b.ordinal.None? || a.ordinal.value <= b.ordinal.value
  }

  predicate SortedJoined(s: seq<Joined>)
  {
    forall i, j :: 0 <= i < j < |s| ==> JoinedLeq(s[i], s[j])
  }

  /** Puts `x` into the sorted `s` in front of the first row it does not follow. */
  function InsertJoined(x: Joined, s: seq<Joined>): (r: seq<Joined>)
    requires SortedJoined(s)
    ensures SortedJoined(r) && multiset(r) == multiset(s) + multiset{x}
  {
    if |s| == 0 || JoinedLeq(x, s[0]) then
      [x] + s
    else
      var rest := InsertJoined(x, s[1..]);
      assert s == [s[0]] + s[1..];
      JoinedHeadBelowRest(s[0], x, s[1..], rest);
      [s[0]] + rest
  }

  lemma JoinedHeadBelowRest(y: Joined, x: Joined, t: seq<Joined>, rest: seq<Joined>)
    requires JoinedLeq(y, x) && SortedJoined(rest)
    requires forall k :: 0 <= k < |t| ==> JoinedLeq(y, t[k])
    requires multiset(rest) == multiset(t) + multiset{x}
    ensures SortedJoined([y] + rest)
  {
    forall k | 0 <= k < |rest|
      ensures JoinedLeq(y, rest[k])
    {
      assert rest[k] in multiset(rest);
      if rest[k] != x {
        assert rest[k] in multiset(t);
      }
    }
  }

  /** The ordering the query applies to the joined rows. */
  function SortJoined(s: seq<Joined>): (r: seq<Joined>)
    ensures SortedJoined(r) && multiset(r) == multiset(s)
  {
    if |s| == 0 then []
    else
      assert s == [s[0]] + s[1..];
      InsertJoined(s[0], SortJoined(s[1..]))
  }

  /** The rows the query loads: the left join, ranked rows first in ascending
      ordinal order, then the open items the voter did not rank. */
  function QueryRows(items: seq<Item>, rows: seq<Vote>, uid: Int32): (q: seq<Joined>)
    ensures multiset(q) == multiset(LeftJoin(items, rows, uid))
    ensures forall i, j :: 0 <= i < j < |q| && q[j].ordinal.Some? ==> q[i].ordinal.Some?
    ensures forall i, j :: 0 <= i < j < |q| && q[i].ordinal.Some? && q[j].ordinal.Some? ==>
      q[i].ordinal.value <= q[j].ordinal.value
  {
    var q := SortJoined(LeftJoin(items, rows, uid));
    assert forall i, j :: 0 <= i < j < |q| ==> JoinedLeq(q[i], q[j]);
    q
  }

  /** `.map(|(i, ord)| (i, ord.map(|_| true).unwrap_or(false)))`: the flag is true
      exactly when the ordinal is not NULL. */
  function Flags(j: seq<Joined>): (r: seq<(Item, bool)>)
    ensures |r| == |j|
    ensures forall k :: 0 <= k < |j| ==> r[k].0 == j[k].item && (r[k].1 <==> j[k].ordinal.Some?)
  {
    seq(|j|, k requires 0 <= k < |j| => (j[k].item, j[k].ordinal.Some?))
  }

  /** A row of the ordered query is a row of the unordered join. */
  lemma QueryRowInJoin(items: seq<Item>, rows: seq<Vote>, uid: Int32, k: nat)
    requires k < |QueryRows(items, rows, uid)|
    ensures QueryRows(items, rows, uid)[k] in LeftJoin(items, rows, uid)
  {
    var q := QueryRows(items, rows, uid);
    assert q[k] in multiset(q);
  }

  /** A row of the unordered join is a row of the ordered query. */
  lemma JoinRowInQuery(items: seq<Item>, rows: seq<Vote>, uid: Int32, k: nat)
    requires k < |LeftJoin(items, rows, uid)|
    ensures LeftJoin(items, rows, uid)[k] in QueryRows(items, rows, uid)
  {
    var j := LeftJoin(items, rows, uid);
    assert j[k] in multiset(j);
  }

  /** Each loaded row is an open item with an ordinal exactly when the voter ranked it. */
  lemma QueryRowFacts(items: seq<Item>, rows: seq<Vote>, uid: Int32, k: nat)
    requires k < |QueryRows(items, rows, uid)|
    ensures var x := QueryRows(items, rows, uid)[k];
      x.item in items && !x.item.done && (x.ordinal.Some? <==> HasKey(rows, uid, x.item.id))
  {
    QueryRowInJoin(items, rows, uid, k);
  }

  /** Each open item is loaded. */
  lemma OpenItemLoaded(items: seq<Item>, rows: seq<Vote>, uid: Int32, i: nat)
    requires i < |items| && !items[i].done
    ensures exists k :: 0 <= k < |QueryRows(items, rows, uid)| && QueryRows(items, rows, uid)[k].item == items[i]
  {
    var j := LeftJoin(items, rows, uid);
    var m :| 0 <= m < |j| && j[m].item == items[i];
    JoinRowInQuery(items, rows, uid, m);
  }

  /** `Item::for_user(uid)`: each open item with whether `uid` ranked it, the
      ranked items first. */
  function ForUser(items: seq<Item>, rows: seq<Vote>, uid: Int32): (r: seq<(Item, bool)>)
    ensures forall k :: 0 <= k < |r| ==>
      r[k].0 in items && !r[k].0.done && (r[k].1 <==> HasKey(rows, uid, r[k].0.id))
    ensures forall i :: 0 <= i < |items| && !items[i].done ==>
      exists k :: 0 <= k < |r| && r[k].0 == items[i]
    ensures forall i, j :: 0 <= i < j < |r| && r[j].1 ==> r[i].1
  {
    var q := QueryRows(items, rows, uid);
    var r := Flags(q);
    assert forall k :: 0 <= k < |r| ==>
      r[k].0 in items && !r[k].0.done && (r[k].1 <==> HasKey(rows, uid, r[k].0.id)) by {
      forall k | 0 <= k < |r|
        ensures r[k].0 in items && !r[k].0.done && (r[k].1 <==> HasKey(rows, uid, r[k].0.id))
      {
        QueryRowFacts(items, rows, uid, k);
      }
    }
    assert forall i :: 0 <= i < |items| && !items[i].done ==> exists k :: 0 <= k < |r| && r[k].0 == items[i] by {
      forall i | 0 <= i < |items| && !items[i].done
        ensures exists k :: 0 <= k < |r| && r[k].0 == items[i]
      {
        OpenItemLoaded(items, rows, uid, i);
        var k :| 0 <= k < |q| && q[k].item == items[i];
        assert r[k].0 == items[i];
      }
    }
    r
  }

  /** The view the page means to show: each open item once, with its flag. */
  function OpenItemFlags(items: seq<Item>, rows: seq<Vote>, uid: Int32): seq<(Item, bool)>
  {
    if |items| == 0 then []
    else
      (if items[0].done then [] else [(items[0], HasKey(rows, uid, items[0].id))]) +
      OpenItemFlags(items[1..], rows, uid)
  }

  /** Under the `(user_id, item_id)` key an item matches at most one vote row. */
  lemma {:induction false} KeyedMatchesAtMostOne(rows: seq<Vote>, uid: Int32, iid: Int32)
    requires Keyed(rows)
    ensures |Matches(rows, uid, iid)| <= 1
  {
    if |rows| > 0 {
      assert Keyed(rows[1..]);
      KeyedMatchesAtMostOne(rows[1..], uid, iid);
      if VoteFor(uid, iid)(rows[0]) {
        forall k | 0 <= k < |rows[1..]|
          ensures !VoteFor(uid, iid)(rows[1..][k])
        {
          assert !SameKey(rows[0], rows[k + 1]);
        }
        FilterNone(rows[1..], VoteFor(uid, iid));
      }
    }
  }

  lemma FlagsConcat(a: seq<Joined>, b: seq<Joined>)
    ensures Flags(a + b) == Flags(a) + Flags(b)
  {
  }

  /** With keyed vote rows, the join before ordering lists every open item exactly
      once, in the order of `items`, flagged by whether the voter ranked it. */
  lemma {:induction false} JoinKeyed(items: seq<Item>, rows: seq<Vote>, uid: Int32)
    requires Keyed(rows)
    ensures Flags(LeftJoin(items, rows, uid)) == OpenItemFlags(items, rows, uid)
  {
    if |items| > 0 {
      var it := items[0];
      var head := if it.done then [] else JoinItem(it, rows, uid);
      JoinKeyed(items[1..], rows, uid);
      FlagsConcat(head, LeftJoin(items[1..], rows, uid));
      if !it.done {
        KeyedMatchesAtMostOne(rows, uid, it.id);
        assert Flags(head) == [(it, HasKey(rows, uid, it.id))];
      }
    }
  }

  /** Reordering the joined rows reorders their flags the same way. */
  lemma {:induction false} FlagsPermutation(a: seq<Joined>, b: seq<Joined>)
    requires multiset(a) == multiset(b)
    ensures multiset(Flags(a)) == multiset(Flags(b))
    decreases |a|
  {
    assert |a| == |multiset(a)| == |multiset(b)| == |b|;
    if |a| > 0 {
      assert a[0] in multiset(b);
      var i :| 0 <= i < |b| && b[i] == a[0];
      var rest := b[..i] + b[i + 1..];
      assert b == b[..i] + [b[i]] + b[i + 1..];
      assert a == [a[0]] + a[1..];
      RemoveOne(a, b, i);
      FlagsPermutation(a[1..], rest);
      FlagsConcat([a[0]], a[1..]);
      FlagsConcat(b[..i] + [b[i]], b[i + 1..]);
      FlagsConcat(b[..i], [b[i]]);
      FlagsConcat(b[..i], b[i + 1..]);
    }
  }

  lemma RemoveOne(a: seq<Joined>, b: seq<Joined>, i: nat)
    requires multiset(a) == multiset(b) && |a| > 0 && i < |b| && b[i] == a[0]
    ensures multiset(a[1..]) == multiset(b[..i] + b[i + 1..])
  {
    assert a == [a[0]] + a[1..];
    assert b == b[..i] + [b[i]] + b[i + 1..];
    var rest := b[..i] + b[i + 1..];
    assert multiset(b) == multiset(b[..i]) + multiset{b[i]} + multiset(b[i + 1..]);
    forall x
      ensures multiset(a[1..])[x] == multiset(rest)[x]
    {
      assert multiset(a)[x] == multiset{a[0]}[x] + multiset(a[1..])[x];
    }
  }

  /** With keyed vote rows, `for_user` lists every open item exactly once, flagged
      by whether the voter ranked it; only the order differs from `OpenItemFlags`. */
  lemma ForUserKeyed(items: seq<Item>, rows: seq<Vote>, uid: Int32)
    requires Keyed(rows)
    ensures multiset(ForUser(items, rows, uid)) == multiset(OpenItemFlags(items, rows, uid))
  {
    JoinKeyed(items, rows, uid);
    FlagsPermutation(QueryRows(items, rows, uid), LeftJoin(items, rows, uid));
  }

  /** After `save_ballot(uid, votes)`, the voter's view lists the ranked items first
      and in submission order: every ranked row carries the position of its item in
      `votes`, and those positions ascend. */
  lemma QueryRowsAfterSave(items: seq<Item>, rows: seq<Vote>, uid: Int32, votes: seq<Int32>)
    requires |votes| <= 0x8000_0000
    ensures var q := QueryRows(items, Replaced(rows, uid, votes), uid);
      forall k :: 0 <= k < |q| && q[k].ordinal.Some? ==>
        0 <= q[k].ordinal.value as int < |votes| && votes[q[k].ordinal.value] == q[k].item.id
  {
    var after := Replaced(rows, uid, votes);
    var q := QueryRows(items, after, uid);
    forall k | 0 <= k < |q| && q[k].ordinal.Some?
      ensures 0 <= q[k].ordinal.value as int < |votes| && votes[q[k].ordinal.value] == q[k].item.id
    {
      QueryRowInJoin(items, after, uid, k);
      SavedRowPosition(rows, uid, votes, Vote(uid, q[k].item.id, q[k].ordinal.value));
    }
  }

  /** A row of the voter after the save has the position of its item as ordinal. */
  lemma SavedRowPosition(rows: seq<Vote>, uid: Int32, votes: seq<Int32>, v: Vote)
    requires |votes| <= 0x8000_0000
    requires v in Replaced(rows, uid, votes) && v.userId == uid
    ensures 0 <= v.ordinal as int < |votes| && votes[v.ordinal] == v.itemId
  {
    var after := Replaced(rows, uid, votes);
    ReplacedVoterRows(rows, uid, votes);
    var m :| 0 <= m < |after| && after[m] == v;
    assert VoterIs(uid)(after[m]);
    assert v in RowsOf(after, uid);
    var i :| 0 <= i < |votes| && RowsOf(after, uid)[i] == v;
  }

  /** After `save_ballot(uid, votes)`, `uid`'s view flags exactly the submitted items. */
  lemma ForUserAfterSave(items: seq<Item>, rows: seq<Vote>, uid: Int32, votes: seq<Int32>)
    ensures var r := ForUser(items, Replaced(rows, uid, votes), uid);
      forall k :: 0 <= k < |r| ==> (r[k].1 <==> r[k].0.id in votes)
  {
    var r := ForUser(items, Replaced(rows, uid, votes), uid);
    forall k | 0 <= k < |r|
      ensures r[k].1 <==> r[k].0.id in votes
    {
      HasKeyReplaced(rows, uid, votes, uid, r[k].0.id);
    }
  }

  /** The view depends on the vote rows only through the rows each item matches. */
  lemma {:induction false} LeftJoinSameMatches(items: seq<Item>, a: seq<Vote>, b: seq<Vote>, uid: Int32)
    requires forall iid :: Matches(a, uid, iid) == Matches(b, uid, iid)
    ensures LeftJoin(items, a, uid) == LeftJoin(items, b, uid)
  {
    if |items| > 0 {
      LeftJoinSameMatches(items[1..], a, b, uid);
      MatchesIffKey(a, uid, items[0].id);
      MatchesIffKey(b, uid, items[0].id);
    }
  }

  /** Saving one voter's ballot leaves every other voter's rows for each item as they were. */
  lemma MatchesReplaced(rows: seq<Vote>, uid: Int32, votes: seq<Int32>, u: Int32, iid: Int32)
    requires u != uid
    ensures Matches(Replaced(rows, uid, votes), u, iid) == Matches(rows, u, iid)
  {
    var kept := Filter(rows, VoterIsNot(uid));
    var mine := BallotRows(uid, votes);
    FilterConcat(kept, mine, VoteFor(u, iid));
    FilterNone(mine, VoteFor(u, iid));
    FilterCommute(rows, VoterIsNot(uid), VoteFor(u, iid));
    var theirs := Filter(rows, VoteFor(u, iid));
    assert forall k :: 0 <= k < |theirs| ==> VoterIsNot(uid)(theirs[k]);
    FilterAll(theirs, VoterIsNot(uid));
  }

  /** Saving one voter's ballot does not change what any other voter sees. */
  lemma ForUserOtherVoter(items: seq<Item>, rows: seq<Vote>, uid: Int32, votes: seq<Int32>, u: Int32)
    requires u != uid
    ensures ForUser(items, Replaced(rows, uid, votes), u) == ForUser(items, rows, u)
  {
    forall iid
      ensures Matches(Replaced(rows, uid, votes), u, iid) == Matches(rows, u, iid)
    {
      MatchesReplaced(rows, uid, votes, u, iid);
    }
    LeftJoinSameMatches(items, Replaced(rows, uid, votes), rows, u);
  }
}
