/** The three tables of the voting application and their rows: `users`, `items`
    (the candidates, with a `done` flag) and `votes` (one row per ranked item of a
    voter's ballot, keyed by `(user_id, item_id)`). */
module Schema {
  import opened Seqs

  /** Diesel's `Integer` column type, Rust's `i32`. */
  newtype Int32 = x: int | -0x8000_0000 <= x < 0x8000_0000

  /** Rust's `i as i32` for a list index `i: usize`: keeps the low 32 bits and
      reads them as a two's-complement value. */
  function AsInt32(i: nat): (r: Int32)
    ensures (r as int - i) % 0x1_0000_0000 == 0
    ensures i < 0x8000_0000 ==> r as int == i
  {
    var m := i % 0x1_0000_0000;
    if m < 0x8000_0000 then m as Int32 else (m - 0x1_0000_0000) as Int32
  }

  datatype Option<T> = None | Some(value: T)

  /** A row of `items`; `done` items are closed to voting and to the tally. */
  datatype Item = Item(id: Int32, title: string, body: string, done: bool)

  /** A row of `votes`: voter `userId` ranks item `itemId` at position `ordinal`. */
  datatype Vote = Vote(userId: Int32, itemId: Int32, ordinal: Int32)

  /** The body of a ballot submission: item ids, most preferred first. */
  datatype Ballot = Ballot(votes: seq<Int32>)

  /** Two vote rows with the same `(user_id, item_id)` primary key. */
  predicate SameKey(a: Vote, b: Vote)
  {
    a.userId == b.userId && a.itemId == b.itemId
  }

  /** The primary-key constraint of `votes`: no key occurs twice. */
  predicate Keyed(rows: seq<Vote>)
  {
    forall i, j :: 0 <= i < j < |rows| ==> !SameKey(rows[i], rows[j])
  }

  /** Some row of `rows` has key `(uid, iid)`. */
  predicate HasKey(rows: seq<Vote>, uid: Int32, iid: Int32)
  {
    exists k :: 0 <= k < |rows| && rows[k].userId == uid && rows[k].itemId == iid
  }

  /** `user_id = uid` as a row filter. */
  function VoterIs(uid: Int32): Vote -> bool
  {
    (v: Vote) => v.userId == uid
  }

  /** The complement of `VoterIs(uid)`: what `DELETE ... WHERE user_id = uid` keeps. */
  function VoterIsNot(uid: Int32): Vote -> bool
  {
    (v: Vote) => v.userId != uid
  }

  /** The rows of one voter, in table order. */
  function RowsOf(rows: seq<Vote>, uid: Int32): seq<Vote>
  {
    Filter(rows, VoterIs(uid))
  }

  /** The primary-key constraint of `items`: no id occurs twice. */
  predicate ItemsKeyed(items: seq<Item>)
  {
    forall i, j :: 0 <= i < j < |items| ==> items[i].id != items[j].id
  }

  /** `iid` names an item that is still open (`done = false`). */
  predicate IsLive(items: seq<Item>, iid: Int32)
  {
    exists k :: 0 <= k < |items| && items[k].id == iid && !items[k].done
  }

  /** `items.find(iid)`: the row with that id, if there is one. */
  function FindItem(items: seq<Item>, iid: Int32): (r: Option<Item>)
    ensures r.None? <==> forall k :: 0 <= k < |items| ==> items[k].id != iid
    ensures r.Some? ==> r.value in items && r.value.id == iid
    ensures r.Some? && ItemsKeyed(items) ==>
      forall k :: 0 <= k < |items| && items[k].id == iid ==> items[k] == r.value
  {
    if |items| == 0 then None
    else if items[0].id == iid then Some(items[0])
    else FindItem(items[1..], iid)
  }
}
