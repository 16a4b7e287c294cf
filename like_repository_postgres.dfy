/**
 * The likes table and the repository that writes it. The table is held in
 * memory as a sequence of rows in storage order; each SQL statement the
 * repository sends becomes a function on that sequence. The id generator and
 * the database clock are parameters of the methods that use them.
 */
module LikeRepositoryPostgres {
  import opened Prelude
  import opened JsValues
  import opened Errors
  import opened LikeEntities

  /** A row of `likes`: `is_liked` defaults to true and `updated_at` to the current time. */
  datatype LikeRow = LikeRow(id: string, commentId: string, userId: string, isLiked: bool, updatedAt: Instant)

  /** `WHERE comment_id = $1 AND user_id = $2` */
  predicate Matches(row: LikeRow, commentId: string, userId: string)
  {
    row.commentId == commentId && row.userId == userId
  }

  /** Some row belongs to the (comment, user) pair. */
  predicate HasMatch(rows: seq<LikeRow>, commentId: string, userId: string)
  {
    exists i :: 0 <= i < |rows| && Matches(rows[i], commentId, userId)
  }

  /** Some row already holds the primary key `id`. */
  predicate IdTaken(rows: seq<LikeRow>, id: string)
  {
    exists i :: 0 <= i < |rows| && rows[i].id == id
  }

  /** The primary key: no two rows share an id. */
  predicate UniqueIds(rows: seq<LikeRow>)
  {
    forall i, j :: 0 <= i < j < |rows| ==> rows[i].id != rows[j].id
  }

  /** At most one row per (comment, user) pair; the schema does not enforce it. */
  predicate AtMostOnePerPair(rows: seq<LikeRow>)
  {
    forall i, j :: 0 <= i < j < |rows| ==>
      !(rows[i].commentId == rows[j].commentId && rows[i].userId == rows[j].userId)
  }

  /** The rows the `SELECT ... WHERE comment_id = $1 AND user_id = $2` returns, in storage order. */
  function Matching(rows: seq<LikeRow>, commentId: string, userId: string): (r: seq<LikeRow>)
    ensures forall row :: row in r <==> row in rows && Matches(row, commentId, userId)
    ensures r != [] <==> HasMatch(rows, commentId, userId)
    ensures |r| <= |rows|
  {
    if rows == [] then []
    else
      var rest := Matching(rows[1..], commentId, userId);
      assert forall i :: 1 <= i < |rows| ==> rows[i] == rows[1..][i - 1];
      if Matches(rows[0], commentId, userId) then [rows[0]] + rest else rest
  }

  /** The first row with the given id, as `rows[0]` of a query on the primary key reads it. */
  function FirstWithId(rows: seq<LikeRow>, id: string): (r: Option<LikeRow>)
    ensures r.None? <==> !IdTaken(rows, id)
    ensures r.Some? ==> r.value in rows && r.value.id == id
  {
    if rows == [] then None
    else if rows[0].id == id then Some(rows[0])
    else
      assert forall i :: 1 <= i < |rows| ==> rows[i] == rows[1..][i - 1];
      FirstWithId(rows[1..], id)
  }

  /** A matched row after `SET is_liked = NOT is_liked, updated_at = now()`. */
  function Toggled(row: LikeRow, now: Instant): LikeRow
  {
    row.(isLiked := !row.isLiked, updatedAt := now)
  }

  /** The table after the reversing `UPDATE`: every matching row toggled, every other row as it was. */
  function Flip(rows: seq<LikeRow>, commentId: string, userId: string, now: Instant): (r: seq<LikeRow>)
    ensures |r| == |rows|
    ensures forall i :: 0 <= i < |rows| && Matches(rows[i], commentId, userId) ==> r[i] == Toggled(rows[i], now)
    ensures forall i :: 0 <= i < |rows| && !Matches(rows[i], commentId, userId) ==> r[i] == rows[i]
  {
    if rows == [] then []
    else
      var first := if Matches(rows[0], commentId, userId) then Toggled(rows[0], now) else rows[0];
      var rest := Flip(rows[1..], commentId, userId, now);
      assert forall i :: 1 <= i < |rows| ==> rows[i] == rows[1..][i - 1];
      [first] + rest
  }

  /** The table after `UPDATE likes SET comment_id = $2, user_id = $3, is_liked = $4, updated_at = $5 WHERE id = $1`. */
  function SetById(rows: seq<LikeRow>, id: string, commentId: string, userId: string, isLiked: bool,
                   now: Instant): (r: seq<LikeRow>)
    ensures |r| == |rows|
    ensures forall i :: 0 <= i < |rows| && rows[i].id == id ==>
      r[i] == LikeRow(id, commentId, userId, isLiked, now)
    ensures forall i :: 0 <= i < |rows| && rows[i].id != id ==> r[i] == rows[i]
  {
    if rows == [] then []
    else
      var first := if rows[0].id == id then LikeRow(id, commentId, userId, isLiked, now) else rows[0];
      var rest := SetById(rows[1..], id, commentId, userId, isLiked, now);
      assert forall i :: 1 <= i < |rows| ==> rows[i] == rows[1..][i - 1];
      [first] + rest
  }

  /** The object `{ id, commentId, userId, isLiked, updatedAt: updated_at.toISOString() }` built from a returned row. */
  function RowPayload(row: LikeRow): (p: Payload)
    ensures Get(p, "id") == Str(row.id) && Get(p, "commentId") == Str(row.commentId)
    ensures Get(p, "userId") == Str(row.userId) && Get(p, "isLiked") == Bool(row.isLiked)
    ensures Get(p, "updatedAt") == Str(row.updatedAt)
  {
    map["id" := Str(row.id), "commentId" := Str(row.commentId), "userId" := Str(row.userId),
        "isLiked" := Bool(row.isLiked), "updatedAt" := Str(row.updatedAt)]
  }

  /** A returned row whose ids are filled always builds a `Like` carrying exactly its fields. */
  lemma RowBuildsLike(row: LikeRow)
    requires row.id != [] && row.commentId != [] && row.userId != []
    ensures NewLike(RowPayload(row)) == Success(Like(row.id, row.commentId, row.userId, row.isLiked, row.updatedAt))
  {
  }

  /** The reversing `UPDATE` touches no id and no pair: the same pairs match before and after, and the key still holds. */
  lemma FlipKeepsKeysAndPairs(rows: seq<LikeRow>, commentId: string, userId: string, now: Instant)
    ensures var flipped := Flip(rows, commentId, userId, now);
      && (forall i :: 0 <= i < |rows| ==> flipped[i].id == rows[i].id)
      && (HasMatch(flipped, commentId, userId) <==> HasMatch(rows, commentId, userId))
      && (UniqueIds(rows) ==> UniqueIds(flipped))
      && (!HasMatch(rows, commentId, userId) ==> flipped == rows)
  {
    var flipped := Flip(rows, commentId, userId, now);
    assert forall i :: 0 <= i < |rows| ==>
      Matches(flipped[i], commentId, userId) == Matches(rows[i], commentId, userId);
    if HasMatch(flipped, commentId, userId) {
      var i :| 0 <= i < |flipped| && Matches(flipped[i], commentId, userId);
      assert Matches(rows[i], commentId, userId);
    }
  }

  /** The id-keyed `UPDATE` keeps every id where it was, and every row it returns is the new one. */
  lemma SetByIdKeepsKeys(rows: seq<LikeRow>, id: string, commentId: string, userId: string, isLiked: bool,
                         now: Instant)
    ensures var updated := SetById(rows, id, commentId, userId, isLiked, now);
      && (forall i :: 0 <= i < |rows| ==> updated[i].id == rows[i].id)
      && (UniqueIds(rows) ==> UniqueIds(updated))
      && (IdTaken(updated, id) <==> IdTaken(rows, id))
      && (!IdTaken(rows, id) ==> updated == rows)
      && (forall row :: row in updated && row.id == id ==> row == LikeRow(id, commentId, userId, isLiked, now))
  {
    var updated := SetById(rows, id, commentId, userId, isLiked, now);
    assert forall i :: 0 <= i < |rows| ==> updated[i].id == rows[i].id;
  }

  /** Toggling twice gives every row its original flag back; only the timestamps move. */
  lemma {:induction false} FlipTwiceRestores(rows: seq<LikeRow>, commentId: string, userId: string,
                                             first: Instant, second: Instant)
    ensures var twice := Flip(Flip(rows, commentId, userId, first), commentId, userId, second);
      && |twice| == |rows|
      && forall i :: 0 <= i < |rows| ==>
           twice[i].isLiked == rows[i].isLiked && twice[i].id == rows[i].id
           && Matches(twice[i], commentId, userId) == Matches(rows[i], commentId, userId)
  {
    var once := Flip(rows, commentId, userId, first);
    var twice := Flip(once, commentId, userId, second);
    forall i | 0 <= i < |rows|
      ensures twice[i].isLiked == rows[i].isLiked && twice[i].id == rows[i].id
      ensures Matches(twice[i], commentId, userId) == Matches(rows[i], commentId, userId)
    {
      if Matches(rows[i], commentId, userId) {
        assert once[i] == Toggled(rows[i], first);
        assert Matches(once[i], commentId, userId);
      } else {
        assert once[i] == rows[i];
      }
    }
  }

  /** Reversing keeps at most one row per pair: it toggles existing rows, and inserts only when the pair has none. */
  lemma ReverseKeepsOnePerPair(rows: seq<LikeRow>, commentId: string, userId: string, id: string, now: Instant)
    requires AtMostOnePerPair(rows)
    ensures AtMostOnePerPair(Flip(rows, commentId, userId, now))
    ensures !HasMatch(rows, commentId, userId) ==>
      AtMostOnePerPair(rows + [LikeRow(id, commentId, userId, true, now)])
  {
    var flipped := Flip(rows, commentId, userId, now);
    forall i, j | 0 <= i < j < |flipped|
      ensures !(flipped[i].commentId == flipped[j].commentId && flipped[i].userId == flipped[j].userId)
    {
      assert flipped[i].commentId == rows[i].commentId && flipped[i].userId == rows[i].userId;
      assert flipped[j].commentId == rows[j].commentId && flipped[j].userId == rows[j].userId;
    }
    if !HasMatch(rows, commentId, userId) {
      var grown := rows + [LikeRow(id, commentId, userId, true, now)];
      forall i, j | 0 <= i < j < |grown|
        ensures !(grown[i].commentId == grown[j].commentId && grown[i].userId == grown[j].userId)
      {
        if j == |rows| {
          assert !Matches(rows[i], commentId, userId);
        }
      }
    }
  }

  /** `addLike` does not look for an existing like: on a pair that has one it leaves the pair with two. */
  lemma AddLikeCanDuplicatePair(rows: seq<LikeRow>, commentId: string, userId: string, id: string, now: Instant)
    requires HasMatch(rows, commentId, userId)
    ensures !AtMostOnePerPair(rows + [LikeRow(id, commentId, userId, true, now)])
  {
    var i :| 0 <= i < |rows| && Matches(rows[i], commentId, userId);
    var grown := rows + [LikeRow(id, commentId, userId, true, now)];
    assert grown[i] == rows[i] && grown[|rows|].commentId == commentId && grown[|rows|].userId == userId;
  }

  /** `LikeRepositoryPostgres`: the likes table behind a connection pool. */
  class LikeRepositoryPostgres {
    var rows: seq<LikeRow>

    /** The primary key holds. */
    predicate Valid()
      reads this
    {
      UniqueIds(rows)
    }

    constructor(initial: seq<LikeRow>)
      requires UniqueIds(initial)
      ensures Valid() && rows == initial
    {
      rows := initial;
    }

    /**
     * `addLike`: insert a row for the pair with id `'like-' + generated`, the
     * default flag (true) and the current time, whether or not the pair
     * already has one. A taken id makes the database reject the insert.
     */
    method AddLike(commentId: string, userId: string, generated: string, now: Instant)
      returns (r: Result<LikeRow, Error>)
      requires Valid()
      modifies this
      ensures Valid()
      ensures IdTaken(old(rows), "like-" + generated) ==> rows == old(rows) && r == Failure(DuplicateKey)
      ensures !IdTaken(old(rows), "like-" + generated) ==>
        && r == Success(LikeRow("like-" + generated, commentId, userId, true, now))
        && rows == old(rows) + [r.value]
    {
      var id := "like-" + generated;
      if IdTaken(rows, id) {
        return Failure(DuplicateKey);
      }
      var row := LikeRow(id, commentId, userId, true, now);
      rows := rows + [row];
      r := Success(row);
    }

    /**
     * `updateLike`: overwrite the pair and the flag of the row with that id,
     * stamping it with the caller's clock, and build an `UpdatedLike` from the
     * returned row. With no such row, reading `rows[0].id` throws.
     */
    method UpdateLike(id: string, commentId: string, userId: string, isLiked: bool, now: Instant)
      returns (r: Result<UpdatedLike, Error>)
      requires Valid()
      modifies this
      ensures Valid()
      ensures rows == SetById(old(rows), id, commentId, userId, isLiked, now)
      ensures !IdTaken(old(rows), id) ==> rows == old(rows) && r == Failure(MissingRow)
      ensures IdTaken(old(rows), id) ==>
        r == NewUpdatedLike(RowPayload(LikeRow(id, commentId, userId, isLiked, now)))
    {
      SetByIdKeepsKeys(rows, id, commentId, userId, isLiked, now);
      rows := SetById(rows, id, commentId, userId, isLiked, now);
      var returned := FirstWithId(rows, id);
      match returned
      case None =>
        r := Failure(MissingRow);
      case Some(row) =>
        r := NewUpdatedLike(RowPayload(row));
    }

    /** `exist`: whether the pair has a row (`rowCount > 0`). */
    function Exist(commentId: string, userId: string): (b: bool)
      reads this
      ensures b <==> exists i :: 0 <= i < |rows| && rows[i].commentId == commentId && rows[i].userId == userId
    {
      |Matching(rows, commentId, userId)| > 0
    }

    /** `findByComment`: the pair's first row as a `Like`; with none, reading `rows[0].id` throws. */
    function FindByComment(commentId: string, userId: string): (r: Result<Like, Error>)
      reads this
      ensures !HasMatch(rows, commentId, userId) ==> r == Failure(MissingRow)
      ensures HasMatch(rows, commentId, userId) ==> r == NewLike(RowPayload(Matching(rows, commentId, userId)[0]))
      ensures (HasMatch(rows, commentId, userId) && commentId != [] && userId != []
               && Matching(rows, commentId, userId)[0].id != []) ==>
        r == Success(Like(Matching(rows, commentId, userId)[0].id, commentId, userId,
                          Matching(rows, commentId, userId)[0].isLiked, Matching(rows, commentId, userId)[0].updatedAt))
      ensures r.Success? ==>
        && r.value.commentId == commentId && r.value.userId == userId
        && exists row :: row in rows && Matches(row, commentId, userId)
             && r.value == Like(row.id, row.commentId, row.userId, row.isLiked, row.updatedAt)
    {
      var found := Matching(rows, commentId, userId);
      if found == [] then Failure(MissingRow)
      else
        assert found[0] in found;
        var row := found[0];
        var r := NewLike(RowPayload(row));
        if row.id != [] && row.commentId != [] && row.userId != [] then
          RowBuildsLike(row);
          r
        else
          r
    }

    /**
     * `reverse`: toggle the pair's rows; when none matched, insert one with
     * the default flag instead. The first returned row becomes a `Like`.
     */
    method Reverse(commentId: string, userId: string, generated: string, now: Instant)
      returns (r: Result<Like, Error>)
      requires Valid()
      modifies this
      ensures Valid()
      // some row matched: all of them are toggled, nothing is inserted
      ensures HasMatch(old(rows), commentId, userId) ==>
        && rows == Flip(old(rows), commentId, userId, now)
        && r == NewLike(RowPayload(Matching(rows, commentId, userId)[0]))
      // nothing matched: exactly one liked row is inserted and returned
      ensures !HasMatch(old(rows), commentId, userId) && !IdTaken(old(rows), "like-" + generated) ==>
        && rows == old(rows) + [LikeRow("like-" + generated, commentId, userId, true, now)]
        && r == NewLike(RowPayload(LikeRow("like-" + generated, commentId, userId, true, now)))
      ensures !HasMatch(old(rows), commentId, userId) && IdTaken(old(rows), "like-" + generated) ==>
        rows == old(rows) && r == Failure(DuplicateKey)
      // the pair never ends with two rows when it started with at most one
      ensures AtMostOnePerPair(old(rows)) ==> AtMostOnePerPair(rows)
    {
      if AtMostOnePerPair(rows) {
        ReverseKeepsOnePerPair(rows, commentId, userId, "like-" + generated, now);
      }
      FlipKeepsKeysAndPairs(rows, commentId, userId, now);
      rows := Flip(rows, commentId, userId, now);
      var updated := Matching(rows, commentId, userId);
      var results: seq<LikeRow>;
      if |updated| == 0 {
        var id := "like-" + generated;
        if IdTaken(rows, id) {
          return Failure(DuplicateKey);
        }
        var row := LikeRow(id, commentId, userId, true, now);
        rows := rows + [row];
        results := [row];
      } else {
        results := updated;
      }
      r := NewLike(RowPayload(results[0]));
    }
  }
}
