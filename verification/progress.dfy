/** The per-(user, subject) progress table and the upsert the attempt handler
    performs on it. Rows are kept in a sequence; the store's unique key on
    (userId, subject) is the invariant `UniqueProgressKeys`. */
module Progress {
  import opened Wrappers
  import opened Entities

  /** The row stored under (user, subject), if any. */
  function Lookup(rows: seq<ProgressRow>, user: UserId, subject: string): (r: Option<ProgressRow>)
    ensures r.Some? <==> exists i :: 0 <= i < |rows| && rows[i].userId == user && rows[i].subject == subject
    ensures r.Some? ==> r.value in rows && r.value.userId == user && r.value.subject == subject
  {
    if rows == [] then None
    else if rows[0].userId == user && rows[0].subject == subject then Some(rows[0])
    else
      assert forall i :: 1 <= i < |rows| ==> rows[i] == rows[1..][i - 1];
      Lookup(rows[1..], user, subject)
  }

  lemma LookupUnique(rows: seq<ProgressRow>, i: nat)
    requires UniqueProgressKeys(rows) && i < |rows|
    ensures Lookup(rows, rows[i].userId, rows[i].subject) == Some(rows[i])
  {
    if i > 0 {
      assert (rows[0].userId, rows[0].subject) != (rows[i].userId, rows[i].subject);
      LookupUnique(rows[1..], i - 1);
    }
  }

  function IndexOf(rows: seq<ProgressRow>, user: UserId, subject: string): (r: Option<nat>)
    ensures r.Some? ==> r.value < |rows| && rows[r.value].userId == user && rows[r.value].subject == subject
    ensures r.None? ==> Lookup(rows, user, subject).None?
  {
    if rows == [] then None
    else if rows[0].userId == user && rows[0].subject == subject then Some(0)
    else match IndexOf(rows[1..], user, subject)
      case None => None
      case Some(i) => Some(i + 1)
  }

  /** Writes `row` under its key: replaces the row already stored under that
      key, or adds one. Seen through `Lookup`, exactly that key changes. */
  function Put(rows: seq<ProgressRow>, row: ProgressRow): (r: seq<ProgressRow>)
    requires UniqueProgressKeys(rows)
    ensures UniqueProgressKeys(r)
    ensures Lookup(r, row.userId, row.subject) == Some(row)
    ensures forall u, s :: (u, s) != (row.userId, row.subject) ==> Lookup(r, u, s) == Lookup(rows, u, s)
    ensures |r| == if Lookup(rows, row.userId, row.subject).Some? then |rows| else |rows| + 1
  {
    match IndexOf(rows, row.userId, row.subject)
    case Some(i) =>
      var r := rows[i := row];
      assert UniqueProgressKeys(r) by {
        forall a, b | 0 <= a < b < |r|
          ensures (r[a].userId, r[a].subject) != (r[b].userId, r[b].subject)
        {
          if a != i && b != i {
            assert r[a] == rows[a] && r[b] == rows[b];
          } else if a == i {
            assert r[b] == rows[b];
            assert (rows[a].userId, rows[a].subject) != (rows[b].userId, rows[b].subject);
          } else {
            assert r[a] == rows[a];
            assert (rows[a].userId, rows[a].subject) != (rows[b].userId, rows[b].subject);
          }
        }
      }
      LookupUnique(r, i);
      forall u, s | (u, s) != (row.userId, row.subject)
        ensures Lookup(r, u, s) == Lookup(rows, u, s)
      {
        LookupOtherKey(rows, i, row, u, s);
      }
      r
    case None =>
      var r := rows + [row];
      LookupUnique(r, |rows|);
      forall u, s | (u, s) != (row.userId, row.subject)
        ensures Lookup(r, u, s) == Lookup(rows, u, s)
      {
        LookupAppend(rows, row, u, s);
      }
      r
  }

  lemma LookupOtherKey(rows: seq<ProgressRow>, i: nat, row: ProgressRow, u: UserId, s: string)
    requires i < |rows| && rows[i].userId == row.userId && rows[i].subject == row.subject
    requires (u, s) != (row.userId, row.subject)
    ensures Lookup(rows[i := row], u, s) == Lookup(rows, u, s)
  {
    if i > 0 {
      assert rows[i := row][1..] == rows[1..][i - 1 := row];
      LookupOtherKey(rows[1..], i - 1, row, u, s);
    }
  }

  lemma LookupAppend(rows: seq<ProgressRow>, row: ProgressRow, u: UserId, s: string)
    requires (u, s) != (row.userId, row.subject)
    ensures Lookup(rows + [row], u, s) == Lookup(rows, u, s)
  {
    if rows != [] {
      assert (rows + [row])[1..] == rows[1..] + [row];
      LookupAppend(rows[1..], row, u, s);
    }
  }

  function Max(a: int, b: int): int {
    if a >= b then a else b
  }

  /** The upsert of the attempt handler, as written: a new row takes the
      submitted score unchanged; an existing row's score is overwritten by
      `Math.max(score, 0)`, whatever it held. Both refresh `lastStudied`. */
  function UpsertAsWritten(rows: seq<ProgressRow>, user: UserId, subject: string, score: int, now: int): (r: seq<ProgressRow>)
    requires UniqueProgressKeys(rows)
    ensures UniqueProgressKeys(r)
    ensures Lookup(rows, user, subject).None? ==>
      Lookup(r, user, subject) == Some(ProgressRow(user, subject, score, now))
    ensures Lookup(rows, user, subject).Some? ==>
      Lookup(r, user, subject) == Some(ProgressRow(user, subject, Max(score, 0), now))
    ensures forall u, s :: (u, s) != (user, subject) ==> Lookup(r, u, s) == Lookup(rows, u, s)
  {
    var newScore := if Lookup(rows, user, subject).Some? then Max(score, 0) else score;
    Put(rows, ProgressRow(user, subject, newScore, now))
  }

  /** The upsert the handler's comment ("Keep the higher score") describes:
      an existing row keeps the greater of its score and the submitted one. */
  function UpsertBest(rows: seq<ProgressRow>, user: UserId, subject: string, score: int, now: int): (r: seq<ProgressRow>)
    requires UniqueProgressKeys(rows)
    ensures UniqueProgressKeys(r)
    ensures Lookup(r, user, subject).Some?
    ensures Lookup(r, user, subject).value.score >= score
    ensures Lookup(rows, user, subject).Some? ==>
      Lookup(r, user, subject).value.score >= Lookup(rows, user, subject).value.score
    ensures Lookup(r, user, subject).value.lastStudied == now
    ensures Lookup(r, user, subject).value.score
      == if Lookup(rows, user, subject).Some? then Max(Lookup(rows, user, subject).value.score, score) else score
    ensures forall u, s :: (u, s) != (user, subject) ==> Lookup(r, u, s) == Lookup(rows, u, s)
  {
    var newScore := match Lookup(rows, user, subject)
      case Some(prev) => Max(prev.score, score)
      case None => score;
    Put(rows, ProgressRow(user, subject, newScore, now))
  }

  /** The greatest element of a non-empty list of scores. */
  function MaxOf(scores: seq<int>): (m: int)
    requires scores != []
    ensures m in scores
    ensures forall i :: 0 <= i < |scores| ==> scores[i] <= m
  {
    if |scores| == 1 then scores[0]
    else
      var m := MaxOf(scores[..|scores| - 1]);
      assert forall i :: 0 <= i < |scores| - 1 ==> scores[i] == scores[..|scores| - 1][i];
      Max(m, scores[|scores| - 1])
  }

  /** Applying the as-written upsert for every score in turn, one request at a time. */
  function ReplayAsWritten(rows: seq<ProgressRow>, user: UserId, subject: string, scores: seq<int>, now: int): (r: seq<ProgressRow>)
    requires UniqueProgressKeys(rows)
    ensures UniqueProgressKeys(r)
    decreases |scores|
  {
    if scores == [] then rows
    else ReplayAsWritten(UpsertAsWritten(rows, user, subject, scores[0], now), user, subject, scores[1..], now)
  }

  function ReplayBest(rows: seq<ProgressRow>, user: UserId, subject: string, scores: seq<int>, now: int): (r: seq<ProgressRow>)
    requires UniqueProgressKeys(rows)
    ensures UniqueProgressKeys(r)
    decreases |scores|
  {
    if scores == [] then rows
    else ReplayBest(UpsertBest(rows, user, subject, scores[0], now), user, subject, scores[1..], now)
  }

  /** As written, the stored score after two or more attempts is the last score,
      clamped at 0: earlier scores, however high, are lost. */
  lemma {:induction false} AsWrittenLastScoreWins(rows: seq<ProgressRow>, user: UserId, subject: string, scores: seq<int>, now: int)
    requires UniqueProgressKeys(rows)
    requires |scores| >= 2 || (|scores| == 1 && Lookup(rows, user, subject).Some?)
    ensures Lookup(ReplayAsWritten(rows, user, subject, scores, now), user, subject)
      == Some(ProgressRow(user, subject, Max(scores[|scores| - 1], 0), now))
    decreases |scores|
  {
    var next := UpsertAsWritten(rows, user, subject, scores[0], now);
    assert Lookup(next, user, subject).Some?;
    if |scores| >= 2 {
      AsWrittenLastScoreWins(next, user, subject, scores[1..], now);
    }
  }

  /** With the corrected upsert, starting from no row, the stored score is the
      best of all submitted scores, whatever their order. */
  lemma {:induction false} BestKeepsMaximum(rows: seq<ProgressRow>, user: UserId, subject: string, scores: seq<int>, now: int)
    requires UniqueProgressKeys(rows)
    requires Lookup(rows, user, subject).None?
    requires scores != []
    ensures Lookup(ReplayBest(rows, user, subject, scores, now), user, subject)
      == Some(ProgressRow(user, subject, MaxOf(scores), now))
  {
    BestReplayFrom(rows, user, subject, [], scores, now);
    assert [] + scores == scores;
  }

  lemma {:induction false} BestReplayFrom(rows: seq<ProgressRow>, user: UserId, subject: string, done: seq<int>, scores: seq<int>, now: int)
    requires UniqueProgressKeys(rows)
    requires done == [] ==> Lookup(rows, user, subject).None?
    requires done != [] ==> Lookup(rows, user, subject) == Some(ProgressRow(user, subject, MaxOf(done), now))
    requires done + scores != []
    ensures Lookup(ReplayBest(rows, user, subject, scores, now), user, subject)
      == Some(ProgressRow(user, subject, MaxOf(done + scores), now))
    decreases |scores|
  {
    if scores == [] {
      assert done + scores == done;
    } else {
      var next := UpsertBest(rows, user, subject, scores[0], now);
      var done' := done + [scores[0]];
      assert (done' + scores[1..]) == done + scores;
      assert done'[..|done'| - 1] == done;
      assert Lookup(next, user, subject) == Some(ProgressRow(user, subject, MaxOf(done'), now));
      BestReplayFrom(next, user, subject, done', scores[1..], now);
    }
  }
}
