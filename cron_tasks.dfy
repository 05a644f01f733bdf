/**
 * The daily cleanup of expired tokens (src/tasks/cron_tasks.ts): every
 * stored token that fails verification is collected, then the collected
 * ids are deleted in one `deleteMany`.
 *
 * `verify` is a parameter standing for `jwt.verify(token, JWT_SECRET)`:
 * for each token string, either a decoded payload (truthy or not) or a
 * thrown error. The real `jwt.verify` throws on an expired or badly signed
 * token instead of returning a falsy value; `CleanupExpiredTokensAsWritten`
 * models the loop with that behaviour, `CleanupExpiredTokens` the cleanup
 * the comment promises, where a throw counts as a failed verification.
 */
module CronTasks {
  import opened Database

  datatype Verification = Decoded(truthy: bool) | Threw

  /** The token is kept: it decoded to a truthy payload. */
  predicate Passes(v: Verification)
  {
    v.Decoded? && v.truthy
  }

  /** The ids of the rows failing verification, in read order. */
  function FailingIds(rows: seq<UserToken>, verify: string -> Verification): (ids: seq<int>)
    ensures |ids| <= |rows|
    ensures forall id :: id in ids <==> exists i :: 0 <= i < |rows| && rows[i].id == id && !Passes(verify(rows[i].token))
  {
    if rows == [] then []
    else
      var n := |rows| - 1;
      FailingIds(rows[..n], verify) + (if Passes(verify(rows[n].token)) then [] else [rows[n].id])
  }

  /** The ids of the stored tokens failing verification. */
  function Expired(d: Db, verify: string -> Verification): set<int>
  {
    set id | id in d.tokens && !Passes(verify(d.tokens[id].token))
  }

  /** The tables after a cleanup that removes every token failing verification. */
  function Cleaned(d: Db, verify: string -> Verification): (r: Db)
    ensures forall id :: id in r.tokens <==> id in d.tokens && Passes(verify(d.tokens[id].token))
    ensures forall id :: id in r.tokens ==> r.tokens[id] == d.tokens[id]
    ensures r.users == d.users && r.invitations == d.invitations
  {
    RemoveTokenIds(d, Expired(d, verify))
  }

  /** Some stored token makes `verify` throw. */
  predicate SomeVerificationThrows(d: Db, verify: string -> Verification)
  {
    exists id :: id in d.tokens && verify(d.tokens[id].token).Threw?
  }

  /** The tables after the loop as written: a throw aborts the task before the delete. */
  function CleanedAsWritten(d: Db, verify: string -> Verification): (r: Db)
    ensures SomeVerificationThrows(d, verify) ==> r == d
  {
    if SomeVerificationThrows(d, verify) then d else Cleaned(d, verify)
  }

  /** The ids selected from a full read of the table are exactly the failing ones, each once. */
  lemma {:induction false} FailingIdsDistinct(rows: seq<UserToken>, verify: string -> Verification)
    requires forall i, j :: 0 <= i < j < |rows| ==> rows[i].id != rows[j].id
    ensures forall k, l :: 0 <= k < l < |FailingIds(rows, verify)| ==>
      FailingIds(rows, verify)[k] != FailingIds(rows, verify)[l]
  {
    if rows != [] {
      var n := |rows| - 1;
      FailingIdsDistinct(rows[..n], verify);
      var prefix := FailingIds(rows[..n], verify);
      if !Passes(verify(rows[n].token)) {
        assert forall i :: 0 <= i < n ==> rows[..n][i].id != rows[n].id;
        assert rows[n].id !in prefix;
      }
    }
  }

  /** `cleanupExpiredTokens` with failed verification, thrown or not, marking a token for deletion. */
  method CleanupExpiredTokens(db: Store, verify: string -> Verification) returns (tokensToDelete: seq<int>)
    requires db.Valid()
    modifies db
    ensures db.Valid()
    ensures db.State() == Cleaned(old(db.State()), verify)
    ensures (set id | id in tokensToDelete) == Expired(old(db.State()), verify)
    ensures forall k, l :: 0 <= k < l < |tokensToDelete| ==> tokensToDelete[k] != tokensToDelete[l]
  {
    var tokens := db.FindManyTokens();
    tokensToDelete := [];
    for i := 0 to |tokens|
      invariant tokensToDelete == FailingIds(tokens[..i], verify)
    {
      assert tokens[..i + 1][..i] == tokens[..i];
      if !Passes(verify(tokens[i].token)) {
        tokensToDelete := tokensToDelete + [tokens[i].id];
      }
    }
    assert tokens[..|tokens|] == tokens;
    FailingIdsDistinct(tokens, verify);
    ghost var before := db.State();
    assert (set id | id in tokensToDelete) == Expired(before, verify) by {
      forall id | id in tokensToDelete ensures id in Expired(before, verify) {
        var i :| 0 <= i < |tokens| && tokens[i].id == id && !Passes(verify(tokens[i].token));
      }
      forall id | id in Expired(before, verify) ensures id in tokensToDelete {
        var i :| 0 <= i < |tokens| && tokens[i].id == id;
      }
    }
    db.DeleteTokenIds(tokensToDelete);
    RemovalsWellFormed(before, "", "", 0, Expired(before, verify));
  }

  /**
   * `cleanupExpiredTokens` as written: `jwt.verify` throwing ends the task at
   * that token, so nothing collected so far is deleted.
   */
  method CleanupExpiredTokensAsWritten(db: Store, verify: string -> Verification) returns (completed: bool)
    requires db.Valid()
    modifies db
    ensures db.Valid()
    ensures completed == !SomeVerificationThrows(old(db.State()), verify)
    ensures db.State() == CleanedAsWritten(old(db.State()), verify)
  {
    var tokens := db.FindManyTokens();
    var tokensToDelete := [];
    for i := 0 to |tokens|
      invariant tokensToDelete == FailingIds(tokens[..i], verify)
      invariant forall k :: 0 <= k < i ==> !verify(tokens[k].token).Threw?
    {
      assert tokens[..i + 1][..i] == tokens[..i];
      var outcome := verify(tokens[i].token);
      if outcome.Threw? {
        return false;
      }
      if !outcome.truthy {
        tokensToDelete := tokensToDelete + [tokens[i].id];
      }
    }
    assert tokens[..|tokens|] == tokens;
    ghost var before := db.State();
    assert !SomeVerificationThrows(before, verify) by {
      forall id | id in before.tokens ensures !verify(before.tokens[id].token).Threw? {
        var i :| 0 <= i < |tokens| && tokens[i].id == id;
      }
    }
    assert (set id | id in tokensToDelete) == Expired(before, verify) by {
      forall id | id in tokensToDelete ensures id in Expired(before, verify) {
        var i :| 0 <= i < |tokens| && tokens[i].id == id && !Passes(verify(tokens[i].token));
      }
      forall id | id in Expired(before, verify) ensures id in tokensToDelete {
        var i :| 0 <= i < |tokens| && tokens[i].id == id;
      }
    }
    db.DeleteTokenIds(tokensToDelete);
    RemovalsWellFormed(before, "", "", 0, Expired(before, verify));
    return true;
  }

  /**
   * The discrepancy: a stored token whose verification throws (an expired
   * one) survives the cleanup as written, and is removed by the cleanup
   * that treats a throw as a failed verification.
   */
  lemma ExpiredTokenSurvivesAsWritten(d: Db, verify: string -> Verification, id: int)
    requires id in d.tokens && verify(d.tokens[id].token).Threw?
    ensures id in CleanedAsWritten(d, verify).tokens
    ensures id !in Cleaned(d, verify).tokens
  {
  }

  /** The two agree whenever no verification throws. */
  lemma AsWrittenAgreesWithoutThrows(d: Db, verify: string -> Verification)
    requires !SomeVerificationThrows(d, verify)
    ensures CleanedAsWritten(d, verify) == Cleaned(d, verify)
  {
  }

  /** The tasks the scheduler runs. */
  datatype Task = CleanupExpiredTokensTask

  /** `cronTasks`: schedule expression to task. */
  const CronSchedule: map<string, Task> := map["0 0 * * *" := CleanupExpiredTokensTask]

  /** One entry: the cleanup, every day at midnight. */
  lemma CronScheduleIsDailyCleanup()
    ensures CronSchedule.Keys == {"0 0 * * *"}
    ensures CronSchedule["0 0 * * *"] == CleanupExpiredTokensTask
  {
  }
}
