/**
  The retry recursion that creates the tables (handler_restart_create_tables,
  cryptomarket/database/handler_create_db.py), on its SQLite branch.  The answer of the recursive
  call is thrown away.
*/
module CreateTables {

  class SqliteDatabase {
    const probe: nat -> bool      // the outcome of the k-th probe for the tables
    const engineAnswers: bool       // whether the engine's connection works at the end
    var created: nat                // history: calls of create_table
    var probed: nat                 // history: probes made

    constructor (probe: nat -> bool, engineAnswers: bool)
      ensures this.probe == probe && this.engineAnswers == engineAnswers && created == 0 && probed == 0
    {
      this.probe, this.engineAnswers := probe, engineAnswers;
      created, probed := 0, 0;
    }

    method CreateTable()
      modifies this
      ensures created == old(created) + 1 && probed == old(probed)
    {
      created := created + 1;
    }

    method IsSqliteExists() returns (found: bool)
      modifies this
      ensures found == probe(old(probed)) && probed == old(probed) + 1 && created == old(created)
    {
      found := probe(probed);
      probed := probed + 1;
    }

    /** The recursion ends; it makes two calls of create_table per failed probe and one more; and it
        answers True exactly when the first probe of an allowed attempt succeeds, however the
        retries go. */
    method HandlerRestart(maxRestart: int, restartQuantity: int) returns (ok: bool)
      modifies this
      ensures var failed := FailedProbes(probe, old(probed), Attempts(maxRestart, restartQuantity));
              && created == old(created) + 2 * failed + 1
              && probed == old(probed) + failed + (if failed < Attempts(maxRestart, restartQuantity) then 1 else 0)
      ensures ok == if restartQuantity < maxRestart then probe(old(probed)) else engineAnswers
      decreases maxRestart - restartQuantity
    {
      CreateTable();
      if restartQuantity < maxRestart {
        var found := IsSqliteExists();
        if !found {
          CreateTable();
          var _ := HandlerRestart(maxRestart, restartQuantity + 1);
          return false;
        }
        return true;
      }
      ok := engineAnswers;
    }
  }

  function Attempts(maxRestart: int, restartQuantity: int): nat {
    if restartQuantity < maxRestart then maxRestart - restartQuantity else 0
  }

  /** How many of the allowed probes fail before the first that succeeds. */
  function FailedProbes(probe: nat -> bool, from: nat, attempts: nat): nat
    decreases attempts
  {
    if attempts == 0 || probe(from) then 0 else 1 + FailedProbes(probe, from + 1, attempts - 1)
  }

  /** The number of failed probes is the position of the first success, or all the attempts; so
      create_table runs at most 2 * attempts + 1 times. */
  lemma {:induction false} FailedProbesSpec(probe: nat -> bool, from: nat, attempts: nat)
    ensures var failed := FailedProbes(probe, from, attempts);
            && failed <= attempts
            && (forall k: nat :: from <= k < from + failed ==> !probe(k))
            && (failed < attempts ==> probe(from + failed))
    decreases attempts
  {
    if attempts > 0 && !probe(from) {
      FailedProbesSpec(probe, from + 1, attempts - 1);
    }
  }
}
