/**
  A database connection and its two session scopes (DatabaseConnection,
  cryptomarket/database/connection.py), for one insert at a time.

  The synchronous scope refuses an asynchronous engine before it opens anything; a failing statement or
  commit comes out of either scope as a ValueError, the commit's after the statement ran.  Leaving an
  opened scope throws the session factory away.
*/
module DatabaseConnection {
  import opened Prelude

  /** What the URL says: a database the service knows (PostgreSQL or SQLite), an asynchronous driver. */
  datatype Database = Database(known: bool, isAsync: bool)

  /** How a session fares if it is asked for: it cannot be made, its statement fails, the statement
      runs but the commit fails, or all goes well. */
  datatype Fate = OpenFails | ExecuteFails | CommitFails | Commits

  datatype Error = CoroutineError | ValueError | OpenError

  /** What happens to the database. */
  datatype Effect<+R> = Refused | Executed(row: R) | Committed(row: R)

  /** One session, from its opening to its end. */
  function SessionEffects<R>(row: R, fate: Fate): seq<Effect<R>> {
    match fate
    case OpenFails => []
    case ExecuteFails => []
    case CommitFails => [Executed(row)]
    case Commits => [Executed(row), Committed(row)]
  }

  function SessionError(fate: Fate): Option<Error> {
    match fate
    case OpenFails => Some(OpenError)
    case ExecuteFails => Some(ValueError)
    case CommitFails => Some(ValueError)
    case Commits => None
  }

  /** The fate of the one session the engine offers. */
  function OwnFate(db: Database, syncFate: Fate, asyncFate: Fate): Fate {
    if db.isAsync then asyncFate else syncFate
  }

  /** The insert with its fallback: the refused synchronous session is tried first. */
  function InsertEffects<R>(db: Database, row: R, syncFate: Fate, asyncFate: Fate): seq<Effect<R>> {
    if !db.known then []
    else if db.isAsync then [Refused] + SessionEffects(row, asyncFate)
    else SessionEffects(row, syncFate)
  }

  class Connection<R> {
    const db: Database
    var sessionFactory: bool        // set by init_engine, thrown away by a scope
    var executed: seq<R>
    var committed: seq<R>
    ghost var effects: seq<Effect<R>>

    constructor (db: Database)
      ensures this.db == db && !sessionFactory && executed == [] && committed == [] && effects == []
    {
      this.db := db;
      sessionFactory, executed, committed, effects := false, [], [], [];
    }

    /** The part both scopes share, once the session may be opened. */
    method RunSession(row: R, fate: Fate) returns (error: Option<Error>)
      requires sessionFactory
      modifies this
      ensures error == SessionError(fate)
      ensures effects == old(effects) + SessionEffects(row, fate)
      ensures executed == if fate.CommitFails? || fate.Commits? then old(executed) + [row] else old(executed)
      ensures committed == if fate.Commits? then old(committed) + [row] else old(committed)
    {
      if fate.OpenFails? {
        return Some(OpenError);
      }
      sessionFactory := false;
      if fate.ExecuteFails? {
        return Some(ValueError);
      }
      executed, effects := executed + [row], effects + [Executed(row)];
      if fate.CommitFails? {
        return Some(ValueError);
      }
      committed, effects := committed + [row], effects + [Committed(row)];
      error := None;
    }

    /** session_scope: the refusal leaves the session factory in place. */
    method SessionScope(row: R, fate: Fate) returns (error: Option<Error>)
      requires sessionFactory
      modifies this
      ensures db.isAsync ==> error == Some(CoroutineError) && sessionFactory && effects == old(effects) + [Refused]
      ensures !db.isAsync ==> error == SessionError(fate) && effects == old(effects) + SessionEffects(row, fate)
      ensures executed == if !db.isAsync && (fate.CommitFails? || fate.Commits?) then old(executed) + [row] else old(executed)
      ensures committed == if !db.isAsync && fate.Commits? then old(committed) + [row] else old(committed)
    {
      if db.isAsync {
        effects := effects + [Refused];
        return Some(CoroutineError);
      }
      error := RunSession(row, fate);
    }

    /** asyncsession_scope */
    method AsyncSessionScope(row: R, fate: Fate) returns (error: Option<Error>)
      requires sessionFactory
      modifies this
      ensures !db.isAsync ==> error == Some(ValueError) && effects == old(effects)
      ensures db.isAsync ==> error == SessionError(fate) && effects == old(effects) + SessionEffects(row, fate)
      ensures executed == if db.isAsync && (fate.CommitFails? || fate.Commits?) then old(executed) + [row] else old(executed)
      ensures committed == if db.isAsync && fate.Commits? then old(committed) + [row] else old(committed)
    {
      if !db.isAsync {
        return Some(ValueError);
      }
      error := RunSession(row, fate);
    }

    /** The insert of a row: only the refusal leads to the second scope.  Whatever the two sessions'
        fates, the statement runs at most once, and exactly once when no error comes out. */
    method Insert(row: R, syncFate: Fate, asyncFate: Fate) returns (ok: bool)
      requires sessionFactory
      modifies this
      ensures effects == old(effects) + InsertEffects(db, row, syncFate, asyncFate)
      ensures ok <==> !db.known || (if db.isAsync then asyncFate.Commits? else syncFate.Commits?)
      ensures executed == old(executed) || executed == old(executed) + [row]
      ensures ok && db.known ==> executed == old(executed) + [row] && committed == old(committed) + [row]
      ensures !ok ==> committed == old(committed)
      ensures !ok && executed != old(executed) <==> db.known && (if db.isAsync then asyncFate.CommitFails? else syncFate.CommitFails?)
      ensures !db.known ==> executed == old(executed) && committed == old(committed)
    {
      if !db.known {
        return true;
      }
      var error := SessionScope(row, syncFate);
      if error == Some(CoroutineError) {
        error := AsyncSessionScope(row, asyncFate);
      }
      ok := error.None?;
    }

    /** init_engine, and the session made and dropped in front of every insert. */
    method InitEngine(works: bool) returns (ok: bool)
      modifies this`sessionFactory
      ensures ok == works && (ok ==> sessionFactory)
    {
      if works {
        sessionFactory := true;
      }
      ok := works;
    }
  }
}
