/**
  How a login/query session ends (task_account, cryptomarket/tasks/queues/task_account_user.py), said by
  the replies alone: which of them let it go on, which one ends it, and what it answers then.
*/
module SessionOutcome {
  import opened Prelude
  import opened AccountSession

  /** The reply grants tokens: it has all five fields. */
  predicate GrantsTokens(r: Reply) {
    match r
    case Plain(Grant(access, refresh, complete)) => access != Missing && refresh != Missing && complete
    case _ => false
  }

  function TokenOf(f: Field): Option<Value> {
    match f
    case Is(v) => Some(v)
    case _ => None
  }

  /** The reply lists accounts, and this is the first of them, with its three fields. */
  predicate ShowsAccount(r: Reply, row: AccountRow) {
    match r
    case Plain(Accounts(rows)) =>
      |rows| >= 1 && rows[0] == row && row.email != Missing && row.isPassword != Missing && row.systemName != Missing
    case _ => false
  }

  /** With an access token at hand an error or an empty reply lets the session go on; without one an
      error does, and a grant. */
  predicate LetsGoOn(held: Tokens, r: Reply) {
    r == ErrorReply || (held.access.Some? && r == EmptyReply) || (held.access.None? && GrantsTokens(r))
  }

  /** Only a grant taken without an access token leaves tokens. */
  function Left(held: Tokens, r: Reply): Tokens {
    match r
    case Plain(Grant(access, refresh, _)) =>
      if held.access.None? then Tokens(TokenOf(access), TokenOf(refresh)) else Tokens(None, None)
    case _ => Tokens(None, None)
  }

  /** The tokens held before the n-th frame is built. */
  function HeldAt(t: Tokens, script: seq<Network>, n: nat): Tokens
    requires n <= |script| && forall i :: 0 <= i < n ==> script[i].Answer?
  {
    if n == 0 then t else Left(HeldAt(t, script, n - 1), script[n - 1].reply)
  }

  /** The session gets as far as the n-th frame. */
  predicate GetsTo(t: Tokens, script: seq<Network>, n: nat) {
    && n <= |script| && (forall i :: 0 <= i < n ==> script[i].Answer?)
    && forall i :: 0 <= i < n ==> LetsGoOn(HeldAt(t, script, i), script[i].reply)
  }

  lemma {:induction false} HeldShifts(t: Tokens, script: seq<Network>, n: nat)
    requires 0 < n <= |script| && forall i :: 0 <= i < n ==> script[i].Answer?
    ensures HeldAt(Left(t, script[0].reply), script[1..], n - 1) == HeldAt(t, script, n)
  {
    if n > 1 {
      HeldShifts(t, script, n - 1);
    }
  }

  lemma GetsToShifts(t: Tokens, script: seq<Network>, n: nat)
    requires script != [] && script[0].Answer? && LetsGoOn(t, script[0].reply)
    ensures GetsTo(Left(t, script[0].reply), script[1..], n) <==> GetsTo(t, script, n + 1)
  {
    var u, rest := Left(t, script[0].reply), script[1..];
    if n <= |rest| && forall i :: 0 <= i < n ==> rest[i].Answer? {
      forall i | 0 <= i < n + 1 ensures script[i].Answer? {
        assert i > 0 ==> script[i] == rest[i - 1];
      }
      forall i | 0 <= i < n ensures HeldAt(u, rest, i) == HeldAt(t, script, i + 1) && rest[i] == script[i + 1] {
        HeldShifts(t, script, i + 1);
      }
      if GetsTo(u, rest, n) {
        forall i | 0 <= i < n + 1 ensures LetsGoOn(HeldAt(t, script, i), script[i].reply) {
          assert i > 0 ==> LetsGoOn(HeldAt(u, rest, i - 1), rest[i - 1].reply);
        }
      }
    }
  }

  /** The session ends at the n-th frame: its reply is missing, or does not let it go on. */
  predicate EndsAt(t: Tokens, script: seq<Network>, n: nat) {
    && GetsTo(t, script, n)
    && (n < |script| && script[n].Answer? ==> !LetsGoOn(HeldAt(t, script, n), script[n].reply))
  }

  /** Where it ends. */
  lemma FindEnd(t: Tokens, script: seq<Network>) returns (n: nat)
    ensures EndsAt(t, script, n)
    decreases |script|
  {
    n := 0;
    if script != [] && script[0].Answer? && LetsGoOn(t, script[0].reply) {
      var m := FindEnd(Left(t, script[0].reply), script[1..]);
      n := m + 1;
      EndShifts(t, script, m);
    }
  }

  lemma EndShifts(t: Tokens, script: seq<Network>, m: nat)
    requires script != [] && script[0].Answer? && LetsGoOn(t, script[0].reply)
    ensures EndsAt(Left(t, script[0].reply), script[1..], m) <==> EndsAt(t, script, m + 1)
  {
    GetsToShifts(t, script, m);
    if GetsTo(t, script, m + 1) {
      HeldShifts(t, script, m + 1);
    }
  }

  /** What the session comes to when it ends at the n-th frame. */
  ghost predicate ComesTo(t: Tokens, script: seq<Network>, n: nat, outcome: Outcome)
    requires EndsAt(t, script, n)
  {
    if n == |script| then outcome == Waiting
    else if script[n] == SendFails then outcome == Failed
    else
      match outcome
      case Answered(row) => HeldAt(t, script, n).access.Some? && ShowsAccount(script[n].reply, row)
      case Failed => HeldAt(t, script, n).access.None? || forall row :: !ShowsAccount(script[n].reply, row)
      case _ => false
  }

  lemma ComesToShifts(t: Tokens, script: seq<Network>, m: nat, outcome: Outcome)
    requires script != [] && script[0].Answer? && LetsGoOn(t, script[0].reply) && EndsAt(t, script, m + 1)
    requires EndsAt(Left(t, script[0].reply), script[1..], m)
    ensures ComesTo(Left(t, script[0].reply), script[1..], m, outcome) <==> ComesTo(t, script, m + 1, outcome)
  {
    HeldShifts(t, script, m + 1);
  }

  /** The first round, said by its reply. */
  lemma FirstRound(who: Credentials, t: Tokens, script: seq<Network>)
    requires who.secret.Some? && script != [] && script[0].Answer?
    ensures LetsGoOn(t, script[0].reply) ==>
              RunSession(who, t, script).outcome == RunSession(who, Left(t, script[0].reply), script[1..]).outcome
    ensures !LetsGoOn(t, script[0].reply) ==> ComesTo(t, script, 0, RunSession(who, t, script).outcome)
  {
    assert ReadableGrant(script[0].reply) <==> GrantsTokens(script[0].reply);
  }

  lemma {:induction false} SessionComesTo(who: Credentials, t: Tokens, script: seq<Network>, n: nat)
    requires who.secret.Some? && EndsAt(t, script, n)
    ensures ComesTo(t, script, n, RunSession(who, t, script).outcome)
    decreases n
  {
    if script != [] && script[0].Answer? {
      FirstRound(who, t, script);
    }
    if n > 0 {
      assert LetsGoOn(HeldAt(t, script, 0), script[0].reply);
      EndShifts(t, script, n - 1);
      SessionComesTo(who, Left(t, script[0].reply), script[1..], n - 1);
      ComesToShifts(t, script, n - 1, RunSession(who, t, script).outcome);
    }
  }

  /** The session ends in one place only. */
  lemma EndIsUnique(t: Tokens, script: seq<Network>, m: nat, n: nat)
    requires EndsAt(t, script, m) && EndsAt(t, script, n)
    ensures m == n
  {
  }

  /** The n-th reply, taken with an access token at hand, shows the account. */
  predicate AnsweredAt(t: Tokens, script: seq<Network>, n: nat, row: AccountRow) {
    GetsTo(t, script, n) && n < |script| && script[n].Answer? && HeldAt(t, script, n).access.Some?
    && ShowsAccount(script[n].reply, row)
  }

  /** The n-th frame cannot be sent, or its reply is no error and neither lets the session go on nor
      shows an account to a session that holds an access token. */
  ghost predicate FailedAt(t: Tokens, script: seq<Network>, n: nat) {
    GetsTo(t, script, n) && n < |script| &&
    (script[n] == SendFails ||
     (!LetsGoOn(HeldAt(t, script, n), script[n].reply) && forall row :: !AnsweredAt(t, script, n, row)))
  }

  /** Over every script: a session is answered exactly when some reply, reached and taken while it holds an
      access token, lists accounts and the first of them has its three fields; and that account it is. */
  lemma AnsweredIff(who: Credentials, t: Tokens, script: seq<Network>, row: AccountRow)
    ensures RunSession(who, t, script).outcome == Answered(row) <==>
            who.secret.Some? && exists n: nat :: AnsweredAt(t, script, n, row)
  {
    if who.secret.Some? {
      var end := FindEnd(t, script);
      SessionComesTo(who, t, script, end);
      if n: nat :| AnsweredAt(t, script, n, row) {
        EndIsUnique(t, script, n, end);
      }
      assert RunSession(who, t, script).outcome == Answered(row) ==> AnsweredAt(t, script, end, row);
    }
  }

  /** It fails exactly when no secret is stored, or at a frame that cannot be sent, or at a reply that
      neither lets it go on nor shows an account. */
  lemma FailedIff(who: Credentials, t: Tokens, script: seq<Network>)
    ensures RunSession(who, t, script).outcome == Failed <==>
            who.secret.None? || exists n: nat :: FailedAt(t, script, n)
  {
    if who.secret.Some? {
      var end := FindEnd(t, script);
      SessionComesTo(who, t, script, end);
      var outcome := RunSession(who, t, script).outcome;
      if n: nat :| FailedAt(t, script, n) {
        EndIsUnique(t, script, n, end);
        assert outcome.Answered? ==> AnsweredAt(t, script, end, outcome.row);
      }
      if outcome == Failed {
        forall row ensures !AnsweredAt(t, script, end, row) {}
        assert FailedAt(t, script, end);
      }
    }
  }

  /** It waits exactly when every reply so far lets it go on. */
  lemma WaitingIff(who: Credentials, t: Tokens, script: seq<Network>)
    ensures RunSession(who, t, script).outcome == Waiting <==> who.secret.Some? && GetsTo(t, script, |script|)
  {
    if who.secret.Some? {
      var end := FindEnd(t, script);
      SessionComesTo(who, t, script, end);
      if GetsTo(t, script, |script|) {
        EndIsUnique(t, script, |script|, end);
      }
    }
  }
}
