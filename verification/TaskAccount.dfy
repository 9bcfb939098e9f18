/**
  task_account as the loop it is (cryptomarket/tasks/queues/task_account_user.py): the person's two
  token fields and its active flag are assigned step by step.  `AccountSession` says what the loop
  computes and what every such session guarantees.
*/
module TaskAccount {
  import opened Prelude
  import opened AccountSession

  class Person {
    const clientId: string
    var secret: Option<string>          // what client_secret_encrypt decrypts to
    var accessToken: Option<Value>
    var refreshToken: Option<Value>
    var active: bool

    ghost function Who(): Credentials
      reads this
    {
      Credentials(clientId, secret)
    }

    ghost function Held(): Tokens
      reads this
    {
      Tokens(accessToken, refreshToken)
    }

    constructor (clientId: string, secret: Option<string>)
      ensures Who() == Credentials(clientId, secret) && Held() == NO_TOKENS && active
    {
      this.clientId, this.secret := clientId, secret;
      accessToken, refreshToken, active := None, None, true;
    }

    /** update_person_manual: without a stored secret the person is put out of action. */
    method UpdatePersonManual() returns (frame: Option<Frame>)
      modifies this
      ensures frame == BuildFrame(Who(), Held())
      ensures Who() == old(Who()) && Held() == old(Held())
      ensures active == (old(active) && frame.Some?)
    {
      if secret.None? {
        active := false;
        return None;
      }
      if accessToken.None? && refreshToken.None? {
        frame := Some(AuthFrame(clientId, secret.value));
      } else if accessToken.Some? && Truthy(accessToken.value) {
        frame := Some(PrivateFrame(accessToken.value));
      } else {
        frame := Some(EmptyFrame);
      }
    }

    /** The finally clause. */
    method ForgetTokens()
      modifies this
      ensures Held() == NO_TOKENS && Who() == old(Who()) && active == old(active)
    {
      refreshToken, accessToken := None, None;
    }

    /** The body of the loop, up to its `continue`, its next pass or its return. */
    method Round(net: Option<Network>) returns (events: seq<Event>, outcome: Option<Outcome>)
      requires active
      modifies this
      ensures Who() == old(Who())
      ensures active == secret.Some? && (outcome.None? ==> active && net.Some?)
      ensures PlayRound(old(Who()), old(Held()), net) ==
              if outcome.None? then Again(events, Held()) else Stop(events, outcome.value, Held())
    {
      var frame := UpdatePersonManual();
      if frame.None? {
        ForgetTokens();
        return [], Some(Failed);
      }
      events := [Sent(frame.value)];
      if net.None? {
        return events, Some(Waiting);
      }
      if net.value.SendFails? {
        ForgetTokens();
        return events, Some(Failed);
      }
      var message := net.value.reply;
      events := [Sent(frame.value), Received(message)];
      if !message.ErrorReply? && accessToken.None? {
        if !ReadableGrant(message) {
          ForgetTokens();
          return events, Some(Failed);
        }
        accessToken, refreshToken := AsToken(message.body.access), AsToken(message.body.refresh);
        return events, None;
      }
      accessToken, refreshToken := None, None;
      if message.Plain? {
        return events, Some(if ReadableRow(message) then Answered(message.body.rows[0]) else Failed);
      }
      outcome := None;
    }

    /** The loop `while person.active` of one connection, fed with what the network does. */
    method Session(script: seq<Network>) returns (outcome: Outcome, trace: seq<Event>)
      modifies this
      ensures Who() == old(Who()) && active == (old(active) && secret.Some?)
      ensures !old(active) ==> outcome == Inactive && trace == [] && Held() == NO_TOKENS
      ensures old(active) ==>
                AccountSession.Session(trace, outcome, Held()) == RunSession(old(Who()), old(Held()), script)
    {
      trace := [];
      var i := 0;
      while active
        invariant i <= |script| && Who() == old(Who())
        invariant !old(active) ==> !active && trace == []
        invariant old(active) ==> active && RunSession(old(Who()), old(Held()), script) == Before(trace, RunSession(Who(), Held(), script[i..]))
        decreases |script| - i
      {
        var net := if i == |script| then None else Some(script[i]);
        ghost var held := Held();
        var events, result := Round(net);
        SessionGoesOn(old(Who()), old(Held()), script, trace, held, i, PlayRound(old(Who()), held, net));
        trace := trace + events;
        if result.Some? {
          return result.value, trace;
        }
        i := i + 1;
      }
      ForgetTokens();
      outcome := Inactive;
    }
  }

  /** One more round of a session that has got to its i-th frame. */
  lemma SessionGoesOn(who: Credentials, t: Tokens, script: seq<Network>, trace: seq<Event>, held: Tokens, i: nat, r: AccountSession.Round)
    requires i <= |script| && RunSession(who, t, script) == Before(trace, RunSession(who, held, script[i..]))
    requires r == PlayRound(who, held, if i == |script| then None else Some(script[i]))
    ensures r.Stop? ==> RunSession(who, t, script) == AccountSession.Session(trace + r.events, r.outcome, r.left)
    ensures r.Again? ==> i < |script| && RunSession(who, t, script) == Before(trace + r.events, RunSession(who, r.kept, script[i + 1..]))
  {
    var rest := script[i..];
    assert i < |script| ==> rest[0] == script[i] && rest[1..] == script[i + 1..];
    if r.Again? {
      Regrouped(trace, r.events, RunSession(who, r.kept, script[i + 1..]).trace);
    }
  }

  /** The shared cache record "deribit:person". */
  class ProfileCache {
    var record: Option<map<string, AccountRow>>

    constructor ()
      ensures record == None
    {
      record := None;
    }

    /** The end of an answered session: `keyIsWord` is the outcome of the key's regular expression.
        The membership list is indexed before it is known to be non-empty; the cache connection's
        context swallows that IndexError, so the session answers True although nothing is stored. */
    method Store(key: string, keyIsWord: bool, row: AccountRow) returns (answer: bool, stored: bool)
      modifies this
      ensures answer <==> keyIsWord
      ensures stored <==> keyIsWord && StoreProfile(old(record), key, row).Some?
      ensures record == if stored then StoreProfile(old(record), key, row) else old(record)
      ensures answer && !stored <==> keyIsWord && old(record).Some? && key !in old(record).value
    {
      if !keyIsWord {
        return false, false;
      }
      if record.None? {
        record := Some(map[key := row]);
        return true, true;
      }
      var same := if key in record.value then [key] else [];
      if |same| == 0 {
        return true, false;   // check_unique_list[0] raises IndexError
      }
      record := Some(record.value[key := row]);
      return true, true;
    }
  }
}
