/**
  The login/query session of task_account (cryptomarket/tasks/queues/task_account_user.py) with
  update_person_manual (cryptomarket/project/functions.py), against an arbitrary server.

  A round builds one frame from the person's two token fields, sends it and reads one reply.  With no
  tokens the frame is a public/auth request (client credentials grant, section 4.4 of RFC 6749); a
  reply without "error" is then taken as the grant.  With a token the frame is the private query, and
  whatever comes back the token is forgotten.
*/
module AccountSession {
  import opened Prelude

  /** A field of a JSON object. */
  datatype Field = Missing | Null | Is(value: Value)

  /** A JSON value other than null: a string, or a number, boolean, list or object that counts as true
      or, like 0 and [], as false. */
  datatype Value = Str(text: string) | Other(json: string, countsAsTrue: bool)

  predicate Truthy(v: Value) {
    if v.Str? then v.text != "" else v.countsAsTrue
  }

  datatype AccountRow = AccountRow(email: Field, isPassword: Field, systemName: Field)

  /** What a reply carries under "result". */
  datatype Body =
    | Grant(access: Field, refresh: Field, complete: bool)   // complete: expires_in, scope and token_type are there
    | Accounts(rows: seq<AccountRow>)
    | Unusable

  datatype Reply = ErrorReply | EmptyReply | Plain(body: Body)

  datatype Network = SendFails | Answer(reply: Reply)

  datatype Frame =
    | AuthFrame(clientId: string, secret: string)
    | PrivateFrame(token: Value)
    | EmptyFrame

  datatype Event = Opened | Sent(frame: Frame) | Received(reply: Reply)

  /** Waiting: the reply to the last frame has not come yet. */
  datatype Outcome = Waiting | Failed | Answered(row: AccountRow) | Inactive

  datatype Credentials = Credentials(clientId: string, secret: Option<string>)

  datatype Tokens = Tokens(access: Option<Value>, refresh: Option<Value>)

  datatype Session = Session(trace: seq<Event>, outcome: Outcome, tokens: Tokens)

  const NO_TOKENS := Tokens(None, None)

  /** update_person_manual: the frame of the round, or None when it raises (no stored secret). */
  function BuildFrame(who: Credentials, t: Tokens): Option<Frame> {
    if who.secret.None? then None
    else if t.access.None? && t.refresh.None? then Some(AuthFrame(who.clientId, who.secret.value))
    else if t.access.Some? && Truthy(t.access.value) then Some(PrivateFrame(t.access.value))
    else Some(EmptyFrame)
  }

  function AsToken(f: Field): Option<Value> {
    if f.Is? then Some(f.value) else None
  }

  /** Reading the five grant fields raises when one is missing. */
  predicate ReadableGrant(r: Reply) {
    r.Plain? && r.body.Grant? && !r.body.access.Missing? && !r.body.refresh.Missing? && r.body.complete
  }

  predicate ReadableRow(r: Reply) {
    && r.Plain? && r.body.Accounts? && r.body.rows != []
    && !r.body.rows[0].email.Missing? && !r.body.rows[0].isPassword.Missing? && !r.body.rows[0].systemName.Missing?
  }

  function Before(events: seq<Event>, rest: Session): Session {
    rest.(trace := events + rest.trace)
  }

  /** One pass of the session's loop: what it sends and receives, and how it goes on. */
  datatype Round =
    | Stop(events: seq<Event>, outcome: Outcome, left: Tokens)
    | Again(events: seq<Event>, kept: Tokens)

  /** `net` is what the network does with the frame; None when nothing has happened yet. */
  function PlayRound(who: Credentials, t: Tokens, net: Option<Network>): Round {
    match BuildFrame(who, t)
    case None => Stop([], Failed, NO_TOKENS)
    case Some(frame) =>
      if net.None? then Stop([Sent(frame)], Waiting, t)
      else if net.value.SendFails? then Stop([Sent(frame)], Failed, NO_TOKENS)
      else
        var r := net.value.reply;
        var events := [Sent(frame), Received(r)];
        if !r.ErrorReply? && t.access.None? then
          if ReadableGrant(r) then Again(events, Tokens(AsToken(r.body.access), AsToken(r.body.refresh)))
          else Stop(events, Failed, NO_TOKENS)
        else if r.Plain? then Stop(events, if ReadableRow(r) then Answered(r.body.rows[0]) else Failed, NO_TOKENS)
        else Again(events, NO_TOKENS)
  }

  /** The whole session from given token fields. */
  function RunSession(who: Credentials, t: Tokens, script: seq<Network>): Session
    decreases |script|
  {
    match PlayRound(who, t, if script == [] then None else Some(script[0]))
    case Stop(events, outcome, left) => Session(events, outcome, left)
    case Again(events, kept) => Before(events, RunSession(who, kept, script[1..]))
  }

  // ---------------------------------------------------------------------------------------------
  // Auth trace safety
  // ---------------------------------------------------------------------------------------------

  predicate IsPrivate(e: Event) {
    e.Sent? && e.frame.PrivateFrame?
  }

  /** The event is a successful auth reply carrying exactly this token. */
  predicate Grants(e: Event, token: Value) {
    e.Received? && ReadableGrant(e.reply) && e.reply.body.access == Is(token)
  }

  /** A readable grant with a refresh token and a null access token. */
  predicate RefreshOnly(e: Event) {
    e.Received? && ReadableGrant(e.reply) && e.reply.body.access == Null && e.reply.body.refresh.Is?
  }

  /** The private request at i directly follows the grant of its token, and what was granted is the
      auth request sent just before, or {} if the reply before that was a refresh token only. */
  predicate GrantedOnRequest(trace: seq<Event>, i: nat)
    requires 3 <= i < |trace| && IsPrivate(trace[i])
  {
    && Grants(trace[i - 1], trace[i].frame.token)
    && trace[i - 2].Sent?
    && (if RefreshOnly(trace[i - 3]) then trace[i - 2].frame.EmptyFrame? else trace[i - 2].frame.AuthFrame?)
  }

  predicate PrivateFollowsGrant(trace: seq<Event>) {
    forall i :: 0 <= i < |trace| && IsPrivate(trace[i]) ==> 3 <= i && GrantedOnRequest(trace, i)
  }

  /** Before the i-th event of a session that starts with these tokens, the last that came is a refresh
      token only. */
  predicate OnlyRefreshBefore(t: Tokens, trace: seq<Event>, i: nat)
    requires i <= |trace|
  {
    if i == 0 then t.access.None? && t.refresh.Some? else RefreshOnly(trace[i - 1])
  }

  /** The same at one place of a session that starts with a token at hand. */
  predicate Justified(t: Tokens, trace: seq<Event>, i: nat)
    requires i < |trace|
  {
    IsPrivate(trace[i]) ==>
      if i == 0 then t.access == Some(trace[i].frame.token)
      else
        && i >= 2 && Grants(trace[i - 1], trace[i].frame.token)
        && trace[i - 2].Sent?
        && (if OnlyRefreshBefore(t, trace, i - 2) then trace[i - 2].frame.EmptyFrame? else trace[i - 2].frame.AuthFrame?)
  }

  predicate FollowsGrantAfter(t: Tokens, trace: seq<Event>) {
    forall i: nat :: i < |trace| ==> Justified(t, trace, i)
  }

  lemma RoundThenRest(t: Tokens, sent: Event, received: Event, u: Tokens, rest: seq<Event>)
    requires sent.Sent? && (IsPrivate(sent) ==> t.access == Some(sent.frame.token))
    requires received.Received? && (u.access.Some? ==> Grants(received, u.access.value))
    requires u.access.Some? ==> if t.access.None? && t.refresh.Some? then sent.frame.EmptyFrame? else sent.frame.AuthFrame?
    requires RefreshOnly(received) <==> u.access.None? && u.refresh.Some?
    requires FollowsGrantAfter(u, rest)
    ensures FollowsGrantAfter(t, [sent, received] + rest)
  {
    var all := [sent, received] + rest;
    forall i: nat | i < |all| ensures Justified(t, all, i) {
      if i >= 2 {
        assert Justified(u, rest, i - 2);
        assert all[i] == rest[i - 2];
        assert i > 2 ==> all[i - 1] == rest[i - 3];
        assert i > 3 ==> all[i - 2] == rest[i - 4];
        assert i > 4 ==> all[i - 3] == rest[i - 5];
      }
    }
  }

  lemma {:induction false} TraceFromTokens(who: Credentials, t: Tokens, script: seq<Network>)
    ensures FollowsGrantAfter(t, RunSession(who, t, script).trace)
    decreases |script|
  {
    if BuildFrame(who, t).Some? && script != [] && script[0].Answer? {
      var r := script[0].reply;
      var sent := Sent(BuildFrame(who, t).value);
      if !r.ErrorReply? && t.access.None? {
        if ReadableGrant(r) {
          var u := Tokens(AsToken(r.body.access), AsToken(r.body.refresh));
          TraceFromTokens(who, u, script[1..]);
          RoundThenRest(t, sent, Received(r), u, RunSession(who, u, script[1..]).trace);
        }
      } else if !r.Plain? {
        TraceFromTokens(who, NO_TOKENS, script[1..]);
        RoundThenRest(t, sent, Received(r), NO_TOKENS, RunSession(who, NO_TOKENS, script[1..]).trace);
      }
    }
  }

  /** Both token fields are empty again on every exit. */
  lemma {:induction false} ExitForgetsTokens(who: Credentials, t: Tokens, script: seq<Network>)
    ensures !RunSession(who, t, script).outcome.Waiting? ==> RunSession(who, t, script).tokens == NO_TOKENS
    decreases |script|
  {
    if BuildFrame(who, t).Some? && script != [] && script[0].Answer? {
      var r := script[0].reply;
      if !r.ErrorReply? && t.access.None? {
        if ReadableGrant(r) {
          ExitForgetsTokens(who, Tokens(AsToken(r.body.access), AsToken(r.body.refresh)), script[1..]);
        }
      } else if !r.Plain? {
        ExitForgetsTokens(who, NO_TOKENS, script[1..]);
      }
    }
  }

  /** A person's sessions one after the other, each on its own connection and starting from the
      tokens the one before left.  A session still waiting holds the lock, so none follows it. */
  function Life(who: Credentials, t: Tokens, scripts: seq<seq<Network>>): seq<Event>
    decreases |scripts|
  {
    if scripts == [] then []
    else
      var s := RunSession(who, t, scripts[0]);
      [Opened] + s.trace + (if s.outcome.Waiting? then [] else Life(who, s.tokens, scripts[1..]))
  }

  /** Auth trace safety: over a person's whole life and whatever the server answers, every private
      request is sent directly after a grant on the same connection, with its token, and that grant
      answered an auth request, or a {} sent on a refresh token without an access token. */
  lemma {:induction false} AuthTraceSafety(who: Credentials, scripts: seq<seq<Network>>)
    ensures PrivateFollowsGrant(Life(who, NO_TOKENS, scripts))
    decreases |scripts|
  {
    if scripts != [] {
      var s := RunSession(who, NO_TOKENS, scripts[0]);
      TraceFromTokens(who, NO_TOKENS, scripts[0]);
      ExitForgetsTokens(who, NO_TOKENS, scripts[0]);
      AuthTraceSafety(who, scripts[1..]);
      var rest := if s.outcome.Waiting? then [] else Life(who, s.tokens, scripts[1..]);
      assert s.tokens == NO_TOKENS || s.outcome.Waiting?;
      SessionThenRest(s.trace, rest);
    }
  }

  lemma SessionThenRest(session: seq<Event>, rest: seq<Event>)
    requires FollowsGrantAfter(NO_TOKENS, session) && PrivateFollowsGrant(rest)
    ensures PrivateFollowsGrant([Opened] + session + rest)
  {
    var all := [Opened] + session + rest;
    var n := 1 + |session|;
    forall i | 0 <= i < |all| && IsPrivate(all[i]) ensures 3 <= i && GrantedOnRequest(all, i) {
      if i < n {
        assert all[i] == session[i - 1] && Justified(NO_TOKENS, session, i - 1);
        assert all[i - 1] == session[i - 2] && all[i - 2] == session[i - 3];
        assert i > 3 ==> all[i - 3] == session[i - 4];
      } else {
        assert all[i] == rest[i - n];
        assert GrantedOnRequest(rest, i - n);
        assert all[i - 1] == rest[i - n - 1] && all[i - 2] == rest[i - n - 2] && all[i - 3] == rest[i - n - 3];
      }
    }
  }

  /** So when every grant brings an access token, each private request follows the answer to an auth
      request. */
  lemma PrivateAnswersAuth(who: Credentials, scripts: seq<seq<Network>>, i: nat)
    requires var trace := Life(who, NO_TOKENS, scripts);
             i < |trace| && IsPrivate(trace[i]) && forall e :: e in trace ==> !RefreshOnly(e)
    ensures var trace := Life(who, NO_TOKENS, scripts);
            i >= 2 && trace[i - 2].Sent? && trace[i - 2].frame.AuthFrame? && Grants(trace[i - 1], trace[i].frame.token)
  {
    AuthTraceSafety(who, scripts);
    var trace := Life(who, NO_TOKENS, scripts);
    assert GrantedOnRequest(trace, i) && trace[i - 3] in trace;
  }

  /** Without that the reply to {} may be taken for a grant: an input on which a private request is
      sent although the reply before it answered no auth request. */
  lemma EmptyFrameGranted(id: string, secret: string, refresh: Value, token: Value)
    requires Truthy(token)
    ensures RunSession(Credentials(id, Some(secret)), NO_TOKENS,
                       [Answer(Plain(Grant(Null, Is(refresh), true))), Answer(Plain(Grant(Is(token), Is(refresh), true)))]).trace
            == [Sent(AuthFrame(id, secret)), Received(Plain(Grant(Null, Is(refresh), true))),
                Sent(EmptyFrame), Received(Plain(Grant(Is(token), Is(refresh), true))),
                Sent(PrivateFrame(token))]
  {
    var who := Credentials(id, Some(secret));
    var first, second := Answer(Plain(Grant(Null, Is(refresh), true))), Answer(Plain(Grant(Is(token), Is(refresh), true)));
    var script := [first, second];
    assert script[1..] == [second] && [second][1..] == [];
    assert RunSession(who, Tokens(Some(token), Some(refresh)), []).trace == [Sent(PrivateFrame(token))];
    assert RunSession(who, Tokens(None, Some(refresh)), [second]).trace
        == [Sent(EmptyFrame), Received(second.reply), Sent(PrivateFrame(token))];
  }

  /** No token is used for two requests when the server never grants the same token twice. */
  lemma TokensAreUsedOnce(who: Credentials, scripts: seq<seq<Network>>, i: nat, j: nat)
    requires var trace := Life(who, NO_TOKENS, scripts);
             && i < j < |trace| && IsPrivate(trace[i]) && IsPrivate(trace[j])
             && forall a, b, token :: 0 <= a < b < |trace| && Grants(trace[a], token) ==> !Grants(trace[b], token)
    ensures var trace := Life(who, NO_TOKENS, scripts); trace[i].frame.token != trace[j].frame.token
  {
    AuthTraceSafety(who, scripts);
    var trace := Life(who, NO_TOKENS, scripts);
    assert Grants(trace[i - 1], trace[i].frame.token) && Grants(trace[j - 1], trace[j].frame.token);
  }

  /** A session that is answered ends with the reply it reports, and that reply did not answer an
      auth request. */
  lemma {:induction false} AnswerIsLastReply(who: Credentials, t: Tokens, script: seq<Network>)
    requires RunSession(who, t, script).outcome.Answered?
    ensures var s := RunSession(who, t, script); var n := |s.trace|;
            && n >= 2 && s.trace[n - 1].Received? && ReadableRow(s.trace[n - 1].reply)
            && s.outcome.row == s.trace[n - 1].reply.body.rows[0]
            && s.trace[n - 2].Sent? && !s.trace[n - 2].frame.AuthFrame?
    decreases |script|
  {
    match PlayRound(who, t, if script == [] then None else Some(script[0]))
    case Stop(_, _, _) =>
    case Again(events, kept) =>
      AnswerIsLastReply(who, kept, script[1..]);
      var rest := RunSession(who, kept, script[1..]).trace;
      var all := events + rest;
      assert all[|all| - 1] == rest[|rest| - 1] && all[|all| - 2] == rest[|rest| - 2];
  }

  // ---------------------------------------------------------------------------------------------
  // Empty frames
  // ---------------------------------------------------------------------------------------------

  /** A grant with a token that counts as false, or with a refresh token but a null access token. */
  predicate BadGrant(r: Reply) {
    ReadableGrant(r) && ((r.body.access.Is? && !Truthy(r.body.access.value)) || (r.body.access == Null && r.body.refresh.Is?))
  }

  predicate SendsEmptyFrame(trace: seq<Event>) {
    Sent(EmptyFrame) in trace
  }

  predicate BadGrantAt(trace: seq<Event>, i: nat) {
    i + 1 < |trace| && trace[i].Sent? && trace[i].frame.AuthFrame? && trace[i + 1].Received? && BadGrant(trace[i + 1].reply)
  }

  /** Two events in front shift the positions by two. */
  lemma ShiftByRound(a: Event, b: Event, rest: seq<Event>)
    requires rest != [] ==> rest[0].Sent?
    ensures SendsEmptyFrame([a, b] + rest) <==> a == Sent(EmptyFrame) || b == Sent(EmptyFrame) || SendsEmptyFrame(rest)
    ensures (exists i: nat :: BadGrantAt([a, b] + rest, i)) <==>
            BadGrantAt([a, b], 0) || exists i: nat :: BadGrantAt(rest, i)
  {
    var all := [a, b] + rest;
    if i: nat :| BadGrantAt(all, i) {
      assert i == 0 ==> BadGrantAt([a, b], 0);
      assert i >= 2 ==> all[i] == rest[i - 2] && all[i + 1] == rest[i - 1] && BadGrantAt(rest, i - 2);
    }
    if i: nat :| BadGrantAt(rest, i) {
      assert all[i + 2] == rest[i] && all[i + 3] == rest[i + 1];
      assert BadGrantAt(all, i + 2);
    }
    if BadGrantAt([a, b], 0) {
      assert BadGrantAt(all, 0);
    }
  }

  /** Every session's trace starts with a frame. */
  lemma StartsWithFrame(who: Credentials, t: Tokens, script: seq<Network>)
    ensures var trace := RunSession(who, t, script).trace;
            if who.secret.None? then trace == [] else trace != [] && trace[0] == Sent(BuildFrame(who, t).value)
  {
  }

  /** A session sends {} exactly when the server answered one of its auth requests with a grant of
      a token that counts as false, or of a refresh token without an access token. */
  lemma {:induction false} EmptyFrameIffBadGrant(who: Credentials, script: seq<Network>)
    ensures var trace := RunSession(who, NO_TOKENS, script).trace;
            SendsEmptyFrame(trace) <==> exists i: nat :: BadGrantAt(trace, i)
    decreases |script|, 0
  {
    var trace := RunSession(who, NO_TOKENS, script).trace;
    if who.secret.Some? && script != [] && script[0].Answer? {
      var r := script[0].reply;
      var auth := Sent(AuthFrame(who.clientId, who.secret.value));
      if r.ErrorReply? {
        EmptyFrameIffBadGrant(who, script[1..]);
        StartsWithFrame(who, NO_TOKENS, script[1..]);
        ShiftByRound(auth, Received(r), RunSession(who, NO_TOKENS, script[1..]).trace);
      } else if ReadableGrant(r) {
        var t := Tokens(AsToken(r.body.access), AsToken(r.body.refresh));
        var rest := RunSession(who, t, script[1..]).trace;
        StartsWithFrame(who, t, script[1..]);
        ShiftByRound(auth, Received(r), rest);
        assert BadGrantAt([auth, Received(r)], 0) <==> BadGrant(r);
        if !BadGrant(r) {
          GoodTokensSendNoEmptyFrame(who, t, script[1..]);
        }
      }
    }
  }

  lemma {:induction false} GoodTokensSendNoEmptyFrame(who: Credentials, t: Tokens, script: seq<Network>)
    requires who.secret.Some? && (t == NO_TOKENS || (t.access.Some? && Truthy(t.access.value)))
    ensures var trace := RunSession(who, t, script).trace;
            SendsEmptyFrame(trace) <==> exists i: nat :: BadGrantAt(trace, i)
    decreases |script|, 1
  {
    if t == NO_TOKENS {
      EmptyFrameIffBadGrant(who, script);
    } else if script != [] && script[0].Answer? && !script[0].reply.Plain? {
      EmptyFrameIffBadGrant(who, script[1..]);
      StartsWithFrame(who, NO_TOKENS, script[1..]);
      ShiftByRound(Sent(PrivateFrame(t.access.value)), Received(script[0].reply), RunSession(who, NO_TOKENS, script[1..]).trace);
    }
  }

  // ---------------------------------------------------------------------------------------------
  // The cached profile
  // ---------------------------------------------------------------------------------------------

  /** Storing a profile in the one record all persons share: an existing record without the
      person's key raises instead of gaining it (None). */
  function StoreProfile(record: Option<map<string, AccountRow>>, key: string, row: AccountRow): Option<map<string, AccountRow>> {
    match record
    case None => Some(map[key := row])
    case Some(m) => if key in m then Some(m[key := row]) else None
  }

  /** The record after a sequence of answered sessions (nothing expires). */
  function StoreAll(record: Option<map<string, AccountRow>>, done: seq<(string, AccountRow)>): Option<map<string, AccountRow>>
    decreases |done|
  {
    if done == [] then record
    else
      var stored := StoreProfile(record, done[0].0, done[0].1);
      StoreAll(if stored.Some? then stored else record, done[1..])
  }

  /** Only the first person to finish ever gets a profile: the record never gains a second key, and
      storing a later profile takes effect exactly for that person. */
  lemma {:induction false} OnlyFirstProfile(done: seq<(string, AccountRow)>, key: string, row: AccountRow)
    requires done != []
    ensures StoreAll(None, done).Some? && StoreAll(None, done).value.Keys == {done[0].0}
    ensures StoreProfile(StoreAll(None, done), key, row).Some? <==> key == done[0].0
  {
    KeysStay(map[done[0].0 := done[0].1], done[1..]);
  }

  /** The first person's record is the one of its latest session; the others leave it alone. */
  lemma {:induction false} LatestRowIsKept(done: seq<(string, AccountRow)>, n: nat)
    requires n < |done| && done[n].0 == done[0].0 && forall i :: n < i < |done| ==> done[i].0 != done[0].0
    ensures StoreAll(None, done) == Some(map[done[0].0 := done[n].1])
  {
    RowStays(map[done[0].0 := done[0].1], done[0].0, done[0].1, done[1..], n);
  }

  /** Of a record with one key: the last of the later sessions under that key, or the row it has. */
  lemma {:induction false} RowStays(m: map<string, AccountRow>, key: string, row: AccountRow, later: seq<(string, AccountRow)>, n: nat)
    requires m == map[key := row] && n <= |later|
    requires n > 0 ==> later[n - 1].0 == key
    requires forall i :: n <= i < |later| ==> later[i].0 != key
    ensures StoreAll(Some(m), later) == Some(map[key := if n == 0 then row else later[n - 1].1])
    decreases |later|
  {
    if later != [] {
      var kept := if later[0].0 == key then later[0].1 else row;
      assert m[key := kept] == map[key := kept];
      if n == 0 {
        RowStays(m, key, row, later[1..], 0);
      } else if n == 1 {
        RowStays(map[key := kept], key, kept, later[1..], 0);
      } else {
        RowStays(map[key := kept], key, kept, later[1..], n - 1);
      }
    }
  }

  lemma {:induction false} KeysStay(m: map<string, AccountRow>, done: seq<(string, AccountRow)>)
    ensures StoreAll(Some(m), done).Some? && StoreAll(Some(m), done).value.Keys == m.Keys
    decreases |done|
  {
    if done != [] {
      if done[0].0 in m {
        KeysStay(m[done[0].0 := done[0].1], done[1..]);
        assert m[done[0].0 := done[0].1].Keys == m.Keys;
      } else {
        KeysStay(m, done[1..]);
      }
    }
  }
}
