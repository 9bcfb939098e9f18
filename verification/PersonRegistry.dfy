/**
  Registration of connecting users: create_person_manual (cryptomarket/project/functions.py) with
  PersonManager.add (cryptomarket/deribit_client/deribit_person.py).

  A first connect writes the new person twice, and every write to a full registry drops the oldest
  entry, so the registry never really uses its last place.
*/
module PersonRegistry {
  import opened Prelude
  import opened BoundedDictionary

  datatype Profile = Profile(
    personId: string, clientId: string, keyOfQueue: Option<string>, secret: Option<string>, active: bool)

  /** One call of create_person_manual; secret is None when the header is missing or encryption fails. */
  datatype Connection = Connection(userId: string, keyOfQueue: string, clientId: string, secret: Option<string>)

  /** A new person without a usable secret: the call raises half-way. */
  predicate Raises(reg: Dict<Profile>, c: Connection) {
    c.userId !in reg.data && c.secret.None?
  }

  /** Changing the fields of the person stored under a key. */
  function Edit(reg: Dict<Profile>, key: string, p: Profile): Dict<Profile>
    requires key in reg.data
  {
    reg.(data := reg.data[key := p])
  }

  function Connect(reg: Dict<Profile>, maxsize: nat, c: Connection): Dict<Profile>
    requires 0 < maxsize
  {
    var id := c.userId;
    if id !in reg.data then
      var added := Write(reg, maxsize, id, Profile(id, c.clientId, None, None, true));
      var named := added.data[id].(keyOfQueue := Some(c.keyOfQueue));
      if c.secret.None? then Edit(added, id, named)
      else
        var complete := named.(secret := c.secret, active := true);
        Write(Edit(added, id, complete), maxsize, id, complete)
    else
      var back := reg.data[id].(active := true);
      Write(Edit(reg, id, back), maxsize, id, back)
  }

  function ConnectAll(maxsize: nat, cs: seq<Connection>): Dict<Profile>
    requires 0 < maxsize
  {
    if cs == [] then EmptyDict() else Connect(ConnectAll(maxsize, Front(cs)), maxsize, Last(cs))
  }

  ghost predicate Registered(reg: Dict<Profile>, maxsize: nat) {
    WellFormed(reg) && |reg.keys| <= maxsize && forall k :: k in reg.data ==> reg.data[k].personId == k
  }

  /** The entries of other users are at most dropped. */
  ghost predicate OthersKept(reg: Dict<Profile>, after: Dict<Profile>, id: string) {
    forall k :: k in after.data && k != id ==> k in reg.data && after.data[k] == reg.data[k]
  }

  /** Writing a person whose object may already be in the registry. */
  lemma PutSpec(reg: Dict<Profile>, maxsize: nat, id: string, p: Profile)
    requires 0 < maxsize && Registered(reg, maxsize) && p.personId == id
    ensures Registered(Write(reg, maxsize, id, p), maxsize)
    ensures id in Write(reg, maxsize, id, p).data && Write(reg, maxsize, id, p).data[id] == p
    ensures OthersKept(reg, Write(reg, maxsize, id, p), id)
  {
    WriteSpec(reg, maxsize, id, p);
  }

  /** A reconnect keeps the person and its credentials, and only makes it active. */
  lemma ReconnectSpec(reg: Dict<Profile>, maxsize: nat, c: Connection)
    requires 0 < maxsize && Registered(reg, maxsize) && c.userId in reg.data
    ensures var after := Connect(reg, maxsize, c);
            && Registered(after, maxsize) && OthersKept(reg, after, c.userId)
            && c.userId in after.data && after.data[c.userId] == reg.data[c.userId].(active := true)
  {
    var back := reg.data[c.userId].(active := true);
    PutSpec(Edit(reg, c.userId, back), maxsize, c.userId, back);
  }

  /** A first connect registers exactly what was sent, active, without a secret when none came. */
  lemma FirstConnectSpec(reg: Dict<Profile>, maxsize: nat, c: Connection)
    requires 0 < maxsize && Registered(reg, maxsize) && c.userId !in reg.data
    ensures var after := Connect(reg, maxsize, c);
            && Registered(after, maxsize) && OthersKept(reg, after, c.userId)
            && c.userId in after.data
            && after.data[c.userId] == Profile(c.userId, c.clientId, Some(c.keyOfQueue), c.secret, true)
  {
    var id := c.userId;
    var blank := Profile(id, c.clientId, None, None, true);
    PutSpec(reg, maxsize, id, blank);
    var added := Write(reg, maxsize, id, blank);
    if c.secret.Some? {
      var complete := blank.(keyOfQueue := Some(c.keyOfQueue), secret := c.secret);
      PutSpec(Edit(added, id, complete), maxsize, id, complete);
    }
  }

  /** Registration invariant: over any run of connects and reconnects the size stays within the cap,
      every key is the id of its person, and the last to connect is present and active. */
  lemma {:induction false} RegistrationInvariant(maxsize: nat, cs: seq<Connection>)
    requires 0 < maxsize
    ensures var reg := ConnectAll(maxsize, cs);
            && Registered(reg, maxsize)
            && (cs != [] ==> Last(cs).userId in reg.data && reg.data[Last(cs).userId].active)
  {
    if cs != [] {
      RegistrationInvariant(maxsize, Front(cs));
      var reg := ConnectAll(maxsize, Front(cs));
      if Last(cs).userId in reg.data {
        ReconnectSpec(reg, maxsize, Last(cs));
      } else {
        FirstConnectSpec(reg, maxsize, Last(cs));
      }
    }
  }

  // ---------------------------------------------------------------------------------------------
  // The registry as a first-in first-out cache
  // ---------------------------------------------------------------------------------------------

  /** The users a cache of `cap` places holds: unknown users enter at the end, the oldest leaves. */
  function Cache(cap: nat, users: seq<string>): seq<string> {
    if users == [] then []
    else
      var held := Cache(cap, Front(users));
      if Last(users) in held then held else Window(held + [Last(users)], cap)
  }

  function Users(cs: seq<Connection>): (users: seq<string>)
    ensures |users| == |cs| && forall i :: 0 <= i < |users| ==> users[i] == cs[i].userId
  {
    seq(|cs|, i requires 0 <= i < |cs| => cs[i].userId)
  }

  function Places(maxsize: nat): nat
    requires 0 < maxsize
  {
    if maxsize == 1 then 1 else maxsize - 1
  }

  /** The users in the registry after one connect.  A first connect with a secret leaves a cache one
      place smaller than the cap, one without a secret uses the last place; a reconnect to a full
      registry costs the oldest user its place, or sends it to the end if it is the one. */
  function UsersAfter(users: seq<string>, maxsize: nat, c: Connection): seq<string>
    requires 0 < maxsize
  {
    if c.userId !in users then Window(users + [c.userId], if c.secret.Some? then Places(maxsize) else maxsize)
    else if |users| < maxsize then users
    else users[1..] + if users[0] == c.userId then [c.userId] else []
  }

  function UsersAfterAll(maxsize: nat, cs: seq<Connection>): seq<string>
    requires 0 < maxsize
  {
    if cs == [] then [] else UsersAfter(UsersAfterAll(maxsize, Front(cs)), maxsize, Last(cs))
  }

  lemma ReconnectMovesUsers(reg: Dict<Profile>, maxsize: nat, c: Connection)
    requires 0 < maxsize && Registered(reg, maxsize) && c.userId in reg.data
    ensures Connect(reg, maxsize, c).keys == UsersAfter(reg.keys, maxsize, c)
  {
    var back := reg.data[c.userId].(active := true);
    WriteSpec(Edit(reg, c.userId, back), maxsize, c.userId, back);
    assert forall i :: 0 < i < |reg.keys| ==> reg.keys[i] != reg.keys[0];
  }

  lemma WritesOfFirstConnect(keys: seq<string>, maxsize: nat, key: string)
    requires 0 < maxsize && |keys| <= maxsize && key !in keys
    ensures NextKeys(keys, maxsize, key) == Window(keys + [key], maxsize)
    ensures NextKeys(NextKeys(keys, maxsize, key), maxsize, key) == Window(keys + [key], Places(maxsize))
  {
    var once := NextKeys(keys, maxsize, key);
    if |keys| == maxsize {
      assert once == keys[1..] + [key];
      assert maxsize > 1 ==> once[1..] == keys[2..] + [key];
    } else {
      assert once == keys + [key];
      assert |once| == maxsize > 1 ==> once[1..] == keys[1..] + [key];
    }
  }

  lemma FirstConnectMovesUsers(reg: Dict<Profile>, maxsize: nat, c: Connection)
    requires 0 < maxsize && Registered(reg, maxsize) && c.userId !in reg.data
    ensures Connect(reg, maxsize, c).keys == UsersAfter(reg.keys, maxsize, c)
  {
    var id := c.userId;
    var blank := Profile(id, c.clientId, None, None, true);
    WriteSpec(reg, maxsize, id, blank);
    WritesOfFirstConnect(reg.keys, maxsize, id);
    if c.secret.Some? {
      var added := Write(reg, maxsize, id, blank);
      var complete := blank.(keyOfQueue := Some(c.keyOfQueue), secret := c.secret);
      WriteSpec(Edit(added, id, complete), maxsize, id, complete);
    }
  }

  lemma {:induction false} RegisteredUsers(maxsize: nat, cs: seq<Connection>)
    requires 0 < maxsize
    ensures ConnectAll(maxsize, cs).keys == UsersAfterAll(maxsize, cs)
    ensures |UsersAfterAll(maxsize, cs)| <= maxsize
  {
    if cs != [] {
      var past, c := Front(cs), Last(cs);
      RegisteredUsers(maxsize, past);
      RegistrationInvariant(maxsize, past);
      RegistrationInvariant(maxsize, cs);
      var reg := ConnectAll(maxsize, past);
      if c.userId in reg.data {
        ReconnectMovesUsers(reg, maxsize, c);
      } else {
        FirstConnectMovesUsers(reg, maxsize, c);
      }
    }
  }

  lemma SecretCostsAPlace(users: seq<string>, maxsize: nat, c: Connection)
    requires 0 < maxsize && |users| <= Places(maxsize) && c.secret.Some?
    ensures UsersAfter(users, maxsize, c) ==
            if c.userId in users then users else Window(users + [c.userId], Places(maxsize))
  {
    assert |users| == 1 && c.userId in users ==> users[1..] + [c.userId] == users;
  }

  lemma {:induction false} UsersAreASmallerCache(maxsize: nat, cs: seq<Connection>)
    requires 0 < maxsize
    ensures (forall c :: c in cs ==> c.secret.Some?) ==>
              UsersAfterAll(maxsize, cs) == Cache(Places(maxsize), Users(cs)) && |UsersAfterAll(maxsize, cs)| <= Places(maxsize)
  {
    if cs != [] && forall c :: c in cs ==> c.secret.Some? {
      var past, c := Front(cs), Last(cs);
      forall d | d in past ensures d in cs {}
      assert c in cs;
      UsersAreASmallerCache(maxsize, past);
      SecretCostsAPlace(UsersAfterAll(maxsize, past), maxsize, c);
      assert Users(past) == Front(Users(cs)) && Last(Users(cs)) == c.userId;
    }
  }

  /** Over every run of connects, with and without secrets, the registry holds exactly these users in
      this order.  As long as every connect brings its secret that is a first-in first-out cache with
      one place fewer than the cap (one place when the cap is one): the second write of a first connect
      costs the oldest user its place before the cap is exceeded. */
  lemma RegistryIsASmallerCache(maxsize: nat, cs: seq<Connection>)
    requires 0 < maxsize
    ensures var users := ConnectAll(maxsize, cs).keys;
            && users == UsersAfterAll(maxsize, cs) && |users| <= maxsize
            && ((forall c :: c in cs ==> c.secret.Some?) ==>
                  users == Cache(Places(maxsize), Users(cs)) && |users| <= Places(maxsize))
  {
    RegisteredUsers(maxsize, cs);
    UsersAreASmallerCache(maxsize, cs);
  }

  /** A new user without a secret finds at most one place left. */
  predicate TakesLastPlace(users: seq<string>, maxsize: nat, c: Connection) {
    c.userId !in users && c.secret.None? && |users| + 1 >= maxsize
  }

  predicate OldestReturns(users: seq<string>, c: Connection) {
    users != [] && users[0] == c.userId
  }

  lemma FullAfterConnect(users: seq<string>, maxsize: nat, c: Connection)
    requires 1 < maxsize && |users| <= maxsize
    ensures |UsersAfter(users, maxsize, c)| == maxsize <==>
            TakesLastPlace(users, maxsize, c) || (|users| == maxsize && OldestReturns(users, c))
  {
  }

  /** The i-th connect took the last place, and from then on only the oldest user came back, or others
      took the last place in turn. */
  predicate FullSince(maxsize: nat, cs: seq<Connection>, i: nat)
    requires 0 < maxsize
  {
    && i < |cs| && TakesLastPlace(UsersAfterAll(maxsize, cs[..i]), maxsize, cs[i])
    && forall j :: i < j < |cs| ==>
         TakesLastPlace(UsersAfterAll(maxsize, cs[..j]), maxsize, cs[j]) || OldestReturns(UsersAfterAll(maxsize, cs[..j]), cs[j])
  }

  lemma FullSinceFront(maxsize: nat, cs: seq<Connection>, i: nat)
    requires 0 < maxsize && cs != []
    ensures i + 1 < |cs| ==>
              (FullSince(maxsize, cs, i) <==>
               && FullSince(maxsize, Front(cs), i)
               && (var users := UsersAfterAll(maxsize, Front(cs));
                   TakesLastPlace(users, maxsize, Last(cs)) || OldestReturns(users, Last(cs))))
  {
    assert forall j :: 0 <= j < |cs| - 1 ==> Front(cs)[..j] == cs[..j] && Front(cs)[j] == cs[j];
  }

  /** Over every run of connects to a registry of more than one place, exactly when all its places are
      taken.  In particular never while every connect brings its secret. */
  lemma {:induction false} FullIff(maxsize: nat, cs: seq<Connection>)
    requires 1 < maxsize
    ensures |ConnectAll(maxsize, cs).keys| == maxsize <==> exists i: nat :: FullSince(maxsize, cs, i)
  {
    RegisteredUsers(maxsize, cs);
    if cs != [] {
      var past, last := Front(cs), |cs| - 1;
      var users := UsersAfterAll(maxsize, past);
      FullIff(maxsize, past);
      RegisteredUsers(maxsize, past);
      FullAfterConnect(users, maxsize, Last(cs));
      assert cs[..last] == past;
      assert TakesLastPlace(users, maxsize, Last(cs)) <==> FullSince(maxsize, cs, last);
      if i: nat :| FullSince(maxsize, cs, i) {
        FullSinceFront(maxsize, cs, i);
      }
      if i: nat :| FullSince(maxsize, past, i) {
        FullSinceFront(maxsize, cs, i);
      }
    }
  }

  // ---------------------------------------------------------------------------------------------
  // The objects
  // ---------------------------------------------------------------------------------------------

  class Person {
    const personId: string
    const clientId: string
    var keyOfQueue: Option<string>
    var secret: Option<string>
    var active: bool

    function Snapshot(): Profile
      reads this
    {
      Profile(personId, clientId, keyOfQueue, secret, active)
    }

    constructor (personId: string, clientId: string)
      ensures Snapshot() == Profile(personId, clientId, None, None, true)
    {
      this.personId, this.clientId := personId, clientId;
      keyOfQueue, secret, active := None, None, true;
    }
  }

  class PersonManager {
    const maxsize: nat
    const personDict: FifoDictionary<Person>

    ghost function Persons(): set<Person>
      reads personDict
    {
      set k | k in personDict.data :: personDict.data[k]
    }

    ghost predicate Valid()
      reads this, personDict
    {
      && 0 < maxsize && personDict.maxsize == Some(maxsize)
      && WellFormed(personDict.View())
      && forall k :: k in personDict.data ==> personDict.data[k].personId == k
    }

    ghost function View(): Dict<Profile>
      reads this, personDict, Persons()
    {
      Dict(personDict.keys, map k | k in personDict.data :: personDict.data[k].Snapshot())
    }

    constructor (maxsize: nat)
      requires 0 < maxsize
      ensures Valid() && fresh(personDict) && this.maxsize == maxsize
      ensures View() == EmptyDict()
    {
      this.maxsize := maxsize;
      personDict := new FifoDictionary(Some(maxsize));
    }

    /** person_dict[id] = p, for a person of that id. */
    method Put(p: Person)
      requires Valid()
      requires p.personId in personDict.data ==> personDict.data[p.personId] == p
      modifies personDict
      ensures Valid() && p.personId in personDict.data && personDict.data[p.personId] == p
      ensures View() == Write(old(View()), maxsize, p.personId, p.Snapshot())
      ensures Persons() <= old(Persons()) + {p}
    {
      ghost var refs, values := personDict.View(), View();
      WriteParallel(refs, values, maxsize, p.personId, p, p.Snapshot());
      var _ := personDict.SetItem(Some(p.personId), Some(p));
      assert personDict.View() == Write(refs, maxsize, p.personId, p);
      ghost var after := Write(values, maxsize, p.personId, p.Snapshot());
      assert View().keys == after.keys && View().data.Keys == after.data.Keys;
      forall k | k in after.data ensures View().data[k] == after.data[k] {
        if k != p.personId {
          assert personDict.data[k] == refs.data[k];
        }
      }
    }

    /** Setting the fields of a registered person changes its entry and no other. */
    method SetFields(p: Person, keyOfQueue: Option<string>, secret: Option<string>)
      requires Valid() && p.personId in personDict.data && personDict.data[p.personId] == p
      modifies p
      ensures p.Snapshot() == Profile(p.personId, p.clientId, keyOfQueue, secret, true)
      ensures View() == Edit(old(View()), p.personId, p.Snapshot())
    {
      p.keyOfQueue, p.secret, p.active := keyOfQueue, secret, true;
      assert View().data == Edit(old(View()), p.personId, p.Snapshot()).data;
    }

    method Reconnect(c: Connection)
      requires Valid() && c.userId in personDict.data
      modifies personDict, personDict.data[c.userId]
      ensures Valid()
      ensures View() == Connect(old(View()), maxsize, c)
      ensures c.userId in personDict.data && personDict.data[c.userId] == old(personDict.data[c.userId])
    {
      var p := personDict.data[c.userId];
      SetFields(p, p.keyOfQueue, p.secret);
      Put(p);
    }

    method FirstConnect(c: Connection) returns (raised: bool)
      requires Valid() && c.userId !in personDict.data
      modifies personDict
      ensures Valid()
      ensures raised <==> c.secret.None?
      ensures View() == Connect(old(View()), maxsize, c)
    {
      var p := new Person(c.userId, c.clientId);
      Put(p);
      if c.secret.None? {
        SetFields(p, Some(c.keyOfQueue), None);
        return true;
      }
      SetFields(p, Some(c.keyOfQueue), c.secret);
      Put(p);
      raised := false;
    }

    /** create_person_manual.  The person a user has keeps being the same object. */
    method CreatePersonManual(c: Connection) returns (raised: bool)
      requires Valid()
      modifies personDict, Persons()
      ensures Valid()
      ensures raised <==> Raises(old(View()), c)
      ensures raised <==> c.userId !in old(personDict.data) && c.secret.None?
      ensures View() == Connect(old(View()), maxsize, c)
      ensures c.userId in old(personDict.data) ==>
                c.userId in personDict.data && personDict.data[c.userId] == old(personDict.data[c.userId])
    {
      if c.userId in personDict.data {
        Reconnect(c);
        raised := false;
      } else {
        raised := FirstConnect(c);
      }
    }
  }
}
