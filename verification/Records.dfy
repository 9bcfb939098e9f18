/**
  The connection records of the cache server, shared by everything that writes, rewrites, reads or
  broadcasts them: their keys, what they hold, and which keys the pattern of a person finds.
*/
module Records {
  import opened Prelude

  /** Something prepared for one person. */
  datatype Message<+B> = Message(owner: string, body: B)

  /** A connection's record: the key it is stored under, and its "message" once there is one. */
  datatype Envelope<+M> = Envelope(mappedKey: string, message: Option<M>)

  const PREFIX := "sse_connection:"

  /** The key of a user's connection opened at a time stamp. */
  function ConnectionKey(user: string, stamp: string): string {
    PREFIX + user + ":" + stamp
  }

  /** The pattern with which the sender looks for a person's records. */
  function PersonPattern(person: string): string {
    PREFIX + person + ":" + "*"
  }

  /** What a bracket class, read after its '[' and '^', says of a character, and the pattern behind it. */
  datatype Class = Class(member: bool, rest: string)

  predicate Between(lo: char, c: char, hi: char) {
    lo <= c <= hi || hi <= c <= lo
  }

  /** Single characters, ranges and escapes, up to the first ']' or the end of the pattern. */
  function ReadClass(p: string, c: char): (r: Class)
    ensures |r.rest| <= |p|
  {
    if p == "" then Class(false, "")
    else if p[0] == '\\' && |p| > 1 then
      var more := ReadClass(p[2..], c);
      Class(p[1] == c || more.member, more.rest)
    else if p[0] == ']' then Class(false, p[1..])
    else if |p| > 2 && p[1] == '-' then
      var more := ReadClass(p[3..], c);
      Class(Between(p[0], c, p[2]) || more.member, more.rest)
    else
      var more := ReadClass(p[1..], c);
      Class(p[0] == c || more.member, more.rest)
  }

  /** The two spelled out. */
  lemma Spelled(person: string, stamp: string)
    ensures ConnectionKey(person, stamp) == "sse_connection:" + person + ":" + stamp
    ensures PersonPattern(person) == "sse_connection:" + person + ":*"
  {
    assert PersonPattern(person) == "sse_connection:" + person + (":" + "*");
  }

  /** Redis pattern matching: '*', '?', bracket classes, backslash escapes and plain characters. */
  predicate Matches(pattern: string, s: string)
    decreases |pattern| + |s|
  {
    if pattern == "" then s == ""
    else if pattern[0] == '*' then Matches(pattern[1..], s) || (s != "" && Matches(pattern, s[1..]))
    else if s == "" then false
    else if pattern[0] == '?' then Matches(pattern[1..], s[1..])
    else if pattern[0] == '[' then
      var negated := |pattern| > 1 && pattern[1] == '^';
      var brackets := ReadClass(pattern[if negated then 2 else 1..], s[0]);
      brackets.member != negated && Matches(brackets.rest, s[1..])
    else if pattern[0] == '\\' && |pattern| > 1 then pattern[1] == s[0] && Matches(pattern[2..], s[1..])
    else pattern[0] == s[0] && Matches(pattern[1..], s[1..])
  }

  /** A message may be stored at, or broadcast to, a key its owner's pattern matches. */
  predicate Fits<B>(m: Message<B>, key: string) {
    Matches(PersonPattern(m.owner), key)
  }

  /** A record belongs at a key: it names the key, and its message fits it. */
  predicate Belongs<B>(env: Envelope<Message<B>>, key: string) {
    env.mappedKey == key && (env.message.Some? ==> Fits(env.message.value, key))
  }

  // ---------------------------------------------------------------------------------------------
  // When does a pattern mean the owner
  // ---------------------------------------------------------------------------------------------

  predicate NoGlob(s: string) {
    '*' !in s && '?' !in s && '[' !in s && ']' !in s && '\\' !in s
  }

  lemma {:induction false} StarMatchesAll(s: string)
    ensures Matches("*", s)
  {
    if s != "" {
      StarMatchesAll(s[1..]);
    } else {
      assert Matches("*"[1..], "");
    }
  }

  /** A pattern of plain characters and a final star matches exactly the strings it starts. */
  lemma {:induction false} PlainPatternIsPrefix(plain: string, s: string)
    requires NoGlob(plain)
    ensures Matches(plain + "*", s) <==> plain <= s
    decreases |plain|
  {
    if plain == "" {
      assert plain + "*" == "*";
      StarMatchesAll(s);
    } else {
      assert (plain + "*")[1..] == plain[1..] + "*";
      assert plain[0] in plain;
      if s != "" {
        PlainPatternIsPrefix(plain[1..], s[1..]);
        assert plain <= s <==> plain[0] == s[0] && plain[1..] <= s[1..] by {
          assert plain == [plain[0]] + plain[1..] && s == [s[0]] + s[1..];
        }
      }
    }
  }

  /** Cancelling a common beginning. */
  lemma PrefixCancels(common: string, a: string, b: string)
    ensures common + a <= common + b <==> a <= b
  {
    var ca, cb := common + a, common + b;
    assert ca[|common|..] == a && cb[|common|..] == b;
    if a <= b {
      assert ca == cb[..|ca|];
    }
    if ca <= cb {
      assert a == cb[|common|..][..|a|];
    }
  }

  /** For ids free of pattern characters and stamps free of ':', a person's pattern matches the
      connection key of a user exactly when they are the same, or the user's id itself starts with
      the person's id and a colon. */
  lemma PatternMatchesUser(person: string, user: string, stamp: string)
    requires NoGlob(person) && ':' !in stamp
    ensures Matches(PersonPattern(person), ConnectionKey(user, stamp)) <==>
            person == user || person + ":" <= user
  {
    var head := person + ":";
    var tail := user + ":" + stamp;
    assert PersonPattern(person) == (PREFIX + head) + "*";
    assert NoGlob(PREFIX + head);
    PlainPatternIsPrefix(PREFIX + head, ConnectionKey(user, stamp));
    assert ConnectionKey(user, stamp) == PREFIX + tail;
    PrefixCancels(PREFIX, head, tail);
    if head <= tail {
      assert tail[|person|] == head[|person|] == ':';
      if |user| < |person| {
        assert false;
      } else if |person| == |user| {
        assert person == tail[..|person|] == user;
      } else {
        assert head == tail[..|head|] == user[..|head|];
      }
    }
    if person == user || head <= user {
      assert head <= tail;
    }
  }

  lemma {:induction false} PlainPrefixMatches(plain: string, rest: string, s: string)
    requires NoGlob(plain) && Matches(rest, s)
    ensures Matches(plain + rest, plain + s)
    decreases |plain|
  {
    if plain == "" {
      assert plain + rest == rest && plain + s == s;
    } else {
      assert plain[0] in plain;
      PlainPrefixMatches(plain[1..], rest, s);
      assert (plain + rest)[1..] == plain[1..] + rest && (plain + s)[1..] == plain[1..] + s;
    }
  }

  lemma {:induction false} StarSkips(rest: string, skipped: string, s: string)
    requires Matches(rest, s)
    ensures Matches("*" + rest, skipped + s)
    decreases |skipped|
  {
    assert ("*" + rest)[1..] == rest;
    if skipped == "" {
      assert skipped + s == s;
    } else {
      StarSkips(rest, skipped[1..], s);
      assert (skipped + s)[1..] == skipped[1..] + s;
    }
  }

  lemma StarColonStar(user: string, stamp: string)
    ensures Matches("*" + (":" + "*"), user + (":" + stamp))
  {
    StarMatchesAll(stamp);
    PlainPrefixMatches(":", "*", stamp);
    StarSkips(":" + "*", user, ":" + stamp);
  }

  lemma PrefixIsPlain()
    ensures NoGlob(PREFIX)
  {
  }

  /** Ids are not restricted: the pattern of a person called '*' matches every user's connections. */
  lemma StarPersonMatchesEverybody(user: string, stamp: string)
    ensures Matches(PersonPattern("*"), ConnectionKey(user, stamp))
  {
    StarColonStar(user, stamp);
    PrefixIsPlain();
    PlainPrefixMatches(PREFIX, "*" + (":" + "*"), user + (":" + stamp));
    Regrouped(PREFIX, "*", ":" + "*");
    Regrouped(PREFIX + "*", ":", "*");
    Regrouped(PREFIX, user, ":" + stamp);
    Regrouped(PREFIX + user, ":", stamp);
  }

  // ---------------------------------------------------------------------------------------------
  // What the pattern characters mean
  // ---------------------------------------------------------------------------------------------

  /** A star stands for any number of characters. */
  lemma {:induction false} StarMeans(rest: string, s: string)
    ensures Matches("*" + rest, s) <==> exists i :: 0 <= i <= |s| && Matches(rest, s[i..])
    decreases |s|
  {
    assert ("*" + rest)[1..] == rest && s[0..] == s;
    if s != "" {
      StarMeans(rest, s[1..]);
      forall i | 0 <= i < |s| ensures s[1..][i..] == s[i + 1..] {}
      if i :| 0 <= i <= |s| && Matches(rest, s[i..]) {
        assert i > 0 ==> s[1..][i - 1..] == s[i..];
      }
    }
  }

  /** A question mark stands for one character, whichever it is. */
  lemma QuestionMeans(rest: string, c: char, s: string)
    ensures Matches("?" + rest, [c] + s) <==> Matches(rest, s)
    ensures !Matches("?" + rest, "")
  {
    assert ("?" + rest)[1..] == rest && ([c] + s)[1..] == s;
  }

  /** A backslash takes the character behind it for itself. */
  lemma EscapeMeans(x: char, rest: string, c: char, s: string)
    ensures Matches(['\\', x] + rest, [c] + s) <==> x == c && Matches(rest, s)
  {
    assert (['\\', x] + rest)[2..] == rest && ([c] + s)[1..] == s;
  }

  /** Any character without a meaning of its own stands for itself. */
  lemma PlainMeans(x: char, rest: string, c: char, s: string)
    requires NoGlob([x])
    ensures Matches([x] + rest, [c] + s) <==> x == c && Matches(rest, s)
    ensures !Matches([x] + rest, "")
  {
    assert x in [x];
    assert ([x] + rest)[1..] == rest && ([c] + s)[1..] == s;
  }

  lemma {:induction false} ClassOfChars(chars: string, rest: string, c: char)
    requires NoGlob(chars) && '-' !in chars
    ensures ReadClass(chars + "]" + rest, c) == Class(c in chars, rest)
    decreases |chars|
  {
    var p := chars + "]" + rest;
    if chars == "" {
      assert p[0] == ']' && p[1..] == rest;
    } else {
      assert chars[0] in chars && p[0] == chars[0];
      assert p[1..] == chars[1..] + "]" + rest;
      assert |chars| > 1 ==> chars[1] in chars && p[1] == chars[1];
      ClassOfChars(chars[1..], rest, c);
      assert chars == [chars[0]] + chars[1..];
    }
  }

  /** A bracket class stands for one of its characters. */
  lemma ClassMeans(chars: string, rest: string, c: char, s: string)
    requires NoGlob(chars) && '-' !in chars && '^' !in chars
    ensures Matches("[" + chars + "]" + rest, [c] + s) <==> c in chars && Matches(rest, s)
  {
    ClassOfChars(chars, rest, c);
    var p := "[" + chars + "]" + rest;
    assert ([c] + s)[1..] == s && p[0] == '[' && p[1..] == chars + "]" + rest;
    if chars != "" {
      assert chars[0] in chars && p[1] == chars[0];
    }
  }

  /** With a '^' it stands for any other. */
  lemma NegatedClassMeans(chars: string, rest: string, c: char, s: string)
    requires NoGlob(chars) && '-' !in chars
    ensures Matches("[^" + chars + "]" + rest, [c] + s) <==> c !in chars && Matches(rest, s)
  {
    ClassOfChars(chars, rest, c);
    var p := "[^" + chars + "]" + rest;
    assert ([c] + s)[1..] == s && p[0] == '[' && p[1] == '^' && p[2..] == chars + "]" + rest;
  }

  /** In brackets, too, a backslash takes the character behind it for itself. */
  lemma EscapeInClassMeans(x: char, rest: string, c: char, s: string)
    ensures Matches(['[', '\\', x, ']'] + rest, [c] + s) <==> x == c && Matches(rest, s)
  {
    var p := ['[', '\\', x, ']'] + rest;
    var inner := ['\\', x, ']'] + rest;
    assert p[1..] == inner && ([c] + s)[1..] == s;
    assert inner[2..] == [']'] + rest && ([']'] + rest)[1..] == rest;
    assert ReadClass(inner[2..], c) == Class(false, rest);
  }

  /** A range in brackets stands for one character between its ends. */
  lemma RangeMeans(lo: char, hi: char, rest: string, c: char, s: string)
    requires NoGlob([lo]) && lo != '^'
    ensures Matches("[" + [lo, '-', hi] + "]" + rest, [c] + s) <==> (lo <= c <= hi || hi <= c <= lo) && Matches(rest, s)
  {
    assert lo in [lo];
    var p := "[" + [lo, '-', hi] + "]" + rest;
    var inner := [lo, '-', hi] + "]" + rest;
    assert ([c] + s)[1..] == s && p[1..] == inner && inner[3..] == "]" + rest;
    assert ("]" + rest)[1..] == rest;
    assert ReadClass(inner[3..], c) == Class(false, rest);
  }
}
