/** What earns a validation: the answer that the server's last registration asked for.  And what a
    request finds: its server, its id and what it asks to happen. */
module QrChallenge {
  import opened Bits
  import opened Decimals
  import opened QrRegistry

  /** What the task at position n did. */
  function MarksAt(games: map<Text, Text>, tasks: seq<Task>, n: nat): seq<Mark>
    requires n < |tasks|
  {
    Perform(games, Run(games, tasks[..n]).0, tasks[n]).marks
  }

  /** Task m registered the server k, and no later task did. */
  predicate LastRegistration(games: map<Text, Text>, tasks: seq<Task>, k: Key, m: nat) {
    && m < |tasks| && Registered(k) in MarksAt(games, tasks, m)
    && forall l :: m < l < |tasks| ==> Registered(k) !in MarksAt(games, tasks, l)
  }

  // ---- what a task does to the stored challenge ----

  lemma RegistrationChallenge(st: Store, r: Request, gamename: Text, k: Key)
    ensures var o := Registration(st, r, gamename);
            Hash(o.store, k).challenge == if Registered(k) in o.marks then Some(r.answer) else Hash(st, k).challenge
  {
    var key := RegistrationTouches(st, r, gamename);
    hide WithId, Mapped, WithDeleted;
  }

  lemma HeartbeatChallenge(games: map<Text, Text>, st: Store, r: Request, k: Key)
    ensures var o := Heartbeat(games, st, r);
            && Validated(k) !in o.marks
            && Hash(o.store, k).challenge == if Registered(k) in o.marks then Some(r.answer) else Hash(st, k).challenge
  {
    HeartbeatCases(games, st, r);
    hide Heartbeat, Registration, IsDeleted, KeyOf, WithDeleted, CountedStore, OnlyTouches;
    if r.gamename.Some? {
      var key := RegistrationTouches(st, r, r.gamename.value);
      RegistrationChallenge(st, r, r.gamename.value, k);
    }
    if KeyOf(st, r).Some? {
      var key := KeyOf(st, r).value;
      DeletedChallenge(st, key, true, true, k);
      CountedStoreTouches(st, key, r);
      OthersKept(st, CountedStore(st, key, r), key, k);
    }
  }

  lemma OthersKept(st: Store, st2: Store, key: Key, k: Key)
    requires OnlyTouches(st, st2, key) && Hash(st2, key).challenge == Hash(st, key).challenge
    ensures Hash(st2, k).challenge == Hash(st, k).challenge
  {
  }

  lemma DeletedChallenge(st: Store, key: Key, deleted: bool, reset: bool, k: Key)
    ensures Hash(WithDeleted(st, key, deleted, reset), k).challenge == Hash(st, k).challenge
  {
  }

  lemma ValidationChallenge(st: Store, r: Request, k: Key)
    ensures var o := Validation(st, r);
            && Registered(k) !in o.marks
            && Hash(o.store, k).challenge == Hash(st, k).challenge
  {
    hide KeyOf, Expected, IsDeleted;
    if KeyOf(st, r).Some? {
      DeletedChallenge(st, KeyOf(st, r).value, false, r.version != 1, k);
    }
  }

  lemma TaskChallenge(games: map<Text, Text>, st: Store, t: Task, k: Key)
    ensures var o := Perform(games, st, t);
            && (Registered(k) in o.marks ==> t.Beat?)
            && Hash(o.store, k).challenge ==
               if Registered(k) in o.marks then Some(t.request.answer) else Hash(st, k).challenge
  {
    hide Hash, Heartbeat, Validation;
    match t
    case Beat(r) => HeartbeatChallenge(games, st, r, k);
    case Validate(r) => ValidationChallenge(st, r, k);
  }

  lemma FrontMarks(games: map<Text, Text>, tasks: seq<Task>, n: nat)
    requires n < |tasks| - 1
    ensures MarksAt(games, tasks, n) == MarksAt(games, tasks[..|tasks| - 1], n)
  {
    assert tasks[..|tasks| - 1][..n] == tasks[..n];
  }

  /** The stored challenge is the answer of the last registration. */
  lemma {:induction false} StoredAnswer(games: map<Text, Text>, tasks: seq<Task>, k: Key) returns (m: nat)
    requires Hash(Run(games, tasks).0, k).challenge.Some?
    ensures LastRegistration(games, tasks, k, m) && tasks[m].Beat?
    ensures Hash(Run(games, tasks).0, k).challenge == Some(tasks[m].request.answer)
    decreases |tasks|
  {
    var n := |tasks| - 1;
    EmptyIsSilent(games, k);
    assert tasks != [];
    var before, t := tasks[..n], tasks[n];
    var st := Run(games, before).0;
    TaskChallenge(games, st, t, k);
    assert Run(games, tasks).0 == Perform(games, st, t).store;
    assert MarksAt(games, tasks, n) == Perform(games, st, t).marks;
    hide Run, Perform, Hash, MarksAt;
    if Registered(k) in MarksAt(games, tasks, n) {
      m := n;
    } else {
      m := StoredAnswer(games, before, k);
      StaysLast(games, tasks, k, m);
    }
  }

  lemma StaysLast(games: map<Text, Text>, tasks: seq<Task>, k: Key, m: nat)
    requires tasks != [] && LastRegistration(games, tasks[..|tasks| - 1], k, m)
    requires Registered(k) !in MarksAt(games, tasks, |tasks| - 1)
    ensures LastRegistration(games, tasks, k, m)
  {
    hide Run, Perform, MarksAt;
    FrontMarks(games, tasks, m);
    forall l | m < l < |tasks| ensures Registered(k) !in MarksAt(games, tasks, l) {
      if l < |tasks| - 1 {
        FrontMarks(games, tasks, l);
      }
    }
  }

  lemma EmptyIsSilent(games: map<Text, Text>, k: Key)
    ensures Hash(Run(games, []).0, k).challenge == None
  {
  }

  // ---- every address leads to a server with a challenge ----

  ghost predicate Challenged(st: Store) {
    && (forall a :: a in st.ipInst ==> Hash(st, st.ipInst[a]).challenge.Some?)
    && (forall a :: a in st.qr1Map ==> Hash(st, st.qr1Map[a]).challenge.Some?)
  }

  lemma StaysChallenged(st: Store, st2: Store, k: Key)
    requires Challenged(st) && OnlyTouches(st, st2, k) && Hash(st2, k).challenge.Some?
    ensures Challenged(st2)
  {
  }

  lemma FoundIsChallenged(st: Store, r: Request)
    requires Challenged(st) && KeyOf(st, r).Some?
    ensures Hash(st, KeyOf(st, r).value).challenge.Some?
  {
    hide IsDeleted;
  }

  lemma HeartbeatChallenged(games: map<Text, Text>, st: Store, r: Request)
    requires Challenged(st)
    ensures Challenged(Heartbeat(games, st, r).store)
  {
    HeartbeatCases(games, st, r);
    hide Heartbeat, Registration, IsDeleted, KeyOf, WithDeleted, CountedStore, OnlyTouches, Challenged, Hash;
    if r.gamename.Some? {
      var key := RegistrationTouches(st, r, r.gamename.value);
      RegistrationChallenge(st, r, r.gamename.value, key);
      StaysChallenged(st, Registration(st, r, r.gamename.value).store, key);
    }
    if KeyOf(st, r).Some? {
      var key := KeyOf(st, r).value;
      FoundIsChallenged(st, r);
      DeletedChallenge(st, key, true, true, key);
      DeletedTouches(st, key, true, true);
      StaysChallenged(st, WithDeleted(st, key, true, true), key);
      CountedStoreTouches(st, key, r);
      StaysChallenged(st, CountedStore(st, key, r), key);
    }
  }

  lemma ValidationChallenged(st: Store, r: Request)
    requires Challenged(st)
    ensures Challenged(Validation(st, r).store)
  {
    hide KeyOf, Expected, IsDeleted, Challenged, OnlyTouches, Hash, WithDeleted, Counted;
    if KeyOf(st, r).Some? {
      var key, announce := KeyOf(st, r).value, r.version != 1;
      FoundIsChallenged(st, r);
      DeletedChallenge(st, key, false, announce, key);
      var st1 := WithDeleted(st, key, false, announce);
      DeletedTouches(st, key, false, announce);
      StaysChallenged(st, st1, key);
      CountedTouches(st1, key);
      StaysChallenged(st1, Counted(st1, key), key);
    }
  }

  lemma {:induction false} RunIsChallenged(games: map<Text, Text>, tasks: seq<Task>)
    ensures Challenged(Run(games, tasks).0)
    decreases |tasks|
  {
    if tasks != [] {
      hide Challenged, Heartbeat, Validation;
      var before, t := tasks[..|tasks| - 1], tasks[|tasks| - 1];
      RunIsChallenged(games, before);
      var st := Run(games, before).0;
      match t
      case Beat(r) => HeartbeatChallenged(games, st, r);
      case Validate(r) => ValidationChallenged(st, r);
    }
  }

  // ---- what earns a validation ----

  /** In every run, a response for a server that its address leads to validates it exactly when the
      server is not live and the response begins with what the server's last registration asked
      for, quotes stripped; a response that does not begin with it changes nothing. */
  lemma ValidatedExactly(games: map<Text, Text>, tasks: seq<Task>, r: Request, k: Key) returns (m: nat)
    requires KeyOf(Run(games, tasks).0, r) == Some(k)
    ensures LastRegistration(games, tasks, k, m) && tasks[m].Beat?
    ensures var (st, h) := Run(games, tasks);
            var answer := StripQuotes(tasks[m].request.answer);
            && (Validated(k) in Validation(st, r).marks <==> !Live(h, k) && answer <= r.response)
            && (!(answer <= r.response) ==> Validation(st, r) == Outcome(st, [], Failed(WrongResponse)))
  {
    RunTracks(games, tasks);
    RunIsChallenged(games, tasks);
    var (st, h) := Run(games, tasks);
    FoundIsChallenged(st, r);
    FoundKeyIsTracked(st, h, r);
    hide Run, KeyOf, Live, Hash, StripQuotes, Challenged, LiveTracked, KeysTracked, AllLawful;
    m := StoredAnswer(games, tasks, k);
    ExpectedIs(st, k, tasks[m].request.answer);
    ValidationCases(st, r, k);
  }

  lemma ExpectedIs(st: Store, k: Key, answer: Text)
    requires Hash(st, k).challenge == Some(answer)
    ensures Expected(st, k) == StripQuotes(answer)
  {
  }

  lemma ValidationCases(st: Store, r: Request, k: Key)
    requires KeyOf(st, r) == Some(k)
    ensures var o := Validation(st, r);
            && (Validated(k) in o.marks <==> IsDeleted(st, k, true) && Expected(st, k) <= r.response)
            && (!(Expected(st, k) <= r.response) ==> o == Outcome(st, [], Failed(WrongResponse)))
  {
    hide KeyOf, IsDeleted, Expected;
  }

  /** Wherever a run validates a server, the task is a response from an address that leads to it, and
      begins with what the last registration before it asked for. */
  lemma ValidationIsEarned(games: map<Text, Text>, tasks: seq<Task>, n: nat, k: Key) returns (m: nat)
    requires n < |tasks| && Validated(k) in MarksAt(games, tasks, n)
    ensures tasks[n].Validate? && LastRegistration(games, tasks[..n], k, m) && tasks[m].Beat?
    ensures StripQuotes(tasks[m].request.answer) <= tasks[n].request.response
  {
    var st, r := Run(games, tasks[..n]).0, tasks[n].request;
    if tasks[n].Beat? {
      HeartbeatChallenge(games, st, r, k);
    }
    hide Run, Heartbeat, Hash;
    assert tasks[n] == Validate(r);
    ValidatedKey(st, r, k);
    m := ValidatedExactly(games, tasks[..n], r, k);
  }

  lemma ValidatedKey(st: Store, r: Request, k: Key)
    requires Validated(k) in Validation(st, r).marks
    ensures KeyOf(st, r) == Some(k)
  {
    hide KeyOf, IsDeleted, Expected;
  }

  /** Quotes around a text are stripped, and nothing else is. */
  lemma QuotesStripped(s: Text)
    ensures StripQuotes([34] + s + [34]) == s
    ensures s == [] || s[0] != 34 || s[|s| - 1] != 34 ==> StripQuotes(s) == s
  {
    var q := [34] + s + [34];
    assert q[1..|q| - 1] == s;
  }

  /** A deleted server that waits for "ab" is not validated by an empty response. */
  lemma EmptyResponse(st: Store, r: Request, k: Key)
    requires KeyOf(st, r) == Some(k) && Hash(st, k).challenge == Some([97, 98]) && r.response == []
    ensures Validation(st, r) == Outcome(st, [], Failed(WrongResponse))
  {
    hide KeyOf;
  }

  // ---- what a request finds ----

  /** After a registration, requests from its address with its instance key find the server. */
  lemma RegisteredIsFound(st: Store, r: Request, gamename: Text, s: Request)
    requires s.from == r.address && s.instanceKey == r.instanceKey && (s.version == 1 ==> s.instanceKey == 0)
    ensures var o := Registration(st, r, gamename);
            exists k :: o.marks == [Registered(k)] && KeyOf(o.store, s) == Some(k)
  {
    var o := Registration(st, r, gamename);
    var k := o.marks[0].key;
    hide WithId;
    var st1 := WithId(st, r.address).0;
    assert Hash(o.store, k).challenge == Some(r.answer);
    assert (r.instanceKey, r.address) in o.store.ipInst && o.store.ipInst[(r.instanceKey, r.address)] == k;
    assert KeyOf(o.store, s) == Some(k);
  }

  /** An address that registers again keeps its id, and one that is new gets the next number. */
  lemma IdsFollowAddresses(st: Store, r: Request, gamename: Text, s: Request, other: Text)
    requires st.lastId >= 0 && s.address == r.address
    ensures var o := Registration(st, r, gamename);
            && exists id :: o.marks == [Registered(Key(gamename, id))]
                            && Registration(o.store, s, other).marks == [Registered(Key(other, id))]
                            && (r.address !in st.ipMap ==> id == st.lastId + 1 == o.store.lastId)
  {
    var o := Registration(st, r, gamename);
    var (st1, id) := WithId(st, r.address);
    var k := Key(gamename, id);
    assert id != -1;
    assert o.store.ipMap[r.address] == k && Hash(o.store, k).id == Some(id);
    assert KnownId(o.store, s.address) == id;
    assert o.marks == [Registered(k)] && Registration(o.store, s, other).marks == [Registered(Key(other, id))];
  }

  /** What a heartbeat of a live server asks for: "2" deletes it, "3" registers it anew, "1" and
      nothing count it and announce or update it. */
  lemma Asked(games: map<Text, Text>, st: Store, r: Request, k: Key)
    requires KeyOf(st, r) == Some(k) && Hash(st, k).deleted == Some(false)
    requires r.gamename.Some? && r.gamename.value in games && games[r.gamename.value] != []
    ensures var o := Heartbeat(games, st, r);
            && (r.statechanged == Some([50]) ==>
                  o.marks == [Del(k)] && Hash(o.store, k).deleted == Some(true) && Hash(o.store, k).numUpdates == 0)
            && (r.statechanged == Some([51]) ==>
                  o.reply == Challenge(r.challenge) && exists j :: o.marks == [Registered(j)])
            && (r.statechanged == Some([49]) || r.statechanged == None ==>
                  && Hash(o.store, k).numUpdates == Hash(st, k).numUpdates + 1
                  && o.marks == [if r.version == 1 && Hash(st, k).numUpdates == 0 then New(k) else Update(k)])
  {
    OneDigit(1, 0);
    OneDigit(2, 0);
    OneDigit(3, 0);
    assert Atoi([49]) == 1 && Atoi([50]) == 2 && Atoi([51]) == 3;
    hide KeyOf, Atoi, OnlyTouches;
    DeletedTouches(st, k, true, true);
    CountedStoreTouches(st, k, r);
    var key := RegistrationTouches(st, r, r.gamename.value);
    hide WithDeleted, Mapped, Registration, Hash;
    HeartbeatOf(games, st, r, k);
  }

  lemma HeartbeatOf(games: map<Text, Text>, st: Store, r: Request, k: Key)
    requires KeyOf(st, r) == Some(k) && Hash(st, k).deleted == Some(false)
    requires r.gamename.Some? && r.gamename.value in games && games[r.gamename.value] != []
    ensures var o := Heartbeat(games, st, r);
            if StateChanged(r) == 3 then o == Registration(st, r, r.gamename.value)
            else if StateChanged(r) == 2 then
              o == Outcome(WithDeleted(st, k, true, true), [Del(k)], Done)
            else o == Outcome(CountedStore(st, k, r), [CountedMark(st, k, r)], Done)
  {
    hide KeyOf, WithDeleted, Mapped, Registration, Counted, StateChanged;
  }

  /** A registration without an instance key from another port than the server's own is found again
      by version 1 requests from that port too. */
  lemma FoundFromOtherPort(st: Store, r: Request, gamename: Text, s: Request)
    requires r.instanceKey == 0 && r.address.port != r.from.port && s.version == 1
    requires s.from == r.from || s.from == r.address
    ensures var o := Registration(st, r, gamename);
            exists k :: o.marks == [Registered(k)] && KeyOf(o.store, s) == Some(k)
  {
    var o := Registration(st, r, gamename);
    var k := o.marks[0].key;
    hide WithId, Hash;
    assert s.from in o.store.qr1Map && o.store.qr1Map[s.from] == k;
    assert KeyOf(o.store, s) == Some(k);
  }
}
