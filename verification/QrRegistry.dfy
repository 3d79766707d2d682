/** Game server registration: heartbeats and validations as atomic steps over the key-value store,
    and the events they publish. */
module QrRegistry {
  import opened Bits
  import opened Decimals

  type Text = seq<byte>

  datatype Option<T> = None | Some(value: T)

  datatype Address = Address(ip: nat, port: nat)

  /** The name of a server's hash: the game name and an id. */
  datatype Key = Key(gamename: Text, id: int)

  /** The fields of a server's hash that decide the protocol; a missing counter counts as 0. */
  datatype Server = Server(deleted: Option<bool>, challenge: Option<Text>, numUpdates: nat, id: Option<int>)

  const NoServer: Server := Server(None, None, 0, None)

  /** The store: server hashes, the maps IPINSTMAP, IPMAP and QR1MAP, and the id counter. */
  datatype Store = Store(servers: map<Key, Server>, ipInst: map<(nat, Address), Key>,
                         ipMap: map<Address, Key>, qr1Map: map<Address, Key>, lastId: int)

  /** A request; the challenge sent out is random and its answer computed from the game's secret,
      and both are taken as given. */
  datatype Request = Request(version: int, instanceKey: nat, from: Address, address: Address,
                             gamename: Option<Text>, statechanged: Option<Text>,
                             challenge: Text, answer: Text, response: Text)

  /** What happens to a server: the published events, and the two silent steps between them. */
  datatype Mark = Registered(key: Key) | Validated(key: Key) | New(key: Key) | Update(key: Key) | Del(key: Key)

  datatype Reply = Done | Challenge(text: Text) | Failed(error: Failure) | Silent

  datatype Failure = NoGamename | NoSuchGame | NotRegistered | WrongResponse

  // ---- reading and writing the store ----

  function Hash(st: Store, k: Key): Server {
    if k in st.servers then st.servers[k] else NoServer
  }

  /** isServerDeleted */
  predicate IsDeleted(st: Store, k: Key, ignoreChallenge: bool) {
    Hash(st, k).deleted == Some(true) && (ignoreChallenge || Hash(st, k).challenge.None?)
  }

  /** GetServerKeyBy_InstanceKey_Address */
  function KeyByInstance(st: Store, instanceKey: nat, address: Address): Option<Key> {
    if (instanceKey, address) in st.ipInst && !IsDeleted(st, st.ipInst[(instanceKey, address)], false)
    then Some(st.ipInst[(instanceKey, address)]) else None
  }

  /** GetServerKey_FromRequest */
  function KeyOf(st: Store, r: Request): Option<Key> {
    if r.version == 1 && r.from in st.qr1Map then Some(st.qr1Map[r.from])
    else KeyByInstance(st, r.instanceKey, r.from)
  }

  /** TryFindServerID */
  function KnownId(st: Store, address: Address): int {
    if address in st.ipMap then (match Hash(st, st.ipMap[address]).id case Some(id) => id case None => -1) else -1
  }

  function SetHash(st: Store, k: Key, s: Server): Store {
    st.(servers := st.servers[k := s])
  }

  /** SetServerDeleted */
  function WithDeleted(st: Store, k: Key, deleted: bool, reset: bool): Store {
    var s := Hash(st, k).(deleted := Some(deleted));
    SetHash(st, k, if reset then s.(numUpdates := 0) else s)
  }

  /** IncrNumHeartbeats */
  function Counted(st: Store, k: Key): Store {
    SetHash(st, k, Hash(st, k).(numUpdates := Hash(st, k).numUpdates + 1))
  }

  /** The maps WriteServerData sets. */
  function Mapped(st: Store, k: Key, r: Request): Store {
    var q := if r.instanceKey != 0 then st.qr1Map
             else if r.address.port != r.from.port then st.qr1Map[r.address := k][r.from := k]
             else st.qr1Map[r.address := k];
    st.(ipMap := st.ipMap[r.address := k], qr1Map := q, ipInst := st.ipInst[(r.instanceKey, r.address) := k])
  }

  /** The fields SetServerInitialInfo sets. */
  function Initialised(st: Store, k: Key, answer: Text): Store {
    SetHash(st, k, Hash(st, k).(id := Some(k.id), challenge := Some(answer)))
  }

  function StripQuotes(s: Text): Text {
    if s == [] || s[0] != 34 || s[|s| - 1] != 34 then s
    else if |s| == 1 then [] else s[1..|s| - 1]
  }

  // ---- the steps ----

  datatype Outcome = Outcome(store: Store, marks: seq<Mark>, reply: Reply)

  /** GetNewServerKey: the known id of the address, or the next one. */
  function WithId(st: Store, address: Address): (Store, int) {
    var known := KnownId(st, address);
    if known == -1 then (st.(lastId := st.lastId + 1), st.lastId + 1) else (st, known)
  }

  function Registration(st: Store, r: Request, gamename: Text): Outcome {
    var (st1, id) := WithId(st, r.address);
    var k := Key(gamename, id);
    var st2 := WithDeleted(Mapped(st1, k, r), k, true, r.version != 1);
    Outcome(Initialised(st2, k, r.answer), [Registered(k)], Challenge(r.challenge))
  }

  /** The statechanged field, 1 when there is none. */
  function StateChanged(r: Request): int {
    match r.statechanged case Some(s) => Atoi(s) case None => 1
  }

  /** PerformHeartbeat.  The games map gives each game's secret key. */
  function Heartbeat(games: map<Text, Text>, st: Store, r: Request): Outcome {
    var key := KeyOf(st, r);
    if key.None? || StateChanged(r) == 3 || IsDeleted(st, key.value, true) then
      if r.gamename.None? then Outcome(st, [], Failed(NoGamename))
      else if r.gamename.value !in games || games[r.gamename.value] == [] then Outcome(st, [], Failed(NoSuchGame))
      else Registration(st, r, r.gamename.value)
    else if StateChanged(r) == 2 then
      Outcome(WithDeleted(st, key.value, true, true), [Del(key.value)], Done)
    else
      var st1 := Counted(st, key.value);
      var first := Hash(st1, key.value).numUpdates == 1 && r.version == 1;
      Outcome(Mapped(st1, key.value, r), [if first then New(key.value) else Update(key.value)], Done)
  }

  /** The response a server is expected to give. */
  function Expected(st: Store, k: Key): Text {
    match Hash(st, k).challenge case Some(c) => StripQuotes(c) case None => []
  }

  /** PerformValidate: the response may be longer than the expected challenge. */
  function Validation(st: Store, r: Request): Outcome {
    var key := KeyOf(st, r);
    if key.None? then Outcome(st, [], Failed(NotRegistered))
    else
      var k := key.value;
      if !(Expected(st, k) <= r.response) then Outcome(st, [], Failed(WrongResponse))
      else if IsDeleted(st, k, true) then
        var st1 := WithDeleted(st, k, false, r.version != 1);
        if r.version != 1 then Outcome(Counted(st1, k), [Validated(k), New(k)], Done)
        else Outcome(st1, [Validated(k)], Done)
      else Outcome(st, [], if r.version == 1 then Silent else Done)
  }

  // ---- what histories say about a server ----

  /** The server has been validated, and since then neither been deleted nor registered anew. */
  predicate Live(h: seq<Mark>, k: Key) {
    h != [] &&
    var m := h[|h| - 1];
    if m.key == k && (m.Registered? || m.Del?) then false
    else if m.key == k && m.Validated? then true
    else Live(h[..|h| - 1], k)
  }

  /** The server has been announced, and since then neither been deleted nor registered anew. */
  predicate Announced(h: seq<Mark>, k: Key) {
    h != [] &&
    var m := h[|h| - 1];
    if m.key == k && (m.Registered? || m.Del?) then false
    else if m == New(k) then true
    else Announced(h[..|h| - 1], k)
  }

  /** The server has been announced and not deleted since. */
  predicate NewSinceDel(h: seq<Mark>, k: Key) {
    h != [] &&
    var m := h[|h| - 1];
    if m == Del(k) then false else if m == New(k) then true else NewSinceDel(h[..|h| - 1], k)
  }

  /** Whether a mark may follow a history, whatever the versions: an event needs a live server. */
  predicate Lawful(h: seq<Mark>, m: Mark) {
    (m.New? || m.Update? || m.Del?) ==> Live(h, m.key)
  }

  /** Version 2: updates and deletions follow an announcement, and an announcement is not
      repeated. */
  predicate LawfulV2(h: seq<Mark>, m: Mark) {
    && ((m.Update? || m.Del?) ==> Announced(h, m.key))
    && (m.New? ==> !Announced(h, m.key))
  }

  /** Version 1: one announcement between deletions, before every update. */
  predicate LawfulV1(h: seq<Mark>, m: Mark) {
    && (m.New? ==> !NewSinceDel(h, m.key))
    && (m.Update? ==> NewSinceDel(h, m.key))
  }

  predicate AllLawful(h: seq<Mark>, law: (seq<Mark>, Mark) -> bool) {
    forall i :: 0 <= i < |h| ==> law(h[..i], h[i])
  }

  /** The law holds for what happens to one server. */
  predicate LawfulFor(k: Key, h: seq<Mark>, law: (seq<Mark>, Mark) -> bool) {
    forall i :: 0 <= i < |h| && h[i].key == k ==> law(h[..i], h[i])
  }

  lemma LiveSnoc(h: seq<Mark>, m: Mark, k: Key)
    ensures Live(h + [m], k) <==>
            if m.key == k && (m.Registered? || m.Del?) then false
            else if m.key == k && m.Validated? then true else Live(h, k)
  {
    assert (h + [m])[..|h + [m]| - 1] == h;
  }

  lemma AnnouncedSnoc(h: seq<Mark>, m: Mark, k: Key)
    ensures Announced(h + [m], k) <==>
            if m.key == k && (m.Registered? || m.Del?) then false else m == New(k) || Announced(h, k)
  {
    assert (h + [m])[..|h + [m]| - 1] == h;
  }

  lemma NewSinceDelSnoc(h: seq<Mark>, m: Mark, k: Key)
    ensures NewSinceDel(h + [m], k) <==> m != Del(k) && (m == New(k) || NewSinceDel(h, k))
  {
    assert (h + [m])[..|h + [m]| - 1] == h;
  }

  lemma AllLawfulSnoc(h: seq<Mark>, m: Mark, law: (seq<Mark>, Mark) -> bool)
    requires AllLawful(h, law) && law(h, m)
    ensures AllLawful(h + [m], law)
  {
    var g := h + [m];
    forall i | 0 <= i < |g| ensures law(g[..i], g[i]) {
      assert i < |h| ==> g[..i] == h[..i];
      assert i == |h| ==> g[..i] == h;
    }
  }

  lemma LawfulForSnoc(k: Key, h: seq<Mark>, m: Mark, law: (seq<Mark>, Mark) -> bool)
    ensures LawfulFor(k, h + [m], law) <==> LawfulFor(k, h, law) && (m.key == k ==> law(h, m))
  {
    var g := h + [m];
    assert g[..|h|] == h && g[|h|] == m;
    assert forall i :: 0 <= i < |h| ==> g[i] == h[i] && g[..i] == h[..i];
  }

  // ---- what the store says about the history ----

  /** The deleted field tells the live servers. */
  ghost predicate LiveTracked(st: Store, h: seq<Mark>) {
    forall k :: Hash(st, k).deleted == Some(false) <==> Live(h, k)
  }

  /** Every address leads to a server with that field. */
  ghost predicate KeysTracked(st: Store) {
    && (forall a :: a in st.ipInst ==> Hash(st, st.ipInst[a]).deleted.Some?)
    && (forall a :: a in st.qr1Map ==> Hash(st, st.qr1Map[a]).deleted.Some?)
  }

  /** A server served in version 2 is live when it is announced. */
  predicate AnnouncedTracked(st: Store, h: seq<Mark>, k: Key) {
    Hash(st, k).deleted == Some(false) <==> Announced(h, k)
  }

  /** The heartbeat counter of a server served in version 1 tells whether it has been announced
      since its deletion. */
  predicate CountTracked(st: Store, h: seq<Mark>, k: Key) {
    Hash(st, k).numUpdates >= 1 <==> NewSinceDel(h, k)
  }

  /** One store follows another by changing one server and leading addresses to it. */
  ghost predicate OnlyTouches(st: Store, st2: Store, k: Key) {
    && (forall j :: j != k ==> Hash(st2, j) == Hash(st, j))
    && (forall a :: a in st2.ipInst ==> st2.ipInst[a] == k || (a in st.ipInst && st.ipInst[a] == st2.ipInst[a]))
    && (forall a :: a in st2.qr1Map ==> st2.qr1Map[a] == k || (a in st.qr1Map && st.qr1Map[a] == st2.qr1Map[a]))
  }

  lemma KeysStayTracked(st: Store, st2: Store, k: Key)
    requires KeysTracked(st) && OnlyTouches(st, st2, k) && Hash(st2, k).deleted.Some?
    ensures KeysTracked(st2)
  {
  }

  lemma LiveStaysTracked(st: Store, h: seq<Mark>, st2: Store, m: Mark)
    requires LiveTracked(st, h) && OnlyTouches(st, st2, m.key)
    requires var d := Hash(st2, m.key).deleted;
             if m.Registered? || m.Del? then d != Some(false)
             else if m.Validated? then d == Some(false) else d == Hash(st, m.key).deleted
    ensures LiveTracked(st2, h + [m])
  {
    forall k ensures Hash(st2, k).deleted == Some(false) <==> Live(h + [m], k) {
      LiveSnoc(h, m, k);
      assert Hash(st, k).deleted == Some(false) <==> Live(h, k);
    }
  }

  lemma AnnouncedStaysTracked(st: Store, h: seq<Mark>, st2: Store, m: Mark, k: Key)
    requires AnnouncedTracked(st, h, k) && OnlyTouches(st, st2, m.key)
    requires var d := Hash(st2, k).deleted;
             m.key == k ==>
               if m.Registered? || m.Del? then d != Some(false)
               else if m.New? then d == Some(false) else d == Hash(st, k).deleted
    ensures AnnouncedTracked(st2, h + [m], k)
  {
    AnnouncedSnoc(h, m, k);
  }

  lemma CountStaysTracked(st: Store, h: seq<Mark>, st2: Store, m: Mark, k: Key)
    requires CountTracked(st, h, k) && OnlyTouches(st, st2, m.key)
    requires var n := Hash(st2, k).numUpdates;
             m.key == k ==>
               && (m.Update? ==> NewSinceDel(h, k))
               && if m.Del? then n == 0 else if m.New? || m.Update? then n >= 1 else n == Hash(st, k).numUpdates
    ensures CountTracked(st2, h + [m], k)
  {
    NewSinceDelSnoc(h, m, k);
  }

  // ---- one step ----

  datatype Task = Beat(request: Request) | Validate(request: Request)

  function Perform(games: map<Text, Text>, st: Store, t: Task): Outcome {
    match t
    case Beat(r) => Heartbeat(games, st, r)
    case Validate(r) => Validation(st, r)
  }

  /** What every run keeps: the store tracks the history, and no mark breaks the law. */
  ghost predicate Tracks(st: Store, h: seq<Mark>) {
    LiveTracked(st, h) && KeysTracked(st) && AllLawful(h, Lawful)
  }

  /** What is kept for a server that is only served in version 2, or only in version 1. */
  predicate KeptV2(st: Store, h: seq<Mark>, k: Key) {
    AnnouncedTracked(st, h, k) && LawfulFor(k, h, LawfulV2)
  }

  predicate KeptV1(st: Store, h: seq<Mark>, k: Key) {
    CountTracked(st, h, k) && LawfulFor(k, h, LawfulV1)
  }

  /** Something happens to the server k. */
  predicate About(marks: seq<Mark>, k: Key) {
    exists i :: 0 <= i < |marks| && marks[i].key == k
  }

  lemma AboutItsKey(m: Mark, k: Key)
    ensures About([m], k) <==> m.key == k
    ensures !About([], k)
  {
    assert [m][0] == m;
  }

  /** A key found for a request has the deleted field. */
  lemma FoundKeyIsTracked(st: Store, h: seq<Mark>, r: Request)
    requires LiveTracked(st, h) && KeysTracked(st) && KeyOf(st, r).Some?
    ensures var k := KeyOf(st, r).value;
            Hash(st, k).deleted.Some? && (IsDeleted(st, k, true) <==> !Live(h, k))
  {
    var k := KeyOf(st, r).value;
    assert Hash(st, k).deleted == Some(false) <==> Live(h, k);
    var d := Hash(st, k).deleted;
    assert d == if d.value then Some(true) else Some(false);
  }

  lemma SetTouches(st: Store, k: Key, s: Server)
    ensures OnlyTouches(st, SetHash(st, k, s), k) && Hash(SetHash(st, k, s), k) == s
  {
  }

  lemma MappedTouches(st: Store, k: Key, r: Request)
    ensures OnlyTouches(st, Mapped(st, k, r), k) && Hash(Mapped(st, k, r), k) == Hash(st, k)
  {
  }

  lemma IdTouches(st: Store, address: Address, k: Key)
    ensures var st2 := WithId(st, address).0; OnlyTouches(st, st2, k) && Hash(st2, k) == Hash(st, k)
  {
    hide KnownId;
  }

  lemma TouchesTransitive(a: Store, b: Store, c: Store, k: Key)
    requires OnlyTouches(a, b, k) && OnlyTouches(b, c, k)
    ensures OnlyTouches(a, c, k)
  {
  }

  lemma DeletedTouches(st: Store, k: Key, deleted: bool, reset: bool)
    ensures var st2 := WithDeleted(st, k, deleted, reset);
            && OnlyTouches(st, st2, k) && Hash(st2, k).deleted == Some(deleted)
            && Hash(st2, k).numUpdates == if reset then 0 else Hash(st, k).numUpdates
  {
    hide OnlyTouches, Hash, SetHash;
    var s := Hash(st, k).(deleted := Some(deleted));
    SetTouches(st, k, if reset then s.(numUpdates := 0) else s);
  }

  lemma CountedTouches(st: Store, k: Key)
    ensures OnlyTouches(st, Counted(st, k), k)
    ensures Hash(Counted(st, k), k) == Hash(st, k).(numUpdates := Hash(st, k).numUpdates + 1)
  {
    hide OnlyTouches, Hash, SetHash;
    SetTouches(st, k, Hash(st, k).(numUpdates := Hash(st, k).numUpdates + 1));
  }

  lemma RegistrationTouches(st: Store, r: Request, gamename: Text) returns (k: Key)
    ensures var o := Registration(st, r, gamename);
            && o.marks == [Registered(k)] && OnlyTouches(st, o.store, k)
            && Hash(o.store, k).deleted == Some(true)
            && Hash(o.store, k).numUpdates == if r.version != 1 then 0 else Hash(st, k).numUpdates
  {
    var o := Registration(st, r, gamename);
    k := o.marks[0].key;
    var st1 := WithId(st, r.address).0;
    IdTouches(st, r.address, k);
    hide OnlyTouches, Hash, SetHash, Mapped, WithDeleted, WithId;
    var st2 := Mapped(st1, k, r);
    MappedTouches(st1, k, r);
    TouchesTransitive(st, st1, st2, k);
    var st3 := WithDeleted(st2, k, true, r.version != 1);
    DeletedTouches(st2, k, true, r.version != 1);
    TouchesTransitive(st, st2, st3, k);
    SetTouches(st3, k, Hash(st3, k).(id := Some(k.id), challenge := Some(r.answer)));
    TouchesTransitive(st, st3, o.store, k);
  }

  lemma RegistrationTracks(st: Store, h: seq<Mark>, r: Request, gamename: Text)
    requires Tracks(st, h)
    ensures var o := Registration(st, r, gamename); Tracks(o.store, h + o.marks)
  {
    hide OnlyTouches, Hash, LiveTracked, KeysTracked, AllLawful, Registration;
    var k := RegistrationTouches(st, r, gamename);
    var o, m := Registration(st, r, gamename), Registered(k);
    KeysStayTracked(st, o.store, k);
    LiveStaysTracked(st, h, o.store, m);
    AllLawfulSnoc(h, m, Lawful);
  }

  lemma RegistrationKeeps(st: Store, h: seq<Mark>, r: Request, gamename: Text, k: Key)
    ensures var o := Registration(st, r, gamename);
            && (KeptV2(st, h, k) ==> KeptV2(o.store, h + o.marks, k))
            && (KeptV1(st, h, k) && (About(o.marks, k) ==> r.version == 1) ==> KeptV1(o.store, h + o.marks, k))
  {
    hide OnlyTouches, Hash, AnnouncedTracked, CountTracked, LawfulFor, Registration, About;
    var key := RegistrationTouches(st, r, gamename);
    var o, m := Registration(st, r, gamename), Registered(key);
    AboutItsKey(m, k);
    if KeptV2(st, h, k) {
      AnnouncedStaysTracked(st, h, o.store, m, k);
      LawfulForSnoc(k, h, m, LawfulV2);
    }
    if KeptV1(st, h, k) && (About(o.marks, k) ==> r.version == 1) {
      CountStaysTracked(st, h, o.store, m, k);
      LawfulForSnoc(k, h, m, LawfulV1);
    }
  }

  lemma DeletionTracks(st: Store, h: seq<Mark>, k: Key)
    requires Tracks(st, h) && Live(h, k)
    ensures Tracks(WithDeleted(st, k, true, true), h + [Del(k)])
  {
    hide OnlyTouches, Hash, LiveTracked, KeysTracked, AllLawful, WithDeleted, Live;
    var st2, m := WithDeleted(st, k, true, true), Del(k);
    DeletedTouches(st, k, true, true);
    KeysStayTracked(st, st2, k);
    LiveStaysTracked(st, h, st2, m);
    AllLawfulSnoc(h, m, Lawful);
  }

  lemma DeletionKeeps(st: Store, h: seq<Mark>, key: Key, k: Key)
    requires LiveTracked(st, h) && Live(h, key)
    ensures var st2, h2 := WithDeleted(st, key, true, true), h + [Del(key)];
            && (KeptV2(st, h, k) ==> KeptV2(st2, h2, k))
            && (KeptV1(st, h, k) ==> KeptV1(st2, h2, k))
  {
    LiveIsUndeleted(st, h, key);
    var st2, m := WithDeleted(st, key, true, true), Del(key);
    DeletedTouches(st, key, true, true);
    assert KeptV2(st, h, k) && key == k ==> Announced(h, k);
    hide OnlyTouches, Hash, LiveTracked, AnnouncedTracked, CountTracked, LawfulFor, WithDeleted, Live, Announced;
    if KeptV2(st, h, k) {
      AnnouncedStaysTracked(st, h, st2, m, k);
      LawfulForSnoc(k, h, m, LawfulV2);
    }
    if KeptV1(st, h, k) {
      CountStaysTracked(st, h, st2, m, k);
      LawfulForSnoc(k, h, m, LawfulV1);
    }
  }

  lemma LiveIsUndeleted(st: Store, h: seq<Mark>, k: Key)
    requires LiveTracked(st, h)
    ensures Live(h, k) <==> Hash(st, k).deleted == Some(false)
  {
    assert Hash(st, k).deleted == Some(false) <==> Live(h, k);
  }

  /** What a heartbeat of a known server does to the store, and the event it makes. */
  function CountedStore(st: Store, k: Key, r: Request): Store {
    Mapped(Counted(st, k), k, r)
  }

  function CountedMark(st: Store, k: Key, r: Request): Mark {
    if Hash(Counted(st, k), k).numUpdates == 1 && r.version == 1 then New(k) else Update(k)
  }

  lemma CountedStoreTouches(st: Store, k: Key, r: Request)
    ensures var st2 := CountedStore(st, k, r);
            && OnlyTouches(st, st2, k)
            && Hash(st2, k) == Hash(st, k).(numUpdates := Hash(st, k).numUpdates + 1)
    ensures CountedMark(st, k, r) == if Hash(st, k).numUpdates == 0 && r.version == 1 then New(k) else Update(k)
  {
    hide OnlyTouches, Hash, Counted, Mapped;
    CountedTouches(st, k);
    MappedTouches(Counted(st, k), k, r);
    TouchesTransitive(st, Counted(st, k), CountedStore(st, k, r), k);
  }

  lemma CountingTracks(st: Store, h: seq<Mark>, k: Key, r: Request)
    requires Tracks(st, h) && Live(h, k)
    ensures Tracks(CountedStore(st, k, r), h + [CountedMark(st, k, r)])
  {
    LiveIsUndeleted(st, h, k);
    hide OnlyTouches, Hash, LiveTracked, KeysTracked, AllLawful, CountedStore, CountedMark, Live;
    var st2, m := CountedStore(st, k, r), CountedMark(st, k, r);
    CountedStoreTouches(st, k, r);
    KeysStayTracked(st, st2, k);
    LiveStaysTracked(st, h, st2, m);
    AllLawfulSnoc(h, m, Lawful);
  }

  lemma CountingKeeps(st: Store, h: seq<Mark>, key: Key, r: Request, k: Key)
    requires LiveTracked(st, h) && Live(h, key)
    ensures var st2, h2 := CountedStore(st, key, r), h + [CountedMark(st, key, r)];
            && (KeptV2(st, h, k) && (key == k ==> r.version != 1) ==> KeptV2(st2, h2, k))
            && (KeptV1(st, h, k) && (key == k ==> r.version == 1) ==> KeptV1(st2, h2, k))
  {
    LiveIsUndeleted(st, h, key);
    var st2, m := CountedStore(st, key, r), CountedMark(st, key, r);
    assert KeptV2(st, h, k) && key == k ==> Announced(h, k);
    assert KeptV1(st, h, k) ==> (NewSinceDel(h, k) <==> Hash(st, k).numUpdates >= 1);
    CountedStoreTouches(st, key, r);
    hide OnlyTouches, Hash, LiveTracked, AnnouncedTracked, CountTracked, LawfulFor, CountedStore, CountedMark;
    hide Live, Announced, NewSinceDel;
    if KeptV2(st, h, k) && (key == k ==> r.version != 1) {
      AnnouncedStaysTracked(st, h, st2, m, k);
      LawfulForSnoc(k, h, m, LawfulV2);
    }
    if KeptV1(st, h, k) && (key == k ==> r.version == 1) {
      CountStaysTracked(st, h, st2, m, k);
      LawfulForSnoc(k, h, m, LawfulV1);
    }
  }

  lemma HeartbeatTracks(games: map<Text, Text>, st: Store, h: seq<Mark>, r: Request)
    requires Tracks(st, h)
    ensures var o := Heartbeat(games, st, r); Tracks(o.store, h + o.marks)
  {
    hide Live, Registration, WithDeleted, CountedStore, CountedMark, Heartbeat, IsDeleted, KeyOf, AllLawful;
    HeartbeatCases(games, st, r);
    assert h + [] == h;
    if r.gamename.Some? {
      RegistrationTracks(st, h, r, r.gamename.value);
    }
    if KeyOf(st, r).Some? {
      var k := KeyOf(st, r).value;
      FoundKeyIsTracked(st, h, r);
      if Live(h, k) {
        hide Tracks;
        DeletionTracks(st, h, k);
        CountingTracks(st, h, k, r);
      }
    }
  }

  /** Whatever else the store serves, a heartbeat keeps what is kept for a server of one version. */
  lemma HeartbeatKeeps(games: map<Text, Text>, st: Store, h: seq<Mark>, r: Request, k: Key)
    requires Tracks(st, h)
    ensures var o := Heartbeat(games, st, r);
            && (KeptV2(st, h, k) && (About(o.marks, k) ==> r.version != 1) ==> KeptV2(o.store, h + o.marks, k))
            && (KeptV1(st, h, k) && (About(o.marks, k) ==> r.version == 1) ==> KeptV1(o.store, h + o.marks, k))
  {
    hide Live, Registration, WithDeleted, CountedStore, CountedMark, Heartbeat, IsDeleted, KeyOf, AllLawful;
    hide KeptV1, KeptV2, About;
    HeartbeatCases(games, st, r);
    assert h + [] == h;
    if r.gamename.Some? {
      RegistrationKeeps(st, h, r, r.gamename.value, k);
    }
    if KeyOf(st, r).Some? {
      var key := KeyOf(st, r).value;
      FoundKeyIsTracked(st, h, r);
      AboutItsKey(Del(key), k);
      AboutItsKey(CountedMark(st, key, r), k);
      CountedStoreTouches(st, key, r);
      if Live(h, key) {
        hide OnlyTouches, Hash;
        DeletionKeeps(st, h, key, k);
        CountingKeeps(st, h, key, r, k);
      }
    }
  }

  lemma HeartbeatCases(games: map<Text, Text>, st: Store, r: Request)
    ensures var o, key := Heartbeat(games, st, r), KeyOf(st, r);
            if key.None? || StateChanged(r) == 3 || IsDeleted(st, key.value, true) then
              || (o.store == st && o.marks == [])
              || (r.gamename.Some? && o == Registration(st, r, r.gamename.value))
            else if StateChanged(r) == 2 then
              o.store == WithDeleted(st, key.value, true, true) && o.marks == [Del(key.value)]
            else
              o.store == CountedStore(st, key.value, r) && o.marks == [CountedMark(st, key.value, r)]
  {
    hide Registration, WithDeleted, Counted, Mapped, IsDeleted, KeyOf, StateChanged;
  }

  lemma ValidationTracks(st: Store, h: seq<Mark>, r: Request)
    requires Tracks(st, h)
    ensures var o := Validation(st, r); Tracks(o.store, h + o.marks)
  {
    assert h + [] == h;
    if KeyOf(st, r).Some? {
      FoundKeyIsTracked(st, h, r);
      var k := KeyOf(st, r).value;
      if IsDeleted(st, k, true) {
        AcceptanceTracks(st, h, k, r.version != 1);
      }
    }
  }

  /** So does a validation. */
  lemma ValidationKeeps(st: Store, h: seq<Mark>, r: Request, k: Key)
    requires Tracks(st, h)
    ensures var o := Validation(st, r);
            && (KeptV2(st, h, k) && (About(o.marks, k) ==> r.version != 1) ==> KeptV2(o.store, h + o.marks, k))
            && (KeptV1(st, h, k) && (About(o.marks, k) ==> r.version == 1) ==> KeptV1(o.store, h + o.marks, k))
  {
    hide KeptV1, KeptV2, About, AllLawful;
    assert h + [] == h;
    if KeyOf(st, r).Some? {
      FoundKeyIsTracked(st, h, r);
      var key := KeyOf(st, r).value;
      if IsDeleted(st, key, true) {
        hide Live, Hash;
        AcceptanceKeeps(st, h, key, r.version != 1, k);
      }
    }
  }

  /** What accepting a challenge does to the store, and what happens to the server. */
  function AcceptedStore(st: Store, k: Key, announce: bool): Store {
    var st1 := WithDeleted(st, k, false, announce);
    if announce then Counted(st1, k) else st1
  }

  function AcceptedMarks(k: Key, announce: bool): seq<Mark> {
    if announce then [Validated(k), New(k)] else [Validated(k)]
  }

  lemma AcceptedTouches(st: Store, k: Key, announce: bool)
    ensures var st2 := AcceptedStore(st, k, announce);
            && OnlyTouches(st, st2, k) && Hash(st2, k).deleted == Some(false)
            && (!announce ==> Hash(st2, k).numUpdates == Hash(st, k).numUpdates)
  {
    hide OnlyTouches, Hash, WithDeleted, Counted;
    var st1 := WithDeleted(st, k, false, announce);
    DeletedTouches(st, k, false, announce);
    CountedTouches(st1, k);
    TouchesTransitive(st, st1, Counted(st1, k), k);
  }

  lemma AcceptanceTracks(st: Store, h: seq<Mark>, k: Key, announce: bool)
    requires Tracks(st, h) && !Live(h, k)
    ensures Tracks(AcceptedStore(st, k, announce), h + AcceptedMarks(k, announce))
  {
    LiveSnoc(h, Validated(k), k);
    hide OnlyTouches, Hash, LiveTracked, KeysTracked, AllLawful, AcceptedStore, Live;
    var st2, m, h1 := AcceptedStore(st, k, announce), Validated(k), h + [Validated(k)];
    AcceptedTouches(st, k, announce);
    KeysStayTracked(st, st2, k);
    LiveStaysTracked(st, h, st2, m);
    AllLawfulSnoc(h, m, Lawful);
    if announce {
      SelfTouches(st2, k);
      assert h + [Validated(k), New(k)] == h1 + [New(k)];
      LiveStaysTracked(st2, h1, st2, New(k));
      AllLawfulSnoc(h1, New(k), Lawful);
    }
  }

  lemma AcceptanceKeeps(st: Store, h: seq<Mark>, key: Key, announce: bool, k: Key)
    requires LiveTracked(st, h) && !Live(h, key)
    ensures var st2, h2 := AcceptedStore(st, key, announce), h + AcceptedMarks(key, announce);
            && (KeptV2(st, h, k) && (About(AcceptedMarks(key, announce), k) ==> announce) ==> KeptV2(st2, h2, k))
            && (KeptV1(st, h, k) && (About(AcceptedMarks(key, announce), k) ==> !announce) ==> KeptV1(st2, h2, k))
  {
    LiveIsUndeleted(st, h, key);
    AcceptedTouches(st, key, announce);
    assert AcceptedMarks(key, announce)[0].key == key;
    assert key == k ==> About(AcceptedMarks(key, announce), k);
    hide Live, About, AcceptedStore;
    var st2 := AcceptedStore(st, key, announce);
    if KeptV2(st, h, k) && (key == k ==> announce) {
      AcceptanceKeepsV2(st, h, st2, key, announce, k);
    }
    if KeptV1(st, h, k) && (key == k ==> !announce) {
      AcceptanceKeepsV1(st, h, st2, key, announce, k);
    }
  }

  lemma AcceptanceKeepsV2(st: Store, h: seq<Mark>, st2: Store, key: Key, announce: bool, k: Key)
    requires KeptV2(st, h, k) && (key == k ==> announce && Hash(st, k).deleted != Some(false))
    requires OnlyTouches(st, st2, key) && Hash(st2, key).deleted == Some(false)
    ensures KeptV2(st2, h + AcceptedMarks(key, announce), k)
  {
    var m, h1 := Validated(key), h + [Validated(key)];
    assert key == k ==> !Announced(h, k);
    AnnouncedSnoc(h, m, k);
    SelfTouches(st, key);
    hide OnlyTouches, Hash, AnnouncedTracked, LawfulFor, Announced;
    LawfulForSnoc(k, h, m, LawfulV2);
    if announce {
      AnnouncedStaysTracked(st, h, st, m, k);
      assert h + [m, New(key)] == h1 + [New(key)];
      AnnouncedStaysTracked(st, h1, st2, New(key), k);
      LawfulForSnoc(k, h1, New(key), LawfulV2);
    } else {
      AnnouncedStaysTracked(st, h, st2, m, k);
    }
  }

  lemma AcceptanceKeepsV1(st: Store, h: seq<Mark>, st2: Store, key: Key, announce: bool, k: Key)
    requires KeptV1(st, h, k) && (key == k ==> !announce && Hash(st2, k).numUpdates == Hash(st, k).numUpdates)
    requires OnlyTouches(st, st2, key)
    ensures KeptV1(st2, h + AcceptedMarks(key, announce), k)
  {
    var m, h1 := Validated(key), h + [Validated(key)];
    SelfTouches(st2, key);
    hide OnlyTouches, Hash, CountTracked, LawfulFor, NewSinceDel;
    CountStaysTracked(st, h, st2, m, k);
    LawfulForSnoc(k, h, m, LawfulV1);
    if announce {
      assert h + [m, New(key)] == h1 + [New(key)];
      CountStaysTracked(st2, h1, st2, New(key), k);
      LawfulForSnoc(k, h1, New(key), LawfulV1);
    }
  }

  lemma SelfTouches(st: Store, k: Key)
    ensures OnlyTouches(st, st, k)
  {
  }

  // ---- whole runs ----

  const Empty: Store := Store(map[], map[], map[], map[], 0)

  /** The store and the history after a run of tasks, each one atomic. */
  function Run(games: map<Text, Text>, tasks: seq<Task>): (Store, seq<Mark>) {
    if tasks == [] then (Empty, [])
    else
      var (st, h) := Run(games, tasks[..|tasks| - 1]);
      var o := Perform(games, st, tasks[|tasks| - 1]);
      (o.store, h + o.marks)
  }

  lemma EmptyTracks()
    ensures Tracks(Empty, [])
  {
  }

  lemma {:induction false} RunTracks(games: map<Text, Text>, tasks: seq<Task>)
    ensures var (st, h) := Run(games, tasks); Tracks(st, h)
    decreases |tasks|
  {
    hide Tracks, Heartbeat, Validation;
    if tasks == [] {
      EmptyTracks();
    } else {
      var before, t := tasks[..|tasks| - 1], tasks[|tasks| - 1];
      RunTracks(games, before);
      var (st, h) := Run(games, before);
      match t
      case Beat(r) => HeartbeatTracks(games, st, h, r);
      case Validate(r) => ValidationTracks(st, h, r);
    }
  }

  /** Every task that does anything to the server k is of version 1, or every one is of another
      version; tasks about other servers may be of any. */
  predicate OneVersion(games: map<Text, Text>, tasks: seq<Task>, k: Key, one: bool) {
    tasks == [] ||
    var before, t := tasks[..|tasks| - 1], tasks[|tasks| - 1];
    && OneVersion(games, before, k, one)
    && (About(Perform(games, Run(games, before).0, t).marks, k) ==> (t.request.version == 1) == one)
  }

  lemma {:induction false} SameVersionThroughout(games: map<Text, Text>, tasks: seq<Task>, k: Key, one: bool)
    requires forall t :: t in tasks ==> (t.request.version == 1) == one
    ensures OneVersion(games, tasks, k, one)
    decreases |tasks|
  {
    hide About, Perform, Run;
    if tasks != [] {
      SameVersionThroughout(games, tasks[..|tasks| - 1], k, one);
      assert tasks[|tasks| - 1] in tasks;
    }
  }

  /** A server served in one version is kept in step with its history and its version's law, in
      every run, whatever the versions of the other servers on the same store. */
  lemma {:induction false} RunKeeps(games: map<Text, Text>, tasks: seq<Task>, k: Key, one: bool)
    requires OneVersion(games, tasks, k, one)
    ensures var (st, h) := Run(games, tasks); if one then KeptV1(st, h, k) else KeptV2(st, h, k)
    decreases |tasks|
  {
    if tasks != [] {
      hide Tracks, KeptV1, KeptV2, Heartbeat, Validation, About;
      var before, t := tasks[..|tasks| - 1], tasks[|tasks| - 1];
      RunKeeps(games, before, k, one);
      RunTracks(games, before);
      var (st, h) := Run(games, before);
      match t
      case Beat(r) => HeartbeatKeeps(games, st, h, r, k);
      case Validate(r) => ValidationKeeps(st, h, r, k);
    }
  }

  /** Between two positions the server is neither deleted nor registered anew. */
  predicate Unbroken(h: seq<Mark>, from: int, to: int, k: Key)
    requires -1 <= from && to <= |h|
  {
    forall n :: from < n < to ==> !(h[n].key == k && (h[n].Registered? || h[n].Del?))
  }

  predicate NotDeleted(h: seq<Mark>, from: int, to: int, k: Key)
    requires -1 <= from && to <= |h|
  {
    forall n :: from < n < to ==> h[n] != Del(k)
  }

  lemma {:induction false} LiveMeans(h: seq<Mark>, k: Key)
    ensures Live(h, k) <==> exists j :: 0 <= j < |h| && h[j] == Validated(k) && Unbroken(h, j, |h|, k)
    decreases |h|
  {
    if h != [] {
      var g, z := h[..|h| - 1], |h| - 1;
      LiveMeans(g, k);
      forall j | 0 <= j < z
        ensures Unbroken(h, j, |h|, k) <==> Unbroken(g, j, |g|, k) && !(h[z].key == k && (h[z].Registered? || h[z].Del?))
      {
      }
      if Live(g, k) {
        var j :| 0 <= j < |g| && g[j] == Validated(k) && Unbroken(g, j, |g|, k);
        assert h[j] == Validated(k);
      }
      if h[z] == Validated(k) {
        assert Unbroken(h, z, |h|, k);
      }
    }
  }

  lemma {:induction false} AnnouncedMeans(h: seq<Mark>, k: Key)
    ensures Announced(h, k) <==> exists j :: 0 <= j < |h| && h[j] == New(k) && Unbroken(h, j, |h|, k)
    decreases |h|
  {
    if h != [] {
      var g, z := h[..|h| - 1], |h| - 1;
      AnnouncedMeans(g, k);
      forall j | 0 <= j < z
        ensures Unbroken(h, j, |h|, k) <==> Unbroken(g, j, |g|, k) && !(h[z].key == k && (h[z].Registered? || h[z].Del?))
      {
      }
      if Announced(g, k) {
        var j :| 0 <= j < |g| && g[j] == New(k) && Unbroken(g, j, |g|, k);
        assert h[j] == New(k);
      }
      if h[z] == New(k) {
        assert Unbroken(h, z, |h|, k);
      }
    }
  }

  lemma {:induction false} NewSinceDelMeans(h: seq<Mark>, k: Key)
    ensures NewSinceDel(h, k) <==> exists j :: 0 <= j < |h| && h[j] == New(k) && NotDeleted(h, j, |h|, k)
    decreases |h|
  {
    if h != [] {
      var g, z := h[..|h| - 1], |h| - 1;
      NewSinceDelMeans(g, k);
      forall j | 0 <= j < z ensures NotDeleted(h, j, |h|, k) <==> NotDeleted(g, j, |g|, k) && h[z] != Del(k) {
      }
      if NewSinceDel(g, k) {
        var j :| 0 <= j < |g| && g[j] == New(k) && NotDeleted(g, j, |g|, k);
        assert h[j] == New(k);
      }
      if h[z] == New(k) {
        assert NotDeleted(h, z, |h|, k);
      }
    }
  }

  /** In every run, of whatever versions, each event is about a server that was validated before,
      and neither deleted nor registered anew in between. */
  lemma EventsNeedValidation(games: map<Text, Text>, tasks: seq<Task>, i: nat)
    requires i < |Run(games, tasks).1|
    ensures var h := Run(games, tasks).1;
            h[i].New? || h[i].Update? || h[i].Del? ==>
              exists j :: 0 <= j < i && h[j] == Validated(h[i].key) && Unbroken(h, j, i, h[i].key)
  {
    hide Run, LiveTracked, KeysTracked;
    RunTracks(games, tasks);
    var h := Run(games, tasks).1;
    assert Lawful(h[..i], h[i]);
    LiveMeans(h[..i], h[i].key);
    if Live(h[..i], h[i].key) {
      var j :| 0 <= j < i && h[..i][j] == Validated(h[i].key) && Unbroken(h[..i], j, i, h[i].key);
      assert h[j] == Validated(h[i].key);
      assert forall n :: j < n < i ==> h[n] == h[..i][n];
    }
  }

  /** A server served in version 2: each update or deletion follows an announcement of it with no
      deletion and no new registration in between, and between two announcements there is one. */
  lemma Version2Runs(games: map<Text, Text>, tasks: seq<Task>, i: nat)
    requires i < |Run(games, tasks).1| && OneVersion(games, tasks, Run(games, tasks).1[i].key, false)
    ensures var h := Run(games, tasks).1;
            h[i].Update? || h[i].Del? ==>
              exists j :: 0 <= j < i && h[j] == New(h[i].key) && Unbroken(h, j, i, h[i].key)
    ensures var h := Run(games, tasks).1;
            h[i].New? ==> forall j :: 0 <= j < i && h[j] == h[i] ==> !Unbroken(h, j, i, h[i].key)
  {
    hide Run, OneVersion, AnnouncedTracked;
    var h := Run(games, tasks).1;
    RunKeeps(games, tasks, h[i].key, false);
    var g, k := h[..i], h[i].key;
    assert LawfulV2(g, h[i]);
    AnnouncedMeans(g, k);
    forall j | 0 <= j < i ensures Unbroken(g, j, i, k) <==> Unbroken(h, j, i, k) {
    }
    if Announced(g, k) {
      var j :| 0 <= j < i && g[j] == New(k) && Unbroken(g, j, i, k);
      assert h[j] == New(k);
    } else {
      forall j | 0 <= j < i && h[j] == New(k) ensures !Unbroken(h, j, i, k) {
        assert g[j] == New(k);
      }
    }
  }

  /** A server served in version 1: between two announcements of it there is a deletion, and each
      update follows an announcement with no deletion in between. */
  lemma Version1Runs(games: map<Text, Text>, tasks: seq<Task>, i: nat)
    requires i < |Run(games, tasks).1| && OneVersion(games, tasks, Run(games, tasks).1[i].key, true)
    ensures var h := Run(games, tasks).1;
            h[i].New? ==> forall j :: 0 <= j < i && h[j] == h[i] ==> exists n :: j < n < i && h[n] == Del(h[i].key)
    ensures var h := Run(games, tasks).1;
            h[i].Update? ==> exists j :: 0 <= j < i && h[j] == New(h[i].key) && NotDeleted(h, j, i, h[i].key)
  {
    hide Run, OneVersion, CountTracked;
    var h := Run(games, tasks).1;
    RunKeeps(games, tasks, h[i].key, true);
    var g, k := h[..i], h[i].key;
    assert LawfulV1(g, h[i]);
    NewSinceDelMeans(g, k);
    forall j | 0 <= j < i ensures NotDeleted(g, j, i, k) <==> NotDeleted(h, j, i, k) {
    }
    if NewSinceDel(g, k) {
      var j :| 0 <= j < i && g[j] == New(k) && NotDeleted(g, j, i, k);
      assert h[j] == New(k);
    } else {
      forall j | 0 <= j < i && h[j] == New(k) ensures !NotDeleted(h, j, i, k) {
        assert g[j] == New(k);
      }
    }
  }

  // ---- servers served in both versions ----

  /** An update follows an announcement with no deletion in between: what both versions promise. */
  predicate UpdateLaw(h: seq<Mark>, m: Mark) {
    m.Update? ==> NewSinceDel(h, m.key)
  }

  /** The server has been announced or updated since its last deletion. */
  predicate EventSinceDel(h: seq<Mark>, k: Key) {
    h != [] &&
    var m := h[|h| - 1];
    if m == Del(k) then false else if m == New(k) || m == Update(k) then true else EventSinceDel(h[..|h| - 1], k)
  }

  /** The server has been announced or updated since its last deletion or registration. */
  predicate EventSinceReset(h: seq<Mark>, k: Key) {
    h != [] &&
    var m := h[|h| - 1];
    if m.key == k && (m.Registered? || m.Del?) then false
    else if m == New(k) || m == Update(k) then true else EventSinceReset(h[..|h| - 1], k)
  }

  lemma EventsSnoc(h: seq<Mark>, m: Mark, k: Key)
    ensures EventSinceDel(h + [m], k) <==>
            m != Del(k) && (m == New(k) || m == Update(k) || EventSinceDel(h, k))
    ensures EventSinceReset(h + [m], k) <==>
            !(m.key == k && (m.Registered? || m.Del?)) && (m == New(k) || m == Update(k) || EventSinceReset(h, k))
  {
    assert (h + [m])[..|h + [m]| - 1] == h;
  }

  /** The task is a heartbeat of the live server k, with its statechanged field not 3. */
  predicate Beats(st: Store, t: Task, k: Key) {
    && t.Beat? && StateChanged(t.request) != 3
    && KeyOf(st, t.request) == Some(k) && Hash(st, k).deleted == Some(false)
  }

  /** The task is a validation that accepts the deleted server k and announces it at once. */
  predicate AcceptsInV2(st: Store, t: Task, k: Key) {
    && t.Validate? && t.request.version != 1 && KeyOf(st, t.request) == Some(k)
    && Expected(st, k) <= t.request.response && Hash(st, k).deleted == Some(true)
  }

  /** What breaks the common law: the first heartbeat since the last deletion is not of version 1,
      and no validation has announced the server. */
  predicate BreaksUpdateLaw(st: Store, h: seq<Mark>, t: Task, k: Key) {
    Beats(st, t, k) && StateChanged(t.request) != 2 && t.request.version != 1 && !EventSinceDel(h, k)
  }

  /** What breaks the law of version 1: that, or an announcement where there has been an event, by
      a heartbeat that finds the counter at 0 or by a validation in version 2. */
  predicate BreaksV1(st: Store, h: seq<Mark>, t: Task, k: Key) {
    || (Beats(st, t, k) && StateChanged(t.request) != 2 &&
        (t.request.version == 1 && Hash(st, k).numUpdates == 0) == EventSinceDel(h, k))
    || (AcceptsInV2(st, t, k) && EventSinceDel(h, k))
  }

  /** What breaks the law of version 2: a heartbeat, with no event since the last deletion or
      registration, that deletes or is not the first to be counted in version 1. */
  predicate BreaksV2(st: Store, h: seq<Mark>, t: Task, k: Key) {
    && Beats(st, t, k) && !EventSinceReset(h, k)
    && (StateChanged(t.request) == 2 || t.request.version != 1 || Hash(st, k).numUpdates > 0)
  }

  type Fault = (Store, seq<Mark>, Task, Key) -> bool

  /** No task of the run, where it comes, is such a fault about the server k. */
  predicate Faultless(games: map<Text, Text>, tasks: seq<Task>, k: Key, fault: Fault) {
    forall n :: 0 <= n < |tasks| ==>
      !fault(Run(games, tasks[..n]).0, Run(games, tasks[..n]).1, tasks[n], k)
  }

  lemma FaultlessSnoc(games: map<Text, Text>, before: seq<Task>, t: Task, k: Key, fault: Fault)
    ensures var (st, h) := Run(games, before);
            Faultless(games, before + [t], k, fault) <==> Faultless(games, before, k, fault) && !fault(st, h, t, k)
  {
    hide Run;
    var tasks := before + [t];
    assert tasks[..|before|] == before && tasks[|before|] == t;
    assert forall n :: 0 <= n < |before| ==> tasks[n] == before[n] && tasks[..n] == before[..n];
  }

  /** While the common law holds, events since the last deletion begin with an announcement. */
  lemma {:induction false} EventsBeginWithNew(h: seq<Mark>, k: Key)
    requires LawfulFor(k, h, UpdateLaw)
    ensures EventSinceDel(h, k) <==> NewSinceDel(h, k)
    decreases |h|
  {
    if h != [] {
      var g, m := h[..|h| - 1], h[|h| - 1];
      assert h == g + [m];
      LawfulForSnoc(k, g, m, UpdateLaw);
      EventsBeginWithNew(g, k);
    }
  }

  lemma {:induction false} ResetEventsBeginWithNew(h: seq<Mark>, k: Key)
    requires LawfulFor(k, h, LawfulV2)
    ensures EventSinceReset(h, k) <==> Announced(h, k)
    decreases |h|
  {
    if h != [] {
      var g, m := h[..|h| - 1], h[|h| - 1];
      assert h == g + [m];
      LawfulForSnoc(k, g, m, LawfulV2);
      ResetEventsBeginWithNew(g, k);
    }
  }

  /** What the store says about a server of whatever versions: the counter is 0 before the first
      event, and an announced server is live and has been counted. */
  predicate Sound(st: Store, h: seq<Mark>, k: Key) {
    && (!EventSinceDel(h, k) ==> Hash(st, k).numUpdates == 0)
    && (Announced(h, k) ==> Hash(st, k).deleted == Some(false) && Hash(st, k).numUpdates >= 1)
  }

  /** One mark keeps it, given what happens to the server's fields. */
  lemma StaysSound(st: Store, h: seq<Mark>, st2: Store, m: Mark, k: Key)
    requires Sound(st, h, k) && OnlyTouches(st, st2, m.key)
    requires m.key == k ==>
               var s, s2 := Hash(st, k), Hash(st2, k);
               match m
               case Registered(_) => s2.numUpdates == 0 || s2.numUpdates == s.numUpdates
               case Validated(_) => s2 == s && s.deleted != Some(false)
               case Del(_) => s2.numUpdates == 0
               case _ => s2.deleted == Some(false) && s2.numUpdates >= 1
    ensures Sound(st2, h + [m], k)
  {
    EventsSnoc(h, m, k);
    AnnouncedSnoc(h, m, k);
    hide EventSinceDel, EventSinceReset, Announced;
  }

  lemma RegistrationSound(st: Store, h: seq<Mark>, r: Request, gamename: Text, k: Key)
    requires Sound(st, h, k)
    ensures var o := Registration(st, r, gamename); Sound(o.store, h + o.marks, k)
  {
    var key := RegistrationTouches(st, r, gamename);
    hide Hash, OnlyTouches, Sound, Registration;
    StaysSound(st, h, Registration(st, r, gamename).store, Registered(key), k);
  }

  lemma HeartbeatSound(games: map<Text, Text>, st: Store, h: seq<Mark>, r: Request, k: Key)
    requires Tracks(st, h) && Sound(st, h, k)
    ensures var o := Heartbeat(games, st, r); Sound(o.store, h + o.marks, k)
  {
    HeartbeatCases(games, st, r);
    hide Live, Registration, WithDeleted, CountedStore, CountedMark, Heartbeat, KeyOf, AllLawful, OnlyTouches, Sound;
    assert h + [] == h;
    if r.gamename.Some? {
      RegistrationSound(st, h, r, r.gamename.value, k);
    }
    if KeyOf(st, r).Some? {
      var key := KeyOf(st, r).value;
      FoundKeyIsTracked(st, h, r);
      CountedStoreTouches(st, key, r);
      DeletedTouches(st, key, true, true);
      hide Hash;
      if !IsDeleted(st, key, true) {
        StaysSound(st, h, WithDeleted(st, key, true, true), Del(key), k);
        LiveIsUndeleted(st, h, key);
        StaysSound(st, h, CountedStore(st, key, r), CountedMark(st, key, r), k);
      }
    }
  }

  lemma ValidationSound(st: Store, h: seq<Mark>, r: Request, k: Key)
    requires Tracks(st, h) && Sound(st, h, k)
    ensures var o := Validation(st, r); Sound(o.store, h + o.marks, k)
  {
    assert h + [] == h;
    if KeyOf(st, r).Some? && IsDeleted(st, KeyOf(st, r).value, true) {
      AcceptanceSound(st, h, KeyOf(st, r).value, r.version != 1, k);
    }
  }

  lemma AcceptanceSound(st: Store, h: seq<Mark>, key: Key, announce: bool, k: Key)
    requires Sound(st, h, k) && Hash(st, key).deleted == Some(true)
    ensures Sound(AcceptedStore(st, key, announce), h + AcceptedMarks(key, announce), k)
  {
    var m, st2 := Validated(key), AcceptedStore(st, key, announce);
    AcceptedTouches(st, key, announce);
    AcceptedCounts(st, key);
    EventsSnoc(h, m, k);
    AnnouncedSnoc(h, m, k);
    SelfTouches(st, key);
    hide EventSinceDel, EventSinceReset, Announced, AcceptedStore;
    if announce {
      StaysSound(st, h, st, m, k);
      assert h + [m, New(key)] == h + [m] + [New(key)];
      StaysSound(st, h + [m], st2, New(key), k);
    }
  }

  lemma AcceptedCounts(st: Store, k: Key)
    ensures Hash(AcceptedStore(st, k, true), k).numUpdates >= 1
  {
    CountedTouches(WithDeleted(st, k, false, true), k);
  }

  /** A task adds to a run exactly the breaches of the three laws its faults name. */
  ghost predicate Exact(st: Store, h: seq<Mark>, t: Task, marks: seq<Mark>, k: Key) {
    && (LawfulFor(k, h, UpdateLaw) ==> (LawfulFor(k, h + marks, UpdateLaw) <==> !BreaksUpdateLaw(st, h, t, k)))
    && (LawfulFor(k, h, LawfulV1) ==> (LawfulFor(k, h + marks, LawfulV1) <==> !BreaksV1(st, h, t, k)))
    && (LawfulFor(k, h, LawfulV2) ==> (LawfulFor(k, h + marks, LawfulV2) <==> !BreaksV2(st, h, t, k)))
  }

  lemma MarkExtends(k: Key, h: seq<Mark>, m: Mark)
    ensures LawfulFor(k, h + [m], UpdateLaw) <==> LawfulFor(k, h, UpdateLaw) && (m.key == k ==> UpdateLaw(h, m))
    ensures LawfulFor(k, h + [m], LawfulV1) <==> LawfulFor(k, h, LawfulV1) && (m.key == k ==> LawfulV1(h, m))
    ensures LawfulFor(k, h + [m], LawfulV2) <==> LawfulFor(k, h, LawfulV2) && (m.key == k ==> LawfulV2(h, m))
  {
    hide LawfulFor, UpdateLaw, LawfulV1, LawfulV2;
    LawfulForSnoc(k, h, m, UpdateLaw);
    LawfulForSnoc(k, h, m, LawfulV1);
    LawfulForSnoc(k, h, m, LawfulV2);
  }

  /** While a law holds, the events tell the announcements. */
  lemma EventsTell(h: seq<Mark>, k: Key)
    ensures LawfulFor(k, h, UpdateLaw) || LawfulFor(k, h, LawfulV1) ==> (EventSinceDel(h, k) <==> NewSinceDel(h, k))
    ensures LawfulFor(k, h, LawfulV2) ==> (EventSinceReset(h, k) <==> Announced(h, k))
  {
    hide EventSinceDel, EventSinceReset, NewSinceDel, Announced;
    if LawfulFor(k, h, UpdateLaw) || LawfulFor(k, h, LawfulV1) {
      EventsBeginWithNew(h, k);
    }
    if LawfulFor(k, h, LawfulV2) {
      ResetEventsBeginWithNew(h, k);
    }
  }

  lemma CountedExact(st: Store, h: seq<Mark>, r: Request, k: Key)
    requires Sound(st, h, k) && Beats(st, Beat(r), k) && StateChanged(r) != 2
    ensures Exact(st, h, Beat(r), [CountedMark(st, k, r)], k)
  {
    CountedStoreTouches(st, k, r);
    MarkExtends(k, h, CountedMark(st, k, r));
    EventsTell(h, k);
    hide LawfulFor, EventSinceDel, EventSinceReset, NewSinceDel, Announced, CountedMark, OnlyTouches, KeyOf;
  }

  lemma DeletedExact(st: Store, h: seq<Mark>, r: Request, k: Key)
    requires Beats(st, Beat(r), k) && StateChanged(r) == 2
    ensures Exact(st, h, Beat(r), [Del(k)], k)
  {
    MarkExtends(k, h, Del(k));
    EventsTell(h, k);
    hide LawfulFor, EventSinceDel, EventSinceReset, NewSinceDel, Announced, KeyOf;
  }

  /** What happens to another server, and a registration, break nothing. */
  lemma OtherExact(st: Store, h: seq<Mark>, t: Task, m: Mark, k: Key)
    requires m.key == k ==> m.Registered? || m.Validated?
    requires !Beats(st, t, k) && !AcceptsInV2(st, t, k)
    ensures Exact(st, h, t, [m], k) && Exact(st, h, t, [], k)
  {
    MarkExtends(k, h, m);
    assert h + [] == h;
    hide LawfulFor, Beats, AcceptsInV2;
  }

  lemma HeartbeatExact(games: map<Text, Text>, st: Store, h: seq<Mark>, r: Request, k: Key)
    requires Tracks(st, h) && Sound(st, h, k)
    ensures Exact(st, h, Beat(r), Heartbeat(games, st, r).marks, k)
  {
    HeartbeatCases(games, st, r);
    hide Exact, Heartbeat, Registration, Sound, KeyOf, StateChanged, CountedStore, CountedMark, WithDeleted, AllLawful;
    var t := Beat(r);
    if KeyOf(st, r).Some? {
      FoundKeyIsTracked(st, h, r);
    }
    if Beats(st, t, k) {
      if StateChanged(r) == 2 {
        DeletedExact(st, h, r, k);
      } else {
        CountedExact(st, h, r, k);
      }
    } else {
      OtherExact(st, h, t, Registered(k), k);
      if r.gamename.Some? {
        var key := RegistrationTouches(st, r, r.gamename.value);
        OtherExact(st, h, t, Registered(key), k);
      }
      if KeyOf(st, r).Some? && KeyOf(st, r).value != k {
        var key := KeyOf(st, r).value;
        hide OnlyTouches, Hash;
        CountedStoreTouches(st, key, r);
        OtherExact(st, h, t, Del(key), k);
        OtherExact(st, h, t, CountedMark(st, key, r), k);
      }
    }
  }

  lemma ValidationExact(st: Store, h: seq<Mark>, r: Request, k: Key)
    requires Tracks(st, h) && Sound(st, h, k)
    ensures Exact(st, h, Validate(r), Validation(st, r).marks, k)
  {
    hide Exact, KeyOf, Expected, Sound, Counted, WithDeleted, LiveTracked, AllLawful;
    var t, key := Validate(r), KeyOf(st, r);
    if AcceptsInV2(st, t, k) {
      AcceptedExact(st, h, r, k);
    } else {
      OtherExact(st, h, t, Validated(k), k);
      if key.Some? && r.version == 1 {
        OtherExact(st, h, t, Validated(key.value), k);
      } else if key.Some? && key.value != k {
        OtherTwoExact(st, h, t, Validated(key.value), New(key.value), k);
      }
    }
  }

  lemma AcceptedExact(st: Store, h: seq<Mark>, r: Request, k: Key)
    requires Sound(st, h, k) && AcceptsInV2(st, Validate(r), k)
    ensures Exact(st, h, Validate(r), [Validated(k), New(k)], k)
  {
    var m, n, g := Validated(k), New(k), h + [Validated(k)];
    MarkExtends(k, h, m);
    MarkExtends(k, g, n);
    NewSinceDelSnoc(h, m, k);
    AnnouncedSnoc(h, m, k);
    EventsTell(h, k);
    assert h + [m, n] == g + [n];
    hide LawfulFor, EventSinceDel, EventSinceReset, NewSinceDel, Announced, KeyOf, Expected;
  }

  lemma OtherTwoExact(st: Store, h: seq<Mark>, t: Task, m: Mark, n: Mark, k: Key)
    requires m.key != k && n.key != k && !Beats(st, t, k) && !AcceptsInV2(st, t, k)
    ensures Exact(st, h, t, [m, n], k)
  {
    MarkExtends(k, h, m);
    MarkExtends(k, h + [m], n);
    assert h + [m, n] == h + [m] + [n];
    hide LawfulFor, Beats, AcceptsInV2;
  }

  lemma {:induction false} RunIsSound(games: map<Text, Text>, tasks: seq<Task>, k: Key)
    ensures var (st, h) := Run(games, tasks); Sound(st, h, k)
    decreases |tasks|
  {
    if tasks != [] {
      hide Tracks, Sound, Heartbeat, Validation;
      var before, t := tasks[..|tasks| - 1], tasks[|tasks| - 1];
      RunIsSound(games, before, k);
      RunTracks(games, before);
      var (st, h) := Run(games, before);
      match t
      case Beat(r) => HeartbeatSound(games, st, h, r, k);
      case Validate(r) => ValidationSound(st, h, r, k);
    }
  }

  lemma TaskIsExact(games: map<Text, Text>, before: seq<Task>, t: Task, k: Key)
    ensures var (st, h) := Run(games, before);
            var h2 := Run(games, before + [t]).1;
            h <= h2 && Exact(st, h, t, h2[|h|..], k)
  {
    RunSnoc(games, before, t);
    RunTracks(games, before);
    RunIsSound(games, before, k);
    hide Run, Tracks, Sound, Exact, Heartbeat, Validation;
    var (st, h) := Run(games, before);
    match t
    case Beat(r) => HeartbeatExact(games, st, h, r, k);
    case Validate(r) => ValidationExact(st, h, r, k);
    assert (h + Perform(games, st, t).marks)[|h|..] == Perform(games, st, t).marks;
  }

  lemma PrefixIsLawful(k: Key, h: seq<Mark>, marks: seq<Mark>, law: (seq<Mark>, Mark) -> bool)
    requires LawfulFor(k, h + marks, law)
    ensures LawfulFor(k, h, law)
  {
    var g := h + marks;
    assert forall i :: 0 <= i < |h| ==> g[i] == h[i] && g[..i] == h[..i];
  }

  /** For every run and every server, whatever the versions: its events obey the common law, the law
      of version 1 or the law of version 2 exactly when no task of the run is a fault of that
      kind. */
  lemma {:induction false} LawsExactly(games: map<Text, Text>, tasks: seq<Task>, k: Key)
    ensures var h := Run(games, tasks).1;
            && (LawfulFor(k, h, UpdateLaw) <==> Faultless(games, tasks, k, BreaksUpdateLaw))
            && (LawfulFor(k, h, LawfulV1) <==> Faultless(games, tasks, k, BreaksV1))
            && (LawfulFor(k, h, LawfulV2) <==> Faultless(games, tasks, k, BreaksV2))
    decreases |tasks|
  {
    if tasks != [] {
      var before, t := tasks[..|tasks| - 1], tasks[|tasks| - 1];
      assert before + [t] == tasks;
      LawsExactly(games, before, k);
      TaskIsExact(games, before, t, k);
      hide Run, LawfulFor, Faultless, UpdateLaw, LawfulV1, LawfulV2, BreaksUpdateLaw, BreaksV1, BreaksV2;
      var h, h2 := Run(games, before).1, Run(games, tasks).1;
      assert h + h2[|h|..] == h2;
      ExtendsExactly(games, before, t, k, h, h2, UpdateLaw, BreaksUpdateLaw);
      ExtendsExactly(games, before, t, k, h, h2, LawfulV1, BreaksV1);
      ExtendsExactly(games, before, t, k, h, h2, LawfulV2, BreaksV2);
    }
  }

  lemma ExtendsExactly(games: map<Text, Text>, before: seq<Task>, t: Task, k: Key, h: seq<Mark>, h2: seq<Mark>,
                       law: (seq<Mark>, Mark) -> bool, fault: Fault)
    requires h <= h2 && h == Run(games, before).1
    requires LawfulFor(k, h, law) <==> Faultless(games, before, k, fault)
    requires LawfulFor(k, h, law) ==> (LawfulFor(k, h2, law) <==> !fault(Run(games, before).0, h, t, k))
    ensures LawfulFor(k, h2, law) <==> Faultless(games, before + [t], k, fault)
  {
    hide Run, LawfulFor, Faultless;
    FaultlessSnoc(games, before, t, k, fault);
    if LawfulFor(k, h2, law) {
      assert h + h2[|h|..] == h2;
      PrefixIsLawful(k, h, h2[|h|..], law);
    }
  }

  /** Every update of a server follows an announcement of it with no deletion in between exactly when
      no heartbeat of another version than 1 finds it live and with no event since its last
      deletion. */
  lemma UpdatesAnnouncedExactly(games: map<Text, Text>, tasks: seq<Task>, k: Key)
    ensures var h := Run(games, tasks).1;
            (forall i :: 0 <= i < |h| && h[i] == Update(k) ==>
               exists j :: 0 <= j < i && h[j] == New(k) && NotDeleted(h, j, i, k))
            <==> Faultless(games, tasks, k, BreaksUpdateLaw)
  {
    LawsExactly(games, tasks, k);
    hide Run, Faultless, NewSinceDel, BreaksUpdateLaw, NotDeleted;
    var h := Run(games, tasks).1;
    forall i | 0 <= i < |h|
      ensures NewSinceDel(h[..i], k) <==> exists j :: 0 <= j < i && h[j] == New(k) && NotDeleted(h, j, i, k)
    {
      NewBefore(h, i, k);
    }
  }

  lemma NewBefore(h: seq<Mark>, i: nat, k: Key)
    requires i <= |h|
    ensures NewSinceDel(h[..i], k) <==> exists j :: 0 <= j < i && h[j] == New(k) && NotDeleted(h, j, i, k)
  {
    var g := h[..i];
    NewSinceDelMeans(g, k);
    hide NewSinceDel;
    assert forall j :: 0 <= j < i ==> g[j] == h[j];
    forall j | 0 <= j < i ensures NotDeleted(g, j, i, k) <==> NotDeleted(h, j, i, k) {
    }
  }

  /** A server served in both versions may be updated without ever having been announced: validated
      in version 1, which leaves the announcement to its heartbeat, it beats in version 2. */
  lemma UpdateWithoutNew(games: map<Text, Text>, r: Request)
    requires r.version == 1 && r.from == r.address && r.instanceKey == 0 && r.statechanged.None?
    requires r.gamename.Some? && r.gamename.value in games && games[r.gamename.value] != []
    requires StripQuotes(r.answer) <= r.response
    ensures var k := Key(r.gamename.value, 1);
            Run(games, [Beat(r), Validate(r), Beat(r.(version := 2))]).1 == [Registered(k), Validated(k), Update(k)]
  {
    var later := r.(version := 2);
    RunOfThree(games, Beat(r), Validate(r), Beat(later));
    var a := FirstBeat(games, r);
    var b := FirstValidation(a, r);
    LaterBeat(games, b, later);
    hide Heartbeat, Validation, StripQuotes, Run, Waiting, Hash;
    var k := Key(r.gamename.value, 1);
    assert [Registered(k)] + [Validated(k)] + [Update(k)] == [Registered(k), Validated(k), Update(k)];
  }

  lemma RunOfThree(games: map<Text, Text>, a: Task, b: Task, c: Task)
    ensures var o := Perform(games, Empty, a);
            var p := Perform(games, o.store, b);
            Run(games, [a, b, c]).1 == o.marks + p.marks + Perform(games, p.store, c).marks
  {
    hide Perform, Run;
    RunSnoc(games, [], a);
    RunSnoc(games, [a], b);
    RunSnoc(games, [a, b], c);
    assert [] + [a] == [a] && [a] + [b] == [a, b] && [a, b] + [c] == [a, b, c];
    var m := Perform(games, Empty, a).marks;
    assert [] + m == m;
  }

  lemma RunSnoc(games: map<Text, Text>, before: seq<Task>, t: Task)
    ensures Run(games, []) == (Empty, [])
    ensures var (st, h) := Run(games, before); var o := Perform(games, st, t);
            Run(games, before + [t]) == (o.store, h + o.marks)
  {
    hide Perform;
    assert (before + [t])[..|before|] == before;
  }

  /** Where a registration leaves a server. */
  predicate Waiting(st: Store, r: Request, k: Key) {
    && r.from in st.qr1Map && st.qr1Map[r.from] == k
    && (0, r.from) in st.ipInst && st.ipInst[(0, r.from)] == k
    && Hash(st, k) == Server(Some(true), Some(r.answer), 0, Some(k.id))
  }

  lemma FirstBeat(games: map<Text, Text>, r: Request) returns (st: Store)
    requires r.from == r.address && r.instanceKey == 0
    requires r.gamename.Some? && r.gamename.value in games && games[r.gamename.value] != []
    ensures var o, k := Heartbeat(games, Empty, r), Key(r.gamename.value, 1);
            o.store == st && o.marks == [Registered(k)] && Waiting(st, r, k)
  {
    hide Atoi;
    assert KeyOf(Empty, r) == None;
    var k := Key(r.gamename.value, 1);
    var o := Heartbeat(games, Empty, r);
    assert o == Registration(Empty, r, r.gamename.value);
    st := o.store;
    assert WithId(Empty, r.address) == (Empty.(lastId := 1), 1);
  }

  lemma FirstValidation(st: Store, r: Request) returns (st2: Store)
    requires r.gamename.Some? && r.version == 1 && StripQuotes(r.answer) <= r.response
    requires Waiting(st, r, Key(r.gamename.value, 1))
    ensures var o, k := Validation(st, r), Key(r.gamename.value, 1);
            && o.store == st2 && o.marks == [Validated(k)]
            && (0, r.from) in st2.ipInst && st2.ipInst[(0, r.from)] == k && Hash(st2, k).deleted == Some(false)
  {
    hide StripQuotes;
    var k := Key(r.gamename.value, 1);
    assert KeyOf(st, r) == Option.Some(k);
    st2 := Validation(st, r).store;
  }

  lemma LaterBeat(games: map<Text, Text>, st: Store, r: Request)
    requires r.instanceKey == 0 && r.version == 2 && r.statechanged.None?
    requires (0, r.from) in st.ipInst && Hash(st, st.ipInst[(0, r.from)]).deleted == Some(false)
    ensures Heartbeat(games, st, r).marks == [Update(st.ipInst[(0, r.from)])]
  {
    hide Atoi, Counted, Mapped;
    assert KeyOf(st, r) == Option.Some(st.ipInst[(0, r.from)]);
  }

  // ---- the tasks ----

  /** The marks that are sent out as messages. */
  function EventOf(m: Mark): seq<Mark> {
    if m.Registered? || m.Validated? then [] else [m]
  }

  function Events(marks: seq<Mark>): seq<Mark> {
    if marks == [] then [] else EventOf(marks[0]) + Events(marks[1..])
  }

  class Registry {
    const games: map<Text, Text>
    var servers: map<Key, Server>
    var ipInst: map<(nat, Address), Key>
    var ipMap: map<Address, Key>
    var qr1Map: map<Address, Key>
    var lastId: int
    var published: seq<Mark>
    ghost var history: seq<Mark>

    constructor (games: map<Text, Text>)
      ensures this.games == games && View() == Empty && published == [] && history == []
    {
      this.games := games;
      servers, ipInst, ipMap, qr1Map, lastId, published, history := map[], map[], map[], map[], 0, [], [];
    }

    ghost function View(): Store
      reads this
    {
      Store(servers, ipInst, ipMap, qr1Map, lastId)
    }

    /** HGET and HEXISTS */
    method Fields(k: Key) returns (s: Server)
      ensures s == Hash(View(), k)
    {
      s := if k in servers then servers[k] else NoServer;
    }

    method IsServerDeleted(k: Key, ignoreChallengeExists: bool) returns (deleted: bool)
      ensures deleted == IsDeleted(View(), k, ignoreChallengeExists)
    {
      var s := Fields(k);
      var ret, challengeExists := s.deleted, false;
      if !ignoreChallengeExists {
        challengeExists := s.challenge.Some?;
      }
      deleted := ret == Some(true) && !challengeExists;
    }

    method GetServerKey(r: Request) returns (key: Option<Key>)
      ensures key == KeyOf(View(), r)
    {
      key := None;
      if r.version == 1 && r.from in qr1Map {
        key := Some(qr1Map[r.from]);
      }
      if key == None {
        if (r.instanceKey, r.from) in ipInst {
          key := Some(ipInst[(r.instanceKey, r.from)]);
        }
        if key.Some? {
          var deleted := IsServerDeleted(key.value, false);
          if deleted {
            key := None;
          }
        }
      }
    }

    method GetNewServerKey(address: Address, gamename: Text) returns (key: Key)
      modifies this`lastId
      ensures (View(), key.id) == WithId(old(View()), address) && key.gamename == gamename
    {
      var id := -1;
      if address in ipMap {
        var s := Fields(ipMap[address]);
        if s.id.Some? {
          id := s.id.value;
        }
      }
      if id == -1 {
        lastId := lastId + 1;
        id := lastId;
      }
      key := Key(gamename, id);
    }

    method SetServerDeleted(k: Key, deleted: bool, resetHbCount: bool)
      modifies this`servers
      ensures View() == WithDeleted(old(View()), k, deleted, resetHbCount)
    {
      var s := Fields(k);
      s := s.(deleted := Some(deleted));
      if resetHbCount {
        s := s.(numUpdates := 0);
      }
      servers := servers[k := s];
    }

    method IncrNumHeartbeats(k: Key) returns (count: nat)
      modifies this`servers
      ensures View() == Counted(old(View()), k) && count == Hash(View(), k).numUpdates
    {
      var s := Fields(k);
      count := s.numUpdates + 1;
      servers := servers[k := s.(numUpdates := count)];
    }

    method WriteServerData(k: Key, r: Request)
      modifies this`ipMap, this`qr1Map, this`ipInst
      ensures View() == Mapped(old(View()), k, r)
    {
      ipMap := ipMap[r.address := k];
      if r.instanceKey == 0 {
        qr1Map := qr1Map[r.address := k];
        if r.address.port != r.from.port {
          qr1Map := qr1Map[r.from := k];
        }
      }
      ipInst := ipInst[(r.instanceKey, r.address) := k];
    }

    method SetServerInitialInfo(k: Key, answer: Text)
      modifies this`servers
      ensures View() == Initialised(old(View()), k, answer)
    {
      var s := Fields(k);
      servers := servers[k := s.(id := Some(k.id), challenge := Some(answer))];
    }

    method Publish(event: Mark)
      requires !event.Registered? && !event.Validated?
      modifies this`published, this`history
      ensures published == old(published) + [event] && history == old(history) + [event]
    {
      published := published + [event];
      history := history + [event];
    }

    method PerformHeartbeat(r: Request) returns (reply: Reply)
      modifies this
      ensures var o := Heartbeat(games, old(View()), r);
              && View() == o.store && reply == o.reply && history == old(history) + o.marks
              && published == old(published) + Events(o.marks)
    {
      hide KeyOf, IsDeleted, WithDeleted, Counted, Mapped, Initialised, WithId, Hash;
      var statechanged := 1;
      if r.statechanged.Some? {
        statechanged := Atoi(r.statechanged.value);
      }
      var key := GetServerKey(r);
      var gone := false;
      if key.Some? {
        gone := IsServerDeleted(key.value, true);
      }
      if key.None? || statechanged == 3 || gone {
        if r.gamename.None? {
          return Failed(NoGamename);
        }
        if r.gamename.value !in games || games[r.gamename.value] == [] {
          return Failed(NoSuchGame);
        }
        var k := GetNewServerKey(r.address, r.gamename.value);
        WriteServerData(k, r);
        SetServerDeleted(k, true, r.version != 1);
        SetServerInitialInfo(k, r.answer);
        history := history + [Registered(k)];
        return Challenge(r.challenge);
      } else {
        var k := key.value;
        if statechanged == 2 {
          SetServerDeleted(k, true, true);
          Publish(Del(k));
          return Done;
        }
        var count := IncrNumHeartbeats(k);
        var event := if count == 1 && r.version == 1 then New(k) else Update(k);
        WriteServerData(k, r);
        Publish(event);
        return Done;
      }
    }

    /** The stored challenge, as it is compared. */
    method ExpectedResponse(k: Key) returns (expected: Text)
      ensures expected == Expected(View(), k)
    {
      var s := Fields(k);
      expected := if s.challenge.Some? then StripQuotes(s.challenge.value) else [];
    }

    method PerformValidate(r: Request) returns (reply: Reply)
      modifies this
      ensures var o := Validation(old(View()), r);
              && View() == o.store && reply == o.reply && history == old(history) + o.marks
              && published == old(published) + Events(o.marks)
    {
      hide KeyOf, IsDeleted, WithDeleted, Counted, Hash, Events, Expected;
      EventsOfValidation(if KeyOf(View(), r).Some? then KeyOf(View(), r).value else Key([], 0));
      var key := GetServerKey(r);
      if key.None? {
        return Failed(NotRegistered);
      }
      var k := key.value;
      var expected := ExpectedResponse(k);
      var chopped := r.response;
      if |chopped| > |expected| {
        chopped := chopped[..|expected|];
      }
      if expected != chopped {
        return Failed(WrongResponse);
      }
      var deleted := IsServerDeleted(k, true);
      if deleted {
        SetServerDeleted(k, false, r.version != 1);
        history := history + [Validated(k)];
        if r.version != 1 {
          var _ := IncrNumHeartbeats(k);
          Publish(New(k));
          assert old(history) + [Validated(k)] + [New(k)] == old(history) + [Validated(k), New(k)];
        }
      } else if r.version == 1 {
        return Silent;
      }
      return Done;
    }
  }

  lemma EventsOfValidation(k: Key)
    ensures Events([]) == [] && Events([Validated(k)]) == []
    ensures Events([Validated(k), New(k)]) == [New(k)]
  {
    assert [Validated(k)][1..] == [] && [New(k)][1..] == [] && [Validated(k), New(k)][1..] == [New(k)];
  }

  lemma {:induction false} EventsSplit(a: seq<Mark>, b: seq<Mark>)
    ensures Events(a + b) == Events(a) + Events(b)
  {
    hide EventOf;
    if a == [] {
      assert a + b == b;
    } else {
      EventsSplit(a[1..], b);
      assert (a + b)[1..] == a[1..] + b && (a + b)[0] == a[0];
      var e, x, y := EventOf(a[0]), Events(a[1..]), Events(b);
      assert e + (x + y) == e + x + y;
    }
  }

  /** A server that works through any run of tasks publishes the events of the run's history. */
  method Serve(games: map<Text, Text>, tasks: seq<Task>) returns (published: seq<Mark>)
    ensures published == Events(Run(games, tasks).1)
  {
    hide Heartbeat, Validation, Events;
    var registry := new Registry(games);
    EventsOfValidation(Key([], 0));
    for n := 0 to |tasks|
      invariant fresh(registry) && registry.games == games
      invariant (registry.View(), registry.history) == Run(games, tasks[..n])
      invariant registry.published == Events(registry.history)
    {
      assert tasks[..n + 1][..n] == tasks[..n];
      ghost var h := registry.history;
      match tasks[n] {
        case Beat(r) => var _ := registry.PerformHeartbeat(r);
        case Validate(r) => var _ := registry.PerformValidate(r);
      }
      EventsSplit(h, registry.history[|h|..]);
      assert registry.history == h + registry.history[|h|..];
    }
    assert tasks[..|tasks|] == tasks;
    published := registry.published;
  }
}
