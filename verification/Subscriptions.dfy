/**
 The WebSocket subscription manager of `apps/src/utils/websocket.ts`.

 Handlers of abandoned sockets stay attached in the source, so the model keeps every socket ever
 created: an event may arrive for a socket that is no longer the current one, while messages always go
 out on the current one. Generated ids come from a counter, which makes them fresh.
 */
module Subscriptions {
  import opened Basics

  type Id = nat
  type SocketId = nat
  type Listeners = map<string, int>

  datatype Source = Inst | Comsrv | Rule | Homepage

  /** `channels` is already normalised to a list; `dataTypes` may be absent. */
  datatype Config = Config(source: Source, channels: seq<int>, dataTypes: Option<seq<string>>, interval: Option<nat>)

  datatype Record = Record(id: Id, config: Config, listeners: Listeners)

  datatype Pending = Pending(subscriptionId: Id, config: Config, listeners: Listeners)

  datatype Ready = Opening | Open | Closing | Closed

  datatype Status = Connecting | Connected | Disconnected | Error

  datatype Failure = NotConnected | NotLoggedIn

  /** What was sent on which socket, with the subscription it was sent for. */
  datatype Message = Subscribe(socket: SocketId, id: Id, subscription: Id, config: Config)
                   | Unsubscribe(socket: SocketId, id: Id, subscription: Id, config: Config)

  function Types(c: Config): seq<string> {
    if c.dataTypes.Some? then c.dataTypes.value else []
  }

  /** The source compares sorted copies printed as JSON: equal exactly when the multisets are. */
  predicate Equivalent(a: Config, b: Config) {
    a.interval == b.interval &&
    if b.source == Homepage then a.source == Homepage
    else
      && a.source == b.source
      && multiset(a.channels) == multiset(b.channels)
      && (b.source == Rule || multiset(Types(a)) == multiset(Types(b)))
  }

  lemma EquivalentIsEquivalence(a: Config, b: Config, c: Config)
    ensures Equivalent(a, a)
    ensures Equivalent(a, b) ==> Equivalent(b, a)
    ensures Equivalent(a, b) && Equivalent(b, c) ==> Equivalent(a, c)
  {
  }

  // ---------------------------------------------------------------- the comparison in the source

  ghost predicate TotalOrder<T(!new)>(le: (T, T) -> bool) {
    && (forall x, y :: le(x, y) || le(y, x))
    && (forall x, y :: le(x, y) && le(y, x) ==> x == y)
    && (forall x, y, z :: le(x, y) && le(y, z) ==> le(x, z))
  }

  function Inserted<T>(xs: seq<T>, x: T, le: (T, T) -> bool): seq<T> {
    if xs == [] || le(x, xs[0]) then [x] + xs else [xs[0]] + Inserted(xs[1..], x, le)
  }

  /** A sorted copy. */
  function Sorted<T>(xs: seq<T>, le: (T, T) -> bool): seq<T> {
    if xs == [] then [] else Inserted(Sorted(xs[1..], le), xs[0], le)
  }

  predicate Ascending<T>(xs: seq<T>, le: (T, T) -> bool) {
    forall i, j | 0 <= i < j < |xs| :: le(xs[i], xs[j])
  }

  lemma {:induction false} InsertedKeeps<T(!new)>(xs: seq<T>, x: T, le: (T, T) -> bool)
    requires TotalOrder(le) && Ascending(xs, le)
    ensures Ascending(Inserted(xs, x, le), le)
    ensures multiset(Inserted(xs, x, le)) == multiset(xs) + multiset{x}
    decreases |xs|
  {
    if xs == [] || le(x, xs[0]) {
    } else {
      InsertedKeeps(xs[1..], x, le);
      var rest := Inserted(xs[1..], x, le);
      assert xs == [xs[0]] + xs[1..];
      forall y | y in rest
        ensures le(xs[0], y)
      {
        assert y in multiset(rest);
      }
    }
  }

  lemma {:induction false} SortedKeeps<T(!new)>(xs: seq<T>, le: (T, T) -> bool)
    requires TotalOrder(le)
    ensures Ascending(Sorted(xs, le), le) && multiset(Sorted(xs, le)) == multiset(xs)
    decreases |xs|
  {
    if xs != [] {
      SortedKeeps(xs[1..], le);
      InsertedKeeps(Sorted(xs[1..], le), xs[0], le);
      assert xs == [xs[0]] + xs[1..];
    }
  }

  lemma FirstIsLeast<T(!new)>(xs: seq<T>, y: T, le: (T, T) -> bool)
    requires TotalOrder(le) && Ascending(xs, le) && y in multiset(xs)
    ensures xs != [] && le(xs[0], y)
  {
    var i :| 0 <= i < |xs| && xs[i] == y;
  }

  lemma WithoutFirst<T>(xs: seq<T>)
    requires xs != []
    ensures multiset(xs[1..]) == multiset(xs) - multiset{xs[0]}
  {
    assert xs == [xs[0]] + xs[1..];
  }

  lemma {:induction false} AscendingIsUnique<T(!new)>(xs: seq<T>, ys: seq<T>, le: (T, T) -> bool)
    requires TotalOrder(le) && Ascending(xs, le) && Ascending(ys, le) && multiset(xs) == multiset(ys)
    ensures xs == ys
    decreases |xs|
  {
    assert |xs| == |multiset(xs)| == |multiset(ys)| == |ys|;
    if xs != [] {
      assert xs[0] in multiset(xs) && ys[0] in multiset(ys);
      FirstIsLeast(xs, ys[0], le);
      FirstIsLeast(ys, xs[0], le);
      WithoutFirst(xs);
      WithoutFirst(ys);
      AscendingIsUnique(xs[1..], ys[1..], le);
      assert xs == [xs[0]] + xs[1..] && ys == [ys[0]] + ys[1..];
    }
  }

  /** Sorted copies are equal exactly for lists with the same elements, equally often. */
  lemma SortedEqualIffPermuted<T(!new)>(xs: seq<T>, ys: seq<T>, le: (T, T) -> bool)
    requires TotalOrder(le)
    ensures Sorted(xs, le) == Sorted(ys, le) <==> multiset(xs) == multiset(ys)
  {
    SortedKeeps(xs, le);
    SortedKeeps(ys, le);
    if multiset(xs) == multiset(ys) {
      AscendingIsUnique(Sorted(xs, le), Sorted(ys, le), le);
    }
  }

  /** The comparison of an incoming configuration with a stored one, by sorted copies, whatever the two orders. */
  lemma EquivalentIsComparison(stored: Config, incoming: Config, byNumber: (int, int) -> bool,
                               byText: (string, string) -> bool)
    requires TotalOrder(byNumber) && TotalOrder(byText)
    ensures Equivalent(stored, incoming) <==>
            && stored.source == incoming.source && stored.interval == incoming.interval
            && (incoming.source == Homepage || Sorted(stored.channels, byNumber) == Sorted(incoming.channels, byNumber))
            && (incoming.source in {Homepage, Rule} || Sorted(Types(stored), byText) == Sorted(Types(incoming), byText))
  {
    SortedEqualIffPermuted(stored.channels, incoming.channels, byNumber);
    SortedEqualIffPermuted(Types(stored), Types(incoming), byText);
  }

  /** The order of the default sort, which compares elements as text. */
  predicate TextLe(a: string, b: string) {
    a == [] || (b != [] && (a[0] < b[0] || (a[0] == b[0] && TextLe(a[1..], b[1..]))))
  }

  lemma {:induction false} TextLeIsTotal(a: string, b: string)
    ensures TextLe(a, b) || TextLe(b, a)
    ensures TextLe(a, b) && TextLe(b, a) ==> a == b
    decreases |a|
  {
    if a != [] && b != [] && a[0] == b[0] {
      TextLeIsTotal(a[1..], b[1..]);
      assert a == [a[0]] + a[1..] && b == [b[0]] + b[1..];
    }
  }

  lemma {:induction false} TextLeChains(a: string, b: string, c: string)
    requires TextLe(a, b) && TextLe(b, c)
    ensures TextLe(a, c)
    decreases |a|
  {
    if a != [] && a[0] == b[0] && b[0] == c[0] {
      TextLeChains(a[1..], b[1..], c[1..]);
    }
  }

  /** Sorting numbers as text is sorting by a total order too, when different numbers print differently. */
  lemma TextSortsNumbers(show: int -> string, byNumber: (int, int) -> bool)
    requires forall x, y :: show(x) == show(y) ==> x == y
    requires forall x, y :: byNumber(x, y) == TextLe(show(x), show(y))
    ensures TotalOrder(TextLe) && TotalOrder(byNumber)
  {
    forall a, b
      ensures (TextLe(a, b) || TextLe(b, a)) && (TextLe(a, b) && TextLe(b, a) ==> a == b)
    {
      TextLeIsTotal(a, b);
    }
    forall a, b, c | TextLe(a, b) && TextLe(b, c)
      ensures TextLe(a, c)
    {
      TextLeChains(a, b, c);
    }
  }

  // ---------------------------------------------------------------- what every run keeps

  /** Records are stored under their own id. */
  predicate Keyed(subs: map<Id, Record>, nextId: Id) {
    forall id | id in subs :: subs[id].id == id && id < nextId
  }

  /** No two subscriptions have equivalent configs. */
  predicate NoTwins(subs: map<Id, Record>) {
    forall a, b | a in subs && b in subs && a != b :: !Equivalent(subs[a].config, subs[b].config)
  }

  /** Every queue entry belongs to a live subscription with the same config, at most one for each. */
  predicate QueueOf(pending: map<Id, Pending>, subs: map<Id, Record>, nextId: Id) {
    && (forall m | m in pending ::
          && m < nextId
          && pending[m].subscriptionId in subs
          && pending[m].config == subs[pending[m].subscriptionId].config)
    && (forall m, n | m in pending && n in pending && pending[m].subscriptionId == pending[n].subscriptionId :: m == n)
  }

  predicate Queued(pending: map<Id, Pending>, id: Id) {
    exists m | m in pending :: pending[m].subscriptionId == id
  }

  predicate Linked(subs: map<Id, Record>, pending: map<Id, Pending>, nextId: Id) {
    Keyed(subs, nextId) && QueueOf(pending, subs, nextId)
  }

  predicate Consistent(subs: map<Id, Record>, pending: map<Id, Pending>, nextId: Id) {
    NoTwins(subs) && Linked(subs, pending, nextId)
  }

  lemma MergeKeepsConsistent(subs: map<Id, Record>, pending: map<Id, Pending>, nextId: Id, id: Id, listeners: Listeners)
    requires Consistent(subs, pending, nextId) && id in subs
    ensures Consistent(subs[id := subs[id].(listeners := listeners)], pending, nextId)
  {
  }

  lemma CreateKeepsConsistent(subs: map<Id, Record>, pending: map<Id, Pending>, id: Id, config: Config,
                              listeners: Listeners)
    requires Consistent(subs, pending, id)
    requires forall i | i in subs :: !Equivalent(subs[i].config, config)
    ensures Consistent(subs[id := Record(id, config, listeners)],
                       pending[id + 1 := Pending(id, config, listeners)], id + 2)
    ensures forall m | m in pending :: !Equivalent(pending[m].config, config)
  {
    forall m | m in pending
      ensures !Equivalent(pending[m].config, config)
    {
      assert pending[m].config == subs[pending[m].subscriptionId].config;
    }
    var subs' := subs[id := Record(id, config, listeners)];
    forall a, b | a in subs' && b in subs' && a != b
      ensures !Equivalent(subs'[a].config, subs'[b].config)
    {
      EquivalentIsEquivalence(subs'[a].config, subs'[b].config, config);
    }
  }

  function WithoutSubscription(pending: map<Id, Pending>, id: Id): map<Id, Pending> {
    map m | m in pending && pending[m].subscriptionId != id :: pending[m]
  }

  lemma RemoveKeepsConsistent(subs: map<Id, Record>, pending: map<Id, Pending>, nextId: Id, id: Id)
    requires Consistent(subs, pending, nextId)
    ensures Consistent(subs - {id}, WithoutSubscription(pending, id), nextId)
  {
  }

  /** The queue grew by entries for records that had none, carrying the listeners of the record. */
  predicate Refilled(before: map<Id, Pending>, after: map<Id, Pending>, subs: map<Id, Record>) {
    && (forall m | m in before :: m in after && after[m] == before[m])
    && (forall m | m in after && m !in before ::
          var id := after[m].subscriptionId;
          id in subs && !Queued(before, id) && after[m].listeners == subs[id].listeners)
  }

  lemma EnqueueKeepsLinked(subs: map<Id, Record>, before: map<Id, Pending>, pending: map<Id, Pending>,
                               nextId: Id, id: Id)
    requires Linked(subs, pending, nextId) && id in subs && !Queued(pending, id) && Refilled(before, pending, subs)
    ensures var pending' := pending[nextId := Pending(id, subs[id].config, subs[id].listeners)];
            && Linked(subs, pending', nextId + 1)
            && Refilled(before, pending', subs)
            && Queued(pending', id)
            && (forall i | Queued(pending, i) :: Queued(pending', i))
  {
    var pending' := pending[nextId := Pending(id, subs[id].config, subs[id].listeners)];
    assert pending'[nextId].subscriptionId == id;
    forall i | Queued(pending, i)
      ensures Queued(pending', i)
    {
      var m :| m in pending && pending[m].subscriptionId == i;
      assert pending'[m].subscriptionId == i;
    }
  }

  ghost predicate Announced(sent: seq<Message>, socket: SocketId, id: Id, config: Config) {
    exists m :: Subscribe(socket, m, id, config) in sent
  }

  ghost predicate AllAnnounced(sent: seq<Message>, socket: SocketId, subs: map<Id, Record>) {
    forall id | id in subs :: Announced(sent, socket, id, subs[id].config)
  }

  ghost predicate SentAll(sent: seq<Message>, socket: SocketId, entries: map<Id, Pending>) {
    forall m | m in entries :: Subscribe(socket, m, entries[m].subscriptionId, entries[m].config) in sent
  }

  lemma AnnouncedAppend(sent: seq<Message>, message: Message, socket: SocketId, subs: map<Id, Record>)
    requires AllAnnounced(sent, socket, subs)
    ensures AllAnnounced(sent + [message], socket, subs)
  {
    forall id | id in subs
      ensures Announced(sent + [message], socket, id, subs[id].config)
    {
      var m :| Subscribe(socket, m, id, subs[id].config) in sent;
      assert Subscribe(socket, m, id, subs[id].config) in sent + [message];
    }
  }

  ghost predicate SameConfigs(subs: map<Id, Record>, after: map<Id, Record>) {
    && after.Keys == subs.Keys
    && (forall id | id in subs :: after[id].id == subs[id].id && after[id].config == subs[id].config)
  }

  ghost predicate ListenersFrom(pending: map<Id, Pending>, after: map<Id, Record>) {
    forall m | m in pending ::
      pending[m].subscriptionId in after && after[pending[m].subscriptionId].listeners == pending[m].listeners
  }

  ghost predicate OthersKept(subs: map<Id, Record>, pending: map<Id, Pending>, after: map<Id, Record>) {
    forall id | id in subs && !Queued(pending, id) :: id in after && after[id] == subs[id]
  }

  /** A replay keeps ids and configs; a queue entry overwrites its record's listeners with its own. */
  ghost predicate ReplayedTo(subs: map<Id, Record>, pending: map<Id, Pending>, after: map<Id, Record>) {
    SameConfigs(subs, after) && ListenersFrom(pending, after) && OthersKept(subs, pending, after)
  }

  /** `done` is the part of the queue already replayed. */
  ghost predicate PartOf(done: map<Id, Pending>, pending: map<Id, Pending>) {
    forall m | m in done :: m in pending && done[m] == pending[m]
  }

  lemma QueuedMore(pending: map<Id, Pending>, m: Id, p: Pending, id: Id)
    requires m !in pending
    ensures Queued(pending[m := p], id) <==> Queued(pending, id) || p.subscriptionId == id
  {
    var more := pending[m := p];
    assert more[m] == p;
    if Queued(pending, id) {
      var n :| n in pending && pending[n].subscriptionId == id;
      assert more[n].subscriptionId == id;
    }
  }

  lemma ReplayNextListeners(subs: map<Id, Record>, pending: map<Id, Pending>, nextId: Id, done: map<Id, Pending>,
                            now: map<Id, Record>, m: Id)
    requires Linked(subs, pending, nextId) && PartOf(done, pending)
    requires SameConfigs(subs, now) && ListenersFrom(done, now)
    requires m in pending && m !in done
    ensures var p := pending[m];
            var now' := now[p.subscriptionId := Record(p.subscriptionId, p.config, p.listeners)];
            SameConfigs(subs, now') && ListenersFrom(done[m := p], now')
  {
  }

  lemma ReplayNext(subs: map<Id, Record>, pending: map<Id, Pending>, nextId: Id, done: map<Id, Pending>,
                   now: map<Id, Record>, m: Id)
    requires Linked(subs, pending, nextId) && PartOf(done, pending) && ReplayedTo(subs, done, now)
    requires m in pending && m !in done
    ensures PartOf(done[m := pending[m]], pending)
    ensures var p := pending[m];
            ReplayedTo(subs, done[m := p], now[p.subscriptionId := Record(p.subscriptionId, p.config, p.listeners)])
  {
    var p, done' := pending[m], done[m := pending[m]];
    var now' := now[p.subscriptionId := Record(p.subscriptionId, p.config, p.listeners)];
    ReplayNextListeners(subs, pending, nextId, done, now, m);
    forall id | id in subs && !Queued(done', id)
      ensures now'[id] == subs[id]
    {
      QueuedMore(done, m, p, id);
    }
  }

  lemma SendNext(sent: seq<Message>, socket: SocketId, done: map<Id, Pending>, m: Id, p: Pending)
    requires SentAll(sent, socket, done)
    ensures SentAll(sent + [Subscribe(socket, m, p.subscriptionId, p.config)], socket, done[m := p])
  {
  }

  /** The entries outside `rest` were replayed and sent on the socket. */
  ghost predicate Progress(subs: map<Id, Record>, pending: map<Id, Pending>, rest: set<Id>, now: map<Id, Record>,
                           sent: seq<Message>, socket: SocketId) {
    rest <= pending.Keys && ReplayedTo(subs, pending - rest, now) && SentAll(sent, socket, pending - rest)
  }

  lemma ProgressEnds(subs: map<Id, Record>, pending: map<Id, Pending>, now: map<Id, Record>, sent: seq<Message>,
                     socket: SocketId)
    ensures Progress(subs, pending, pending.Keys, subs, sent, socket)
    ensures Progress(subs, pending, {}, now, sent, socket) ==>
              ReplayedTo(subs, pending, now) && SentAll(sent, socket, pending)
  {
    assert pending - pending.Keys == map[];
    assert pending - {} == pending;
  }

  lemma Advance(subs: map<Id, Record>, pending: map<Id, Pending>, nextId: Id, rest: set<Id>, now: map<Id, Record>,
                sent: seq<Message>, socket: SocketId, m: Id)
    requires Linked(subs, pending, nextId) && Progress(subs, pending, rest, now, sent, socket) && m in rest
    ensures var p := pending[m];
            Progress(subs, pending, rest - {m},
                     now[p.subscriptionId := Record(p.subscriptionId, p.config, p.listeners)],
                     sent + [Subscribe(socket, m, p.subscriptionId, p.config)], socket)
  {
    var done := pending - rest;
    assert pending - (rest - {m}) == done[m := pending[m]];
    ReplayNext(subs, pending, nextId, done, now, m);
    SendNext(sent, socket, done, m, pending[m]);
  }

  lemma ReplayKeepsConsistent(subs: map<Id, Record>, pending: map<Id, Pending>, now: map<Id, Record>, nextId: Id)
    requires Consistent(subs, pending, nextId) && ReplayedTo(subs, pending, now)
    ensures Consistent(now, pending, nextId)
  {
  }

  /** Entries that waited before the refill overwrite listeners; other records are untouched. */
  lemma RefillThenReplay(subs: map<Id, Record>, before: map<Id, Pending>, refilled: map<Id, Pending>,
                         now: map<Id, Record>)
    requires Refilled(before, refilled, subs) && ReplayedTo(subs, refilled, now)
    requires forall id | id in subs :: Queued(refilled, id)
    ensures ReplayedTo(subs, before, now)
  {
    forall id | id in subs && !Queued(before, id)
      ensures now[id] == subs[id]
    {
      var m :| m in refilled && refilled[m].subscriptionId == id;
      assert m !in before;
    }
  }

  /** Which records keep their listeners: exactly those whose queue entries all carry the same ones. */
  ghost predicate ListenersKeptExactly(subs: map<Id, Record>, pending: map<Id, Pending>, after: map<Id, Record>) {
    forall id | id in subs ::
      id in after &&
      (after[id].listeners == subs[id].listeners <==>
       forall m | m in pending && pending[m].subscriptionId == id :: pending[m].listeners == subs[id].listeners)
  }

  lemma ReplayKeepsExactly(subs: map<Id, Record>, pending: map<Id, Pending>, after: map<Id, Record>)
    requires ReplayedTo(subs, pending, after)
    ensures ListenersKeptExactly(subs, pending, after)
  {
    forall id | id in subs {
      ListenersSurviveIff(subs, pending, after, id);
    }
  }

  /** A replay keeps a record's listeners if and only if every queue entry of the record carries the same ones. */
  lemma ListenersSurviveIff(subs: map<Id, Record>, pending: map<Id, Pending>, after: map<Id, Record>, id: Id)
    requires id in subs && ReplayedTo(subs, pending, after)
    ensures after[id].listeners == subs[id].listeners <==>
            forall m | m in pending && pending[m].subscriptionId == id :: pending[m].listeners == subs[id].listeners
  {
    if Queued(pending, id) {
      var m :| m in pending && pending[m].subscriptionId == id;
      assert after[id].listeners == pending[m].listeners;
    }
  }

  lemma QueueEmptyIff(subs: map<Id, Record>, pending: map<Id, Pending>, nextId: Id)
    requires Linked(subs, pending, nextId)
    requires forall id | id in subs :: Queued(pending, id)
    ensures pending == map[] <==> subs == map[]
  {
    if subs != map[] {
      var id :| id in subs;
      assert Queued(pending, id);
    }
    if pending != map[] {
      var m :| m in pending;
      assert pending[m].subscriptionId in subs;
    }
  }

  /** A refilled queue, replayed completely on a socket, announces every subscription there. */
  lemma ReplayAnnouncesAll(subs: map<Id, Record>, pending: map<Id, Pending>, now: map<Id, Record>, nextId: Id,
                           sent: seq<Message>, socket: SocketId)
    requires Linked(subs, pending, nextId) && ReplayedTo(subs, pending, now) && SentAll(sent, socket, pending)
    requires forall id | id in subs :: Queued(pending, id)
    ensures AllAnnounced(sent, socket, now)
  {
    forall id | id in now
      ensures Announced(sent, socket, id, now[id].config)
    {
      var m :| m in pending && pending[m].subscriptionId == id;
      assert Subscribe(socket, m, id, now[id].config) in sent;
    }
  }

  /** The cached promise of `connect`: still waiting for its socket, or rejected at once. */
  datatype Attempt = Waiting | Refused

  class WebSocketManager {
    const maxReconnectAttempts: Option<nat>
    var ws: Option<SocketId>
    var ready: map<SocketId, Ready>
    var status: Status
    var reconnectAttempts: nat
    var reconnectScheduled: bool
    var connecting: Option<Attempt>
    var isManualDisconnect: bool
    var nextId: Id
    var subscriptions: map<Id, Record>
    var pending: map<Id, Pending>
    ghost var sent: seq<Message>

    ghost predicate Valid()
      reads this
    {
      && Consistent(subscriptions, pending, nextId)
      && (ws.Some? ==> ws.value in ready)
      && Delivered()
    }

    /** While connected on an open socket, every live subscription was sent on that very socket. */
    ghost predicate Delivered()
      reads this
    {
      status == Connected && CanSend() ==> AllAnnounced(sent, ws.value, subscriptions)
    }

    predicate CanSend()
      reads this
    {
      ws.Some? && ws.value in ready && ready[ws.value] == Open
    }

    /** An absent limit is the default, Infinity. */
    constructor (limit: Option<nat>)
      ensures Valid() && fresh(this)
      ensures subscriptions == map[] && pending == map[] && status == Disconnected && ws == None
      ensures ready == map[] && sent == [] && connecting == None && !isManualDisconnect && reconnectAttempts == 0
      ensures maxReconnectAttempts == limit
    {
      maxReconnectAttempts := limit;
      ws, ready, status := None, map[], Disconnected;
      reconnectAttempts, reconnectScheduled, connecting, isManualDisconnect := 0, false, None, false;
      nextId, subscriptions, pending, sent := 0, map[], map[], [];
    }

    method GenerateId() returns (id: Id)
      modifies this`nextId
      ensures id == old(nextId) && nextId == old(nextId) + 1
    {
      id := nextId;
      nextId := nextId + 1;
    }

    method Send(message: Message) returns (r: Result<(), Failure>)
      requires CanSend() ==> message.socket == ws.value
      modifies this`sent
      ensures r == if CanSend() then Ok(()) else Err(NotConnected)
      ensures sent == if CanSend() then old(sent) + [message] else old(sent)
      ensures r.Ok? <==> ws.Some? && ws.value in ready && ready[ws.value] == Open
    {
      if !CanSend() {
        return Err(NotConnected);
      }
      sent := sent + [message];
      return Ok(());
    }

    /** The socket messages go out on; the number is unused while there is none. */
    function Socket(): SocketId
      reads this`ws
    {
      if ws.Some? then ws.value else 0
    }

    // -------------------------------------------------------------- subscribing

    method FindSubscription(config: Config) returns (found: Option<Id>)
      ensures found.Some? ==> found.value in subscriptions && Equivalent(subscriptions[found.value].config, config)
      ensures found.None? ==> forall id | id in subscriptions :: !Equivalent(subscriptions[id].config, config)
    {
      var rest := subscriptions.Keys;
      while rest != {}
        invariant rest <= subscriptions.Keys
        invariant forall id | id in subscriptions && id !in rest :: !Equivalent(subscriptions[id].config, config)
      {
        var id :| id in rest;
        if Equivalent(subscriptions[id].config, config) {
          return Some(id);
        }
        rest := rest - {id};
      }
      return None;
    }

    method FindPending(config: Config) returns (found: Option<Id>)
      ensures found.Some? ==> found.value in pending && Equivalent(pending[found.value].config, config)
      ensures found.None? ==> forall m | m in pending :: !Equivalent(pending[m].config, config)
    {
      var rest := pending.Keys;
      while rest != {}
        invariant rest <= pending.Keys
        invariant forall m | m in pending && m !in rest :: !Equivalent(pending[m].config, config)
      {
        var m :| m in rest;
        if Equivalent(pending[m].config, config) {
          return Some(m);
        }
        rest := rest - {m};
      }
      return None;
    }

    /**
     A new record with a queue entry, sent at once when connected. When the current socket is no longer
     open the send throws after the record and the entry were made.
     */
    method Create(config: Config, listeners: Listeners) returns (r: Result<Id, Failure>)
      requires Valid() && NoneEquivalent(config)
      modifies this`nextId, this`subscriptions, this`pending, this`sent
      ensures Valid()
      ensures var id := old(nextId);
              && r == (if status == Connected && !CanSend() then Err(NotConnected) else Ok(id))
              && id !in old(subscriptions)
              && subscriptions == old(subscriptions)[id := Record(id, config, listeners)]
              && pending == old(pending)[id + 1 := Pending(id, config, listeners)]
              && sent == if status == Connected && CanSend()
                         then old(sent) + [Message.Subscribe(ws.value, id + 1, id, config)] else old(sent)
    {
      CreateKeepsConsistent(subscriptions, pending, nextId, config, listeners);
      var id := GenerateId();
      subscriptions := subscriptions[id := Record(id, config, listeners)];
      var messageId := GenerateId();
      pending := pending[messageId := Pending(id, config, listeners)];
      if status == Connected {
        var message := Message.Subscribe(Socket(), messageId, id, config);
        var outcome := Send(message);
        if outcome.Err? {
          return Err(NotConnected);
        }
        assert message in sent;
        AnnouncedAppend(old(sent), message, ws.value, old(subscriptions));
      }
      return Ok(id);
    }

    /** Joins an equivalent subscription, merging the listeners into its record only, or creates one. */
    method Subscribe(config: Config, listeners: Listeners) returns (r: Result<Id, Failure>)
      requires Valid()
      modifies this`nextId, this`subscriptions, this`pending, this`sent
      ensures Valid()
      ensures r.Err? <==> status == Connected && !CanSend() && old(NoneEquivalent(config))
      ensures !old(NoneEquivalent(config)) ==>
                && r.Ok? && r.value in old(subscriptions) && Equivalent(old(subscriptions)[r.value].config, config)
                && subscriptions == old(subscriptions)[r.value := old(subscriptions)[r.value].(
                     listeners := old(subscriptions)[r.value].listeners + listeners)]
                && pending == old(pending) && sent == old(sent)
      ensures forall id | id in old(subscriptions) ::
                var c := old(subscriptions)[id].config;
                r == Ok(id) <==>
                && c.source == config.source && c.interval == config.interval
                && (config.source == Homepage || multiset(c.channels) == multiset(config.channels))
                && (config.source in {Homepage, Rule} ||
                    multiset(if c.dataTypes.Some? then c.dataTypes.value else []) ==
                    multiset(if config.dataTypes.Some? then config.dataTypes.value else []))
      ensures old(NoneEquivalent(config)) ==>
                var id := old(nextId);
                && (r.Ok? ==> r.value == id)
                && subscriptions == old(subscriptions)[id := Record(id, config, listeners)]
                && pending == old(pending)[id + 1 := Pending(id, config, listeners)]
                && sent == if status == Connected && CanSend()
                           then old(sent) + [Message.Subscribe(ws.value, id + 1, id, config)] else old(sent)
    {
      var existing := FindSubscription(config);
      if existing.Some? {
        var record := subscriptions[existing.value];
        MergeKeepsConsistent(subscriptions, pending, nextId, existing.value, record.listeners + listeners);
        subscriptions := subscriptions[existing.value := record.(listeners := record.listeners + listeners)];
        return Ok(existing.value);
      }
      var queued := FindPending(config);
      // The second search never succeeds: every queue entry has the config of a live record.
      assert queued.None? by {
        CreateKeepsConsistent(subscriptions, pending, nextId, config, listeners);
      }
      r := Create(config, listeners);
    }

    ghost predicate NoneEquivalent(config: Config)
      reads this
    {
      forall id | id in subscriptions :: !Equivalent(subscriptions[id].config, config)
    }

    method Unsubscribe(id: Id) returns (r: Result<(), Failure>)
      requires Valid()
      modifies this`nextId, this`subscriptions, this`pending, this`sent
      ensures Valid()
      ensures subscriptions == old(subscriptions) - {id}
      ensures pending == WithoutSubscription(old(pending), id)
      ensures forall m :: m in pending <==> m in old(pending) && old(pending)[m].subscriptionId != id
      ensures r.Err? <==> id in old(subscriptions) && status == Connected && !CanSend()
      ensures sent == if id in old(subscriptions) && status == Connected && CanSend()
                      then old(sent) + [Message.Unsubscribe(ws.value, old(nextId), id, old(subscriptions)[id].config)]
                      else old(sent)
    {
      var known := id in subscriptions;
      var config := if known then Some(subscriptions[id].config) else None;
      RemoveKeepsConsistent(subscriptions, pending, nextId, id);
      subscriptions := subscriptions - {id};
      pending := WithoutSubscription(pending, id);
      if known && status == Connected {
        var messageId := GenerateId();
        var message := Message.Unsubscribe(Socket(), messageId, id, config.value);
        var outcome := Send(message);
        if outcome.Err? {
          return Err(NotConnected);
        }
        AnnouncedAppend(old(sent), message, ws.value, subscriptions);
      }
      return Ok(());
    }

    /** An acknowledgement removes its queue entry; an unknown request id changes nothing. */
    method HandleSubscribeAck(requestId: Id)
      requires Valid()
      modifies this`pending
      ensures Valid()
      ensures pending == old(pending) - {requestId}
    {
      pending := pending - {requestId};
    }

    // -------------------------------------------------------------- opening a socket

    method EnqueueExistingForReconnect()
      requires Linked(subscriptions, pending, nextId)
      modifies this`nextId, this`pending
      ensures nextId >= old(nextId)
      ensures Linked(subscriptions, pending, nextId)
      ensures Refilled(old(pending), pending, subscriptions)
      ensures forall id | id in subscriptions :: Queued(pending, id)
    {
      var rest := subscriptions.Keys;
      while rest != {}
        invariant rest <= subscriptions.Keys && nextId >= old(nextId)
        invariant Linked(subscriptions, pending, nextId)
        invariant Refilled(old(pending), pending, subscriptions)
        invariant forall id | id in subscriptions && id !in rest :: Queued(pending, id)
      {
        var id :| id in rest;
        if !Queued(pending, id) {
          EnqueueKeepsLinked(subscriptions, old(pending), pending, nextId, id);
          var record := subscriptions[id];
          var messageId := GenerateId();
          pending := pending[messageId := Pending(record.id, record.config, record.listeners)];
        }
        rest := rest - {id};
      }
    }

    method ProcessEntry(messageId: Id, ghost records: map<Id, Record>, ghost rest: set<Id>)
      returns (r: Result<(), Failure>)
      requires messageId in pending && messageId in rest
      requires Linked(records, pending, nextId)
      requires Progress(records, pending, rest, subscriptions, sent, Socket())
      modifies this`subscriptions, this`sent
      ensures r.Ok? <==> CanSend()
      ensures r.Err? ==> subscriptions == old(subscriptions) && sent == old(sent)
      ensures r.Ok? ==> Progress(records, pending, rest - {messageId}, subscriptions, sent, Socket())
      ensures old(sent) <= sent
    {
      Advance(records, pending, nextId, rest, subscriptions, sent, Socket(), messageId);
      r := SendEntry(messageId);
    }

    /** Sends one queue entry and restores its record from it. */
    method SendEntry(messageId: Id) returns (r: Result<(), Failure>)
      requires messageId in pending
      modifies this`subscriptions, this`sent
      ensures r.Ok? <==> CanSend()
      ensures r.Err? ==> subscriptions == old(subscriptions) && sent == old(sent)
      ensures var p := pending[messageId];
              r.Ok? ==>
                && subscriptions == old(subscriptions)[p.subscriptionId := Record(p.subscriptionId, p.config, p.listeners)]
                && sent == old(sent) + [Message.Subscribe(Socket(), messageId, p.subscriptionId, p.config)]
    {
      var entry := pending[messageId];
      r := Send(Message.Subscribe(Socket(), messageId, entry.subscriptionId, entry.config));
      if r.Ok? {
        subscriptions := subscriptions[entry.subscriptionId :=
          Record(entry.subscriptionId, entry.config, entry.listeners)];
      }
    }

    /** Sends every queue entry and restores its record from it; throws at the first entry it cannot send. */
    method ProcessPending() returns (r: Result<(), Failure>)
      requires Linked(subscriptions, pending, nextId)
      modifies this`subscriptions, this`sent
      ensures r.Ok? <==> pending == map[] || CanSend()
      ensures r.Err? ==> subscriptions == old(subscriptions) && sent == old(sent)
      ensures r.Ok? ==> ReplayedTo(old(subscriptions), pending, subscriptions)
      ensures r.Ok? ==> SentAll(sent, Socket(), pending)
      ensures old(sent) <= sent
    {
      ghost var records := subscriptions;
      ProgressEnds(records, pending, records, sent, Socket());
      var rest := pending.Keys;
      while rest != {}
        invariant Progress(records, pending, rest, subscriptions, sent, Socket())
        invariant rest == pending.Keys ==> subscriptions == records && sent == old(sent)
        invariant rest != pending.Keys ==> CanSend()
        invariant old(sent) <= sent
      {
        var messageId :| messageId in rest;
        var outcome := ProcessEntry(messageId, records, rest);
        if outcome.Err? {
          return outcome;
        }
        rest := rest - {messageId};
      }
      ProgressEnds(records, pending, subscriptions, sent, Socket());
      return Ok(());
    }

    /** The whole replay: afterwards every subscription has a queue entry and, if sent, was announced. */
    method Replay() returns (r: Result<(), Failure>)
      requires Consistent(subscriptions, pending, nextId)
      modifies this`nextId, this`subscriptions, this`pending, this`sent
      ensures Consistent(subscriptions, pending, nextId)
      ensures Refilled(old(pending), pending, old(subscriptions))
      ensures r.Ok? <==> subscriptions == map[] || CanSend()
      ensures r.Err? ==> subscriptions == old(subscriptions)
      ensures r.Ok? ==> ReplayedTo(old(subscriptions), old(pending), subscriptions)
      ensures r.Ok? ==> AllAnnounced(sent, Socket(), subscriptions)
      ensures old(sent) <= sent
    {
      ghost var records, queue := subscriptions, pending;
      EnqueueExistingForReconnect();
      assert pending == map[] <==> subscriptions == map[] by {
        QueueEmptyIff(subscriptions, pending, nextId);
      }
      r := ProcessPending();
      if r.Ok? {
        ReplayKeepsConsistent(records, pending, subscriptions, nextId);
        ReplayAnnouncesAll(records, pending, subscriptions, nextId, sent, Socket());
        RefillThenReplay(records, queue, pending, subscriptions);
      }
    }

    /**
     The open event of any socket. On the current socket it never throws; on an abandoned one it throws
     exactly when there is something to send and the current socket is not open.
     */
    method OnOpen(socket: SocketId) returns (r: Result<(), Failure>)
      requires Valid() && socket in ready && ready[socket] == Opening
      modifies this
      ensures Valid()
      ensures ready == old(ready)[socket := Open] && ws == old(ws)
      ensures status == Connected && reconnectAttempts == 0
      ensures isManualDisconnect == old(isManualDisconnect) && reconnectScheduled == old(reconnectScheduled)
      ensures r.Ok? <==> subscriptions == map[] || CanSend()
      ensures ws == Some(socket) ==> r.Ok? && AllAnnounced(sent, socket, subscriptions)
      ensures connecting == if r.Err? then old(connecting) else None
      ensures Refilled(old(pending), pending, old(subscriptions)) && old(sent) <= sent
      ensures if r.Ok? then ReplayedTo(old(subscriptions), old(pending), subscriptions)
              else subscriptions == old(subscriptions)
      ensures r.Ok? ==> ListenersKeptExactly(old(subscriptions), old(pending), subscriptions)
    {
      ready := ready[socket := Open];
      status := Connected;
      reconnectAttempts := 0;
      r := Replay();
      if r.Ok? {
        ReplayKeepsExactly(old(subscriptions), old(pending), subscriptions);
        connecting := None;
      }
    }

    // -------------------------------------------------------------- other events

    /**
     Starts a new socket unless one is open or an attempt is cached. An attempt refused for want of a login is
     cached like any other: its executor clears the cache before the assignment fills it.
     */
    method Connect(loggedIn: bool, socket: SocketId) returns (r: Result<(), Failure>)
      requires Valid() && socket !in ready
      modifies this`ws, this`ready, this`status, this`isManualDisconnect, this`connecting
      ensures Valid()
      ensures r.Err? <==> !old(CanSend()) && (old(connecting) == Some(Refused) || (old(connecting).None? && !loggedIn))
      ensures socket in ready <==> !old(CanSend()) && old(connecting).None? && loggedIn
      ensures if old(CanSend()) || old(connecting).Some? then unchanged(this)
              else if !loggedIn
              then unchanged(`ws, `ready, `status, `isManualDisconnect) && connecting == Some(Refused)
              else ws == Some(socket) && ready == old(ready)[socket := Opening] && status == Connecting
                   && !isManualDisconnect && connecting == Some(Waiting)
    {
      if CanSend() {
        return Ok(());
      }
      if connecting.Some? {
        return if connecting.value == Refused then Err(NotLoggedIn) else Ok(());
      }
      if !loggedIn {
        connecting := Some(Refused);
        return Err(NotLoggedIn);
      }
      isManualDisconnect := false;
      status := Connecting;
      ws, ready := Some(socket), ready[socket := Opening];
      connecting := Some(Waiting);
      return Ok(());
    }

    /** The peer starts closing: the socket stops accepting messages before its close event arrives. */
    method PeerCloses(socket: SocketId)
      requires Valid() && socket in ready && ready[socket] == Open
      modifies this`ready
      ensures Valid() && ready == old(ready)[socket := Closing]
    {
      ready := ready[socket := Closing];
    }

    /** The close event of any socket; records and queue survive for the reconnect. */
    method OnClose(socket: SocketId)
      requires Valid() && socket in ready && ready[socket] != Closed
      modifies this`ready, this`status, this`connecting, this`reconnectAttempts, this`reconnectScheduled
      ensures Valid()
      ensures ready == old(ready)[socket := Closed] && status == Disconnected && connecting == None
      ensures var retry := !isManualDisconnect &&
                           (maxReconnectAttempts.None? || old(reconnectAttempts) < maxReconnectAttempts.value);
              && reconnectAttempts == old(reconnectAttempts) + (if retry then 1 else 0)
              && reconnectScheduled == (retry || old(reconnectScheduled))
    {
      ready := ready[socket := Closed];
      status := Disconnected;
      connecting := None;
      if !isManualDisconnect &&
         (maxReconnectAttempts.None? || reconnectAttempts < maxReconnectAttempts.value) {
        reconnectAttempts := reconnectAttempts + 1;
        reconnectScheduled := true;
      }
    }

    method OnError()
      requires Valid()
      modifies this`status, this`connecting
      ensures Valid() && status == Error && connecting == None
    {
      status := Error;
      connecting := None;
    }

    /** Heartbeat timeout: the socket is abandoned, records and queue are kept. */
    method CloseForReconnect()
      requires Valid()
      modifies this`isManualDisconnect, this`ws, this`ready, this`status
      ensures Valid()
      ensures !isManualDisconnect && ws == None && status == Disconnected
      ensures ready == if old(ws).Some? && old(ready)[old(ws).value] != Closed
                       then old(ready)[old(ws).value := Closing] else old(ready)
    {
      isManualDisconnect := false;
      if ws.Some? {
        if ready[ws.value] != Closed {
          ready := ready[ws.value := Closing];
        }
        ws := None;
      }
      status := Disconnected;
    }

    /** A manual disconnect forgets everything and cancels the reconnect. */
    method Disconnect()
      requires Valid()
      modifies this
      ensures Valid()
      ensures subscriptions == map[] && pending == map[] && status == Disconnected && ws == None
      ensures isManualDisconnect && !reconnectScheduled && connecting == None
      ensures nextId == old(nextId) && sent == old(sent) && reconnectAttempts == old(reconnectAttempts)
      ensures ready == if old(ws).Some? && old(ready)[old(ws).value] != Closed
                       then old(ready)[old(ws).value := Closing] else old(ready)
    {
      reconnectScheduled := false;
      isManualDisconnect := true;
      connecting := None;
      if ws.Some? {
        if ready[ws.value] != Closed {
          ready := ready[ws.value := Closing];
        }
        ws := None;
      }
      subscriptions, pending := map[], map[];
      status := Disconnected;
    }
  }

  datatype ClientCall =
    | CallConnect(loggedIn: bool, socket: SocketId)
    | CallSubscribe(config: Config, listeners: Listeners)
    | CallUnsubscribe(id: Id)

  /**
   After one attempt without a login, no later call of `connect` opens a socket, logged in or not, whatever else the
   client does, until it disconnects.
   */
  method StuckAfterRefusal(calls: seq<ClientCall>) returns (manager: WebSocketManager)
    ensures fresh(manager) && manager.Valid()
    ensures manager.ready == map[] && manager.connecting == Some(Refused)
  {
    manager := new WebSocketManager(None);
    var first := manager.Connect(false, 0);
    for i := 0 to |calls|
      invariant manager.Valid() && manager.ready == map[] && manager.connecting == Some(Refused)
    {
      match calls[i]
      case CallConnect(loggedIn, socket) => var r := manager.Connect(loggedIn, socket);
      case CallSubscribe(config, listeners) => var r := manager.Subscribe(config, listeners);
      case CallUnsubscribe(id) => var r := manager.Unsubscribe(id);
    }
  }

  /** A disconnect clears the cached attempt, and the next one with a login opens a socket. */
  method DisconnectUnblocks(calls: seq<ClientCall>, socket: SocketId) returns (manager: WebSocketManager)
    ensures manager.Valid() && socket in manager.ready && manager.connecting == Some(Waiting)
  {
    manager := StuckAfterRefusal(calls);
    manager.Disconnect();
    var r := manager.Connect(true, socket);
  }

  /** Two equivalent subscriptions before the first connect: one record with both listeners, one queue entry. */
  method SubscribeTwice(config: Config, a: Listeners, b: Listeners) returns (manager: WebSocketManager, id: Id)
    ensures fresh(manager) && manager.Valid() && manager.ready == map[] && manager.ws == None && manager.connecting == None
    ensures manager.subscriptions == map[id := Record(id, config, a + b)]
    ensures manager.pending == map[id + 1 := Pending(id, config, a)]
  {
    manager := new WebSocketManager(None);
    EquivalentIsEquivalence(config, config, config);
    var first := manager.Subscribe(config, a);
    id := first.value;
    assert manager.subscriptions == map[id := Record(id, config, a)];
    assert manager.pending == map[id + 1 := Pending(id, config, a)];
    var second := manager.Subscribe(config, b);
  }

  /**
   Listeners merged into a record whose first message is still unacknowledged do not survive the next
   open: the replay restores the record from the queue entry, which was not merged.
   */
  method MergedListenersLost() returns (merged: Listeners, afterOpen: Listeners)
    ensures "onAlarm" in merged && "onAlarm" !in afterOpen
  {
    var config := Config(Inst, [1], Some(["M"]), Some(1000));
    var manager, id := SubscribeTwice(config, map["onDataUpdate" := 1], map["onAlarm" := 2]);
    merged := manager.subscriptions[id].listeners;
    var _ := manager.Connect(true, 7);
    assert manager.pending[id + 1].subscriptionId == id;
    var _ := manager.OnOpen(7);
    afterOpen := manager.subscriptions[id].listeners;
  }
}
