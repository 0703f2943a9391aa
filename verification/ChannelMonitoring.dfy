/**
 Version-guarded loading of `apps/src/composables/useInstanceChannelMonitoring.ts`.

 Late responses, socket updates and disconnects interleave with selection changes. The specification
 keeps what the screen means (the accepted table and the last update for each half); the class keeps the
 rows of the source and updates them in place.
 */
module ChannelMonitoring {
  import opened Basics

  // ---------------------------------------------------------------- data

  type Value = string

  /** Raw timestamps: absent, null and non-numeric ones are `None`. */
  datatype Update = Update(source: string, channel: int, dataType: char, values: map<int, Option<Value>>,
                           ts: map<int, Option<real>>)

  datatype Point = Point(id: int, name: string, unit: string)

  datatype Tables = Tables(telemetry: seq<Point>, signal: seq<Point>)

  datatype Row = Row(point: Point, value: Option<Value>, time: Option<real>)

  datatype Route = Route(enabled: bool, channel: Option<int>, channelPoint: Option<int>, channelType: char)

  /** A response that arrived, or a rejected, unsuccessful or malformed one. */
  datatype Response<T> = Good(content: T) | Bad

  datatype Event =
    | SelectInstances(ids: seq<int>)
    | RoutingArrives(version: nat, routes: Response<seq<Route>>)
    | SelectChannel(channel: Option<int>)
    | TableArrives(version: nat, tables: Response<Tables>)
    | Receive(update: Update)
    | StatusChanges(nowConnected: bool)
    | Dispose

  function ParseTimestamp(raw: Option<real>): Option<real> {
    if raw.Some? && raw.value > 0.0 then raw else None
  }

  function Get<T>(m: map<int, Option<T>>, key: int): Option<T> {
    if key in m then m[key] else None
  }

  /** A point under an update: the time if it is valid, and only then the value. */
  function Sampled(p: Point, update: Option<Update>): Row {
    if update.None? then Row(p, None, None)
    else
      var time := ParseTimestamp(Get(update.value.ts, p.id));
      Row(p, if time.None? then None else Get(update.value.values, p.id), time)
  }

  /** The row of a point shows what the update has for the id of that point, if its timestamp is a positive number. */
  predicate Carries(row: Row, p: Point, u: Update) {
    row.point == p &&
    if p.id in u.ts && u.ts[p.id].Some? && u.ts[p.id].value > 0.0
    then row.time == u.ts[p.id] && row.value == if p.id in u.values then u.values[p.id] else None
    else row.time.None? && row.value.None?
  }

  /** The rows are the points, in order, under the update. */
  predicate Shows(rows: seq<Row>, points: seq<Point>, update: Option<Update>) {
    |rows| == |points| && forall i | 0 <= i < |points| :: rows[i] == Sampled(points[i], update)
  }

  predicate Active(r: Route) {
    r.enabled && r.channel.Some? && r.channelPoint.Some? && (r.channelType == 'T' || r.channelType == 'S')
  }

  function ActiveChannels(routes: seq<Route>): seq<int> {
    if routes == [] then []
    else (if Active(routes[0]) then [routes[0].channel.value] else []) + ActiveChannels(routes[1..])
  }

  // ---------------------------------------------------------------- what the screen means

  /** The table of the selected channel: the accepted response and the last update for each half. */
  datatype TableState = TableState(
    selected: Option<int>,
    version: nat,
    tables: Option<Tables>,
    lastT: Option<Update>,
    lastS: Option<Update>,
    loading: bool,
    error: bool,
    connected: bool)
  {
    /** The table watcher: it runs only when the selection changes, and forgets what was shown. */
    function Select(channel: Option<int>): TableState {
      if channel == selected then this
      else TableState(channel, version + 1, None, None, None, channel.Some?, false, connected)
    }

    function Arrive(v: nat, response: Response<Tables>): TableState {
      if v != version then this
      else if response.Bad? then this.(error := true, loading := false)
      else this.(tables := Some(response.content), lastT := None, lastS := None, loading := false)
    }

    predicate Accepts(u: Update) {
      connected && selected == Some(u.channel) && u.source == "comsrv"
    }

    function Receive(u: Update): TableState {
      if !Accepts(u) then this
      else if u.dataType == 'T' then this.(lastT := Some(u))
      else if u.dataType == 'S' then this.(lastS := Some(u))
      else this
    }

    function Status(nowConnected: bool): TableState {
      if nowConnected then this.(connected := true) else this.(connected := false, lastT := None, lastS := None)
    }
  }

  datatype Monitor = Monitor(
    ids: seq<int>,
    routingVersion: nat,
    channelIds: seq<int>,
    routingLoading: bool,
    routingError: bool,
    table: TableState,
    disposed: bool)

  function Start(ids: seq<int>, connected: bool): Monitor {
    Monitor(ids, 1, [], ids != [], false, TableState(None, 1, None, None, None, false, false, connected), false)
  }

  function First(channels: seq<int>): Option<int> {
    if channels == [] then None else Some(channels[0])
  }

  function Next(m: Monitor, e: Event): Monitor {
    match e
    case SelectInstances(ids) =>
      if ids == m.ids then m
      else Monitor(ids, m.routingVersion + 1, [], ids != [], false, m.table.Select(None), m.disposed)
    case RoutingArrives(version, routes) =>
      if version != m.routingVersion then m
      else if routes.Bad? then m.(routingError := true, routingLoading := false)
      else
        var channels := Distinct(ActiveChannels(routes.content));
        m.(channelIds := channels, routingLoading := false, table := m.table.Select(First(channels)))
    case SelectChannel(channel) => m.(table := m.table.Select(channel))
    case TableArrives(version, tables) => m.(table := m.table.Arrive(version, tables))
    case Receive(u) => m.(table := m.table.Receive(u))
    case StatusChanges(nowConnected) => m.(table := m.table.Status(nowConnected))
    case Dispose =>
      m.(routingVersion := m.routingVersion + 1, table := m.table.(version := m.table.version + 1), disposed := true)
  }

  /** A response answers a request still waiting; nothing but late responses happens after disposal. */
  predicate Possible(m: Monitor, e: Event) {
    && (e.RoutingArrives? && e.version == m.routingVersion ==> m.routingLoading && !m.disposed)
    && (e.TableArrives? && e.version == m.table.version ==> m.table.loading && !m.disposed)
    && (e.RoutingArrives? || e.TableArrives? || !m.disposed)
  }

  function After(m: Monitor, events: seq<Event>): Monitor {
    if events == [] then m else Next(After(m, events[..|events| - 1]), events[|events| - 1])
  }

  predicate IsRun(m: Monitor, events: seq<Event>) {
    events == [] ||
    (IsRun(m, events[..|events| - 1]) && Possible(After(m, events[..|events| - 1]), events[|events| - 1]))
  }

  // ---------------------------------------------------------------- the source's rows

  function Telemetry(tables: Option<Tables>): seq<Point> {
    if tables.None? then [] else tables.value.telemetry
  }

  function Signal(tables: Option<Tables>): seq<Point> {
    if tables.None? then [] else tables.value.signal
  }

  /** Overwrites time and value of every row of one half. */
  method Refresh(rows: seq<Row>, update: Option<Update>) returns (refreshed: seq<Row>)
    ensures |refreshed| == |rows|
    ensures forall i | 0 <= i < |rows| :: refreshed[i] == Sampled(rows[i].point, update)
    ensures update.Some? ==> forall i | 0 <= i < |rows| :: Carries(refreshed[i], rows[i].point, update.value)
  {
    refreshed := rows;
    for i := 0 to |rows|
      invariant |refreshed| == |rows|
      invariant forall j | 0 <= j < i :: refreshed[j] == Sampled(rows[j].point, update)
      invariant forall j | i <= j < |rows| :: refreshed[j] == rows[j]
    {
      var item := refreshed[i];
      if update.None? {
        item := item.(value := None, time := None);
      } else {
        var time := ParseTimestamp(Get(update.value.ts, item.point.id));
        item := item.(time := time);
        item := item.(value := if time.None? then None else Get(update.value.values, item.point.id));
      }
      refreshed := refreshed[i := item];
    }
  }

  function Blank(points: seq<Point>): (rows: seq<Row>)
    ensures Shows(rows, points, None)
  {
    seq(|points|, i requires 0 <= i < |points| => Row(points[i], None, None))
  }

  /** The rows, the table watcher and the socket listeners. */
  class TableView {
    var selected: Option<int>
    var version: nat
    var left: seq<Row>
    var right: seq<Row>
    var loading: bool
    var error: bool
    var connected: bool
    ghost var meaning: TableState

    /** The fields are those of the meaning, and the rows show it. */
    ghost predicate Valid()
      reads this
    {
      && meaning.(tables := None, lastT := None, lastS := None) ==
         TableState(selected, version, None, None, None, loading, error, connected)
      && Shows(left, Telemetry(meaning.tables), meaning.lastT)
      && Shows(right, Signal(meaning.tables), meaning.lastS)
    }

    constructor (online: bool)
      ensures Valid() && meaning == Start([], online).table
    {
      selected, version, left, right, loading, error, connected := None, 1, [], [], false, false, online;
      meaning := Start([], online).table;
    }

    /** The assignment to the selected channel together with the synchronous table watcher. */
    method Select(channel: Option<int>)
      requires Valid()
      modifies this
      ensures Valid() && meaning == old(meaning).Select(channel)
    {
      if channel == selected {
        return;
      }
      selected, version := channel, version + 1;
      left, right := [], [];
      error, loading := false, channel.Some?;
      meaning := meaning.Select(channel);
    }

    method Arrive(v: nat, response: Response<Tables>)
      requires Valid()
      modifies this
      ensures Valid() && meaning == old(meaning).Arrive(v, response)
    {
      if v != version {
        return;
      }
      if response.Good? {
        left, right := Blank(response.content.telemetry), Blank(response.content.signal);
      } else {
        error := true;
      }
      loading := false;
      meaning := meaning.Arrive(v, response);
    }

    method ApplyUpdate(update: Update)
      requires Valid()
      modifies this
      ensures Valid() && meaning == old(meaning).Receive(update)
    {
      if !connected || Some(update.channel) != selected || update.source != "comsrv" {
        return;
      }
      if update.dataType == 'T' {
        left := Refresh(left, Some(update));
      }
      if update.dataType == 'S' {
        right := Refresh(right, Some(update));
      }
      meaning := meaning.Receive(update);
    }

    method OnStatus(nowConnected: bool)
      requires Valid()
      modifies this
      ensures Valid() && meaning == old(meaning).Status(nowConnected)
    {
      connected := nowConnected;
      if !nowConnected {
        left := Refresh(left, None);
        right := Refresh(right, None);
      }
      meaning := meaning.Status(nowConnected);
    }
  }

  /** The routing watcher around the table. */
  class ChannelMonitor {
    var ids: seq<int>
    var routingVersion: nat
    var channelIds: seq<int>
    var routingLoading: bool
    var routingError: bool
    const table: TableView
    ghost var disposed: bool

    ghost function Meaning(): Monitor
      reads this, table
    {
      Monitor(ids, routingVersion, channelIds, routingLoading, routingError, table.meaning, disposed)
    }

    constructor (instances: seq<int>, online: bool)
      ensures table.Valid() && Meaning() == Start(instances, online)
    {
      ids, routingVersion, channelIds, routingLoading, routingError := instances, 1, [], instances != [], false;
      table := new TableView(online);
      disposed := false;
    }

    method OnSelectInstances(instances: seq<int>)
      requires table.Valid()
      modifies this, table
      ensures table.Valid() && Meaning() == Next(old(Meaning()), SelectInstances(instances))
    {
      if instances == ids {
        return;
      }
      routingVersion := routingVersion + 1;
      channelIds := [];
      table.Select(None);
      routingError := false;
      ids := instances;
      routingLoading := instances != [];
    }

    method OnRoutingArrives(version: nat, routes: Response<seq<Route>>)
      requires table.Valid()
      modifies this, table
      ensures table.Valid() && Meaning() == Next(old(Meaning()), RoutingArrives(version, routes))
    {
      if version != routingVersion {
        return;
      }
      if routes.Bad? {
        routingError := true;
      } else {
        channelIds := Distinct(ActiveChannels(routes.content));
        table.Select(First(channelIds));
      }
      routingLoading := false;
    }

    method OnDispose()
      requires table.Valid()
      modifies this, table
      ensures table.Valid() && Meaning() == Next(old(Meaning()), Dispose)
    {
      routingVersion := routingVersion + 1;
      table.version := table.version + 1;
      table.meaning := table.meaning.(version := table.version);
      disposed := true;
    }
  }

  // ---------------------------------------------------------------- every run

  predicate Late(m: Monitor, e: Event) {
    || (e.RoutingArrives? && e.version != m.routingVersion)
    || (e.TableArrives? && e.version != m.table.version)
  }

  /** The run without its superseded responses. */
  function Timely(m: Monitor, events: seq<Event>): seq<Event> {
    if events == [] then []
    else
      var before, e := events[..|events| - 1], events[|events| - 1];
      if Late(After(m, before), e) then Timely(m, before) else Timely(m, before) + [e]
  }

  /** Superseded responses leave no trace. */
  lemma {:induction false} LateResponsesLeaveNoTrace(m: Monitor, events: seq<Event>)
    ensures After(m, Timely(m, events)) == After(m, events)
    decreases |events|
  {
    if events != [] {
      var before := events[..|events| - 1];
      LateResponsesLeaveNoTrace(m, before);
      var timely := Timely(m, before);
      assert (timely + [events[|events| - 1]])[..|timely|] == timely;
    }
  }

  /** From the k-th event on nothing was selected anew and nothing else was accepted. */
  predicate SteadyFrom(m: Monitor, events: seq<Event>, k: nat) {
    k <= |events| &&
    forall i | k <= i <= |events| ::
      var was, now := After(m, events[..i]).table, After(m, events).table;
      was.version == now.version && was.selected == now.selected
  }

  lemma SteadyOneMore(m: Monitor, events: seq<Event>, e: Event, k: nat)
    requires SteadyFrom(m, events, k)
    requires var was, now := After(m, events).table, After(m, events + [e]).table;
             was.version == now.version && was.selected == now.selected
    ensures SteadyFrom(m, events + [e], k)
  {
    var more := events + [e];
    assert more[..|more|] == more && events[..|events|] == events;
    forall i | k <= i <= |more|
      ensures var was, now := After(m, more[..i]).table, After(m, more).table;
              was.version == now.version && was.selected == now.selected
    {
      if i <= |events| {
        assert more[..i] == events[..i];
      }
    }
  }

  predicate Accepting(m: Monitor, e: Event) {
    e.TableArrives? && e.version == m.table.version && e.tables.Good?
  }

  /** A shown table is either just accepted or untouched, with its selection. */
  lemma StepKeepsTable(m: Monitor, e: Event)
    requires Next(m, e).table.tables.Some? && !Next(m, e).disposed
    ensures !m.disposed
    ensures var now := Next(m, e).table; now.version == m.table.version && now.selected == m.table.selected
    ensures if Accepting(m, e) then Next(m, e).table.tables == Some(e.tables.content)
            else Next(m, e).table.tables == m.table.tables
  {
  }

  ghost predicate Accepted(m: Monitor, events: seq<Event>, j: nat) {
    && j < |events|
    && SteadyFrom(m, events, j)
    && After(m, events).table.tables.Some?
    && events[j] == TableArrives(After(m, events).table.version, Good(After(m, events).table.tables.value))
  }

  /** What is shown is the response to the request of the current selection, unchanged since it was accepted. */
  lemma {:induction false} ShownTableIsCurrent(m: Monitor, events: seq<Event>) returns (j: nat)
    requires m.table.tables.None? && !m.disposed && IsRun(m, events)
    requires After(m, events).table.tables.Some? && !After(m, events).disposed
    ensures Accepted(m, events, j)
    decreases |events|
  {
    var before, e := events[..|events| - 1], events[|events| - 1];
    assert events == before + [e];
    StepKeepsTable(After(m, before), e);
    if Accepting(After(m, before), e) {
      j := |before|;
      assert before[..|before|] == before;
    } else {
      j := ShownTableIsCurrent(m, before);
    }
    SteadyOneMore(m, before, e, j);
  }

  /** An update for the selected channel is shown at once, in the half of its type. */
  lemma UpdateIsShown(m: Monitor, u: Update, left: seq<Row>, right: seq<Row>)
    requires m.table.connected && m.table.selected == Some(u.channel) && u.source == "comsrv"
    requires var t := Next(m, Receive(u)).table;
             Shows(left, Telemetry(t.tables), t.lastT) && Shows(right, Signal(t.tables), t.lastS)
    ensures var points := Telemetry(m.table.tables);
            u.dataType == 'T' ==> |left| == |points| && forall i | 0 <= i < |left| :: Carries(left[i], points[i], u)
    ensures var points := Signal(m.table.tables);
            u.dataType == 'S' ==> |right| == |points| && forall i | 0 <= i < |right| :: Carries(right[i], points[i], u)
  {
    assert forall i | 0 <= i < |left| :: left[i] == Sampled(left[i].point, Next(m, Receive(u)).table.lastT);
    assert forall i | 0 <= i < |right| :: right[i] == Sampled(right[i].point, Next(m, Receive(u)).table.lastS);
  }

  /** A selection forgets what was shown and asks anew; a failed response to the current request is reported. */
  lemma SelectionStartsOver(m: Monitor, ids: seq<int>, channel: Option<int>)
    ensures ids != m.ids ==>
              var n := Next(m, SelectInstances(ids));
              && n.ids == ids && n.routingVersion == m.routingVersion + 1 && n.channelIds == []
              && n.routingLoading == (ids != []) && !n.routingError
              && n.table.selected.None?
    ensures channel != m.table.selected ==>
              var t := Next(m, SelectChannel(channel)).table;
              && t.selected == channel && t.version == m.table.version + 1
              && t.tables.None? && t.lastT.None? && t.lastS.None? && t.loading == channel.Some? && !t.error
    ensures Next(m, TableArrives(m.table.version, Bad)).table == m.table.(error := true, loading := false)
    ensures Next(m, RoutingArrives(m.routingVersion, Bad)) == m.(routingError := true, routingLoading := false)
  {
  }

  /** The response to the current request is shown at once, without values. */
  lemma TableIsShown(m: Monitor, tables: Tables, left: seq<Row>, right: seq<Row>)
    requires var t := Next(m, TableArrives(m.table.version, Good(tables))).table;
             Shows(left, Telemetry(t.tables), t.lastT) && Shows(right, Signal(t.tables), t.lastS)
    ensures |left| == |tables.telemetry| && forall i | 0 <= i < |left| :: left[i] == Row(tables.telemetry[i], None, None)
    ensures |right| == |tables.signal| && forall i | 0 <= i < |right| :: right[i] == Row(tables.signal[i], None, None)
    ensures !Next(m, TableArrives(m.table.version, Good(tables))).table.loading
  {
    assert forall i | 0 <= i < |left| :: left[i] == Sampled(tables.telemetry[i], None);
    assert forall i | 0 <= i < |right| :: right[i] == Sampled(tables.signal[i], None);
  }

  lemma {:induction false} ActiveChannelsAre(routes: seq<Route>, c: int)
    ensures c in ActiveChannels(routes) <==> exists i | 0 <= i < |routes| :: Active(routes[i]) && routes[i].channel == Some(c)
  {
    if routes != [] {
      ActiveChannelsAre(routes[1..], c);
      if c in ActiveChannels(routes[1..]) {
        var i :| 0 <= i < |routes[1..]| && Active(routes[1..][i]) && routes[1..][i].channel == Some(c);
        assert routes[i + 1] == routes[1..][i];
      }
      if i :| 0 <= i < |routes| && Active(routes[i]) && routes[i].channel == Some(c) {
        assert i > 0 ==> routes[1..][i - 1] == routes[i];
      }
    }
  }

  lemma {:induction false} FirstActive(routes: seq<Route>, n: nat)
    requires n < |routes| && Active(routes[n]) && forall i | 0 <= i < n :: !Active(routes[i])
    ensures ActiveChannels(routes) != [] && Some(ActiveChannels(routes)[0]) == routes[n].channel
    decreases n
  {
    if n > 0 {
      FirstActive(routes[1..], n - 1);
    }
  }

  /** The current routing response lists each channel with an active route once, and selects that of the first one. */
  lemma RoutingSelects(m: Monitor, routes: seq<Route>, n: nat)
    requires n <= |routes| && (forall i | 0 <= i < n :: !Active(routes[i])) && (n < |routes| ==> Active(routes[n]))
    ensures var now := Next(m, RoutingArrives(m.routingVersion, Good(routes)));
            && now.table.selected == (if n < |routes| then routes[n].channel else None)
            && NoRepeats(now.channelIds)
            && forall c :: c in now.channelIds <==>
                             exists i | 0 <= i < |routes| ::
                               && routes[i].enabled && routes[i].channel == Some(c) && routes[i].channelPoint.Some?
                               && routes[i].channelType in {'T', 'S'}
  {
    DistinctKeepsMembers(ActiveChannels(routes));
    forall c {
      ActiveChannelsAre(routes, c);
    }
    if n < |routes| {
      FirstActive(routes, n);
    } else if ActiveChannels(routes) != [] {
      ActiveChannelsAre(routes, ActiveChannels(routes)[0]);
    }
  }

  datatype Half = TelemetryHalf | SignalHalf

  /** The update whose values a half of the screen shows. */
  function LastOf(t: TableState, half: Half): Option<Update> {
    match half
    case TelemetryHalf => t.lastT
    case SignalHalf => t.lastS
  }

  /** After the k-th event the socket stayed connected and neither the table nor the half's update changed. */
  predicate LiveAfter(m: Monitor, events: seq<Event>, half: Half, k: nat) {
    forall i | k < i <= |events| ::
      var was, now := After(m, events[..i]).table, After(m, events).table;
      was.connected && was.version == now.version && was.tables == now.tables && LastOf(was, half) == LastOf(now, half)
  }

  lemma StepKeepsUpdate(m: Monitor, e: Event, half: Half)
    requires LastOf(Next(m, e).table, half).Some? && !Next(m, e).disposed && Coherent(m.table) && Possible(m, e)
    ensures !m.disposed
    ensures var now := Next(m, e).table;
            e == Receive(LastOf(now, half).value) ||
            (m.table.version == now.version && m.table.tables == now.tables && LastOf(m.table, half) == LastOf(now, half))
  {
  }

  /** The values of either half of the screen come from an update that arrived after the table, connected ever since. */
  lemma {:induction false} ShownUpdateIsLive(m: Monitor, events: seq<Event>, half: Half) returns (j: nat)
    requires LastOf(m.table, half).None? && !m.disposed && Coherent(m.table) && IsRun(m, events)
    requires LastOf(After(m, events).table, half).Some? && !After(m, events).disposed
    ensures j < |events| && events[j] == Receive(LastOf(After(m, events).table, half).value) && LiveAfter(m, events, half, j)
    decreases |events|
  {
    var before, e := events[..|events| - 1], events[|events| - 1];
    RunsStayCoherent(m, before);
    RunsStayCoherent(m, events);
    StepKeepsUpdate(After(m, before), e, half);
    assert events[..|events|] == events;
    if e == Receive(LastOf(After(m, events).table, half).value) {
      j := |before|;
    } else {
      j := ShownUpdateIsLive(m, before, half);
      forall i | j < i <= |before|
        ensures var was, now := After(m, events[..i]).table, After(m, events).table;
                was.connected && was.version == now.version && was.tables == now.tables && LastOf(was, half) == LastOf(now, half)
      {
        assert events[..i] == before[..i];
      }
    }
  }

  predicate FromHalf(u: Update, dataType: char) {
    u.source == "comsrv" && u.dataType == dataType
  }

  /** While not connected nothing but blanks is shown, and updates shown are for the selected channel. */
  predicate Coherent(t: TableState) {
    && (!t.connected ==> t.lastT.None? && t.lastS.None?)
    && (t.lastT.Some? ==> t.selected == Some(t.lastT.value.channel) && FromHalf(t.lastT.value, 'T'))
    && (t.lastS.Some? ==> t.selected == Some(t.lastS.value.channel) && FromHalf(t.lastS.value, 'S'))
    && (t.tables.Some? || t.loading ==> t.selected.Some?)
  }

  lemma StepKeepsCoherent(m: Monitor, e: Event)
    requires Coherent(m.table) && Possible(m, e)
    ensures Coherent(Next(m, e).table)
  {
  }

  lemma {:induction false} RunsStayCoherent(m: Monitor, events: seq<Event>)
    requires Coherent(m.table) && IsRun(m, events)
    ensures Coherent(After(m, events).table)
    decreases |events|
  {
    if events != [] {
      RunsStayCoherent(m, events[..|events| - 1]);
      StepKeepsCoherent(After(m, events[..|events| - 1]), events[|events| - 1]);
    }
  }

  predicate Sound(row: Row) {
    && (row.value.Some? ==> row.time.Some?)
    && (row.time.Some? ==> row.time.value > 0.0)
  }

  /** The screen after any run: values carry valid times, and there are none while not connected. */
  lemma {:induction false} ScreenIsSound(ids: seq<int>, online: bool, events: seq<Event>, left: seq<Row>, right: seq<Row>)
    requires IsRun(Start(ids, online), events)
    requires var t := After(Start(ids, online), events).table;
             Shows(left, Telemetry(t.tables), t.lastT) && Shows(right, Signal(t.tables), t.lastS)
    ensures forall i | 0 <= i < |left| :: Sound(left[i])
    ensures forall i | 0 <= i < |right| :: Sound(right[i])
    ensures var t := After(Start(ids, online), events).table;
            !t.connected ==>
              && (forall i | 0 <= i < |left| :: left[i].value.None? && left[i].time.None?)
              && (forall i | 0 <= i < |right| :: right[i].value.None? && right[i].time.None?)
  {
    RunsStayCoherent(Start(ids, online), events);
  }
}
