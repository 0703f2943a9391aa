/**
 Version-guarded loading of `apps/src/composables/useInstanceMeasurements.ts`: measurement definitions
 of the selected instance and the values of its last socket update.
 */
module InstanceMeasurements {
  import opened Basics

  type Value = string

  datatype Item = Item(id: int, name: string, unit: string)

  /** Raw timestamps: absent, null and non-numeric ones are `None`. */
  datatype Update = Update(source: string, channel: int, dataType: char, values: map<string, Option<Value>>,
                           ts: map<string, Option<real>>)

  /** `Bad` is a rejected, unsuccessful or malformed response. */
  datatype Response = Good(items: seq<Item>) | Bad

  datatype Event =
    | SelectInstance(instance: Option<int>)
    | Arrives(version: nat, response: Response)
    | Receive(update: Update)
    | StatusChanges(nowConnected: bool)
    | Dispose

  function ValidTime(u: Update, field: string): Option<real> {
    if field in u.ts && u.ts[field].Some? && u.ts[field].value > 0.0 then u.ts[field] else None
  }

  function Times(u: Option<Update>): map<string, Option<real>> {
    if u.None? then map[] else map field | field in u.value.values :: ValidTime(u.value, field)
  }

  function Values(u: Option<Update>): map<string, Option<Value>> {
    if u.None? then map[]
    else map field | field in u.value.values ::
           if ValidTime(u.value, field).None? then None else u.value.values[field]
  }

  /** Every field of the update, and no other, is there: with its value and time if the time is a positive number. */
  predicate Carries(values: map<string, Option<Value>>, times: map<string, Option<real>>, u: Update) {
    && values.Keys == times.Keys == u.values.Keys
    && forall f | f in u.values ::
         if f in u.ts && u.ts[f].Some? && u.ts[f].value > 0.0
         then values[f] == u.values[f] && times[f] == u.ts[f]
         else values[f].None? && times[f].None?
  }

  // ---------------------------------------------------------------- what the screen means

  datatype Selection = Selection(
    instance: Option<int>,
    version: nat,
    accepted: Option<seq<Item>>,
    last: Option<Update>,
    loading: bool,
    error: bool,
    connected: bool,
    disposed: bool)

  function Start(instance: Option<int>, connected: bool): Selection {
    Selection(instance, 1, None, None, instance.Some?, false, connected, false)
  }

  predicate Accepts(s: Selection, u: Update) {
    s.connected && s.instance == Some(u.channel) && u.dataType == 'M' && u.source == "inst"
  }

  function Next(s: Selection, e: Event): Selection {
    match e
    case SelectInstance(instance) =>
      if instance == s.instance then s
      else Selection(instance, s.version + 1, None, None, instance.Some?, false, s.connected, s.disposed)
    case Arrives(version, response) =>
      if version != s.version then s
      else if response.Bad? then s.(error := true, loading := false)
      else s.(accepted := Some(response.items), loading := false)
    case Receive(u) => if Accepts(s, u) then s.(last := Some(u)) else s
    case StatusChanges(nowConnected) =>
      s.(connected := nowConnected, last := if nowConnected then s.last else None)
    case Dispose => s.(version := s.version + 1, disposed := true)
  }

  predicate Possible(s: Selection, e: Event) {
    if e.Arrives? then e.version == s.version ==> s.loading && !s.disposed else !s.disposed
  }

  function After(s: Selection, events: seq<Event>): Selection {
    if events == [] then s else Next(After(s, events[..|events| - 1]), events[|events| - 1])
  }

  predicate IsRun(s: Selection, events: seq<Event>) {
    events == [] ||
    (IsRun(s, events[..|events| - 1]) && Possible(After(s, events[..|events| - 1]), events[|events| - 1]))
  }

  // ---------------------------------------------------------------- the source

  class MeasurementView {
    var instance: Option<int>
    var version: nat
    var measurements: seq<Item>
    var values: map<string, Option<Value>>
    var timestamps: map<string, Option<real>>
    var loading: bool
    var error: bool
    var connected: bool
    ghost var meaning: Selection

    ghost predicate Valid()
      reads this
    {
      && meaning.instance == instance && meaning.version == version && meaning.loading == loading
      && meaning.error == error && meaning.connected == connected
      && measurements == (if meaning.accepted.Some? then meaning.accepted.value else [])
      && values == Values(meaning.last) && timestamps == Times(meaning.last)
    }

    constructor (selected: Option<int>, online: bool)
      ensures Valid() && meaning == Start(selected, online)
    {
      instance, version, measurements, values, timestamps := selected, 1, [], map[], map[];
      loading, error, connected := selected.Some?, false, online;
      meaning := Start(selected, online);
    }

    method OnSelect(selected: Option<int>)
      requires Valid()
      modifies this
      ensures Valid() && meaning == Next(old(meaning), SelectInstance(selected))
      ensures instance == selected
      ensures selected != old(instance) ==>
                && measurements == [] && values == map[] && timestamps == map[]
                && !error && loading == selected.Some? && version == old(version) + 1
    {
      if selected == instance {
        return;
      }
      instance, version := selected, version + 1;
      measurements, values, timestamps := [], map[], map[];
      error, loading := false, selected.Some?;
      meaning := Next(meaning, SelectInstance(selected));
    }

    method OnArrives(current: nat, response: Response)
      requires Valid()
      modifies this
      ensures Valid() && meaning == Next(old(meaning), Arrives(current, response))
      ensures current == version ==> !loading && (error <==> old(error) || response.Bad?)
      ensures current == version && response.Good? ==> measurements == response.items
      ensures current != version || response.Bad? ==> measurements == old(measurements)
    {
      if current != version {
        return;
      }
      if response.Good? {
        measurements := response.items;
      } else {
        error := true;
      }
      loading := false;
      meaning := Next(meaning, Arrives(current, response));
    }

    method ApplyUpdate(update: Update)
      requires Valid()
      modifies this
      ensures Valid() && meaning == Next(old(meaning), Receive(update))
      ensures connected && instance == Some(update.channel) && update.dataType == 'M' && update.source == "inst" ==>
                Carries(values, timestamps, update)
    {
      if !connected || Some(update.channel) != instance || update.dataType != 'M' || update.source != "inst" {
        return;
      }
      var nextValues, nextTimes := Collect(update);
      values, timestamps := nextValues, nextTimes;
      meaning := Next(meaning, Receive(update));
    }

    method OnStatus(nowConnected: bool)
      requires Valid()
      modifies this
      ensures Valid() && meaning == Next(old(meaning), StatusChanges(nowConnected))
      ensures connected == nowConnected && measurements == old(measurements)
      ensures if nowConnected then values == old(values) && timestamps == old(timestamps)
              else values == map[] && timestamps == map[]
    {
      connected := nowConnected;
      if !nowConnected {
        values, timestamps := map[], map[];
      }
      meaning := Next(meaning, StatusChanges(nowConnected));
    }

    method OnDispose()
      requires Valid()
      modifies this
      ensures Valid() && meaning == Next(old(meaning), Dispose)
    {
      version := version + 1;
      meaning := Next(meaning, Dispose);
    }
  }

  /** The loop over the entries of an update. */
  method Collect(update: Update) returns (values: map<string, Option<Value>>, times: map<string, Option<real>>)
    ensures values == Values(Some(update)) && times == Times(Some(update)) && Carries(values, times, update)
  {
    values, times := map[], map[];
    var rest := update.values.Keys;
    while rest != {}
      invariant rest <= update.values.Keys
      invariant values.Keys == times.Keys == update.values.Keys - rest
      invariant forall f | f in times :: times[f] == Times(Some(update))[f] && values[f] == Values(Some(update))[f]
    {
      var field :| field in rest;
      var time := ValidTime(update, field);
      times := times[field := time];
      values := values[field := if time.None? then None else update.values[field]];
      rest := rest - {field};
    }
  }

  // ---------------------------------------------------------------- every run

  predicate Accepting(s: Selection, e: Event) {
    e.Arrives? && e.version == s.version && e.response.Good?
  }

  lemma StepKeepsAccepted(s: Selection, e: Event)
    requires Next(s, e).accepted.Some? && !Next(s, e).disposed
    ensures !s.disposed && Next(s, e).version == s.version && Next(s, e).instance == s.instance
    ensures Next(s, e).accepted == if Accepting(s, e) then Some(e.response.items) else s.accepted
  {
  }

  /** The definitions shown answer the request of the current instance, selected since before they arrived. */
  lemma {:induction false} ShownDefinitionsAreCurrent(s: Selection, events: seq<Event>) returns (j: nat)
    requires s.accepted.None? && IsRun(s, events)
    requires After(s, events).accepted.Some? && !After(s, events).disposed
    ensures var now := After(s, events);
            && j < |events|
            && events[j] == Arrives(now.version, Good(now.accepted.value))
            && (forall i | j <= i <= |events| ::
                  After(s, events[..i]).version == now.version && After(s, events[..i]).instance == now.instance)
    decreases |events|
  {
    var before, e := events[..|events| - 1], events[|events| - 1];
    StepKeepsAccepted(After(s, before), e);
    assert events[..|events|] == events && events[..|before|] == before;
    if Accepting(After(s, before), e) {
      j := |before|;
    } else {
      j := ShownDefinitionsAreCurrent(s, before);
      assert forall i | j <= i <= |before| :: events[..i] == before[..i];
    }
  }

  predicate Coherent(s: Selection) {
    && (!s.connected ==> s.last.None?)
    && (s.last.Some? ==> s.instance == Some(s.last.value.channel) && s.last.value.source == "inst" && s.last.value.dataType == 'M')
  }

  lemma {:induction false} RunsStayCoherent(s: Selection, events: seq<Event>)
    requires Coherent(s)
    ensures Coherent(After(s, events))
    decreases |events|
  {
    if events != [] {
      RunsStayCoherent(s, events[..|events| - 1]);
    }
  }

  /** After any run: only fields of the selected instance, values only with valid times, none while offline. */
  lemma {:induction false} ScreenIsSound(instance: Option<int>, online: bool, events: seq<Event>)
    ensures var s := After(Start(instance, online), events);
            var values, times := Values(s.last), Times(s.last);
            && values.Keys == times.Keys
            && (forall f | f in values && values[f].Some? :: times[f].Some? && times[f].value > 0.0)
            && (!s.connected ==> values == map[] && times == map[])
            && (values != map[] ==> s.last.Some? && s.instance == Some(s.last.value.channel))
  {
    RunsStayCoherent(Start(instance, online), events);
  }
}
