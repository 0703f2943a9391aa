/**
 Routing tables: rows of the configuration database become string maps (`libs/voltage-routing/src/loader.rs`),
 which the cache parses back into tables with structured keys (`libs/voltage-routing/src/routing_cache.rs`).
 */
module Routing {
  import opened Basics
  import Decimal

  type U32 = n: nat | n < 0x1_0000_0000

  datatype PointType = Telemetry | Signal | Control | Adjustment

  function AsStr(t: PointType): string {
    match t
    case Telemetry => "T"
    case Signal => "S"
    case Control => "C"
    case Adjustment => "A"
  }

  /** The spellings accepted in the database. */
  function FromStr(s: string): Option<PointType> {
    if s in {"T", "t", "YC", "yc", "Yc", "yC"} then Some(Telemetry)
    else if s in {"S", "s", "YX", "yx", "Yx", "yX"} then Some(Signal)
    else if s in {"C", "c", "YK", "yk", "Yk", "yK"} then Some(Control)
    else if s in {"A", "a", "YT", "yt", "Yt", "yT"} then Some(Adjustment)
    else None
  }

  /** The spellings accepted by the cache. */
  function ParsePointType(s: string): Option<PointType> {
    if s == "T" then Some(Telemetry)
    else if s == "S" then Some(Signal)
    else if s == "C" then Some(Control)
    else if s == "A" then Some(Adjustment)
    else None
  }

  // ---------------------------------------------------------------- texts

  /** The pieces between the separators, as `str::split` gives them. */
  function Split(s: string, c: char): (pieces: seq<string>)
    ensures pieces != []
  {
    if s == [] then [""]
    else
      var rest := Split(s[1..], c);
      if s[0] == c then [""] + rest else [[s[0]] + rest[0]] + rest[1..]
  }

  lemma {:induction false} SplitNone(a: string, c: char)
    requires c !in a
    ensures Split(a, c) == [a]
  {
    if a != [] {
      SplitNone(a[1..], c);
      assert a == [a[0]] + a[1..];
    }
  }

  lemma {:induction false} SplitFirst(a: string, c: char, rest: string)
    requires c !in a
    ensures Split(a + [c] + rest, c) == [a] + Split(rest, c)
  {
    var s := a + [c] + rest;
    if a == [] {
      assert s[1..] == rest;
    } else {
      assert s[1..] == a[1..] + [c] + rest;
      SplitFirst(a[1..], c, rest);
      assert a == [a[0]] + a[1..];
    }
  }

  function Colons(a: string, b: string, c: string): string {
    a + ":" + (b + ":" + c)
  }

  lemma SplitThree(a: string, b: string, c: string)
    requires ':' !in a && ':' !in b && ':' !in c
    ensures Split(Colons(a, b, c), ':') == [a, b, c]
  {
    SplitFirst(a, ':', b + ":" + c);
    SplitFirst(b, ':', c);
    SplitNone(c, ':');
  }

  /** `str::parse::<u32>`: an optional plus sign, then digits, in range. */
  function ParseU32(s: string): Option<U32> {
    var digits := if s != "" && s[0] == '+' then s[1..] else s;
    if digits != "" && (forall c | c in digits :: Decimal.IsDigit(c)) && Decimal.Value(digits) < 0x1_0000_0000
    then Some(Decimal.Value(digits)) else None
  }

  lemma NumberText(n: U32)
    ensures ParseU32(Decimal.Text(n)) == Some(n) && ':' !in Decimal.Text(n) && '|' !in Decimal.Text(n)
  {
    Decimal.TextIsDigits(n);
    Decimal.ValueOfText(n);
    assert Decimal.IsDigit(Decimal.Text(n)[0]);
    assert !Decimal.IsDigit(':') && !Decimal.IsDigit('|');
  }

  // ---------------------------------------------------------------- keys and targets

  datatype RouteKey = RouteKey(id: U32, kind: PointType, point: U32)

  datatype C2MTarget = C2MTarget(instance: U32, point: U32)

  function KeyText(k: RouteKey): string {
    Colons(Decimal.Text(k.id), AsStr(k.kind), Decimal.Text(k.point))
  }

  function ShowC2M(t: C2MTarget): string {
    Colons(Decimal.Text(t.instance), "M", Decimal.Text(t.point))
  }

  /** Three pieces, of which the middle one is a point type. */
  function ParseRouteKey(s: string): Option<RouteKey> {
    var parts := Split(s, ':');
    if |parts| != 3 then None
    else
      var id, kind, point := ParseU32(parts[0]), ParsePointType(parts[1]), ParseU32(parts[2]);
      if id.Some? && kind.Some? && point.Some? then Some(RouteKey(id.value, kind.value, point.value)) else None
  }

  /** Three pieces, of which the middle one is ignored. */
  function ParseC2MTarget(s: string): Option<C2MTarget> {
    var parts := Split(s, ':');
    if |parts| != 3 then None
    else
      var instance, point := ParseU32(parts[0]), ParseU32(parts[2]);
      if instance.Some? && point.Some? then Some(C2MTarget(instance.value, point.value)) else None
  }

  lemma KeyRoundTrip(k: RouteKey)
    ensures ParseRouteKey(KeyText(k)) == Some(k)
  {
    NumberText(k.id);
    NumberText(k.point);
    SplitThree(Decimal.Text(k.id), AsStr(k.kind), Decimal.Text(k.point));
  }

  lemma C2MRoundTrip(t: C2MTarget)
    ensures ParseC2MTarget(ShowC2M(t)) == Some(t)
  {
    NumberText(t.instance);
    NumberText(t.point);
    SplitThree(Decimal.Text(t.instance), "M", Decimal.Text(t.point));
  }

  datatype C2CTarget = C2CTarget(key: RouteKey, scale: real, offset: real)

  predicate Identity(scale: real, offset: real) {
    scale == 1.0 && offset == 0.0
  }

  /** What is promised of the printing of floating-point numbers: these two, if printed at all, read back. */
  predicate Lossless(display: real -> string, read: string -> Option<real>, scale: real, offset: real) {
    Identity(scale, offset) ||
    (read(display(scale)) == Some(scale) && '|' !in display(scale) && read(display(offset)) == Some(offset))
  }

  /** The identity transform stays in compact form. */
  function ShowC2C(display: real -> string, t: C2CTarget): string {
    if Identity(t.scale, t.offset) then KeyText(t.key)
    else KeyText(t.key) + "|" + (display(t.scale) + "|" + display(t.offset))
  }

  /** The text up to the first bar and what follows it, as `splitn` cuts. */
  function CutAtBar(s: string): (string, Option<string>) {
    if s == "" then ("", None)
    else if s[0] == '|' then ("", Some(s[1..]))
    else
      var (head, rest) := CutAtBar(s[1..]);
      ([s[0]] + head, rest)
  }

  function ReadOr(read: string -> Option<real>, s: string, default: real): real {
    if read(s).Some? then read(s).value else default
  }

  function ParseC2C(read: string -> Option<real>, s: string): Option<C2CTarget> {
    var (target, rest) := CutAtBar(s);
    var key := ParseRouteKey(target);
    if key.None? then None
    else if rest.None? then Some(C2CTarget(key.value, 1.0, 0.0))
    else
      var (scale, last) := CutAtBar(rest.value);
      Some(C2CTarget(key.value, ReadOr(read, scale, 1.0), if last.None? then 0.0 else ReadOr(read, last.value, 0.0)))
  }

  lemma {:induction false} CutNone(a: string)
    requires '|' !in a
    ensures CutAtBar(a) == (a, None)
  {
    if a != "" {
      CutNone(a[1..]);
      assert a == [a[0]] + a[1..];
    }
  }

  lemma {:induction false} CutFirst(a: string, rest: string)
    requires '|' !in a
    ensures CutAtBar(a + "|" + rest) == (a, Some(rest))
  {
    var s := a + "|" + rest;
    if a == "" {
      assert s[1..] == rest;
    } else {
      assert s[1..] == a[1..] + "|" + rest;
      CutFirst(a[1..], rest);
      assert a == [a[0]] + a[1..];
    }
  }

  lemma KeyHasNoBar(k: RouteKey)
    ensures '|' !in KeyText(k)
  {
    NumberText(k.id);
    NumberText(k.point);
  }

  lemma C2CRoundTrip(display: real -> string, read: string -> Option<real>, t: C2CTarget)
    requires Lossless(display, read, t.scale, t.offset)
    ensures ParseC2C(read, ShowC2C(display, t)) == Some(t)
  {
    KeyRoundTrip(t.key);
    KeyHasNoBar(t.key);
    if Identity(t.scale, t.offset) {
      CutNone(KeyText(t.key));
    } else {
      CutFirst(KeyText(t.key), display(t.scale) + "|" + display(t.offset));
      CutFirst(display(t.scale), display(t.offset));
    }
  }

  /** A printing that is exact for the natural numbers, and its reading. */
  function DisplayNatural(x: real): string {
    if x >= 0.0 && x.Floor as real == x then Decimal.Text(x.Floor) else "?"
  }

  function ReadNatural(s: string): Option<real> {
    if s != "" && forall c | c in s :: Decimal.IsDigit(c) then Some(Decimal.Value(s) as real) else None
  }

  /** With it every forwarding target with a natural scale and offset is lossless. */
  lemma NaturalsAreLossless(scale: nat, offset: nat)
    ensures Lossless(DisplayNatural, ReadNatural, scale as real, offset as real)
  {
    NaturalReadsBack(scale);
    NaturalReadsBack(offset);
  }

  lemma NaturalReadsBack(n: nat)
    ensures ReadNatural(DisplayNatural(n as real)) == Some(n as real) && '|' !in DisplayNatural(n as real)
  {
    Decimal.TextIsDigits(n);
    Decimal.ValueOfText(n);
    assert !Decimal.IsDigit('|');
  }

  lemma KeyTextInjective(k: RouteKey, l: RouteKey)
    requires KeyText(k) == KeyText(l)
    ensures k == l
  {
    KeyRoundTrip(k);
    KeyRoundTrip(l);
  }

  // ---------------------------------------------------------------- instance prefixes

  function MeasurementPrefix(instance: U32): string {
    Decimal.Text(instance) + ":M:"
  }

  function ActionPrefix(instance: U32): string {
    Decimal.Text(instance) + ":A:"
  }

  /** What precedes the first separator decides what a text can start with. */
  lemma {:induction false} FirstPiece(a: string, b: string, x: string, y: string)
    requires ':' !in a && ':' !in b && a + ":" + x <= b + ":" + y
    ensures a == b && x <= y
  {
    var s, t := a + ":" + x, b + ":" + y;
    if a == [] || b == [] {
      assert s[0] == t[0];
      assert a == [] && b == [] by {
        assert a == [] ==> s[0] == ':';
        assert b == [] ==> t[0] == ':';
      }
      assert s[1..] == x && t[1..] == y;
    } else {
      assert a[0] == s[0] == t[0] == b[0];
      assert s[1..] == a[1..] + ":" + x && t[1..] == b[1..] + ":" + y;
      FirstPiece(a[1..], b[1..], x, y);
      assert a == [a[0]] + a[1..] && b == [b[0]] + b[1..];
    }
  }

  /** `starts_with` on a measurement prefix selects exactly the routes to that instance. */
  lemma MeasurementPrefixSelects(instance: U32, t: C2MTarget)
    ensures MeasurementPrefix(instance) <= ShowC2M(t) <==> t.instance == instance
  {
    var a, b, point := Decimal.Text(instance), Decimal.Text(t.instance), Decimal.Text(t.point);
    NumberText(instance);
    NumberText(t.instance);
    assert MeasurementPrefix(instance) == a + ":" + "M:";
    assert ShowC2M(t) == b + ":" + ("M:" + point);
    if MeasurementPrefix(instance) <= ShowC2M(t) {
      FirstPiece(a, b, "M:", "M:" + point);
      Decimal.TextInjective(instance, t.instance);
    }
  }

  /** `starts_with` on an action prefix selects exactly the action keys of that instance. */
  lemma ActionPrefixSelects(instance: U32, k: RouteKey)
    requires k.kind.Adjustment?
    ensures ActionPrefix(instance) <= KeyText(k) <==> k.id == instance
  {
    var a, b, point := Decimal.Text(instance), Decimal.Text(k.id), Decimal.Text(k.point);
    NumberText(instance);
    NumberText(k.id);
    assert ActionPrefix(instance) == a + ":" + "A:";
    assert KeyText(k) == b + ":" + ("A:" + point);
    if ActionPrefix(instance) <= KeyText(k) {
      FirstPiece(a, b, "A:", "A:" + point);
      Decimal.TextInjective(instance, k.id);
    }
  }

  // ---------------------------------------------------------------- loading

  datatype MeasurementRow = MeasurementRow(instance: U32, channel: U32, channelType: string, channelPoint: U32,
                                           measurement: U32)

  datatype ActionRow = ActionRow(instance: U32, action: U32, channel: U32, channelType: string, channelPoint: U32)

  /** The routes that the measurement rows mean: for each channel point the last valid row. */
  function MeasurementRoutes(rows: seq<MeasurementRow>): map<RouteKey, C2MTarget> {
    if rows == [] then map[]
    else
      var before, row := MeasurementRoutes(rows[..|rows| - 1]), rows[|rows| - 1];
      var kind := FromStr(row.channelType);
      if kind.None? then before
      else before[RouteKey(row.channel, kind.value, row.channelPoint) := C2MTarget(row.instance, row.measurement)]
  }

  function ActionRoutes(rows: seq<ActionRow>): map<RouteKey, RouteKey> {
    if rows == [] then map[]
    else
      var before, row := ActionRoutes(rows[..|rows| - 1]), rows[|rows| - 1];
      var kind := FromStr(row.channelType);
      if kind.None? then before
      else
        before[RouteKey(row.instance, Adjustment, row.action) := RouteKey(row.channel, kind.value, row.channelPoint)]
  }

  datatype ForwardRow = ForwardRow(sourceChannel: U32, sourceType: string, sourcePoint: U32,
                                   targetChannel: U32, targetType: string, targetPoint: U32, scale: real, offset: real)

  function ForwardRoutes(rows: seq<ForwardRow>): map<RouteKey, C2CTarget> {
    if rows == [] then map[]
    else
      var before, row := ForwardRoutes(rows[..|rows| - 1]), rows[|rows| - 1];
      var source, target := FromStr(row.sourceType), FromStr(row.targetType);
      if source.None? || target.None? then before
      else
        before[RouteKey(row.sourceChannel, source.value, row.sourcePoint) :=
               C2CTarget(RouteKey(row.targetChannel, target.value, row.targetPoint), row.scale, row.offset)]
  }

  // ---------------------------------------------------------------- tables by row number

  /** The row is valid and is about this channel point. */
  predicate RoutesMeasurement(row: MeasurementRow, k: RouteKey) {
    FromStr(row.channelType) == Some(k.kind) && row.channel == k.id && row.channelPoint == k.point
  }

  /** The row is valid and is about this instance action. */
  predicate RoutesAction(row: ActionRow, k: RouteKey) {
    FromStr(row.channelType).Some? && k.kind == Adjustment && row.instance == k.id && row.action == k.point
  }

  /** Both types of the row are valid and its source is this channel point. */
  predicate RoutesForward(row: ForwardRow, k: RouteKey) {
    && FromStr(row.sourceType) == Some(k.kind) && row.sourceChannel == k.id && row.sourcePoint == k.point
    && FromStr(row.targetType).Some?
  }

  /** The number of the last such row, or -1. */
  function LastRow<R>(rows: seq<R>, about: R -> bool): (i: int)
    ensures -1 <= i < |rows|
    ensures i >= 0 ==> about(rows[i])
    ensures forall j | i < j < |rows| :: !about(rows[j])
  {
    if rows == [] then -1 else if about(rows[|rows| - 1]) then |rows| - 1 else LastRow(rows[..|rows| - 1], about)
  }

  /** A channel point has a route exactly if a valid row is about it; the last one names its instance point. */
  ghost predicate HoldsMeasurements(rows: seq<MeasurementRow>, table: map<RouteKey, C2MTarget>) {
    forall k: RouteKey ::
      var i := LastRow(rows, row => RoutesMeasurement(row, k));
      && (k in table <==> i >= 0)
      && (k in table ==> table[k].instance == rows[i].instance && table[k].point == rows[i].measurement)
  }

  /** An instance action has a route exactly if a valid row is about it; the last one names its channel point. */
  ghost predicate HoldsActions(rows: seq<ActionRow>, table: map<RouteKey, RouteKey>) {
    forall k: RouteKey ::
      var i := LastRow(rows, row => RoutesAction(row, k));
      && (k in table <==> i >= 0)
      && (k in table ==>
            && table[k].id == rows[i].channel && table[k].point == rows[i].channelPoint
            && FromStr(rows[i].channelType) == Some(table[k].kind))
  }

  /** The same for forwards, with the scale and offset of the row. */
  ghost predicate HoldsForwards(rows: seq<ForwardRow>, table: map<RouteKey, C2CTarget>) {
    forall k: RouteKey ::
      var i := LastRow(rows, row => RoutesForward(row, k));
      && (k in table <==> i >= 0)
      && (k in table ==>
            && table[k].key.id == rows[i].targetChannel && table[k].key.point == rows[i].targetPoint
            && FromStr(rows[i].targetType) == Some(table[k].key.kind)
            && table[k].scale == rows[i].scale && table[k].offset == rows[i].offset)
  }

  lemma {:induction false} MeasurementsByRow(rows: seq<MeasurementRow>)
    ensures HoldsMeasurements(rows, MeasurementRoutes(rows))
    decreases |rows|
  {
    if rows != [] {
      MeasurementsByRow(rows[..|rows| - 1]);
    }
  }

  lemma {:induction false} ActionsByRow(rows: seq<ActionRow>)
    ensures HoldsActions(rows, ActionRoutes(rows))
    decreases |rows|
  {
    if rows != [] {
      ActionsByRow(rows[..|rows| - 1]);
    }
  }

  lemma {:induction false} ForwardsByRow(rows: seq<ForwardRow>)
    ensures HoldsForwards(rows, ForwardRoutes(rows))
    decreases |rows|
  {
    if rows != [] {
      ForwardsByRow(rows[..|rows| - 1]);
    }
  }

  /** The string map prints the structured one: the same routes, and nothing else. */
  ghost predicate Prints<T>(texts: map<string, string>, show: T -> string, routes: map<RouteKey, T>) {
    && (forall s | s in texts :: exists k :: k in routes && s == KeyText(k))
    && (forall k | k in routes :: KeyText(k) in texts && texts[KeyText(k)] == show(routes[k]))
  }

  lemma PrintsInsert<T>(texts: map<string, string>, show: T -> string, routes: map<RouteKey, T>, k: RouteKey, v: T)
    requires Prints(texts, show, routes)
    ensures Prints(texts[KeyText(k) := show(v)], show, routes[k := v])
  {
    var texts', routes' := texts[KeyText(k) := show(v)], routes[k := v];
    forall s | s in texts'
      ensures exists l :: l in routes' && s == KeyText(l)
    {
      if s != KeyText(k) {
        var l :| l in routes && s == KeyText(l);
        assert l in routes';
      } else {
        assert k in routes';
      }
    }
    forall l | l in routes'
      ensures KeyText(l) in texts' && texts'[KeyText(l)] == show(routes'[l])
    {
      if l != k && KeyText(l) == KeyText(k) {
        KeyTextInjective(l, k);
      }
    }
  }

  /** The text of a channel point is a key exactly if a valid row is about it; the last one gives the text it maps to. */
  ghost predicate HoldsTexts(rows: seq<MeasurementRow>, texts: map<string, string>) {
    forall k: RouteKey ::
      var i := LastRow(rows, row => RoutesMeasurement(row, k));
      && (KeyText(k) in texts <==> i >= 0)
      && (i >= 0 ==>
            texts[KeyText(k)] == Decimal.Text(rows[i].instance) + ":M:" + Decimal.Text(rows[i].measurement))
  }

  lemma KeyIsPrinted<T>(texts: map<string, string>, show: T -> string, routes: map<RouteKey, T>, k: RouteKey)
    requires Prints(texts, show, routes)
    ensures KeyText(k) in texts <==> k in routes
  {
    if KeyText(k) in texts {
      var l :| l in routes && KeyText(k) == KeyText(l);
      KeyTextInjective(k, l);
    }
  }

  lemma TargetText(t: C2MTarget)
    ensures ShowC2M(t) == Decimal.Text(t.instance) + ":M:" + Decimal.Text(t.point)
  {
    var a, b := Decimal.Text(t.instance), Decimal.Text(t.point);
    assert a + ":" + ("M" + ":" + b) == a + ":M:" + b;
  }

  lemma {:induction false} MeasurementTexts(rows: seq<MeasurementRow>, texts: map<string, string>)
    requires Prints(texts, ShowC2M, MeasurementRoutes(rows))
    ensures HoldsTexts(rows, texts)
  {
    var routes := MeasurementRoutes(rows);
    MeasurementsByRow(rows);
    forall k: RouteKey
      ensures KeyText(k) in texts <==> k in routes
      ensures k in routes ==>
                texts[KeyText(k)] == Decimal.Text(routes[k].instance) + ":M:" + Decimal.Text(routes[k].point)
    {
      KeyIsPrinted(texts, ShowC2M, routes, k);
      if k in routes {
        TargetText(routes[k]);
      }
    }
  }

  function Skipped(types: seq<string>): nat {
    if types == [] then 0
    else Skipped(types[..|types| - 1]) + if FromStr(types[|types| - 1]).None? then 1 else 0
  }

  function MeasurementTypes(rows: seq<MeasurementRow>): seq<string> {
    seq(|rows|, i requires 0 <= i < |rows| => rows[i].channelType)
  }

  function ActionTypes(rows: seq<ActionRow>): seq<string> {
    seq(|rows|, i requires 0 <= i < |rows| => rows[i].channelType)
  }

  lemma SkippedStep(types: seq<string>, i: nat)
    requires i < |types|
    ensures Skipped(types[..i + 1]) == Skipped(types[..i]) + if FromStr(types[i]).None? then 1 else 0
  {
    assert types[..i + 1][..i] == types[..i];
  }

  method LoadC2M(rows: seq<MeasurementRow>) returns (texts: map<string, string>, skipped: nat)
    ensures Prints(texts, ShowC2M, MeasurementRoutes(rows)) && HoldsTexts(rows, texts)
    ensures skipped == Skipped(MeasurementTypes(rows))
  {
    texts, skipped := map[], 0;
    for i := 0 to |rows|
      invariant Prints(texts, ShowC2M, MeasurementRoutes(rows[..i]))
      invariant skipped == Skipped(MeasurementTypes(rows)[..i])
    {
      var row := rows[i];
      assert rows[..i + 1][..i] == rows[..i];
      SkippedStep(MeasurementTypes(rows), i);
      var kind := FromStr(row.channelType);
      if kind.None? {
        skipped := skipped + 1;
        continue;
      }
      var key, target := RouteKey(row.channel, kind.value, row.channelPoint), C2MTarget(row.instance, row.measurement);
      PrintsInsert(texts, ShowC2M, MeasurementRoutes(rows[..i]), key, target);
      texts := texts[KeyText(key) := ShowC2M(target)];
    }
    assert rows[..|rows|] == rows && MeasurementTypes(rows)[..|rows|] == MeasurementTypes(rows);
    MeasurementTexts(rows, texts);
  }

  method LoadM2C(rows: seq<ActionRow>) returns (texts: map<string, string>, skipped: nat)
    ensures Prints(texts, KeyText, ActionRoutes(rows))
    ensures skipped == Skipped(ActionTypes(rows))
  {
    texts, skipped := map[], 0;
    for i := 0 to |rows|
      invariant Prints(texts, KeyText, ActionRoutes(rows[..i]))
      invariant skipped == Skipped(ActionTypes(rows)[..i])
    {
      var row := rows[i];
      assert rows[..i + 1][..i] == rows[..i];
      SkippedStep(ActionTypes(rows), i);
      var kind := FromStr(row.channelType);
      if kind.None? {
        skipped := skipped + 1;
        continue;
      }
      var key, target := RouteKey(row.instance, Adjustment, row.action), RouteKey(row.channel, kind.value, row.channelPoint);
      PrintsInsert(texts, KeyText, ActionRoutes(rows[..i]), key, target);
      texts := texts[KeyText(key) := KeyText(target)];
    }
    assert rows[..|rows|] == rows && ActionTypes(rows)[..|rows|] == ActionTypes(rows);
  }

  method LoadC2C(rows: seq<ForwardRow>, display: real -> string) returns (texts: map<string, string>)
    ensures Prints(texts, t => ShowC2C(display, t), ForwardRoutes(rows))
  {
    texts := map[];
    var show := t => ShowC2C(display, t);
    for i := 0 to |rows|
      invariant Prints(texts, show, ForwardRoutes(rows[..i]))
    {
      var row := rows[i];
      assert rows[..i + 1][..i] == rows[..i];
      var source := FromStr(row.sourceType);
      if source.None? {
        continue;
      }
      var target := FromStr(row.targetType);
      if target.None? {
        continue;
      }
      var from := RouteKey(row.sourceChannel, source.value, row.sourcePoint);
      var to := C2CTarget(RouteKey(row.targetChannel, target.value, row.targetPoint), row.scale, row.offset);
      PrintsInsert(texts, show, ForwardRoutes(rows[..i]), from, to);
      texts := texts[KeyText(from) := ShowC2C(display, to)];
    }
    assert rows[..|rows|] == rows;
  }

  // ---------------------------------------------------------------- the cache

  /** An entry of a string map that the cache accepts, and what it makes of it. */
  ghost predicate Entry<T>(texts: map<string, string>, parse: string -> Option<T>, s: string, k: RouteKey, v: T) {
    s in texts && ParseRouteKey(s) == Some(k) && parse(texts[s]) == Some(v)
  }

  /** The table holds accepted entries only, and one for every accepted key. */
  ghost predicate Reads<T(!new)>(texts: map<string, string>, parse: string -> Option<T>, table: map<RouteKey, T>) {
    && (forall k | k in table :: exists s :: Entry(texts, parse, s, k, table[k]))
    && (forall s, k, v | Entry(texts, parse, s, k, v) :: k in table)
  }

  /** Every value of the table reads back from its text. */
  ghost predicate Restores<T>(show: T -> string, parse: string -> Option<T>, routes: map<RouteKey, T>) {
    forall k | k in routes :: parse(show(routes[k])) == Some(routes[k])
  }

  lemma PrintedEntry<T(!new)>(texts: map<string, string>, show: T -> string, parse: string -> Option<T>,
                              routes: map<RouteKey, T>, s: string, k: RouteKey, v: T)
    requires Prints(texts, show, routes) && Restores(show, parse, routes)
    ensures Entry(texts, parse, s, k, v) <==> k in routes && routes[k] == v && s == KeyText(k)
  {
    KeyRoundTrip(k);
    if s in texts {
      var l :| l in routes && s == KeyText(l);
      KeyRoundTrip(l);
    }
  }

  ghost predicate SameAt<T>(table: map<RouteKey, T>, routes: map<RouteKey, T>, k: RouteKey) {
    (k in table <==> k in routes) && (k in table ==> table[k] == routes[k])
  }

  lemma SameEverywhere<T>(table: map<RouteKey, T>, routes: map<RouteKey, T>)
    requires forall k :: SameAt(table, routes, k)
    ensures table == routes
  {
    assert forall k | k in table :: SameAt(table, routes, k);
    assert forall k | k in routes :: SameAt(table, routes, k);
    assert table.Keys == routes.Keys;
  }

  lemma ReadsKey<T(!new)>(texts: map<string, string>, show: T -> string, parse: string -> Option<T>,
                          routes: map<RouteKey, T>, table: map<RouteKey, T>, k: RouteKey)
    requires Prints(texts, show, routes) && Restores(show, parse, routes)
    requires Reads(texts, parse, table)
    ensures SameAt(table, routes, k)
  {
    if k in routes {
      PrintedEntry(texts, show, parse, routes, KeyText(k), k, routes[k]);
    }
    if k in table {
      var s :| Entry(texts, parse, s, k, table[k]);
      PrintedEntry(texts, show, parse, routes, s, k, table[k]);
    }
  }

  /** Parsing what the loader printed gives the routes back. */
  lemma ReadsWhatWasPrinted<T(!new)>(texts: map<string, string>, show: T -> string, parse: string -> Option<T>,
                                     routes: map<RouteKey, T>, table: map<RouteKey, T>)
    requires Prints(texts, show, routes) && Restores(show, parse, routes)
    requires Reads(texts, parse, table)
    ensures table == routes
  {
    forall k
      ensures SameAt(table, routes, k)
    {
      ReadsKey(texts, show, parse, routes, table, k);
    }
    SameEverywhere(table, routes);
  }

  type ReverseTable = map<C2MTarget, RouteKey>

  /** The reverse table points to channels that route there, and covers every routed instance point. */
  predicate Inverts(reverse: ReverseTable, table: map<RouteKey, C2MTarget>) {
    && (forall t | t in reverse :: reverse[t] in table && table[reverse[t]] == t)
    && (forall k | k in table :: table[k] in reverse)
  }

  /** The source's loop, over the entries in any order. */
  method BuildTable<T(!new)>(texts: map<string, string>, parse: string -> Option<T>) returns (table: map<RouteKey, T>)
    ensures Reads(texts, parse, table)
  {
    table := map[];
    var rest := texts.Keys;
    while rest != {}
      invariant rest <= texts.Keys
      invariant forall k | k in table :: exists s :: Entry(texts, parse, s, k, table[k])
      invariant forall s, k, v | Entry(texts, parse, s, k, v) && s !in rest :: k in table
    {
      var s :| s in rest;
      rest := rest - {s};
      var key, value := ParseRouteKey(s), parse(texts[s]);
      if key.Some? && value.Some? {
        assert Entry(texts, parse, s, key.value, value.value);
        table := table[key.value := value.value];
      }
    }
  }

  predicate Accepts(texts: map<string, string>, s: string) {
    s in texts && ParseRouteKey(s).Some? && ParseC2MTarget(texts[s]).Some?
  }

  /** The forward table after the entries of `order`. */
  function Forward(texts: map<string, string>, order: seq<string>): map<RouteKey, C2MTarget> {
    if order == [] then map[]
    else
      var before, s := Forward(texts, order[..|order| - 1]), order[|order| - 1];
      if Accepts(texts, s) then before[ParseRouteKey(s).value := ParseC2MTarget(texts[s]).value] else before
  }

  /** The reverse table after the entries of `order`. */
  function Backward(texts: map<string, string>, order: seq<string>): ReverseTable {
    if order == [] then map[]
    else
      var before, s := Backward(texts, order[..|order| - 1]), order[|order| - 1];
      if Accepts(texts, s) then before[ParseC2MTarget(texts[s]).value := ParseRouteKey(s).value] else before
  }

  /** A hash map may hand out its entries in any such order. */
  predicate IsOrder(texts: map<string, string>, order: seq<string>) {
    NoRepeats(order) && Elements(order) == texts.Keys
  }

  /** The loop for measurements also builds the reverse table. */
  method BuildC2M(texts: map<string, string>)
    returns (table: map<RouteKey, C2MTarget>, reverse: ReverseTable, ghost order: seq<string>)
    ensures IsOrder(texts, order) && table == Forward(texts, order) && reverse == Backward(texts, order)
    ensures Reads(texts, ParseC2MTarget, table)
    ensures OneTarget(texts) ==> Inverts(reverse, table)
  {
    table, reverse, order := map[], map[], [];
    var rest := texts.Keys;
    while rest != {}
      invariant rest <= texts.Keys && NoRepeats(order) && Elements(order) == texts.Keys - rest
      invariant table == Forward(texts, order) && reverse == Backward(texts, order)
    {
      var s :| s in rest;
      rest := rest - {s};
      OrderStep(order, s);
      table, reverse := InsertEntry(texts, s, table, reverse, order);
      order := order + [s];
    }
    ForwardReads(texts, order);
    if OneTarget(texts) {
      OneTargetInverts(texts, order);
    }
  }

  method InsertEntry(texts: map<string, string>, s: string, table: map<RouteKey, C2MTarget>, reverse: ReverseTable,
                     ghost order: seq<string>)
    returns (table': map<RouteKey, C2MTarget>, reverse': ReverseTable)
    requires s in texts && table == Forward(texts, order) && reverse == Backward(texts, order)
    ensures table' == Forward(texts, order + [s]) && reverse' == Backward(texts, order + [s])
  {
    assert (order + [s])[..|order|] == order;
    table', reverse' := table, reverse;
    var key, value := ParseRouteKey(s), ParseC2MTarget(texts[s]);
    if key.Some? && value.Some? {
      table', reverse' := table[key.value := value.value], reverse[value.value := key.value];
    }
  }

  lemma OrderStep(order: seq<string>, s: string)
    ensures NoRepeats(order) && s !in Elements(order) ==> NoRepeats(order + [s])
    ensures Elements(order + [s]) == Elements(order) + {s}
  {
    ElementsAppend(order, s);
    assert forall i | 0 <= i < |order| :: order[i] in Elements(order);
  }

  /** No two entries give one channel point two targets. */
  ghost predicate OneTarget(texts: map<string, string>) {
    forall s, t | Accepts(texts, s) && Accepts(texts, t) && ParseRouteKey(s) == ParseRouteKey(t) ::
      ParseC2MTarget(texts[s]) == ParseC2MTarget(texts[t])
  }

  lemma InvertsInsert(reverse: ReverseTable, table: map<RouteKey, C2MTarget>, k: RouteKey, t: C2MTarget)
    requires Inverts(reverse, table) && (k in table ==> table[k] == t)
    ensures Inverts(reverse[t := k], table[k := t])
  {
  }

  lemma {:induction false} ForwardHolds(texts: map<string, string>, order: seq<string>, k: RouteKey)
    ensures k in Forward(texts, order) <==> exists s :: s in order && Accepts(texts, s) && ParseRouteKey(s) == Some(k)
    ensures k in Forward(texts, order) ==>
            exists s :: s in order && Entry(texts, ParseC2MTarget, s, k, Forward(texts, order)[k])
  {
    if order != [] {
      var before, s := order[..|order| - 1], order[|order| - 1];
      assert order == before + [s];
      ForwardHolds(texts, before, k);
      if Accepts(texts, s) && ParseRouteKey(s) == Some(k) {
        assert Entry(texts, ParseC2MTarget, s, k, Forward(texts, order)[k]);
      }
    }
  }

  lemma ForwardReads(texts: map<string, string>, order: seq<string>)
    requires IsOrder(texts, order)
    ensures Reads(texts, ParseC2MTarget, Forward(texts, order))
  {
    var table := Forward(texts, order);
    forall k | k in table
      ensures exists s :: Entry(texts, ParseC2MTarget, s, k, table[k])
    {
      ForwardHolds(texts, order, k);
    }
    forall s, k, v | Entry(texts, ParseC2MTarget, s, k, v)
      ensures k in table
    {
      assert s in Elements(order) && Accepts(texts, s);
      ForwardHolds(texts, order, k);
    }
  }

  lemma {:induction false} OneTargetInverts(texts: map<string, string>, order: seq<string>)
    requires OneTarget(texts)
    ensures Inverts(Backward(texts, order), Forward(texts, order))
  {
    if order != [] {
      var before, s := order[..|order| - 1], order[|order| - 1];
      OneTargetInverts(texts, before);
      if Accepts(texts, s) {
        var k, v := ParseRouteKey(s).value, ParseC2MTarget(texts[s]).value;
        ForwardHolds(texts, before, k);
        if k in Forward(texts, before) {
          var t :| t in before && Entry(texts, ParseC2MTarget, t, k, Forward(texts, before)[k]);
          assert Accepts(texts, t);
        }
        InvertsInsert(Backward(texts, before), Forward(texts, before), k, v);
      }
    }
  }

  lemma {:induction false} SomeOrder(keys: set<string>) returns (order: seq<string>)
    ensures NoRepeats(order) && Elements(order) == keys
  {
    if keys == {} {
      order := [];
    } else {
      var s :| s in keys;
      var rest := SomeOrder(keys - {s});
      assert s !in Elements(rest);
      ElementsAppend(rest, s);
      order := rest + [s];
    }
  }

  /** Two targets for one channel point: in some order of the entries the reverse table points to the wrong one. */
  lemma TwoTargetsDisagree(texts: map<string, string>, s: string, t: string) returns (order: seq<string>)
    requires Accepts(texts, s) && Accepts(texts, t) && ParseRouteKey(s) == ParseRouteKey(t)
    requires ParseC2MTarget(texts[s]) != ParseC2MTarget(texts[t])
    ensures IsOrder(texts, order) && !Inverts(Backward(texts, order), Forward(texts, order))
  {
    var rest := SomeOrder(texts.Keys - {s, t});
    assert s !in Elements(rest) && t !in Elements(rest);
    order := rest + [s] + [t];
    assert order[..|order| - 1] == rest + [s] && (rest + [s])[..|rest|] == rest;
    assert Elements(order) == Elements(rest) + {s, t};
    var v := ParseC2MTarget(texts[s]).value;
    assert v in Backward(texts, order) && Backward(texts, order)[v] == ParseRouteKey(s).value;
  }

  lemma SpellingsOfOne()
    ensures ParseRouteKey("1:T:1") == ParseRouteKey("01:T:1") == Some(RouteKey(1, Telemetry, 1))
  {
    SplitThree("1", "T", "1");
    SplitThree("01", "T", "1");
    assert Colons("1", "T", "1") == "1:T:1" && Colons("01", "T", "1") == "01:T:1";
    assert "1"[..0] == "" && "01"[..1] == "0" && "0"[..0] == "";
    assert ParseU32("1") == Some(1) && ParseU32("01") == Some(1);
  }

  /** Two spellings of one key: both are accepted, and their targets differ. */
  lemma TwoSpellings(instance: U32, a: U32, b: U32)
    requires a != b
    ensures var texts := map["1:T:1" := ShowC2M(C2MTarget(instance, a)), "01:T:1" := ShowC2M(C2MTarget(instance, b))];
            !OneTarget(texts) && exists order :: IsOrder(texts, order) && !Inverts(Backward(texts, order), Forward(texts, order))
  {
    var texts := map["1:T:1" := ShowC2M(C2MTarget(instance, a)), "01:T:1" := ShowC2M(C2MTarget(instance, b))];
    SpellingsOfOne();
    C2MRoundTrip(C2MTarget(instance, a));
    C2MRoundTrip(C2MTarget(instance, b));
    assert Accepts(texts, "1:T:1") && Accepts(texts, "01:T:1");
    var order := TwoTargetsDisagree(texts, "1:T:1", "01:T:1");
  }

  /** The reverse table inverts the forward one in every order of the entries if and only if targets are unique. */
  lemma ReverseIsConsistent(texts: map<string, string>)
    ensures OneTarget(texts) <==>
            forall order | IsOrder(texts, order) :: Inverts(Backward(texts, order), Forward(texts, order))
  {
    if OneTarget(texts) {
      forall order | IsOrder(texts, order) {
        OneTargetInverts(texts, order);
      }
    } else {
      var s, t :| Accepts(texts, s) && Accepts(texts, t) && ParseRouteKey(s) == ParseRouteKey(t) &&
                  ParseC2MTarget(texts[s]) != ParseC2MTarget(texts[t]);
      var order := TwoTargetsDisagree(texts, s, t);
    }
  }

  lemma PrintedOneTarget(texts: map<string, string>, routes: map<RouteKey, C2MTarget>)
    requires Prints(texts, ShowC2M, routes)
    ensures OneTarget(texts)
  {
    forall s, t | Accepts(texts, s) && Accepts(texts, t) && ParseRouteKey(s) == ParseRouteKey(t)
      ensures s == t
    {
      var k :| k in routes && s == KeyText(k);
      var l :| l in routes && t == KeyText(l);
      KeyRoundTrip(k);
      KeyRoundTrip(l);
    }
  }

  /** From rows to tables: exactly the routes the rows mean, and a reverse table that inverts them. */
  method LoadMeasurements(rows: seq<MeasurementRow>) returns (c2m: map<RouteKey, C2MTarget>, reverse: ReverseTable)
    ensures c2m == MeasurementRoutes(rows) && HoldsMeasurements(rows, c2m) && Inverts(reverse, c2m)
  {
    var texts, skipped := LoadC2M(rows);
    ghost var order;
    c2m, reverse, order := BuildC2M(texts);
    var routes := MeasurementRoutes(rows);
    forall k | k in routes
      ensures ParseC2MTarget(ShowC2M(routes[k])) == Some(routes[k])
    {
      C2MRoundTrip(routes[k]);
    }
    PrintedOneTarget(texts, MeasurementRoutes(rows));
    MeasurementsByRow(rows);
    ReadsWhatWasPrinted(texts, ShowC2M, ParseC2MTarget, MeasurementRoutes(rows), c2m);
  }

  method LoadActions(rows: seq<ActionRow>) returns (m2c: map<RouteKey, RouteKey>)
    ensures m2c == ActionRoutes(rows) && HoldsActions(rows, m2c)
  {
    var texts, skipped := LoadM2C(rows);
    m2c := BuildTable(texts, ParseRouteKey);
    var routes := ActionRoutes(rows);
    forall k | k in routes
      ensures ParseRouteKey(KeyText(routes[k])) == Some(routes[k])
    {
      KeyRoundTrip(routes[k]);
    }
    ReadsWhatWasPrinted(texts, KeyText, ParseRouteKey, ActionRoutes(rows), m2c);
    ActionsByRow(rows);
  }

  lemma {:induction false} ForwardRouteHasRow(rows: seq<ForwardRow>, k: RouteKey)
    requires k in ForwardRoutes(rows)
    ensures exists row :: row in rows && row.scale == ForwardRoutes(rows)[k].scale && row.offset == ForwardRoutes(rows)[k].offset
  {
    var before, row := rows[..|rows| - 1], rows[|rows| - 1];
    assert row in rows && forall other | other in before :: other in rows;
    var source, target := FromStr(row.sourceType), FromStr(row.targetType);
    if source.None? || target.None? || k != RouteKey(row.sourceChannel, source.value, row.sourcePoint) {
      ForwardRouteHasRow(before, k);
    }
  }

  method LoadForwards(rows: seq<ForwardRow>, display: real -> string, read: string -> Option<real>)
    returns (c2c: map<RouteKey, C2CTarget>)
    requires forall row | row in rows :: Lossless(display, read, row.scale, row.offset)
    ensures c2c == ForwardRoutes(rows) && HoldsForwards(rows, c2c)
  {
    var show, parse := t => ShowC2C(display, t), s => ParseC2C(read, s);
    var texts := LoadC2C(rows, display);
    c2c := BuildTable(texts, parse);
    var routes := ForwardRoutes(rows);
    forall k | k in routes
      ensures parse(show(routes[k])) == Some(routes[k])
    {
      ForwardRouteHasRow(rows, k);
      C2CRoundTrip(display, read, routes[k]);
    }
    assert Prints(texts, show, ForwardRoutes(rows));
    ReadsWhatWasPrinted(texts, show, parse, ForwardRoutes(rows), c2c);
    ForwardsByRow(rows);
  }

  /** The reverse table is a two-sided inverse exactly when no two channel points share an instance point. */
  lemma InverseIffInjective(reverse: ReverseTable, table: map<RouteKey, C2MTarget>)
    requires Inverts(reverse, table)
    ensures (forall k | k in table :: reverse[table[k]] == k) <==>
            (forall k, l | k in table && l in table && table[k] == table[l] :: k == l)
  {
    if forall k | k in table :: reverse[table[k]] == k {
      assert forall k, l | k in table && l in table && table[k] == table[l] :: k == reverse[table[k]] == l;
    }
  }
}
