// The report as a whole: read back by a walk, and carried as text.
module Body525Walk {
  import opened Wrappers
  import opened CStrings
  import opened JsonTree
  import opened JsonText
  import opened JsonRoundTrip
  import opened JsonStrings
  import opened Doubles
  import opened JsonDoubles
  import opened JsonWrap
  import opened Body525
  import JsonLibrary

  // ---------------------------------------------------------------------------------------
  // The walk

  // What the getter of a kind returns.
  datatype Got = RealGot(x: real) | TextGot(s: Option<CString>) | IntGot(n: Option<int>)

  function AsGot(kind: Kind, value: Option<Json>): Got {
    match kind
    case Sensor => RealGot(NumberOf(value))
    case Textual => TextGot(TextOf(value))
    case Integer => IntGot(Converted(NumberOf(value)))
    case RealNumber => RealGot(NumberOf(value))
  }

  // What was set is what is got, an integer and a text also after the report has been sent as text.
  lemma SetIsGot(x: real, n: int, s: CString, strtod: real -> real)
    requires -0x8000_0000 <= n < 0x8000_0000
    ensures AsGot(Sensor, Some(Number(x))) == RealGot(x) == AsGot(RealNumber, Some(Number(x)))
    ensures AsGot(Integer, Some(Number(n as real))) == IntGot(Some(n))
    ensures AsGot(Textual, Str(Some(s))) == TextGot(Some(s)) == AsGot(Textual, ValueAsRead(Str(Some(s)), strtod))
    ensures RoundsAll(strtod) ==> AsGot(Integer, ValueAsRead(Some(Number(n as real)), strtod)) == IntGot(Some(n))
    ensures AsGot(RealNumber, ValueAsRead(Some(Number(x)), strtod)) == RealGot(strtod(NumberAsRead(x)))
  {
    hide RoundsAll, IsDouble, Converted;
    ConvertedWhole(n);
    if RoundsAll(strtod) {
      WholeIsKept(n as real);
      WholeIsDouble(n);
      DoubleIsKept(n as real, strtod);
    }
    hide NumberAsRead;
  }

  lemma ConvertedWhole(n: int)
    ensures Converted(n as real) == if -0x8000_0000 <= n < 0x8000_0000 then Some(n) else None
  {
    assert (n as real).Floor == n && (-(n as real)) == (-n) as real;
  }

  lemma WholeIsDouble(n: int)
    requires -0x8000_0000 <= n < 0x8000_0000
    ensures IsDouble(n as real)
  {
    SmallPowers();
    hide Pow2;
    FractionIsDouble(n, 0);
  }

  datatype Reading = Reading(devId: Option<CString>, tag: Option<CString>, value: Got)

  function RowReadings(d: Device, row: Row, kind: Kind): (r: seq<Reading>)
    ensures |r| == |Of(row, kind)|
  {
    var items := Of(row, kind);
    seq(|items|, i requires 0 <= i < |items| => Reading(d.devId, items[i].tag, AsGot(kind, items[i].value)))
  }

  function DeviceReadings(d: Device, kind: Kind): (r: seq<seq<Reading>>)
    ensures |r| == |d.rows|
  {
    seq(|d.rows|, j requires 0 <= j < |d.rows| => RowReadings(d, d.rows[j], kind))
  }

  // The devices in front of the first one without a row. A walk cannot tell such a device from
  // the end of the report, since both give -1.
  function Reachable(ds: seq<Device>): (n: nat)
    ensures n <= |ds| && (n < |ds| ==> ds[n].rows == []) && forall i :: 0 <= i < n ==> ds[i].rows != []
    ensures n == |ds| <==> forall i :: 0 <= i < |ds| ==> ds[i].rows != []
  {
    if ds == [] || ds[0].rows == [] then 0 else 1 + Reachable(ds[1..])
  }

  // One item through the getter of its kind.
  method Read(body: IMPacketBody, kind: Kind, idx: int) returns (rc: int, r: Reading)
    ensures rc == if body.AtRow() && 0 <= idx < |Of(body.Current(), kind)| then 0 else -1
    ensures rc == 0 ==> r == RowReadings(body.Devices()[body.devColecDataIdx], body.Current(), kind)[idx]
  {
    hide DevicesOf;
    var devId, tag;
    match kind
    case Sensor =>
      var x;
      rc, devId, tag, x := body.GetNumdataWithIndex(idx);
      r := Reading(devId, tag, RealGot(x));
    case Textual =>
      var s;
      rc, devId, tag, s := body.GetStrdataWithIndex(idx);
      r := Reading(devId, tag, TextGot(s));
    case Integer =>
      var n;
      rc, devId, tag, n := body.GetIntegerdataWithIndex(idx);
      r := Reading(devId, tag, IntGot(n));
    case RealNumber =>
      var x;
      rc, devId, tag, x := body.GetFloatdataWithIndex(idx);
      r := Reading(devId, tag, RealGot(x));
  }

  // The items of one kind in the current row, until there are no more.
  method WalkRow(body: IMPacketBody, kind: Kind) returns (r: seq<Reading>)
    requires body.AtRow()
    ensures r == RowReadings(body.Devices()[body.devColecDataIdx], body.Current(), kind)
  {
    hide DevicesOf, RowReadings;
    r := [];
    ghost var all := RowReadings(body.Devices()[body.devColecDataIdx], body.Current(), kind);
    while true
      invariant |r| <= |all| && r == all[..|r|]
      decreases |all| - |r|
    {
      var rc, item := Read(body, kind, |r|);
      if rc != 0 {
        break;
      }
      r := r + [item];
    }
  }

  // The rows of the current device, until there are no more.
  method WalkDevice(body: IMPacketBody, kind: Kind) returns (r: seq<seq<Reading>>)
    requires body.AtDevice() && body.colecRowIdx == 0
    modifies body`colecRowIdx
    ensures r == DeviceReadings(body.Devices()[body.devColecDataIdx], kind)
  {
    hide DevicesOf;
    r := [];
    ghost var all := DeviceReadings(body.Devices()[body.devColecDataIdx], kind);
    while true
      invariant |r| <= |all| && r == all[..|r|] && body.colecRowIdx == |r|
      decreases |all| - |r|
    {
      var rc, group := body.GetGroupTagCode();
      if rc != 0 {
        break;
      }
      var row := WalkRow(body, kind);
      r := r + [row];
      body.NextColecRowIdx();
    }
  }

  // Every item of a kind, by device and row, in order, up to the first device without a row.
  method Walk(body: IMPacketBody, kind: Kind) returns (r: seq<seq<seq<Reading>>>)
    modifies body`devColecDataIdx, body`colecRowIdx
    ensures |r| == Reachable(body.Devices())
    ensures forall i :: 0 <= i < |r| ==> r[i] == DeviceReadings(body.Devices()[i], kind)
  {
    hide DevicesOf, DeviceReadings;
    r := [];
    body.StartParse();
    while true
      invariant |r| <= Reachable(body.Devices()) && body.devColecDataIdx == |r| && body.colecRowIdx == 0
      invariant forall i :: 0 <= i < |r| ==> r[i] == DeviceReadings(body.Devices()[i], kind)
      decreases Reachable(body.Devices()) - |r|
    {
      var rc, group := body.GetGroupTagCode();
      if rc != 0 {
        break;
      }
      var device := WalkDevice(body, kind);
      r := r + [device];
      body.NextDevColecDataIdx();
    }
  }

  // ---------------------------------------------------------------------------------------
  // What is found in a tree that was written and read

  function ValueAsRead(v: Option<Json>, strtod: real -> real): Option<Json> {
    if v.None? then None else Some(ReadBack(v.value, strtod))
  }

  function ItemsAsRead(items: seq<Item>, strtod: real -> real): seq<Item> {
    seq(|items|, i requires 0 <= i < |items| => items[i].(value := ValueAsRead(items[i].value, strtod)))
  }

  function RowAsRead(r: Row, strtod: real -> real): Row {
    Row(r.occDt, r.group, ItemsAsRead(r.sensors, strtod), ItemsAsRead(r.texts, strtod),
        ItemsAsRead(r.integers, strtod), ItemsAsRead(r.reals, strtod))
  }

  function DeviceAsRead(d: Device, strtod: real -> real): Device {
    d.(rows := seq(|d.rows|, i requires 0 <= i < |d.rows| => RowAsRead(d.rows[i], strtod)))
  }

  // The same report with its numbers to the sixth decimal.
  function DevicesAsRead(ds: seq<Device>, strtod: real -> real): (r: seq<Device>)
    ensures |r| == |ds|
  {
    seq(|ds|, i requires 0 <= i < |ds| => DeviceAsRead(ds[i], strtod))
  }

  lemma SameFind(ms: seq<Member>, ns: seq<Member>, name: CString)
    requires |ms| == |ns| && forall i :: 0 <= i < |ms| ==> ms[i].name == ns[i].name
    ensures Find(ms, name) == Find(ns, name)
  {
    var k, l := Find(ms, name), Find(ns, name);
    assert k < |ms| ==> ns[k].name == name;
    assert l < |ns| ==> ms[l].name == name;
  }

  lemma GetAsRead(v: Json, name: CString, strtod: real -> real)
    ensures Get(ReadBack(v, strtod), name) == ValueAsRead(Get(v, name), strtod)
    ensures TextOf(Get(ReadBack(v, strtod), name)) == TextOf(Get(v, name))
  {
    if v.Object? {
      ReadBackAlike(v, strtod);
      SameFind(v.members, ReadBack(v, strtod).members, name);
      var k := Find(v.members, name);
      if k < |v.members| {
        assert Child(ReadBack(v, strtod), k) == ReadBack(Child(v, k), strtod);
      }
    }
  }

  lemma ItemsAreRead(v: Json, name: CString, strtod: real -> real)
    ensures var xs, ys := Items(v, name), Items(ReadBack(v, strtod), name);
      |ys| == |xs| && forall i :: 0 <= i < |xs| ==> ys[i] == ReadBack(xs[i], strtod)
  {
    GetAsRead(v, name, strtod);
    var a := Get(v, name);
    if a.Some? && a.value.Array? {
      ReadBackAlike(a.value, strtod);
      assert forall i :: 0 <= i < |a.value.items| ==> ReadBack(a.value, strtod).items[i] == ReadBack(a.value.items[i], strtod);
    }
  }

  lemma ListIsRead(v: Json, kind: Kind, strtod: real -> real)
    ensures ItemsOf(ReadBack(v, strtod), kind) == ItemsAsRead(ItemsOf(v, kind), strtod)
  {
    hide Name, ReadBack, Get;
    var xs, ys := Items(v, Name(ListName(kind))), Items(ReadBack(v, strtod), Name(ListName(kind)));
    ItemsAreRead(v, Name(ListName(kind)), strtod);
    hide Items;
    forall i | 0 <= i < |xs|
      ensures ItemOf(ys[i], kind) == ItemOf(xs[i], kind).(value := ValueAsRead(ItemOf(xs[i], kind).value, strtod))
    {
      GetAsRead(xs[i], Name(TagName(kind)), strtod);
      GetAsRead(xs[i], Name(ValueName(kind)), strtod);
    }
    hide ItemOf;
    assert |ItemsOf(ReadBack(v, strtod), kind)| == |xs|;
  }

  lemma RowIsRead(v: Json, strtod: real -> real)
    ensures RowOf(ReadBack(v, strtod)) == RowAsRead(RowOf(v), strtod)
  {
    hide Name, ReadBack, Get, ItemsOf, ItemsAsRead;
    GetAsRead(v, Name(OccDt), strtod);
    GetAsRead(v, Name(GroupTagCd), strtod);
    ListIsRead(v, Sensor, strtod);
    ListIsRead(v, Textual, strtod);
    ListIsRead(v, Integer, strtod);
    ListIsRead(v, RealNumber, strtod);
  }

  lemma DeviceIsRead(v: Json, strtod: real -> real)
    ensures DeviceOf(ReadBack(v, strtod)) == DeviceAsRead(DeviceOf(v), strtod)
  {
    hide Name, ReadBack, Get, RowOf, RowAsRead;
    GetAsRead(v, Name(DevId), strtod);
    ItemsAreRead(v, Name(CnvyRowVOs), strtod);
    hide Items;
    var xs := Items(v, Name(CnvyRowVOs));
    forall i | 0 <= i < |xs|
      ensures RowOf(ReadBack(xs[i], strtod)) == RowAsRead(RowOf(xs[i]), strtod)
    {
      RowIsRead(xs[i], strtod);
    }
    assert |DeviceOf(ReadBack(v, strtod)).rows| == |xs|;
  }

  // What the readers find in any tree, they find in the tree that comes back from its text.
  lemma ReportIsRead(v: Json, strtod: real -> real)
    ensures DevicesOf(ReadBack(v, strtod)) == DevicesAsRead(DevicesOf(v), strtod)
  {
    hide Name, ReadBack, Get, DeviceOf, DeviceAsRead;
    ItemsAreRead(v, Name(DevCnvyDataVOs), strtod);
    hide Items;
    var xs := Items(v, Name(DevCnvyDataVOs));
    forall i | 0 <= i < |xs|
      ensures DeviceOf(ReadBack(xs[i], strtod)) == DeviceAsRead(DeviceOf(xs[i]), strtod)
    {
      DeviceIsRead(xs[i], strtod);
    }
    assert |DevicesOf(ReadBack(v, strtod))| == |xs|;
  }

  // ---------------------------------------------------------------------------------------
  // As text

  lemma {:induction false} GoodIsShallow(v: Json, n: nat)
    requires Good(v, n)
    ensures WellFormed(v) && Depth(v) <= n
    decreases v
  {
    if IsContainer(v) && Count(v) > 0 {
      forall i | 0 <= i < Count(v)
        ensures WellFormed(Child(v, i)) && Depth(Child(v, i)) < n
      {
        GoodIsShallow(Child(v, i), n - 1);
      }
      DepthBelow(v, 0, n);
    }
  }

  // Which strings a report holds.
  predicate CleanText(s: Option<CString>) {
    s.Some? ==> Clean(s.value)
  }

  predicate CleanValue(v: Option<Json>) {
    v.Some? ==> CleanStrings(v.value)
  }

  predicate CleanItem(item: Item) {
    CleanText(item.tag) && CleanValue(item.value)
  }

  predicate CleanRow(row: Row) {
    && CleanText(row.occDt) && CleanText(row.group)
    && forall kind: Kind, i :: 0 <= i < |Of(row, kind)| ==> CleanItem(Of(row, kind)[i])
  }

  predicate CleanDevice(d: Device) {
    CleanText(d.devId) && forall i :: 0 <= i < |d.rows| ==> CleanRow(d.rows[i])
  }

  // No stored string has a control byte without a short escape.
  predicate CleanReport(ds: seq<Device>, gateway: Option<Json>) {
    CleanValue(gateway) && forall i :: 0 <= i < |ds| ==> CleanDevice(ds[i])
  }

  predicate IsLong(k: Key) {
    k.DevCnvyDataVOs? || k.SnsnDataInfoVOs? || k.StrDataInfoVOs? || k.IntDataInfoVOs? || k.RlNumDataInfoVOs?
  }

  lemma LongNameIsClean(k: Key)
    requires IsLong(k)
    ensures Clean(Name(k))
  {
  }

  lemma ShortNameIsClean(k: Key)
    requires !IsLong(k)
    ensures Clean(Name(k))
  {
  }

  lemma NameIsClean(k: Key)
    ensures Clean(Name(k))
  {
    hide Name, Clean;
    if IsLong(k) {
      LongNameIsClean(k);
    } else {
      ShortNameIsClean(k);
    }
  }

  lemma KnownIsClean(v: Json)
    requires Known(v)
    ensures CleanStrings(v) <==> forall k: Key :: CleanValue(Get(v, Name(k)))
  {
    hide Name;
    if CleanStrings(v) {
      forall k: Key
        ensures CleanValue(Get(v, Name(k)))
      {
        hide CleanStrings;
        var i := Find(v.members, Name(k));
        if i < |v.members| {
          assert CleanStrings(Child(v, i));
        }
      }
    }
    if forall k: Key :: CleanValue(Get(v, Name(k))) {
      forall i | 0 <= i < Count(v)
        ensures CleanLabel(v, i) && CleanStrings(Child(v, i))
      {
        assert IsName(v.members[i].name);
        var k: Key :| v.members[i].name == Name(k);
        NameIsClean(k);
        FindDistinct(v.members, i);
        assert CleanValue(Get(v, Name(k)));
      }
    }
  }

  lemma ListIsClean(v: Json, key: Key)
    requires ListAt(v, key)
    ensures CleanValue(Get(v, Name(key))) <==>
      forall i :: 0 <= i < |Items(v, Name(key))| ==> CleanStrings(Items(v, Name(key))[i])
  {
    hide Name;
    var a := Get(v, Name(key));
    if a.Some? {
      ArrayIsClean(a.value.items);
      hide CleanStrings;
      assert a.value == Array(Items(v, Name(key)));
    }
  }

  lemma ArrayIsClean(items: seq<Json>)
    ensures CleanStrings(Array(items)) <==> forall i :: 0 <= i < |items| ==> CleanStrings(items[i])
  {
    var v := Array(items);
    assert forall i :: 0 <= i < |items| ==> Child(v, i) == items[i];
    if CleanStrings(v) {
      forall i | 0 <= i < |items|
        ensures CleanStrings(items[i])
      {
        assert CleanStrings(Child(v, i));
      }
    }
  }

  lemma ItemIsClean(v: Json, kind: Kind, item: Item)
    requires IsItem(v, kind, item)
    ensures CleanStrings(v) <==> CleanItem(item)
  {
    hide Name, Known, Get;
    KnownIsClean(v);
    assert CleanValue(Get(v, Name(TagName(kind)))) <==> CleanText(item.tag);
    assert CleanValue(Get(v, Name(ValueName(kind)))) <==> CleanValue(item.value);
    hide CleanStrings;
  }

  lemma RowIsClean(v: Json, row: Row)
    requires IsRow(v, row)
    ensures CleanStrings(v) <==> CleanRow(row)
  {
    hide Name, Known, Get, Items, Of;
    KnownIsClean(v);
    assert CleanValue(Get(v, Name(OccDt))) <==> CleanText(row.occDt);
    assert CleanValue(Get(v, Name(GroupTagCd))) <==> CleanText(row.group);
    hide CleanStrings;
    forall kind: Kind
      ensures CleanValue(Get(v, Name(ListName(kind)))) <==> forall i :: 0 <= i < |Of(row, kind)| ==> CleanItem(Of(row, kind)[i])
    {
      var vs, items := Items(v, Name(ListName(kind))), Of(row, kind);
      ListIsClean(v, ListName(kind));
      assert IsList(vs, kind, items);
      forall i | 0 <= i < |vs|
        ensures CleanStrings(vs[i]) <==> CleanItem(items[i])
      {
        ItemIsClean(vs[i], kind, items[i]);
      }
    }
    forall k: Key | k in ROW_KEYS && k != OccDt && k != GroupTagCd
      ensures k == ListName(Sensor) || k == ListName(Textual) || k == ListName(Integer) || k == ListName(RealNumber)
    {
    }
    hide IsList, CleanItem;
  }

  lemma DeviceIsClean(v: Json, d: Device)
    requires IsDevice(v, d)
    ensures CleanStrings(v) <==> CleanDevice(d)
  {
    hide Name, Known, Get, Items;
    KnownIsClean(v);
    ListIsClean(v, CnvyRowVOs);
    assert CleanValue(Get(v, Name(DevId))) <==> CleanText(d.devId);
    hide CleanStrings, CleanRow;
    var xs := Items(v, Name(CnvyRowVOs));
    forall i | 0 <= i < |xs|
      ensures CleanStrings(xs[i]) <==> CleanRow(d.rows[i])
    {
      RowIsClean(xs[i], d.rows[i]);
    }
    hide IsRow;
  }

  // A report has only such strings exactly when its devices and its gateway have.
  lemma ReportIsClean(v: Json, ds: seq<Device>)
    requires IsReport(v, ds)
    ensures CleanStrings(v) <==> CleanReport(ds, Get(v, Name(ExtrSysId)))
  {
    hide Name, Known, Get, Items;
    KnownIsClean(v);
    ListIsClean(v, DevCnvyDataVOs);
    hide CleanStrings, CleanDevice;
    var xs := Items(v, Name(DevCnvyDataVOs));
    forall i | 0 <= i < |xs|
      ensures CleanStrings(xs[i]) <==> CleanDevice(ds[i])
    {
      DeviceIsClean(xs[i], ds[i]);
    }
    hide IsDevice;
  }

  // The text of a written report is read back as the report with its numbers to the sixth decimal,
  // whatever the layout, exactly when no string has a control byte without a short escape; it is
  // the same tree exactly when its numbers are what strtod makes of six decimals.
  lemma ReportSurvivesAsText(v: Json, ds: seq<Device>, pretty: bool, rest: seq<Byte>, strtod: real -> real)
    requires GoodReport(v, ds)
    ensures var r := Parse(Text(v, 0, pretty) + rest);
      if CleanReport(ds, Get(v, Name(ExtrSysId))) then
        r.Some? && DevicesOf(WithNumbers(r.value, strtod)) == DevicesAsRead(ds, strtod)
      else r == None
    ensures var r := Parse(Text(v, 0, pretty) + rest);
      AllNumbers(v, IsDouble) && RoundsAll(strtod) && r.Some? ==>
        (WithNumbers(r.value, strtod) == v <==> AllNumbers(v, Readings(strtod)))
  {
    GoodIsShallow(v, REPORT_DEPTH);
    ReportIs(v, ds);
    ReportIsRead(v, strtod);
    ReportIsClean(v, ds);
    hide Text, Parse, CleanStrings, CleanReport, Depth, DevicesOf, DevicesAsRead, AsRead, WithNumbers, RoundsAll, IsDouble, AllNumbers;
    ParseUndoesSerialize(v, pretty, rest);
    if AllNumbers(v, IsDouble) && RoundsAll(strtod) {
      ComesBack(v, strtod);
    }
  }

  // A report is sent as text: what the receiver finds in what arrives.
  method Transfer(body: IMPacketBody, pretty: bool, strtod: real -> real) returns (rc: int, received: IMPacketBody)
    requires body.Valid()
    ensures fresh(received) && rc == if CleanReport(body.Devices(), body.Gateway()) then 0 else -1
    ensures received.Devices() == if rc == 0 then DevicesAsRead(body.Devices(), strtod) else []
  {
    ghost var ds := body.Devices();
    GoodIsShallow(body.root, REPORT_DEPTH);
    ReportSurvivesAsText(body.root, ds, pretty, [], strtod);
    hide Text, Parse, CleanReport, Depth, DevicesOf, DevicesAsRead, GoodReport, WellFormed, WithNumbers, AllNumbers;
    NothingInNull();
    var text := JsonLibrary.SerializedString(body.root, pretty);
    assert Text(body.root, 0, pretty) + [] == text;
    received := new IMPacketBody();
    rc := received.InitWithString(text, strtod);
  }

  // The receiver walks what arrives.
  method SendThenWalk(body: IMPacketBody, pretty: bool, kind: Kind, strtod: real -> real)
    returns (rc: int, r: seq<seq<seq<Reading>>>)
    requires body.Valid()
    ensures rc == if CleanReport(body.Devices(), body.Gateway()) then 0 else -1
    ensures |r| == if rc == 0 then Reachable(body.Devices()) else 0
    ensures forall i :: 0 <= i < |r| ==> r[i] == DeviceReadings(DeviceAsRead(body.Devices()[i], strtod), kind)
  {
    hide CleanReport, DevicesOf, DeviceReadings, DeviceAsRead, DevicesAsRead, GoodReport;
    ReachableAsRead(body.Devices(), strtod);
    var received;
    rc, received := Transfer(body, pretty, strtod);
    r := Walk(received, kind);
  }

  lemma NothingInNull()
    ensures DevicesOf(Null) == []
  {
  }

  lemma {:induction false} ReachableAsRead(ds: seq<Device>, strtod: real -> real)
    ensures Reachable(DevicesAsRead(ds, strtod)) == Reachable(ds)
    ensures forall i :: 0 <= i < |ds| ==> DevicesAsRead(ds, strtod)[i] == DeviceAsRead(ds[i], strtod)
  {
    hide RowAsRead;
    if ds != [] {
      ReachableAsRead(ds[1..], strtod);
      assert DevicesAsRead(ds, strtod)[1..] == DevicesAsRead(ds[1..], strtod);
      assert |DeviceAsRead(ds[0], strtod).rows| == |ds[0].rows|;
    }
  }
}
