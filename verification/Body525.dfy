// body_525_rep.c, body_525_req.c and body_util.c: the report of collected data, written and read
// with two cursors over the same tree.
module Body525 {
  import opened Wrappers
  import opened CStrings
  import opened Utf8
  import opened JsonTree
  import opened JsonPaths
  import opened JsonWrap
  import opened JsonEquality
  import opened JsonText
  import opened JsonRoundTrip
  import opened JsonDoubles
  import JsonParser

  // ---------------------------------------------------------------------------------------
  // Names in the tree

  datatype Key = ExtrSysId | DevCnvyDataVOs | DevId | CnvyRowVOs | OccDt | GroupTagCd | SnsnDataInfoVOs | StrDataInfoVOs | IntDataInfoVOs | RlNumDataInfoVOs | DataTypeCd | SnsnTagCd | SnsnVal | StrVal | IntVal | RlNumVal

  // The names, in ASCII.
  function Name(k: Key): CString {
    match k
    case ExtrSysId => [101, 120, 116, 114, 83, 121, 115, 73, 100]
    case DevCnvyDataVOs => [100, 101, 118, 67, 110, 118, 121, 68, 97, 116, 97, 86, 79, 115]
    case DevId => [100, 101, 118, 73, 100]
    case CnvyRowVOs => [99, 110, 118, 121, 82, 111, 119, 86, 79, 115]
    case OccDt => [111, 99, 99, 68, 116]
    case GroupTagCd => [103, 114, 111, 117, 112, 84, 97, 103, 67, 100]
    case SnsnDataInfoVOs => [115, 110, 115, 110, 68, 97, 116, 97, 73, 110, 102, 111, 86, 79, 115]
    case StrDataInfoVOs => [115, 116, 114, 68, 97, 116, 97, 73, 110, 102, 111, 86, 79, 115]
    case IntDataInfoVOs => [105, 110, 116, 68, 97, 116, 97, 73, 110, 102, 111, 86, 79, 115]
    case RlNumDataInfoVOs => [114, 108, 78, 117, 109, 68, 97, 116, 97, 73, 110, 102, 111, 86, 79, 115]
    case DataTypeCd => [100, 97, 116, 97, 84, 121, 112, 101, 67, 100]
    case SnsnTagCd => [115, 110, 115, 110, 84, 97, 103, 67, 100]
    case SnsnVal => [115, 110, 115, 110, 86, 97, 108]
    case StrVal => [115, 116, 114, 86, 97, 108]
    case IntVal => [105, 110, 116, 86, 97, 108]
    case RlNumVal => [114, 108, 78, 117, 109, 86, 97, 108]
  }

  function Mark(k: Key): nat {
    match k
    case ExtrSysId => 2405
    case DevCnvyDataVOs => 3684
    case DevId => 1380
    case CnvyRowVOs => 2659
    case OccDt => 1391
    case GroupTagCd => 2663
    case SnsnDataInfoVOs => 3955
    case StrDataInfoVOs => 3699
    case IntDataInfoVOs => 3689
    case RlNumDataInfoVOs => 4210
    case DataTypeCd => 2660
    case SnsnTagCd => 2419
    case SnsnVal => 1907
    case StrVal => 1651
    case IntVal => 1641
    case RlNumVal => 2162
  }

  lemma NameMark(k: Key)
    ensures |Name(k)| > 0 && |Name(k)| * 256 + Name(k)[0] == Mark(k) && PERIOD !in Name(k)
  {
  }

  lemma NamesDiffer(k: Key, l: Key)
    requires k != l
    ensures Name(k) != Name(l)
  {
    NameMark(k);
    NameMark(l);
    hide Name;
    assert Mark(k) != Mark(l);
  }

  const KEYS: set<Key> := { ExtrSysId, DevCnvyDataVOs, DevId, CnvyRowVOs, OccDt, GroupTagCd, SnsnDataInfoVOs,
                            StrDataInfoVOs, IntDataInfoVOs, RlNumDataInfoVOs, DataTypeCd, SnsnTagCd, SnsnVal, StrVal,
                            IntVal, RlNumVal }

  // An object whose names are all among those above.
  ghost predicate Known(v: Json) {
    v.Object? && Distinct(v.members) && forall i :: 0 <= i < |v.members| ==> IsName(v.members[i].name)
  }

  ghost predicate IsName(name: CString) {
    exists k: Key :: name == Name(k)
  }

  lemma {:induction false} ImageSize(keys: set<Key>)
    ensures |set k | k in keys :: Name(k)| <= |keys|
  {
    var image := set k | k in keys :: Name(k);
    if keys != {} {
      var k :| k in keys;
      var rest := keys - {k};
      ImageSize(rest);
      assert image <= (set l | l in rest :: Name(l)) + {Name(k)};
      SubsetSize(image, (set l | l in rest :: Name(l)) + {Name(k)});
    } else {
      assert image == {};
    }
  }

  lemma {:induction false} SubsetSize<T>(a: set<T>, b: set<T>)
    requires a <= b
    ensures |a| <= |b|
  {
    assert b == a + (b - a);
  }

  lemma InKeys(k: Key)
    ensures k in KEYS
  {
    match k
    case ExtrSysId | DevCnvyDataVOs | DevId | CnvyRowVOs | OccDt | GroupTagCd | SnsnDataInfoVOs | StrDataInfoVOs =>
    case IntDataInfoVOs | RlNumDataInfoVOs | DataTypeCd | SnsnTagCd | SnsnVal | StrVal | IntVal | RlNumVal =>
  }

  lemma KeyCount()
    ensures |KEYS| <= 16
  {
  }

  // So few names never fill an object.
  lemma KnownIsOpen(v: Json)
    requires Known(v)
    ensures Open(v)
  {
    hide Name;
    var image := set k | k in KEYS :: Name(k);
    AsManyNames(v.members);
    assert Names(v.members) <= image by {
      forall i | 0 <= i < |v.members|
        ensures v.members[i].name in image
      {
        assert IsName(v.members[i].name);
        var k: Key :| v.members[i].name == Name(k);
        InKeys(k);
      }
    }
    SubsetSize(Names(v.members), image);
    ImageSize(KEYS);
    KeyCount();
  }

  // Nothing under the other names.
  ghost predicate Absent(v: Json, keys: set<Key>) {
    forall k: Key | k !in keys :: Get(v, Name(k)) == None
  }

  // An array under the name, or nothing.
  ghost predicate ListAt(v: Json, key: Key) {
    var a := Get(v, Name(key));
    a.Some? ==> a.value.Array?
  }

  lemma KnownSet(v: Json, key: Key, x: Option<Json>, other: Key)
    requires Known(v)
    ensures Known(Set(v, Name(key), x))
    ensures Get(Set(v, Name(key), x), Name(other)) == if other == key && x.Some? then x else Get(v, Name(other))
  {
    hide Name;
    KnownIsOpen(v);
    if x.Some? {
      SetLaws(v, Name(key), x.value, Name(other));
      if other != key {
        NamesDiffer(key, other);
      }
      KnownMembers(v, key, x.value);
    }
  }

  lemma KnownMembers(v: Json, key: Key, x: Json)
    requires Known(v)
    ensures Known(Object(SetMember(v.members, Name(key), x)))
  {
    hide Name;
    SetMemberLaws(v.members, Name(key), x, Name(key));
    var r := SetMember(v.members, Name(key), x);
    forall i | 0 <= i < |r|
      ensures IsName(r[i].name)
    {
      if i < |v.members| {
        assert IsName(v.members[i].name);
      }
    }
  }

  lemma KnownAppend(v: Json, key: Key, x: Json, other: Key)
    requires Known(v)
    ensures Known(Append(v, Name(key), x))
    ensures Items(Append(v, Name(key), x), Name(key)) == Appended(Items(v, Name(key)), x)
    ensures ListAt(Append(v, Name(key), x), key)
    ensures other != key ==> Get(Append(v, Name(key), x), Name(other)) == Get(v, Name(other))
    ensures other != key ==> Items(Append(v, Name(key), x), Name(other)) == Items(v, Name(other))
  {
    hide Name, Append;
    KnownIsOpen(v);
    AppendLaws(v, Name(key), x, Name(other));
    SetMemberLaws(v.members, Name(key), Array(Appended(Items(v, Name(key)), x)), Name(key));
    if other != key {
      NamesDiffer(key, other);
    }
    KnownMembers(v, key, Array(Appended(Items(v, Name(key)), x)));
  }

  lemma KnownWithItem(v: Json, key: Key, i: nat, y: Json, other: Key)
    requires Known(v) && i < |Items(v, Name(key))|
    ensures Known(WithItem(v, Name(key), i, y))
    ensures Items(WithItem(v, Name(key), i, y), Name(key)) == Items(v, Name(key))[i := y]
    ensures ListAt(WithItem(v, Name(key), i, y), key)
    ensures other != key ==> Get(WithItem(v, Name(key), i, y), Name(other)) == Get(v, Name(other))
    ensures other != key ==> Items(WithItem(v, Name(key), i, y), Name(other)) == Items(v, Name(other))
  {
    hide Name;
    WithItemLaws(v, Name(key), i, y, Name(other));
    SetMemberLaws(v.members, Name(key), Array(Items(v, Name(key))[i := y]), Name(key));
    if other != key {
      NamesDiffer(key, other);
    }
    KnownMembers(v, key, Array(Items(v, Name(key))[i := y]));
  }

  // ---------------------------------------------------------------------------------------
  // What a report holds

  datatype Kind = Sensor | Textual | Integer | RealNumber

  function ListName(kind: Kind): Key {
    match kind
    case Sensor => SnsnDataInfoVOs
    case Textual => StrDataInfoVOs
    case Integer => IntDataInfoVOs
    case RealNumber => RlNumDataInfoVOs
  }

  function TagName(kind: Kind): Key {
    if kind == Textual then SnsnTagCd else DataTypeCd
  }

  function ValueName(kind: Kind): Key {
    match kind
    case Sensor => SnsnVal
    case Textual => StrVal
    case Integer => IntVal
    case RealNumber => RlNumVal
  }

  // Strings that are not valid UTF-8 are not stored.
  datatype Item = Item(tag: Option<CString>, value: Option<Json>)
  datatype Row = Row(occDt: Option<CString>, group: Option<CString>,
                     sensors: seq<Item>, texts: seq<Item>, integers: seq<Item>, reals: seq<Item>)
  datatype Device = Device(devId: Option<CString>, rows: seq<Row>)

  function Of(row: Row, kind: Kind): seq<Item> {
    match kind
    case Sensor => row.sensors
    case Textual => row.texts
    case Integer => row.integers
    case RealNumber => row.reals
  }

  function With(row: Row, kind: Kind, items: seq<Item>): (r: Row)
    ensures Of(r, kind) == items && (forall k :: k != kind ==> Of(r, k) == Of(row, k))
    ensures r.occDt == row.occDt && r.group == row.group
  {
    match kind
    case Sensor => row.(sensors := items)
    case Textual => row.(texts := items)
    case Integer => row.(integers := items)
    case RealNumber => row.(reals := items)
  }

  ghost function Stored(s: CString): Option<CString> {
    if IsUtf8(s) then Some(s) else None
  }

  function Str(s: Option<CString>): Option<Json> {
    if s.Some? then Some(String(s.value)) else None
  }

  // ---------------------------------------------------------------------------------------
  // Trees of reports

  ghost predicate IsItem(v: Json, kind: Kind, item: Item) {
    && Known(v) && Absent(v, {TagName(kind), ValueName(kind)})
    && Get(v, Name(TagName(kind))) == Str(item.tag) && Get(v, Name(ValueName(kind))) == item.value
  }

  ghost predicate IsList(vs: seq<Json>, kind: Kind, items: seq<Item>) {
    |vs| == |items| && forall i :: 0 <= i < |vs| ==> IsItem(vs[i], kind, items[i])
  }

  const ROW_KEYS := {OccDt, GroupTagCd, SnsnDataInfoVOs, StrDataInfoVOs, IntDataInfoVOs, RlNumDataInfoVOs}

  ghost predicate IsRow(v: Json, row: Row) {
    && Known(v) && Absent(v, ROW_KEYS)
    && Get(v, Name(OccDt)) == Str(row.occDt) && Get(v, Name(GroupTagCd)) == Str(row.group)
    && forall kind: Kind :: ListAt(v, ListName(kind)) && IsList(Items(v, Name(ListName(kind))), kind, Of(row, kind))
  }

  ghost predicate IsDevice(v: Json, d: Device) {
    && Known(v) && Absent(v, {DevId, CnvyRowVOs}) && ListAt(v, CnvyRowVOs) && Get(v, Name(DevId)) == Str(d.devId)
    && |Items(v, Name(CnvyRowVOs))| == |d.rows|
    && forall i :: 0 <= i < |d.rows| ==> IsRow(Items(v, Name(CnvyRowVOs))[i], d.rows[i])
  }

  ghost predicate IsReport(v: Json, ds: seq<Device>) {
    && Known(v) && Absent(v, {ExtrSysId, DevCnvyDataVOs}) && ListAt(v, DevCnvyDataVOs)
    && |Items(v, Name(DevCnvyDataVOs))| == |ds|
    && forall i :: 0 <= i < |ds| ==> IsDevice(Items(v, Name(DevCnvyDataVOs))[i], ds[i])
  }

  function MakeItem(kind: Kind, item: Item): Json {
    Set(Set(Object([]), Name(TagName(kind)), Str(item.tag)), Name(ValueName(kind)), item.value)
  }

  function MakeRow(occDt: Option<CString>, group: Option<CString>): Json {
    Set(Set(Object([]), Name(OccDt), Str(occDt)), Name(GroupTagCd), Str(group))
  }

  function MakeDevice(devId: Option<CString>): Json {
    Set(Object([]), Name(DevId), Str(devId))
  }

  lemma EmptyIsKnown(key: Key)
    ensures Known(Object([])) && Get(Object([]), Name(key)) == None && Good(Object([]), 1)
  {
  }

  lemma GoodField(v: Json, key: Key, x: Option<Json>)
    requires Known(v) && Good(v, 1) && (x.Some? ==> !IsContainer(x.value))
    ensures Good(Set(v, Name(key), x), 1)
  {
    hide Name;
    KnownIsOpen(v);
    if x.Some? {
      SetLaws(v, Name(key), x.value, Name(key));
      GoodSet(v, Name(key), x.value, 1);
    }
  }

  // Two fields of an object, and nothing else.
  lemma TwoFields(k: Key, x: Option<Json>, l: Key, y: Option<Json>)
    requires k != l && (x.Some? ==> !IsContainer(x.value)) && (y.Some? ==> !IsContainer(y.value))
    ensures var v := Set(Set(Object([]), Name(k), x), Name(l), y);
      Known(v) && Good(v, 1) && Get(v, Name(k)) == x && Get(v, Name(l)) == y && Absent(v, {k, l})
  {
    hide Name, Known, Set, Good, Get;
    var w := Set(Object([]), Name(k), x);
    EmptyIsKnown(k);
    EmptyIsKnown(l);
    GoodField(Object([]), k, x);
    KnownSet(Object([]), k, x, k);
    KnownSet(w, l, y, l);
    GoodField(w, l, y);
    forall m: Key
      ensures Get(Set(w, Name(l), y), Name(m)) == if m == l then y else if m == k then x else None
    {
      EmptyIsKnown(m);
      KnownSet(Object([]), k, x, m);
      KnownSet(w, l, y, m);
    }
  }

  lemma MadeItem(kind: Kind, item: Item)
    requires item.value.Some? ==> !IsContainer(item.value.value)
    ensures IsItem(MakeItem(kind, item), kind, item) && Good(MakeItem(kind, item), 1)
  {
    hide Name, Known, Set, Good, Get;
    TwoFields(TagName(kind), Str(item.tag), ValueName(kind), item.value);
  }

  lemma MadeRow(occDt: Option<CString>, group: Option<CString>)
    ensures IsRow(MakeRow(occDt, group), Row(occDt, group, [], [], [], [])) && Good(MakeRow(occDt, group), 1)
  {
    hide Name, Known, Set, Good, Get;
    TwoFields(OccDt, Str(occDt), GroupTagCd, Str(group));
    var v := MakeRow(occDt, group);
    forall kind: Kind
      ensures Get(v, Name(ListName(kind))) == None
    {
    }
    assert Absent(v, {OccDt, GroupTagCd});
    assert Absent(v, ROW_KEYS);
  }

  lemma MadeDevice(devId: Option<CString>)
    ensures IsDevice(MakeDevice(devId), Device(devId, [])) && Good(MakeDevice(devId), 1)
  {
    hide Name, Known, Set, Good;
    EmptyIsKnown(DevId);
    KnownSet(Object([]), DevId, Str(devId), DevId);
    forall k: Key
      ensures Get(Object([]), Name(k)) == None && (k != DevId ==> Get(MakeDevice(devId), Name(k)) == None)
    {
      EmptyIsKnown(k);
      KnownSet(Object([]), DevId, Str(devId), k);
    }
    GoodField(Object([]), DevId, Str(devId));
  }

  lemma RowAppend(v: Json, row: Row, kind: Kind, x: Json, item: Item)
    requires IsRow(v, row) && IsItem(x, kind, item)
    ensures IsRow(Append(v, Name(ListName(kind)), x), With(row, kind, Appended(Of(row, kind), item)))
  {
    hide Name, Known, Append, IsList, IsItem, Items, With, Of, Get;
    assert ListName(kind) in ROW_KEYS;
    KnownAppend(v, ListName(kind), x, OccDt);
    forall k: Key
      ensures k != ListName(kind) ==> Get(Append(v, Name(ListName(kind)), x), Name(k)) == Get(v, Name(k))
    {
      KnownAppend(v, ListName(kind), x, k);
    }
    forall k: Kind
      ensures ListAt(Append(v, Name(ListName(kind)), x), ListName(k))
      ensures IsList(Items(Append(v, Name(ListName(kind)), x), Name(ListName(k))), k,
                     Of(With(row, kind, Appended(Of(row, kind), item)), k))
    {
      KnownAppend(v, ListName(kind), x, ListName(k));
      ListAppend(Items(v, Name(ListName(kind))), kind, Of(row, kind), x, item);
    }
  }

  lemma ListAppend(vs: seq<Json>, kind: Kind, items: seq<Item>, x: Json, item: Item)
    requires IsList(vs, kind, items) && IsItem(x, kind, item)
    ensures IsList(Appended(vs, x), kind, Appended(items, item))
  {
    hide IsItem;
  }

  lemma DeviceAppend(v: Json, d: Device, x: Json, row: Row)
    requires IsDevice(v, d) && IsRow(x, row)
    ensures IsDevice(Append(v, Name(CnvyRowVOs), x), d.(rows := Appended(d.rows, row)))
  {
    hide Name, Known, Append, IsRow;
    forall k: Key
      ensures k != CnvyRowVOs ==> Get(Append(v, Name(CnvyRowVOs), x), Name(k)) == Get(v, Name(k))
    {
      KnownAppend(v, CnvyRowVOs, x, k);
    }
    KnownAppend(v, CnvyRowVOs, x, DevId);
  }

  lemma DeviceWith(v: Json, d: Device, i: nat, x: Json, row: Row)
    requires IsDevice(v, d) && i < |d.rows| && IsRow(x, row)
    ensures IsDevice(WithItem(v, Name(CnvyRowVOs), i, x), d.(rows := d.rows[i := row]))
  {
    hide Name, Known, WithItem, IsRow;
    forall k: Key
      ensures k != CnvyRowVOs ==> Get(WithItem(v, Name(CnvyRowVOs), i, x), Name(k)) == Get(v, Name(k))
    {
      KnownWithItem(v, CnvyRowVOs, i, x, k);
    }
    KnownWithItem(v, CnvyRowVOs, i, x, DevId);
  }

  lemma ReportAppend(v: Json, ds: seq<Device>, x: Json, d: Device)
    requires IsReport(v, ds) && IsDevice(x, d)
    ensures IsReport(Append(v, Name(DevCnvyDataVOs), x), Appended(ds, d))
    ensures Get(Append(v, Name(DevCnvyDataVOs), x), Name(ExtrSysId)) == Get(v, Name(ExtrSysId))
  {
    hide Name, Known, Append, IsDevice;
    forall k: Key
      ensures k != DevCnvyDataVOs ==> Get(Append(v, Name(DevCnvyDataVOs), x), Name(k)) == Get(v, Name(k))
    {
      KnownAppend(v, DevCnvyDataVOs, x, k);
    }
    KnownAppend(v, DevCnvyDataVOs, x, ExtrSysId);
  }

  lemma ReportWith(v: Json, ds: seq<Device>, i: nat, x: Json, d: Device)
    requires IsReport(v, ds) && i < |ds| && IsDevice(x, d)
    ensures IsReport(WithItem(v, Name(DevCnvyDataVOs), i, x), ds[i := d])
    ensures Get(WithItem(v, Name(DevCnvyDataVOs), i, x), Name(ExtrSysId)) == Get(v, Name(ExtrSysId))
  {
    hide Name, Known, WithItem, IsDevice;
    forall k: Key
      ensures k != DevCnvyDataVOs ==> Get(WithItem(v, Name(DevCnvyDataVOs), i, x), Name(k)) == Get(v, Name(k))
    {
      KnownWithItem(v, DevCnvyDataVOs, i, x, k);
    }
    KnownWithItem(v, DevCnvyDataVOs, i, x, ExtrSysId);
  }

  // ---------------------------------------------------------------------------------------
  // Steps on whole reports

  lemma {:induction false} GoodMore(v: Json, n: nat, m: nat)
    requires Good(v, n) && n <= m
    ensures Good(v, m)
    decreases v
  {
    if IsContainer(v) && Count(v) > 0 {
      forall i | 0 <= i < Count(v)
        ensures Good(Child(v, i), m - 1)
      {
        GoodMore(Child(v, i), n - 1, m - 1);
      }
    }
  }

  // Devices, rows and items are two levels apart.
  const REPORT_DEPTH := 7
  const DEVICE_DEPTH := 5
  const ROW_DEPTH := 3

  ghost predicate GoodReport(v: Json, ds: seq<Device>) {
    IsReport(v, ds) && Good(v, REPORT_DEPTH)
  }

  ghost predicate GoodDevice(v: Json, d: Device) {
    IsDevice(v, d) && Good(v, DEVICE_DEPTH)
  }

  ghost predicate GoodRow(v: Json, row: Row) {
    IsRow(v, row) && Good(v, ROW_DEPTH)
  }

  lemma NewGateway(v: Json, ds: seq<Device>, s: Option<CString>)
    requires GoodReport(v, ds)
    ensures GoodReport(Set(v, Name(ExtrSysId), Str(s)), ds)
    ensures Get(Set(v, Name(ExtrSysId), Str(s)), Name(ExtrSysId)) == if s.Some? then Str(s) else Get(v, Name(ExtrSysId))
  {
    hide Name, Known, IsDevice;
    KnownIsOpen(v);
    forall k: Key
      ensures k != ExtrSysId ==> Get(Set(v, Name(ExtrSysId), Str(s)), Name(k)) == Get(v, Name(k))
    {
      KnownSet(v, ExtrSysId, Str(s), k);
    }
    KnownSet(v, ExtrSysId, Str(s), ExtrSysId);
    if s.Some? {
      SetLaws(v, Name(ExtrSysId), String(s.value), Name(ExtrSysId));
      GoodSet(v, Name(ExtrSysId), String(s.value), REPORT_DEPTH);
    }
    hide Good;
  }

  lemma NewDevice(v: Json, ds: seq<Device>, devId: Option<CString>)
    requires GoodReport(v, ds)
    ensures GoodReport(Append(v, Name(DevCnvyDataVOs), MakeDevice(devId)), Appended(ds, Device(devId, [])))
    ensures Get(Append(v, Name(DevCnvyDataVOs), MakeDevice(devId)), Name(ExtrSysId)) == Get(v, Name(ExtrSysId))
  {
    MadeDevice(devId);
    ReportAppend(v, ds, MakeDevice(devId), Device(devId, []));
    GoodMore(MakeDevice(devId), 1, DEVICE_DEPTH);
    KnownIsOpen(v);
    hide IsReport, Name, MakeDevice, Good;
    GoodAppend(v, Name(DevCnvyDataVOs), MakeDevice(devId), REPORT_DEPTH);
  }

  lemma ChangedDevice(v: Json, ds: seq<Device>, i: nat, x: Json, d: Device)
    requires GoodReport(v, ds) && i < |ds| && GoodDevice(x, d)
    ensures |Items(v, Name(DevCnvyDataVOs))| == |ds|
    ensures GoodReport(WithItem(v, Name(DevCnvyDataVOs), i, x), ds[i := d])
    ensures Get(WithItem(v, Name(DevCnvyDataVOs), i, x), Name(ExtrSysId)) == Get(v, Name(ExtrSysId))
  {
    ReportWith(v, ds, i, x, d);
    KnownIsOpen(v);
    assert |Items(v, Name(DevCnvyDataVOs))| == |ds|;
    hide IsReport, Name, Good;
    GoodWithItem(v, Name(DevCnvyDataVOs), i, x, REPORT_DEPTH);
  }

  lemma TheDevice(v: Json, ds: seq<Device>, i: int)
    requires GoodReport(v, ds)
    ensures var x := ItemAt(v, Name(DevCnvyDataVOs), i);
      if 0 <= i < |ds| then x.Some? && GoodDevice(x.value, ds[i]) else x == None
  {
    hide Name, IsDevice;
    if 0 <= i < |ds| {
      GoodItem(v, Name(DevCnvyDataVOs), i, REPORT_DEPTH);
    }
  }

  lemma NewRow(v: Json, d: Device, occDt: Option<CString>, group: Option<CString>)
    requires GoodDevice(v, d)
    ensures GoodDevice(Append(v, Name(CnvyRowVOs), MakeRow(occDt, group)),
                       d.(rows := Appended(d.rows, Row(occDt, group, [], [], [], []))))
  {
    MadeRow(occDt, group);
    DeviceAppend(v, d, MakeRow(occDt, group), Row(occDt, group, [], [], [], []));
    GoodMore(MakeRow(occDt, group), 1, ROW_DEPTH);
    KnownIsOpen(v);
    hide IsDevice, Name, MakeRow, Good;
    GoodAppend(v, Name(CnvyRowVOs), MakeRow(occDt, group), DEVICE_DEPTH);
  }

  lemma ChangedRow(v: Json, d: Device, i: nat, x: Json, row: Row)
    requires GoodDevice(v, d) && i < |d.rows| && GoodRow(x, row)
    ensures |Items(v, Name(CnvyRowVOs))| == |d.rows|
    ensures GoodDevice(WithItem(v, Name(CnvyRowVOs), i, x), d.(rows := d.rows[i := row]))
  {
    DeviceWith(v, d, i, x, row);
    KnownIsOpen(v);
    assert |Items(v, Name(CnvyRowVOs))| == |d.rows|;
    hide IsDevice, Name, Good;
    GoodWithItem(v, Name(CnvyRowVOs), i, x, DEVICE_DEPTH);
  }

  lemma TheRow(v: Json, d: Device, i: int)
    requires GoodDevice(v, d)
    ensures Get(v, Name(DevId)) == Str(d.devId)
    ensures var x := ItemAt(v, Name(CnvyRowVOs), i);
      if 0 <= i < |d.rows| then x.Some? && GoodRow(x.value, d.rows[i]) else x == None
  {
    hide Name, IsRow;
    if 0 <= i < |d.rows| {
      GoodItem(v, Name(CnvyRowVOs), i, DEVICE_DEPTH);
    }
  }

  lemma NewItem(v: Json, row: Row, kind: Kind, item: Item)
    requires GoodRow(v, row) && (item.value.Some? ==> !IsContainer(item.value.value))
    ensures GoodRow(Append(v, Name(ListName(kind)), MakeItem(kind, item)), With(row, kind, Appended(Of(row, kind), item)))
  {
    MadeItem(kind, item);
    RowAppend(v, row, kind, MakeItem(kind, item), item);
    KnownIsOpen(v);
    hide IsRow, Name, MakeItem, Good;
    GoodAppend(v, Name(ListName(kind)), MakeItem(kind, item), ROW_DEPTH);
  }

  // ---------------------------------------------------------------------------------------
  // Any tree as a report

  // json_string and json_number of what is under a name, or of a null pointer.
  function TextOf(v: Option<Json>): Option<CString> {
    if v.Some? && v.value.String? then Some(v.value.text) else None
  }

  function NumberOf(v: Option<Json>): real {
    if v.Some? && v.value.Number? then v.value.value else 0.0
  }

  // What the readers find in a tree, whatever else it holds.
  function ItemOf(v: Json, kind: Kind): Item {
    Item(TextOf(Get(v, Name(TagName(kind)))), Get(v, Name(ValueName(kind))))
  }

  function ItemsOf(v: Json, kind: Kind): (r: seq<Item>)
    ensures |r| == |Items(v, Name(ListName(kind)))|
  {
    var xs := Items(v, Name(ListName(kind)));
    seq(|xs|, i requires 0 <= i < |xs| => ItemOf(xs[i], kind))
  }

  function RowOf(v: Json): Row {
    Row(TextOf(Get(v, Name(OccDt))), TextOf(Get(v, Name(GroupTagCd))),
        ItemsOf(v, Sensor), ItemsOf(v, Textual), ItemsOf(v, Integer), ItemsOf(v, RealNumber))
  }

  function DeviceOf(v: Json): (d: Device)
    ensures |d.rows| == |Items(v, Name(CnvyRowVOs))|
  {
    var xs := Items(v, Name(CnvyRowVOs));
    Device(TextOf(Get(v, Name(DevId))), seq(|xs|, i requires 0 <= i < |xs| => RowOf(xs[i])))
  }

  function DevicesOf(v: Json): (ds: seq<Device>)
    ensures |ds| == |Items(v, Name(DevCnvyDataVOs))|
  {
    var xs := Items(v, Name(DevCnvyDataVOs));
    seq(|xs|, i requires 0 <= i < |xs| => DeviceOf(xs[i]))
  }

  lemma ListIs(vs: seq<Json>, v: Json, kind: Kind, items: seq<Item>)
    requires vs == Items(v, Name(ListName(kind))) && IsList(vs, kind, items)
    ensures ItemsOf(v, kind) == items
  {
    hide Name, Known;
    forall i | 0 <= i < |vs|
      ensures ItemOf(vs[i], kind) == items[i]
    {
      assert IsItem(vs[i], kind, items[i]);
    }
  }

  lemma RowIs(v: Json, row: Row)
    requires IsRow(v, row)
    ensures RowOf(v) == row
  {
    hide Name, Known, IsList, ItemsOf;
    forall kind: Kind
      ensures ItemsOf(v, kind) == Of(row, kind)
    {
      ListIs(Items(v, Name(ListName(kind))), v, kind, Of(row, kind));
    }
    assert ItemsOf(v, Sensor) == Of(row, Sensor) && ItemsOf(v, Textual) == Of(row, Textual);
    assert ItemsOf(v, Integer) == Of(row, Integer) && ItemsOf(v, RealNumber) == Of(row, RealNumber);
  }

  lemma DeviceIs(v: Json, d: Device)
    requires IsDevice(v, d)
    ensures DeviceOf(v) == d
  {
    hide Name, Known, IsRow, RowOf;
    var xs := Items(v, Name(CnvyRowVOs));
    forall i | 0 <= i < |xs|
      ensures RowOf(xs[i]) == d.rows[i]
    {
      RowIs(xs[i], d.rows[i]);
    }
  }

  // A report that has been written is found as it was written.
  lemma ReportIs(v: Json, ds: seq<Device>)
    requires IsReport(v, ds)
    ensures DevicesOf(v) == ds
  {
    hide Name, Known, IsDevice, DeviceOf;
    var xs := Items(v, Name(DevCnvyDataVOs));
    forall i | 0 <= i < |xs|
      ensures DeviceOf(xs[i]) == ds[i]
    {
      DeviceIs(xs[i], ds[i]);
    }
  }

  lemma DeviceFound(v: Json, i: int)
    ensures var x := ItemAt(v, Name(DevCnvyDataVOs), i);
      if 0 <= i < |DevicesOf(v)| then x.Some? && DeviceOf(x.value) == DevicesOf(v)[i] else x == None
  {
    hide Name, DeviceOf;
  }

  lemma RowFound(v: Json, i: int)
    ensures TextOf(Get(v, Name(DevId))) == DeviceOf(v).devId
    ensures var x := ItemAt(v, Name(CnvyRowVOs), i);
      if 0 <= i < |DeviceOf(v).rows| then x.Some? && RowOf(x.value) == DeviceOf(v).rows[i] else x == None
  {
    hide Name, RowOf;
  }

  lemma ItemFound(v: Json, kind: Kind, i: int)
    ensures TextOf(Get(v, Name(GroupTagCd))) == RowOf(v).group
    ensures var x := ItemAt(v, Name(ListName(kind)), i);
      if 0 <= i < |Of(RowOf(v), kind)| then x.Some? && ItemOf(x.value, kind) == Of(RowOf(v), kind)[i] else x == None
  {
    hide Name, ItemOf;
    assert Of(RowOf(v), kind) == ItemsOf(v, kind);
  }

  // A double converted to an int: towards zero, and undefined in C where the result is no int.
  function Converted(x: real): Option<int> {
    var n := if x < 0.0 then -((-x).Floor) else x.Floor;
    if -0x8000_0000 <= n < 0x8000_0000 then Some(n) else None
  }

  // The whole number between zero and x that is nearest to x, in 32 bits.
  lemma ConvertedTowardsZero(x: real, n: int)
    ensures Converted(x) == Some(n) <==>
      -2147483648 <= n <= 2147483647
      && if x < 0.0 then (n - 1) as real < x <= n as real else n as real <= x < (n + 1) as real
  {
  }

  lemma EmptyObjectText()
    ensures Parse([OPEN_BRACE, CLOSE_BRACE]) == Some(Object([]))
  {
    var v := Object([]);
    assert Text(v, 0, false) + [] == [OPEN_BRACE, CLOSE_BRACE];
    ParseUndoesSerialize(v, false, []);
    assert AsRead(v) == v;
  }

  // ---------------------------------------------------------------------------------------
  // The packet body

  class IMPacketBody {
    var root: Json
    var devColecDataIdx: int
    var colecRowIdx: int

    // What the tree says; without a tree, nothing.
    ghost function Devices(): seq<Device>
      reads this
    {
      DevicesOf(root)
    }

    // What stands for the gateway.
    ghost function Gateway(): Option<Json>
      reads this
    {
      Get(root, Name(ExtrSysId))
    }

    // The tree is a report as the writers make it.
    ghost predicate Valid()
      reads this
    {
      GoodReport(root, Devices())
    }

    // im_body525_rep_init
    constructor ()
      ensures Valid() && Devices() == [] && Gateway() == None && devColecDataIdx == -1 && colecRowIdx == -1
    {
      root := Null;
      devColecDataIdx, colecRowIdx := -1, -1;
      new;
      EmptyObjectText();
      var rc := InitWithString([OPEN_BRACE, CLOSE_BRACE], x => x);
      forall k: Key
        ensures Get(root, Name(k)) == None
      {
        EmptyIsKnown(k);
      }
      EmptyIsKnown(DevCnvyDataVOs);
      GoodMore(root, 1, REPORT_DEPTH);
    }

    // im_body_init_with_string, with the rounding of strtod given. The null pointer of a failed parse
    // is shown as Null: no lookup finds anything in either.
    method InitWithString(json: CString, strtod: real -> real) returns (rc: int)
      modifies this`root
      ensures rc == if Parse(json).Some? then 0 else -1
      ensures root == if Parse(json).Some? then WithNumbers(Parse(json).value, strtod) else Null
    {
      hide Parse;
      var v := JsonParser.JsonParseString(json);
      if v.None? {
        root := Null;
        return -1;
      }
      root := WithNumbers(v.value, strtod);
      return 0;
    }

    // A tree that is a report shows what it reports.
    lemma Shows(ds: seq<Device>)
      requires GoodReport(root, ds)
      ensures Valid() && Devices() == ds
    {
      ReportIs(root, ds);
    }

    ghost predicate AtDevice()
      reads this
    {
      0 <= devColecDataIdx < |Devices()|
    }

    // The cursors stand at a row.
    ghost predicate AtRow()
      reads this
    {
      AtDevice() && 0 <= colecRowIdx < |Devices()[devColecDataIdx].rows|
    }

    ghost function Current(): Row
      requires AtRow()
      reads this
    {
      Devices()[devColecDataIdx].rows[colecRowIdx]
    }

    // The devices with another row in the place of the current one.
    ghost function WithRow(row: Row): seq<Device>
      requires AtRow()
      reads this
    {
      var d := Devices()[devColecDataIdx];
      Devices()[devColecDataIdx := d.(rows := d.rows[colecRowIdx := row])]
    }

    // json_value_init_string: a null pointer for what is not UTF-8.
    method Storable(s: CString) returns (r: Option<CString>)
      ensures r == Stored(s)
    {
      var valid := IsValidUtf8(s);
      r := if valid then Some(s) else None;
    }

    // im_body525_rep_set_extrSysId
    method SetExtrSysId(gateway: CString)
      requires Valid()
      modifies this
      ensures Valid() && Devices() == old(Devices())
      ensures devColecDataIdx == old(devColecDataIdx) && colecRowIdx == old(colecRowIdx)
      ensures Gateway() == if Stored(gateway).Some? then Some(String(gateway)) else old(Gateway())
    {
      hide Name;
      var s := Storable(gateway);
      hide Set, GoodReport;
      ghost var ds := Devices();
      NewGateway(root, ds, s);
      root := Set(root, Name(ExtrSysId), Str(s));
      Shows(ds);
    }

    // im_body525_rep_append_devCnvyData. The cursor moves even if the array takes no more.
    method AppendDevCnvyData(devId: CString)
      requires Valid()
      modifies this
      ensures Valid() && Gateway() == old(Gateway()) && Devices() == Appended(old(Devices()), Device(Stored(devId), []))
      ensures devColecDataIdx == old(devColecDataIdx) + 1 && colecRowIdx == -1
    {
      hide GoodReport, Name, Append, MakeDevice;
      var s := Storable(devId);
      ghost var ds := Devices();
      NewDevice(root, ds, s);
      root := Append(root, Name(DevCnvyDataVOs), MakeDevice(s));
      Shows(Appended(ds, Device(s, [])));
      devColecDataIdx := devColecDataIdx + 1;
      colecRowIdx := -1;
    }

    // im_body525_rep_append_cnvyRow, with the time of the row given.
    method AppendCnvyRow(occDate: CString, groupTagCd: Option<CString>)
      requires Valid()
      modifies this
      ensures Valid() && Gateway() == old(Gateway()) && colecRowIdx == old(colecRowIdx) + 1 && devColecDataIdx == old(devColecDataIdx)
      ensures !old(AtDevice()) ==> Devices() == old(Devices())
      ensures old(AtDevice()) ==>
        var d := old(Devices()[devColecDataIdx]);
        var group := if groupTagCd.Some? then Stored(groupTagCd.value) else None;
        Devices() == old(Devices())[old(devColecDataIdx) := d.(rows := Appended(d.rows, Row(Stored(occDate), group, [], [], [], [])))]
    {
      hide GoodReport, GoodDevice, Name, Append, MakeRow, WithItem, ItemAt;
      var occDt := Storable(occDate);
      var group := None;
      if groupTagCd.Some? {
        group := Storable(groupTagCd.value);
      }
      var i := devColecDataIdx;
      TheDevice(root, Devices(), i);
      var device := ItemAt(root, Name(DevCnvyDataVOs), i);
      if device.Some? {
        ghost var ds, d := Devices(), Devices()[i];
        ghost var changed := d.(rows := Appended(d.rows, Row(occDt, group, [], [], [], [])));
        NewRow(device.value, d, occDt, group);
        ChangedDevice(root, ds, i, Append(device.value, Name(CnvyRowVOs), MakeRow(occDt, group)), changed);
        root := WithItem(root, Name(DevCnvyDataVOs), i, Append(device.value, Name(CnvyRowVOs), MakeRow(occDt, group)));
        Shows(ds[i := changed]);
      }
      colecRowIdx := colecRowIdx + 1;
    }

    // The item goes behind the others of its kind in the current row; without one it is dropped.
    method SetData(kind: Kind, tag: CString, value: Option<Json>)
      requires Valid() && (value.Some? ==> !IsContainer(value.value))
      modifies this
      ensures Valid() && Gateway() == old(Gateway()) && colecRowIdx == old(colecRowIdx) && devColecDataIdx == old(devColecDataIdx)
      ensures !old(AtRow()) ==> Devices() == old(Devices())
      ensures old(AtRow()) ==>
        var row := old(Current());
        Devices() == old(WithRow(With(row, kind, Appended(Of(row, kind), Item(Stored(tag), value)))))
    {
      hide GoodReport, GoodDevice, GoodRow, Name, Append, MakeItem, WithItem, ItemAt, With, Of;
      var s := Storable(tag);
      var i, j := devColecDataIdx, colecRowIdx;
      TheDevice(root, Devices(), i);
      var device := ItemAt(root, Name(DevCnvyDataVOs), i);
      if device.None? {
        return;
      }
      TheRow(device.value, Devices()[i], j);
      var row := ItemAt(device.value, Name(CnvyRowVOs), j);
      if row.None? {
        return;
      }
      ghost var ds, d, old_ := Devices(), Devices()[i], Devices()[i].rows[j];
      ghost var r := With(old_, kind, Appended(Of(old_, kind), Item(s, value)));
      var newRow := Append(row.value, Name(ListName(kind)), MakeItem(kind, Item(s, value)));
      NewItem(row.value, old_, kind, Item(s, value));
      ChangedRow(device.value, d, j, newRow, r);
      var newDevice := WithItem(device.value, Name(CnvyRowVOs), j, newRow);
      ChangedDevice(root, ds, i, newDevice, d.(rows := d.rows[j := r]));
      root := WithItem(root, Name(DevCnvyDataVOs), i, newDevice);
      Shows(ds[i := d.(rows := d.rows[j := r])]);
    }

    // im_body525_rep_set_number_data
    method SetNumberData(dataTypeCd: CString, snsnVal: real)
      requires Valid()
      modifies this
      ensures Valid() && Gateway() == old(Gateway()) && colecRowIdx == old(colecRowIdx) && devColecDataIdx == old(devColecDataIdx)
      ensures !old(AtRow()) ==> Devices() == old(Devices())
      ensures old(AtRow()) ==>
        var row := old(Current());
        Devices() == old(WithRow(row.(sensors := Appended(row.sensors, Item(Stored(dataTypeCd), Some(Number(snsnVal)))))))
    {
      SetData(Sensor, dataTypeCd, Some(Number(snsnVal)));
    }

    // im_body525_rep_set_string_data
    method SetStringData(dataTypeCd: CString, strVal: CString)
      requires Valid()
      modifies this
      ensures Valid() && Gateway() == old(Gateway()) && colecRowIdx == old(colecRowIdx) && devColecDataIdx == old(devColecDataIdx)
      ensures !old(AtRow()) ==> Devices() == old(Devices())
      ensures old(AtRow()) ==>
        var row := old(Current());
        Devices() == old(WithRow(row.(texts := Appended(row.texts, Item(Stored(dataTypeCd), Str(Stored(strVal)))))))
    {
      var s := Storable(strVal);
      SetData(Textual, dataTypeCd, Str(s));
    }

    // im_body525_rep_set_int_data
    method SetIntData(dataTypeCd: CString, intVal: int)
      requires Valid() && -0x8000_0000 <= intVal < 0x8000_0000
      modifies this
      ensures Valid() && Gateway() == old(Gateway()) && colecRowIdx == old(colecRowIdx) && devColecDataIdx == old(devColecDataIdx)
      ensures !old(AtRow()) ==> Devices() == old(Devices())
      ensures old(AtRow()) ==>
        var row := old(Current());
        Devices() == old(WithRow(row.(integers := Appended(row.integers, Item(Stored(dataTypeCd), Some(Number(intVal as real)))))))
    {
      SetData(Integer, dataTypeCd, Some(Number(intVal as real)));
    }

    // im_body525_rep_set_realnum_data
    method SetRealnumData(dataTypeCd: CString, realNum: real)
      requires Valid()
      modifies this
      ensures Valid() && Gateway() == old(Gateway()) && colecRowIdx == old(colecRowIdx) && devColecDataIdx == old(devColecDataIdx)
      ensures !old(AtRow()) ==> Devices() == old(Devices())
      ensures old(AtRow()) ==>
        var row := old(Current());
        Devices() == old(WithRow(row.(reals := Appended(row.reals, Item(Stored(dataTypeCd), Some(Number(realNum)))))))
    {
      SetData(RealNumber, dataTypeCd, Some(Number(realNum)));
    }

    // -------------------------------------------------------------------------------------
    // Reading

    // im_body525_req_start_parse
    method StartParse()
      modifies this`devColecDataIdx, this`colecRowIdx
      ensures devColecDataIdx == 0 && colecRowIdx == 0
    {
      devColecDataIdx := 0;
      colecRowIdx := 0;
    }

    // im_body525_req_next_devColecDataIdx
    method NextDevColecDataIdx()
      modifies this`devColecDataIdx, this`colecRowIdx
      ensures devColecDataIdx == old(devColecDataIdx) + 1 && colecRowIdx == 0
    {
      devColecDataIdx := devColecDataIdx + 1;
      colecRowIdx := 0;
    }

    // im_body525_req_next_colecRowIdx
    method NextColecRowIdx()
      modifies this`colecRowIdx
      ensures colecRowIdx == old(colecRowIdx) + 1
    {
      colecRowIdx := colecRowIdx + 1;
    }

    // The lookups that the readers share: the device, the item and, if they are there, success.
    method FindItem(kind: Kind, idx: int) returns (rc: int, devId: Option<CString>, tag: Option<CString>, value: Option<Json>)
      ensures rc == if AtRow() && 0 <= idx < |Of(Current(), kind)| then 0 else -1
      ensures rc == 0 ==> devId == Devices()[devColecDataIdx].devId
      ensures rc == 0 ==> tag == Of(Current(), kind)[idx].tag && value == Of(Current(), kind)[idx].value
    {
      hide DevicesOf, DeviceOf, RowOf, Name, Get, ItemAt, Of;
      rc, devId, tag, value := -1, None, None, None;
      DeviceFound(root, devColecDataIdx);
      var device := ItemAt(root, Name(DevCnvyDataVOs), devColecDataIdx);
      if device.None? {
        return;
      }
      RowFound(device.value, colecRowIdx);
      var row := ItemAt(device.value, Name(CnvyRowVOs), colecRowIdx);
      if row.None? {
        return;
      }
      ItemFound(row.value, kind, idx);
      var item := ItemAt(row.value, Name(ListName(kind)), idx);
      if item.None? {
        return;
      }
      rc := 0;
      devId := TextOf(Get(device.value, Name(DevId)));
      tag := TextOf(Get(item.value, Name(TagName(kind))));
      value := Get(item.value, Name(ValueName(kind)));
    }

    // im_body525_req_get_numdata_with_index
    method GetNumdataWithIndex(idx: int) returns (rc: int, devId: Option<CString>, tag: Option<CString>, val: real)
      ensures rc == if AtRow() && 0 <= idx < |Current().sensors| then 0 else -1
      ensures rc == 0 ==> devId == Devices()[devColecDataIdx].devId
      ensures rc == 0 ==> tag == Current().sensors[idx].tag && val == NumberOf(Current().sensors[idx].value)
    {
      hide DevicesOf;
      var value;
      rc, devId, tag, value := FindItem(Sensor, idx);
      val := NumberOf(value);
    }

    // im_body525_req_get_strdata_with_index
    method GetStrdataWithIndex(idx: int) returns (rc: int, devId: Option<CString>, tag: Option<CString>, val: Option<CString>)
      ensures rc == if AtRow() && 0 <= idx < |Current().texts| then 0 else -1
      ensures rc == 0 ==> devId == Devices()[devColecDataIdx].devId
      ensures rc == 0 ==> tag == Current().texts[idx].tag && val == TextOf(Current().texts[idx].value)
    {
      hide DevicesOf;
      var value;
      rc, devId, tag, value := FindItem(Textual, idx);
      val := TextOf(value);
    }

    // im_body525_req_get_integerdata_with_index. No value is shown where the conversion is undefined.
    method GetIntegerdataWithIndex(idx: int) returns (rc: int, devId: Option<CString>, tag: Option<CString>, val: Option<int>)
      ensures rc == if AtRow() && 0 <= idx < |Current().integers| then 0 else -1
      ensures rc == 0 ==> devId == Devices()[devColecDataIdx].devId
      ensures rc == 0 ==> tag == Current().integers[idx].tag && val == Converted(NumberOf(Current().integers[idx].value))
    {
      hide DevicesOf;
      var value;
      rc, devId, tag, value := FindItem(Integer, idx);
      val := Converted(NumberOf(value));
    }

    // im_body525_req_get_floatdata_with_index
    method GetFloatdataWithIndex(idx: int) returns (rc: int, devId: Option<CString>, tag: Option<CString>, val: real)
      ensures rc == if AtRow() && 0 <= idx < |Current().reals| then 0 else -1
      ensures rc == 0 ==> devId == Devices()[devColecDataIdx].devId
      ensures rc == 0 ==> tag == Current().reals[idx].tag && val == NumberOf(Current().reals[idx].value)
    {
      hide DevicesOf;
      var value;
      rc, devId, tag, value := FindItem(RealNumber, idx);
      val := NumberOf(value);
    }

    // im_body525_req_get_groupTagCode
    method GetGroupTagCode() returns (rc: int, group: Option<CString>)
      ensures rc == if AtRow() then 0 else -1
      ensures rc == 0 ==> group == Current().group
    {
      hide DevicesOf, DeviceOf, RowOf, Name, Get, ItemAt, Of;
      DeviceFound(root, devColecDataIdx);
      var device := ItemAt(root, Name(DevCnvyDataVOs), devColecDataIdx);
      if device.None? {
        return -1, None;
      }
      RowFound(device.value, colecRowIdx);
      var row := ItemAt(device.value, Name(CnvyRowVOs), colecRowIdx);
      if row.None? {
        return -1, None;
      }
      ItemFound(row.value, Sensor, 0);
      return 0, TextOf(Get(row.value, Name(GroupTagCd)));
    }
  }
}
