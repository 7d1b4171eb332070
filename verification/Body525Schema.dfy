// The names in the text of the 525 report, written out: body_util.c, body_525_rep.c and
// body_525_req.c.
module Body525Schema {
  import opened Wrappers
  import opened CStrings
  import opened JsonTree
  import opened JsonWrap
  import opened Body525

  // ---------------------------------------------------------------------------------------
  // Names

  lemma FieldNames()
    ensures Name(ExtrSysId) == Ascii("extrSysId") && Name(DevId) == Ascii("devId") && Name(OccDt) == Ascii("occDt")
    ensures Name(GroupTagCd) == Ascii("groupTagCd")
    ensures Name(DataTypeCd) == Ascii("dataTypeCd") && Name(SnsnTagCd) == Ascii("snsnTagCd")
  {
  }

  lemma ValueNames()
    ensures Name(SnsnVal) == Ascii("snsnVal") && Name(StrVal) == Ascii("strVal")
    ensures Name(IntVal) == Ascii("intVal") && Name(RlNumVal) == Ascii("rlNumVal")
  {
  }

  lemma ListNames()
    ensures Name(SnsnDataInfoVOs) == Ascii("snsnDataInfoVOs") && Name(StrDataInfoVOs) == Ascii("strDataInfoVOs")
    ensures Name(IntDataInfoVOs) == Ascii("intDataInfoVOs") && Name(RlNumDataInfoVOs) == Ascii("rlNumDataInfoVOs")
  {
    hide *;
    FirstListNames();
    LastListNames();
  }

  lemma FirstListNames()
    ensures Name(SnsnDataInfoVOs) == Ascii("snsnDataInfoVOs") && Name(StrDataInfoVOs) == Ascii("strDataInfoVOs")
  {
  }

  lemma LastListNames()
    ensures Name(IntDataInfoVOs) == Ascii("intDataInfoVOs") && Name(RlNumDataInfoVOs) == Ascii("rlNumDataInfoVOs")
  {
  }

  lemma OuterListNames()
    ensures Name(DevCnvyDataVOs) == Ascii("devCnvyDataVOs") && Name(CnvyRowVOs) == Ascii("cnvyRowVOs")
  {
  }

  // ---------------------------------------------------------------------------------------
  // What the readers look up, in any tree

  lemma DevicesAreAt(v: Json)
    ensures var xs := Items(v, Ascii("devCnvyDataVOs"));
      |DevicesOf(v)| == |xs| && forall i :: 0 <= i < |xs| ==> DevicesOf(v)[i] == DeviceOf(xs[i])
  {
    hide Name, Ascii, DeviceOf;
    OuterListNames();
  }

  lemma DeviceIsAt(v: Json)
    ensures DeviceOf(v).devId == TextOf(Get(v, Ascii("devId")))
    ensures var xs := Items(v, Ascii("cnvyRowVOs"));
      |DeviceOf(v).rows| == |xs| && forall i :: 0 <= i < |xs| ==> DeviceOf(v).rows[i] == RowOf(xs[i])
  {
    hide Name, Ascii, RowOf;
    FieldNames();
    OuterListNames();
  }

  lemma RowIsAt(v: Json)
    ensures RowOf(v).occDt == TextOf(Get(v, Ascii("occDt"))) && RowOf(v).group == TextOf(Get(v, Ascii("groupTagCd")))
    ensures ItemsAreAt(v, RowOf(v).sensors, "snsnDataInfoVOs", "dataTypeCd", "snsnVal")
    ensures ItemsAreAt(v, RowOf(v).texts, "strDataInfoVOs", "snsnTagCd", "strVal")
    ensures ItemsAreAt(v, RowOf(v).integers, "intDataInfoVOs", "dataTypeCd", "intVal")
    ensures ItemsAreAt(v, RowOf(v).reals, "rlNumDataInfoVOs", "dataTypeCd", "rlNumVal")
  {
    hide Name, Ascii, Get, Items;
    FieldNames();
    ValueNames();
    ListNames();
  }

  // The items are those of a list, each with its tag and its value under two names.
  predicate ItemsAreAt(v: Json, items: seq<Item>, list: string, tag: string, value: string) {
    var xs := Items(v, Ascii(list));
    |items| == |xs|
    && forall i :: 0 <= i < |xs| ==> items[i] == Item(TextOf(Get(xs[i], Ascii(tag))), Get(xs[i], Ascii(value)))
  }

  // ---------------------------------------------------------------------------------------
  // What the writers leave

  // An object with values under some of these names and under no others.
  ghost predicate HasOnly(v: Json, names: set<string>) {
    v.Object? && Distinct(v.members) && forall i :: 0 <= i < |v.members| ==> exists name <- names :: v.members[i].name == Ascii(name)
  }

  ghost predicate IsItemOf(v: Json, tagName: string, valueName: string, item: Item) {
    && HasOnly(v, {tagName, valueName})
    && Get(v, Ascii(tagName)) == Str(item.tag) && Get(v, Ascii(valueName)) == item.value
  }

  ghost predicate AreItemsOf(vs: seq<Json>, tagName: string, valueName: string, items: seq<Item>) {
    |vs| == |items| && forall i :: 0 <= i < |vs| ==> IsItemOf(vs[i], tagName, valueName, items[i])
  }

  ghost predicate IsRowOf(v: Json, row: Row) {
    && HasOnly(v, {"occDt", "groupTagCd", "snsnDataInfoVOs", "strDataInfoVOs", "intDataInfoVOs", "rlNumDataInfoVOs"})
    && Get(v, Ascii("occDt")) == Str(row.occDt) && Get(v, Ascii("groupTagCd")) == Str(row.group)
    && AreItemsOf(Items(v, Ascii("snsnDataInfoVOs")), "dataTypeCd", "snsnVal", row.sensors)
    && AreItemsOf(Items(v, Ascii("strDataInfoVOs")), "snsnTagCd", "strVal", row.texts)
    && AreItemsOf(Items(v, Ascii("intDataInfoVOs")), "dataTypeCd", "intVal", row.integers)
    && AreItemsOf(Items(v, Ascii("rlNumDataInfoVOs")), "dataTypeCd", "rlNumVal", row.reals)
  }

  ghost predicate IsDeviceOf(v: Json, d: Device) {
    && HasOnly(v, {"devId", "cnvyRowVOs"}) && Get(v, Ascii("devId")) == Str(d.devId)
    && |Items(v, Ascii("cnvyRowVOs"))| == |d.rows|
    && forall i :: 0 <= i < |d.rows| ==> IsRowOf(Items(v, Ascii("cnvyRowVOs"))[i], d.rows[i])
  }

  ghost predicate IsReportOf(v: Json, ds: seq<Device>) {
    && HasOnly(v, {"extrSysId", "devCnvyDataVOs"}) && |Items(v, Ascii("devCnvyDataVOs"))| == |ds|
    && forall i :: 0 <= i < |ds| ==> IsDeviceOf(Items(v, Ascii("devCnvyDataVOs"))[i], ds[i])
  }

  // Values under two keys and no others, and what the keys are called.
  lemma OnlyTwo(v: Json, k: Key, l: Key, kName: string, lName: string)
    requires Known(v) && Absent(v, {k, l}) && Name(k) == Ascii(kName) && Name(l) == Ascii(lName)
    ensures HasOnly(v, {kName, lName})
  {
    hide Name, Ascii;
    forall i | 0 <= i < |v.members|
      ensures exists name <- {kName, lName} :: v.members[i].name == Ascii(name)
    {
      var m := KeyAt(v, i, {k, l});
      assert kName in {kName, lName} && lName in {kName, lName};
    }
  }

  // The key of a member.
  lemma KeyAt(v: Json, i: nat, keys: set<Key>) returns (k: Key)
    requires Known(v) && Absent(v, keys) && i < |v.members|
    ensures v.members[i].name == Name(k) && k in keys
  {
    hide Name;
    assert IsName(v.members[i].name);
    k :| v.members[i].name == Name(k);
    FindDistinct(v.members, i);
    assert Get(v, Name(k)) != None;
  }

  lemma KindNames(kind: Kind)
    ensures Name(ListName(kind)) == Ascii(match kind
      case Sensor => "snsnDataInfoVOs" case Textual => "strDataInfoVOs"
      case Integer => "intDataInfoVOs" case RealNumber => "rlNumDataInfoVOs")
    ensures Name(TagName(kind)) == Ascii(TagText(kind)) && Name(ValueName(kind)) == Ascii(ValueText(kind))
  {
    hide Name, Ascii;
    FieldNames();
    ValueNames();
    ListNames();
  }

  function TagText(kind: Kind): string {
    if kind == Textual then "snsnTagCd" else "dataTypeCd"
  }

  function ValueText(kind: Kind): string {
    match kind
    case Sensor => "snsnVal"
    case Textual => "strVal"
    case Integer => "intVal"
    case RealNumber => "rlNumVal"
  }

  lemma ItemsAreOf(vs: seq<Json>, kind: Kind, items: seq<Item>)
    requires IsList(vs, kind, items)
    ensures AreItemsOf(vs, TagText(kind), ValueText(kind), items)
  {
    hide Name, Ascii, Known, Get, HasOnly, TagText, ValueText, TagName, ValueName;
    KindNames(kind);
    forall i | 0 <= i < |vs|
      ensures IsItemOf(vs[i], TagText(kind), ValueText(kind), items[i])
    {
      assert IsItem(vs[i], kind, items[i]);
      OnlyTwo(vs[i], TagName(kind), ValueName(kind), TagText(kind), ValueText(kind));
    }
  }

  lemma RowIsOf(v: Json, row: Row)
    requires IsRow(v, row)
    ensures IsRowOf(v, row)
  {
    hide Name, Ascii, Known, Get, Items, HasOnly, IsList, AreItemsOf;
    FieldNames();
    ListNames();
    forall kind: Kind
      ensures AreItemsOf(Items(v, Name(ListName(kind))), TagText(kind), ValueText(kind), Of(row, kind))
    {
      ItemsAreOf(Items(v, Name(ListName(kind))), kind, Of(row, kind));
    }
    assert AreItemsOf(Items(v, Name(ListName(Sensor))), TagText(Sensor), ValueText(Sensor), Of(row, Sensor));
    assert AreItemsOf(Items(v, Name(ListName(Textual))), TagText(Textual), ValueText(Textual), Of(row, Textual));
    assert AreItemsOf(Items(v, Name(ListName(Integer))), TagText(Integer), ValueText(Integer), Of(row, Integer));
    assert AreItemsOf(Items(v, Name(ListName(RealNumber))), TagText(RealNumber), ValueText(RealNumber), Of(row, RealNumber));
    OnlyRowNames(v);
  }

  lemma OnlyRowNames(v: Json)
    requires Known(v) && Absent(v, ROW_KEYS)
    ensures HasOnly(v, {"occDt", "groupTagCd", "snsnDataInfoVOs", "strDataInfoVOs", "intDataInfoVOs", "rlNumDataInfoVOs"})
  {
    hide Name, Ascii;
    FieldNames();
    ListNames();
    var names := {"occDt", "groupTagCd", "snsnDataInfoVOs", "strDataInfoVOs", "intDataInfoVOs", "rlNumDataInfoVOs"};
    forall i | 0 <= i < |v.members|
      ensures exists name <- names :: v.members[i].name == Ascii(name)
    {
      var k := KeyAt(v, i, ROW_KEYS);
      assert "occDt" in names && "groupTagCd" in names && "snsnDataInfoVOs" in names && "strDataInfoVOs" in names
             && "intDataInfoVOs" in names && "rlNumDataInfoVOs" in names;
    }
  }

  lemma DeviceIsOf(v: Json, d: Device)
    requires IsDevice(v, d)
    ensures IsDeviceOf(v, d)
  {
    hide Name, Ascii, Known, Get, Items, HasOnly, IsRow, IsRowOf;
    FieldNames();
    OuterListNames();
    OnlyTwo(v, DevId, CnvyRowVOs, "devId", "cnvyRowVOs");
    forall i | 0 <= i < |d.rows|
      ensures IsRowOf(Items(v, Name(CnvyRowVOs))[i], d.rows[i])
    {
      RowIsOf(Items(v, Name(CnvyRowVOs))[i], d.rows[i]);
    }
  }

  // A report as the writers make it has exactly the members of the schema.
  lemma ReportIsOf(v: Json, ds: seq<Device>)
    requires IsReport(v, ds)
    ensures IsReportOf(v, ds)
  {
    hide Name, Ascii, Known, Get, Items, HasOnly, IsDevice, IsDeviceOf;
    FieldNames();
    OuterListNames();
    OnlyTwo(v, ExtrSysId, DevCnvyDataVOs, "extrSysId", "devCnvyDataVOs");
    forall i | 0 <= i < |ds|
      ensures IsDeviceOf(Items(v, Name(DevCnvyDataVOs))[i], ds[i])
    {
      DeviceIsOf(Items(v, Name(DevCnvyDataVOs))[i], ds[i]);
    }
  }

  // A packet body shows its devices and its gateway under those names.
  lemma BodyIsOf(body: IMPacketBody)
    requires body.Valid()
    ensures IsReportOf(body.root, body.Devices()) && body.Gateway() == Get(body.root, Ascii("extrSysId"))
  {
    hide Name, Ascii, Get, DevicesOf, IsReport, IsReportOf;
    FieldNames();
    ReportIsOf(body.root, body.Devices());
  }
}
