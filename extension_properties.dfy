/**
 * The extension-properties panel: a table of `name`/`value` rows kept in step
 * with the `<prefix>:Properties` group of the selected element's extension
 * container. Every edit splices a copy of the cached property list, wraps it
 * into one new group, writes "fresh other entries ++ [that group]" as the
 * whole container, and re-reads the list to rebuild the 1-based row keys.
 */
module ExtensionProperties {
  import opened BpmnModel
  import opened PanelUtil
  import opened JsArray

  /** The suffix of the type this panel edits: `<prefix>:Properties`. */
  const PropertiesSuffix: string := "Properties"

  /** One table row: its 1-based key and the property's name and value. */
  datatype Row = Row(key: int, name: string, value: string)

  /** The table rows for a property list: one row per property, row `i` with key `i + 1`. */
  function Rows(properties: seq<Prop>): (rows: seq<Row>)
    ensures |rows| == |properties|
    ensures forall i :: 0 <= i < |rows| ==>
              rows[i].key == i + 1 && rows[i].name == properties[i].name && rows[i].value == properties[i].value
  {
    seq(|properties|, i requires 0 <= i < |properties| => Row(i + 1, properties[i].name, properties[i].value))
  }

  /** Every row key addresses a property: it lies in `1..n` and the row shows that property. */
  lemma RowsAddressProperties(properties: seq<Prop>)
    ensures forall r :: r in Rows(properties) ==>
              && 1 <= r.key <= |properties|
              && r.name == properties[r.key - 1].name
              && r.value == properties[r.key - 1].value
  {
  }

  /**
   * The position `createOrUpdate` splices at: `rowKey - 1` for a row, the end
   * for a new one. It is never negative, and it is an index into the list
   * exactly when `rowKey` names an existing row.
   */
  function UpsertStart(n: nat, rowKey: int): (start: int)
    ensures start >= 0
    ensures start < n <==> 1 <= rowKey <= n
    ensures start < n ==> start == rowKey - 1
  {
    if rowKey > 0 then rowKey - 1 else n
  }

  /** The property list after `createOrUpdate` puts `p` at row `rowKey`: `p` is in it, and it grows only for a new row. */
  function Upserted(properties: seq<Prop>, rowKey: int, p: Prop): (r: seq<Prop>)
    ensures |r| == if 1 <= rowKey <= |properties| then |properties| else |properties| + 1
    ensures p in r
  {
    var start := UpsertStart(|properties|, rowKey);
    assert Splice(properties, start, 1, [p])[SpliceStart(|properties|, start)] == p;
    Splice(properties, start, 1, [p])
  }

  /** The property list after `remove` deletes row `rowKey`: at most one entry goes, and nothing new appears. */
  function Deleted(properties: seq<Prop>, rowKey: int): (r: seq<Prop>)
    ensures |r| == if |properties| == 0 || rowKey > |properties| then |properties| else |properties| - 1
    ensures forall x :: x in r ==> x in properties
  {
    Splice(properties, rowKey - 1, 1, [])
  }

  /**
   * The container an edit commits: the other entries of `container`, then one
   * new group. The group is last and holds the list; no entry before it has
   * the group's type.
   */
  function Committed(container: Option<seq<Ext>>, prefix: string, properties: seq<Prop>): (r: Option<seq<Ext>>)
    ensures r.Some? && |r.value| > 0
    ensures r.value[|r.value| - 1] == Group(TypeName(prefix, PropertiesSuffix), properties)
    ensures forall i :: 0 <= i < |r.value| - 1 ==> r.value[i].tag != TypeName(prefix, PropertiesSuffix)
  {
    Some(ExtractOtherExtensionList(container, prefix, PropertiesSuffix) + [CreateProperties(prefix, properties)])
  }

  /** Editing an existing row replaces exactly that position. */
  lemma UpsertedReplacesRow(properties: seq<Prop>, rowKey: int, p: Prop)
    requires 1 <= rowKey <= |properties|
    ensures |Upserted(properties, rowKey, p)| == |properties|
    ensures Upserted(properties, rowKey, p)[rowKey - 1] == p
    ensures forall i :: 0 <= i < |properties| && i != rowKey - 1 ==> Upserted(properties, rowKey, p)[i] == properties[i]
  {
    SpliceReplace(properties, rowKey - 1, p);
  }

  /** A non-positive key, or one past the end (clamped by `splice`), appends. */
  lemma UpsertedAppends(properties: seq<Prop>, rowKey: int, p: Prop)
    requires rowKey <= 0 || rowKey > |properties|
    ensures Upserted(properties, rowKey, p) == properties + [p]
  {
    SpliceAtEnd(properties, UpsertStart(|properties|, rowKey), 1, [p]);
  }

  /** Deleting an existing row removes exactly that entry; the rest keep their order. */
  lemma DeletedRemovesRow(properties: seq<Prop>, rowKey: int)
    requires 1 <= rowKey <= |properties|
    ensures Deleted(properties, rowKey) == properties[..rowKey - 1] + properties[rowKey..]
    ensures |Deleted(properties, rowKey)| == |properties| - 1
  {
    SpliceDelete(properties, rowKey - 1);
  }

  /** A key past the end deletes nothing. */
  lemma DeletedPastEnd(properties: seq<Prop>, rowKey: int)
    requires rowKey > |properties|
    ensures Deleted(properties, rowKey) == properties
  {
    SpliceAtEnd(properties, rowKey - 1, 1, []);
  }

  /** Key 0 becomes start -1, which `splice` counts from the end: the last entry goes. */
  lemma DeletedKeyZero(properties: seq<Prop>)
    requires |properties| > 0
    ensures Deleted(properties, 0) == properties[..|properties| - 1]
  {
    SpliceDeleteFromEnd(properties, 1);
  }

  /**
   * A committed container reads back the written list and the same other
   * entries, in the same order, as the container it replaced.
   */
  lemma CommittedRoundTrip(container: Option<seq<Ext>>, prefix: string, properties: seq<Prop>)
    ensures ExtractExtensionList(Committed(container, prefix, properties), prefix, PropertiesSuffix) == properties
    ensures ExtractOtherExtensionList(Committed(container, prefix, properties), prefix, PropertiesSuffix)
            == ExtractOtherExtensionList(container, prefix, PropertiesSuffix)
  {
    RoundTrip(prefix, ExtractOtherExtensionList(container, prefix, PropertiesSuffix), properties);
  }

  /**
   * However many `<prefix>:Properties` entries the container held, the
   * committed one holds exactly one, placed last.
   */
  lemma CommittedSingleGroup(container: Option<seq<Ext>>, prefix: string, properties: seq<Prop>)
    ensures var c := Committed(container, prefix, properties).value;
            && CountOfType(c, TypeName(prefix, PropertiesSuffix)) == 1
            && c[|c| - 1] == CreateProperties(prefix, properties)
  {
    var others := ExtractOtherExtensionList(container, prefix, PropertiesSuffix);
    CountOfTypeAppend(others, [CreateProperties(prefix, properties)], TypeName(prefix, PropertiesSuffix));
  }

  /**
   * When the cached list was read from a container holding several
   * `<prefix>:Properties` groups, an edit or a removal replaces all of them
   * by one group built from the values of the FIRST of them.
   */
  lemma EditStartsFromFirstGroup(entries: seq<Ext>, prefix: string, i: int, rowKey: int, p: Prop)
    requires IsFirstOfType(entries, TypeName(prefix, PropertiesSuffix), i)
    ensures var cached := ExtractExtensionList(Some(entries), prefix, PropertiesSuffix);
            Committed(Some(entries), prefix, Upserted(cached, rowKey, p))
            == Some(WithoutType(entries, TypeName(prefix, PropertiesSuffix))
                    + [CreateProperties(prefix, Upserted(ValuesOf(entries[i]), rowKey, p))])
    ensures var cached := ExtractExtensionList(Some(entries), prefix, PropertiesSuffix);
            Committed(Some(entries), prefix, Deleted(cached, rowKey))
            == Some(WithoutType(entries, TypeName(prefix, PropertiesSuffix))
                    + [CreateProperties(prefix, Deleted(ValuesOf(entries[i]), rowKey))])
  {
  }

  /**
   * Editing row 1 of `[Listener A, Properties([x=1])]` to `x=2` keeps the
   * listener first and rewrites the group after it.
   */
  lemma ScenarioUpdateKeepsListener()
    ensures var before := Some([Opaque("flowable:ExecutionListener", "A"),
                                Group("flowable:Properties", [Prop("flowable:Property", "x", "1")])]);
            var cached := ExtractExtensionList(before, "flowable", PropertiesSuffix);
            Committed(before, "flowable", Upserted(cached, 1, CreateProperty("flowable", "x", "2")))
            == Some([Opaque("flowable:ExecutionListener", "A"),
                     Group("flowable:Properties", [Prop("flowable:Property", "x", "2")])])
  {
    var listener := Opaque("flowable:ExecutionListener", "A");
    var x1 := Prop("flowable:Property", "x", "1");
    var x2 := CreateProperty("flowable", "x", "2");
    assert TypeName("flowable", PropertiesSuffix) == "flowable:Properties";
    assert TypeName("flowable", "Property") == "flowable:Property";
    RoundTrip("flowable", [listener], [x1]);
    assert [listener] + [CreateProperties("flowable", [x1])]
        == [listener, Group("flowable:Properties", [x1])];
    UpsertedReplacesRow([x1], 1, x2);
    assert Upserted([x1], 1, x2) == [x2];
    assert [listener] + [CreateProperties("flowable", [x2])]
        == [listener, Group("flowable:Properties", [Prop("flowable:Property", "x", "2")])];
  }

  /** Adding `a=b` to an absent container writes a container holding just that group. */
  lemma ScenarioAddToEmpty()
    ensures var cached := ExtractExtensionList(None, "flowable", PropertiesSuffix);
            Committed(None, "flowable", Upserted(cached, 0, CreateProperty("flowable", "a", "b")))
            == Some([Group("flowable:Properties", [Prop("flowable:Property", "a", "b")])])
  {
    assert TypeName("flowable", PropertiesSuffix) == "flowable:Properties";
    assert TypeName("flowable", "Property") == "flowable:Property";
    var p := CreateProperty("flowable", "a", "b");
    UpsertedAppends([], 0, p);
    assert ExtractExtensionList(None, "flowable", PropertiesSuffix) == [];
    assert Upserted([], 0, p) == [p];
    assert p == Prop("flowable:Property", "a", "b");
    assert CreateProperties("flowable", [p]) == Group("flowable:Properties", [p]);
    assert [] + [CreateProperties("flowable", [p])] == [CreateProperties("flowable", [p])];
  }

  /** Removing row 1 of `[a=1, b=2]` leaves `[b=2]`. */
  lemma ScenarioRemoveFirst()
    ensures Deleted([Prop("flowable:Property", "a", "1"), Prop("flowable:Property", "b", "2")], 1)
            == [Prop("flowable:Property", "b", "2")]
  {
    DeletedRemovesRow([Prop("flowable:Property", "a", "1"), Prop("flowable:Property", "b", "2")], 1);
  }

  /**
   * The panel over the selected element: the cached property list and the
   * table rows derived from it. `prefix` is the engine namespace of the
   * editor's configuration.
   */
  class ExtensionPanel {
    const prefix: string
    const element: BusinessObject
    var propertyList: seq<Prop>
    var dataSource: seq<Row>

    /**
     * The table shows the cached list. Every state-changing method ensures it;
     * none needs it, since each rebuilds the rows from the list it writes.
     */
    ghost predicate Valid()
      reads this
    {
      dataSource == Rows(propertyList)
    }

    /** A panel whose state starts as two empty lists. */
    constructor (prefix: string, element: BusinessObject)
      ensures this.prefix == prefix && this.element == element
      ensures propertyList == [] && dataSource == []
      ensures Valid()
    {
      this.prefix := prefix;
      this.element := element;
      propertyList := [];
      dataSource := [];
    }

    /** Re-reads the property list from the element and rebuilds the rows. */
    method InitRows()
      modifies this`propertyList, this`dataSource
      ensures propertyList == ExtractExtensionList(element.extensionElements, prefix, PropertiesSuffix)
      ensures Valid()
    {
      var properties := ExtractExtensionList(element.extensionElements, prefix, PropertiesSuffix);
      propertyList := properties;
      dataSource := Rows(properties);
    }

    /** The element's entries that are not `<prefix>:Properties`, read fresh. */
    method GetOtherExtensionList() returns (others: seq<Ext>)
      ensures others == ExtractOtherExtensionList(element.extensionElements, prefix, PropertiesSuffix)
      ensures forall i :: 0 <= i < |others| ==> others[i].tag != TypeName(prefix, PropertiesSuffix)
    {
      others := ExtractOtherExtensionList(element.extensionElements, prefix, PropertiesSuffix);
    }

    /**
     * Puts a new property at row `rowKey` (replacing that row) or, for a key
     * that is not positive or past the end, after the last row.
     */
    method CreateOrUpdate(rowKey: int, propertyName: string, propertyValue: string)
      modifies this`propertyList, this`dataSource, element`extensionElements
      ensures Valid()
      ensures propertyList == Upserted(old(propertyList), rowKey, CreateProperty(prefix, propertyName, propertyValue))
      ensures 1 <= rowKey <= |old(propertyList)| ==>
                propertyList == old(propertyList)[rowKey - 1 := CreateProperty(prefix, propertyName, propertyValue)]
      ensures rowKey <= 0 || rowKey > |old(propertyList)| ==>
                propertyList == old(propertyList) + [CreateProperty(prefix, propertyName, propertyValue)]
      ensures element.extensionElements == Committed(old(element.extensionElements), prefix, propertyList)
      ensures ExtractOtherExtensionList(element.extensionElements, prefix, PropertiesSuffix)
              == ExtractOtherExtensionList(old(element.extensionElements), prefix, PropertiesSuffix)
      ensures CountOfType(element.extensionElements.value, TypeName(prefix, PropertiesSuffix)) == 1
    {
      var property := CreateProperty(prefix, propertyName, propertyValue);
      var newProperties := propertyList;
      newProperties := Splice(newProperties, UpsertStart(|propertyList|, rowKey), 1, [property]);
      var properties := CreateProperties(prefix, newProperties);
      ghost var before := element.extensionElements;
      var others := GetOtherExtensionList();
      UpdateElementExtensions(element, others + [properties]);
      CommittedRoundTrip(before, prefix, newProperties);
      CommittedSingleGroup(before, prefix, newProperties);
      InitRows();
      if 1 <= rowKey <= |old(propertyList)| {
        SpliceReplace(old(propertyList), rowKey - 1, property);
      } else {
        UpsertedAppends(old(propertyList), rowKey, property);
      }
    }

    /** Deletes row `rowKey` from the list and commits the rest. */
    method Remove(rowKey: int)
      modifies this`propertyList, this`dataSource, element`extensionElements
      ensures Valid()
      ensures propertyList == Deleted(old(propertyList), rowKey)
      ensures 1 <= rowKey <= |old(propertyList)| ==>
                propertyList == old(propertyList)[..rowKey - 1] + old(propertyList)[rowKey..]
      ensures rowKey > |old(propertyList)| ==> propertyList == old(propertyList)
      ensures element.extensionElements == Committed(old(element.extensionElements), prefix, propertyList)
      ensures ExtractOtherExtensionList(element.extensionElements, prefix, PropertiesSuffix)
              == ExtractOtherExtensionList(old(element.extensionElements), prefix, PropertiesSuffix)
      ensures CountOfType(element.extensionElements.value, TypeName(prefix, PropertiesSuffix)) == 1
    {
      var newProperties := propertyList;
      newProperties := Splice(newProperties, rowKey - 1, 1, []);
      var properties := CreateProperties(prefix, newProperties);
      ghost var before := element.extensionElements;
      var others := GetOtherExtensionList();
      UpdateElementExtensions(element, others + [properties]);
      CommittedRoundTrip(before, prefix, newProperties);
      CommittedSingleGroup(before, prefix, newProperties);
      InitRows();
      if 1 <= rowKey <= |old(propertyList)| {
        SpliceDelete(old(propertyList), rowKey - 1);
      } else if rowKey > |old(propertyList)| {
        DeletedPastEnd(old(propertyList), rowKey);
      }
    }
  }
}
