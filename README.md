# Extension-property synchronisation of a BPMN property panel

This project models the extension-properties panel of a browser BPMN editor and proves properties of the model. The panel keeps a table of `name`/`value` properties in step with the `<prefix>:Properties` group held inside the selected element's `extensionElements.values`. That container is heterogeneous: it also holds listeners, form data and other entries.

The model has four modules:

- `BpmnModel` (`bpmn_model.dfy`) holds the library-owned data.
  - `Prop` is a `<prefix>:Property` value object.
  - `Ext` is a container entry: a `Group` that has `values`, or an `Opaque` entry that has none.
  - The class `BusinessObject` is the selected element, and `extensionElements` is the field the panel writes. The container is `Option<seq<Ext>>`, and `None` stands for an absent `extensionElements` or `values`.
- `PanelUtil` (`panel_util.dfy`) models `src/util/panelUtil.ts`.
  - It has the two factories.
  - It has the first-match projection `ExtractExtensionList` and the type-inequality filter `ExtractOtherExtensionList`. Both are pure functions of the container value.
  - It has the single writer, `UpdateElementExtensions`, which assigns the element's container field.
- `JsArray` (`js_array.dfy`) gives ECMAScript's `Array.prototype.splice` on sequences.
  - A negative start counts from the end.
  - The start is clamped into `0..len`.
  - The delete count is clamped into `0..len-start`.
- `ExtensionProperties` (`extension_properties.dfy`) models `src/bpmn/panel/ExtensionProperties/ExtensionProperties.tsx`.
  - The class `ExtensionPanel` has the React state `propertyList` and `dataSource` as fields.
  - Its methods are `InitRows`, `GetOtherExtensionList`, `CreateOrUpdate` and `Remove`.
  - The specification functions `Upserted`, `Deleted` and `Committed` give the new list and the new container.
  - The lemmas relate these functions to plain sequence update, deletion and append. They also prove the write-then-read round trip.

The library's factory (`moddle.create`) becomes datatype constructors. `modeling.updateProperties` becomes an assignment to `extensionElements`. The global `window.bpmnInstance` becomes the panel's `element` field, and the engine `prefix` from the redux store becomes a constructor parameter. The snapshot copy `[...propertyList]` is a sequence value, so splicing it cannot change the cached list. Each user action is one sequential step.

The model follows the code, also where the code departs from the intended design:

- An out-of-range `rowKey` is not rejected. It gets JavaScript `splice` semantics.
  - `createOrUpdate` with a key past the end appends.
  - `remove` with a key past the end leaves the list as it is, but it still rewrites the container.
  - `remove(0)` would delete the last entry. No table row has key 0.
- The extraction functions do not return empty when no element is selected. The code would throw, so the model always has a selected element.
- Several `<prefix>:Properties` groups collapse into one after any edit. That group is built from the first group's values.

## Model

| member | source | states |
|---|---|---|
| PanelUtil.CreateProperty | src/util/panelUtil.ts:8-14 | the entry is tagged `prefix:Property` and carries the given name and value unchanged |
| PanelUtil.CreateProperties | src/util/panelUtil.ts:21-26 | the entry is a group tagged `prefix:Properties` whose `values` are exactly the given sequence, in order |
| PanelUtil.TypeName | src/util/panelUtil.ts:38 | the template string `${prefix}:${suffix}`: the prefix, then one colon, then the suffix |
| PanelUtil.FirstOfType | src/util/panelUtil.ts:37-39 | `find` semantics: none exactly when no entry has the tag; otherwise the index of the first entry that has it |
| PanelUtil.ValuesOf | src/util/panelUtil.ts:39 | `?.values` falling back to `[]`: a group's `values`, and empty for an entry that has no `values` |
| PanelUtil.ExtractExtensionList | src/util/panelUtil.ts:33-41 | empty when the container is absent or has no `prefix:suffix` entry; otherwise the `values` of the first such entry, or empty when it has none |
| PanelUtil.WithoutType | src/util/panelUtil.ts:52-54 | `filter` keeps an entry exactly when it was in the input with a different tag; the result is no longer than the input |
| PanelUtil.ExtractOtherExtensionList | src/util/panelUtil.ts:48-56 | empty when the container is absent; no result entry has tag `prefix:suffix`; an entry is in the result iff it is in the container with another tag; the length is at most the container's |
| PanelUtil.WithoutTypeAppend | src/util/panelUtil.ts:52-54 | filtering distributes over concatenation |
| PanelUtil.WithoutTypeKeepsAll | src/util/panelUtil.ts:52-54 | a sequence with no entry of the filtered tag passes through unchanged |
| PanelUtil.WithoutTypePosition | src/util/panelUtil.ts:52-54 | a kept entry at position `i` appears at the position given by the number of kept entries before it (order is preserved) |
| PanelUtil.WithoutTypeMonotone | src/util/panelUtil.ts:52-54 | kept entries leave in increasing order of their original positions |
| PanelUtil.ExtractOtherIdempotent | src/util/panelUtil.ts:48-56 | re-filtering a container made of the filter's output returns that output unchanged |
| PanelUtil.UpdateElementExtensions | src/util/panelUtil.ts:62-75 | the element's container becomes exactly the given list; the frame allows no other element field to change |
| PanelUtil.PropertyEntriesAreOthers | src/util/panelUtil.ts:8-56 | the tags `prefix:Property` and `prefix:Properties` differ, so a `prefix:Property` entry in the container is kept by the `Properties` filter |
| PanelUtil.RoundTrip | src/util/panelUtil.ts:21-75 | writing `others ++ [createProperties(prefix, ps)]`, with no `prefix:Properties` entry in `others`, reads back `ps` and exactly `others` |
| JsArray.Splice | src/bpmn/panel/ExtensionProperties/ExtensionProperties.tsx:92-96 | the result length is the input length minus the clamped delete count plus the number of inserted items |
| JsArray.SpliceReplace | src/bpmn/panel/ExtensionProperties/ExtensionProperties.tsx:92-96 | splicing one item over one in-range element is the positional update `s[i := x]` |
| JsArray.SpliceAtEnd | src/bpmn/panel/ExtensionProperties/ExtensionProperties.tsx:92-96 | a start at or past the end (clamped) deletes nothing and appends the items |
| JsArray.SpliceDelete | src/bpmn/panel/ExtensionProperties/ExtensionProperties.tsx:109 | deleting one in-range element gives `s[..i] + s[i+1..]` |
| JsArray.SpliceDeleteFromEnd | src/bpmn/panel/ExtensionProperties/ExtensionProperties.tsx:109 | a negative start `-k` deletes the element `k` places from the end |
| ExtensionProperties.Rows | src/bpmn/panel/ExtensionProperties/ExtensionProperties.tsx:64-71 | one row per property; row `i` has key `i+1` and the name and value of property `i`, so the keys are exactly `1..n` in order |
| ExtensionProperties.RowsAddressProperties | src/bpmn/panel/ExtensionProperties/ExtensionProperties.tsx:64-71 | every row key lies in `1..n` and the row shows the name and value of property `key-1`, so `remove(record.key)` is always in range |
| ExtensionProperties.UpsertStart | src/bpmn/panel/ExtensionProperties/ExtensionProperties.tsx:93 | the splice start is never negative, and it is an index into the list exactly when `rowKey` names an existing row (then it is `rowKey-1`) |
| ExtensionProperties.Upserted | src/bpmn/panel/ExtensionProperties/ExtensionProperties.tsx:91-96 | the new property is in the list; the length is kept for an existing row and grows by one otherwise |
| ExtensionProperties.Deleted | src/bpmn/panel/ExtensionProperties/ExtensionProperties.tsx:108-109 | at most one entry goes and nothing new appears; the length drops by one unless the list is empty or the key is past the end |
| ExtensionProperties.Committed | src/bpmn/panel/ExtensionProperties/ExtensionProperties.tsx:101 | the committed container ends with a group of type `prefix:Properties` holding the given list, and no entry before it has that type |
| ExtensionProperties.UpsertedReplacesRow | src/bpmn/panel/ExtensionProperties/ExtensionProperties.tsx:91-96 | for `1 <= rowKey <= n` the length stays `n`, position `rowKey-1` holds the new property, and every other position is unchanged |
| ExtensionProperties.UpsertedAppends | src/bpmn/panel/ExtensionProperties/ExtensionProperties.tsx:92-96 | for `rowKey <= 0` or `rowKey > n` the result is `old ++ [property]` |
| ExtensionProperties.DeletedRemovesRow | src/bpmn/panel/ExtensionProperties/ExtensionProperties.tsx:108-109 | for `1 <= rowKey <= n` the result is `old[..rowKey-1] + old[rowKey..]`, of length `n-1` |
| ExtensionProperties.DeletedPastEnd | src/bpmn/panel/ExtensionProperties/ExtensionProperties.tsx:109 | a key past the end deletes nothing |
| ExtensionProperties.DeletedKeyZero | src/bpmn/panel/ExtensionProperties/ExtensionProperties.tsx:109 | key 0 becomes start -1, so the last entry is deleted |
| ExtensionProperties.CommittedRoundTrip | src/bpmn/panel/ExtensionProperties/ExtensionProperties.tsx:97-103 | the committed container reads back the written list, and the same other entries in the same order as before the commit |
| ExtensionProperties.CommittedSingleGroup | src/bpmn/panel/ExtensionProperties/ExtensionProperties.tsx:101 | however many `prefix:Properties` entries there were, the committed container has exactly one, and it is last |
| ExtensionProperties.EditStartsFromFirstGroup | src/bpmn/panel/ExtensionProperties/ExtensionProperties.tsx:61-114 | with the cached list read from the container, an edit or a removal commits the other entries followed by one group built from the FIRST `prefix:Properties` entry's values; later groups are dropped |
| ExtensionProperties.ScenarioUpdateKeepsListener | src/bpmn/panel/ExtensionProperties/ExtensionProperties.tsx:83-104 | editing row 1 of `[Listener A, Properties([x=1])]` to `x=2` gives `[Listener A, Properties([x=2])]` |
| ExtensionProperties.ScenarioAddToEmpty | src/bpmn/panel/ExtensionProperties/ExtensionProperties.tsx:83-104 | adding `a=b` to an absent container gives `[Properties([a=b])]` |
| ExtensionProperties.ScenarioRemoveFirst | src/bpmn/panel/ExtensionProperties/ExtensionProperties.tsx:106-109 | removing row 1 of `[a=1, b=2]` leaves `[b=2]` |
| ExtensionProperties.ExtensionPanel.constructor | src/bpmn/panel/ExtensionProperties/ExtensionProperties.tsx:28-29 | both state lists start empty |
| ExtensionProperties.ExtensionPanel.InitRows | src/bpmn/panel/ExtensionProperties/ExtensionProperties.tsx:54-73 | `propertyList` is the list extracted from the element; `dataSource` is its rows with keys `1..n` |
| ExtensionProperties.ExtensionPanel.GetOtherExtensionList | src/bpmn/panel/ExtensionProperties/ExtensionProperties.tsx:78-80 | reads the non-group entries without changing anything; none of them is tagged `prefix:Properties` |
| ExtensionProperties.ExtensionPanel.CreateOrUpdate | src/bpmn/panel/ExtensionProperties/ExtensionProperties.tsx:83-104 | the new list is the old one with row `rowKey` replaced, or with the property appended when the key is not an existing row; the container becomes the other entries read at commit time followed by one group holding the new list; other entries keep their order; exactly one group remains; the rows are rebuilt |
| ExtensionProperties.ExtensionPanel.Remove | src/bpmn/panel/ExtensionProperties/ExtensionProperties.tsx:106-117 | for an existing row the new list is the old one without that entry, in order, and a key past the end keeps the list; the container is rewritten as for `CreateOrUpdate` with exactly one group; the rows are rebuilt |

## Left out

- Extraction with no element selected: the code dereferences `element.businessObject` without a guard and would throw. The model always has a selected element, so it makes no claim about that case.
- The early return of `initRows` when there is no business object: unreachable here, because the panel always holds its element.
- The React state batching and the lost-update race between rapid actions: this is UI timing and concurrency, so each action is one sequential step.
- The undo stack, change events and re-rendering that `modeling.updateProperties` triggers inside the diagram library: external to this code.
- The antd table columns, the JSX, the edit modal and the notification toast of `remove`: presentation only.
- `rowKey` values that JavaScript allows but the model does not (undefined, fractional, non-numeric): the model takes an integer. In `createOrUpdate` an undefined key behaves like 0, the "add" case. In `remove` an undefined key gives a `NaN` start, which `splice` treats as 0, so the first entry would go; the model does not cover this, since `remove` is only called with a row's key.
- `PropertyPanel.tsx` and `DesignerConfig.tsx`: event wiring and forms with no logic to verify.
