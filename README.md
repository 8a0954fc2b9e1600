# espwebutils in Dafny

A Dafny model of the core of espwebutils, a small ESP32 library that keeps a
device's settings in typed "topics", persists them in the Preferences store,
serves them to a browser dashboard over a WebSocket and ships a few web pages
for setup, administration and over-the-air updates.

The model has two halves:

* **The browser engine** (`website/js/model_generic.js`): field
  classification, the set of fields the operator is editing, the coalescing
  render flag, the incremental render pass over cards and rows on an
  abstract keyed DOM, and the chart registry with its snapshot and streaming
  rules.
* **The device layer** (C++ headers under `src/`): the fixed-capacity
  containers (`PointRingBuffer`, `List`, `StringBuffer`, `StaticString`,
  `Button`, the older `LiveGraphManager`), the policy-driven `Var` wrapper and
  its serializer dispatch, the strict and tolerant schema reader, the
  `ModelBase` topic registry with its Preferences store and WebSocket guard
  cascade, and the small state machines: the admin model's password
  bootstrap and button dispatch, the admin page's Base64 decoder (section 4 of
  RFC 4648) and HTTP Basic check (section 2 of RFC 7617), the OTA window, the
  wrap-safe `Periodic` timer, the Wi-Fi provisioner's pages, admin check, scan
  list, save handler and scheduled restart, the logger's level filter and the
  time-sync conversion.

JSON is a datatype (`JsonDoc.Json`, integer numbers only); `millis()`, the
wall clock, the scan results and the random words a password is drawn from are
parameters; the Preferences store is a map; `ESP.restart()`, WebSocket sends
and broadcasts are recorded as counters or logs of messages. C++ unsigned
arithmetic is written out (`Machine.Wrap32`, `Machine.Elapsed32`,
`Machine.WrapI32`). Compile-time `SFINAE` selection becomes explicit
capability flags per type.

Files, one module each: `wrappers`, `machine`, `json`, `jsvalue`,
`strorder`, `selectors`, `fieldview`, `charts`, `dashboard` (the browser
engine); `ring_math`, `point_ring`, `live_graph`, `list_type`, `primitives`,
`static_string`, `button`, `var`, `var_io`, `var_dispatch`, `serializer`,
`model_base`, `passwords`, `admin`, `arduino_text`, `base64`, `web_files`,
`admin_page`, `ota`, `periodic`, `provisioner`, `logger`, `time_provider`
(the device layer).

## Model

| member | source | states |
|---|---|---|
| FieldView.UnwrapField | website/js/model_generic.js:62-79 | the kind tag always matches the value (a list holds an array, a bool a boolean, a number a number, a string a string) |
| FieldView.UnwrapIsPeelThenClassify | website/js/model_generic.js:62-79 | unwrapping is: peel every `{value: ...}` wrapper, then classify the rest by the first matching rule (items array, button, secret, array, boolean, number, string) |
| FieldView.UnwrapWrapper | website/js/model_generic.js:74 | a `{value: v}` wrapper classifies exactly as `v` |
| FieldView.UnwrapSecretShowsNothing | website/js/model_generic.js:71-73 | an object typed "secret" is shown as the empty string whatever else it carries |
| FieldView.LowerAscii | website/js/model_generic.js:126 | `toLowerCase` on ASCII: same length, upper-case letters lowered, everything else kept |
| FieldView.DesiredKind | website/js/model_generic.js:126-127 | a row is a button exactly when the field is a button or its key contains "button" in any case; otherwise the field's own kind |
| FieldView.ItemTexts | website/js/model_generic.js:164-168 | one list item per element, each the element's text |
| FieldView.UpdateRowView | website/js/model_generic.js:124-229 | after `updateRow` the row's kind is the desired kind, and an input set from the server holds the value as the browser keeps it (`InputValue`) |
| FieldView.StripNewlines | website/js/model_generic.js:221-227 | a text input set to a string holds it with every CR and LF removed and every other character kept |
| FieldView.InputValue | website/js/model_generic.js:221-227 | a text input holds no line break; a number input holds its text exactly when it is a valid floating-point number, and is empty otherwise |
| FieldView.PrintedNumberKept | website/js/model_generic.js:221-227 | a number input keeps every integer printed into it |
| FieldView.NonNumberSubmitsZero | website/js/model_generic.js:363-365 | a number input given text that is no number is empty, and its field is sent as 0 |
| FieldView.SavedTextLosesLineBreaks | website/js/model_generic.js:221-227 | an unedited text field holding `"a\nb"` is saved back as `"ab"` |
| FieldView.EditedRowKeepsValue | website/js/model_generic.js:194-197 | while a field is marked as edited, a render leaves the value its checkbox or input shows untouched |
| FieldView.CleanRowShowsServer | website/js/model_generic.js:194-227 | an unmarked checkbox or number input shows the server's value after a render, whatever it held before; a text input shows the server's string without its line breaks |
| FieldView.RebuildForgetsOldRow | website/js/model_generic.js:129-133 | a row whose kind changes is rebuilt from nothing: the result does not depend on the old row |
| FieldView.Payload | website/js/model_generic.js:355-369 | the submitted payload has exactly one entry per checkbox or input row, with that row's value |
| FieldView.UntouchedRowSubmitsServerValue | website/js/model_generic.js:355-369 | saving a card nobody edited sends back the server's value of every checkbox and number field, and of every text field without its line breaks (unchanged when it has none) |
| FieldView.SubmitsShownValue | website/js/model_generic.js:355-369 | a rendered, unedited row submits the server's value, a text without its line breaks (`Resubmitted`) |
| StrOrder.StrLessIrreflexive | website/js/model_generic.js:314 | the order `sort()` uses is irreflexive |
| StrOrder.StrLessTransitive | website/js/model_generic.js:314 | the order is transitive |
| StrOrder.StrLessTotal | website/js/model_generic.js:314 | the order is total on distinct strings |
| StrOrder.StrLessAsymmetric | website/js/model_generic.js:314 | the order is asymmetric |
| StrOrder.InsertSorted | website/js/model_generic.js:314 | inserting a new name keeps a sequence sorted and adds exactly that name |
| StrOrder.SortedUnique | website/js/model_generic.js:314 | two sorted sequences with the same names are equal: the sorted topic order is unique |
| JsValue.DigitRun | website/js/model_generic.js:364 | the longest run of digits at the start of a text |
| JsValue.ParseFloatOfPrinted | website/js/model_generic.js:364-365 | `parseFloat` reads back every integer as printed, so an untouched number input submits the server's number |
| JsValue.ParseFloatOfUnsigned | website/js/model_generic.js:364 | a digit run parses to its value |
| JsValue.ParseFloatOfSigned | website/js/model_generic.js:364 | a minus sign and a digit run parse to the negated value |
| JsValue.IndexKey | website/js/model_generic.js:242-244 | an array index key names an index below the length and is its canonical decimal form |
| JsValue.PropOfIndex | website/js/model_generic.js:242-244 | every key `Object.keys` lists for an array or a string reads back its element |
| Selectors.ReplaceChar | website/js/model_generic.js:22 | a global replace of a character by a text without it leaves no occurrence |
| Selectors.EscapeAttrValueIsPerChar | website/js/model_generic.js:21-23 | the two global replacements together escape each character on its own (backslash first, then quote) |
| Selectors.EscapeRoundTrip | website/js/model_generic.js:21-23 | a CSS parser reads the escaped text back as the original name, for every name without NUL or line breaks (CSS Syntax Level 3, section 4.3.5) |
| Selectors.EscapeBreaksOnNewline | website/js/model_generic.js:21-23 | the escaped form of a name with a line break is no valid CSS string (a bad string), so the selector built from it is invalid |
| Selectors.DirtyKey | website/js/model_generic.js:19 | the key of a field starts with its topic and a NUL |
| Selectors.DirtyKeyInjective | website/js/model_generic.js:19 | for NUL-free topics the key determines topic and field |
| Selectors.DirtyKeyPrefix | website/js/model_generic.js:35-39 | `startsWith(topic + NUL)` selects exactly the keys of that topic |
| Charts.SnapshotPoints | website/js/model_generic.js:633-637 | one point per snapshot entry, `x` defaulting to the entry's index |
| Charts.SnapshotNeverShrinks | website/js/model_generic.js:626-640 | a snapshot never removes points, and leaves a non-empty series alone unless it is strictly longer |
| Charts.SnapshotIdempotent | website/js/model_generic.js:626-640 | applying the same snapshot twice equals applying it once |
| Charts.Shift | website/js/model_generic.js:660-665 | `shift` drops the oldest point, and nothing from an empty series |
| Charts.StreamPush | website/js/model_generic.js:657-665 | streaming a point keeps the graph's chart, bound and set of series |
| Charts.StreamAppends | website/js/model_generic.js:657-665 | the point's own series ends with the point, having lost at most its oldest point |
| Charts.StreamSiblings | website/js/model_generic.js:660-665 | every other series is unchanged or loses exactly its oldest point, and only when it is over the bound and the pushed series overflowed |
| Charts.StreamKeepsBound | website/js/model_generic.js:657-665 | with a non-negative bound every series of the graph stays within it |
| Charts.StreamAll | website/js/model_generic.js:644-669 | streaming a sequence of points keeps the series present |
| Charts.StreamKeepsLastN | website/js/model_generic.js:657-665 | after streaming points into a series it holds exactly the most recent `maxCount` of them, oldest first |
| Charts.HandleGraphPointSpec | website/js/model_generic.js:644-669 | the registry keeps its graphs, and every graph other than the point's is unchanged |
| Charts.UnknownSeriesDropped | website/js/model_generic.js:645-655 | a point for an unknown graph, a chart-less graph or an unknown label changes nothing; no series is created on demand |
| Charts.EnsureGraphSpec | website/js/model_generic.js:506-592 | after `ensureGraph` the graph is registered and its container sits in the requested host |
| Charts.RenderGraphSpec | website/js/model_generic.js:594-642 | after `renderGraph` the graph and the field's series are registered, the container is in the host, and every other graph is untouched |
| Charts.DrawSeries | website/js/model_generic.js:599-641 | drawing a field keeps the chart flag, and adds exactly the field's series to the graph |
| Charts.RenderLiveGraphKeepsSeries | website/js/model_generic.js:506-592 | a graph whose container is in the document keeps its chart and every series |
| Charts.DrawSeriesKeeps | website/js/model_generic.js:605-641 | drawing keeps every series; only the field's own can change, and only grow |
| Charts.RenderDetachedGraphStartsOver | website/js/model_generic.js:506-533 | a graph whose container left the document starts over with only the rendered series |
| Charts.RenderFieldsDetached | website/js/model_generic.js:323-328 | rendering the graph rows of a card that is not yet in the document keeps the registry well formed |
| Charts.RenderFieldsAttached | website/js/model_generic.js:243-257 | the same rows rendered with the card in the document keep the registry well formed |
| Charts.AttachedKeepsRegistered | website/js/model_generic.js:243-257 | with the card attached, every series registered so far stays registered while the remaining rows draw |
| Charts.AttachedCardKeepsEverySeries | website/js/model_generic.js:243-257 | with the card attached, every series of every graph row of the card is in the registry afterwards |
| Charts.DetachedCardLosesFirstSeries | website/js/model_generic.js:323-328 | as written: two graph fields of one new card sharing a graph lose the first field's series, and its streamed points are dropped |
| Charts.AttachedCardKeepsBothDemoSeries | website/js/model_generic.js:323-328 | the same two fields with the card attached first keep both series |
| ModelGeneric.ClearedMarks | website/js/model_generic.js:35-39 | clearing a topic's marks removes exactly that topic's fields and keeps every other topic's |
| ModelGeneric.TriggerMessage | website/js/model_generic.js:387-397 | a button trigger is sent exactly when the socket is open, as a `button_trigger` action |
| ModelGeneric.SortTopics | website/js/model_generic.js:314 | the topic names come out sorted, each exactly once |
| ModelGeneric.RemoveVanished | website/js/model_generic.js:317-321 | exactly the cards of topics no longer present leave the container, the others keep their order |
| ModelGeneric.PlaceTopic | website/js/model_generic.js:323-329 | a missing card is made outside the container, drawn there and then appended; an existing card is drawn in place and moved to the end; no other card changes; the card's graph series are registered when it was already in the container |
| ModelGeneric.RenderTopics | website/js/model_generic.js:296-353 | the container ends holding exactly one card per topic in sorted order, each drawn from its data and its previous rows; when every topic already had its card in the container, every graph field's series is in the chart registry |
| ModelGeneric.RenderTopicsAttached | website/js/model_generic.js:296-353 | with every card appended before it is drawn (the corrected order), the same cards and order, and every graph field's series is in the chart registry |
| ModelGeneric.AttachCard | website/js/model_generic.js:324-328 | in the corrected order, a missing card is created empty, an existing one keeps its rows, and the card is last in the container before it is drawn, with all other cards in their order |
| ModelGeneric.PlaceTopicAttached | website/js/model_generic.js:323-329 | in the corrected order, the card is appended and then drawn, and the series of its graph fields join the registered ones |
| ModelGeneric.UpdateCard | website/js/model_generic.js:231-264 | the card ends with one row per key of its data and no other, each row drawn from the row before; when the card is in the container its graph series are registered |
| ModelGeneric.DrawFields | website/js/model_generic.js:243-257 | every key's row is drawn, the card's other rows stay; series are registered when the card is in the container |
| ModelGeneric.DrawField | website/js/model_generic.js:244-256 | a graph field gets a graph row, any other field `updateRow`'s result; nothing else changes |
| ModelGeneric.DropStaleRows | website/js/model_generic.js:259-263 | the rows kept are exactly those whose key is still in the data, unchanged |
| ModelGeneric.UpdateGraphRow | website/js/model_generic.js:266-294 | the row becomes a graph row keeping its host when it was one, and the chart is drawn into that host; chart containers count as found only in cards in the container |
| ModelGeneric.RenderGraph | website/js/model_generic.js:594-642 | the imperative `renderGraph` computes `RenderGraphSpec` |
| ModelGeneric.DrawInto | website/js/model_generic.js:599-641 | the part after `ensureGraph` computes `DrawSeries` |
| ModelGeneric.Dashboard.constructor | website/js/model_generic.js:7-14 | the engine starts with no topics, no marks, no pending render, no cards and no charts |
| ModelGeneric.Dashboard.MarkDirty | website/js/model_generic.js:25-33 | marking adds or removes exactly the field's key, and `isDirty` then reports the mark |
| ModelGeneric.Dashboard.ClearDirtyForTopic | website/js/model_generic.js:35-39 | the marks become those of other topics only |
| ModelGeneric.Dashboard.ScheduleRender | website/js/model_generic.js:41-52 | at most one frame is ever pending, however often a render is requested |
| ModelGeneric.Dashboard.RunFrame | website/js/model_generic.js:41-52 | the frame clears the flag and renders: cards match the topics, in sorted order, each drawn from its data; when no topic is new, every graph field's series is registered |
| ModelGeneric.Dashboard.HandleWsMessage | website/js/model_generic.js:422-439 | a parse error or a message without topic changes nothing; a `graph_point` with data feeds only the charts; any other message replaces the topic's state wholesale with `data` or `{}` and requests a render |
| ModelGeneric.Dashboard.HandleGraphPoint | website/js/model_generic.js:644-669 | the registry becomes `HandleGraphPointSpec` of the old one |
| ModelGeneric.Dashboard.EditInput | website/js/model_generic.js:215-217 | the row holds what the browser keeps of the typed text (no line break in a text input, a valid number or nothing in a number input) and the field is marked |
| ModelGeneric.Dashboard.ToggleCheckbox | website/js/model_generic.js:189 | toggling shows the new state and marks the field |
| ModelGeneric.Dashboard.SubmitTopicUpdate | website/js/model_generic.js:355-385 | the card's payload is sent only on an open socket, and the topic's marks are cleared either way |
| RingMath.Slot | src/model/types/ModelTypePointRingBuffer.h:84 | the next slot is below the capacity |
| RingMath.ModIsSlot | src/model/types/ModelTypePointRingBuffer.h:84 | the C++ `(head + 1) % N` agrees with `Slot` on every index a ring produces |
| RingMath.Window | src/model/types/ModelTypePointRingBuffer.h:117-125 | the window of a ring holds `count` points, read from `(head + N - count) % N` on |
| RingMath.WindowPush | src/model/types/ModelTypePointRingBuffer.h:80-85 | writing at `head`, advancing it and growing `count` up to N turns the window into the last N of the old window plus the point |
| RingMath.WindowPushMod | src/LiveGraphManager.h:94-100 | the same with the head advanced by `% N` |
| RingMath.WindowPop | src/model/types/ModelTypePointRingBuffer.h:93-99 | decrementing `count` drops the oldest point of the window |
| RingMath.WindowOfFilledPrefix | src/model/types/ModelTypePointRingBuffer.h:138-160 | a ring filled from empty holds its points in slot order |
| PointRing.NameOf | src/model/types/ModelTypePointRingBuffer.h:40-50 | `nullptr` clears a name, any other text is cut to 23 characters and text that fits is kept whole |
| PointRing.PointsJson | src/model/types/ModelTypePointRingBuffer.h:120-125 | one `{x, y}` object per point, in order |
| PointRing.ReadPoints | src/model/types/ModelTypePointRingBuffer.h:148-160 | the first N elements of `values`, each read with 0 for a missing `x` or `y` |
| PointRing.ReadPointsOfRingJson | src/model/types/ModelTypePointRingBuffer.h:106-162 | reading a ring's own JSON recovers its points in order |
| PointRing.NamesOfRingJson | src/model/types/ModelTypePointRingBuffer.h:106-146 | reading a ring's own JSON recovers its graph and label |
| PointRing.PointRingBuffer.constructor | src/model/types/ModelTypePointRingBuffer.h:30-38 | a new ring is empty, with the given names (cleared for `nullptr`) and no callback |
| PointRing.PointRingBuffer.SetGraph | src/model/types/ModelTypePointRingBuffer.h:40-44 | the graph name becomes `NameOf(g)`, nothing else changes |
| PointRing.PointRingBuffer.SetLabel | src/model/types/ModelTypePointRingBuffer.h:46-50 | the label becomes `NameOf(l)`, nothing else changes |
| PointRing.PointRingBuffer.SetCallback | src/model/types/ModelTypePointRingBuffer.h:52-56 | a callback is installed exactly when one is given, the points stay |
| PointRing.PointRingBuffer.Push | src/model/types/ModelTypePointRingBuffer.h:80-90 | the contents become the last N of the old contents plus the point, and an installed callback sees the point with the current names exactly once |
| PointRing.PointRingBuffer.PushNow | src/model/types/ModelTypePointRingBuffer.h:70-78 | the timestamp is the provider's clock, else `millis()`, and the push is as above |
| PointRing.PointRingBuffer.Pop | src/model/types/ModelTypePointRingBuffer.h:93-99 | false on an empty ring with nothing changed, else the oldest point, which is removed |
| PointRing.PointRingBuffer.Write | src/model/types/ModelTypePointRingBuffer.h:106-136 | the JSON holds type, names, size, count, bound, sync flag and the points oldest first |
| PointRing.PointRingBuffer.Read | src/model/types/ModelTypePointRingBuffer.h:138-163 | always true; the names come from `graph`/`label` (empty when missing) and the contents are the first N points of `values` |
| LiveGraph.Points | src/LiveGraphManager.h:113-120 | a series' samples, oldest first: `count` of them |
| LiveGraph.NewSeries | src/LiveGraphManager.h:75-76 | a new series is empty |
| LiveGraph.PushRing | src/LiveGraphManager.h:94-100 | the series keeps its names and holds the last `maxPoints` of its samples plus the new one |
| LiveGraph.FindSeries | src/LiveGraphManager.h:85-89 | the first series for `(graph, label)`, or none when no series matches |
| LiveGraph.PushedSeriesEffect | src/LiveGraphManager.h:45-48 | `pushData` changes exactly the series of `(graph, label)`, creating it empty first when missing |
| LiveGraph.Snapshot | src/LiveGraphManager.h:102-134 | one `init` per series in order, then `init_done` |
| LiveGraph.InitDoneOnlyLast | src/LiveGraphManager.h:127-133 | `init_done` is the last message and appears nowhere else in a snapshot |
| LiveGraph.SeriesPoints | src/LiveGraphManager.h:113-120 | the index loop reads exactly the series' samples, oldest first |
| LiveGraph.LiveGraphManager.constructor | src/LiveGraphManager.h:17-18 | no series and nothing sent |
| LiveGraph.LiveGraphManager.GetOrCreateSeries | src/LiveGraphManager.h:83-92 | the existing series for `(graph, label)`, or exactly one new empty series appended |
| LiveGraph.LiveGraphManager.PushRingAt | src/LiveGraphManager.h:94-100 | only the chosen series changes |
| LiveGraph.LiveGraphManager.PushData | src/LiveGraphManager.h:45-61 | the series become `PushedSeries` and exactly one `data` message is broadcast |
| LiveGraph.LiveGraphManager.PushDataNow | src/LiveGraphManager.h:37-41 | the x value is the now-provider's reading, 0 without one |
| LiveGraph.LiveGraphManager.ClearAll | src/LiveGraphManager.h:63 | every series is removed |
| LiveGraph.LiveGraphManager.SendSnapshot | src/LiveGraphManager.h:102-134 | the messages are `Snapshot` of the series |
| FixedList.ItemsJson | src/model/ModelTypeList.h:89-93 | one JSON item per element, in order |
| FixedList.ReadItems | src/model/ModelTypeList.h:112-125 | the first N elements of the `items` array, each read in order |
| FixedList.ReadItemsOfListJson | src/model/ModelTypeList.h:83-129 | `write_ws` then `read` returns the elements, when items round-trip |
| FixedList.List.constructor | src/model/ModelTypeList.h:13 | a new list is empty |
| FixedList.List.Size | src/model/ModelTypeList.h:23 | the number of elements |
| FixedList.List.Capacity | src/model/ModelTypeList.h:24 | the capacity N |
| FixedList.List.IsFull | src/model/ModelTypeList.h:25 | full exactly when the size equals the capacity |
| FixedList.List.End | src/model/ModelTypeList.h:31-34 | iteration visits exactly the first `count` items |
| FixedList.List.Clear | src/model/ModelTypeList.h:15 | the list becomes empty, and not full unless its capacity is 0 |
| FixedList.List.Add | src/model/ModelTypeList.h:17-21 | true exactly when not full, and then the item is appended; otherwise nothing changes |
| FixedList.List.WriteWs | src/model/ModelTypeList.h:83-95 | `{type:"list", count, capacity, items}` with the items in insertion order |
| FixedList.List.Read | src/model/ModelTypeList.h:103-129 | false with nothing changed without `items`; otherwise true and the list holds the first N items read |
| FixedList.TextItemOf | src/model/ModelTypeList.h:62-68 | a text item read from a non-string is empty |
| FixedList.TextListRoundTrip | src/model/ModelTypeList.h:47-68 | a list of string buffers round-trips through its JSON |
| Primitives.EmptyBuffer | src/model/types/ModelTypePrimitive.h:17-20 | a default buffer is empty |
| Primitives.SetText | src/model/types/ModelTypePrimitive.h:26-35 | `set(nullptr)` empties the buffer; otherwise it holds the first `N - 1` characters of the C string |
| Primitives.BufferOf | src/model/types/ModelTypePrimitive.h:21-24 | the converting constructor is `set` on an empty buffer |
| Primitives.SetTextKeeps | src/model/types/ModelTypePrimitive.h:26-35 | text that fits is stored whole |
| Primitives.Equals | src/model/types/ModelTypePrimitive.h:53 | `==` compares the buffer with the C string's text |
| Primitives.NotEquals | src/model/types/ModelTypePrimitive.h:54 | `!=` is the negation of `==` |
| Primitives.SetThenEquals | src/model/types/ModelTypePrimitive.h:26-54 | after storing a fitting text the buffer equals exactly that text |
| Primitives.ReadInt | src/model/types/ModelTypePrimitive.h:77-82 | a null `value` gives false and keeps the int; otherwise true and `as<int>()` |
| Primitives.ReadBool | src/model/types/ModelTypePrimitive.h:121-126 | a null `value` gives false and keeps the bool; otherwise true and `as<bool>()` |
| Primitives.IntRoundTrip | src/model/types/ModelTypePrimitive.h:69-82 | an int written as `{value}` reads back |
| Primitives.BoolRoundTrip | src/model/types/ModelTypePrimitive.h:113-126 | a bool written as `{value}` reads back |
| Primitives.ReadBuffer | src/model/types/ModelTypePrimitive.h:145-168 | a missing `value` gives true with no change, a non-string false with no change, a string true and `set` |
| Primitives.BufferRoundTrip | src/model/types/ModelTypePrimitive.h:135-168 | a buffer written by the adapter reads back |
| Primitives.ReadBufferField | src/model/types/ModelTypePrimitive.h:183-199 | a null or non-string value gives false with no change; a string true and `set` |
| Primitives.FieldAndAdapterOnNull | src/model/types/ModelTypePrimitive.h:145-199 | the field reader and the adapter reader differ exactly on a null value |
| Primitives.BufferFieldRoundTrip | src/model/types/ModelTypePrimitive.h:176-199 | a buffer field written by `writeOne` reads back |
| StaticStrings.StaticString.constructor | src/model/ModelTypeStaticString.h:11 | a new string is empty, with no listener |
| StaticStrings.StaticString.SetOnChange | src/model/ModelTypeStaticString.h:22 | installs or removes the listener, the value stays |
| StaticStrings.StaticString.Set | src/model/ModelTypeStaticString.h:14-19 | `set(nullptr)` empties the value without notifying; any text is cut to `N - 1` characters and the listener fires once |
| StaticStrings.StaticString.Equals | src/model/ModelTypeStaticString.h:31 | `==` compares with the C string's text |
| StaticStrings.StaticString.ReadValue | src/model/ModelTypeStaticString.h:66-73 | a missing `value` gives true with no change; a non-string false; a string true and `set` |
| StaticStrings.StaticString.ReadField | src/model/ModelTypeStaticString.h:46-53 | true exactly for a string, which is then `set`; otherwise nothing changes |
| StaticStrings.ValueRoundTrip | src/model/ModelTypeStaticString.h:58-73 | a fitting text written as `{value}` reads back whole |
| Buttons.DefaultButton | src/model/ModelTypeButton.h:9 | the default id is 0 |
| Buttons.ReadField | src/model/ModelTypeButton.h:32-37 | false and unchanged on a null value, otherwise true with the value as the id |
| Buttons.WriteWs | src/model/ModelTypeButton.h:42-45 | `{type:"button", id}` |
| Buttons.WritePrefs | src/model/ModelTypeButton.h:47-49 | `{id}` and nothing else |
| Buttons.ReadAdapter | src/model/ModelTypeButton.h:51-56 | always true; a missing `id` keeps the button |
| Buttons.AdapterRoundTrip | src/model/ModelTypeButton.h:42-56 | both the WebSocket and the Preferences form read back |
| Buttons.FieldRoundTrip | src/model/ModelTypeButton.h:27-37 | a button field written by `writeOne` reads back |
| Vars.Var.constructor | src/model/var/Var.h:29-30 | holds the given value, no listener, nobody notified |
| Vars.Var.Get | src/model/var/Var.h:32-33 | the held value |
| Vars.Var.Notify | src/model/var/Var.h:100-105 | the listener is called exactly when one is installed; the value is kept |
| Vars.Var.SetOnChange | src/model/var/Var.h:35-38 | a listener is installed; value and notifications unchanged |
| Vars.Var.Touch | src/model/var/Var.h:40-43 | notifies without changing the value |
| Vars.Var.Set | src/model/var/Var.h:46-53 | assigns and notifies, also when the value is unchanged |
| Vars.Var.AssignText | src/model/var/Var.h:112-124 | text is assigned through `assign_from_cstr`, then the listener is called |
| Vars.Var.Update | src/model/var/Var.h:86-94 | `+=` / `-=` apply their step and notify |
| Vars.Var.ReadField | src/model/var/VarFieldIo.h:67-188 | value and result are those of `readOne`; the listener hears only of assignments made through the `Var` |
| Vars.Var.ReadValue | src/model/serializer/ReadDispatch.h:15-73 | value and result are those of `read_var_value`; notified only when it assigned through the `Var` |
| Vars.Var.WriteField | src/model/var/VarFieldIo.h:17-39 | nothing for `WsMode::None`, the value for `WsMode::Value` |
| Vars.Var.WritePrefsField | src/model/var/VarFieldIo.h:44-62 | nothing for `PrefsMode::Off`, the persisted value otherwise |
| Vars.ReadOnlyFieldIsInert | src/model/var/VarFieldIo.h:117-122 | a read-only `Var` keeps its value and stays silent; success exactly when the key is absent |
| VarIo.WriteOne | src/model/var/VarFieldIo.h:17-39 | the key is written unless `WsMode::None`; `Meta` sends only whether the value is initialised; `Value` sends `write_value` |
| VarIo.MetaHidesValue | src/model/var/VarFieldIo.h:26-33 | a `Meta` field's output depends only on whether it is initialised, never on the value |
| VarIo.WriteOnePrefs | src/model/var/VarFieldIo.h:44-62 | nothing when `PrefsMode::Off`, else `write_prefs_value` |
| VarIo.PrefsIgnoresWsMode | src/model/var/VarFieldIo.h:44-62 | the persisted form does not depend on the WebSocket mode: secrets are stored in full |
| VarIo.ReadOneAdapter | src/model/var/VarFieldIo.h:67-107 | read-only: unchanged, ok iff absent; writable: null refused, `{value: x}` read from `x`, else `read_value_from_variant` |
| VarIo.ReadOnePlain | src/model/var/VarFieldIo.h:112-188 | read-only: unchanged, ok iff absent; writable: null refused, `{}` accepted and ignored, text assigned through the `Var`, the rest via `read_value_from_variant` |
| VarIo.ReadOnlyNeverChanges | src/model/var/VarFieldIo.h:67-122 | a read-only field never changes, is never notified, and succeeds exactly on a null or absent key |
| VarIo.WritableRefusesNull | src/model/var/VarFieldIo.h:81-85 | a writable field refuses null and keeps its value |
| VarIo.ReadVarValueAdapter | src/model/serializer/ReadDispatch.h:15-55 | null refused; `{value: text}` and bare text assigned for text types; an array wrapped as `{items}`; objects to the adapter; the rest converted |
| VarIo.ReadVarValuePlain | src/model/serializer/ReadDispatch.h:57-73 | null refused; text assigned for text types; everything else converted, always through the `Var` |
| VarIo.ReadVarValuePlainOlder | src/model/ModelSerializer.h:117-128 | a `c_str` type takes only text; other types convert whatever arrives |
| VarIo.PlainCopiesAgree | src/model/ModelSerializer.h:117-128 | the two copies of the non-adapter route agree on non-null values when `set` and `c_str` come together |
| VarIo.RouteIgnoresWriteMode | src/model/serializer/ReadDispatch.h:57-73 | `read_var_value` changes a read-only `Var` that `readOne` would keep |
| VarDispatch.InitializedOf | src/model/var/VarTraits.h:56-82 | `isInitialized()` if present, else non-empty text for text types, else true |
| VarDispatch.AssignFromCStr | src/model/var/VarJsonDispatch.h:55-64 | `set(s)` when the type has it, plain assignment otherwise |
| VarDispatch.WriteValue | src/model/var/VarJsonDispatch.h:78-110 | the adapter's nested object, else the text, else the value |
| VarDispatch.WritePrefsValue | src/model/serializer/PrefsDispatch.h:27-51 | the adapter's preferences object, else the text, else the value |
| VarDispatch.ShapesAgreeWithoutAdapter | src/model/var/VarJsonDispatch.h:78-110 | without adapter writers the WebSocket and preferences shapes coincide |
| VarDispatch.ReadVariantAdapter | src/model/var/VarJsonDispatch.h:115-152 | null refused, objects to the adapter, text only for string-like types, the rest refused |
| VarDispatch.ListRefusesText | src/model/var/VarJsonDispatch.h:124-127 | a type that is not string-like refuses bare text and is unchanged |
| VarDispatch.ConvertDirect | src/model/var/VarJsonDispatch.h:17-40 | scalars and `String` convert; other types report failure unchanged |
| VarDispatch.ReadVariantPlain | src/model/var/VarJsonDispatch.h:156-195 | null refused; `{value}` read as text or by conversion; `{}` refused; bare values converted |
| VarDispatch.PlainNeedsText | src/model/var/VarJsonDispatch.h:156-195 | a non-scalar non-`String` type succeeds exactly on `{value: text}` |
| Serializer.MemberField | src/model/serializer/Core.h:112-119 | a plain member is written as it is (the same for preferences); reading refuses null and otherwise converts |
| Serializer.TextField | src/model/serializer/Core.h:155-165 | a `char[N]` member is written as its C string; reading takes only text and keeps at most `N - 1` characters |
| Serializer.VarField | src/model/var/VarFieldIo.h:17-188 | a `Var` member is written and read through the policy-aware `writeOne` / `writeOnePrefs` / `readOne` |
| Serializer.WrittenKeys | src/model/serializer/Core.h:214-220 | a key is in the output iff some field with that key writes something |
| Serializer.WrittenValue | src/model/serializer/Core.h:214-220 | with distinct keys, each field's JSON lands unaltered under its key |
| Serializer.StrictOkIffAll | src/model/serializer/Core.h:196-212 | the strict verdict is true iff every field's `readOne` returned true; no field is skipped after a failure |
| Serializer.ReadFieldsStrict | src/model/serializer/Core.h:231-238 | reads every field in order; returns the conjunction of their results |
| Serializer.ReadFieldsTolerant | src/model/serializer/Core.h:222-229 | leaves the same state as the strict reader and returns true |
| Serializer.NothingToRead | src/model/serializer/Core.h:222-238 | an input with none of the keys leaves the object as it was; the strict reader then fails unless the schema is empty |
| Serializer.MissingKeyRefused | src/model/serializer/Core.h:112-165 | plain members, `char[N]` fields and writable `Var`s refuse a missing key |
| Serializer.ReadOnlyFieldVerdict | src/model/var/VarFieldIo.h:117-122 | a read-only `Var` field accepts a missing key and refuses a present one, unchanged either way |
| Serializer.TextFieldRoundTrip | src/model/serializer/Core.h:54-57 | a `char[N]` field reads back what it wrote when the text fits in `N - 1` characters |
| Serializer.FromJson | src/model/serializer/Core.h:250-258 | a document that does not parse leaves the object alone and yields false; otherwise the strict or tolerant reader |
| Serializer.AdapterRead | src/model/ModelTypeTraits.h:16-19 | the primary adapter reads every field; strict reports the conjunction, tolerant always true |
| Serializer.WriteWs | src/model/ModelTypeTraits.h:80-84 | the specialisation's `write_ws` when present, else `writeFields` |
| Serializer.WritePrefs | src/model/ModelTypeTraits.h:86-89 | the specialisation's `write_prefs` when present, else `writeFields` (not `writeFieldsPrefs`) |
| Serializer.PrefsFallbackKeepsTransientVars | src/model/ModelTypeTraits.h:72-76 | without a `write_prefs`, a `PrefsMode::Off` `Var` still reaches the preferences output, although `writeFieldsPrefs` omits it |
| Topics.SchemaKind | src/model/ModelTypeTraits.h:7-20 | the primary adapter persists and sends by default; its writers and reader are the schema serializer's |
| Topics.FirstIndex | src/model/base/Topics.h:60-65 | the first entry with that name, or none exactly when no entry has it |
| Topics.SaveStep | src/model/base/PrefsStore.h:11-26 | a topic that is not persisted counts as saved; otherwise its `write_prefs` document is stored, and the result says whether the store wrote it |
| Topics.LoadStep | src/model/base/PrefsStore.h:28-50 | not persisted: untouched, true; missing key: initialised by saving; empty stored text: false; otherwise the stored document is applied tolerantly |
| Topics.LoadAll | src/model/base/PrefsStore.h:52-56 | one object per entry after loading every entry in order |
| Topics.LoadAllTouchesOnlyPersisted | src/model/base/PrefsStore.h:28-56 | loading never creates or changes a key no persisted topic owns |
| Topics.LoadAllInitialisesKeys | src/model/base/PrefsStore.h:34-37 | when the store accepts writes, every persisted topic has a key after loading |
| Topics.Classify | src/model/base/WsHandler.h:78-126 | the guards in order: empty message, invalid JSON, button trigger (with or without topic and button), missing topic or data, update |
| Topics.TextAt | src/model/base/WsHandler.h:104-107 | a member read as `const char*` is present exactly when it is a string, and then reads as its text up to the first NUL |
| Topics.UpdatePassesGuards | src/model/base/WsHandler.h:103-126 | a message with a text topic and an object `data` is an update unless its action compares equal to `button_trigger` under `strcmp` |
| Topics.ModelBase.constructor | src/model/base/WsHandler.h:20-21 | no topics, the given store, nothing sent |
| Topics.ModelBase.AddEntry | src/model/base/Topics.h:29-48 | ignored once 16 topics exist; otherwise appends the entry, hooking the save callback when the type has one |
| Topics.ModelBase.RegisterTopic | src/model/base/Topics.h:19-22 | `addEntry` with the adapter's default persistence and WebSocket flags |
| Topics.ModelBase.Find | src/model/base/Topics.h:60-65 | the loop returns `FirstIndex` |
| Topics.ModelBase.SaveEntry | src/model/base/PrefsStore.h:11-26 | store and result are `SaveStep`'s; nothing else changes |
| Topics.ModelBase.SaveTopic | src/model/base/PrefsStore.h:5-9 | false and no change for an unknown topic, else `saveEntry` of the first match |
| Topics.ModelBase.FireSaveCallback | src/model/base/Topics.h:50-58 | a hooked object's callback saves its entry; an unhooked one changes nothing |
| Topics.ModelBase.LoadEntry | src/model/base/PrefsStore.h:28-50 | object, store and result are `LoadStep`'s |
| Topics.ModelBase.LoadOrInitAll | src/model/base/PrefsStore.h:52-56 | objects and store are `LoadAll`'s over every entry |
| Topics.ModelBase.BroadcastTopic | src/model/base/WsHandler.h:40-48 | false for an unknown topic; true otherwise, sending the envelope only when `ws_send` |
| Topics.ModelBase.BroadcastAll | src/model/base/WsHandler.h:50-56 | one envelope per sent topic, in registration order |
| Topics.ModelBase.HandleButtonTrigger | src/model/base/WsHandler.h:167-170 | refuses with `button_trigger_not_implemented` and changes no state |
| Topics.ModelBase.ApplyUpdate | src/model/base/WsHandler.h:143-164 | tolerant read; on failure `apply_failed` and no save; on success save, `on_update`, `{"ok":true}`, then broadcast |
| Topics.ModelBase.HandleIncoming | src/model/base/WsHandler.h:78-165 | every rejected message changes nothing but the reply; an unknown topic gets `unknown_topic`; an update goes to the first matching entry, and on failure adds only `apply_failed`, on success saves, calls `on_update`, answers ok and broadcasts, in that order (`HandledIncoming`) |
| Topics.ModelBase.OnWsEvent | src/model/base/WsHandler.h:58-76 | a connect broadcasts every topic; a whole text frame has exactly `handleIncoming`'s effect on objects, store and events (`HandledIncoming`); other events change nothing |
| Passwords.GeneratePassword | src/AdminModel.h:264-273 | the loop returns one alphabet character per random word, in order: `Drawn` of the first `len` words |
| Passwords.DrawnFromAlphabet | src/AdminPage.h:37-49 | a generated password has the requested length and only alphabet characters |
| Passwords.AlphabetsUnambiguous | src/OtaUpdate.h:278-296 | neither alphabet contains O, I, l, 0, 1 or NUL |
| Passwords.DrawnLegible | src/AdminModel.h:264-273 | no generated password holds an ambiguous character or a NUL, so it is stored whole |
| Admin.UpdateHook | src/AdminModel.h:352-384 | each of wifi, ota, admin, mdns and time notifies its own hook; `build` and unknown topics none |
| Admin.ButtonTableAgrees | src/AdminModel.h:409-464 | the chain of comparisons agrees with the button table; any other pair is unknown |
| Admin.AdminModel.constructor | src/AdminModel.h:314-349 | passwords empty, no hooks, the heap graph named `heap`/`bytes` and wired to the live stream |
| Admin.AdminModel.Install | src/AdminModel.h:196-221 | assigning a hook changes nothing else |
| Admin.AdminModel.EnsurePasswords | src/AdminModel.h:283-312 | both passwords end non-empty; a set one is kept; an empty one is generated (admin first); both topics saved only when one was generated |
| Admin.AdminModel.OnUpdate | src/AdminModel.h:352-384 | only the updated topic's hook runs, and only when installed |
| Admin.AdminModel.HandleButtonTrigger | src/AdminModel.h:409-464 | the table's action runs and the client gets its reply; the password buttons draw a new password; an unknown pair only gets `unknown_button` |
| Admin.AdminModel.PushHeap | src/AdminModel.h:403-406 | the point enters the 5-slot heap ring, is streamed, and `touch` saves the admin topic |
| Admin.StoresGenerated | src/AdminModel.h:283-292 | a generated password fits the 32-byte buffer whole and is non-empty |
| ArduinoText.IndexOfChar | src/AdminPage.h:99-100 | the first position holding the character, or none exactly when it does not occur |
| ArduinoText.IndexOfText | src/WiFiProvisioner.h:653-690 | the first occurrence at or after `from`, or none exactly when there is none |
| ArduinoText.TrimStart | src/AdminPage.h:95-96 | drops exactly the leading white space |
| ArduinoText.TrimEnd | src/AdminPage.h:95-96 | drops exactly the trailing white space |
| ArduinoText.Trim | src/AdminPage.h:152-154 | the input without white space at either end, and nothing else removed |
| ArduinoText.TrimKeeps | src/AdminPage.h:95-96 | text without white space at its ends is unchanged |
| WebFiles.FindWebFile | src/AdminPage.h:11-17 | the first embedded file with exactly that path, or none exactly when no file has it |
| Base64.DigitOf | src/AdminPage.h:60-69 | the digit value a character stands for: its position in the alphabet (the NUL terminator gives 64) |
| Base64.AlphabetIsDigits | src/AdminPage.h:60 | the table holds the 64 digits in the standard order |
| Base64.DigitOfIsPosition | src/AdminPage.h:68-70 | `strchr` finds a non-NUL character exactly when it is in the alphabet, at its digit value |
| Base64.Gather | src/AdminPage.h:70-75 | one digit adds six bits; a byte is emitted whenever eight are pending |
| Base64.RunAppends | src/AdminPage.h:64-77 | the accumulating loop appends the decoding of the rest to what it has |
| Base64.DigitStep | src/AdminPage.h:70-75 | the 32-bit `val`/`valb` pair tracks the pending bits exactly, wrap-around included |
| Base64.DecodeBasic | src/AdminPage.h:58-78 | the decoding loop returns `Decode` of its input |
| Base64.DecodeEncode | src/AdminPage.h:58-78 | decoding a standard Base64 encoding of any bytes gives the bytes back |
| Base64.SkipsForeign | src/AdminPage.h:68-69 | a character outside the alphabet is skipped |
| Base64.StopsAtPad | src/AdminPage.h:67 | decoding stops at the first `=` |
| AdminPage.EmbeddedContentTypeBySuffix | src/AdminPage.h:24-30 | each content type is chosen exactly for its suffixes; `text/html` for the rest |
| AdminPage.ServeEmbedded | src/AdminPage.h:19-35 | 404 exactly when no embedded file has the path; otherwise that file, gzip-encoded, with the suffix's content type |
| AdminPage.IsAdminAuthorized | src/AdminPage.h:80-106 | open when authentication is off; refused when no password is stored or no header is sent |
| AdminPage.SplitOfWanted | src/AdminPage.h:99-105 | credentials `admin:<password>` split at position 5 into the user and the password |
| AdminPage.WantedOfSplit | src/AdminPage.h:99-105 | a split that passes the comparison comes from exactly `admin:<password>` |
| AdminPage.CredentialsSplit | src/AdminPage.h:99-105 | the split-and-compare accepts exactly the credentials `admin:<password>` |
| AdminPage.AuthorizedIff | src/AdminPage.h:80-106 | admitted iff authentication is off, or a password is stored and the header is `Basic ` plus a trimmed payload decoding to `admin:<password>` |
| AdminPage.TrimEncoded | src/AdminPage.h:95-96 | `trim()` keeps a Base64 encoding intact |
| AdminPage.BasicHeaderAccepted | src/AdminPage.h:80-106 | the header a browser sends for `admin` and the stored password is admitted |
| AdminPage.PlainCredentials | src/AdminPage.h:99-105 | `admin:` plus a password is NUL-free byte text |
| AdminPage.DrawnAdminBytes | src/AdminPage.h:37-49 | a generated admin password is NUL-free byte text |
| AdminPage.AdminSite.constructor | src/AdminPage.h:115-116 | the routes' shared state as given, no notifications |
| AdminPage.AdminSite.Bootstrap | src/AdminPage.h:117-124 | an empty admin password is replaced by a generated one; a set one is kept |
| AdminPage.AdminSite.GetUiConfig | src/AdminPage.h:133-142 | challenge unless admitted; the stored config, or the default when none is stored |
| AdminPage.AdminSite.PostUiConfig | src/AdminPage.h:144-161 | challenge unless admitted; a trimmed body not starting with `{` or `[` is refused with 400; otherwise stored and `{"ok":true}` |
| AdminPage.AdminSite.GetPassword | src/AdminPage.h:192-201 | challenge unless admitted; `{username: "admin", password}` |
| AdminPage.AdminSite.RegeneratePassword | src/AdminPage.h:203-217 | challenge unless admitted; a new 12-character password is stored and returned |
| AdminPage.AdminSite.ServePage | src/AdminPage.h:163-190 | challenge unless admitted; `/admin` redirects to `/wifi`; the pages come from flash when there, else embedded |
| AdminPage.RegeneratedPasswordAdmits | src/AdminPage.h:203-217 | after regeneration the browser's credentials for the new password are admitted |
| AdminPage.PostedConfigServed | src/AdminPage.h:152-158 | an accepted body that fits is stored as sent, trimmed |
| Ota.Remaining | src/OtaUpdate.h:57-67 | 0 before the start, `0xFFFFFFFF` for an unlimited window, otherwise at most the window |
| Ota.WrappedWindowClosesEarly | src/OtaUpdate.h:157-165 | a 4294968-second window wraps to 704 ms: the test as written closes it after 705 ms while the whole window still remains |
| Ota.ExpiredAgreesWithRemaining | src/OtaUpdate.h:57-67 | the corrected expiry leaves no time remaining, and no time remains exactly when the window's milliseconds have elapsed |
| Ota.AsWrittenAgreesBelowWrap | src/OtaUpdate.h:157-165 | the written and the corrected tests agree on every window whose milliseconds fit 32 bits |
| Ota.OtaUpdate.constructor | src/OtaUpdate.h:172-187 | enabled, reboot on success, not started, port 3232, window 600 s, no password |
| Ota.OtaUpdate.EmitStatus | src/OtaUpdate.h:189-193 | the message reaches the status callback exactly when one is installed |
| Ota.OtaUpdate.OnStatus | src/OtaUpdate.h:101 | installs the status callback; nothing else changes |
| Ota.OtaUpdate.SetEnabled | src/OtaUpdate.h:13-17 | the flag is set and persisted under `otaEnabled` |
| Ota.OtaUpdate.SetPort | src/OtaUpdate.h:84-88 | the port is set and persisted under `otaPort` |
| Ota.OtaUpdate.SetRebootOnSuccess | src/OtaUpdate.h:89-93 | the flag is set and persisted under `otaReboot` |
| Ota.OtaUpdate.SetWindowSeconds | src/OtaUpdate.h:95-99 | the window is set and persisted under `otaWindow` |
| Ota.OtaUpdate.SetHostname | src/OtaUpdate.h:83 | the hostname is set; nothing is persisted |
| Ota.OtaUpdate.Load | src/OtaUpdate.h:104-112 | the four settings come from the store with defaults true, 3232, true, 600; the cached password is cleared |
| Ota.OtaUpdate.SetPassword | src/OtaUpdate.h:21-34 | a given password is kept, an empty one replaced by a generated 16-character one; either is persisted |
| Ota.OtaUpdate.GetPassword | src/OtaUpdate.h:36-44 | the cached password, else the stored one, else a newly generated and persisted one; never empty |
| Ota.OtaUpdate.ClearPassword | src/OtaUpdate.h:46-50 | the password is forgotten and its key removed |
| Ota.OtaUpdate.RegeneratePassword | src/OtaUpdate.h:77-81 | a new generated password is cached, persisted and returned |
| Ota.OtaUpdate.RemainingSeconds | src/OtaUpdate.h:57-67 | the remaining time of the current window |
| Ota.OtaUpdate.RestartWindow | src/OtaUpdate.h:69-75 | once started, reopens the window from now; before that, no effect |
| Ota.OtaUpdate.BeginIfNeeded | src/OtaUpdate.h:114-148 | starts only when enabled, not started and connected: configures host (or the fallback), port, reboot flag and password, then opens the window |
| Ota.OtaUpdate.Handle | src/OtaUpdate.h:150-169 | nothing once expired or offline; closes the window by the test as written (32-bit `_windowSeconds * 1000UL`) with a status message; otherwise services OTA |
| Ota.ClosedWindowHasNoTimeLeft | src/OtaUpdate.h:150-169 | a window that `handle()` closed, if shorter than 4294968 s, reports no remaining seconds |
| Periodic.Periodic.constructor | src/Periodic.h:8-9 | the interval and callback as given, last run at 0 |
| Periodic.Periodic.SetIntervalMs | src/Periodic.h:14-18 | the interval changes; the timer restarts from now only on `reset` |
| Periodic.Periodic.Ready | src/Periodic.h:19-27 | true exactly when the interval has elapsed across a wrap of `millis()`; then the timer restarts from now |
| Periodic.Periodic.Run | src/Periodic.h:29-32 | the callback runs exactly when one is set and the timer is ready; without a callback the timer is not consumed |
| Periodic.DueAfter | src/Periodic.h:22 | `d` milliseconds after the last run the timer is ready exactly when `d` reaches the interval, even across the wrap |
| Provisioner.ContentTypeBySuffix | src/WiFiProvisioner.h:620-633 | each content type is chosen exactly for its suffix; `text/plain` for every other path |
| Provisioner.ServeWithFallback | src/WiFiProvisioner.h:597-618 | the requested embedded file when it exists, else the fallback page, else 404 exactly when neither exists |
| Provisioner.AuthorizedIff | src/WiFiProvisioner.h:653-690 | admitted iff authentication is off, or a password is stored and the session cookie, the `X-Admin-Pass` header or the `pw` parameter matches |
| Provisioner.SessionCookieAccepted | src/WiFiProvisioner.h:660-675 | a cookie header carrying `admin_session=<session>` as its first such entry is admitted, whatever follows its `;` |
| Provisioner.TokenIsSession | src/WiFiProvisioner.h:664-670 | the token runs from after the name to the next `;` |
| Provisioner.FirstCookieAt | src/WiFiProvisioner.h:662-663 | `indexOf` finds the cookie name at the first place it occurs |
| Provisioner.RestartFiresEarlyNearWrap | src/WiFiProvisioner.h:125-130 | credentials saved 1000 ms before `millis()` wraps set a deadline of 1000: the check as written restarts at once, the corrected one does not |
| Provisioner.RestartAsWrittenAgreesBeforeWrap | src/WiFiProvisioner.h:160 | the written and the corrected restart checks agree while neither the deadline nor `millis()` has wrapped since arming |
| Provisioner.RestartDueAfter | src/WiFiProvisioner.h:160 | with the corrected check the restart is due exactly when 2000 ms have elapsed since arming, across a wrap too |
| Provisioner.Kept | src/WiFiProvisioner.h:183 | at most 20 networks are kept; a negative scan result keeps none |
| Provisioner.ScanList | src/WiFiProvisioner.h:184-189 | one SSID buffer per kept network, in scan order |
| Provisioner.ScanJson | src/WiFiProvisioner.h:459-503 | an array with one entry per scanned network |
| Provisioner.ScanListFits | src/WiFiProvisioner.h:185-186 | every SSID kept fits its 32-byte buffer and is a prefix of the name up to its first NUL; a name of at most 31 characters without NUL is kept whole |
| Provisioner.Provisioner.constructor | src/WiFiProvisioner.h:35-49 | fallback `/wifi.html`, AP SSID `ESP-Setup`, host `esp32`, admin required, no networks, no restart pending |
| Provisioner.Provisioner.RefillNetworks | src/WiFiProvisioner.h:181-191 | the list is cleared and refilled with the first kept networks, then one broadcast |
| Provisioner.Provisioner.HandleScan | src/WiFiProvisioner.h:459-503 | a running scan answers `[]`; a failed one starts a new scan; otherwise the list is refilled and the networks are sent as JSON |
| Provisioner.Provisioner.ScanResults | src/WiFiProvisioner.h:180-191 | the loop refills the list and broadcasts only when a scan has completed |
| Provisioner.Provisioner.HandleSave | src/WiFiProvisioner.h:505-545 | unparsable body: 400 `invalid_json`; missing ssid or pass: 400 `missing_fields`, nothing changed; otherwise both are stored, saved, answered `{"ok":true}` and a restart follows |
| Provisioner.Provisioner.OnWifiUpdate | src/WiFiProvisioner.h:125-130 | an update arms the restart with the deadline `now + 2000` wrapped to 32 bits; the credentials are untouched |
| Provisioner.Provisioner.CheckPendingRestart | src/WiFiProvisioner.h:158-165 | the device restarts once an armed restart is due by the check as written, `millis() >= _restartTime` |
| Logger.Logger.constructor | src/Logger.h:14-23 | the level starts at `INFO` |
| Logger.Logger.SetLevel | src/Logger.h:25-27 | the level becomes the given one |
| Logger.Logger.GetLevel | src/Logger.h:29-31 | returns the current level |
| Logger.FilterOrdered | src/Logger.h:44-46 | what passes the filter is upward closed; `TRACE` passes everything and `NONE` silences every real level |
| TimeProvider.TimeNowMs | src/TimeProvider.h:15-21 | `millis()` while the clock is not synced |
| TimeProvider.SyncedReadingIsEpochMs | src/TimeProvider.h:5-21 | once synced, the reading is the epoch in milliseconds, exceeds every `millis()` value, and gives the epoch seconds back |
| JsonDoc.CStr | src/model/types/ModelTypePrimitive.h:37 | the text before the first NUL, and nothing past it |
| JsonDoc.CStrOfPlain | src/model/types/ModelTypePrimitive.h:37 | a C string reads back whole exactly when it holds no NUL |
| JsonDoc.Truncate | src/model/types/ModelTypePrimitive.h:26-35 | `strncpy` plus terminator keeps a prefix of the C string, at most the buffer's length |
| JsonDoc.TruncateKeepsFitting | src/model/types/ModelTypePrimitive.h:26-35 | NUL-free text that fits is stored whole |
| JsonDoc.AsInt | src/model/types/ModelTypePrimitive.h:80 | always a 32-bit `int`; a number in range reads as itself |
| Machine.Wrap32 | src/Periodic.h:21-22 | a value stored into `uint32_t` is reduced modulo 2^32 and unchanged when it fits |
| Machine.Elapsed32 | src/Periodic.h:22 | `(uint32_t)(now - last)`: the time between two timestamps across a wrap of `millis()` |
| Machine.ElapsedAfter | src/Periodic.h:22 | `d` ticks after any start, the elapsed time is `d` |
| Machine.WrapI32 | src/AdminPage.h:64-70 | `int` arithmetic of the target stays in 32-bit two's complement |
| RingMath.WindowPushGrows | src/model/types/ModelTypePointRingBuffer.h:80-85 | a push into a ring that is not full appends the point to the window |
| RingMath.WindowPushFull | src/model/types/ModelTypePointRingBuffer.h:80-85 | a push into a full ring drops the oldest point and appends the new one |
| Charts.StreamPushIsLastN | website/js/model_generic.js:657-665 | one streamed point leaves the last `maxPoints` points of the series plus it |
| FieldView.Peel | website/js/model_generic.js:62-74 | the payload under all `value` wrappers, itself no wrapper |
| JsValue.TrimStart | website/js/model_generic.js:364 | `parseFloat` skips exactly the leading white space and line terminators of ECMAScript, the `Zs` spaces included |
| Selectors.EscapeEachRoundTrip | website/js/model_generic.js:21-23 | a name without line breaks, escaped, is read back by the selector as itself |
| ModelGeneric.MoveToEnd | website/js/model_generic.js:323-329 | `appendChild` of the next topic keeps the container as the stale cards followed by the topics placed so far |
| ModelGeneric.PlacingEnds | website/js/model_generic.js:296-353 | after the loop the container holds exactly the topics' cards in sorted order |
| ModelGeneric.StaleRowsDropped | website/js/model_generic.js:259-263 | after dropping rows of vanished keys a card has one rendered row per key of its data |
| ModelGeneric.AllRegistered | website/js/model_generic.js:243-257 | once every field is drawn with its card in the container, every graph field's series is registered with its chart |
| Ota.Wrap16 | src/OtaUpdate.h:220-227 | a value read as `uint16_t` is a 16-bit value, unchanged when it fits |

## Left out

- Saving and restoring the focused input and its caret around a render pass.
- The DOM, Materialize toasts and Chart.js drawing: the page is a keyed map of cards and rows and a chart is a registry entry; styling, element creation details and `chart.update()` are not modelled.
- The WebSocket lifecycle in the browser (connect, reconnect timers, `onclose`) and on the device (`AsyncWebSocket` client bookkeeping): frames are inputs and sends are recorded messages.
- Floating point: JSON numbers are integers, so `parseFloat`, `TypeAdapter<float>` and fractional chart `y` values are modelled on integers; `NaN` becomes "no number".
- Key order of JavaScript objects and ArduinoJson objects: a JSON object is a map, so the order of a card's rows is not modelled; the drawing contracts of `ModelGeneric.DrawFields` hold for every key order, `Object.keys` insertion order included.
- JSON text: `JSON.parse`, `serializeJson` and `deserializeJson` are left out; a message is already a document, a parse error is its own input case, and a stored Preferences value is a document, empty or garbage.
- `random(0, n)` and `esp_random()`: each draw is `word % n` over a sequence of words given as a parameter, so the distribution of passwords is not modelled.
- The Preferences (NVS) flash store: a map from key to stored value with a flag for a failed write; namespaces, sizes and wear are left out.
- Compile-time dispatch (`SFINAE`, `if constexpr`): each type's capabilities (has an adapter, has `c_str`, has `set`) are explicit flags; which C++ types have which flags is an input.
- `src/model/ModelBase.h` is the older inline copy of `src/model/base/Topics.h`, `PrefsStore.h` and `WsHandler.h`; the split copy is modelled. Its `handleIncoming` (src/model/ModelBase.h:317-380) differs from `Topics.ModelBase.HandleIncoming` in three places: an empty message fails to parse and gets `invalid_json` rather than `empty_message`; `client` is used without a null check; and `data` is serialized to text and parsed again before `applyUpdate`, a round trip through JSON text that the model, which has no JSON text, does not represent.
- `src/model/ModelSerializer.h` is the older copy of the split serializer; only its non-adapter read path differs, and `VarIo.PlainCopiesAgree` states where the two agree.
- ArduinoOTA, `WiFi`, `DNSServer`, mDNS, `ESP.restart()` and the HTTP server: calls into them are recorded as counters or flags; their effects on the device are not modelled.
- The provisioner's station-mode routes (`/status`, `/ota/status`, `/ota/extend`, `/reset`) and the composition of `handleLoop` beyond the scan refill and the pending restart.
- The admin UI configuration document is kept as an opaque text buffer; its own schema is not part of this repository.
- `Periodic`'s callback is a flag that records whether it ran; what the callback does is the caller's.
- `ModelBase::sendGraphPoint` and `ModelBase::sendGraphPointXY` (src/model/base/Graphs.h) and `ArduinoOTA`'s progress callback only format and send messages; they are left out.
- Serial and log output (`LOG_*` macros, including the `strlen` of a missing field in `_handleSave`), and the logger as a process-wide global: it is a class with one level field.
- Cookie parsing: `indexOf("admin_session=")` also matches inside a longer cookie name; the model follows the code's substring search and does not model a cookie parser.
- AdminPage.AdminSite.PostUiConfig and Provisioner.Provisioner.HandleSave: each takes the whole request body at once; the source's body callbacks ignore `index` and `total` and judge every chunk of a chunked body on its own, and a request without a body reaches only the empty request handler and gets no reply, which the model does not capture (it answers an empty body with 400 `invalid_json`).
- Charts.SnapshotPoints: a `null` element of a snapshot's `values` array makes `point.x` throw a `TypeError` in the source and the render pass stops there; the model turns such an element into a point like any other non-object value.
- Selectors.EscapeBreaksOnNewline: a topic or field name holding a line break yields a selector that is not valid CSS; in the browser `querySelector` throws a `SyntaxError` and the render pass stops, while the model only states that the selector does not stand for the name.
- ModelGeneric.RenderTopics: cards, rows and charts are found by key in the model, so a topic or field name with a line break, which makes the source's `querySelector` throw and stops the pass, is drawn like any other name; a name holding NUL, which CSS reads as U+FFFD so that the source's `[data-topic="…"]` and `[data-row="…"]` selectors never match it, is drawn once rather than appended again on every pass. The device's topic and field names are C string literals, which hold no NUL.
- ModelGeneric.RenderTopicsAttached: one card per topic holds only for names without NUL or line breaks in the source, for the reasons given for `ModelGeneric.RenderTopics`; the model states it for every name.
- ModelGeneric.UpdateCard: one row per key holds only for field names without NUL (the source appends a duplicate row on every pass) or line breaks (the pass throws); the model states it for every name.
- ModelGeneric.Dashboard.RunFrame: cards matching the topics holds only for names without NUL (the source appends duplicate cards) or line breaks (the pass throws); the model states it for every name.
- ModelGeneric.PlacingEnds: exactly the topics' cards holds only for topic names without NUL or line breaks in the source; the model states it for every name.
- ModelGeneric.StaleRowsDropped: one row per data key holds only for field names without NUL or line breaks in the source; the model states it for every name.
- FieldView.UntouchedRowSubmitsServerValue: the round trip of a text field holds only for strings without CR or LF; a text input strips them, so saving an unedited card removes line breaks from the device's strings, which the model states (`FieldView.SavedTextLosesLineBreaks`) rather than hides.
- StrOrder.StrLess and ModelGeneric.SortTopics: topic names are ordered by Unicode code point, while `Array.prototype.sort` compares UTF-16 code units; the two orders differ only between characters U+E000 to U+FFFF and characters above U+FFFF.
- LiveGraph.LiveGraphManager.constructor: requires a capacity of at least one point; a manager built with `maxPoints` 0 divides by zero (`% _maxPoints`) on its first `pushData`, which is undefined behaviour in C++ and is not modelled.
- LiveGraph.Snapshot, LiveGraph.LiveGraphManager.SendSnapshot, Provisioner.ScanJson and Provisioner.Provisioner.HandleScan: every JSON document is unbounded in the model, while the source builds them in fixed capacities: `StaticJsonDocument<1024>` per series in `sendSnapshot` (src/LiveGraphManager.h:106), `DynamicJsonDocument doc(1024)` for the scan reply over all `n` networks (src/WiFiProvisioner.h:491-497), `JSON_CAPACITY` 2048 for envelopes and preferences (src/model/ModelBase.h:14) and `<512>` in the array shortcut of `read_var_value` (src/model/serializer/ReadDispatch.h:46). Under ArduinoJson 6 a full document silently drops what does not fit, so for long series or dense scans the device sends fewer points or networks than these members state; the truncation on overflow is not modelled.
- Charts.MaxCountOf: only a non-zero number is taken as `max_count`; the source's `graphData.max_count || 60` (website/js/model_generic.js:597, 601) also keeps a truthy non-number and later compares with it by coercion (line 661). The device always sends a number, so that case is not modelled.
- `Machine.WrapI32`: states only that the result is a 32-bit value, not which value, because the source relies on it only for range.
- `JsonDoc.AsInt`: states the result for integers in range; the conversions of strings, booleans and out-of-range numbers are in its body only.
- `FieldView.Peel`: states only that no wrapper is left; how it relates to classification is stated by `FieldView.UnwrapIsPeelThenClassify`.

## Findings

| source | as written | input that shows it | evidently intended | confidence | as-written member | corrected member |
|---|---|---|---|---|---|---|
| website/js/model_generic.js:323-328 | a new topic's card is filled while still detached, so a chart container created for one field is not found by `getElementById` for the next field of the same graph, and a second chart replaces the first | the demo topic with two graph fields sharing one graph name, on its first render | the card is in the document before its rows are drawn, so both fields share one chart and keep both series | not executed | Charts.DetachedCardLosesFirstSeries | Charts.AttachedCardKeepsBothDemoSeries |
| src/OtaUpdate.h:157-165 | the window test multiplies `_windowSeconds * 1000UL` in 32 bits, so a long window wraps to a short one, while `getRemainingSeconds` does not wrap | a window of 4294968 s becomes 704 ms; the window closes 705 ms after boot | the window closes when `_windowSeconds` seconds have elapsed, consistent with the remaining time reported | not executed | Ota.WrappedWindowClosesEarly | Ota.ExpiredAgreesWithRemaining |
| src/WiFiProvisioner.h:125-130 | the restart deadline is `millis() + 2000` and is checked with `millis() >= _restartTime`, which fails across the wrap of `millis()` | credentials saved at `millis()` = 4294966296 set a deadline of 1000, which is already reached | the restart fires 2000 ms after the save, measured by wrap-safe elapsed time | not executed | Provisioner.RestartFiresEarlyNearWrap | Provisioner.RestartDueAfter |
