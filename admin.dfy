/**
 * `AdminModel`: the library's built-in topics (wifi, ota, mdns, admin, time,
 * build), the bootstrap of the admin and OTA passwords, the notification of
 * the application after an update and the table of dashboard buttons.
 *
 * The application's `std::function` hooks are modelled by the set of hooks
 * installed; running one is recorded in `effects`, together with the save
 * requests the password fields' change listeners make and the replies sent
 * to the WebSocket client.
 */
module Admin {
  import opened Wrappers
  import opened JsonDoc
  import opened Machine
  import opened Primitives
  import opened PointRing
  import opened Passwords
  import opened RingMath

  /** The application hooks `AdminModel` offers. */
  datatype Hook =
    | WifiUpdate | WifiScanRequest | OtaUpdate | OtaExtendRequest | ResetRequest
    | MdnsUpdate | AdminUpdate | TimeUpdate | TimeSyncNow

  datatype Effect =
    | Ran(hook: Hook)              // an installed hook was called
    | SavedEntry(topic: string)    // a field's change listener saved its topic (`saveEntry`)
    | SavedTopic(topic: string)    // `saveTopic(topic)`
    | Replied(text: string)        // `client->text(...)`

  /** The topics the constructor registers, in order. */
  const Registered: seq<string> := ["wifi", "ota", "mdns", "admin", "time", "build"]

  /** `PASS_LEN` of both `AdminSettings` and `OTASettings`. */
  const PassLen: nat := 32
  /** `HEAP_SIZE`: points kept by the heap graph. */
  const HeapSize: nat := 5
  /** The length of every generated password. */
  const GeneratedLen: nat := 12

  /** `on_update(topic)`: the hook a topic's update notifies; `build` and unknown topics notify none. */
  function UpdateHook(topic: string): (r: Option<Hook>)
    ensures r.Some? <==> topic in {"wifi", "ota", "admin", "mdns", "time"}
    ensures r == Some(WifiUpdate) <==> topic == "wifi"
    ensures r == Some(OtaUpdate) <==> topic == "ota"
    ensures r == Some(AdminUpdate) <==> topic == "admin"
    ensures r == Some(MdnsUpdate) <==> topic == "mdns"
    ensures r == Some(TimeUpdate) <==> topic == "time"
  {
    if topic == "wifi" then Some(WifiUpdate)
    else if topic == "ota" then Some(OtaUpdate)
    else if topic == "admin" then Some(AdminUpdate)
    else if topic == "mdns" then Some(MdnsUpdate)
    else if topic == "time" then Some(TimeUpdate)
    else None
  }

  /** What a `button_trigger` does, by topic and button name. */
  datatype ButtonAction =
    | ScanNetworks | NewOtaPass | ExtendOtaWindow | NewAdminPass | ResetWifi | SyncTime | UnknownButton

  /** The dashboard buttons `AdminModel` serves, as a table. */
  const ButtonTable: map<(string, string), ButtonAction> := map[
    ("wifi", "scan_networks") := ScanNetworks,
    ("wifi", "wifi_scan") := ScanNetworks,
    ("ota", "generate_new_pass_button") := NewOtaPass,
    ("ota", "extend_window_button") := ExtendOtaWindow,
    ("admin", "generate_new_admin_ui_pass") := NewAdminPass,
    ("admin", "reset_wifi_button") := ResetWifi,
    ("time", "sync_now") := SyncTime]

  /** `handleButtonTrigger`'s chain of comparisons. */
  function ButtonActionOf(topic: string, button: string): ButtonAction {
    if topic == "wifi" && (button == "scan_networks" || button == "wifi_scan") then ScanNetworks
    else if topic == "ota" && button == "generate_new_pass_button" then NewOtaPass
    else if topic == "ota" && button == "extend_window_button" then ExtendOtaWindow
    else if topic == "admin" && button == "generate_new_admin_ui_pass" then NewAdminPass
    else if topic == "admin" && button == "reset_wifi_button" then ResetWifi
    else if topic == "time" && button == "sync_now" then SyncTime
    else UnknownButton
  }

  /** The chain of comparisons agrees with the table; any other pair is unknown. */
  lemma ButtonTableAgrees(topic: string, button: string)
    ensures (topic, button) in ButtonTable ==> ButtonActionOf(topic, button) == ButtonTable[(topic, button)]
    ensures (topic, button) !in ButtonTable ==> ButtonActionOf(topic, button) == UnknownButton
  {
  }

  /** The hook a button action calls, if installed; the password buttons call none. */
  function ActionHook(a: ButtonAction): Option<Hook> {
    match a
    case ScanNetworks => Some(WifiScanRequest)
    case ExtendOtaWindow => Some(OtaExtendRequest)
    case ResetWifi => Some(ResetRequest)
    case SyncTime => Some(TimeSyncNow)
    case _ => None
  }

  /** The scan reply is a raw string literal, so its backslashes are sent as they stand. */
  const ScanReply: string := "{\\\"ok\\\":true,\\\"action\\\":\\\"scan_requested\\\"}"
  const TriggeredReply: string := "{\"ok\":true,\"action\":\"button_triggered\"}"
  const UnknownButtonReply: string := "{\"ok\":false,\"error\":\"unknown_button\"}"

  function ReplyOf(a: ButtonAction): string {
    match a
    case ScanNetworks => ScanReply
    case UnknownButton => UnknownButtonReply
    case _ => TriggeredReply
  }

  /** The hook's call, when it is installed. */
  function RunIfInstalled(installed: set<Hook>, h: Option<Hook>): seq<Effect> {
    if h.Some? && h.value in installed then [Ran(h.value)] else []
  }

  /** The reply, when there is a client to send it to. */
  function ReplyIfClient(hasClient: bool, text: string): seq<Effect> {
    if hasClient then [Replied(text)] else []
  }

  class AdminModel {
    /** `admin.pass`, the admin page's password. */
    var adminPass: StringBuffer
    /** `ota.ota_pass`. */
    var otaPass: StringBuffer
    /** The application hooks that are set. */
    var installed: set<Hook>
    var effects: seq<Effect>
    /** `admin.heap`: the live graph of free heap. */
    const heap: PointRingBuffer
    /** The topics registered with the model, in order. */
    const topics: seq<string>

    predicate Valid()
      reads this, heap
    {
      adminPass.Valid() && adminPass.size == PassLen
      && otaPass.Valid() && otaPass.size == PassLen
      && heap.Valid() && heap.maxCount == HeapSize
      && topics == Registered
    }

    /**
     * `AdminModel()`: registers the six topics, names the heap graph
     * `heap`/`bytes` and routes its pushes to the live-graph stream.
     */
    constructor ()
      ensures Valid() && fresh(heap) && fresh(heap.data)
      ensures adminPass.text == "" && otaPass.text == ""
      ensures installed == {} && effects == []
      ensures heap.graphName == "heap" && heap.labelName == "bytes"
      ensures heap.onPush && heap.Contents() == [] && heap.pushed == []
    {
      adminPass := EmptyBuffer(PassLen);
      otaPass := EmptyBuffer(PassLen);
      installed := {};
      effects := [];
      topics := Registered;
      heap := new PointRingBuffer(HeapSize, None, None);
      new;
      heap.SetGraph(Some("heap"));
      heap.SetLabel(Some("bytes"));
      heap.SetCallback(true);
    }

    /** The application assigns one of the hooks. */
    method Install(h: Hook)
      requires Valid()
      modifies this
      ensures Valid() && installed == old(installed) + {h}
      ensures adminPass == old(adminPass) && otaPass == old(otaPass) && effects == old(effects)
    {
      installed := installed + {h};
    }

    /**
     * `ensurePasswords()`: an empty admin or OTA password is replaced by a
     * generated one (the OTA password draws after the admin one); when
     * either was generated, both topics are saved.
     */
    method EnsurePasswords(rnd: seq<Nat32>)
      requires Valid() && 2 * GeneratedLen <= |rnd|
      modifies this
      ensures Valid() && installed == old(installed)
      ensures adminPass.text != "" && otaPass.text != ""
      ensures old(adminPass.text) != "" ==> adminPass == old(adminPass)
      ensures old(adminPass.text) == "" ==> adminPass.text == Drawn(AdminAlphabet, rnd[..GeneratedLen])
      ensures old(otaPass.text) != "" ==> otaPass == old(otaPass)
      ensures old(otaPass.text) == "" ==>
                var k := if old(adminPass.text) == "" then GeneratedLen else 0;
                otaPass.text == Drawn(AdminAlphabet, rnd[k..k + GeneratedLen])
      ensures effects == old(effects)
                + (if old(adminPass.text) == "" then [SavedEntry("admin")] else [])
                + (if old(otaPass.text) == "" then [SavedEntry("ota")] else [])
                + (if old(adminPass.text) == "" || old(otaPass.text) == ""
                   then [SavedTopic("admin"), SavedTopic("ota")] else [])
    {
      var changed := false;
      var used := 0;
      if adminPass.text == "" {
        var p := GeneratePassword(AdminAlphabet, GeneratedLen, rnd);
        StoresGenerated(adminPass, rnd);
        adminPass := SetText(adminPass, Some(p));
        effects := effects + [SavedEntry("admin")];
        changed := true;
        used := GeneratedLen;
      }
      if otaPass.text == "" {
        var p := GeneratePassword(AdminAlphabet, GeneratedLen, rnd[used..]);
        StoresGenerated(otaPass, rnd[used..]);
        assert rnd[used..][..GeneratedLen] == rnd[used..used + GeneratedLen];
        otaPass := SetText(otaPass, Some(p));
        effects := effects + [SavedEntry("ota")];
        changed := true;
      }
      if changed {
        effects := effects + [SavedTopic("admin"), SavedTopic("ota")];
      }
    }

    /** `on_update(topic)`: only that topic's hook runs, and only when it is set. */
    method OnUpdate(topic: string)
      requires Valid()
      modifies this
      ensures Valid() && adminPass == old(adminPass) && otaPass == old(otaPass) && installed == old(installed)
      ensures effects == old(effects) + RunIfInstalled(installed, UpdateHook(topic))
    {
      var h := UpdateHook(topic);
      if h.Some? && h.value in installed {
        effects := effects + [Ran(h.value)];
      }
    }

    /**
     * `handleButtonTrigger(client, topic, button)`: the table's action runs
     * (a new password, or the hook when set) and the client gets the reply;
     * an unknown pair only gets `unknown_button`.
     */
    method HandleButtonTrigger(hasClient: bool, topic: string, button: string, rnd: seq<Nat32>)
      requires Valid() && GeneratedLen <= |rnd|
      modifies this
      ensures Valid() && installed == old(installed)
      ensures var a := ButtonActionOf(topic, button);
              effects == old(effects)
                + RunIfInstalled(installed, ActionHook(a))
                + (if a == NewOtaPass then [SavedEntry("ota")] else [])
                + (if a == NewAdminPass then [SavedEntry("admin")] else [])
                + ReplyIfClient(hasClient, ReplyOf(a))
      ensures (ButtonActionOf(topic, button) == NewOtaPass)
                ==> otaPass.text == Drawn(AdminAlphabet, rnd[..GeneratedLen])
      ensures ButtonActionOf(topic, button) != NewOtaPass ==> otaPass == old(otaPass)
      ensures (ButtonActionOf(topic, button) == NewAdminPass)
                ==> adminPass.text == Drawn(AdminAlphabet, rnd[..GeneratedLen])
      ensures ButtonActionOf(topic, button) != NewAdminPass ==> adminPass == old(adminPass)
    {
      var a := ButtonActionOf(topic, button);
      var h := ActionHook(a);
      if h.Some? && h.value in installed {
        effects := effects + [Ran(h.value)];
      }
      if a == NewOtaPass {
        var p := GeneratePassword(AdminAlphabet, GeneratedLen, rnd);
        StoresGenerated(otaPass, rnd);
        otaPass := SetText(otaPass, Some(p));
        effects := effects + [SavedEntry("ota")];
      } else if a == NewAdminPass {
        var p := GeneratePassword(AdminAlphabet, GeneratedLen, rnd);
        StoresGenerated(adminPass, rnd);
        adminPass := SetText(adminPass, Some(p));
        effects := effects + [SavedEntry("admin")];
      }
      if hasClient {
        effects := effects + [Replied(ReplyOf(a))];
      }
    }

    /** `pushHeap(x, y)`: the point enters the heap graph and `touch` saves the admin topic. */
    method PushHeap(x: Nat64, y: int)
      requires Valid()
      modifies this, heap, heap.data
      ensures Valid() && adminPass == old(adminPass) && otaPass == old(otaPass) && installed == old(installed)
      ensures heap.Contents() == LastN(old(heap.Contents()) + [Point(x, y)], HeapSize)
      ensures heap.pushed == old(heap.pushed) + if heap.onPush then [PushEvent(heap.graphName, heap.labelName, x, y)] else []
      ensures effects == old(effects) + [SavedEntry("admin")]
    {
      heap.Push(x, y);
      effects := effects + [SavedEntry("admin")];
    }
  }

  /** A generated password fits a 32-character buffer whole. */
  lemma StoresGenerated(pass: StringBuffer, rnd: seq<Nat32>)
    requires pass.Valid() && pass.size == PassLen && GeneratedLen <= |rnd|
    ensures SetText(pass, Some(Drawn(AdminAlphabet, rnd[..GeneratedLen]))).text
            == Drawn(AdminAlphabet, rnd[..GeneratedLen])
    ensures Drawn(AdminAlphabet, rnd[..GeneratedLen]) != ""
  {
    AlphabetsUnambiguous();
    DrawnLegible(AdminAlphabet, rnd[..GeneratedLen]);
    SetTextKeeps(pass, Drawn(AdminAlphabet, rnd[..GeneratedLen]));
  }
}
