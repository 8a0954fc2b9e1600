/**
 * The Wi-Fi provisioner (`WiFiProvisioner.h`): the pages it serves from the
 * embedded files, its admin check (session cookie, `X-Admin-Pass` header or
 * `pw` query parameter), the list of scanned networks it keeps in the model,
 * the credentials it saves from the setup page, and the restart it schedules
 * when new credentials arrive over the WebSocket.
 *
 * `millis()` is the parameter `now`; a scan result is the status
 * `WiFi.scanComplete()` returns and the networks it found.  `ESP.restart()`
 * is recorded as a flag, and `Serial` and log output are left out.
 */
module Provisioner {
  import opened Wrappers
  import opened JsonDoc
  import opened Machine
  import opened Primitives
  import opened ArduinoText
  import opened FixedList
  import opened WebFiles

  /** `WifiSettings::MAX_NETWORKS`, `SSID_LEN` and `PASS_LEN`. */
  const MaxNetworks: nat := 20
  const SsidLen: nat := 32
  const WifiPassLen: nat := 64
  /** `AdminSettings::PASS_LEN` and `SESSION_LEN`. */
  const AdminPassLen: nat := 32
  const SessionLen: nat := 64
  /** The delay between new credentials over the WebSocket and the restart. */
  const RestartDelayMs: nat := 2000

  const SessionCookie: string := "admin_session="

  const InvalidJsonReply: string := "{\"ok\":false,\"error\":\"invalid_json\"}"
  const MissingFieldsReply: string := "{\"ok\":false,\"error\":\"missing_fields\"}"
  const SavedReply: string := "{\"ok\":true}\n"

  // ---------------------------------------------------------------------------
  // Serving the embedded pages
  // ---------------------------------------------------------------------------

  /** `_getContentType(path)`: the first suffix that matches decides. */
  function ContentType(path: string): string {
    if EndsWith(path, ".html") then "text/html"
    else if EndsWith(path, ".css") then "text/css"
    else if EndsWith(path, ".js") then "application/javascript"
    else if EndsWith(path, ".woff2") then "font/woff2"
    else if EndsWith(path, ".ico") then "image/x-icon"
    else "text/plain"
  }

  /** Two suffixes that differ `k` characters from their ends cannot both end a path. */
  lemma SuffixesDiffer(path: string, a: string, b: string, k: nat)
    requires 1 <= k <= |a| && k <= |b| && a[|a| - k] != b[|b| - k]
    ensures !(EndsWith(path, a) && EndsWith(path, b))
  {
  }

  /** No path has two of the suffixes, so each type is sent exactly for its suffix. */
  lemma ContentTypeBySuffix(path: string)
    ensures ContentType(path) == "text/html" <==> EndsWith(path, ".html")
    ensures ContentType(path) == "text/css" <==> EndsWith(path, ".css")
    ensures ContentType(path) == "application/javascript" <==> EndsWith(path, ".js")
    ensures ContentType(path) == "font/woff2" <==> EndsWith(path, ".woff2")
    ensures ContentType(path) == "image/x-icon" <==> EndsWith(path, ".ico")
    ensures ContentType(path) == "text/plain" <==>
              !EndsWith(path, ".html") && !EndsWith(path, ".css") && !EndsWith(path, ".js")
              && !EndsWith(path, ".woff2") && !EndsWith(path, ".ico")
  {
    SuffixesDiffer(path, ".html", ".css", 1);
    SuffixesDiffer(path, ".html", ".js", 1);
    SuffixesDiffer(path, ".html", ".woff2", 1);
    SuffixesDiffer(path, ".html", ".ico", 1);
    SuffixesDiffer(path, ".css", ".js", 2);
    SuffixesDiffer(path, ".css", ".woff2", 1);
    SuffixesDiffer(path, ".css", ".ico", 1);
    SuffixesDiffer(path, ".js", ".woff2", 1);
    SuffixesDiffer(path, ".js", ".ico", 1);
    SuffixesDiffer(path, ".woff2", ".ico", 1);
  }

  /**
   * `_serveFileWithFallback(request, fallback)`: the embedded file at the
   * requested path, else the fallback page, typed by the path of the file
   * actually sent; 404 when neither exists.
   */
  function ServeWithFallback(files: seq<WebFile>, uri: string, fallback: string): (r: Response)
    ensures FindWebFile(files, uri).Some? ==> r == Embedded(ContentType(uri), FindWebFile(files, uri).value)
    ensures FindWebFile(files, uri).None? && FindWebFile(files, fallback).Some? ==>
              r == Embedded(ContentType(fallback), FindWebFile(files, fallback).value)
    ensures r == NotFound <==> FindWebFile(files, uri).None? && FindWebFile(files, fallback).None?
  {
    var match_ := FindWebFile(files, uri);
    var fb := FindWebFile(files, fallback);
    var toSend := if match_.Some? then match_ else fb;
    match toSend
    case None => NotFound
    case Some(f) => Embedded(ContentType(f.path), f)
  }

  // ---------------------------------------------------------------------------
  // The admin check
  // ---------------------------------------------------------------------------

  /** The token that starts at `start`: up to the next `;`, or to the end. */
  function TokenFrom(cookies: string, start: nat): string
    requires start <= |cookies|
  {
    match IndexOfText(cookies, ";", start)
    case Some(end) => cookies[start..end]
    case None => cookies[start..]
  }

  /**
   * The session token of a `Cookie` header: what follows the first
   * `admin_session=` up to the next `;` or the end.
   */
  function SessionToken(cookies: string): Option<string> {
    match IndexOfText(cookies, SessionCookie, 0)
    case None => None
    case Some(idx) => Some(TokenFrom(cookies, idx + |SessionCookie|))
  }

  /** The cookie test: a stored session and a token equal to it (compared as C strings). */
  predicate CookieAdmits(cookie: Option<string>, session: string) {
    cookie.Some? && SessionToken(cookie.value).Some?
    && session != "" && CStr(SessionToken(cookie.value).value) == session
  }

  /** `_isAdminAuthorized(request)`. */
  function IsAdminAuthorized(requireAdmin: bool, stored: string, session: string,
                             cookie: Option<string>, adminPassHeader: Option<string>, pwParam: Option<string>): bool
  {
    if !requireAdmin then true
    else if stored == "" then false
    else if CookieAdmits(cookie, session) then true
    else if adminPassHeader == Some(stored) then true
    else if pwParam == Some(stored) then true
    else false
  }

  /**
   * With authentication on and a password stored, any one of the three
   * credentials admits a request; without a stored password nothing does.
   */
  lemma AuthorizedIff(requireAdmin: bool, stored: string, session: string,
                      cookie: Option<string>, adminPassHeader: Option<string>, pwParam: Option<string>)
    ensures IsAdminAuthorized(requireAdmin, stored, session, cookie, adminPassHeader, pwParam) <==>
              !requireAdmin
              || (stored != "" && (CookieAdmits(cookie, session) || adminPassHeader == Some(stored) || pwParam == Some(stored)))
  {
  }

  /** A cookie the browser sends back after a login carries the session and is accepted. */
  lemma SessionCookieAccepted(before: string, session: string, after: string)
    requires session != "" && PlainText(session) && ';' !in session
    requires IndexOfText(before, SessionCookie, 0).None?
    ensures CookieAdmits(Some(before + SessionCookie + session + (if after == "" then "" else "; " + after)), session)
  {
    var tail := if after == "" then "" else "; " + after;
    var c := before + SessionCookie + session + tail;
    CookieLayout(before, session, tail);
    FirstCookieAt(before, c);
    TokenIsSession(c, |before| + |SessionCookie|, session, tail);
    CStrOfPlain(session);
    assert SessionToken(c) == Some(session);
  }

  /** Where the parts of a cookie line sit in it. */
  lemma CookieLayout(before: string, session: string, tail: string)
    ensures var c := before + SessionCookie + session + tail;
            && c[..|before|] == before
            && OccursAt(c, SessionCookie, |before|)
            && c[|before| + |SessionCookie|..] == session + tail
  {
    var c := before + SessionCookie + session + tail;
    assert c[|before|..|before| + |SessionCookie|] == SessionCookie;
  }

  /** The token ends at the first `;`, which is the one right after the session. */
  lemma TokenIsSession(c: string, start: nat, session: string, tail: string)
    requires start <= |c| && c[start..] == session + tail && ';' !in session
    requires tail == "" || tail[0] == ';'
    ensures TokenFrom(c, start) == session
  {
    forall j | start <= j < start + |session| ensures !OccursAt(c, ";", j) {
      assert c[j] == c[start..][j - start];
    }
    if tail == "" {
      assert c[start..] == session;
    } else {
      var p := start + |session|;
      assert c[p] == c[start..][|session|];
      assert c[p..p + 1] == [c[p]];
      FirstFrom(c, ";", start, p);
      assert c[start..p] == c[start..][..|session|];
    }
  }

  /** `indexOf(t, from)` finds `p` when `t` occurs there and nowhere between `from` and `p`. */
  lemma FirstFrom(s: string, t: string, from: nat, p: nat)
    requires from <= p && OccursAt(s, t, p)
    requires forall j :: from <= j < p ==> !OccursAt(s, t, j)
    ensures IndexOfText(s, t, from) == Some(p)
  {
  }

  /** With no cookie name inside `before`, the first one in `c` starts right after it. */
  lemma FirstCookieAt(before: string, c: string)
    requires IndexOfText(before, SessionCookie, 0).None?
    requires |before| <= |c| && c[..|before|] == before && OccursAt(c, SessionCookie, |before|)
    ensures IndexOfText(c, SessionCookie, 0) == Some(|before|)
  {
    forall j | 0 <= j < |before| ensures !OccursAt(c, SessionCookie, j) {
      if j + |SessionCookie| <= |before| {
        NameInside(before, c, j);
      } else {
        NameStraddles(c, |before|, j);
      }
    }
    FirstFrom(c, SessionCookie, 0, |before|);
  }

  /** Inside `before` the cookie name occurs in `c` exactly where it occurs in `before`. */
  lemma NameInside(before: string, c: string, j: nat)
    requires j + |SessionCookie| <= |before| <= |c| && c[..|before|] == before
    ensures OccursAt(c, SessionCookie, j) == OccursAt(before, SessionCookie, j)
  {
    forall i | j <= i < j + |SessionCookie| ensures c[i] == before[i] {
      assert c[..|before|][i] == c[i];
    }
    assert c[j..j + |SessionCookie|] == before[j..j + |SessionCookie|];
  }

  /** The cookie name has its only 'a' first, so two occurrences cannot overlap. */
  lemma NameStraddles(c: string, p: nat, j: nat)
    requires j < p < j + |SessionCookie| && OccursAt(c, SessionCookie, p)
    ensures !OccursAt(c, SessionCookie, j)
  {
    assert c[p] == c[p..p + |SessionCookie|][0];
    if j + |SessionCookie| <= |c| {
      assert c[j..j + |SessionCookie|][p - j] == c[p];
      assert SessionCookie[p - j] != 'a';
    }
  }

  // ---------------------------------------------------------------------------
  // Scheduled restart
  // ---------------------------------------------------------------------------

  /**
   * The restart test of `handleLoop` as written: `_restartTime` is set to
   * `millis() + 2000` in 32-bit `unsigned long` arithmetic and compared with
   * a later `millis()`.
   */
  function RestartDueAsWritten(armedAt: Nat32, now: Nat32): bool {
    now >= Wrap32(armedAt + RestartDelayMs)
  }

  /** The restart test as intended: two seconds have passed since the credentials arrived. */
  function RestartDue(armedAt: Nat32, now: Nat32): bool {
    Elapsed32(now, armedAt) >= RestartDelayMs
  }

  /**
   * Credentials that arrive less than two seconds before `millis()` wraps
   * make `_restartTime` wrap to a small value, and the restart fires at
   * once instead of two seconds later.
   */
  lemma RestartFiresEarlyNearWrap()
    ensures var armedAt := U32 - 1000;
            Wrap32(armedAt + RestartDelayMs) == 1000
            && RestartDueAsWritten(armedAt, armedAt)
            && !RestartDue(armedAt, armedAt)
  {
  }

  /**
   * The written and the corrected tests agree while neither the deadline nor
   * `millis()` has wrapped since the restart was armed.
   */
  lemma RestartAsWrittenAgreesBeforeWrap(armedAt: Nat32, now: Nat32)
    requires armedAt + RestartDelayMs < U32 && armedAt <= now
    ensures RestartDueAsWritten(armedAt, now) == RestartDue(armedAt, now)
  {
  }

  /** The corrected test fires exactly when two seconds have passed, across a wrap of `millis()` too. */
  lemma RestartDueAfter(armedAt: Nat32, d: Nat32)
    ensures RestartDue(armedAt, Wrap32(armedAt + d)) <==> d >= RestartDelayMs
  {
    ElapsedAfter(armedAt, d);
  }

  // ---------------------------------------------------------------------------
  // The provisioner
  // ---------------------------------------------------------------------------

  /** One network of a scan: `WiFi.SSID(i)`, `WiFi.RSSI(i)` and `WiFi.BSSIDstr(i)`. */
  datatype Network = Network(ssid: string, rssi: int, bssid: string)

  /** How many networks of a scan with status `n` go into the model's list. */
  function Kept(n: int): (k: nat)
    ensures k <= MaxNetworks
    ensures n >= 0 ==> k == if n < MaxNetworks then n else MaxNetworks
    ensures n < 0 ==> k == 0
  {
    if n < 0 then 0 else if n < MaxNetworks then n else MaxNetworks
  }

  /** The model's list after a scan: the SSIDs of the first `k` networks, each cut to fit 32 bytes. */
  function ScanList(nets: seq<Network>, k: nat): (r: seq<StringBuffer>)
    requires k <= |nets|
    ensures |r| == k
    ensures forall i :: 0 <= i < k ==> r[i] == BufferOf(SsidLen, Some(nets[i].ssid))
  {
    seq(k, i requires 0 <= i < k => BufferOf(SsidLen, Some(nets[i].ssid)))
  }

  /** The `/scan` reply: every network found, also those beyond the list's capacity. */
  function ScanJson(nets: seq<Network>, n: nat): (r: Json)
    requires n <= |nets|
    ensures r.JArr? && |r.items| == n
  {
    JArr(seq(n, i requires 0 <= i < n =>
      JObj(map["ssid" := JStr(nets[i].ssid), "rssi" := JNum(nets[i].rssi), "bssid" := JStr(nets[i].bssid)])))
  }

  /**
   * Every SSID kept fits its buffer and is the start of the network's name;
   * a name without NUL that is shorter than the buffer is kept whole.
   */
  lemma ScanListFits(nets: seq<Network>, k: nat)
    requires k <= |nets|
    ensures forall i :: 0 <= i < k ==>
              ScanList(nets, k)[i].Valid() && |ScanList(nets, k)[i].text| < SsidLen
              && ScanList(nets, k)[i].text == CStr(nets[i].ssid)[..|ScanList(nets, k)[i].text|]
    ensures forall i :: 0 <= i < k && PlainText(nets[i].ssid) && |nets[i].ssid| < SsidLen ==>
              ScanList(nets, k)[i].text == nets[i].ssid
  {
    forall i | 0 <= i < k && PlainText(nets[i].ssid) && |nets[i].ssid| < SsidLen
      ensures ScanList(nets, k)[i].text == nets[i].ssid
    {
      TruncateKeepsFitting(nets[i].ssid, SsidLen - 1);
    }
  }

  class Provisioner {
    const requireAdmin: bool
    const files: seq<WebFile>
    var fallbackFile: string
    var apSsid: string
    var mdnsHost: string
    /** `model.admin.pass` and `model.admin.session`. */
    var adminPass: StringBuffer
    var adminSession: StringBuffer
    /** `model.wifi.ssid` and `model.wifi.pass`, and how often their save hook ran. */
    var wifiSsid: StringBuffer
    var wifiPass: StringBuffer
    var wifiSaves: nat
    /** `model.wifi.available_networks`. */
    const networks: List<StringBuffer>
    var scansStarted: nat
    var broadcasts: nat
    var pendingRestart: bool
    /** `_restartTime`: the deadline `millis() + 2000`, in 32-bit arithmetic. */
    var restartTime: Nat32
    /** The `millis()` reading when the restart was scheduled. */
    ghost var armedAt: Nat32
    /** `ESP.restart()` was called. */
    var restarting: bool

    ghost predicate Valid()
      reads this, networks
    {
      networks.Valid() && networks.items.Length == MaxNetworks
      && adminPass.Valid() && adminPass.size == AdminPassLen
      && adminSession.Valid() && adminSession.size == SessionLen
      && wifiSsid.Valid() && wifiSsid.size == SsidLen
      && wifiPass.Valid() && wifiPass.size == WifiPassLen
      && (pendingRestart ==> restartTime == Wrap32(armedAt + RestartDelayMs))
    }

    /** `WiFiProvisioner()`: the member defaults (admin check on). */
    constructor (files: seq<WebFile>)
      ensures Valid() && fresh(networks) && fresh(networks.items)
      ensures requireAdmin && this.files == files
      ensures fallbackFile == "/wifi.html" && apSsid == "ESP-Setup" && mdnsHost == "esp32"
      ensures adminPass.text == "" && adminSession.text == "" && wifiSsid.text == "" && wifiPass.text == ""
      ensures networks.Elements() == [] && wifiSaves == 0 && scansStarted == 0 && broadcasts == 0
      ensures !pendingRestart && restartTime == 0 && !restarting
    {
      requireAdmin := true;
      this.files := files;
      fallbackFile := "/wifi.html";
      apSsid := "ESP-Setup";
      mdnsHost := "esp32";
      adminPass := EmptyBuffer(AdminPassLen);
      adminSession := EmptyBuffer(SessionLen);
      wifiSsid := EmptyBuffer(SsidLen);
      wifiPass := EmptyBuffer(WifiPassLen);
      wifiSaves := 0;
      networks := new List<StringBuffer>(MaxNetworks);
      scansStarted := 0;
      broadcasts := 0;
      pendingRestart := false;
      restartTime := 0;
      armedAt := 0;
      restarting := false;
    }

    /** `_isAdminAuthorized(request)` on the stored password and session. */
    predicate Admits(cookie: Option<string>, adminPassHeader: Option<string>, pwParam: Option<string>)
      reads this
    {
      IsAdminAuthorized(requireAdmin, adminPass.text, adminSession.text, cookie, adminPassHeader, pwParam)
    }

    /**
     * The loop `_handleScan` and `handleLoop` share: the list is emptied
     * and refilled with the first networks, at most 20, then broadcast.
     */
    method RefillNetworks(n: int, nets: seq<Network>)
      requires Valid() && n <= |nets|
      modifies networks, networks.items, this`broadcasts
      ensures Valid()
      ensures networks.Elements() == ScanList(nets, Kept(n))
      ensures broadcasts == old(broadcasts) + 1
    {
      networks.Clear();
      var i := 0;
      while i < n && i < MaxNetworks
        invariant 0 <= i <= Kept(n)
        invariant networks.Valid() && networks.items.Length == MaxNetworks
        invariant networks.Elements() == ScanList(nets, i)
        invariant broadcasts == old(broadcasts)
      {
        var ok := networks.Add(BufferOf(SsidLen, Some(nets[i].ssid)));
        i := i + 1;
      }
      broadcasts := broadcasts + 1;
    }

    /**
     * `GET /scan` with the scan status `n`: a scan still running (-1)
     * answers `[]` and changes nothing; a scan never started (-2) is
     * started, and then, like any other status, the list is refilled and
     * the networks found are returned.
     */
    method HandleScan(n: int, nets: seq<Network>) returns (r: Response)
      requires Valid() && n <= |nets|
      modifies this, networks, networks.items
      ensures Valid()
      ensures n == -1 ==> r == Plain(200, "application/json", "[]")
                          && networks.Elements() == old(networks.Elements()) && broadcasts == old(broadcasts)
      ensures n != -1 ==> networks.Elements() == ScanList(nets, Kept(n)) && broadcasts == old(broadcasts) + 1
                          && r == JsonReply(ScanJson(nets, if n < 0 then 0 else n))
      ensures scansStarted == old(scansStarted) + (if n == -2 then 1 else 0)
      ensures adminPass == old(adminPass) && wifiSsid == old(wifiSsid) && wifiPass == old(wifiPass)
      ensures pendingRestart == old(pendingRestart) && restarting == old(restarting)
    {
      if n == -2 {
        scansStarted := scansStarted + 1;
      }
      if n == -1 {
        return Plain(200, "application/json", "[]");
      }
      RefillNetworks(n, nets);
      var shown := if n < 0 then 0 else n;
      r := JsonReply(ScanJson(nets, shown));
    }

    /** The scan check of `handleLoop`: a finished scan (status 0 or more) refills the list. */
    method ScanResults(n: int, nets: seq<Network>)
      requires Valid() && n <= |nets|
      modifies this, networks, networks.items
      ensures Valid()
      ensures n >= 0 ==> networks.Elements() == ScanList(nets, Kept(n)) && broadcasts == old(broadcasts) + 1
      ensures n < 0 ==> networks.Elements() == old(networks.Elements()) && broadcasts == old(broadcasts)
      ensures scansStarted == old(scansStarted) && adminPass == old(adminPass) && wifiSsid == old(wifiSsid)
      ensures wifiPass == old(wifiPass) && pendingRestart == old(pendingRestart) && restarting == old(restarting)
    {
      if n >= 0 {
        RefillNetworks(n, nets);
      }
    }

    /**
     * `POST /save` with the parsed body (`None` when it is not JSON): both
     * `ssid` and `pass` must be present; they are stored (a non-string
     * value stores an empty text), the reply is sent and the device restarts.
     */
    method HandleSave(body: Option<Json>) returns (r: Response)
      requires Valid()
      modifies this
      ensures Valid()
      ensures body.None? ==> r == Plain(400, "application/json", InvalidJsonReply)
      ensures body.Some? && !(Has(body.value, "ssid") && Has(body.value, "pass")) ==>
                r == Plain(400, "application/json", MissingFieldsReply)
      ensures body.None? || !(Has(body.value, "ssid") && Has(body.value, "pass")) ==>
                wifiSsid == old(wifiSsid) && wifiPass == old(wifiPass) && wifiSaves == old(wifiSaves)
                && restarting == old(restarting)
      ensures body.Some? && Has(body.value, "ssid") && Has(body.value, "pass") ==>
                r == Plain(200, "application/json", SavedReply) && restarting
                && wifiSsid == SetText(old(wifiSsid), AsCStr(Get(body.value, "ssid")))
                && wifiPass == SetText(old(wifiPass), AsCStr(Get(body.value, "pass")))
                && wifiSaves == old(wifiSaves) + 2
      ensures adminPass == old(adminPass) && adminSession == old(adminSession) && pendingRestart == old(pendingRestart)
    {
      if body.None? {
        return Plain(400, "application/json", InvalidJsonReply);
      }
      var doc := body.value;
      if !Has(doc, "ssid") || !Has(doc, "pass") {
        return Plain(400, "application/json", MissingFieldsReply);
      }
      wifiSsid := SetText(wifiSsid, AsCStr(Get(doc, "ssid")));
      wifiSaves := wifiSaves + 1;
      wifiPass := SetText(wifiPass, AsCStr(Get(doc, "pass")));
      wifiSaves := wifiSaves + 1;
      r := Plain(200, "application/json", SavedReply);
      restarting := true;
    }

    /**
     * The `onWifiUpdate` hook: new credentials over the WebSocket schedule a
     * restart, with the deadline `millis() + 2000` wrapped to 32 bits.
     */
    method OnWifiUpdate(now: Nat32)
      requires Valid()
      modifies this
      ensures Valid() && pendingRestart && armedAt == now && restarting == old(restarting)
      ensures restartTime == Wrap32(now + RestartDelayMs)
      ensures wifiSsid == old(wifiSsid) && wifiPass == old(wifiPass) && adminPass == old(adminPass)
    {
      pendingRestart := true;
      restartTime := Wrap32(now + RestartDelayMs);
      armedAt := now;
    }

    /**
     * The first check of `handleLoop`, as written: `millis() >= _restartTime`,
     * that is `RestartDueAsWritten` of the time the restart was armed.
     */
    method CheckPendingRestart(now: Nat32)
      requires Valid()
      modifies this
      ensures Valid()
      ensures restarting == (old(restarting) || (pendingRestart && RestartDueAsWritten(armedAt, now)))
      ensures pendingRestart == old(pendingRestart) && restartTime == old(restartTime) && armedAt == old(armedAt)
      ensures wifiSsid == old(wifiSsid) && wifiPass == old(wifiPass) && adminPass == old(adminPass)
    {
      if pendingRestart && now >= restartTime {
        restarting := true;
      }
    }

    /** The fallback route: the requested page, else the configured fallback page. */
    function ServeNotFound(uri: string): (r: Response)
      reads this
      ensures r == ServeWithFallback(files, uri, fallbackFile)
    {
      ServeWithFallback(files, uri, fallbackFile)
    }
  }
}
