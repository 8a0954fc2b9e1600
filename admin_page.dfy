/**
 * The admin pages (`AdminPage.h`): HTTP Basic authentication of the admin
 * user (section 2 of RFC 7617) against the stored admin password, the
 * embedded admin files with a content type chosen by suffix, the UI
 * configuration document and the password endpoints.
 *
 * The request is reduced to what the handlers read of it: the value of the
 * `Authorization` header, if any, and the body.  `Serial` output is left out.
 */
module AdminPage {
  import opened Wrappers
  import opened JsonDoc
  import opened Machine
  import opened Primitives
  import opened Passwords
  import opened ArduinoText
  import opened Base64
  import opened WebFiles

  /** The only user name the admin pages accept. */
  const AdminUser: string := "admin"

  /** `_generatePassword(12)`: the length of a generated admin password. */
  const GeneratedLen: nat := 12

  /** `AdminSettings::PASS_LEN`. */
  const PassLen: nat := 32

  const InvalidJsonReply: string := "{\"ok\":false,\"error\":\"invalid_json\"}"
  const OkReply: string := "{\"ok\":true}"

  /** The configuration served while none is stored: a reset button and an OTA extension button. */
  const DefaultUiConfig: string :=
    "{\n    \"buttons\": [\n"
    + "      { \"id\": \"reset\", \"label\": \"Zurücksetzen\", \"method\": \"POST\", \"path\": \"/reset\", \"confirm\": true },\n"
    + "      { \"id\": \"ota_extend\", \"label\": \"OTA +10min\", \"method\": \"POST\", \"path\": \"/ota/extend\", \"confirm\": false }\n"
    + "    ]\n  }"

  // ---------------------------------------------------------------------------
  // Content types of the embedded files
  // ---------------------------------------------------------------------------

  /**
   * The content type `_serveEmbeddedFile` sends: `text/html` unless a later
   * suffix test overrides it.
   */
  function EmbeddedContentType(path: string): string {
    var t0 := "text/html";
    var t1 := if EndsWith(path, ".js") then "application/javascript" else t0;
    var t2 := if EndsWith(path, ".css") then "text/css" else t1;
    var t3 := if EndsWith(path, ".json") then "application/json" else t2;
    var t4 := if EndsWith(path, ".svg") then "image/svg+xml" else t3;
    var t5 := if EndsWith(path, ".png") then "image/png" else t4;
    if EndsWith(path, ".jpg") || EndsWith(path, ".jpeg") then "image/jpeg" else t5
  }

  /** Two suffixes that differ `k` characters from their ends cannot both end a path. */
  lemma NotBothSuffixes(path: string, a: string, b: string, k: nat)
    requires 1 <= k <= |a| && k <= |b| && a[|a| - k] != b[|b| - k]
    ensures !(EndsWith(path, a) && EndsWith(path, b))
  {
  }

  /** Each type is sent exactly for its suffixes, and `text/html` for everything else. */
  lemma EmbeddedContentTypeBySuffix(path: string)
    ensures EmbeddedContentType(path) == "application/javascript" <==> EndsWith(path, ".js")
    ensures EmbeddedContentType(path) == "text/css" <==> EndsWith(path, ".css")
    ensures EmbeddedContentType(path) == "application/json" <==> EndsWith(path, ".json")
    ensures EmbeddedContentType(path) == "image/svg+xml" <==> EndsWith(path, ".svg")
    ensures EmbeddedContentType(path) == "image/png" <==> EndsWith(path, ".png")
    ensures EmbeddedContentType(path) == "image/jpeg" <==> EndsWith(path, ".jpg") || EndsWith(path, ".jpeg")
    ensures EmbeddedContentType(path) == "text/html" <==>
              !EndsWith(path, ".js") && !EndsWith(path, ".css") && !EndsWith(path, ".json")
              && !EndsWith(path, ".svg") && !EndsWith(path, ".png")
              && !EndsWith(path, ".jpg") && !EndsWith(path, ".jpeg")
  {
    NotBothSuffixes(path, ".js", ".css", 2);
    NotBothSuffixes(path, ".js", ".json", 1);
    NotBothSuffixes(path, ".js", ".svg", 1);
    NotBothSuffixes(path, ".js", ".png", 1);
    NotBothSuffixes(path, ".js", ".jpg", 1);
    NotBothSuffixes(path, ".js", ".jpeg", 1);
    NotBothSuffixes(path, ".css", ".json", 1);
    NotBothSuffixes(path, ".css", ".svg", 1);
    NotBothSuffixes(path, ".css", ".png", 1);
    NotBothSuffixes(path, ".css", ".jpg", 1);
    NotBothSuffixes(path, ".css", ".jpeg", 1);
    NotBothSuffixes(path, ".json", ".svg", 1);
    NotBothSuffixes(path, ".json", ".png", 1);
    NotBothSuffixes(path, ".json", ".jpg", 1);
    NotBothSuffixes(path, ".json", ".jpeg", 1);
    NotBothSuffixes(path, ".svg", ".png", 2);
    NotBothSuffixes(path, ".svg", ".jpg", 2);
    NotBothSuffixes(path, ".svg", ".jpeg", 2);
    NotBothSuffixes(path, ".png", ".jpg", 2);
    NotBothSuffixes(path, ".png", ".jpeg", 2);
  }

  /** `_serveEmbeddedFile(path)`: the embedded file with its content type, or 404. */
  function ServeEmbedded(files: seq<WebFile>, path: string): (r: Response)
    ensures r == NotFound <==> FindWebFile(files, path).None?
    ensures r != NotFound ==> r.Embedded? && r.file.path == path && r.contentType == EmbeddedContentType(path)
  {
    match FindWebFile(files, path)
    case None => NotFound
    case Some(f) => Embedded(EmbeddedContentType(path), f)
  }

  // ---------------------------------------------------------------------------
  // Basic authentication
  // ---------------------------------------------------------------------------

  /**
   * The credential test on an `Authorization` value: `Basic ` and a Base64
   * payload, surrounding white space trimmed, that decodes to `admin:` and
   * the stored password.  `indexOf(':')` searches the decoded text up to
   * its first NUL, and `==` compares up to the first NUL, as `strcmp` does.
   */
  function BasicCredentialsMatch(value: string, stored: string): bool {
    if !StartsWith(value, "Basic ") then false
    else
      var creds := Decode(Trim(value[6..]));
      match IndexOfChar(CStr(creds), ':')
      case None => false
      case Some(idx) =>
        idx > 0 && CStr(creds[..idx]) == AdminUser && CStr(creds[idx + 1..]) == stored
  }

  /** `_isAdminAuthorized(request, requireAdmin, model)`. */
  function IsAdminAuthorized(requireAdmin: bool, stored: string, authorization: Option<string>): (r: bool)
    ensures !requireAdmin ==> r
    ensures requireAdmin && (stored == "" || authorization.None?) ==> !r
  {
    if !requireAdmin then true
    else if stored == "" then false
    else match authorization
      case None => false
      case Some(v) => BasicCredentialsMatch(v, stored)
  }

  /** Decoded text that reads as `admin:` and the password passes the split at the first colon. */
  lemma SplitOfWanted(creds: string, stored: string)
    requires PlainText(stored) && CStr(creds) == AdminUser + ":" + stored
    ensures IndexOfChar(CStr(creds), ':') == Some(5)
    ensures CStr(creds[..5]) == AdminUser && CStr(creds[6..]) == stored
  {
    var c := CStr(creds);
    assert c[5] == ':' && c[..5] == AdminUser && c[6..] == stored;
    assert forall j :: 0 <= j < 5 ==> c[j] != ':';
    CStrDrop(creds, 6);
    assert creds[..5] == c[..5];
    CStrOfPlain(AdminUser);
  }

  /** A split at the first colon into `admin` and the password means the text reads as `admin:` and the password. */
  lemma WantedOfSplit(creds: string, stored: string, idx: nat)
    requires IndexOfChar(CStr(creds), ':') == Some(idx)
    requires CStr(creds[..idx]) == AdminUser && CStr(creds[idx + 1..]) == stored
    ensures CStr(creds) == AdminUser + ":" + stored
  {
    var c := CStr(creds);
    CStrTake(creds, idx);
    CStrDrop(creds, idx + 1);
    assert c == c[..idx] + [c[idx]] + c[idx + 1..];
  }

  /** `creds` read as a C string is `admin:` and the password exactly when the check above passes. */
  lemma CredentialsSplit(creds: string, stored: string)
    requires PlainText(stored)
    ensures (match IndexOfChar(CStr(creds), ':')
             case None => false
             case Some(idx) => idx > 0 && CStr(creds[..idx]) == AdminUser && CStr(creds[idx + 1..]) == stored)
            <==> CStr(creds) == AdminUser + ":" + stored
  {
    var want := AdminUser + ":" + stored;
    if CStr(creds) == want {
      SplitOfWanted(creds, stored);
    }
    match IndexOfChar(CStr(creds), ':')
    case None =>
    case Some(idx) =>
      if idx > 0 && CStr(creds[..idx]) == AdminUser && CStr(creds[idx + 1..]) == stored {
        WantedOfSplit(creds, stored, idx);
      }
  }

  /**
   * With authentication on and a password stored, a request is admitted
   * exactly when it carries `Basic` credentials whose trimmed payload
   * decodes to `admin:` and the password.
   */
  lemma AuthorizedIff(requireAdmin: bool, stored: string, authorization: Option<string>)
    requires PlainText(stored)
    ensures IsAdminAuthorized(requireAdmin, stored, authorization) <==>
              !requireAdmin
              || (stored != "" && authorization.Some? && StartsWith(authorization.value, "Basic ")
                  && CStr(Decode(Trim(authorization.value[6..]))) == AdminUser + ":" + stored)
  {
    if requireAdmin && stored != "" && authorization.Some? && StartsWith(authorization.value, "Basic ") {
      CredentialsSplit(Decode(Trim(authorization.value[6..])), stored);
    }
  }

  /** An encoding has no white space at its ends, so `trim()` keeps it. */
  lemma TrimEncoded(b: string)
    requires Bytes(b)
    ensures Trim(Encode(b)) == Encode(b)
  {
    var e := Encode(b);
    EncodeAlphabet(b);
    if |e| > 0 {
      assert e[0] == '=' || IsDigitChar(e[0]);
      assert e[|e| - 1] == '=' || IsDigitChar(e[|e| - 1]);
    }
    TrimKeeps(e);
  }

  /** What a client sends for user `admin` and password `pass`, as section 2 of RFC 7617 builds it. */
  function BasicHeader(pass: string): string
    requires Bytes(pass)
  {
    BytesConcat(AdminUser + ":", pass);
    "Basic " + Encode(AdminUser + ":" + pass)
  }

  /** The credentials a client builds from the stored password are accepted. */
  lemma BasicHeaderAccepted(stored: string)
    requires stored != "" && PlainText(stored) && Bytes(stored)
    ensures IsAdminAuthorized(true, stored, Some(BasicHeader(stored)))
  {
    var plain := AdminUser + ":" + stored;
    PlainCredentials(stored);
    var e := Encode(plain);
    var h := BasicHeader(stored);
    assert h == "Basic " + e;
    assert StartsWith(h, "Basic ") && h[6..] == e;
    TrimEncoded(plain);
    DecodeEncode(plain);
    CStrOfPlain(plain);
    assert CStr(Decode(Trim(h[6..]))) == plain;
    AuthorizedIff(true, stored, Some(h));
  }

  /** `admin:` and a password without NUL are bytes without NUL. */
  lemma PlainCredentials(stored: string)
    requires PlainText(stored) && Bytes(stored)
    ensures PlainText(AdminUser + ":" + stored) && Bytes(AdminUser + ":" + stored)
  {
    var p := AdminUser + ":";
    assert PlainText(p) && Bytes(p);
    BytesConcat(p, stored);
    assert forall i :: |p| <= i < |p + stored| ==> (p + stored)[i] == stored[i - |p|];
  }

  // ---------------------------------------------------------------------------
  // The UI configuration document
  // ---------------------------------------------------------------------------

  /** A posted configuration is taken when, trimmed, it starts like a JSON object or array. */
  predicate ConfigBodyAccepted(body: string) {
    var s := Trim(body);
    |s| > 0 && (s[0] == '{' || s[0] == '[')
  }

  /** The generated alphabet is made of bytes, so generated passwords can be sent as Basic credentials. */
  lemma DrawnAdminBytes(rnd: seq<Nat32>)
    ensures Bytes(Drawn(AdminAlphabet, rnd)) && PlainText(Drawn(AdminAlphabet, rnd))
  {
    assert forall i :: 0 <= i < |AdminAlphabet| ==> AdminAlphabet[i] as int < 256 by {
      assert Bytes("ABCDEFGHJKLM");
      assert Bytes("NPQRSTUVWXYZ");
      assert Bytes("abcdefghjkm");
      assert Bytes("npqrstuvwxyz");
      assert Bytes("23456789");
    }
    AlphabetsUnambiguous();
    DrawnLegible(AdminAlphabet, rnd);
  }

  /**
   * The admin routes over the parts of the model they use: `admin.pass`
   * (a 32-character buffer whose every assignment notifies its save hook)
   * and `admin_ui.config`.
   */
  class AdminSite {
    const requireAdmin: bool
    const files: seq<WebFile>
    /** The flash files present (`LittleFS.exists`). */
    const flash: set<string>
    var adminPass: StringBuffer
    var uiConfig: StringBuffer
    /** How often `admin.pass` was assigned (each assignment calls its change hook once). */
    var passNotified: nat

    predicate Valid()
      reads this
    {
      adminPass.Valid() && adminPass.size == PassLen && uiConfig.Valid()
    }

    constructor (requireAdmin: bool, files: seq<WebFile>, flash: set<string>, pass: StringBuffer, config: StringBuffer)
      requires pass.Valid() && pass.size == PassLen && config.Valid()
      ensures Valid()
      ensures this.requireAdmin == requireAdmin && this.files == files && this.flash == flash
      ensures adminPass == pass && uiConfig == config && passNotified == 0
    {
      this.requireAdmin := requireAdmin;
      this.files := files;
      this.flash := flash;
      adminPass := pass;
      uiConfig := config;
      passNotified := 0;
    }

    /** `_isAdminAuthorized` on the current password. */
    predicate Admits(authorization: Option<string>)
      reads this
    {
      IsAdminAuthorized(requireAdmin, adminPass.text, authorization)
    }

    /** The start of `registerAdminRoutes`: a missing admin password is generated. */
    method Bootstrap(rnd: seq<Nat32>)
      requires Valid() && GeneratedLen <= |rnd|
      modifies this
      ensures Valid() && uiConfig == old(uiConfig) && adminPass.text != ""
      ensures old(adminPass.text) != "" ==> adminPass == old(adminPass) && passNotified == old(passNotified)
      ensures old(adminPass.text) == "" ==>
                adminPass.text == Drawn(AdminAlphabet, rnd[..GeneratedLen]) && passNotified == old(passNotified) + 1
    {
      if adminPass.text == "" {
        var gen := GeneratePassword(AdminAlphabet, GeneratedLen, rnd);
        DrawnAdminBytes(rnd[..GeneratedLen]);
        SetTextKeeps(adminPass, gen);
        adminPass := SetText(adminPass, Some(gen));
        passNotified := passNotified + 1;
      }
    }

    /** `GET /admin/ui-config`: the stored configuration, or the default while none is stored. */
    method GetUiConfig(authorization: Option<string>) returns (r: Response)
      requires Valid()
      ensures !Admits(authorization) ==> r == AuthChallenge
      ensures Admits(authorization) ==>
                r == Plain(200, "application/json", if uiConfig.text == "" then DefaultUiConfig else uiConfig.text)
    {
      if !Admits(authorization) {
        return AuthChallenge;
      }
      if uiConfig.text == "" {
        r := Plain(200, "application/json", DefaultUiConfig);
      } else {
        r := Plain(200, "application/json", uiConfig.text);
      }
    }

    /** `POST /admin/ui-config`: a trimmed body that starts like JSON replaces the configuration. */
    method PostUiConfig(authorization: Option<string>, body: string) returns (r: Response)
      requires Valid()
      modifies this
      ensures Valid() && adminPass == old(adminPass) && passNotified == old(passNotified)
      ensures !old(Admits(authorization)) ==> r == AuthChallenge && uiConfig == old(uiConfig)
      ensures old(Admits(authorization)) && !ConfigBodyAccepted(body) ==>
                r == Plain(400, "application/json", InvalidJsonReply) && uiConfig == old(uiConfig)
      ensures old(Admits(authorization)) && ConfigBodyAccepted(body) ==>
                r == Plain(200, "application/json", OkReply) && uiConfig == SetText(old(uiConfig), Some(Trim(body)))
    {
      if !Admits(authorization) {
        return AuthChallenge;
      }
      var s := Trim(body);
      if |s| == 0 || (s[0] != '{' && s[0] != '[') {
        return Plain(400, "application/json", InvalidJsonReply);
      }
      uiConfig := SetText(uiConfig, Some(s));
      r := Plain(200, "application/json", OkReply);
    }

    /** `GET /admin/password`: the user name and the current password. */
    method GetPassword(authorization: Option<string>) returns (r: Response)
      requires Valid()
      ensures !Admits(authorization) ==> r == AuthChallenge
      ensures Admits(authorization) ==>
                r == JsonReply(JObj(map["username" := JStr(AdminUser), "password" := JStr(adminPass.text)]))
    {
      if !Admits(authorization) {
        return AuthChallenge;
      }
      r := JsonReply(JObj(map["username" := JStr(AdminUser), "password" := JStr(adminPass.text)]));
    }

    /** `POST /admin/password/regenerate`: a fresh 12-character password, returned to the caller. */
    method RegeneratePassword(authorization: Option<string>, rnd: seq<Nat32>) returns (r: Response)
      requires Valid() && GeneratedLen <= |rnd|
      modifies this
      ensures Valid() && uiConfig == old(uiConfig)
      ensures !old(Admits(authorization)) ==> r == AuthChallenge && adminPass == old(adminPass) && passNotified == old(passNotified)
      ensures old(Admits(authorization)) ==>
                adminPass.text == Drawn(AdminAlphabet, rnd[..GeneratedLen]) && passNotified == old(passNotified) + 1
                && r == JsonReply(JObj(map["username" := JStr(AdminUser), "password" := JStr(adminPass.text)]))
    {
      if !Admits(authorization) {
        return AuthChallenge;
      }
      var newPw := GeneratePassword(AdminAlphabet, GeneratedLen, rnd);
      DrawnAdminBytes(rnd[..GeneratedLen]);
      SetTextKeeps(adminPass, newPw);
      adminPass := SetText(adminPass, Some(newPw));
      passNotified := passNotified + 1;
      r := JsonReply(JObj(map["username" := JStr(AdminUser), "password" := JStr(newPw)]));
    }

    /**
     * The page routes: `/admin` redirects to `/wifi`; `/wifi`, `/admin.js`
     * and `/admin.css` serve the flash copy when there is one and the
     * embedded copy otherwise.
     */
    method ServePage(authorization: Option<string>, route: string) returns (r: Response)
      requires route in {"/admin", "/wifi", "/admin.js", "/admin.css"}
      ensures !Admits(authorization) ==> r == AuthChallenge
      ensures Admits(authorization) && route == "/admin" ==> r == RedirectTo("/wifi")
      ensures Admits(authorization) && route != "/admin" ==>
                var file := if route == "/wifi" then "/admin.html" else route;
                var kind := if route == "/wifi" then "text/html"
                            else if route == "/admin.js" then "application/javascript" else "text/css";
                r == (if file in flash then FromFlash(file, kind) else ServeEmbedded(files, file))
    {
      if !Admits(authorization) {
        return AuthChallenge;
      }
      if route == "/admin" {
        return RedirectTo("/wifi");
      }
      var file := if route == "/wifi" then "/admin.html" else route;
      var kind := if route == "/wifi" then "text/html"
                  else if route == "/admin.js" then "application/javascript" else "text/css";
      if file in flash {
        r := FromFlash(file, kind);
      } else {
        r := ServeEmbedded(files, file);
      }
    }
  }

  /** After a regeneration, a client that sends the returned password as Basic credentials is admitted. */
  lemma RegeneratedPasswordAdmits(rnd: seq<Nat32>)
    requires GeneratedLen <= |rnd|
    ensures var p := Drawn(AdminAlphabet, rnd[..GeneratedLen]);
            Bytes(p) && IsAdminAuthorized(true, p, Some(BasicHeader(p)))
  {
    var p := Drawn(AdminAlphabet, rnd[..GeneratedLen]);
    DrawnAdminBytes(rnd[..GeneratedLen]);
    assert |p| == GeneratedLen;
    BasicHeaderAccepted(p);
  }

  /** A posted configuration that fits is served back by the next `GET`, trimmed. */
  lemma PostedConfigServed(config: StringBuffer, body: string)
    requires config.Valid() && ConfigBodyAccepted(body) && |Trim(body)| < config.size && PlainText(Trim(body))
    ensures SetText(config, Some(Trim(body))).text == Trim(body) != ""
  {
    SetTextKeeps(config, Trim(body));
  }
}
