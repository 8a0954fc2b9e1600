/**
 * The over-the-air update service (`OtaUpdate.h`): it is started once the
 * station is connected, accepts uploads for a window of `windowSeconds`
 * after its start (0 means without limit) and then closes for good until
 * the window is restarted.  Its settings and password live in the `wifi`
 * namespace of the Preferences store, modelled as a map from key to typed
 * value; `millis()` is the parameter `now`, and the random words that seed
 * the password generator are the input `rnd`.
 */
module Ota {
  import opened Wrappers
  import opened Machine
  import opened JsonDoc
  import opened Passwords

  /** A value of the Preferences store, with the type it was written as. */
  datatype Pref = PBool(b: bool) | PUShort(u: nat) | PUInt(w: Nat32) | PString(s: string)

  const DefaultPort: nat := 3232
  const DefaultWindow: Nat32 := 600
  /** `_generatePassword(16)`. */
  const OtaPassLen: nat := 16
  /** `getRemainingSeconds()` while the window has no limit. */
  const Unlimited: Nat32 := 0xFFFF_FFFF

  predicate IsU16(x: int) {
    0 <= x < 0x1_0000
  }

  /** `getBool(key, def)`: the stored flag, or `def` when the key is missing or of another type. */
  function ReadBool(prefs: map<string, Pref>, key: string, def: bool): bool {
    if key in prefs && prefs[key].PBool? then prefs[key].b else def
  }

  function ReadUShort(prefs: map<string, Pref>, key: string, def: nat): nat {
    if key in prefs && prefs[key].PUShort? then prefs[key].u else def
  }

  function ReadUInt(prefs: map<string, Pref>, key: string, def: Nat32): Nat32 {
    if key in prefs && prefs[key].PUInt? then prefs[key].w else def
  }

  /** `_readString(key, def)`. */
  function ReadString(prefs: map<string, Pref>, key: string, def: string): string {
    if key in prefs && prefs[key].PString? then prefs[key].s else def
  }

  // ---------------------------------------------------------------------------
  // The upload window
  // ---------------------------------------------------------------------------

  /** `getRemainingSeconds()`: whole seconds left of the window; the elapsed time is taken across a wrap of `millis()`. */
  function Remaining(started: bool, window: Nat32, bootMs: Nat32, now: Nat32): (r: Nat32)
    ensures !started ==> r == 0
    ensures started && window == 0 ==> r == Unlimited
    ensures started && window > 0 ==> r <= window
  {
    if !started then 0
    else if window == 0 then Unlimited
    else
      var elapsed := Elapsed32(now, bootMs) / 1000;
      if elapsed >= window then 0 else window - elapsed
  }

  /**
   * The expiry test of `handle()` as written: the window is converted to
   * milliseconds in 32-bit `unsigned long` arithmetic, which wraps for a
   * window of 4294968 seconds or more.
   */
  function ExpiredAsWritten(window: Nat32, bootMs: Nat32, now: Nat32): bool {
    window > 0 && Elapsed32(now, bootMs) > Wrap32(window * 1000)
  }

  /** The expiry test as intended: the window in milliseconds without a wrap. */
  function Expired(window: Nat32, bootMs: Nat32, now: Nat32): bool {
    window > 0 && Elapsed32(now, bootMs) > window * 1000
  }

  /**
   * A window of 4294968 seconds (about 50 days) wraps to 704 ms: the
   * as-written test closes it 705 ms after the start, while the remaining
   * time still reads as the whole window.
   */
  lemma WrappedWindowClosesEarly()
    ensures Wrap32(4294968 * 1000) == 704
    ensures ExpiredAsWritten(4294968, 0, 705)
    ensures Remaining(true, 4294968, 0, 705) == 4294968
    ensures !Expired(4294968, 0, 705)
  {
  }

  /** `elapsed / 1000 >= window` exactly when `elapsed >= window * 1000`. */
  lemma SecondsReached(elapsed: nat, window: nat)
    ensures elapsed / 1000 >= window <==> elapsed >= window * 1000
  {
    var q := elapsed / 1000;
    assert elapsed == q * 1000 + elapsed % 1000;
    if q >= window {
      assert q * 1000 >= window * 1000;
    } else {
      assert q + 1 <= window;
      assert (q + 1) * 1000 <= window * 1000;
    }
  }

  /**
   * The corrected test agrees with the remaining time: once the window is
   * closed no time remains, and when no time remains the window closes one
   * millisecond later at the latest.
   */
  lemma ExpiredAgreesWithRemaining(window: Nat32, bootMs: Nat32, now: Nat32)
    requires window > 0
    ensures Expired(window, bootMs, now) ==> Remaining(true, window, bootMs, now) == 0
    ensures Remaining(true, window, bootMs, now) == 0 <==> Elapsed32(now, bootMs) >= window * 1000
  {
    SecondsReached(Elapsed32(now, bootMs), window);
  }

  /** The two tests agree on every window short enough not to wrap. */
  lemma AsWrittenAgreesBelowWrap(window: Nat32, bootMs: Nat32, now: Nat32)
    requires window * 1000 < U32
    ensures ExpiredAsWritten(window, bootMs, now) == Expired(window, bootMs, now)
  {
  }

  /** What `ArduinoOTA` was configured with by `beginIfNeeded`. */
  datatype OtaConfig = OtaConfig(host: string, port: nat, rebootOnSuccess: bool, password: string)

  /** `OtaUpdate`. */
  class OtaUpdate {
    var enabled: bool
    var rebootOnSuccess: bool
    var started: bool
    var expired: bool
    var port: nat
    var windowSeconds: Nat32
    var bootMs: Nat32
    var hostname: string
    var password: string
    /** The `wifi` namespace of the Preferences store. */
    var prefs: map<string, Pref>
    /** Whether a status callback is set, and the messages it was given. */
    var hasStatusCallback: bool
    var statusLog: seq<string>
    /** The `ArduinoOTA` configuration, once begun, and how often `ArduinoOTA.handle()` ran. */
    var begun: Option<OtaConfig>
    var serviced: nat

    predicate Valid()
      reads this
    {
      IsU16(port) && (started <==> begun.Some?)
    }

    /** The member defaults; `prefs` is what the store holds at boot. */
    constructor (prefs: map<string, Pref>)
      ensures Valid() && this.prefs == prefs
      ensures enabled && rebootOnSuccess && !started && !expired
      ensures port == DefaultPort && windowSeconds == DefaultWindow && bootMs == 0
      ensures hostname == "" && password == "" && !hasStatusCallback && statusLog == []
      ensures begun == None && serviced == 0
    {
      enabled, rebootOnSuccess, started, expired := true, true, false, false;
      port, windowSeconds, bootMs := DefaultPort, DefaultWindow, 0;
      hostname, password := "", "";
      this.prefs := prefs;
      hasStatusCallback, statusLog := false, [];
      begun, serviced := None, 0;
    }

    /** `_emitStatus(s)`: the message reaches the callback only when one is set. */
    method EmitStatus(s: string)
      modifies this
      ensures statusLog == old(statusLog) + (if hasStatusCallback then [s] else [])
      ensures enabled == old(enabled) && rebootOnSuccess == old(rebootOnSuccess) && started == old(started)
      ensures expired == old(expired) && port == old(port) && windowSeconds == old(windowSeconds)
      ensures bootMs == old(bootMs) && hostname == old(hostname) && password == old(password)
      ensures prefs == old(prefs) && hasStatusCallback == old(hasStatusCallback)
      ensures begun == old(begun) && serviced == old(serviced)
    {
      if hasStatusCallback {
        statusLog := statusLog + [s];
      }
    }

    method OnStatus(installed: bool)
      modifies this
      ensures hasStatusCallback == installed && statusLog == old(statusLog)
      ensures enabled == old(enabled) && started == old(started) && prefs == old(prefs) && begun == old(begun)
    {
      hasStatusCallback := installed;
    }

    /** `setEnabled(en)`: the flag is kept and persisted. */
    method SetEnabled(en: bool)
      modifies this
      ensures enabled == en && prefs == old(prefs)["otaEnabled" := PBool(en)]
      ensures started == old(started) && password == old(password) && port == old(port)
      ensures windowSeconds == old(windowSeconds) && begun == old(begun)
    {
      enabled := en;
      prefs := prefs["otaEnabled" := PBool(en)];
    }

    method SetPort(p: nat)
      requires IsU16(p) && Valid()
      modifies this
      ensures Valid() && port == p && prefs == old(prefs)["otaPort" := PUShort(p)]
      ensures enabled == old(enabled) && started == old(started) && password == old(password)
      ensures windowSeconds == old(windowSeconds)
    {
      port := p;
      prefs := prefs["otaPort" := PUShort(p)];
    }

    method SetRebootOnSuccess(reboot: bool)
      modifies this
      ensures rebootOnSuccess == reboot && prefs == old(prefs)["otaReboot" := PBool(reboot)]
      ensures enabled == old(enabled) && started == old(started) && port == old(port)
      ensures windowSeconds == old(windowSeconds) && begun == old(begun)
    {
      rebootOnSuccess := reboot;
      prefs := prefs["otaReboot" := PBool(reboot)];
    }

    method SetWindowSeconds(seconds: Nat32)
      modifies this
      ensures windowSeconds == seconds && prefs == old(prefs)["otaWindow" := PUInt(seconds)]
      ensures enabled == old(enabled) && started == old(started) && port == old(port)
      ensures bootMs == old(bootMs) && expired == old(expired) && begun == old(begun)
    {
      windowSeconds := seconds;
      prefs := prefs["otaWindow" := PUInt(seconds)];
    }

    method SetHostname(host: string)
      modifies this
      ensures hostname == host && prefs == old(prefs) && started == old(started) && begun == old(begun)
      ensures enabled == old(enabled) && port == old(port)
    {
      hostname := host;
    }

    /** `load()`: the settings from the store, with the defaults for missing keys; the password is forgotten. */
    method Load()
      requires Valid()
      modifies this
      ensures Valid()
      ensures enabled == ReadBool(prefs, "otaEnabled", true)
      ensures port == Wrap16(ReadUShort(prefs, "otaPort", DefaultPort))
      ensures rebootOnSuccess == ReadBool(prefs, "otaReboot", true)
      ensures windowSeconds == ReadUInt(prefs, "otaWindow", DefaultWindow)
      ensures password == ""
      ensures prefs == old(prefs) && started == old(started) && begun == old(begun) && bootMs == old(bootMs)
      ensures expired == old(expired) && hostname == old(hostname)
    {
      enabled := ReadBool(prefs, "otaEnabled", true);
      port := Wrap16(ReadUShort(prefs, "otaPort", DefaultPort));
      rebootOnSuccess := ReadBool(prefs, "otaReboot", true);
      windowSeconds := ReadUInt(prefs, "otaWindow", DefaultWindow);
      password := "";
    }

    /** `setPassword(pass)`: an empty password is replaced by a generated one; the result is persisted. */
    method SetPassword(pass: string, rnd: seq<Nat32>)
      requires OtaPassLen <= |rnd|
      modifies this
      ensures pass != "" ==> password == pass
      ensures pass == "" ==> password == Drawn(OtaAlphabet, rnd[..OtaPassLen])
      ensures password != "" && prefs == old(prefs)["otaPass" := PString(password)]
      ensures enabled == old(enabled) && started == old(started) && port == old(port) && begun == old(begun)
      ensures windowSeconds == old(windowSeconds) && bootMs == old(bootMs) && expired == old(expired)
      ensures statusLog == old(statusLog) && hostname == old(hostname) && rebootOnSuccess == old(rebootOnSuccess)
      ensures hasStatusCallback == old(hasStatusCallback) && serviced == old(serviced)
    {
      if |pass| == 0 {
        var gen := GeneratePassword(OtaAlphabet, OtaPassLen, rnd);
        password := gen;
        prefs := prefs["otaPass" := PString(gen)];
      } else {
        password := pass;
        prefs := prefs["otaPass" := PString(pass)];
      }
    }

    /**
     * `getPassword()`: the password in memory, else the stored one, else a
     * freshly generated one; never empty.
     */
    method GetPassword(rnd: seq<Nat32>) returns (p: string)
      requires OtaPassLen <= |rnd|
      modifies this
      ensures p == password && p != ""
      ensures old(password) != "" ==> p == old(password) && prefs == old(prefs)
      ensures old(password) == "" && ReadString(old(prefs), "otaPass", "") != "" ==>
                p == ReadString(old(prefs), "otaPass", "") && prefs == old(prefs)
      ensures old(password) == "" && ReadString(old(prefs), "otaPass", "") == "" ==>
                p == Drawn(OtaAlphabet, rnd[..OtaPassLen]) && prefs == old(prefs)["otaPass" := PString(p)]
      ensures enabled == old(enabled) && started == old(started) && port == old(port) && begun == old(begun)
      ensures windowSeconds == old(windowSeconds) && bootMs == old(bootMs) && expired == old(expired)
      ensures statusLog == old(statusLog) && hostname == old(hostname) && rebootOnSuccess == old(rebootOnSuccess)
      ensures hasStatusCallback == old(hasStatusCallback) && serviced == old(serviced)
    {
      if |password| > 0 {
        return password;
      }
      password := ReadString(prefs, "otaPass", "");
      if |password| == 0 {
        SetPassword("", rnd);
      }
      p := password;
    }

    /** `clearPassword()`: forgotten in memory and removed from the store. */
    method ClearPassword()
      modifies this
      ensures password == "" && prefs == old(prefs) - {"otaPass"}
      ensures enabled == old(enabled) && started == old(started) && port == old(port) && begun == old(begun)
      ensures windowSeconds == old(windowSeconds) && bootMs == old(bootMs) && expired == old(expired)
      ensures statusLog == old(statusLog) && hostname == old(hostname) && rebootOnSuccess == old(rebootOnSuccess)
      ensures hasStatusCallback == old(hasStatusCallback) && serviced == old(serviced)
    {
      password := "";
      prefs := prefs - {"otaPass"};
    }

    /** `regeneratePassword()`: always a new generated password, persisted. */
    method RegeneratePassword(rnd: seq<Nat32>) returns (p: string)
      requires OtaPassLen <= |rnd|
      modifies this
      ensures p == password == Drawn(OtaAlphabet, rnd[..OtaPassLen])
      ensures prefs == (old(prefs) - {"otaPass"})["otaPass" := PString(p)]
      ensures enabled == old(enabled) && started == old(started) && port == old(port) && begun == old(begun)
      ensures windowSeconds == old(windowSeconds) && bootMs == old(bootMs) && expired == old(expired)
    {
      ClearPassword();
      assert ReadString(prefs, "otaPass", "") == "";
      p := GetPassword(rnd);
    }

    /** `getRemainingSeconds()` at time `now`. */
    function RemainingSeconds(now: Nat32): (r: Nat32)
      reads this
      ensures r == Remaining(started, windowSeconds, bootMs, now)
    {
      Remaining(started, windowSeconds, bootMs, now)
    }

    /** `restartWindow()`: a started service gets a whole new window. */
    method RestartWindow(now: Nat32)
      modifies this
      ensures old(started) ==> !expired && bootMs == now
      ensures !old(started) ==> expired == old(expired) && bootMs == old(bootMs)
      ensures started == old(started) && windowSeconds == old(windowSeconds) && begun == old(begun)
      ensures enabled == old(enabled) && password == old(password) && prefs == old(prefs)
      ensures statusLog == old(statusLog) && serviced == old(serviced)
    {
      if !started {
        return;
      }
      expired := false;
      bootMs := now;
    }

    /**
     * `beginIfNeeded(fallback)`: once, while enabled and connected, the
     * service starts under the host name (or the fallback) with the
     * password `getPassword` yields, and its window opens.
     */
    method BeginIfNeeded(now: Nat32, connected: bool, fallback: string, rnd: seq<Nat32>)
      requires Valid() && OtaPassLen <= |rnd|
      modifies this
      ensures Valid()
      ensures old(started) || !old(enabled) || !connected ==>
                started == old(started) && begun == old(begun) && bootMs == old(bootMs)
                && password == old(password) && prefs == old(prefs) && statusLog == old(statusLog)
      ensures !old(started) && old(enabled) && connected ==>
                var host := if old(hostname) != "" then old(hostname) else fallback;
                started && bootMs == now && password != ""
                && begun == Some(OtaConfig(host, port, rebootOnSuccess, password))
                && statusLog == old(statusLog)
                   + (if hasStatusCallback then ["[OTA] ready: host=" + host + " port=" + NatToDecimal(port)] else [])
      ensures enabled == old(enabled) && port == old(port) && windowSeconds == old(windowSeconds)
      ensures expired == old(expired) && hostname == old(hostname) && serviced == old(serviced)
    {
      if started {
        return;
      }
      if !enabled {
        return;
      }
      if !connected {
        return;
      }
      var host := if |hostname| > 0 then hostname else fallback;
      var pass := GetPassword(rnd);
      begun := Some(OtaConfig(host, port, rebootOnSuccess, pass));
      started := true;
      bootMs := now;
      EmitStatus("[OTA] ready: host=" + host + " port=" + NatToDecimal(port));
    }

    /**
     * `handle()`: nothing once the window has closed or while the station
     * is offline; the window closes for good when it has run out, and
     * otherwise pending uploads are serviced.  The window test is the one
     * written, `ExpiredAsWritten`, which agrees with `Expired` for every
     * window below 4294968 seconds (`AsWrittenAgreesBelowWrap`).
     */
    method Handle(now: Nat32, connected: bool)
      modifies this
      ensures old(expired) || !connected ==>
                expired == old(expired) && serviced == old(serviced) && statusLog == old(statusLog)
      ensures !old(expired) && connected && ExpiredAsWritten(windowSeconds, bootMs, now) ==>
                expired && serviced == old(serviced)
                && statusLog == old(statusLog) + (if hasStatusCallback then ["[OTA] window expired"] else [])
      ensures !old(expired) && connected && !ExpiredAsWritten(windowSeconds, bootMs, now) ==>
                !expired && serviced == old(serviced) + 1 && statusLog == old(statusLog)
      ensures started == old(started) && windowSeconds == old(windowSeconds) && bootMs == old(bootMs)
      ensures enabled == old(enabled) && password == old(password) && prefs == old(prefs) && begun == old(begun)
    {
      if expired {
        return;
      }
      if !connected {
        return;
      }
      if windowSeconds > 0 {
        if Elapsed32(now, bootMs) > Wrap32(windowSeconds * 1000) {
          expired := true;
          EmitStatus("[OTA] window expired");
          return;
        }
      }
      serviced := serviced + 1;
    }
  }

  /** A `uint16_t` store: values read back from the store are reduced to 16 bits. */
  function Wrap16(x: nat): (r: nat)
    ensures IsU16(r) && (IsU16(x) ==> r == x)
  {
    x % 0x1_0000
  }

  /**
   * Once `handle()` has closed a window short enough not to wrap,
   * `/ota/status` reports no time left.
   */
  lemma ClosedWindowHasNoTimeLeft(o: OtaUpdate, now: Nat32)
    requires o.started && o.windowSeconds * 1000 < U32
    requires ExpiredAsWritten(o.windowSeconds, o.bootMs, now)
    ensures o.RemainingSeconds(now) == 0
  {
    AsWrittenAgreesBelowWrap(o.windowSeconds, o.bootMs, now);
    ExpiredAgreesWithRemaining(o.windowSeconds, o.bootMs, now);
  }
}
