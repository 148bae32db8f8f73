/**
 Configuration normalisation: four passes that rewrite a loaded configuration in place, and when running them again
 changes nothing.
 */
module Config {
  import opened Bytes
  import opened Targets
  import opened RecordFormat
  import MimicPath

  const BALANCED: Text := AsciiBytes("balanced")
  const AGGRESSIVE: Text := AsciiBytes("aggressive")
  const STABLE: Text := AsciiBytes("stable")
  const LATENCY: Text := AsciiBytes("latency")
  const HTTPSMUX: Text := AsciiBytes("httpsmux")
  const WSSMUX: Text := AsciiBytes("wssmux")
  const SNAPPY: Text := AsciiBytes("snappy")
  const DEFAULT_DOMAIN: Text := AsciiBytes("www.google.com")
  const DEFAULT_AGENT: Text := AsciiBytes("Mozilla/5.0 (Windows NT 10.0; Win64; x64) AppleWebKit/537.36")
  const DEFAULT_PATH: Text := [47, 115, 101, 97, 114, 99, 104] // "/search"
  const SLASH: Text := [47]

  // The sections of a configuration, with the fields that the passes read or write.

  datatype Smux = Smux(keepAlive: int, maxRecv: int, maxStream: int, frameSize: int, version: int)

  datatype Advanced =
    Advanced(sessionTimeout: int, tcpKeepAlive: int, tcpNoDelay: bool, tcpReadBuffer: int, tcpWriteBuffer: int)

  datatype HttpMimic =
    HttpMimic(fakeDomain: Text, fakePath: Text, userAgent: Text, chunked: bool, cookie: bool, headers: seq<Text>)

  datatype Obfuscation =
    Obfuscation(enabled: bool, minPadding: int, maxPadding: int, minDelay: int, maxDelay: int, burstChance: real)

  datatype Fragment = Fragment(enabled: bool, minSize: int, maxSize: int, minDelay: int, maxDelay: int)

  datatype Mimic =
    Mimic(fakeDomain: Text, fakePath: Text, userAgent: Text, headers: seq<Text>, cookie: bool, chunked: bool)

  datatype Forward = Forward(tcp: seq<Text>, udp: seq<Text>)

  datatype Path = Path(addr: Text, connectionPool: int, aggressivePool: bool, retryInterval: int, dialTimeout: int)

  datatype General = General(
    transport: Text, profile: Text, heartbeat: int, sessionTimeout: int, numConnections: int, decoyInterval: int,
    compression: Text)

  datatype Settings = Settings(
    general: General, smux: Smux, advanced: Advanced, httpMimic: HttpMimic, obfuscation: Obfuscation,
    fragment: Fragment, mimic: Mimic, obfs: Obfs, maps: seq<DaggerMap>, forward: Forward, paths: seq<Path>)

  // ---- what the passes do ----

  function OrDefault(n: int, default: int): int {
    if n <= 0 then default else n
  }

  function OrText(s: Text, default: Text): Text {
    if s == [] then default else s
  }

  /** A value outside 1..limit becomes the limit. */
  function Within(n: int, limit: int): int {
    if 1 <= n <= limit then n else limit
  }

  function AtLeast(n: int, least: int): int {
    if n < least then least else n
  }

  function NormalizePath(p: Text): Text {
    var t := TrimSpace(p);
    if t == [] || t[0] == 47 then t else SLASH + t
  }

  function DefaultGeneral(g: General, advancedTimeout: int): General {
    g.(profile := OrText(g.profile, BALANCED), heartbeat := OrDefault(g.heartbeat, 10),
       sessionTimeout := OrDefault(advancedTimeout, OrDefault(g.sessionTimeout, 30)),
       numConnections := OrDefault(g.numConnections, 4), decoyInterval := OrDefault(g.decoyInterval, 5))
  }

  function DefaultSmux(s: Smux): Smux {
    Smux(OrDefault(s.keepAlive, 10), OrDefault(s.maxRecv, 8388608), OrDefault(s.maxStream, 8388608),
         OrDefault(s.frameSize, 32768), OrDefault(s.version, 2))
  }

  function DefaultHttpMimic(h: HttpMimic): HttpMimic {
    h.(fakeDomain := OrText(h.fakeDomain, DEFAULT_DOMAIN),
       fakePath := NormalizePath(OrText(h.fakePath, DEFAULT_PATH)),
       userAgent := OrText(h.userAgent, DEFAULT_AGENT))
  }

  function DefaultObfuscation(o: Obfuscation): Obfuscation {
    o.(minPadding := OrDefault(o.minPadding, 4), maxPadding := OrDefault(o.maxPadding, 32))
  }

  function DefaultAdvanced(a: Advanced): Advanced {
    a.(tcpKeepAlive := OrDefault(a.tcpKeepAlive, 15), tcpNoDelay := true)
  }

  predicate OverTls(transport: Text) {
    ToLower(transport) == HTTPSMUX || ToLower(transport) == WSSMUX
  }

  function DefaultFragment(f: Fragment, transport: Text): Fragment {
    Fragment(f.enabled || OverTls(transport), OrDefault(f.minSize, 64), OrDefault(f.maxSize, 191),
             OrDefault(f.minDelay, 1), OrDefault(f.maxDelay, 2))
  }

  /** What applyBaseDefaults makes of a configuration. */
  function BaseDefaults(c: Settings): Settings {
    c.(general := DefaultGeneral(c.general, c.advanced.sessionTimeout),
       smux := DefaultSmux(c.smux),
       advanced := DefaultAdvanced(c.advanced),
       httpMimic := DefaultHttpMimic(c.httpMimic),
       obfuscation := DefaultObfuscation(c.obfuscation),
       fragment := DefaultFragment(c.fragment, c.general.transport))
  }

  datatype Profile = Aggressive | Stable | Latency | Other

  function ProfileOf(name: Text): Profile {
    if name == AGGRESSIVE then Aggressive else if name == STABLE then Stable
    else if name == LATENCY then Latency else Other
  }

  function ProfileSmux(profile: Profile, s: Smux): Smux {
    match profile
    case Aggressive => s.(keepAlive := Within(s.keepAlive, 5), frameSize := AtLeast(s.frameSize, 32768),
                          maxRecv := AtLeast(s.maxRecv, 8388608), maxStream := AtLeast(s.maxStream, 8388608))
    case Stable => s.(keepAlive := Within(s.keepAlive, 15), frameSize := OrDefault(s.frameSize, 32768),
                      maxRecv := Within(s.maxRecv, 2097152), maxStream := Within(s.maxStream, 1048576))
    case Latency => s.(keepAlive := Within(s.keepAlive, 5), frameSize := AtLeast(s.frameSize, 32768))
    case Other => s
  }

  function ProfileObfuscation(profile: Profile, o: Obfuscation): Obfuscation {
    match profile
    case Aggressive => o.(enabled := true, minDelay := 0, maxDelay := 0, maxPadding := Min(o.maxPadding, 64))
    case Other => o
    case _ => o.(minDelay := 0, maxDelay := 0)
  }

  function ProfilePath(profile: Profile, p: Path): Path {
    var p := p.(dialTimeout := OrDefault(p.dialTimeout, 10));
    match profile
    case Aggressive => p.(connectionPool := AtLeast(p.connectionPool, 4), aggressivePool := true,
                          retryInterval := Within(p.retryInterval, 2))
    case Latency => p.(connectionPool := OrDefault(p.connectionPool, 3), retryInterval := OrDefault(p.retryInterval, 2))
    case _ => p.(connectionPool := OrDefault(p.connectionPool, 2), retryInterval := OrDefault(p.retryInterval, 3))
  }

  function ProfilePaths(profile: Profile, paths: seq<Path>): (r: seq<Path>)
    ensures |r| == |paths|
  {
    seq(|paths|, i requires 0 <= i < |paths| => ProfilePath(profile, paths[i]))
  }

  /** What applyProfile makes of a configuration. */
  function WithProfile(c: Settings): Settings {
    var profile := ProfileOf(c.general.profile);
    var c := c.(smux := ProfileSmux(profile, c.smux), obfuscation := ProfileObfuscation(profile, c.obfuscation),
                paths := ProfilePaths(profile, c.paths));
    if !profile.Aggressive? then c
    else
      c.(general := c.general.(compression := SNAPPY),
         fragment := c.fragment.(enabled := true),
         httpMimic := c.httpMimic.(chunked := false),
         advanced := c.advanced.(tcpReadBuffer := AtLeast(c.advanced.tcpReadBuffer, 8388608),
                                 tcpWriteBuffer := AtLeast(c.advanced.tcpWriteBuffer, 8388608)))
  }

  /** What mapDaggerToLegacy makes of the forward lists. */
  function WithForwards(c: Settings): Settings {
    if c.forward == Forward([], []) then c.(forward := Forward(Forwards(c.maps, Tcp), Forwards(c.maps, Udp))) else c
  }

  /** A conversion to int drops the fraction. */
  function Truncate(x: real): int {
    if x >= 0.0 then x.Floor else -(-x).Floor
  }

  function AliasMimic(m: Mimic, h: HttpMimic): Mimic {
    Mimic(OrText(m.fakeDomain, h.fakeDomain), OrText(m.fakePath, h.fakePath), OrText(m.userAgent, h.userAgent),
          if m.headers == [] then h.headers else m.headers, h.cookie, h.chunked)
  }

  function AliasObfs(b: Obfs, o: Obfuscation): Obfs {
    Obfs(b.enabled || o.enabled, OrDefault(b.minPadding, o.minPadding), OrDefault(b.maxPadding, o.maxPadding),
         OrDefault(b.minDelay, o.minDelay), OrDefault(b.maxDelay, o.maxDelay),
         OrDefault(b.burstChance, Truncate(o.burstChance * 1000.0)))
  }

  /** What syncAliases makes of a configuration. */
  function Synced(c: Settings): Settings {
    c.(mimic := AliasMimic(c.mimic, c.httpMimic), obfs := AliasObfs(c.obfs, c.obfuscation))
  }

  function Normalised(c: Settings): Settings {
    Synced(WithForwards(WithProfile(BaseDefaults(c))))
  }

  // ---- the passes, in place ----

  class Config {
    var general: General
    var smux: Smux
    var advanced: Advanced
    var httpMimic: HttpMimic
    var obfuscation: Obfuscation
    var fragment: Fragment
    var mimic: Mimic
    var obfs: Obfs
    var maps: seq<DaggerMap>
    var forward: Forward
    var paths: array<Path>

    ghost function View(): Settings
      reads this, paths
    {
      Settings(general, smux, advanced, httpMimic, obfuscation, fragment, mimic, obfs, maps, forward, paths[..])
    }

    method ApplyBaseDefaults()
      modifies this
      ensures View() == BaseDefaults(old(View())) && paths == old(paths)
    {
      DefaultConnectionsInPlace();
      DefaultDisguiseInPlace();
    }

    method DefaultConnectionsInPlace()
      modifies this`general, this`smux, this`advanced
      ensures general == DefaultGeneral(old(general), old(advanced).sessionTimeout) && smux == DefaultSmux(old(smux))
      ensures advanced == DefaultAdvanced(old(advanced))
    {
      DefaultGeneralInPlace();
      DefaultSmuxInPlace();
      DefaultAdvancedInPlace();
    }

    method DefaultDisguiseInPlace()
      modifies this`httpMimic, this`obfuscation, this`fragment
      ensures httpMimic == DefaultHttpMimic(old(httpMimic)) && obfuscation == DefaultObfuscation(old(obfuscation))
      ensures fragment == DefaultFragment(old(fragment), general.transport)
    {
      DefaultHttpMimicInPlace();
      DefaultPaddingInPlace();
      DefaultFragmentInPlace();
    }

    method DefaultSmuxInPlace()
      modifies this`smux
      ensures smux == DefaultSmux(old(smux))
    {
      if smux.keepAlive <= 0 { smux := smux.(keepAlive := 10); }
      if smux.maxRecv <= 0 { smux := smux.(maxRecv := 8388608); }
      if smux.maxStream <= 0 { smux := smux.(maxStream := 8388608); }
      if smux.frameSize <= 0 { smux := smux.(frameSize := 32768); }
      if smux.version <= 0 { smux := smux.(version := 2); }
    }

    method DefaultHttpMimicInPlace()
      modifies this`httpMimic
      ensures httpMimic == DefaultHttpMimic(old(httpMimic))
    {
      if httpMimic.fakeDomain == [] { httpMimic := httpMimic.(fakeDomain := DEFAULT_DOMAIN); }
      if httpMimic.fakePath == [] { httpMimic := httpMimic.(fakePath := DEFAULT_PATH); }
      httpMimic := httpMimic.(fakePath := NormalizePath(httpMimic.fakePath));
      if httpMimic.userAgent == [] { httpMimic := httpMimic.(userAgent := DEFAULT_AGENT); }
    }

    method DefaultGeneralInPlace()
      modifies this`general
      ensures general == DefaultGeneral(old(general), advanced.sessionTimeout)
    {
      if general.profile == [] { general := general.(profile := BALANCED); }
      if general.heartbeat <= 0 { general := general.(heartbeat := 10); }
      if general.sessionTimeout <= 0 { general := general.(sessionTimeout := 30); }
      if advanced.sessionTimeout > 0 { general := general.(sessionTimeout := advanced.sessionTimeout); }
      if general.numConnections <= 0 { general := general.(numConnections := 4); }
      if general.decoyInterval <= 0 { general := general.(decoyInterval := 5); }
    }

    method DefaultPaddingInPlace()
      modifies this`obfuscation
      ensures obfuscation == DefaultObfuscation(old(obfuscation))
    {
      if obfuscation.minPadding <= 0 { obfuscation := obfuscation.(minPadding := 4); }
      if obfuscation.maxPadding <= 0 { obfuscation := obfuscation.(maxPadding := 32); }
    }

    method DefaultAdvancedInPlace()
      modifies this`advanced
      ensures advanced == DefaultAdvanced(old(advanced))
    {
      if advanced.tcpKeepAlive <= 0 { advanced := advanced.(tcpKeepAlive := 15); }
      if !advanced.tcpNoDelay { advanced := advanced.(tcpNoDelay := true); }
    }

    method DefaultFragmentInPlace()
      modifies this`fragment
      ensures fragment == DefaultFragment(old(fragment), general.transport)
    {
      if fragment.minSize <= 0 { fragment := fragment.(minSize := 64); }
      if fragment.maxSize <= 0 { fragment := fragment.(maxSize := 191); }
      if fragment.minDelay <= 0 { fragment := fragment.(minDelay := 1); }
      if fragment.maxDelay <= 0 { fragment := fragment.(maxDelay := 2); }
      if !fragment.enabled && OverTls(general.transport) { fragment := fragment.(enabled := true); }
    }

    /** applyProfile: what is not about paths first, then one loop over the paths. */
    method ApplyProfile()
      modifies this, paths
      ensures View() == WithProfile(old(View())) && paths == old(paths)
    {
      var profile := ProfileOf(general.profile);
      match profile {
        case Aggressive =>
          ProfileAggressive();
        case Stable =>
          ProfileStable();
        case Latency =>
          ProfileLatency();
        case Other =>
      }
      UpdatePaths(profile);
    }

    method ProfileAggressive()
      modifies this`smux, this`obfuscation, this`general, this`fragment, this`httpMimic, this`advanced
      ensures smux == ProfileSmux(Aggressive, old(smux))
      ensures obfuscation == ProfileObfuscation(Aggressive, old(obfuscation))
      ensures general == old(general).(compression := SNAPPY) && fragment == old(fragment).(enabled := true)
      ensures httpMimic == old(httpMimic).(chunked := false)
      ensures advanced == old(advanced).(tcpReadBuffer := AtLeast(old(advanced.tcpReadBuffer), 8388608),
                                         tcpWriteBuffer := AtLeast(old(advanced.tcpWriteBuffer), 8388608))
    {
      fragment := fragment.(enabled := true);
      obfuscation := obfuscation.(enabled := true);
      EnlargeSmux();
      if advanced.tcpReadBuffer < 8388608 { advanced := advanced.(tcpReadBuffer := 8388608); }
      if advanced.tcpWriteBuffer < 8388608 { advanced := advanced.(tcpWriteBuffer := 8388608); }
      obfuscation := obfuscation.(minDelay := 0, maxDelay := 0);
      if obfuscation.maxPadding > 64 { obfuscation := obfuscation.(maxPadding := 64); }
      httpMimic := httpMimic.(chunked := false);
      general := general.(compression := SNAPPY);
    }

    method EnlargeSmux()
      modifies this`smux
      ensures smux == ProfileSmux(Aggressive, old(smux))
    {
      if smux.keepAlive <= 0 || smux.keepAlive > 5 { smux := smux.(keepAlive := 5); }
      if smux.frameSize < 32768 { smux := smux.(frameSize := 32768); }
      if smux.maxRecv < 8388608 { smux := smux.(maxRecv := 8388608); }
      if smux.maxStream < 8388608 { smux := smux.(maxStream := 8388608); }
    }

    method ProfileStable()
      modifies this`smux, this`obfuscation
      ensures smux == ProfileSmux(Stable, old(smux)) && obfuscation == ProfileObfuscation(Stable, old(obfuscation))
    {
      if smux.keepAlive <= 0 || smux.keepAlive > 15 { smux := smux.(keepAlive := 15); }
      if smux.frameSize <= 0 { smux := smux.(frameSize := 32768); }
      if smux.maxRecv <= 0 || smux.maxRecv > 2097152 { smux := smux.(maxRecv := 2097152); }
      if smux.maxStream <= 0 || smux.maxStream > 1048576 { smux := smux.(maxStream := 1048576); }
      obfuscation := obfuscation.(minDelay := 0, maxDelay := 0);
    }

    method ProfileLatency()
      modifies this`smux, this`obfuscation
      ensures smux == ProfileSmux(Latency, old(smux)) && obfuscation == ProfileObfuscation(Latency, old(obfuscation))
    {
      if smux.keepAlive <= 0 || smux.keepAlive > 5 { smux := smux.(keepAlive := 5); }
      if smux.frameSize < 32768 { smux := smux.(frameSize := 32768); }
      obfuscation := obfuscation.(minDelay := 0, maxDelay := 0);
    }

    /** The loop at the end of every branch of applyProfile, which rewrites the elements in place. */
    method UpdatePaths(profile: Profile)
      modifies paths
      ensures paths[..] == ProfilePaths(profile, old(paths[..]))
    {
      for i := 0 to paths.Length
        invariant forall k :: 0 <= k < i ==> paths[k] == ProfilePath(profile, old(paths[k]))
        invariant forall k :: i <= k < paths.Length ==> paths[k] == old(paths[k])
      {
        var p := paths[i];
        match profile {
          case Aggressive =>
            if p.connectionPool < 4 { p := p.(connectionPool := 4); }
            p := p.(aggressivePool := true);
            if p.retryInterval <= 0 || p.retryInterval > 2 { p := p.(retryInterval := 2); }
          case Latency =>
            if p.connectionPool <= 0 { p := p.(connectionPool := 3); }
            if p.retryInterval <= 0 { p := p.(retryInterval := 2); }
          case _ =>
            if p.connectionPool <= 0 { p := p.(connectionPool := 2); }
            if p.retryInterval <= 0 { p := p.(retryInterval := 3); }
        }
        if p.dialTimeout <= 0 { p := p.(dialTimeout := 10); }
        paths[i] := p;
      }
    }

    method AppendForwards()
      modifies this`forward
      ensures View() == WithForwards(old(View()))
    {
      var tcp, udp := MapDaggerToLegacy(maps, forward.tcp, forward.udp);
      forward := Forward(tcp, udp);
    }

    method SyncAliases()
      modifies this`mimic, this`obfs
      ensures View() == Synced(old(View()))
    {
      AliasMimicInPlace();
      AliasObfsInPlace();
    }

    method AliasObfsInPlace()
      modifies this`obfs
      ensures obfs == AliasObfs(old(obfs), obfuscation)
    {
      if !obfs.enabled { obfs := obfs.(enabled := obfuscation.enabled); }
      if obfs.minPadding <= 0 { obfs := obfs.(minPadding := obfuscation.minPadding); }
      if obfs.maxPadding <= 0 { obfs := obfs.(maxPadding := obfuscation.maxPadding); }
      if obfs.minDelay <= 0 { obfs := obfs.(minDelay := obfuscation.minDelay); }
      if obfs.maxDelay <= 0 { obfs := obfs.(maxDelay := obfuscation.maxDelay); }
      if obfs.burstChance <= 0 { obfs := obfs.(burstChance := Truncate(obfuscation.burstChance * 1000.0)); }
    }

    method AliasMimicInPlace()
      modifies this`mimic
      ensures mimic == AliasMimic(old(mimic), httpMimic)
    {
      if mimic.fakeDomain == [] { mimic := mimic.(fakeDomain := httpMimic.fakeDomain); }
      if mimic.fakePath == [] { mimic := mimic.(fakePath := httpMimic.fakePath); }
      if mimic.userAgent == [] { mimic := mimic.(userAgent := httpMimic.userAgent); }
      if |mimic.headers| == 0 && |httpMimic.headers| > 0 { mimic := mimic.(headers := httpMimic.headers); }
      mimic := mimic.(chunked := httpMimic.chunked, cookie := httpMimic.cookie);
    }

    /** The passes in the order in which LoadConfig runs them. */
    method Normalise()
      modifies this, paths
      ensures View() == Normalised(old(View())) && paths == old(paths)
    {
      ApplyBaseDefaults();
      ApplyProfile();
      AppendForwards();
      SyncAliases();
    }
  }

  // ---- running the passes again ----

  /** White space and nothing else, but not empty. */
  predicate Blank(s: Text) {
    s != [] && TrimSpace(s) == []
  }

  lemma SlashIsTrimmed(t: Text)
    requires t != [] && TrailingSpace(t) == 0
    ensures Trimmed(SLASH + t)
  {
  }

  lemma NormalizePathStable(p: Text)
    ensures NormalizePath(NormalizePath(p)) == NormalizePath(p)
    ensures NormalizePath(p) == [] <==> TrimSpace(p) == []
    ensures NormalizePath(p) != [] ==> NormalizePath(p)[0] == 47
  {
    var t := TrimSpace(p);
    TrimSpaceTrims(p);
    if t != [] && t[0] != 47 {
      SlashIsTrimmed(t);
      TrimSpaceTrims(SLASH + t);
    }
  }

  /** White space around a path goes, and a slash is put in front where there is none; nothing else changes. */
  lemma NormalizePathExactly(a: Text, t: Text, b: Text)
    requires White(a) && Trimmed(t) && White(b)
    ensures NormalizePath(a + t + b) == if t == [] || t[0] == 47 then t else [47] + t
  {
    TrimSpaceOf(a, t, b);
  }

  /** The fraction goes, towards zero. */
  lemma TruncateExactly(x: real)
    ensures x >= 0.0 ==> Truncate(x) as real <= x < Truncate(x) as real + 1.0
    ensures x <= 0.0 ==> Truncate(x) as real - 1.0 < x <= Truncate(x) as real
  {
  }

  /** In any case, the two transports over TLS and no other. */
  lemma OverTlsExactly(transport: Text)
    ensures OverTls(transport)
       <==> || SameIgnoringCase(transport, [104, 116, 116, 112, 115, 109, 117, 120]) // "httpsmux"
            || SameIgnoringCase(transport, [119, 115, 115, 109, 117, 120])           // "wssmux"
  {
    LowersTo(transport, [104, 116, 116, 112, 115, 109, 117, 120]);
    LowersTo(transport, [119, 115, 115, 109, 117, 120]);
    assert HTTPSMUX == [104, 116, 116, 112, 115, 109, 117, 120];
    assert WSSMUX == [119, 115, 115, 109, 117, 120];
  }

  // ---- what the profiles mean ----

  lemma ProfileOfExactly(name: Text)
    ensures ProfileOf(name).Aggressive? <==> name == [97, 103, 103, 114, 101, 115, 115, 105, 118, 101]
    ensures ProfileOf(name).Stable? <==> name == [115, 116, 97, 98, 108, 101]
    ensures ProfileOf(name).Latency? <==> name == [108, 97, 116, 101, 110, 99, 121]
  {
    assert AGGRESSIVE == [97, 103, 103, 114, 101, 115, 115, 105, 118, 101];
    assert STABLE == [115, 116, 97, 98, 108, 101];
    assert LATENCY == [108, 97, 116, 101, 110, 99, 121];
  }

  /** "aggressive": large buffers, keepalives at most 5 s apart, no delay, little padding, compression, fragments. */
  lemma AggressiveMeans(c: Settings)
    requires c.general.profile == [97, 103, 103, 114, 101, 115, 115, 105, 118, 101]
    ensures var n := Normalised(c);
            && 1 <= n.smux.keepAlive <= 5 && n.smux.frameSize >= 32768
            && n.smux.maxRecv >= 8388608 && n.smux.maxStream >= 8388608
            && n.advanced.tcpReadBuffer >= 8388608 && n.advanced.tcpWriteBuffer >= 8388608
            && n.obfuscation.enabled && n.obfs.enabled && 1 <= n.obfuscation.maxPadding <= 64
            && n.obfuscation.minDelay == n.obfuscation.maxDelay == 0
            && n.fragment.enabled && !n.httpMimic.chunked && n.general.compression == SNAPPY
            && forall i :: 0 <= i < |n.paths| ==>
                 n.paths[i].connectionPool >= 4 && n.paths[i].aggressivePool && 1 <= n.paths[i].retryInterval <= 2
  {
    ProfileOfExactly(c.general.profile);
    Sections(c);
  }

  /** "stable": buffers kept small, keepalives at most 15 s apart, no delay. */
  lemma StableMeans(c: Settings)
    requires c.general.profile == [115, 116, 97, 98, 108, 101]
    ensures var n := Normalised(c);
            && 1 <= n.smux.keepAlive <= 15 && n.smux.frameSize >= 1
            && 1 <= n.smux.maxRecv <= 2097152 && 1 <= n.smux.maxStream <= 1048576
            && n.obfuscation.minDelay == n.obfuscation.maxDelay == 0
            && n.general.compression == c.general.compression
  {
    ProfileOfExactly(c.general.profile);
    Sections(c);
  }

  /** "latency": keepalives at most 5 s apart, no delay, at least 32 KiB frames; buffers as given. */
  lemma LatencyMeans(c: Settings)
    requires c.general.profile == [108, 97, 116, 101, 110, 99, 121]
    ensures var n := Normalised(c);
            && 1 <= n.smux.keepAlive <= 5 && n.smux.frameSize >= 32768
            && n.obfuscation.minDelay == n.obfuscation.maxDelay == 0
            && (c.smux.maxRecv > 0 ==> n.smux.maxRecv == c.smux.maxRecv)
            && (c.smux.maxStream > 0 ==> n.smux.maxStream == c.smux.maxStream)
            && n.general.compression == c.general.compression
  {
    ProfileOfExactly(c.general.profile);
    Sections(c);
  }

  /** Every other profile, and none, keeps each setting that was given. */
  lemma GivenIsKept(c: Settings)
    requires c.general.profile != [97, 103, 103, 114, 101, 115, 115, 105, 118, 101]
    requires c.general.profile != [115, 116, 97, 98, 108, 101] && c.general.profile != [108, 97, 116, 101, 110, 99, 121]
    ensures var n := Normalised(c);
            && (c.general.heartbeat > 0 ==> n.general.heartbeat == c.general.heartbeat)
            && (c.smux.keepAlive > 0 ==> n.smux.keepAlive == c.smux.keepAlive)
            && (c.smux.maxRecv > 0 ==> n.smux.maxRecv == c.smux.maxRecv)
            && (c.smux.maxStream > 0 ==> n.smux.maxStream == c.smux.maxStream)
            && (c.smux.frameSize > 0 ==> n.smux.frameSize == c.smux.frameSize)
            && n.obfuscation.minDelay == c.obfuscation.minDelay && n.obfuscation.maxDelay == c.obfuscation.maxDelay
            && (c.obfs.maxPadding > 0 ==> n.obfs.maxPadding == c.obfs.maxPadding)
            && (c.obfs.maxPadding <= 0 < c.obfuscation.maxPadding ==> n.obfs.maxPadding == c.obfuscation.maxPadding)
            && n.general.compression == c.general.compression
            && forall i :: 0 <= i < |c.paths| && c.paths[i].connectionPool > 0 ==>
                 n.paths[i].connectionPool == c.paths[i].connectionPool
  {
    ProfileOfExactly(c.general.profile);
    ProfileOfExactly(BALANCED);
    assert |BALANCED| == 8;
    assert BALANCED[0] == 98;
    Sections(c);
  }

  lemma DefaultPathNormal()
    ensures NormalizePath(DEFAULT_PATH) == DEFAULT_PATH
  {
    assert Trimmed(DEFAULT_PATH);
    TrimSpaceTrims(DEFAULT_PATH);
  }

  lemma TrimmedEmpty()
    ensures TrimSpace([]) == []
  {
    TrimSpaceTrims([]);
    assert Trimmed([]);
  }

  /** The defaults fill the path in again exactly when the first round has emptied it. */
  lemma MimicPathStable(p: Text)
    ensures var once := NormalizePath(OrText(p, DEFAULT_PATH));
            NormalizePath(OrText(once, DEFAULT_PATH)) == once <==> !Blank(p)
    ensures NormalizePath(OrText(p, DEFAULT_PATH)) == [] <==> Blank(p)
  {
    DefaultPathNormal();
    TrimmedEmpty();
    NormalizePathStable(p);
    NormalizePathStable(OrText(p, DEFAULT_PATH));
  }

  function ProfileFor(c: Settings): Profile {
    ProfileOf(OrText(c.general.profile, BALANCED))
  }

  function ProfileGeneral(profile: Profile, g: General): General {
    if profile.Aggressive? then g.(compression := SNAPPY) else g
  }

  function ProfileAdvanced(profile: Profile, a: Advanced): Advanced {
    var a := DefaultAdvanced(a);
    if profile.Aggressive?
    then a.(tcpReadBuffer := AtLeast(a.tcpReadBuffer, 8388608), tcpWriteBuffer := AtLeast(a.tcpWriteBuffer, 8388608))
    else a
  }

  function ProfileFragment(profile: Profile, f: Fragment): Fragment {
    if profile.Aggressive? then f.(enabled := true) else f
  }

  function ProfileHttpMimic(profile: Profile, h: HttpMimic): HttpMimic {
    if profile.Aggressive? then h.(chunked := false) else h
  }

  /** What becomes of each section, through all passes. */
  lemma Sections(c: Settings)
    ensures var n, profile := Normalised(c), ProfileFor(c);
            && ProfileFor(n) == profile
            && n.general == ProfileGeneral(profile, DefaultGeneral(c.general, c.advanced.sessionTimeout))
            && n.advanced == ProfileAdvanced(profile, c.advanced)
            && n.smux == ProfileSmux(profile, DefaultSmux(c.smux))
            && n.httpMimic == ProfileHttpMimic(profile, DefaultHttpMimic(c.httpMimic))
            && n.obfuscation == ProfileObfuscation(profile, DefaultObfuscation(c.obfuscation))
            && n.fragment == ProfileFragment(profile, DefaultFragment(c.fragment, c.general.transport))
            && n.paths == ProfilePaths(profile, c.paths)
            && n.maps == c.maps && n.forward == WithForwards(c).forward
            && n.mimic == AliasMimic(c.mimic, n.httpMimic) && n.obfs == AliasObfs(c.obfs, n.obfuscation)
  {
  }

  lemma SmuxStable(profile: Profile, s: Smux)
    ensures var once := ProfileSmux(profile, DefaultSmux(s)); ProfileSmux(profile, DefaultSmux(once)) == once
  {
  }

  lemma ObfuscationStable(profile: Profile, o: Obfuscation)
    ensures var once := ProfileObfuscation(profile, DefaultObfuscation(o));
            ProfileObfuscation(profile, DefaultObfuscation(once)) == once
  {
  }

  lemma PathsStable(profile: Profile, paths: seq<Path>)
    ensures ProfilePaths(profile, ProfilePaths(profile, paths)) == ProfilePaths(profile, paths)
  {
  }

  lemma HttpMimicStable(profile: Profile, h: HttpMimic)
    ensures var once := ProfileHttpMimic(profile, DefaultHttpMimic(h));
            ProfileHttpMimic(profile, DefaultHttpMimic(once)) == once <==> !Blank(h.fakePath)
  {
    MimicPathStable(h.fakePath);
  }

  lemma AliasesStable(m: Mimic, h: HttpMimic, b: Obfs, o: Obfuscation)
    ensures AliasMimic(AliasMimic(m, h), h) == AliasMimic(m, h)
    ensures AliasObfs(AliasObfs(b, o), o) == AliasObfs(b, o)
  {
  }

  /**
   Running all passes twice is running them once, for every profile, path list and forward list, if and only if
   the HTTP-mimic path is not white space only.
   */
  lemma NormalisedTwice(c: Settings)
    ensures Normalised(Normalised(c)) == Normalised(c) <==> !Blank(c.httpMimic.fakePath)
  {
    var once, profile := Normalised(c), ProfileFor(c);
    Sections(c);
    Sections(once);
    SmuxStable(profile, c.smux);
    ObfuscationStable(profile, c.obfuscation);
    PathsStable(profile, c.paths);
    HttpMimicStable(profile, c.httpMimic);
    AliasesStable(c.mimic, once.httpMimic, c.obfs, once.obfuscation);
  }

  /** Whatever the user gives, the record layer gets positive padding bounds, and a TLS transport fragments. */
  lemma NormalisedServes(c: Settings)
    ensures var n := Normalised(c);
            && PaddingAllowed(Some(n.obfs)) && n.obfs.minPadding > 0
            && n.obfs.maxPadding > 0
            && n.smux.version > 0 && n.smux.keepAlive > 0 && n.smux.frameSize > 0
            && (OverTls(c.general.transport) ==> n.fragment.enabled && n.fragment.minSize > 0)
            && forall i :: 0 <= i < |n.paths| ==> n.paths[i].connectionPool > 0 && n.paths[i].dialTimeout > 0
  {
  }

  /** A mimic path that the passes produce is a path, and missing only if the HTTP-mimic path was blank. */
  lemma MimicPathServes(c: Settings)
    requires c.mimic.fakePath == []
    ensures var p := Normalised(c).mimic.fakePath;
            (p == [] <==> Blank(c.httpMimic.fakePath)) && (p != [] ==> p[0] == 47)
  {
    MimicPathStable(c.httpMimic.fakePath);
    NormalizePathStable(OrText(c.httpMimic.fakePath, DEFAULT_PATH));
  }

  lemma DefaultPathMeets()
    ensures MimicPath.Plain(DEFAULT_PATH) && MimicPath.Meets(DEFAULT_PATH)
  {
    var p := DEFAULT_PATH;
    MimicPath.CleanBehind(p[1..], []);
    assert p[1..] + [] == p[1..];
    assert MimicPath.OPEN !in p;
  }

  /** The client's request is taken for the tunnel when both sides run on the normalised configuration. */
  predicate Reached(c: Settings, token: Text) {
    var p := Normalised(c).mimic.fakePath;
    MimicPath.Requested(p, token).Some? && MimicPath.Accepted(p, MimicPath.Requested(p, token).value)
  }

  /** The path both sides end up with: the mimic section's own, else the HTTP-mimic section's, else the default. */
  function EffectivePath(c: Settings): Text {
    if c.mimic.fakePath != [] then c.mimic.fakePath
    else NormalizePath(if c.httpMimic.fakePath == [] then DEFAULT_PATH else c.httpMimic.fakePath)
  }

  /**
   Whatever the configuration and the token, the tunnel is reached if and only if the effective path, when plain,
   is one on which client and server meet; in particular with no path given at all, and never with a blank one.
   */
  lemma TunnelReachable(c: Settings, token: Text)
    requires MimicPath.Token(token)
    ensures MimicPath.Plain(EffectivePath(c)) ==> (Reached(c, token) <==> MimicPath.Meets(EffectivePath(c)))
    ensures c.mimic.fakePath == c.httpMimic.fakePath == [] ==> Reached(c, token)
    ensures c.mimic.fakePath == [] && Blank(c.httpMimic.fakePath) ==> !Reached(c, token)
  {
    var p := EffectivePath(c);
    Sections(c);
    assert Normalised(c).mimic.fakePath == p;
    if MimicPath.Plain(p) {
      MimicPath.ClientMeetsServer(p, token);
    }
    if c.mimic.fakePath == [] {
      MimicPathServes(c);
    }
    if c.mimic.fakePath == c.httpMimic.fakePath == [] {
      DefaultPathNormal();
      DefaultPathMeets();
    }
  }
}
