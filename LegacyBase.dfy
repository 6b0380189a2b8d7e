/**
 * The first iteration of the server side, kept in one file: a
 * configuration manager whose unparsed fields are `None` (and print as
 * "None"), and a server connection whose key rotation reads the
 * parameters file into a dictionary and looks each key up only where it
 * is used, so a missing key raises part-way through the rotation.
 *
 * A parsed field is written "" for `None`: every captured group of the
 * patterns is non-empty, so "" is never a parsed value (`ParsedUnset`).
 */
module LegacyBase {
  import opened Wrappers
  import opened Text
  import opened WgConfig
  import opened WgTypes
  import opened Remote
  import opened Connection
  import Builder

  // ------------------------------------------------------------ the manager

  /** A field as an f-string prints it: `None` prints as "None". */
  function Shown(v: string): (s: string)
    ensures s != "" && (v != "" ==> s == v)
  {
    if v == "" then "None" else v
  }

  /** The configuration with its unset client name and addresses printed as "None". */
  function Displayed(c: Config): Config
  {
    c.(clientName := Shown(c.clientName), clientIpV4 := Shown(c.clientIpV4), clientIpV6 := Shown(c.clientIpV6))
  }

  /** `create_config` of the older manager: the newer rewriting, applied to the printed fields. */
  function LegacyCanonical(c: Config, allowed: seq<string>): string
  {
    Builder.Canonical(Displayed(c), allowed)
  }

  /** The text the older manager emits for each file, given the shared allowed networks. */
  function LegacyTexts(allowed: seq<string>): (canon: Config -> string)
  {
    c => LegacyCanonical(c, allowed)
  }

  /** An address or a client name is unset exactly when no row or no file name supplied one. */
  lemma ParsedUnset(t: string, n: string)
    ensures var c := Parse(t, n);
      && (c.clientIpV4 == "" <==> LastHit(c.rows, MatchAddress).None?)
      && (c.clientIpV6 == "" <==> LastHit(c.rows, MatchAddress).None?)
      && (c.clientName == "" <==> ClientNameMatch(n).None?)
  {
    var c := Parse(t, n);
    Builder.ParseFieldsFromRows(t, n);
    var hit := LastHit(c.rows, MatchAddress);
    if hit.Some? {
      var k :| 0 <= k < |c.rows| && MatchAddress(c.rows[k]) == hit;
      MatchAddressSound(c.rows[k]);
    }
    var init := InitialConfig(t, n);
    LastMatchWins(init, init.rows);
  }

  /** When some row supplies the addresses and the name supplies the client, the older manager prints the same text. */
  lemma LegacyCanonicalAgrees(t: string, n: string, a: seq<string>)
    requires LastHit(Parse(t, n).rows, MatchAddress).Some? && ClientNameMatch(n).Some?
    ensures Displayed(Parse(t, n)) == Parse(t, n)
    ensures LegacyCanonical(Parse(t, n), a) == Builder.Canonical(Parse(t, n), a)
  {
    ParsedUnset(t, n);
  }

  /** Without a matching Address row, every Address row is emitted with the literal "None" addresses. */
  lemma LegacyUnsetAddress(t: string, n: string, a: seq<string>, i: int)
    requires LastHit(Parse(t, n).rows, MatchAddress).None?
    requires 0 <= i < |Parse(t, n).rows| && Builder.KindOf(Parse(t, n).rows[i]) == Builder.AddressKind
    ensures Builder.Rendered(Displayed(Parse(t, n)), a, Parse(t, n).rows)[i] == "Address = None/32,None/128"
  {
    var c := Parse(t, n);
    ParsedUnset(t, n);
    Builder.RenderedAt(Displayed(c), a, c.rows, i);
  }

  /** The older `ConfigManager`: one parsed file and the class-level allowed networks it shares. */
  class LegacyConfigManager {
    const config: Config
    const allowed: Builder.AllowedIps

    constructor (text: string, name: string, allowed: Builder.AllowedIps)
      ensures config == Parse(text, name) && ConfigText(config) == text
      ensures this.allowed == allowed
    {
      var c := ParseConfig(text, name);
      config := c;
      this.allowed := allowed;
    }

    /** The rewritten text: rows in order, unset fields printed as "None", then stripped. */
    method CreateConfig() returns (s: string)
      ensures s == LegacyCanonical(config, allowed.ips)
    {
      var shown := Displayed(config);
      var acc := "";
      var i := 0;
      while i < |config.rows|
        invariant 0 <= i <= |config.rows|
        invariant acc == Builder.Accumulated(shown, allowed.ips, config.rows[..i])
      {
        var line := config.rows[i];
        if StartsWith(line, "Address") {
          acc := acc + AddressRow(Shown(config.clientIpV4), Shown(config.clientIpV6)) + "\n";
        } else if StartsWith(line, "DNS") {
          acc := acc + DnsRow(config.dns) + "\n";
        } else if StartsWith(line, "AllowedIPs") {
          acc := acc + Builder.AllowedRow(allowed.ips) + "\n";
        } else {
          acc := acc + line + "\n";
        }
        assert config.rows[..i + 1][..i] == config.rows[..i];
        i := i + 1;
      }
      assert config.rows[..i] == config.rows;
      s := Strip(acc);
    }

    /** Appends to the shared class-level list in place. */
    method AddAllowedIps(xs: seq<string>)
      modifies allowed
      ensures allowed.ips == old(allowed.ips) + xs
    {
      allowed.ips := allowed.ips + xs;
    }
  }

  // ------------------------------------------------------- the key rotation

  /** The parameters as the dictionary answers them; a key it lacks reads as "" here and is checked before use. */
  function DictParams(pairs: seq<(string, string)>): WgParams
  {
    WgParams(
      Get(pairs, "SERVER_PUB_IP"), Get(pairs, "SERVER_PUB_NIC"), Get(pairs, "SERVER_WG_NIC"),
      Get(pairs, "SERVER_WG_IPV4"), Get(pairs, "SERVER_WG_IPV6"), Get(pairs, "SERVER_PORT"),
      Get(pairs, "SERVER_PRIV_KEY"), Get(pairs, "SERVER_PUB_KEY"),
      Get(pairs, "CLIENT_DNS_1"), Get(pairs, "CLIENT_DNS_2"))
  }

  /** The first of `keys`, in evaluation order, that the dictionary lacks. */
  function FirstMissing(pairs: seq<(string, string)>, keys: seq<string>): (r: Option<string>)
    ensures r.None? <==> forall i :: 0 <= i < |keys| ==> Lookup(pairs, keys[i]).Some?
    ensures r.Some? ==> exists i :: (0 <= i < |keys| && keys[i] == r.value && Lookup(pairs, r.value).None?
      && forall j :: 0 <= j < i ==> Lookup(pairs, keys[j]).Some?)
  {
    if |keys| == 0 then None
    else if Lookup(pairs, keys[0]).None? then Some(keys[0])
    else
      var r := FirstMissing(pairs, keys[1..]);
      assert forall i :: 1 <= i < |keys| ==> keys[1..][i - 1] == keys[i];
      if r.Some? then
        var i :| 0 <= i < |keys[1..]| && keys[1..][i] == r.value && Lookup(pairs, r.value).None?
          && forall j :: 0 <= j < i ==> Lookup(pairs, keys[1..][j]).Some?;
        assert keys[i + 1] == r.value;
        r
      else r
  }

  /** The keys the endpoint is built from, in the order they are looked up. */
  const EndpointKeys: seq<string> := ["SERVER_PUB_IP", "SERVER_PORT"]

  /** The keys the new client file is built from, in the order they are looked up. */
  const ClientTextKeys: seq<string> := ["CLIENT_DNS_1", "CLIENT_DNS_2", "SERVER_PUB_KEY"]

  /** Writing the new client file, then the block of the old configuration, then restarting. */
  function LegacyInstall(h: Host, c: Config, p: WgParams, kp: KeyPair): (Host, Result<Config, Raised>)
  {
    var (h5, r5) := CreateFileSpec(h, c, p, kp);
    if r5.Err? then (h5, r5)
    else
      var (h6, r6) := AddClientSpec(h5, c, p, kp);
      if r6.Err? then (h6, Err(r6.error))
      else
        var (h7, r7) := RestartSpec(h6, p);
        if r7.Err? then (h7, Err(r7.error)) else (h7, r5)
  }

  /** The steps after the keys: the interface key, delete and restart, the client-file keys, install. */
  function LegacyReplace(h: Host, c: Config, pairs: seq<(string, string)>, kp: KeyPair): (Host, Result<Config, Raised>)
  {
    var d := Displayed(c);
    var p := DictParams(pairs);
    if Lookup(pairs, "SERVER_WG_NIC").None? then (h, Err(KeyMissing("SERVER_WG_NIC")))
    else
      var (h4, r4) := DropSpec(h, d, p);
      if r4.Err? then (h4, Err(r4.error))
      else match FirstMissing(pairs, ClientTextKeys)
        case Some(k) => (h4, Err(KeyMissing(k)))
        case None => LegacyInstall(h4, d, p, kp)
  }

  /** The steps after the parameters are read: the endpoint keys, the keys, then the replacement. */
  function LegacyRotate(h: Host, c: Config, pairs: seq<(string, string)>): (Host, Result<Config, Raised>)
  {
    match FirstMissing(pairs, EndpointKeys)
    case Some(k) => (h, Err(KeyMissing(k)))
    case None =>
      var (h2, r2) := KeyPairSpec(h);
      if r2.Err? then (h2, Err(r2.error)) else LegacyReplace(h2, c, pairs, r2.value)
  }

  /** The older `regenerate_config`. */
  function LegacyRegenerateSpec(h: Host, c: Config): (Host, Result<Config, Raised>)
  {
    var (h1, out) := Run(h, CatParams, true);
    if out.Err? then (h1, Err(Raise(out.error))) else LegacyRotate(h1, c, FindPairs(out.value))
  }

  /** With a complete dictionary, the dictionary answers what the newer constructor builds. */
  lemma DictAgrees(pairs: seq<(string, string)>)
    requires BuildParams(pairs).Some?
    ensures DictParams(pairs) == BuildParams(pairs).value
    ensures FirstMissing(pairs, EndpointKeys).None? && FirstMissing(pairs, ClientTextKeys).None?
    ensures Lookup(pairs, "SERVER_WG_NIC").Some?
  {
    var names := FieldNames;
    assert names[0] in FieldNames && names[2] in FieldNames && names[5] in FieldNames;
    assert names[7] in FieldNames && names[8] in FieldNames && names[9] in FieldNames;
    assert EndpointKeys == [names[0], names[5]];
    assert ClientTextKeys == [names[8], names[9], names[7]];
  }

  /** Installing with the old block is installing with the re-parsed one when both blocks read the same. */
  lemma LegacyInstallAgrees(h: Host, c: Config, p: WgParams, kp: KeyPair)
    requires PeerBlockText(Parse(ClientText(c, p, kp), c.name), kp) == PeerBlockText(c, kp)
    ensures LegacyInstall(h, c, p, kp) == InstallSpec(h, c, p, kp)
  {
  }

  lemma LegacyReplaceAgrees(h: Host, c: Config, pairs: seq<(string, string)>, kp: KeyPair)
    requires BuildParams(pairs).Some? && Displayed(c) == c
    requires PeerBlockText(Parse(ClientText(c, BuildParams(pairs).value, kp), c.name), kp) == PeerBlockText(c, kp)
    ensures LegacyReplace(h, c, pairs, kp) == ReplaceSpec(h, c, BuildParams(pairs).value, kp)
  {
    DictAgrees(pairs);
    var p := BuildParams(pairs).value;
    var (h4, r4) := DropSpec(h, c, p);
    if r4.Ok? {
      LegacyInstallAgrees(h4, c, p, kp);
    }
  }

  /** On a ready host, the older rotation reaches the replacement with the parameters and keys the newer one reads. */
  lemma LegacyRegenerateSteps(h: Host, c: Config, p: WgParams)
    requires Ready(h, p)
    ensures LegacyRegenerateSpec(h, c) == LegacyReplace(KeysRead(h), c, FindPairs(ParamsText(p)), NextKeys(h))
    ensures BuildParams(FindPairs(ParamsText(p))) == Some(p)
  {
    PrepareClean(h, p);
    var h1 := h.(log := h.log + [CatParams]);
    assert |h.log| !in h.faults;
    RunCatParams(h);
    ReadThenRotate(h, c, h1, ParamsText(p));
    ParamsRoundTrip(p);
    DictAgrees(FindPairs(ParamsText(p)));
    RotateReaches(h1, c, FindPairs(ParamsText(p)), KeysRead(h), NextKeys(h));
  }

  /** Once the parameters file is read, the rotation goes on with its pairs. */
  lemma ReadThenRotate(h: Host, c: Config, h1: Host, text: string)
    requires Run(h, CatParams, true) == (h1, Ok(text))
    ensures LegacyRegenerateSpec(h, c) == LegacyRotate(h1, c, FindPairs(text))
  {
  }

  /** With the endpoint keys present and the keys drawn, the rotation goes on to the replacement. */
  lemma RotateReaches(h1: Host, c: Config, pairs: seq<(string, string)>, h2: Host, kp: KeyPair)
    requires FirstMissing(pairs, EndpointKeys).None? && KeyPairSpec(h1) == (h2, Ok(kp))
    ensures LegacyRotate(h1, c, pairs) == LegacyReplace(h2, c, pairs, kp)
  {
  }

  /**
   * On a ready host, and for a parsed file that supplies the addresses and
   * the client number, the older rotation does exactly what the newer one
   * does: same commands, same host, same result.
   */
  lemma LegacyRegenerateAgrees(h: Host, t: string, name: string, p: WgParams)
    requires Ready(h, p)
    requires LastHit(Parse(t, name).rows, MatchAddress).Some? && ClientNameMatch(name).Some?
    ensures LegacyRegenerateSpec(h, Parse(t, name)) == RegenerateSpec(h, Parse(t, name))
  {
    var c := Parse(t, name);
    var kp := NextKeys(h);
    LegacyRegenerateSteps(h, c, p);
    RegenerateReaches(h, c, p);
    ParsedUnset(t, name);
    StripKeyLine(kp.privateKey);
    StripKeyLine(kp.preSharedKey);
    RegenerateKeepsAddress(t, name, p, kp);
    RegenerateSameName(t, name, p, kp);
    LegacyReplaceAgrees(KeysRead(h), c, FindPairs(ParamsText(p)), kp);
  }

  /**
   * A parameters file without `CLIENT_DNS_1`: the rotation raises only
   * after the old block is deleted, the old client file removed and the
   * interface restarted, so the client is left without a peer and without
   * a file.
   */
  lemma LegacyMissingDnsHalfDone(h: Host, c: Config, text: string)
    requires Quiet(h, |h.log|, 7) && h.params == Some(text)
    requires var pairs := FindPairs(text);
      && Lookup(pairs, "SERVER_PUB_IP").Some? && Lookup(pairs, "SERVER_PORT").Some?
      && Lookup(pairs, "SERVER_WG_NIC").Some? && Lookup(pairs, "CLIENT_DNS_1").None?
      && Get(pairs, "SERVER_WG_NIC") in h.wgConf
    requires |h.keyOutput| >= 2 && KeyWord(h.keyOutput[0]) && KeyWord(h.keyOutput[1])
    requires h.keyOutput[0] in h.publicOf && KeyWord(h.publicOf[h.keyOutput[0]])
    ensures var pairs := FindPairs(text);
      var nic := Get(pairs, "SERVER_WG_NIC");
      var header := PeerHeader(Shown(c.clientName));
      var h', r := LegacyRegenerateSpec(h, c).0, LegacyRegenerateSpec(h, c).1;
      && r == Err(KeyMissing("CLIENT_DNS_1"))
      && h' == Connection.Dropped(KeysRead(h), Displayed(c), DictParams(pairs))
      && h'.wgConf[nic] == SedDelete(h.wgConf[nic], header) && h'.live[nic] == h'.wgConf[nic]
      && header !in h'.live[nic] && c.name !in h'.root
  {
    var pairs := FindPairs(text);
    var d := Displayed(c);
    assert |h.log| !in h.faults;
    RunQuiet(h, CatParams, true);
    var h1 := h.(log := h.log + [CatParams]);
    assert Quiet(h1, |h1.log|, 6) by {
      assert |h1.log| == |h.log| + 1;
    }
    assert Run(h, CatParams, true) == (h1, Ok(text));
    assert LegacyRegenerateSpec(h, c) == LegacyRotate(h1, c, pairs);
    HalfDoneRotate(h1, c, pairs);
    SedRemovesHeader(h.wgConf[Get(pairs, "SERVER_WG_NIC")], PeerHeader(d.clientName), false);
  }

  lemma HalfDoneRotate(h: Host, c: Config, pairs: seq<(string, string)>)
    requires Quiet(h, |h.log|, 6)
    requires && Lookup(pairs, "SERVER_PUB_IP").Some? && Lookup(pairs, "SERVER_PORT").Some?
      && Lookup(pairs, "SERVER_WG_NIC").Some? && Lookup(pairs, "CLIENT_DNS_1").None?
      && Get(pairs, "SERVER_WG_NIC") in h.wgConf
    requires |h.keyOutput| >= 2 && KeyWord(h.keyOutput[0]) && KeyWord(h.keyOutput[1])
    requires h.keyOutput[0] in h.publicOf && KeyWord(h.publicOf[h.keyOutput[0]])
    ensures LegacyRotate(h, c, pairs) ==
      (Connection.Dropped(KeysDrawn(h), Displayed(c), DictParams(pairs)), Err(KeyMissing("CLIENT_DNS_1")))
  {
    var p := DictParams(pairs);
    var d := Displayed(c);
    assert FirstMissing(pairs, EndpointKeys).None?;
    KeyPairOk(h);
    var h2 := KeysDrawn(h);
    assert Quiet(h2, |h2.log|, 3) by {
      assert |h2.log| == |h.log| + 3 && h2.faults == h.faults;
    }
    DropClean(h2, d, p);
    assert FirstMissing(pairs, ClientTextKeys) == Some("CLIENT_DNS_1");
  }

  // ------------------------------------------------------------- the session

  /** The older session object: every operation opens its own connection to the host. */
  class LegacyServerConnection {
    var host: Host
    var configs: seq<Config>

    constructor (h: Host)
      ensures host == h && configs == []
    {
      host := h;
      configs := [];
    }

    method Run(cmd: Command, check: bool) returns (r: Result<string, Failure>)
      modifies this`host
      ensures (host, r) == Remote.Run(old(host), cmd, check)
    {
      var (h1, out) := Remote.Run(host, cmd, check);
      host := h1;
      r := out;
    }

    /** `collect_configs`: one parsed configuration per client file found, appended in listing order. */
    method CollectConfigs() returns (err: Option<Raised>)
      modifies this`host, this`configs
      ensures var (h, found, e) := CollectSpec(old(host));
        host == h && configs == old(configs) + found && err == e
    {
      ghost var start := configs;
      var out := Run(ListClientFiles, false);
      if out.Err? {
        return Some(Raise(out.error));
      }
      var names := FindClientFiles(out.value);
      ghost var h1 := host;
      ghost var found: seq<Config> := [];
      err := None;
      for i := 0 to |names|
        invariant CatAll(h1, names[..i]) == (host, found, None)
        invariant configs == start + found && err == None
      {
        ghost var before := host;
        var file := Run(CatClientFile(names[i]), false);
        CatAllNext(h1, names, i, before, found, host, file);
        if file.Err? {
          return Some(Raise(file.error));
        }
        var parsed := Parse(file.value, names[i]);
        configs := configs + [parsed];
        found := found + [parsed];
      }
      assert names[..|names|] == names;
    }

    method FreezeConnection(ip: string) returns (r: Result<(), Raised>)
      modifies this`host
      ensures (host, r) == FreezeSpec(old(host), ip)
    {
      var out := Run(RouteAdd(ip), true);
      r := Swallow2(out);
    }

    method UnfreezeConnection(ip: string) returns (r: Result<(), Raised>)
      modifies this`host
      ensures (host, r) == UnfreezeSpec(old(host), ip)
    {
      var out := Run(RouteDel(ip), true);
      r := Swallow2(out);
    }

    /** The older `regenerate_config`, its steps written out in one body. */
    method RegenerateConfig(c: Config) returns (r: Result<Config, Raised>)
      modifies this`host
      ensures (host, r) == LegacyRegenerateSpec(old(host), c)
    {
      ghost var h0 := host;
      var out := Run(CatParams, true);
      if out.Err? {
        return Err(Raise(out.error));
      }
      var pairs := FindPairs(out.value);
      ghost var h1 := host;
      var missing := FirstMissing(pairs, EndpointKeys);
      if missing.Some? {
        return Err(KeyMissing(missing.value));
      }
      var o1 := Run(GenKey, true);
      if o1.Err? {
        return Err(Raise(o1.error));
      }
      var priv := Strip(o1.value);
      var o2 := Run(PubKey(priv), true);
      if o2.Err? {
        return Err(Raise(o2.error));
      }
      var o3 := Run(GenPsk, true);
      if o3.Err? {
        return Err(Raise(o3.error));
      }
      var kp := KeyPair(priv, Strip(o2.value), Strip(o3.value));
      assert KeyPairSpec(h1) == (host, Ok(kp));
      r := ReplaceFrom(c, pairs, kp);
    }

    /** The part of the rotation after the keys, as `LegacyReplace` states it. */
    method ReplaceFrom(c: Config, pairs: seq<(string, string)>, kp: KeyPair) returns (r: Result<Config, Raised>)
      modifies this`host
      ensures (host, r) == LegacyReplace(old(host), c, pairs, kp)
    {
      var d := Displayed(c);
      var p := DictParams(pairs);
      if Lookup(pairs, "SERVER_WG_NIC").None? {
        return Err(KeyMissing("SERVER_WG_NIC"));
      }
      ghost var h0 := host;
      var o1 := Run(SedDeletePeer(p.serverWgNic, PeerHeader(d.clientName)), true);
      if o1.Err? {
        return Err(Raise(o1.error));
      }
      var o2 := Run(RemoveClientFile(d.name), false);
      if o2.Err? {
        return Err(Raise(o2.error));
      }
      var o3 := Run(SyncConf(p.serverWgNic), true);
      if o3.Err? {
        return Err(Raise(o3.error));
      }
      assert DropSpec(h0, d, p) == (host, Ok(()));
      var missing := FirstMissing(pairs, ClientTextKeys);
      if missing.Some? {
        return Err(KeyMissing(missing.value));
      }
      ghost var h4 := host;
      var text := ClientText(d, p, kp);
      var o5 := Run(AppendClientFile(d.name, text), true);
      if o5.Err? {
        return Err(Raise(o5.error));
      }
      var o6 := Run(AppendPeer(p.serverWgNic, PeerBlockText(d, kp)), true);
      if o6.Err? {
        return Err(Raise(o6.error));
      }
      var o7 := Run(SyncConf(p.serverWgNic), true);
      if o7.Err? {
        return Err(Raise(o7.error));
      }
      r := Ok(Parse(text, d.name));
      assert LegacyInstall(h4, d, p, kp) == (host, r);
    }
  }
}
