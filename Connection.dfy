/**
 * The session with one VPN server: collecting the client files, freezing
 * and unfreezing a peer by routing its address to the loopback, and
 * regenerating a peer with fresh keys. Each operation is specified by a
 * function of the host it runs on; the class runs the commands one by one.
 */
module Connection {
  import opened Wrappers
  import opened Text
  import opened WgConfig
  import opened WgTypes
  import opened Remote
  import Builder

  /**
   * What an operation raises: a checked command's exit status, a dropped
   * session, a parameters file the constructor rejects, or (in the older
   * connection, which reads the parameters as a dictionary) a missing key.
   */
  datatype Raised = ProcessError(exitStatus: int) | ConnectionLost | ParamsMismatch | KeyMissing(key: string)

  function Raise(f: Failure): (e: Raised)
    ensures f.Lost? <==> e == ConnectionLost
    ensures f.Exit? ==> e == ProcessError(f.status)
  {
    match f
    case Exit(s) => ProcessError(s)
    case Lost => ConnectionLost
  }

  // ------------------------------------------------------------------- texts

  /** The comment line that opens a client's block in the server file. */
  function PeerHeader(clientName: string): string
  {
    "### Client " + clientName
  }

  /** The lines appended to the server file for a client: an empty line, then its block. */
  function PeerBlock(c: Config, kp: KeyPair): seq<string>
  {
    ["", PeerHeader(c.clientName), "[Peer]", "PublicKey = " + kp.publicKey,
     "PresharedKey = " + kp.preSharedKey, "AllowedIPs = " + c.clientIpV4 + "/32," + c.clientIpV6 + "/128"]
  }

  /** The text given to `echo -e`, its escaped newlines already turned into newlines. */
  function PeerBlockText(c: Config, kp: KeyPair): string
  {
    Join(PeerBlock(c, kp), "\n")
  }

  /** The lines of a regenerated client file. */
  function ClientLines(c: Config, p: WgParams, kp: KeyPair): seq<string>
  {
    ["[Interface]", "PrivateKey = " + kp.privateKey, AddressRow(c.clientIpV4, c.clientIpV6),
     "DNS = " + p.clientDns1 + "," + p.clientDns2, "", "[Peer]", "PublicKey = " + p.serverPubKey,
     "PresharedKey = " + kp.preSharedKey, "Endpoint = " + Endpoint(p), "AllowedIPs = 0.0.0.0/0,::/0"]
  }

  function ClientText(c: Config, p: WgParams, kp: KeyPair): string
  {
    Join(ClientLines(c, p, kp), "\n")
  }

  /** No piece of the block holds a newline. */
  predicate OneLine(s: string)
  {
    '\n' !in s
  }

  /** The block the server file receives is exactly the lines of the text echoed. */
  lemma PeerBlockLines(c: Config, kp: KeyPair)
    requires OneLine(c.clientName) && OneLine(c.clientIpV4) && OneLine(c.clientIpV6)
    requires OneLine(kp.publicKey) && OneLine(kp.preSharedKey)
    ensures Split(PeerBlockText(c, kp), '\n') == PeerBlock(c, kp)
  {
    var b := PeerBlock(c, kp);
    forall i | 0 <= i < |b|
      ensures '\n' !in b[i]
    {
      if i == 1 {
        assert b[i] == "### Client " + c.clientName;
        assert forall x :: x in b[i] ==> x in "### Client " || x in c.clientName;
      } else if i == 3 {
        assert forall x :: x in b[i] ==> x in "PublicKey = " || x in kp.publicKey;
      } else if i == 4 {
        assert forall x :: x in b[i] ==> x in "PresharedKey = " || x in kp.preSharedKey;
      } else if i == 5 {
        assert b[i] == "AllowedIPs = " + c.clientIpV4 + "/32," + c.clientIpV6 + "/128";
        assert forall x :: x in b[i] ==> x in "AllowedIPs = " || x in c.clientIpV4 || x in "/32," || x in c.clientIpV6 || x in "/128";
      }
    }
    SplitJoin(b, '\n');
  }

  /** The header opens the block once, and no other line of the block equals it or is empty. */
  lemma PeerBlockShape(c: Config, kp: KeyPair)
    ensures PeerBlock(c, kp)[0] == "" && PeerBlock(c, kp)[1] == PeerHeader(c.clientName)
    ensures "" !in PeerBlock(c, kp)[2..]
    ensures PeerHeader(c.clientName) !in PeerBlock(c, kp)[2..] && PeerHeader(c.clientName) != ""
  {
    var b := PeerBlock(c, kp);
    assert b[2..] == [b[2], b[3], b[4], b[5]];
    assert b[2][0] == '[' && b[3][0] == 'P' && b[4][0] == 'P' && b[5][0] == 'A';
    assert PeerHeader(c.clientName)[0] == '#';
  }

  /**
   * Deleting a client's block after that block was appended leaves the file
   * as one deletion left it, plus the empty line that opened the block: the
   * range runs from the header to the end of the file.
   */
  lemma RemoveAppendedPeer(lines: seq<string>, c: Config, kp: KeyPair)
    requires !SedEnd(lines, PeerHeader(c.clientName), false)
    ensures SedDelete(lines + PeerBlock(c, kp), PeerHeader(c.clientName)) == SedDelete(lines, PeerHeader(c.clientName)) + [""]
  {
    var h := PeerHeader(c.clientName);
    var b := PeerBlock(c, kp);
    PeerBlockShape(c, kp);
    SedAppend(lines, b, h, false);
    assert b == [""] + ([h] + b[2..]);
    SedOpenToEnd(b[2..], h);
  }

  /** After a deletion and an append, the server file holds the client's header exactly once. */
  lemma ReplacedPeerOnce(lines: seq<string>, c: Config, kp: KeyPair)
    ensures Count(SedDelete(lines, PeerHeader(c.clientName)) + PeerBlock(c, kp), PeerHeader(c.clientName)) == 1
  {
    var h := PeerHeader(c.clientName);
    var b := PeerBlock(c, kp);
    PeerBlockShape(c, kp);
    SedRemovesHeader(lines, h, false);
    CountAbsent(SedDelete(lines, h), h);
    CountAppend(SedDelete(lines, h), b, h);
    assert b == [""] + [h] + b[2..];
    CountAppend([""] + [h], b[2..], h);
    CountAbsent(b[2..], h);
  }

  // ------------------------------------------------------ operations on a host

  /** A route command's outcome: exit status 2 (already in the wanted state) is swallowed. */
  function Swallow2(r: Result<string, Failure>): (o: Result<(), Raised>)
    ensures o.Ok? <==> r.Ok? || r.error == Exit(2)
  {
    if r.Ok? || r.error == Exit(2) then Ok(()) else Err(Raise(r.error))
  }

  function FreezeSpec(h: Host, ip: string): (Host, Result<(), Raised>)
  {
    var (h1, r) := Run(h, RouteAdd(ip), true);
    (h1, Swallow2(r))
  }

  function UnfreezeSpec(h: Host, ip: string): (Host, Result<(), Raised>)
  {
    var (h1, r) := Run(h, RouteDel(ip), true);
    (h1, Swallow2(r))
  }

  /** Reading every listed client file in turn; the first dropped session ends the loop. */
  function CatAll(h: Host, names: seq<string>): (r: (Host, seq<Config>, Option<Raised>))
  {
    if |names| == 0 then (h, [], None)
    else
      var (h1, cs, err) := CatAll(h, names[..|names| - 1]);
      if err.Some? then (h1, cs, err)
      else
        var name := names[|names| - 1];
        var (h2, out) := Run(h1, CatClientFile(name), false);
        if out.Err? then (h2, cs, Some(Raise(out.error)))
        else (h2, cs + [Parse(out.value, name)], None)
  }

  /**
   * One more file read: a success extends the parsed list by that file, a
   * failure ends the whole pass with the error.
   */
  lemma CatAllNext(h: Host, names: seq<string>, i: int, h1: Host, found: seq<Config>, h2: Host, out: Result<string, Failure>)
    requires 0 <= i < |names| && CatAll(h, names[..i]) == (h1, found, None)
    requires Run(h1, CatClientFile(names[i]), false) == (h2, out)
    ensures out.Ok? ==> CatAll(h, names[..i + 1]) == (h2, found + [Parse(out.value, names[i])], None)
    ensures out.Err? ==> CatAll(h, names) == (h2, found, Some(Raise(out.error)))
  {
    assert names[..i + 1][..i] == names[..i];
    if out.Err? {
      CatAllStops(h, names, i + 1);
    }
  }

  /** Once a read fails, the later names are never read. */
  lemma {:induction false} CatAllStops(h: Host, names: seq<string>, j: int)
    requires 0 <= j <= |names| && CatAll(h, names[..j]).2.Some?
    ensures CatAll(h, names) == CatAll(h, names[..j])
    decreases |names| - j
  {
    if j < |names| {
      assert names[..j + 1][..j] == names[..j];
      CatAllStops(h, names, j + 1);
    } else {
      assert names[..j] == names;
    }
  }

  /** `collect_configs`: the listing, the names found in it, and one parse per file read. */
  function CollectSpec(h: Host): (Host, seq<Config>, Option<Raised>)
  {
    var (h1, out) := Run(h, ListClientFiles, false);
    if out.Err? then (h1, [], Some(Raise(out.error)))
    else CatAll(h1, FindClientFiles(out.value))
  }

  function ParamsSpec(h: Host): (Host, Result<WgParams, Raised>)
  {
    var (h1, out) := Run(h, CatParams, true);
    if out.Err? then (h1, Err(Raise(out.error)))
    else match ParseParams(out.value)
      case None => (h1, Err(ParamsMismatch))
      case Some(p) => (h1, Ok(p))
  }

  function KeyPairSpec(h: Host): (Host, Result<KeyPair, Raised>)
  {
    var (h1, o1) := Run(h, GenKey, true);
    if o1.Err? then (h1, Err(Raise(o1.error)))
    else
      var priv := Strip(o1.value);
      var (h2, o2) := Run(h1, PubKey(priv), true);
      if o2.Err? then (h2, Err(Raise(o2.error)))
      else
        var (h3, o3) := Run(h2, GenPsk, true);
        if o3.Err? then (h3, Err(Raise(o3.error)))
        else (h3, Ok(KeyPair(priv, Strip(o2.value), Strip(o3.value))))
  }

  /** Deleting the client's block (checked), then its client file (unchecked). */
  function RemoveClientSpec(h: Host, c: Config, p: WgParams): (Host, Result<(), Raised>)
  {
    var (h1, o1) := Run(h, SedDeletePeer(p.serverWgNic, PeerHeader(c.clientName)), true);
    if o1.Err? then (h1, Err(Raise(o1.error)))
    else
      var (h2, o2) := Run(h1, RemoveClientFile(c.name), false);
      if o2.Err? then (h2, Err(Raise(o2.error))) else (h2, Ok(()))
  }

  function RestartSpec(h: Host, p: WgParams): (Host, Result<(), Raised>)
  {
    var (h1, o) := Run(h, SyncConf(p.serverWgNic), true);
    (h1, if o.Err? then Err(Raise(o.error)) else Ok(()))
  }

  /** Writing the new client file; its parse is what the new builder holds. */
  function CreateFileSpec(h: Host, c: Config, p: WgParams, kp: KeyPair): (Host, Result<Config, Raised>)
  {
    var text := ClientText(c, p, kp);
    var (h1, o) := Run(h, AppendClientFile(c.name, text), true);
    (h1, if o.Err? then Err(Raise(o.error)) else Ok(Parse(text, c.name)))
  }

  function AddClientSpec(h: Host, c: Config, p: WgParams, kp: KeyPair): (Host, Result<(), Raised>)
  {
    var (h1, o) := Run(h, AppendPeer(p.serverWgNic, PeerBlockText(c, kp)), true);
    (h1, if o.Err? then Err(Raise(o.error)) else Ok(()))
  }

  /** Deleting the old client, then restarting the interface. */
  function DropSpec(h: Host, c: Config, p: WgParams): (Host, Result<(), Raised>)
  {
    var (h3, r3) := RemoveClientSpec(h, c, p);
    if r3.Err? then (h3, r3) else RestartSpec(h3, p)
  }

  /** Writing the new client file and the new block, then restarting the interface. */
  function InstallSpec(h: Host, c: Config, p: WgParams, kp: KeyPair): (Host, Result<Config, Raised>)
  {
    var (h5, r5) := CreateFileSpec(h, c, p, kp);
    if r5.Err? then (h5, r5)
    else
      var (h6, r6) := AddClientSpec(h5, r5.value, p, kp);
      if r6.Err? then (h6, Err(r6.error))
      else
        var (h7, r7) := RestartSpec(h6, p);
        if r7.Err? then (h7, Err(r7.error)) else (h7, r5)
  }

  /** The steps of `regenerate_config` after the parameters and keys are known. */
  function ReplaceSpec(h: Host, c: Config, p: WgParams, kp: KeyPair): (Host, Result<Config, Raised>)
  {
    var (h4, r4) := DropSpec(h, c, p);
    if r4.Err? then (h4, Err(r4.error)) else InstallSpec(h4, c, p, kp)
  }

  /** `regenerate_config`: parameters, keys, then delete the old peer, restart, write the new peer, restart. */
  function RegenerateSpec(h: Host, c: Config): (Host, Result<Config, Raised>)
  {
    var (h1, r1) := ParamsSpec(h);
    if r1.Err? then (h1, Err(r1.error))
    else
      var (h2, r2) := KeyPairSpec(h1);
      if r2.Err? then (h2, Err(r2.error))
      else ReplaceSpec(h2, c, r1.value, r2.value)
  }

  /** The commands that replace the client once the keys are known, in the order they are issued. */
  function ReplaceCommands(c: Config, p: WgParams, kp: KeyPair): seq<Command>
  {
    var text := ClientText(c, p, kp);
    [SedDeletePeer(p.serverWgNic, PeerHeader(c.clientName)), RemoveClientFile(c.name), SyncConf(p.serverWgNic),
     AppendClientFile(c.name, text), AppendPeer(p.serverWgNic, PeerBlockText(Parse(text, c.name), kp)),
     SyncConf(p.serverWgNic)]
  }

  /** The commands of a full regeneration. */
  function RegenerateCommands(c: Config, p: WgParams, kp: KeyPair): seq<Command>
  {
    [CatParams, GenKey, PubKey(kp.privateKey), GenPsk] + ReplaceCommands(c, p, kp)
  }

  // ---------------------------------------------------- a clean regeneration

  /** A key as `wg` prints it: one non-empty word. */
  predicate KeyWord(k: string)
  {
    |k| >= 1 && NoSpace(k)
  }

  /** Stripping what `wg` prints gives back the key. */
  lemma StripKeyLine(k: string)
    requires KeyWord(k)
    ensures Strip(k + "\n") == k && OneLine(k)
  {
    assert AllSpace("\n");
    RStripAppendSpace(k, "\n");
    RStripNoTrail(k);
    LStripNoLead(k);
    Builder.NoSpaceNoNewline(k);
  }

  /** The keys a host hands out next: a private key, its public key, then a preshared key. */
  function NextKeys(h: Host): KeyPair
    requires |h.keyOutput| >= 2 && h.keyOutput[0] in h.publicOf
  {
    KeyPair(h.keyOutput[0], h.publicOf[h.keyOutput[0]], h.keyOutput[1])
  }

  /** A host on which a regeneration meets no failure for its ten commands. */
  predicate Ready(h: Host, p: WgParams)
  {
    Quiet(h, |h.log|, 10) && h.params == Some(ParamsText(p)) && WellFormed(p)
    && p.serverWgNic in h.wgConf
    && |h.keyOutput| >= 2 && KeyWord(h.keyOutput[0]) && KeyWord(h.keyOutput[1])
    && h.keyOutput[0] in h.publicOf && KeyWord(h.publicOf[h.keyOutput[0]])
  }

  lemma ParamsOk(h: Host, p: WgParams)
    requires Quiet(h, |h.log|, 1) && h.params == Some(ParamsText(p)) && WellFormed(p)
    ensures ParamsSpec(h) == (h.(log := h.log + [CatParams]), Ok(p))
  {
    ParamsRoundTrip(p);
    ParamsRead(h, ParamsText(p), p);
  }

  /** Reading a parameters file that parses to `p`. */
  lemma ParamsRead(h: Host, text: string, p: WgParams)
    requires Quiet(h, |h.log|, 1) && h.params == Some(text) && ParseParams(text) == Some(p)
    ensures ParamsSpec(h) == (h.(log := h.log + [CatParams]), Ok(p))
  {
    ParamsSpecRun(h, text);
  }

  /** With the file present and no failure injected, reading it gives its parse. */
  lemma ParamsSpecRun(h: Host, text: string)
    requires Quiet(h, |h.log|, 1) && h.params == Some(text)
    ensures ParamsSpec(h).0 == h.(log := h.log + [CatParams])
    ensures ParamsSpec(h).1 == match ParseParams(text) case None => Err(ParamsMismatch) case Some(q) => Ok(q)
  {
    assert |h.log| !in h.faults;
    RunQuiet(h, CatParams, true);
    assert Run(h, CatParams, true) == (h.(log := h.log + [CatParams]), Ok(text));
  }

  lemma KeyPairOk(h: Host)
    requires Quiet(h, |h.log|, 3) && |h.keyOutput| >= 2
    requires KeyWord(h.keyOutput[0]) && KeyWord(h.keyOutput[1])
    requires h.keyOutput[0] in h.publicOf && KeyWord(h.publicOf[h.keyOutput[0]])
    ensures KeyPairSpec(h) == (KeysDrawn(h), Ok(NextKeys(h)))
  {
    var k0, k1 := h.keyOutput[0], h.keyOutput[1];
    var pub := h.publicOf[k0];
    StripKeyLine(k0);
    StripKeyLine(k1);
    StripKeyLine(pub);
    KeyPairRun(h, k0, pub, k1);
  }

  /** The three key commands on a quiet host, for a private key that strips to itself. */
  lemma KeyPairRun(h: Host, k0: string, pub: string, k1: string)
    requires Quiet(h, |h.log|, 3) && |h.keyOutput| >= 2 && h.keyOutput[0] == k0 && h.keyOutput[1] == k1
    requires k0 in h.publicOf && h.publicOf[k0] == pub && Strip(k0 + "\n") == k0
    ensures KeyPairSpec(h).0 == KeysDrawn(h)
    ensures KeyPairSpec(h).1 == Ok(KeyPair(k0, Strip(pub + "\n"), Strip(k1 + "\n")))
  {
    assert |h.log| !in h.faults;
    RunPopKey(h, GenKey);
    var h1 := h.(keyOutput := h.keyOutput[1..], log := h.log + [GenKey]);
    assert |h1.log| !in h1.faults by {
      assert |h1.log| == |h.log| + 1;
    }
    RunPubKey(h1, k0);
    var h2 := h1.(log := h1.log + [PubKey(k0)]);
    assert |h2.log| !in h2.faults by {
      assert |h2.log| == |h.log| + 2;
    }
    RunPopKey(h2, GenPsk);
    var h3 := h2.(keyOutput := h2.keyOutput[1..], log := h2.log + [GenPsk]);
    KeyPairCompose(h, h1, h2, h3, k0 + "\n", pub + "\n", k1 + "\n");
    assert h3 == KeysDrawn(h) by {
      assert h2.keyOutput[1..] == h.keyOutput[2..];
      LogThree(h.log, GenKey, PubKey(k0), GenPsk);
    }
  }

  /** Three successful key commands make the key pair of their stripped outputs. */
  lemma KeyPairCompose(h: Host, h1: Host, h2: Host, h3: Host, o1: string, o2: string, o3: string)
    requires Run(h, GenKey, true) == (h1, Ok(o1))
    requires Run(h1, PubKey(Strip(o1)), true) == (h2, Ok(o2))
    requires Run(h2, GenPsk, true) == (h3, Ok(o3))
    ensures KeyPairSpec(h) == (h3, Ok(KeyPair(Strip(o1), Strip(o2), Strip(o3))))
  {
  }

  lemma RemoveOk(h: Host, c: Config, p: WgParams)
    requires Quiet(h, |h.log|, 2) && p.serverWgNic in h.wgConf
    ensures var nic := p.serverWgNic;
      RemoveClientSpec(h, c, p) ==
        (h.(wgConf := h.wgConf[nic := SedDelete(h.wgConf[nic], PeerHeader(c.clientName))], root := h.root - {c.name},
            log := h.log + [SedDeletePeer(nic, PeerHeader(c.clientName)), RemoveClientFile(c.name)]), Ok(()))
  {
    var nic := p.serverWgNic;
    var sed := SedDeletePeer(nic, PeerHeader(c.clientName));
    assert |h.log| !in h.faults;
    RunQuiet(h, sed, true);
    var h1 := h.(wgConf := h.wgConf[nic := SedDelete(h.wgConf[nic], PeerHeader(c.clientName))], log := h.log + [sed]);
    assert Run(h, sed, true) == (h1, Ok(""));
    assert |h1.log| !in h1.faults by {
      assert |h1.log| == |h.log| + 1;
    }
    RunQuiet(h1, RemoveClientFile(c.name), false);
    var h2 := h1.(root := h.root - {c.name}, log := h1.log + [RemoveClientFile(c.name)]);
    assert Run(h1, RemoveClientFile(c.name), false) == (h2, Ok(""));
    assert h2.log == h.log + [sed, RemoveClientFile(c.name)];
  }

  lemma RestartOk(h: Host, p: WgParams)
    requires Quiet(h, |h.log|, 1) && p.serverWgNic in h.wgConf
    ensures RestartSpec(h, p) ==
      (h.(live := h.live[p.serverWgNic := h.wgConf[p.serverWgNic]], log := h.log + [SyncConf(p.serverWgNic)]), Ok(()))
  {
    assert |h.log| !in h.faults;
  }

  lemma CreateOk(h: Host, c: Config, p: WgParams, kp: KeyPair)
    requires Quiet(h, |h.log|, 1) && c.name !in h.root
    ensures var text := ClientText(c, p, kp);
      CreateFileSpec(h, c, p, kp) ==
        (h.(root := h.root[c.name := text + "\n"], order := if c.name in h.order then h.order else h.order + [c.name],
            log := h.log + [AppendClientFile(c.name, text)]), Ok(Parse(text, c.name)))
  {
    assert |h.log| !in h.faults;
    assert [] + ClientText(c, p, kp) + "\n" == ClientText(c, p, kp) + "\n";
  }

  lemma AddOk(h: Host, c: Config, p: WgParams, kp: KeyPair)
    requires Quiet(h, |h.log|, 1) && p.serverWgNic in h.wgConf
    requires OneLine(c.clientName) && OneLine(c.clientIpV4) && OneLine(c.clientIpV6)
    requires OneLine(kp.publicKey) && OneLine(kp.preSharedKey)
    ensures var nic := p.serverWgNic;
      AddClientSpec(h, c, p, kp) ==
        (h.(wgConf := h.wgConf[nic := h.wgConf[nic] + PeerBlock(c, kp)], log := h.log + [AppendPeer(nic, PeerBlockText(c, kp))]), Ok(()))
  {
    assert |h.log| !in h.faults;
    PeerBlockLines(c, kp);
  }

  /** The client name and the addresses of a parsed file are single words, without newlines. */
  lemma ParsedOneLine(text: string, name: string)
    ensures var c := Parse(text, name);
      OneLine(c.clientName) && OneLine(c.clientIpV4) && OneLine(c.clientIpV6)
  {
    var init := InitialConfig(text, name);
    var c := Parse(text, name);
    LastMatchWins(init, init.rows);
    ParseClientName(text, name);
    if c.clientName != "" {
      var d :| IsClientFileName(name, d);
      forall i | 0 <= i < |c.clientName|
        ensures c.clientName[i] != '\n'
      {
        assert IsDigit(d[i]);
      }
    }
    var hit := LastHit(init.rows, MatchAddress);
    if hit.Some? {
      var k :| 0 <= k < |init.rows| && MatchAddress(init.rows[k]) == hit;
      MatchAddressSound(init.rows[k]);
      Builder.NoSpaceNoNewline(c.clientIpV4);
      Builder.NoSpaceNoNewline(c.clientIpV6);
    }
  }

  lemma LogAppend(log: seq<Command>, a: seq<Command>, b: seq<Command>)
    ensures log + a + b == log + (a + b)
  {
  }

  lemma LogThree(log: seq<Command>, a: Command, b: Command, c: Command)
    ensures log + [a] + [b] + [c] == log + [a, b, c]
  {
    assert [a] + [b] + [c] == [a, b, c];
    LogAppend(log, [a], [b]);
    LogAppend(log, [a] + [b], [c]);
  }

  /** The lines of the server file of interface `nic`, none when it is missing. */
  function ServerFile(h: Host, nic: string): seq<string>
  {
    if nic in h.wgConf then h.wgConf[nic] else []
  }

  /** The host once two keys are drawn. */
  function KeysDrawn(h: Host): Host
    requires |h.keyOutput| >= 2
  {
    h.(keyOutput := h.keyOutput[2..], log := h.log + [GenKey, PubKey(h.keyOutput[0]), GenPsk])
  }

  /** The host once the parameters are read and two keys drawn. */
  function KeysRead(h: Host): Host
    requires |h.keyOutput| >= 2
  {
    KeysDrawn(h.(log := h.log + [CatParams]))
  }

  /** The host once the old client is deleted and the interface restarted. */
  function Dropped(h: Host, c: Config, p: WgParams): Host
  {
    var nic := p.serverWgNic;
    var conf := SedDelete(ServerFile(h, nic), PeerHeader(c.clientName));
    h.(wgConf := h.wgConf[nic := conf], live := h.live[nic := conf], root := h.root - {c.name},
       log := h.log + [SedDeletePeer(nic, PeerHeader(c.clientName)), RemoveClientFile(c.name), SyncConf(nic)])
  }

  /** The host once the new client file and block are written and the interface restarted. */
  function Installed(h: Host, c: Config, p: WgParams, kp: KeyPair): Host
  {
    var text := ClientText(c, p, kp);
    var n := Parse(text, c.name);
    var nic := p.serverWgNic;
    var conf := ServerFile(h, nic) + PeerBlock(n, kp);
    h.(wgConf := h.wgConf[nic := conf], live := h.live[nic := conf], root := h.root[c.name := text + "\n"],
       order := if c.name in h.order then h.order else h.order + [c.name],
       log := h.log + [AppendClientFile(c.name, text), AppendPeer(nic, PeerBlockText(n, kp)), SyncConf(nic)])
  }

  lemma DropClean(h: Host, c: Config, p: WgParams)
    requires Quiet(h, |h.log|, 3) && p.serverWgNic in h.wgConf
    ensures DropSpec(h, c, p) == (Dropped(h, c, p), Ok(()))
  {
    RemoveOk(h, c, p);
    var h3 := RemoveClientSpec(h, c, p).0;
    assert |h3.log| == |h.log| + 2 && h3.faults == h.faults;
    RestartOk(h3, p);
    assert Dropped(h, c, p).log == h3.log + [SyncConf(p.serverWgNic)];
  }

  lemma InstallClean(h: Host, c: Config, p: WgParams, kp: KeyPair)
    requires Quiet(h, |h.log|, 3) && p.serverWgNic in h.wgConf && c.name !in h.root
    requires OneLine(kp.publicKey) && OneLine(kp.preSharedKey)
    ensures InstallSpec(h, c, p, kp) == (Installed(h, c, p, kp), Ok(Parse(ClientText(c, p, kp), c.name)))
  {
    var text := ClientText(c, p, kp);
    var n := Parse(text, c.name);
    CreateOk(h, c, p, kp);
    var h5 := CreateFileSpec(h, c, p, kp).0;
    assert |h5.log| == |h.log| + 1 && h5.faults == h.faults;
    ParsedOneLine(text, c.name);
    AddOk(h5, n, p, kp);
    var h6 := AddClientSpec(h5, n, p, kp).0;
    assert |h6.log| == |h.log| + 2 && h6.faults == h.faults;
    RestartOk(h6, p);
    assert Installed(h, c, p, kp).log == h6.log + [SyncConf(p.serverWgNic)];
  }

  lemma ReplaceClean(h: Host, c: Config, p: WgParams, kp: KeyPair)
    requires Quiet(h, |h.log|, 6) && p.serverWgNic in h.wgConf
    requires OneLine(kp.publicKey) && OneLine(kp.preSharedKey)
    ensures ReplaceSpec(h, c, p, kp) == (Installed(Dropped(h, c, p), c, p, kp), Ok(Parse(ClientText(c, p, kp), c.name)))
  {
    DropClean(h, c, p);
    var h4 := Dropped(h, c, p);
    assert |h4.log| == |h.log| + 3 && h4.faults == h.faults;
    InstallClean(h4, c, p, kp);
  }

  /** On a ready host, the parameters and the keys are read without failure, and the rest can follow. */
  lemma PrepareClean(h: Host, p: WgParams)
    requires Ready(h, p)
    ensures ParamsSpec(h) == (h.(log := h.log + [CatParams]), Ok(p))
    ensures KeyPairSpec(h.(log := h.log + [CatParams])) == (KeysRead(h), Ok(NextKeys(h)))
    ensures Quiet(KeysRead(h), |KeysRead(h).log|, 6) && p.serverWgNic in KeysRead(h).wgConf
    ensures OneLine(NextKeys(h).publicKey) && OneLine(NextKeys(h).preSharedKey)
  {
    ParamsOk(h, p);
    var h1 := h.(log := h.log + [CatParams]);
    QuietShift(h, h1, 10, 1);
    KeyPairOk(h1);
    var h2 := KeysRead(h);
    assert |h2.log| == |h.log| + 4;
    QuietShift(h, h2, 10, 4);
    StripKeyLine(NextKeys(h).publicKey);
    StripKeyLine(NextKeys(h).preSharedKey);
  }

  /** The positions still free of failures after `m` more commands. */
  lemma QuietShift(h: Host, h': Host, n: nat, m: nat)
    requires Quiet(h, |h.log|, n) && h'.faults == h.faults && |h'.log| == |h.log| + m && m <= n
    ensures Quiet(h', |h'.log|, n - m)
  {
  }

  /** On a ready host, the rotation reaches the replacement with the parameters of the file and the next keys. */
  lemma RegenerateReaches(h: Host, c: Config, p: WgParams)
    requires Ready(h, p)
    ensures RegenerateSpec(h, c) == ReplaceSpec(KeysRead(h), c, p, NextKeys(h))
  {
    PrepareClean(h, p);
  }

  lemma RegenerateSteps(h: Host, c: Config, p: WgParams)
    requires Ready(h, p)
    ensures RegenerateSpec(h, c) ==
      (Installed(Dropped(KeysRead(h), c, p), c, p, NextKeys(h)), Ok(Parse(ClientText(c, p, NextKeys(h)), c.name)))
  {
    PrepareClean(h, p);
    ReplaceClean(KeysRead(h), c, p, NextKeys(h));
  }

  lemma RegeneratedHost(h: Host, c: Config, p: WgParams)
    requires |h.keyOutput| >= 2 && h.keyOutput[0] in h.publicOf && p.serverWgNic in h.wgConf
    ensures var kp := NextKeys(h);
      var text := ClientText(c, p, kp);
      var n := Parse(text, c.name);
      var nic := p.serverWgNic;
      var h' := Installed(Dropped(KeysRead(h), c, p), c, p, kp);
      && h'.log == h.log + RegenerateCommands(c, p, kp)
      && h'.wgConf == h.wgConf[nic := SedDelete(h.wgConf[nic], PeerHeader(c.clientName)) + PeerBlock(n, kp)]
      && h'.live == h.live[nic := h'.wgConf[nic]]
      && h'.root == h.root[c.name := text + "\n"]
      && h'.frozen == h.frozen && h'.params == h.params && h'.keyOutput == h.keyOutput[2..]
  {
    var kp := NextKeys(h);
    var text := ClientText(c, p, kp);
    var h2 := KeysRead(h);
    var h4 := Dropped(h2, c, p);
    var h7 := Installed(h4, c, p, kp);
    assert h2.log == h.log + [CatParams, GenKey, PubKey(kp.privateKey), GenPsk] by {
      LogAppend(h.log, [CatParams], [GenKey, PubKey(kp.privateKey), GenPsk]);
    }
    assert h7.log == h.log + RegenerateCommands(c, p, kp) by {
      assert h4.log == h.log + RegenerateCommands(c, p, kp)[..7];
    }
    assert h7.root == h.root[c.name := text + "\n"];
  }

  /**
   * A regeneration that meets no failure: it issues its ten commands in
   * order, replaces the client's block in the server file by a block with
   * the new keys, brings the interface in line with the file, rewrites the
   * client file, and returns the parse of the new client file. Routes and
   * parameters are left alone.
   */
  lemma RegenerateClean(h: Host, c: Config, p: WgParams)
    requires Ready(h, p)
    ensures var kp := NextKeys(h);
      var text := ClientText(c, p, kp);
      var n := Parse(text, c.name);
      var nic := p.serverWgNic;
      var h', r := RegenerateSpec(h, c).0, RegenerateSpec(h, c).1;
      && r == Ok(n)
      && h'.log == h.log + RegenerateCommands(c, p, kp)
      && h'.wgConf == h.wgConf[nic := SedDelete(h.wgConf[nic], PeerHeader(c.clientName)) + PeerBlock(n, kp)]
      && h'.live == h.live[nic := h'.wgConf[nic]]
      && h'.root == h.root[c.name := text + "\n"]
      && h'.frozen == h.frozen && h'.params == h.params && h'.keyOutput == h.keyOutput[2..]
  {
    RegenerateSteps(h, c, p);
    RegeneratedHost(h, c, p);
  }

  // ------------------------------------------------ what a regeneration keeps

  /** No line of a regenerated client file holds a newline, so the file splits back into them. */
  lemma ClientLinesSplit(c: Config, p: WgParams, kp: KeyPair)
    requires WellFormed(p) && OneLine(kp.privateKey) && OneLine(kp.preSharedKey)
    requires OneLine(c.clientIpV4) && OneLine(c.clientIpV6)
    ensures Split(ClientText(c, p, kp), '\n') == ClientLines(c, p, kp)
  {
    var f := Fields(p);
    assert ValidValue(f[0].1) && ValidValue(f[5].1) && ValidValue(f[7].1) && ValidValue(f[8].1) && ValidValue(f[9].1);
    OneLineJoin("PrivateKey = ", kp.privateKey);
    OneLineJoin(c.clientIpV4, "/32,");
    OneLineJoin(c.clientIpV4 + "/32,", c.clientIpV6);
    OneLineJoin(c.clientIpV4 + "/32," + c.clientIpV6, "/128");
    OneLineJoin(AddressPrefix, AddressBody(c.clientIpV4, c.clientIpV6));
    OneLineJoin("DNS = ", p.clientDns1);
    OneLineJoin("DNS = " + p.clientDns1, ",");
    OneLineJoin("DNS = " + p.clientDns1 + ",", p.clientDns2);
    OneLineJoin("PublicKey = ", p.serverPubKey);
    OneLineJoin("PresharedKey = ", kp.preSharedKey);
    OneLineJoin(p.serverPubIp, ":");
    OneLineJoin(p.serverPubIp + ":", p.serverPort);
    OneLineJoin("Endpoint = ", Endpoint(p));
    var ls := ClientLines(c, p, kp);
    assert forall i :: 0 <= i < |ls| ==> '\n' !in ls[i];
    SplitJoin(ls, '\n');
  }

  /** Two pieces without a newline make a line without one. */
  lemma OneLineJoin(a: string, b: string)
    requires OneLine(a) && OneLine(b)
    ensures OneLine(a + b)
  {
    assert forall x :: x in a + b ==> x in a || x in b;
  }

  /** Only the third line of a regenerated client file can be an address row. */
  lemma ClientLinesAddress(c: Config, p: WgParams, kp: KeyPair, k: int)
    requires 0 <= k < 10 && k != 2
    ensures MatchAddress(ClientLines(c, p, kp)[k]).None?
  {
    var line := ClientLines(c, p, kp)[k];
    if k == 9 {
      assert line[1] == 'l' && AddressPrefix[1] == 'd';
    } else if k != 4 && k != 5 {
      assert line[0] != 'A' && AddressPrefix[0] == 'A';
    }
  }

  /** The last address row of a regenerated client file is the one written from the old addresses. */
  lemma ClientLinesLastHit(c: Config, p: WgParams, kp: KeyPair)
    ensures LastHit(ClientLines(c, p, kp), MatchAddress) == MatchAddress(ClientLines(c, p, kp)[2])
  {
    ClientLinesOneAddress(c, p, kp);
    LastAddressOnly(ClientLines(c, p, kp), 2);
  }

  /** The third line of a regenerated client file is the address row of the old addresses. */
  lemma ClientLinesRow(c: Config, p: WgParams, kp: KeyPair)
    ensures ClientLines(c, p, kp)[2] == AddressRow(c.clientIpV4, c.clientIpV6)
  {
  }

  /** When only row `k` can be an address row, the last address row is row `k`'s. */
  lemma LastAddressOnly(rows: seq<string>, k: int)
    requires 0 <= k < |rows|
    requires forall k' :: 0 <= k' < |rows| && k' != k ==> MatchAddress(rows[k']).None?
    ensures LastHit(rows, MatchAddress) == MatchAddress(rows[k])
  {
    LastHitOnly(rows, MatchAddress, k);
  }

  lemma ClientLinesOneAddress(c: Config, p: WgParams, kp: KeyPair)
    ensures forall k :: 0 <= k < |ClientLines(c, p, kp)| && k != 2 ==> MatchAddress(ClientLines(c, p, kp)[k]).None?
  {
    forall k | 0 <= k < |ClientLines(c, p, kp)| && k != 2
      ensures MatchAddress(ClientLines(c, p, kp)[k]).None?
    {
      ClientLinesAddress(c, p, kp, k);
    }
  }

  /** When only row `k` can match, the last hit is whatever row `k` gives. */
  lemma LastHitOnly<T>(rows: seq<string>, m: string -> Option<T>, k: int)
    requires 0 <= k < |rows|
    requires forall k' :: 0 <= k' < |rows| && k' != k ==> m(rows[k']).None?
    ensures LastHit(rows, m) == m(rows[k])
  {
    if m(rows[k]).Some? {
      LastHitIsLast(rows, m, k);
    } else {
      LastHitNone(rows, m);
    }
  }

  lemma LastHitNone<T>(rows: seq<string>, m: string -> Option<T>)
    requires forall k :: 0 <= k < |rows| ==> m(rows[k]).None?
    ensures LastHit(rows, m).None?
  {
  }

  /**
   * A regenerated client file carries the tunnel addresses of the file it
   * replaces, and its client name: the record keyed by the address still
   * finds the peer.
   */
  lemma RegenerateKeepsAddress(t: string, name: string, p: WgParams, kp: KeyPair)
    requires WellFormed(p) && OneLine(kp.privateKey) && OneLine(kp.preSharedKey)
    ensures var c := Parse(t, name);
      var n := Parse(ClientText(c, p, kp), name);
      n.clientIpV4 == c.clientIpV4 && n.clientIpV6 == c.clientIpV6 && n.clientName == c.clientName
  {
    var c := Parse(t, name);
    var text := ClientText(c, p, kp);
    ParsedOneLine(t, name);
    ClientLinesSplit(c, p, kp);
    var init := InitialConfig(text, name);
    LastMatchWins(init, init.rows);
    ClientLinesLastHit(c, p, kp);
    ClientLinesRow(c, p, kp);
    Builder.ParseFieldsFromRows(t, name);
    Builder.ParsedAddressRow(c);
    RegenerateSameName(t, name, p, kp);
  }

  lemma RegenerateSameName(t: string, name: string, p: WgParams, kp: KeyPair)
    ensures Parse(t, name).name == name
    ensures Parse(ClientText(Parse(t, name), p, kp), name).clientName == Parse(t, name).clientName
  {
    var init := InitialConfig(t, name);
    LastMatchWins(init, init.rows);
    ParseClientName(t, name);
    ParseClientName(ClientText(Parse(t, name), p, kp), name);
  }

  /** The server file after a clean regeneration holds the client's header once, and the interface runs it. */
  lemma RegeneratedFile(h: Host, c: Config, p: WgParams)
    requires |h.keyOutput| >= 2 && h.keyOutput[0] in h.publicOf && p.serverWgNic in h.wgConf
    requires Parse(ClientText(c, p, NextKeys(h)), c.name).clientName == c.clientName
    ensures var h' := Installed(Dropped(KeysRead(h), c, p), c, p, NextKeys(h));
      && p.serverWgNic in h'.wgConf && p.serverWgNic in h'.live
      && Count(h'.wgConf[p.serverWgNic], PeerHeader(c.clientName)) == 1
      && h'.live[p.serverWgNic] == h'.wgConf[p.serverWgNic]
  {
    var kp := NextKeys(h);
    var n := Parse(ClientText(c, p, kp), c.name);
    RegeneratedHost(h, c, p);
    ReplacedPeerOnce(h.wgConf[p.serverWgNic], n, kp);
  }

  /**
   * After a clean regeneration of a parsed client, the server file holds
   * that client's header exactly once, the interface runs what the file
   * says, and the new configuration keeps the client's addresses.
   */
  lemma RegenerateOnePeer(h: Host, t: string, name: string, p: WgParams)
    requires Ready(h, p)
    ensures var c := Parse(t, name);
      var h', r := RegenerateSpec(h, c).0, RegenerateSpec(h, c).1;
      && r.Ok?
      && p.serverWgNic in h'.wgConf && p.serverWgNic in h'.live
      && Count(h'.wgConf[p.serverWgNic], PeerHeader(c.clientName)) == 1
      && h'.live[p.serverWgNic] == h'.wgConf[p.serverWgNic]
      && r.value.clientIpV4 == c.clientIpV4 && r.value.clientIpV6 == c.clientIpV6
  {
    var c := Parse(t, name);
    var kp := NextKeys(h);
    RegenerateSteps(h, c, p);
    RegenerateSameName(t, name, p, kp);
    RegeneratedFile(h, c, p);
    StripKeyLine(kp.privateKey);
    StripKeyLine(kp.preSharedKey);
    RegenerateKeepsAddress(t, name, p, kp);
  }

  /**
   * A parameters file that lacks one of the ten keys stops a regeneration
   * at its first command, before anything on the host changes: the
   * constructor's error is raised and only the read is logged.
   */
  lemma MissingKeyChangesNothing(h: Host, c: Config, text: string, k: string)
    requires Quiet(h, |h.log|, 1) && h.params == Some(text)
    requires k in FieldNames && k !in KeysOf(FindPairs(text))
    ensures RegenerateSpec(h, c) == (h.(log := h.log + [CatParams]), Err(ParamsMismatch))
  {
    assert |h.log| !in h.faults;
    RunQuiet(h, CatParams, true);
    ParamsMissingKey(text, k);
  }

  // ------------------------------------------------------------------ routes

  /** Without failure, freezing always succeeds and leaves the address routed to the loopback. */
  lemma FreezeClean(h: Host, ip: string)
    requires Quiet(h, |h.log|, 1)
    ensures FreezeSpec(h, ip) == (h.(frozen := h.frozen + {ip}, log := h.log + [RouteAdd(ip)]), Ok(()))
  {
    assert |h.log| !in h.faults;
    RunQuiet(h, RouteAdd(ip), true);
    if ip in h.frozen {
      assert h.frozen + {ip} == h.frozen;
    }
  }

  /** Without failure, unfreezing always succeeds and leaves the address routed normally. */
  lemma UnfreezeClean(h: Host, ip: string)
    requires Quiet(h, |h.log|, 1)
    ensures UnfreezeSpec(h, ip) == (h.(frozen := h.frozen - {ip}, log := h.log + [RouteDel(ip)]), Ok(()))
  {
    assert |h.log| !in h.faults;
    RunQuiet(h, RouteDel(ip), true);
    if ip !in h.frozen {
      assert h.frozen - {ip} == h.frozen;
    }
  }

  /** Freezing twice is freezing once; unfreezing a frozen address restores the routes it had. */
  lemma FreezeIdempotent(h: Host, ip: string)
    requires Quiet(h, |h.log|, 2)
    ensures var (h1, r1) := FreezeSpec(h, ip);
      var (h2, r2) := FreezeSpec(h1, ip);
      r1.Ok? && r2.Ok? && h2.frozen == h1.frozen == h.frozen + {ip}
    ensures var (h1, _) := FreezeSpec(h, ip);
      ip !in h.frozen ==> UnfreezeSpec(h1, ip).0.frozen == h.frozen && UnfreezeSpec(h1, ip).1.Ok?
  {
    FreezeClean(h, ip);
    var h1 := FreezeSpec(h, ip).0;
    assert Quiet(h1, |h1.log|, 1) by {
      assert |h1.log| == |h.log| + 1 && h1.faults == h.faults;
    }
    FreezeClean(h1, ip);
    UnfreezeClean(h1, ip);
  }

  /** The session object: the host it talks to and the configurations collected so far. */
  class ServerConnection {
    var host: Host
    var configs: seq<Config>

    constructor (h: Host)
      ensures host == h && configs == []
    {
      host := h;
      configs := [];
    }

    method Run(cmd: Command, check: bool) returns (r: Result<string, Failure>)
      modifies this`host
      ensures (host, r) == Remote.Run(old(host), cmd, check)
    {
      var (h1, out) := Remote.Run(host, cmd, check);
      host := h1;
      r := out;
    }

    /** `collect_configs`: appends one parsed configuration per client file found. */
    method CollectConfigs() returns (err: Option<Raised>)
      modifies this`host, this`configs
      ensures var (h, found, e) := CollectSpec(old(host));
        host == h && configs == old(configs) + found && err == e
    {
      ghost var start := configs;
      var out := Run(ListClientFiles, false);
      if out.Err? {
        return Some(Raise(out.error));
      }
      var names := FindClientFiles(out.value);
      ghost var h1 := host;
      var i := 0;
      err := None;
      ghost var found: seq<Config> := [];
      while i < |names|
        invariant 0 <= i <= |names|
        invariant CatAll(h1, names[..i]) == (host, found, None)
        invariant configs == start + found && err == None
      {
        var name := names[i];
        ghost var before := host;
        var file := Run(CatClientFile(name), false);
        CatAllNext(h1, names, i, before, found, host, file);
        if file.Err? {
          return Some(Raise(file.error));
        }
        var parsed := Parse(file.value, name);
        configs := configs + [parsed];
        found := found + [parsed];
        i := i + 1;
      }
      assert names[..i] == names;
    }

    /** `freeze_connection`: add the black-hole route; "already there" (exit 2) is not an error. */
    method FreezeConnection(ip: string) returns (r: Result<(), Raised>)
      modifies this`host
      ensures (host, r) == FreezeSpec(old(host), ip)
    {
      var out := Run(RouteAdd(ip), true);
      r := Swallow2(out);
    }

    /** `unfreeze_connection`: delete the black-hole route; "not there" (exit 2) is not an error. */
    method UnfreezeConnection(ip: string) returns (r: Result<(), Raised>)
      modifies this`host
      ensures (host, r) == UnfreezeSpec(old(host), ip)
    {
      var out := Run(RouteDel(ip), true);
      r := Swallow2(out);
    }

    method GetWgParams() returns (r: Result<WgParams, Raised>)
      modifies this`host
      ensures (host, r) == ParamsSpec(old(host))
    {
      var out := Run(CatParams, true);
      if out.Err? {
        return Err(Raise(out.error));
      }
      var p := ParseParams(out.value);
      r := if p.None? then Err(ParamsMismatch) else Ok(p.value);
    }

    method GetKeyPair() returns (r: Result<KeyPair, Raised>)
      modifies this`host
      ensures (host, r) == KeyPairSpec(old(host))
    {
      var o1 := Run(GenKey, true);
      if o1.Err? {
        return Err(Raise(o1.error));
      }
      var priv := Strip(o1.value);
      var o2 := Run(PubKey(priv), true);
      if o2.Err? {
        return Err(Raise(o2.error));
      }
      var o3 := Run(GenPsk, true);
      if o3.Err? {
        return Err(Raise(o3.error));
      }
      r := Ok(KeyPair(priv, Strip(o2.value), Strip(o3.value)));
    }

    method RemoveClient(c: Config, p: WgParams) returns (r: Result<(), Raised>)
      modifies this`host
      ensures (host, r) == RemoveClientSpec(old(host), c, p)
    {
      var o1 := Run(SedDeletePeer(p.serverWgNic, PeerHeader(c.clientName)), true);
      if o1.Err? {
        return Err(Raise(o1.error));
      }
      var o2 := Run(RemoveClientFile(c.name), false);
      r := if o2.Err? then Err(Raise(o2.error)) else Ok(());
    }

    method RestartWireguard(p: WgParams) returns (r: Result<(), Raised>)
      modifies this`host
      ensures (host, r) == RestartSpec(old(host), p)
    {
      var o := Run(SyncConf(p.serverWgNic), true);
      r := if o.Err? then Err(Raise(o.error)) else Ok(());
    }

    method CreateClientFile(c: Config, p: WgParams, kp: KeyPair) returns (r: Result<Config, Raised>)
      modifies this`host
      ensures (host, r) == CreateFileSpec(old(host), c, p, kp)
    {
      var text := ClientText(c, p, kp);
      var o := Run(AppendClientFile(c.name, text), true);
      if o.Err? {
        return Err(Raise(o.error));
      }
      r := Ok(Parse(text, c.name));
    }

    method AddClient(c: Config, p: WgParams, kp: KeyPair) returns (r: Result<(), Raised>)
      modifies this`host
      ensures (host, r) == AddClientSpec(old(host), c, p, kp)
    {
      var o := Run(AppendPeer(p.serverWgNic, PeerBlockText(c, kp)), true);
      r := if o.Err? then Err(Raise(o.error)) else Ok(());
    }

    /** `regenerate_config`: the configuration the new builder holds, or what was raised. */
    method RegenerateConfig(c: Config) returns (r: Result<Config, Raised>)
      modifies this`host
      ensures (host, r) == RegenerateSpec(old(host), c)
    {
      var rp := GetWgParams();
      if rp.Err? {
        return Err(rp.error);
      }
      var p := rp.value;
      var rk := GetKeyPair();
      if rk.Err? {
        return Err(rk.error);
      }
      var kp := rk.value;
      var r3 := RemoveClient(c, p);
      if r3.Err? {
        return Err(r3.error);
      }
      var r4 := RestartWireguard(p);
      if r4.Err? {
        return Err(r4.error);
      }
      var r5 := CreateClientFile(c, p, kp);
      if r5.Err? {
        return Err(r5.error);
      }
      var r6 := AddClient(r5.value, p, kp);
      if r6.Err? {
        return Err(r6.error);
      }
      var r7 := RestartWireguard(p);
      if r7.Err? {
        return Err(r7.error);
      }
      r := r5;
    }
  }
}
