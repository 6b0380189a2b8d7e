/**
 * A VPN server as the shell commands of the server connection see it: the
 * routes that black-hole frozen peers, the WireGuard configuration file of
 * each interface and what the running interface was last synced from, the
 * client files under /root, the installer's parameters file, what the key
 * tool prints, and the failures the environment injects.
 *
 * Every command is appended to the host's log; a fault registered for the
 * command's position in the log replaces its effect (a non-zero exit or a
 * dropped session), so a run is a deterministic function of the host.
 */
module Remote {
  import opened Wrappers
  import opened Text
  import WgConfig

  /** How a command can fail: a non-zero exit status, or the session dropping. */
  datatype Failure = Exit(status: int) | Lost

  /** The shell commands the server connection issues. */
  datatype Command =
    | ListClientFiles                        // ls -l /root | grep wg0-client
    | CatClientFile(name: string)            // cat /root/<name>
    | RouteAdd(ip: string)                   // ip route add <ip> via 127.0.0.1
    | RouteDel(ip: string)                   // ip route del <ip> via 127.0.0.1
    | CatParams                              // cat /etc/wireguard/params
    | GenKey                                 // wg genkey
    | PubKey(privateKey: string)             // echo <key> | wg pubkey
    | GenPsk                                 // wg genpsk
    | SedDeletePeer(nic: string, header: string)   // sed -i "/^<header>$/,/^$/d" /etc/wireguard/<nic>.conf
    | RemoveClientFile(name: string)         // rm -f /root/<name>
    | AppendClientFile(name: string, text: string) // echo "<text>" >> /root/<name>
    | AppendPeer(nic: string, text: string)  // echo -e "<text>" >> /etc/wireguard/<nic>.conf
    | SyncConf(nic: string)                  // wg syncconf <nic> <(wg-quick strip <nic>)

  /** What a command gives back: its exit status and output, or nothing when the session dropped. */
  datatype Reply = Reply(status: int, stdout: string) | Dropped

  datatype Host = Host(
    frozen: set<string>,                  // addresses routed to the loopback
    wgConf: map<string, seq<string>>,     // /etc/wireguard/<nic>.conf, line by line
    live: map<string, seq<string>>,       // the lines each interface was last synced from
    root: map<string, string>,            // files under /root
    order: seq<string>,                   // the listing order of names under /root
    params: Option<string>,               // /etc/wireguard/params
    keyOutput: seq<string>,               // what `wg genkey` and `wg genpsk` print next, in turn
    publicOf: map<string, string>,        // what `wg pubkey` prints for a private key
    faults: map<nat, Failure>,            // failure injected at a position of the log
    log: seq<Command>)

  // -------------------------------------------------------------- listing

  /** `t` occurs in `s` starting at `i`. */
  predicate OccursAt(s: string, t: string, i: int)
  {
    0 <= i <= |s| - |t| && s[i..i + |t|] == t
  }

  /** `t` is a substring of `s`, the test `grep` applies to each line. */
  predicate Contains(s: string, t: string)
  {
    exists i | 0 <= i <= |s| - |t| :: OccursAt(s, t, i)
  }

  /** The names the listing shows through `grep wg0-client`, in listing order. */
  function Listed(order: seq<string>, root: map<string, string>): (names: seq<string>)
    ensures forall n :: n in names ==> n in order && n in root && Contains(n, "wg0-client")
  {
    if |order| == 0 then []
    else
      var last := order[|order| - 1];
      var prev := Listed(order[..|order| - 1], root);
      if last in root && Contains(last, "wg0-client") then prev + [last] else prev
  }

  /** The listing text: one line per name. */
  function ListingText(names: seq<string>): string
  {
    if |names| == 0 then "" else names[0] + "\n" + ListingText(names[1..])
  }

  /** A client file name: `wg0-client-<digits>.conf`. */
  function ClientFile(d: string): string
  {
    WgConfig.ClientFilePrefix + d + WgConfig.ClientFileSuffix
  }

  /** `re.findall(r"(wg0-client-\d+?\.conf)", s)`: the lazy digit run must reach `.conf`, so it is the whole run. */
  function FindClientFiles(s: string): (found: seq<string>)
    decreases |s|
  {
    if |s| == 0 then []
    else match WgConfig.ClientNameMatch(s)
      case Some(d) =>
        var f := ClientFile(d);
        [f] + FindClientFiles(s[|f|..])
      case None => FindClientFiles(s[1..])
  }

  /** Every name found is a client file name with a non-empty digit run. */
  lemma {:induction false} FindClientFilesSound(s: string, f: string)
    requires f in FindClientFiles(s)
    ensures exists d :: |d| >= 1 && (forall i :: 0 <= i < |d| ==> IsDigit(d[i])) && f == ClientFile(d)
    decreases |s|
  {
    if |s| > 0 {
      match WgConfig.ClientNameMatch(s)
      case Some(d) =>
        if f != ClientFile(d) {
          FindClientFilesSound(s[|ClientFile(d)|..], f);
        }
      case None =>
        FindClientFilesSound(s[1..], f);
    }
  }

  /** The client file names of the digit runs `ds`, in order. */
  function ClientFiles(ds: seq<string>): (names: seq<string>)
    ensures |names| == |ds| && forall k :: 0 <= k < |ds| ==> names[k] == ClientFile(ds[k])
  {
    if |ds| == 0 then [] else [ClientFile(ds[0])] + ClientFiles(ds[1..])
  }

  /** A listing made of client file names is found back name by name, in order. */
  lemma {:induction false} FindClientFilesListing(ds: seq<string>)
    requires forall k :: 0 <= k < |ds| ==> |ds[k]| >= 1 && forall i :: 0 <= i < |ds[k]| ==> IsDigit(ds[k][i])
    ensures FindClientFiles(ListingText(ClientFiles(ds))) == ClientFiles(ds)
  {
    if |ds| > 0 {
      var rest := ListingText(ClientFiles(ds[1..]));
      assert ListingText(ClientFiles(ds)) == ClientFile(ds[0]) + "\n" + rest;
      FindClientFilesHead(ds[0], rest);
      FindClientFilesListing(ds[1..]);
    }
  }

  /** A listing line holding a client file name yields that name, and the search goes on after the line. */
  lemma FindClientFilesHead(d: string, rest: string)
    requires |d| >= 1 && forall i :: 0 <= i < |d| ==> IsDigit(d[i])
    ensures FindClientFiles(ClientFile(d) + "\n" + rest) == [ClientFile(d)] + FindClientFiles(rest)
  {
    var f := ClientFile(d);
    var s := f + "\n" + rest;
    assert s[..|f|] == f;
    WgConfig.ClientNameMatchComplete(s, d);
    var t := "\n" + rest;
    assert s[|f|..] == t;
    assert t[1..] == rest;
    assert !StartsWith(t, WgConfig.ClientFilePrefix) by {
      assert t[0] != WgConfig.ClientFilePrefix[0];
    }
  }

  // -------------------------------------------------------- sed range delete

  /**
   * `sed "/^<header>$/,/^$/d"`: from a line equal to the header through the
   * next empty line (or the end of the file) nothing is printed; the end of a
   * range is looked for from the line after its start, and a new range may
   * start right after one ends. `inRange` is the state carried into `lines`.
   */
  function SedFrom(lines: seq<string>, header: string, inRange: bool): seq<string>
  {
    if |lines| == 0 then []
    else if inRange then SedFrom(lines[1..], header, lines[0] != "")
    else if lines[0] == header then SedFrom(lines[1..], header, true)
    else [lines[0]] + SedFrom(lines[1..], header, false)
  }

  /** Whether a range is still open after `lines`. */
  function SedEnd(lines: seq<string>, header: string, inRange: bool): bool
  {
    if |lines| == 0 then inRange
    else if inRange then SedEnd(lines[1..], header, lines[0] != "")
    else SedEnd(lines[1..], header, lines[0] == header)
  }

  function SedDelete(lines: seq<string>, header: string): seq<string>
  {
    SedFrom(lines, header, false)
  }

  /** No header line survives the deletion. */
  lemma {:induction false} SedRemovesHeader(lines: seq<string>, header: string, inRange: bool)
    ensures header !in SedFrom(lines, header, inRange)
  {
    if |lines| > 0 {
      SedRemovesHeader(lines[1..], header, lines[0] != "");
      SedRemovesHeader(lines[1..], header, true);
      SedRemovesHeader(lines[1..], header, false);
    }
  }

  /** A file without the header is left as it is, and no range is left open. */
  lemma {:induction false} SedKeepsOthers(lines: seq<string>, header: string)
    requires header !in lines
    ensures SedFrom(lines, header, false) == lines
    ensures !SedEnd(lines, header, false)
  {
    if |lines| > 0 {
      assert lines[0] != header;
      assert header !in lines[1..] by {
        assert forall x :: x in lines[1..] ==> x in lines;
      }
      SedKeepsOthers(lines[1..], header);
      assert lines == [lines[0]] + lines[1..];
    }
  }

  /** The deletion runs over a concatenation piece by piece, the open range carried across. */
  lemma {:induction false} SedAppend(a: seq<string>, b: seq<string>, header: string, inRange: bool)
    ensures SedFrom(a + b, header, inRange) == SedFrom(a, header, inRange) + SedFrom(b, header, SedEnd(a, header, inRange))
  {
    if |a| == 0 {
      assert a + b == b;
    } else {
      assert (a + b)[1..] == a[1..] + b;
      assert (a + b)[0] == a[0];
      var next := if inRange then a[0] != "" else a[0] == header;
      SedAppend(a[1..], b, header, next);
    }
  }

  /** Lines without an empty one keep an open range open to the end: all of them go. */
  lemma {:induction false} SedOpenToEnd(lines: seq<string>, header: string)
    requires "" !in lines
    ensures SedFrom(lines, header, true) == []
  {
    if |lines| > 0 {
      assert lines[0] in lines;
      assert "" !in lines[1..] by {
        assert forall x :: x in lines[1..] ==> x in lines;
      }
      SedOpenToEnd(lines[1..], header);
    }
  }

  /** Occurrences of `x` in `lines`. */
  function Count(lines: seq<string>, x: string): nat
  {
    if |lines| == 0 then 0 else (if lines[0] == x then 1 else 0) + Count(lines[1..], x)
  }

  lemma {:induction false} CountAppend(a: seq<string>, b: seq<string>, x: string)
    ensures Count(a + b, x) == Count(a, x) + Count(b, x)
  {
    if |a| > 0 {
      assert (a + b)[1..] == a[1..] + b;
      CountAppend(a[1..], b, x);
    } else {
      assert a + b == b;
    }
  }

  lemma {:induction false} CountAbsent(a: seq<string>, x: string)
    requires x !in a
    ensures Count(a, x) == 0
  {
    if |a| > 0 {
      assert a[0] in a;
      assert x !in a[1..] by {
        assert forall y :: y in a[1..] ==> y in a;
      }
      CountAbsent(a[1..], x);
    }
  }

  // ------------------------------------------------------------- execution

  /** What a command does and replies when nothing is injected. */
  function Natural(h: Host, cmd: Command): (Host, Reply)
  {
    match cmd
    case ListClientFiles =>
      (h, Reply(0, ListingText(Listed(h.order, h.root))))
    case CatClientFile(name) =>
      if name in h.root then (h, Reply(0, h.root[name])) else (h, Reply(1, ""))
    case RouteAdd(ip) =>
      if ip in h.frozen then (h, Reply(2, "")) else (h.(frozen := h.frozen + {ip}), Reply(0, ""))
    case RouteDel(ip) =>
      if ip !in h.frozen then (h, Reply(2, "")) else (h.(frozen := h.frozen - {ip}), Reply(0, ""))
    case CatParams =>
      if h.params.Some? then (h, Reply(0, h.params.value)) else (h, Reply(1, ""))
    case GenKey =>
      if |h.keyOutput| > 0 then (h.(keyOutput := h.keyOutput[1..]), Reply(0, h.keyOutput[0] + "\n")) else (h, Reply(1, ""))
    case PubKey(k) =>
      if k in h.publicOf then (h, Reply(0, h.publicOf[k] + "\n")) else (h, Reply(1, ""))
    case GenPsk =>
      if |h.keyOutput| > 0 then (h.(keyOutput := h.keyOutput[1..]), Reply(0, h.keyOutput[0] + "\n")) else (h, Reply(1, ""))
    case SedDeletePeer(nic, header) =>
      if nic in h.wgConf then (h.(wgConf := h.wgConf[nic := SedDelete(h.wgConf[nic], header)]), Reply(0, ""))
      else (h, Reply(2, ""))
    case RemoveClientFile(name) =>
      (h.(root := h.root - {name}), Reply(0, ""))
    case AppendClientFile(name, text) =>
      var before := if name in h.root then h.root[name] else "";
      var order := if name in h.order then h.order else h.order + [name];
      (h.(root := h.root[name := before + text + "\n"], order := order), Reply(0, ""))
    case AppendPeer(nic, text) =>
      var before := if nic in h.wgConf then h.wgConf[nic] else [];
      (h.(wgConf := h.wgConf[nic := before + Split(text, '\n')]), Reply(0, ""))
    case SyncConf(nic) =>
      if nic in h.wgConf then (h.(live := h.live[nic := h.wgConf[nic]]), Reply(0, "")) else (h, Reply(1, ""))
  }

  /** A command run on the host: logged, and either injected a failure or done as it naturally is. */
  function Exec(h: Host, cmd: Command): (r: (Host, Reply))
    ensures r.0.log == h.log + [cmd] && r.0.faults == h.faults
  {
    var k := |h.log|;
    if k in h.faults then
      var h1 := h.(log := h.log + [cmd]);
      match h.faults[k]
      case Lost => (h1, Dropped)
      case Exit(s) => (h1, Reply(s, ""))
    else
      var (h2, reply) := Natural(h, cmd);
      (h2.(log := h.log + [cmd], faults := h.faults), reply)
  }

  /**
   * `conn.run(cmd, check=...)`: the output on success; a dropped session
   * always raises; a non-zero exit raises only when checked, otherwise the
   * (empty) output is returned.
   */
  function Run(h: Host, cmd: Command, check: bool): (r: (Host, Result<string, Failure>))
    ensures r.0.log == h.log + [cmd] && r.0.faults == h.faults
    ensures Exec(h, cmd).1 == Dropped ==> r.1 == Err(Lost)
    ensures Exec(h, cmd).1.Reply? && Exec(h, cmd).1.status != 0 ==> (r.1.Err? <==> check)
  {
    var (h1, reply) := Exec(h, cmd);
    match reply
    case Dropped => (h1, Err(Lost))
    case Reply(s, out) =>
      if s == 0 || !check then (h1, Ok(out)) else (h1, Err(Exit(s)))
  }

  /** With nothing injected at its position, a command runs as it naturally does. */
  lemma RunQuiet(h: Host, cmd: Command, check: bool)
    requires |h.log| !in h.faults
    ensures var (h2, reply) := Natural(h, cmd);
      && reply.Reply?
      && Run(h, cmd, check).0 == h2.(log := h.log + [cmd], faults := h.faults)
      && Run(h, cmd, check).1 == if reply.status == 0 || !check then Ok(reply.stdout) else Err(Exit(reply.status))
  {
  }

  /** `wg genkey` and `wg genpsk` print the next key of the host's supply. */
  lemma RunPopKey(h: Host, cmd: Command)
    requires |h.log| !in h.faults && (cmd == GenKey || cmd == GenPsk) && |h.keyOutput| >= 1
    ensures Run(h, cmd, true) == (h.(keyOutput := h.keyOutput[1..], log := h.log + [cmd]), Ok(h.keyOutput[0] + "\n"))
  {
    RunQuiet(h, cmd, true);
  }

  /** `wg pubkey` prints the public key of a known private key and changes nothing. */
  lemma RunPubKey(h: Host, k: string)
    requires |h.log| !in h.faults && k in h.publicOf
    ensures Run(h, PubKey(k), true) == (h.(log := h.log + [PubKey(k)]), Ok(h.publicOf[k] + "\n"))
  {
    RunQuiet(h, PubKey(k), true);
  }

  /** `cat /etc/wireguard/params` prints the parameters file and changes nothing. */
  lemma RunCatParams(h: Host)
    requires |h.log| !in h.faults && h.params.Some?
    ensures Run(h, CatParams, true) == (h.(log := h.log + [CatParams]), Ok(h.params.value))
  {
    RunQuiet(h, CatParams, true);
  }

  /** No failure is injected at positions `from` .. `from + n - 1` of the log. */
  predicate Quiet(h: Host, from: nat, n: nat)
  {
    forall k :: from <= k < from + n ==> k !in h.faults
  }
}
