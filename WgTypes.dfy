/**
 * The server-side WireGuard parameters read from `/etc/wireguard/params`
 * (ten `KEY=value` lines written by the installer), the client key triple,
 * and the endpoint a client dials.
 */
module WgTypes {
  import opened Wrappers
  import opened Text
  import WgConfig

  /** The ten installer parameters, each kept as text. */
  datatype WgParams = WgParams(
    serverPubIp: string,
    serverPubNic: string,
    serverWgNic: string,
    serverWgIpv4: string,
    serverWgIpv6: string,
    serverPort: string,
    serverPrivKey: string,
    serverPubKey: string,
    clientDns1: string,
    clientDns2: string)

  /** A client's private key, public key and pre-shared key. */
  datatype KeyPair = KeyPair(privateKey: string, publicKey: string, preSharedKey: string)

  /** `host:port` the client dials. */
  function Endpoint(p: WgParams): (e: string)
    ensures |e| == |p.serverPubIp| + 1 + |p.serverPort| && e[|p.serverPubIp|] == ':'
    ensures e[..|p.serverPubIp|] == p.serverPubIp && e[|p.serverPubIp| + 1..] == p.serverPort
  {
    p.serverPubIp + ":" + p.serverPort
  }

  // ------------------------------------------------------ KEY=value scanning

  /** `[A-Z\d_]`, with `\d` restricted to ASCII digits. */
  predicate IsKeyChar(c: char)
  {
    ('A' <= c <= 'Z') || IsDigit(c) || c == '_'
  }

  /** Length of the run of key characters at the start of `s`. */
  function KeyRun(s: string): (n: nat)
    ensures n <= |s|
    ensures forall i :: 0 <= i < n ==> IsKeyChar(s[i])
    ensures n == |s| || !IsKeyChar(s[n])
  {
    if |s| == 0 || !IsKeyChar(s[0]) then 0 else 1 + KeyRun(s[1..])
  }

  /** Length of the run of characters other than a newline at the start of `s` (what `.+` can span). */
  function LineRun(s: string): (n: nat)
    ensures n <= |s|
    ensures forall i :: 0 <= i < n ==> s[i] != '\n'
    ensures n == |s| || s[n] == '\n'
  {
    if |s| == 0 || s[0] == '\n' then 0 else 1 + LineRun(s[1..])
  }

  /**
   * `([A-Z\d_]+)=(.+)\n?` at the start of `s`: the key, the value and the
   * length consumed. The key run cannot give back characters to reach `=`,
   * and the value takes the whole rest of the line, so no backtracking arises.
   */
  function MatchPair(s: string): (m: Option<(string, string, nat)>)
    ensures m.Some? ==> 1 <= m.value.2 <= |s|
  {
    var k := KeyRun(s);
    if k == 0 || k == |s| || s[k] != '=' then None
    else
      var v := LineRun(s[k + 1..]);
      if v == 0 then None
      else
        var end := k + 1 + v;
        Some((s[..k], s[k + 1..end], if end < |s| && s[end] == '\n' then end + 1 else end))
  }

  /** `re.findall` of the pattern: scan left to right, resuming after each match or one character on. */
  function FindPairs(s: string): seq<(string, string)>
    decreases |s|
  {
    if |s| == 0 then []
    else match MatchPair(s)
      case Some((k, v, n)) => [(k, v)] + FindPairs(s[n..])
      case None => FindPairs(s[1..])
  }

  predicate ValidKey(k: string)
  {
    |k| >= 1 && forall i :: 0 <= i < |k| ==> IsKeyChar(k[i])
  }

  predicate ValidValue(v: string)
  {
    |v| >= 1 && '\n' !in v
  }

  /** One line of the parameters file. */
  function ParamLine(k: string, v: string): string
  {
    k + "=" + v + "\n"
  }

  lemma {:induction false} KeyRunOf(w: string, rest: string)
    requires forall i :: 0 <= i < |w| ==> IsKeyChar(w[i])
    requires rest == [] || !IsKeyChar(rest[0])
    ensures KeyRun(w + rest) == |w|
  {
    if |w| > 0 {
      assert (w + rest)[1..] == w[1..] + rest;
      KeyRunOf(w[1..], rest);
    } else {
      assert w + rest == rest;
    }
  }

  lemma {:induction false} LineRunOf(w: string, rest: string)
    requires '\n' !in w
    requires rest == [] || rest[0] == '\n'
    ensures LineRun(w + rest) == |w|
  {
    if |w| > 0 {
      assert (w + rest)[1..] == w[1..] + rest;
      assert w[0] in w;
      LineRunOf(w[1..], rest);
    } else {
      assert w + rest == rest;
    }
  }

  /** A well-formed line is matched whole at its first character. */
  lemma MatchPairLine(k: string, v: string, rest: string)
    requires ValidKey(k) && ValidValue(v)
    ensures MatchPair(ParamLine(k, v) + rest) == Some((k, v, |ParamLine(k, v)|))
  {
    var s := ParamLine(k, v) + rest;
    assert s == k + ("=" + v + "\n" + rest);
    KeyRunOf(k, "=" + v + "\n" + rest);
    assert s[|k| + 1..] == v + ("\n" + rest);
    LineRunOf(v, "\n" + rest);
    assert s[..|k|] == k;
    assert s[|k| + 1..|k| + 1 + |v|] == v;
  }

  /** Scanning a well-formed line, then the rest, finds the line's pair, then the rest's. */
  lemma FindPairsLine(k: string, v: string, rest: string)
    requires ValidKey(k) && ValidValue(v)
    ensures FindPairs(ParamLine(k, v) + rest) == [(k, v)] + FindPairs(rest)
  {
    MatchPairLine(k, v, rest);
    var s := ParamLine(k, v) + rest;
    assert s[|ParamLine(k, v)|..] == rest;
  }

  /** The text of a list of pairs, one line each. */
  function Lines(pairs: seq<(string, string)>): string
  {
    if |pairs| == 0 then "" else ParamLine(pairs[0].0, pairs[0].1) + Lines(pairs[1..])
  }

  /** Scanning the text written for well-formed pairs gives back the pairs, in order. */
  lemma {:induction false} FindPairsLines(pairs: seq<(string, string)>)
    requires forall i :: 0 <= i < |pairs| ==> ValidKey(pairs[i].0) && ValidValue(pairs[i].1)
    ensures FindPairs(Lines(pairs)) == pairs
  {
    if |pairs| > 0 {
      FindPairsLine(pairs[0].0, pairs[0].1, Lines(pairs[1..]));
      FindPairsLines(pairs[1..]);
    }
  }

  // ------------------------------------------------------- building WGParams

  const FieldNames: seq<string> := [
    "SERVER_PUB_IP", "SERVER_PUB_NIC", "SERVER_WG_NIC", "SERVER_WG_IPV4", "SERVER_WG_IPV6",
    "SERVER_PORT", "SERVER_PRIV_KEY", "SERVER_PUB_KEY", "CLIENT_DNS_1", "CLIENT_DNS_2"]

  /** The keys of the found pairs. */
  function KeysOf(pairs: seq<(string, string)>): set<string>
  {
    set i | 0 <= i < |pairs| :: pairs[i].0
  }

  /** The value the dictionary built from `pairs` holds for `key`: the one of its last pair. */
  function Lookup(pairs: seq<(string, string)>, key: string): (r: Option<string>)
    ensures r.Some? <==> key in KeysOf(pairs)
  {
    if |pairs| == 0 then None
    else
      var last := pairs[|pairs| - 1];
      var init := pairs[..|pairs| - 1];
      assert KeysOf(pairs) == KeysOf(init) + {last.0} by {
        assert forall i :: 0 <= i < |init| ==> init[i] == pairs[i];
      }
      if last.0 == key then Some(last.1) else Lookup(init, key)
  }

  function Get(pairs: seq<(string, string)>, key: string): string
  {
    Lookup(pairs, key).GetOr("")
  }

  /**
   * `WGParams(**dict(pairs))`: the constructor accepts exactly the ten field
   * names, so a missing or an unknown key raises (`None` here).
   */
  function BuildParams(pairs: seq<(string, string)>): (r: Option<WgParams>)
    ensures r.Some? <==> KeysOf(pairs) == set k | k in FieldNames
    ensures r.Some? ==> forall k :: k in FieldNames ==> Lookup(pairs, k).Some?
  {
    if KeysOf(pairs) == set k | k in FieldNames then
      Some(WgParams(
        Get(pairs, "SERVER_PUB_IP"), Get(pairs, "SERVER_PUB_NIC"), Get(pairs, "SERVER_WG_NIC"),
        Get(pairs, "SERVER_WG_IPV4"), Get(pairs, "SERVER_WG_IPV6"), Get(pairs, "SERVER_PORT"),
        Get(pairs, "SERVER_PRIV_KEY"), Get(pairs, "SERVER_PUB_KEY"),
        Get(pairs, "CLIENT_DNS_1"), Get(pairs, "CLIENT_DNS_2")))
    else None
  }

  /** `_get_wg_params` on the text the parameters file holds. */
  function ParseParams(text: string): Option<WgParams>
  {
    BuildParams(FindPairs(text))
  }

  /** The parameters as pairs, in field order. */
  function Fields(p: WgParams): seq<(string, string)>
  {
    [("SERVER_PUB_IP", p.serverPubIp), ("SERVER_PUB_NIC", p.serverPubNic), ("SERVER_WG_NIC", p.serverWgNic),
     ("SERVER_WG_IPV4", p.serverWgIpv4), ("SERVER_WG_IPV6", p.serverWgIpv6), ("SERVER_PORT", p.serverPort),
     ("SERVER_PRIV_KEY", p.serverPrivKey), ("SERVER_PUB_KEY", p.serverPubKey),
     ("CLIENT_DNS_1", p.clientDns1), ("CLIENT_DNS_2", p.clientDns2)]
  }

  /** The parameters file the installer writes: one `KEY=value` line per field. */
  function ParamsText(p: WgParams): string
  {
    Lines(Fields(p))
  }

  /** Every value is non-empty and on one line. */
  predicate WellFormed(p: WgParams)
  {
    forall i :: 0 <= i < |Fields(p)| ==> ValidValue(Fields(p)[i].1)
  }

  /** With distinct keys, the dictionary holds each pair's own value. */
  lemma {:induction false} LookupDistinct(pairs: seq<(string, string)>, i: int)
    requires 0 <= i < |pairs|
    requires forall a, b :: 0 <= a < b < |pairs| ==> pairs[a].0 != pairs[b].0
    ensures Lookup(pairs, pairs[i].0) == Some(pairs[i].1)
  {
    if i < |pairs| - 1 {
      var init := pairs[..|pairs| - 1];
      assert init[i] == pairs[i];
      LookupDistinct(init, i);
    }
  }

  /** The ten field names are pairwise different. */
  lemma FieldNamesDistinct()
    ensures forall a, b :: 0 <= a < b < |FieldNames| ==> FieldNames[a] != FieldNames[b]
  {
  }

  /** Each field name is a valid key. */
  lemma FieldNamesValid()
    ensures forall i :: 0 <= i < |FieldNames| ==> ValidKey(FieldNames[i])
  {
  }

  lemma FieldKeys(p: WgParams)
    ensures KeysOf(Fields(p)) == set k | k in FieldNames
    ensures forall a, b :: 0 <= a < b < |Fields(p)| ==> Fields(p)[a].0 != Fields(p)[b].0
    ensures forall i :: 0 <= i < |Fields(p)| ==> ValidKey(Fields(p)[i].0) && Fields(p)[i].0 == FieldNames[i]
  {
    var fs := Fields(p);
    forall i | 0 <= i < |fs|
      ensures fs[i].0 == FieldNames[i]
    {
    }
    FieldNamesDistinct();
    FieldNamesValid();
    assert KeysOf(fs) == set k | k in FieldNames by {
      forall k | k in FieldNames
        ensures k in KeysOf(fs)
      {
        var i :| 0 <= i < |FieldNames| && FieldNames[i] == k;
        assert fs[i].0 == k;
      }
    }
  }

  /** Reading back the file the installer writes gives the parameters it was written from. */
  lemma ParamsRoundTrip(p: WgParams)
    requires WellFormed(p)
    ensures ParseParams(ParamsText(p)) == Some(p)
  {
    var fs := Fields(p);
    FieldKeys(p);
    FindPairsLines(fs);
    forall i | 0 <= i < |fs|
      ensures Get(fs, fs[i].0) == fs[i].1
    {
      LookupDistinct(fs, i);
    }
    assert Get(fs, "SERVER_PUB_IP") == p.serverPubIp by { assert fs[0].0 == "SERVER_PUB_IP"; }
    assert Get(fs, "SERVER_PUB_NIC") == p.serverPubNic by { assert fs[1].0 == "SERVER_PUB_NIC"; }
    assert Get(fs, "SERVER_WG_NIC") == p.serverWgNic by { assert fs[2].0 == "SERVER_WG_NIC"; }
    assert Get(fs, "SERVER_WG_IPV4") == p.serverWgIpv4 by { assert fs[3].0 == "SERVER_WG_IPV4"; }
    assert Get(fs, "SERVER_WG_IPV6") == p.serverWgIpv6 by { assert fs[4].0 == "SERVER_WG_IPV6"; }
    assert Get(fs, "SERVER_PORT") == p.serverPort by { assert fs[5].0 == "SERVER_PORT"; }
    assert Get(fs, "SERVER_PRIV_KEY") == p.serverPrivKey by { assert fs[6].0 == "SERVER_PRIV_KEY"; }
    assert Get(fs, "SERVER_PUB_KEY") == p.serverPubKey by { assert fs[7].0 == "SERVER_PUB_KEY"; }
    assert Get(fs, "CLIENT_DNS_1") == p.clientDns1 by { assert fs[8].0 == "CLIENT_DNS_1"; }
    assert Get(fs, "CLIENT_DNS_2") == p.clientDns2 by { assert fs[9].0 == "CLIENT_DNS_2"; }
  }

  /** A file that lacks one of the ten keys makes the constructor raise (an extra key is covered by `BuildParams`). */
  lemma ParamsMissingKey(text: string, k: string)
    requires k in FieldNames && k !in KeysOf(FindPairs(text))
    ensures ParseParams(text).None?
  {
  }

  // -------------------------------------------------------------- endpoint

  /**
   * The `Endpoint = ` row written from the parameters parses back to the
   * public address and port, provided neither holds whitespace and the port
   * holds no colon (a colon in the address is kept in the address).
   */
  lemma EndpointRoundTrip(p: WgParams)
    requires |p.serverPubIp| >= 1 && NoSpace(p.serverPubIp)
    requires |p.serverPort| >= 1 && NoSpace(p.serverPort) && ':' !in p.serverPort
    ensures WgConfig.MatchEndpoint(WgConfig.EndpointPrefix + Endpoint(p)) == Some((p.serverPubIp, p.serverPort))
  {
    var ip, port := p.serverPubIp, p.serverPort;
    var w := Endpoint(p);
    assert NoSpace(w) by {
      forall k | 0 <= k < |w|
        ensures !IsSpace(w[k])
      {
        if k < |ip| {
          assert w[k] == ip[k];
        } else if k > |ip| {
          assert w[k] == port[k - |ip| - 1];
        }
      }
    }
    forall k | |ip| < k < |w| - 1
      ensures w[k] != ':'
    {
      assert w[k] == port[k - |ip| - 1];
    }
    WgConfig.MatchEndpointOfRun(w);
    WgConfig.EndpointGroupsAt(w, |ip|);
  }
}
