/**
 * The parsed view of a WireGuard client file: the `Config` record, its text,
 * and the row-by-row parse that fills the client number, tunnel addresses,
 * endpoint and DNS list from anchored patterns.
 *
 * The patterns are matched as Python's `re.match` does: anchored at the start
 * of the row, each group greedy and backtracking, so that of all ways to match
 * the one with the longest first group (then the longest second group) wins.
 */
module WgConfig {
  import opened Wrappers
  import opened Text

  datatype Config = Config(
    rows: seq<string>,
    name: string,
    clientName: string,
    clientIpV4: string,
    clientIpV6: string,
    endpointIp: string,
    endpointPort: string,
    dns: seq<string>)

  /** The text of a configuration: its rows joined with newlines. */
  function ConfigText(c: Config): string
  {
    Join(c.rows, "\n")
  }

  const ClientFilePrefix: string := "wg0-client-"
  const ClientFileSuffix: string := ".conf"
  const AddressPrefix: string := "Address = "
  const EndpointPrefix: string := "Endpoint = "
  const DnsPrefix: string := "DNS = "

  // ---------------------------------------------------------------- file name

  /** `name` starts with `wg0-client-` + `d` + `.conf`, `d` a non-empty run of digits. */
  predicate IsClientFileName(name: string, d: string)
  {
    |d| >= 1 && (forall i :: 0 <= i < |d| ==> IsDigit(d[i]))
    && StartsWith(name, ClientFilePrefix + d + ClientFileSuffix)
  }

  /** The group of `wg0-client-(\d+?)\.conf` matched at the start of `name`. */
  function ClientNameMatch(name: string): (r: Option<string>)
    ensures r.Some? ==> IsClientFileName(name, r.value)
  {
    if !StartsWith(name, ClientFilePrefix) then None
    else
      var rest := name[|ClientFilePrefix|..];
      var k := DigitRun(rest);
      if k >= 1 && StartsWith(rest[k..], ClientFileSuffix) then
        assert name[..|ClientFilePrefix| + k + |ClientFileSuffix|]
            == ClientFilePrefix + rest[..k] + ClientFileSuffix;
        Some(rest[..k])
      else None
  }

  /** Every file name of the form `wg0-client-<digits>.conf...` yields exactly its digits. */
  lemma ClientNameMatchComplete(name: string, d: string)
    requires IsClientFileName(name, d)
    ensures ClientNameMatch(name) == Some(d)
  {
    var full := ClientFilePrefix + d + ClientFileSuffix;
    var rest := name[|ClientFilePrefix|..];
    assert name[..|full|] == full;
    assert forall t :: 0 <= t < |d| ==> rest[t] == full[|ClientFilePrefix| + t];
    assert rest[..|d|] == d;
    assert rest[|d|] == '.';
    var k := DigitRun(rest);
    assert k == |d|;
    assert rest[k..][..|ClientFileSuffix|] == full[|ClientFilePrefix| + |d|..] == ClientFileSuffix;
    assert rest[k..][..|ClientFileSuffix|] == ClientFileSuffix;
  }

  // ------------------------------------------------------------------ Address

  /** `/32,` starts at `i` in `w`. */
  predicate Slash32At(w: string, i: int)
  {
    0 <= i && i + 4 <= |w| && w[i] == '/' && w[i + 1] == '3' && w[i + 2] == '2' && w[i + 3] == ','
  }

  /** `/128` starts at `j` in `w`. */
  predicate Slash128At(w: string, j: int)
  {
    0 <= j && j + 4 <= |w| && w[j] == '/' && w[j + 1] == '1' && w[j + 2] == '2' && w[j + 3] == '8'
  }

  /**
   * `(\S+)/32,(\S+)/128` can match `w` (a run without whitespace) with the
   * first group `w[..i]` and the second `w[i + 4..j]`.
   */
  predicate AddressSplit(w: string, i: int, j: int)
  {
    1 <= i && i + 4 < j && Slash32At(w, i) && Slash128At(w, j)
  }

  /** The largest `j` in `lo..hi` where `/128` starts. */
  function LastSlash128(w: string, lo: int, hi: int): (r: Option<int>)
    ensures r.Some? ==> lo <= r.value <= hi && Slash128At(w, r.value)
    decreases hi - lo
  {
    if hi < lo then None
    else if Slash128At(w, hi) then Some(hi)
    else LastSlash128(w, lo, hi - 1)
  }

  /** No `/128` in `lo..hi` is missed, and none after the one found. */
  lemma {:induction false} LastSlash128Max(w: string, lo: int, hi: int, j: int)
    requires lo <= j <= hi && Slash128At(w, j)
    ensures LastSlash128(w, lo, hi).Some? && j <= LastSlash128(w, lo, hi).value
    decreases hi - lo
  {
    if !Slash128At(w, hi) {
      LastSlash128Max(w, lo, hi - 1, j);
    }
  }

  /** The backtracking search: first group as long as possible, then the second. */
  function AddressSearch(w: string, i: int): (r: Option<(int, int)>)
    ensures r.Some? ==> AddressSplit(w, r.value.0, r.value.1) && r.value.0 <= i
    decreases i
  {
    if i < 1 then None
    else
      var j := LastSlash128(w, i + 5, |w| - 4);
      if Slash32At(w, i) && j.Some? then Some((i, j.value))
      else AddressSearch(w, i - 1)
  }

  /**
   * The search finds the split the regular-expression engine settles on: no
   * split has a longer first group, and none with the same first group has a
   * longer second group.
   */
  lemma {:induction false} AddressSearchMax(w: string, i: int, i': int, j': int)
    requires i' <= i && AddressSplit(w, i', j')
    ensures var r := AddressSearch(w, i);
      r.Some? && (i' < r.value.0 || (i' == r.value.0 && j' <= r.value.1))
    decreases i
  {
    if i == i' {
      LastSlash128Max(w, i + 5, |w| - 4, j');
    } else if !(Slash32At(w, i) && LastSlash128(w, i + 5, |w| - 4).Some?) {
      AddressSearchMax(w, i - 1, i', j');
    }
  }

  /** The two groups of the Address pattern over the non-space run `w`. */
  function AddressGroups(w: string): Option<(string, string)>
  {
    match AddressSearch(w, |w|)
    case None => None
    case Some((i, j)) => Some((w[..i], w[i + 4..j]))
  }

  /** `re.match(r"Address = (\S+)/32,(\S+)/128", line)`, as groups. */
  function MatchAddress(line: string): Option<(string, string)>
  {
    if StartsWith(line, AddressPrefix) then
      AddressGroups(NonSpacePrefix(line[|AddressPrefix|..]))
    else None
  }

  /** What follows `Address = ` in the row written for addresses `v4`, `v6`. */
  function AddressBody(v4: string, v6: string): string
  {
    v4 + "/32," + v6 + "/128"
  }

  /** The row written for addresses `v4`, `v6`. */
  function AddressRow(v4: string, v6: string): string
  {
    AddressPrefix + AddressBody(v4, v6)
  }

  /** The two groups of a split, written back, give the matched part of `w`. */
  lemma AddressBodyOfSplit(w: string, i: int, j: int)
    requires AddressSplit(w, i, j)
    ensures AddressBody(w[..i], w[i + 4..j]) == w[..j + 4]
  {
    assert w[..i] + "/32," == w[..i + 4];
    assert w[..i + 4] + w[i + 4..j] == w[..j];
    assert w[..j] + "/128" == w[..j + 4];
  }

  /**
   * The groups matched in a row describe a prefix of the row: the row starts
   * with the Address line built from them, and neither group holds whitespace.
   */
  lemma MatchAddressSound(line: string)
    requires MatchAddress(line).Some?
    ensures var (a, b) := MatchAddress(line).value;
      |a| >= 1 && |b| >= 1 && NoSpace(a) && NoSpace(b) && StartsWith(line, AddressRow(a, b))
  {
    var rest := line[|AddressPrefix|..];
    var w := NonSpacePrefix(rest);
    var (i, j) := AddressSearch(w, |w|).value;
    AddressBodyOfSplit(w, i, j);
    assert rest[..j + 4] == w[..j + 4];
    assert line[..|AddressPrefix|] + rest[..j + 4] == line[..|AddressPrefix| + j + 4];
  }

  /** A split of a prefix of `w` is a split of `w`. */
  lemma AddressSplitPrefix(w: string, n: int, i: int, j: int)
    requires 0 <= n <= |w| && AddressSplit(w[..n], i, j)
    ensures AddressSplit(w, i, j)
  {
  }

  /** Cutting `w` right after the chosen `/128` leaves the search with the same choice. */
  lemma AddressSearchOnPrefix(w: string, i: int, j: int)
    requires AddressSearch(w, |w|) == Some((i, j))
    ensures AddressSearch(w[..j + 4], j + 4) == Some((i, j))
  {
    var w' := w[..j + 4];
    assert |w'| == j + 4;
    assert AddressSplit(w', i, j);
    AddressSearchMax(w', |w'|, i, j);
    var r' := AddressSearch(w', |w'|);
    var i2, j2 := r'.value.0, r'.value.1;
    assert r' == Some((i2, j2));
    AddressSplitPrefix(w, j + 4, i2, j2);
    AddressSearchMax(w, |w|, i2, j2);
    assert i2 == i && j2 == j;
  }

  /** An Address row whose body has no whitespace is matched on the whole body. */
  lemma MatchAddressOfBody(w: string)
    requires NoSpace(w)
    ensures MatchAddress(AddressPrefix + w) == AddressGroups(w)
  {
    PrefixedRun(AddressPrefix, w);
  }

  /** The groups found in the matched part of a run are the groups found in the whole run. */
  lemma AddressGroupsOnPrefix(w: string, i: int, j: int)
    requires AddressSearch(w, |w|) == Some((i, j))
    ensures AddressGroups(w[..j + 4]) == AddressGroups(w)
  {
    var w' := w[..j + 4];
    AddressSearchOnPrefix(w, i, j);
    assert |w'| == j + 4;
    assert w'[..i] == w[..i] && w'[i + 4..j] == w[i + 4..j];
  }

  /** Re-matching the row written from matched groups gives back the same groups. */
  lemma MatchAddressRow(line: string)
    requires MatchAddress(line).Some?
    ensures var (a, b) := MatchAddress(line).value;
      MatchAddress(AddressRow(a, b)) == Some((a, b))
  {
    var w := NonSpacePrefix(line[|AddressPrefix|..]);
    var (i, j) := AddressSearch(w, |w|).value;
    var w' := w[..j + 4];
    AddressGroupsOnPrefix(w, i, j);
    AddressBodyOfSplit(w, i, j);
    assert NoSpace(w') by {
      assert forall x :: 0 <= x < |w'| ==> w'[x] == w[x];
    }
    MatchAddressOfBody(w');
  }

  /** The row written for empty addresses does not match: the groups need a character each. */
  lemma EmptyAddressRowNoMatch()
    ensures MatchAddress(AddressRow("", "")) == None
  {
    var row := AddressRow("", "");
    var w := row[|AddressPrefix|..];
    assert w == "/32,/128";
    NonSpacePrefixOf(w, []);
    assert w + [] == w;
  }

  // ----------------------------------------------------------------- Endpoint

  /** `(\S+):(\S+)` can match the non-space run `w` with the colon at `i`. */
  predicate EndpointSplit(w: string, i: int)
  {
    1 <= i < |w| - 1 && w[i] == ':'
  }

  function EndpointSearch(w: string, i: int): (r: Option<int>)
    ensures r.Some? ==> EndpointSplit(w, r.value) && r.value <= i
    decreases i
  {
    if i < 1 then None
    else if EndpointSplit(w, i) then Some(i)
    else EndpointSearch(w, i - 1)
  }

  /** The search finds the last colon that can split the endpoint. */
  lemma {:induction false} EndpointSearchMax(w: string, i: int, i': int)
    requires i' <= i && EndpointSplit(w, i')
    ensures EndpointSearch(w, i).Some? && i' <= EndpointSearch(w, i).value
    decreases i
  {
    if !EndpointSplit(w, i) {
      EndpointSearchMax(w, i - 1, i');
    }
  }

  /** `re.match(r"Endpoint = (\S+):(\S+)", line)`, as groups. */
  function MatchEndpoint(line: string): Option<(string, string)>
  {
    if StartsWith(line, EndpointPrefix) then EndpointGroups(NonSpacePrefix(line[|EndpointPrefix|..]))
    else None
  }

  /** The two groups of `(\S+):(\S+)` on a run without whitespace: split at the last colon that leaves both non-empty. */
  function EndpointGroups(w: string): Option<(string, string)>
  {
    match EndpointSearch(w, |w| - 2)
    case None => None
    case Some(i) => Some((w[..i], w[i + 1..]))
  }

  /** An endpoint line whose run holds no whitespace yields the groups of that run. */
  lemma MatchEndpointOfRun(w: string)
    requires NoSpace(w)
    ensures MatchEndpoint(EndpointPrefix + w) == EndpointGroups(w)
  {
    PrefixedRun(EndpointPrefix, w);
  }

  /** A run whose last splitting colon is the one at `i` yields the two sides of that colon. */
  lemma EndpointGroupsAt(w: string, i: int)
    requires EndpointSplit(w, i)
    requires forall k :: i < k < |w| - 1 ==> w[k] != ':'
    ensures EndpointGroups(w) == Some((w[..i], w[i + 1..]))
  {
    EndpointSearchMax(w, |w| - 2, i);
  }

  /** After the colon the search settles on, a colon can only be the last character. */
  lemma EndpointPortColons(w: string, i: int)
    requires EndpointSearch(w, |w| - 2) == Some(i)
    ensures forall k :: i + 1 <= k < |w| - 1 ==> w[k] != ':'
  {
    forall k | i + 1 <= k < |w| - 1
      ensures w[k] != ':'
    {
      if w[k] == ':' {
        EndpointSearchMax(w, |w| - 2, k);
      }
    }
  }

  /** Host and port around the colon at `i` make up the run, and neither holds whitespace. */
  lemma EndpointParts(w: string, i: int)
    requires NoSpace(w) && EndpointSplit(w, i)
    ensures var host, port := w[..i], w[i + 1..];
      && w == host + ":" + port
      && NoSpace(host) && NoSpace(port)
      && ((forall k :: i + 1 <= k < |w| - 1 ==> w[k] != ':') ==> (forall k :: 0 <= k < |port| - 1 ==> port[k] != ':'))
  {
    assert w == w[..i] + ":" + w[i + 1..];
    NoSpaceSlice(w, 0, i);
    NoSpaceSlice(w, i + 1, |w|);
  }

  /**
   * The endpoint splits at its LAST colon that leaves a non-empty port (the
   * greedy first group), so a host with colons of its own keeps them, and the
   * port holds a colon only as its final character.
   */
  lemma MatchEndpointLastColon(line: string)
    requires MatchEndpoint(line).Some?
    ensures var (host, port) := MatchEndpoint(line).value;
      |host| >= 1 && |port| >= 1 && NoSpace(host) && NoSpace(port)
      && (forall k :: 0 <= k < |port| - 1 ==> port[k] != ':')
      && StartsWith(line, EndpointPrefix + host + ":" + port)
  {
    var w := NonSpacePrefix(line[|EndpointPrefix|..]);
    EndpointGroupsParts(w);
    StartsWithThen(line, EndpointPrefix, w);
  }

  /** The groups of a run without whitespace are its two sides, and the port holds a colon only at its end. */
  lemma EndpointGroupsParts(w: string)
    requires NoSpace(w) && EndpointGroups(w).Some?
    ensures var (host, port) := EndpointGroups(w).value;
      |host| >= 1 && |port| >= 1 && NoSpace(host) && NoSpace(port)
      && (forall k :: 0 <= k < |port| - 1 ==> port[k] != ':')
      && w == host + ":" + port
  {
    var i := EndpointSearch(w, |w| - 2).value;
    EndpointPortColons(w, i);
    EndpointParts(w, i);
  }

  // ---------------------------------------------------------------------- DNS

  /** `re.match(r"DNS = (\S+)", line)`, its group split on commas. */
  function MatchDns(line: string): Option<seq<string>>
  {
    if StartsWith(line, DnsPrefix) then
      var w := NonSpacePrefix(line[|DnsPrefix|..]);
      if |w| >= 1 then Some(Split(w, ',')) else None
    else None
  }

  /** The row written for a DNS list. */
  function DnsRow(dns: seq<string>): string
  {
    DnsPrefix + Join(dns, ",")
  }

  /** Re-matching the row written from a matched list gives back the same list. */
  lemma MatchDnsRow(line: string)
    requires MatchDns(line).Some?
    ensures MatchDns(DnsRow(MatchDns(line).value)) == MatchDns(line)
  {
    var w := NonSpacePrefix(line[|DnsPrefix|..]);
    JoinSplit(w, ',');
    var row := DnsRow(Split(w, ','));
    assert row == DnsPrefix + w;
    assert row[|DnsPrefix|..] == w + [];
    NonSpacePrefixOf(w, []);
  }

  // -------------------------------------------------------------------- parse

  /** The fields one row sets, each pattern tried independently. */
  function ParseLine(c: Config, line: string): Config
  {
    var c1 := match MatchAddress(line)
      case Some((v4, v6)) => c.(clientIpV4 := v4, clientIpV6 := v6)
      case None => c;
    var c2 := match MatchEndpoint(line)
      case Some((ip, port)) => c1.(endpointIp := ip, endpointPort := port)
      case None => c1;
    match MatchDns(line)
    case Some(d) => c2.(dns := d)
    case None => c2
  }

  /** The loop over the rows, as a left fold. */
  function ParseRows(c: Config, rows: seq<string>): Config
  {
    if |rows| == 0 then c
    else ParseLine(ParseRows(c, rows[..|rows| - 1]), rows[|rows| - 1])
  }

  /** One more row of the loop is one more step of the fold. */
  lemma ParseRowsStep(c: Config, rows: seq<string>, i: int)
    requires 0 <= i < |rows|
    ensures ParseRows(c, rows[..i + 1]) == ParseLine(ParseRows(c, rows[..i]), rows[i])
  {
    assert rows[..i + 1][..i] == rows[..i];
  }

  /** The record before the loop over the rows: the rows and the client number only. */
  function InitialConfig(text: string, name: string): Config
  {
    var c := Config(Split(text, '\n'), name, "", "", "", "", "", []);
    match ClientNameMatch(name)
    case Some(d) => c.(clientName := d)
    case None => c
  }

  /** The configuration parsed from a file's text and name. */
  function Parse(text: string, name: string): Config
  {
    var init := InitialConfig(text, name);
    ParseRows(init, init.rows)
  }

  /** The value `m` gives for the last row it matches, if any. */
  function LastHit<T>(rows: seq<string>, m: string -> Option<T>): (r: Option<T>)
    ensures r.Some? ==> exists k :: 0 <= k < |rows| && m(rows[k]) == r
  {
    if |rows| == 0 then None
    else if m(rows[|rows| - 1]).Some? then m(rows[|rows| - 1])
    else
      var r := LastHit(rows[..|rows| - 1], m);
      assert forall k :: 0 <= k < |rows| - 1 ==> rows[..|rows| - 1][k] == rows[k];
      r
  }

  /** A row `m` matches, with no match after it, gives the last hit. */
  lemma {:induction false} LastHitIsLast<T>(rows: seq<string>, m: string -> Option<T>, k: int)
    requires 0 <= k < |rows| && m(rows[k]).Some?
    requires forall k' :: k < k' < |rows| ==> m(rows[k']).None?
    ensures LastHit(rows, m) == m(rows[k])
  {
    if k < |rows| - 1 {
      var pre := rows[..|rows| - 1];
      assert pre[k] == rows[k];
      forall k' | k < k' < |pre|
        ensures m(pre[k']).None?
      {
        assert pre[k'] == rows[k'];
      }
      LastHitIsLast(pre, m, k);
    }
  }

  /** Any match at all makes a last hit. */
  lemma LastHitSome<T>(rows: seq<string>, m: string -> Option<T>, k: int)
    requires 0 <= k < |rows| && m(rows[k]).Some?
    ensures LastHit(rows, m).Some?
  {
    var last :| k <= last < |rows| && m(rows[last]).Some? && forall k' :: last < k' < |rows| ==> m(rows[k']).None? by {
      LastMatchExists(rows, m, k);
    }
    LastHitIsLast(rows, m, last);
  }

  lemma {:induction false} LastMatchExists<T>(rows: seq<string>, m: string -> Option<T>, k: int)
    requires 0 <= k < |rows| && m(rows[k]).Some?
    ensures exists last :: k <= last < |rows| && m(rows[last]).Some? && forall k' :: last < k' < |rows| ==> m(rows[k']).None?
    decreases |rows| - k
  {
    if exists k2 :: k < k2 < |rows| && m(rows[k2]).Some? {
      var k2 :| k < k2 < |rows| && m(rows[k2]).Some?;
      LastMatchExists(rows, m, k2);
    } else {
      assert forall k' :: k < k' < |rows| ==> m(rows[k']).None?;
    }
  }

  /**
   * The loop only overwrites: each parsed field comes from the LAST row its
   * pattern matches, or keeps its value from before the loop; the rows, the
   * name and the client number are never touched.
   */
  lemma {:induction false} LastMatchWins(c: Config, rows: seq<string>)
    ensures var r := ParseRows(c, rows);
      && r.rows == c.rows && r.name == c.name && r.clientName == c.clientName
      && (r.clientIpV4, r.clientIpV6) == LastHit(rows, MatchAddress).GetOr((c.clientIpV4, c.clientIpV6))
      && (r.endpointIp, r.endpointPort) == LastHit(rows, MatchEndpoint).GetOr((c.endpointIp, c.endpointPort))
      && r.dns == LastHit(rows, MatchDns).GetOr(c.dns)
  {
    if |rows| > 0 {
      LastMatchWins(c, rows[..|rows| - 1]);
    }
  }

  /** Parsing keeps the text: the rows join back to exactly the input. */
  lemma ParseKeepsText(text: string, name: string)
    ensures Parse(text, name).rows == Split(text, '\n')
    ensures ConfigText(Parse(text, name)) == text
  {
    var init := InitialConfig(text, name);
    LastMatchWins(init, init.rows);
    JoinSplit(text, '\n');
  }

  /** The client number is the digit run of the file name, or "" when the name has none. */
  lemma ParseClientName(text: string, name: string)
    ensures var c := Parse(text, name);
      (c.clientName != "" <==> exists d :: IsClientFileName(name, d))
      && (forall d :: IsClientFileName(name, d) ==> c.clientName == d)
  {
    var init := InitialConfig(text, name);
    LastMatchWins(init, init.rows);
    forall d | IsClientFileName(name, d)
      ensures init.clientName == d
    {
      ClientNameMatchComplete(name, d);
    }
  }

  /** A row that matches the Address pattern, followed only by rows that do not, sets the addresses. */
  lemma ParseLastAddress(text: string, name: string, k: int)
    requires var rows := Split(text, '\n');
      0 <= k < |rows| && MatchAddress(rows[k]).Some?
      && forall k' :: k < k' < |rows| ==> MatchAddress(rows[k']).None?
    ensures var c := Parse(text, name);
      (c.clientIpV4, c.clientIpV6) == MatchAddress(Split(text, '\n')[k]).value
  {
    var init := InitialConfig(text, name);
    LastMatchWins(init, init.rows);
    LastHitIsLast(init.rows, MatchAddress, k);
  }

  /**
   * `_parse_config`: split the text into rows, take the client number from
   * the name, then let every row overwrite the fields its patterns match.
   */
  method ParseConfig(text: string, name: string) returns (c: Config)
    ensures c == Parse(text, name)
    ensures ConfigText(c) == text
  {
    var rows := Split(text, '\n');
    c := Config(rows, name, "", "", "", "", "", []);
    var m := ClientNameMatch(name);
    if m.Some? {
      c := c.(clientName := m.value);
    }
    ghost var init := c;
    var i := 0;
    while i < |rows|
      invariant 0 <= i <= |rows|
      invariant c == ParseRows(init, rows[..i])
    {
      var line := rows[i];
      ghost var prev := c;
      if StartsWith(line, AddressPrefix) {
        var g := MatchAddress(line);
        if g.Some? {
          c := c.(clientIpV4 := g.value.0, clientIpV6 := g.value.1);
        }
      }
      if StartsWith(line, EndpointPrefix) {
        var g := MatchEndpoint(line);
        if g.Some? {
          c := c.(endpointIp := g.value.0, endpointPort := g.value.1);
        }
      }
      if StartsWith(line, DnsPrefix) {
        var g := MatchDns(line);
        if g.Some? {
          c := c.(dns := g.value);
        }
      }
      assert c == ParseLine(prev, line);
      ParseRowsStep(init, rows, i);
      i := i + 1;
    }
    assert rows[..|rows|] == rows;
    ParseKeepsText(text, name);
  }
}
