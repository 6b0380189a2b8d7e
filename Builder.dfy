/**
 * The configuration builder: re-emits the rows of a parsed configuration,
 * rewriting every `Address`, `DNS` and `AllowedIPs` row from the parsed
 * fields and the shared list of allowed networks, and trims the result.
 */
module Builder {
  import opened Wrappers
  import opened Text
  import opened WgConfig

  /** The class-level list of networks routed through the tunnel, before any addition. */
  const DefaultAllowedIps: seq<string> := [
    "64.0.0.0/2", "32.0.0.0/3", "128.0.0.0/3", "16.0.0.0/4",
    "176.0.0.0/4", "208.0.0.0/4", "0.0.0.0/5", "160.0.0.0/5",
    "200.0.0.0/5", "12.0.0.0/6", "168.0.0.0/6", "196.0.0.0/6",
    "8.0.0.0/7", "174.0.0.0/7", "194.0.0.0/7", "11.0.0.0/8",
    "173.0.0.0/8", "193.0.0.0/8", "172.128.0.0/9", "192.0.0.0/9",
    "172.64.0.0/10", "192.192.0.0/10", "172.32.0.0/11", "192.128.0.0/11",
    "172.0.0.0/12", "192.176.0.0/12", "192.160.0.0/13", "192.172.0.0/14",
    "192.170.0.0/15", "192.169.0.0/16", "10.66.66.1/32", "::/0"]

  /** The default list holds 32 networks, the last of them the whole IPv6 space. */
  lemma DefaultAllowedIpsShape()
    ensures |DefaultAllowedIps| == 32
    ensures DefaultAllowedIps[30] == "10.66.66.1/32" && DefaultAllowedIps[31] == "::/0"
  {
  }

  /** Which rewrite a row receives; the prefixes are tested in this order. */
  datatype Kind = AddressKind | DnsKind | AllowedKind | Verbatim

  function KindOf(line: string): Kind
  {
    if StartsWith(line, "Address") then AddressKind
    else if StartsWith(line, "DNS") then DnsKind
    else if StartsWith(line, "AllowedIPs") then AllowedKind
    else Verbatim
  }

  function AllowedRow(allowed: seq<string>): string
  {
    "AllowedIPs = " + Join(allowed, ", ")
  }

  /** The line emitted for one row. */
  function RenderRow(c: Config, allowed: seq<string>, line: string): string
  {
    match KindOf(line)
    case AddressKind => AddressRow(c.clientIpV4, c.clientIpV6)
    case DnsKind => DnsRow(c.dns)
    case AllowedKind => AllowedRow(allowed)
    case Verbatim => line
  }

  /** The lines emitted for `rows`, one per row. */
  function Rendered(c: Config, allowed: seq<string>, rows: seq<string>): (out: seq<string>)
    ensures |out| == |rows|
  {
    if |rows| == 0 then []
    else Rendered(c, allowed, rows[..|rows| - 1]) + [RenderRow(c, allowed, rows[|rows| - 1])]
  }

  lemma {:induction false} RenderedAt(c: Config, allowed: seq<string>, rows: seq<string>, i: int)
    requires 0 <= i < |rows|
    ensures Rendered(c, allowed, rows)[i] == RenderRow(c, allowed, rows[i])
  {
    if i < |rows| - 1 {
      RenderedAt(c, allowed, rows[..|rows| - 1], i);
    }
  }

  /** The accumulated text after the loop has visited `rows`: each emitted line followed by a newline. */
  function Accumulated(c: Config, allowed: seq<string>, rows: seq<string>): string
  {
    if |rows| == 0 then ""
    else Accumulated(c, allowed, rows[..|rows| - 1]) + RenderRow(c, allowed, rows[|rows| - 1]) + "\n"
  }

  /** The canonical text of `c`: the emitted lines, stripped of whitespace at both ends. */
  function Canonical(c: Config, allowed: seq<string>): string
  {
    Strip(Accumulated(c, allowed, c.rows))
  }

  // ------------------------------------------------------------ line structure

  /** Before the final strip, the text is exactly one emitted line per row, in row order. */
  lemma {:induction false} AccumulatedLines(c: Config, allowed: seq<string>, rows: seq<string>)
    ensures Accumulated(c, allowed, rows) == Join(Rendered(c, allowed, rows) + [""], "\n")
  {
    if |rows| > 0 {
      var n := |rows|;
      var pre := rows[..n - 1];
      AccumulatedLines(c, allowed, pre);
      JoinSnocEmpty(Rendered(c, allowed, pre), RenderRow(c, allowed, rows[n - 1]), "\n");
    }
  }

  /** Splitting the unstripped text on newlines gives back the emitted lines (and a final empty piece). */
  lemma AccumulatedSplit(c: Config, allowed: seq<string>, rows: seq<string>)
    requires forall i :: 0 <= i < |rows| ==> '\n' !in RenderRow(c, allowed, rows[i])
    ensures Split(Accumulated(c, allowed, rows), '\n') == Rendered(c, allowed, rows) + [""]
  {
    AccumulatedLines(c, allowed, rows);
    var r := Rendered(c, allowed, rows) + [""];
    forall i | 0 <= i < |r|
      ensures '\n' !in r[i]
    {
      if i < |rows| {
        RenderedAt(c, allowed, rows, i);
      }
    }
    SplitJoin(r, '\n');
  }

  /** The index of the last line with content, or -1. */
  function LastContent(lines: seq<string>): (k: int)
    ensures -1 <= k < |lines|
    ensures k >= 0 ==> !AllSpace(lines[k])
    ensures forall i :: k < i < |lines| ==> AllSpace(lines[i])
  {
    if |lines| == 0 then -1
    else if !AllSpace(lines[|lines| - 1]) then |lines| - 1
    else
      var k := LastContent(lines[..|lines| - 1]);
      assert forall i :: 0 <= i < |lines| - 1 ==> lines[..|lines| - 1][i] == lines[i];
      k
  }

  /** Joined lines with a final empty piece, cut after line `k`. */
  lemma JoinCutAfter(lines: seq<string>, k: int)
    requires 0 <= k < |lines|
    ensures Join(lines + [""], "\n") == Join(lines[..k + 1], "\n") + "\n" + Join(lines[k + 1..] + [""], "\n")
  {
    assert lines + [""] == lines[..k + 1] + (lines[k + 1..] + [""]);
    JoinConcat(lines[..k + 1], lines[k + 1..] + [""], "\n");
  }

  /** The text after the last line with content is newlines and whitespace only. */
  lemma BlankTail(lines: seq<string>, k: int)
    requires 0 <= k < |lines|
    requires forall i :: k < i < |lines| ==> AllSpace(lines[i])
    ensures AllSpace(Join(lines[k + 1..] + [""], "\n"))
  {
    var tailParts := lines[k + 1..] + [""];
    forall i | 0 <= i < |tailParts|
      ensures AllSpace(tailParts[i])
    {
      if i < |tailParts| - 1 {
        assert tailParts[i] == lines[k + 1 + i];
      }
    }
    JoinAllSpace(tailParts, "\n");
  }

  /** Lines of whitespace after the last line with content vanish under `rstrip()`. */
  lemma RStripTrailingLines(lines: seq<string>, k: int)
    requires 0 <= k < |lines|
    requires forall i :: k < i < |lines| ==> AllSpace(lines[i])
    ensures RStrip(Join(lines + [""], "\n")) == RStrip(Join(lines[..k + 1], "\n"))
  {
    JoinCutAfter(lines, k);
    BlankTail(lines, k);
    var head := Join(lines[..k + 1], "\n");
    RStripAppendSpace(head + "\n", Join(lines[k + 1..] + [""], "\n"));
    RStripAppendSpace(head, "\n");
  }

  /** `rstrip()` of joined lines ending in content only strips the last line. */
  lemma RStripLastLine(lines: seq<string>)
    requires |lines| >= 1 && !AllSpace(lines[|lines| - 1])
    ensures RStrip(Join(lines, "\n")) == Join(lines[..|lines| - 1] + [RStrip(lines[|lines| - 1])], "\n")
  {
    var k := |lines| - 1;
    var last := RStrip(lines[k]);
    if k > 0 {
      assert lines == lines[..k] + [lines[k]];
      JoinConcat(lines[..k], [lines[k]], "\n");
      RStripAppendContent(Join(lines[..k], "\n") + "\n", lines[k]);
      JoinConcat(lines[..k], [last], "\n");
    }
  }

  /**
   * Stripping the emitted text drops the trailing lines that are only
   * whitespace and the trailing whitespace of the last line with content.
   */
  lemma StripLines(lines: seq<string>, k: int)
    requires 0 <= k < |lines| && !AllSpace(lines[k])
    requires forall i :: k < i < |lines| ==> AllSpace(lines[i])
    requires |lines[0]| >= 1 && !IsSpace(lines[0][0])
    ensures Strip(Join(lines + [""], "\n")) == Join(lines[..k] + [RStrip(lines[k])], "\n")
  {
    RStripTrailingLines(lines, k);
    var head := lines[..k + 1];
    assert head[..k] == lines[..k];
    RStripLastLine(head);
    var last := RStrip(lines[k]);
    assert |last| >= 1;
    var result := Join(lines[..k] + [last], "\n");
    JoinStartsWithFirst(lines[..k] + [last], "\n");
    assert result[0] == lines[0][0];
    LStripNoLead(result);
  }

  // ------------------------------------------------------------- rewritten rows

  lemma NoSpaceNoNewline(s: string)
    requires NoSpace(s)
    ensures '\n' !in s
  {
  }

  lemma AddressRowNoNewline(v4: string, v6: string)
    requires '\n' !in v4 && '\n' !in v6
    ensures '\n' !in AddressRow(v4, v6)
  {
    assert '\n' !in AddressPrefix && '\n' !in "/32," && '\n' !in "/128";
  }

  lemma NotStartsWith(s: string, p: string, i: int)
    requires 0 <= i < |p| && i < |s| && s[i] != p[i]
    ensures !StartsWith(s, p)
  {
  }

  lemma AddressRowKind(v4: string, v6: string)
    ensures KindOf(AddressRow(v4, v6)) == AddressKind
    ensures KindOf(RStrip(AddressRow(v4, v6))) == AddressKind
  {
    var r := AddressRow(v4, v6);
    assert r[..7] == "Address";
    RStripKeepsPrefix(r, "Address");
  }

  lemma DnsRowKind(d: seq<string>)
    ensures KindOf(DnsRow(d)) == DnsKind
    ensures KindOf(RStrip(DnsRow(d))) == DnsKind
  {
    var r := DnsRow(d);
    assert r[..3] == "DNS";
    RStripKeepsPrefix(r, "DNS");
    NotStartsWith(r, "Address", 0);
    NotStartsWith(RStrip(r), "Address", 0);
  }

  lemma AllowedRowKind(a: seq<string>)
    ensures KindOf(AllowedRow(a)) == AllowedKind
    ensures KindOf(RStrip(AllowedRow(a))) == AllowedKind
  {
    var r := AllowedRow(a);
    assert r[..10] == "AllowedIPs";
    RStripKeepsPrefix(r, "AllowedIPs");
    NotStartsWith(r, "Address", 1);
    NotStartsWith(RStrip(r), "Address", 1);
    NotStartsWith(r, "DNS", 0);
    NotStartsWith(RStrip(r), "DNS", 0);
  }

  /** Stripping trailing whitespace keeps every prefix, hence the kind. */
  lemma RStripKind(line: string)
    ensures KindOf(RStrip(line)) == KindOf(line)
  {
    RStripPrefixIff(line, "Address");
    RStripPrefixIff(line, "DNS");
    RStripPrefixIff(line, "AllowedIPs");
  }

  /** A rewritten row, even with trailing whitespace stripped, gets the same rewrite again. */
  lemma RenderKeepsKind(c: Config, allowed: seq<string>, line: string)
    ensures KindOf(RenderRow(c, allowed, line)) == KindOf(line)
    ensures KindOf(RStrip(RenderRow(c, allowed, line))) == KindOf(line)
  {
    match KindOf(line)
    case AddressKind => AddressRowKind(c.clientIpV4, c.clientIpV6);
    case DnsKind => DnsRowKind(c.dns);
    case AllowedKind => AllowedRowKind(allowed);
    case Verbatim => RStripKind(line);
  }

  lemma MatchAddressKind(line: string)
    requires MatchAddress(line).Some?
    ensures KindOf(line) == AddressKind
  {
    assert line[..7] == line[..|AddressPrefix|][..7];
  }

  lemma MatchDnsKind(line: string)
    requires MatchDns(line).Some?
    ensures KindOf(line) == DnsKind
  {
    assert line[..3] == line[..|DnsPrefix|][..3];
    NotStartsWith(line, "Address", 0);
  }

  /** What the row loop of the parse establishes about the fields the rewrites read. */
  predicate FieldsFromRows(c: Config)
  {
    && (c.clientIpV4, c.clientIpV6) == LastHit(c.rows, MatchAddress).GetOr(("", ""))
    && c.dns == LastHit(c.rows, MatchDns).GetOr([])
  }

  lemma ParseFieldsFromRows(t: string, n: string)
    ensures FieldsFromRows(Parse(t, n))
    ensures Parse(t, n).rows == Split(t, '\n')
  {
    var init := InitialConfig(t, n);
    LastMatchWins(init, init.rows);
  }

  /**
   * The Address line emitted for parsed fields matches the pattern exactly
   * when some row did, giving back the parsed addresses; it holds no newline.
   */
  lemma ParsedAddressRow(c: Config)
    requires FieldsFromRows(c)
    ensures MatchAddress(AddressRow(c.clientIpV4, c.clientIpV6)) == LastHit(c.rows, MatchAddress)
    ensures '\n' !in AddressRow(c.clientIpV4, c.clientIpV6)
  {
    var l := LastHit(c.rows, MatchAddress);
    if l.Some? {
      var j :| 0 <= j < |c.rows| && MatchAddress(c.rows[j]) == l;
      MatchAddressRow(c.rows[j]);
      MatchAddressSound(c.rows[j]);
      NoSpaceNoNewline(c.clientIpV4);
      NoSpaceNoNewline(c.clientIpV6);
    } else {
      EmptyAddressRowNoMatch();
    }
    AddressRowNoNewline(c.clientIpV4, c.clientIpV6);
  }

  /** The DNS line emitted from a matched list matches again, also with trailing whitespace stripped. */
  lemma DnsRowOfMatch(line: string)
    requires MatchDns(line).Some?
    ensures var d := MatchDns(line).value;
      && MatchDns(DnsRow(d)) == Some(d)
      && MatchDns(RStrip(DnsRow(d))) == Some(d)
      && '\n' !in DnsRow(d)
  {
    MatchDnsRow(line);
    var w := NonSpacePrefix(line[|DnsPrefix|..]);
    var d := Split(w, ',');
    JoinSplit(w, ',');
    assert DnsRow(d) == DnsPrefix + w;
    RStripNoTrail(DnsRow(d));
    NoSpaceNoNewline(w);
    assert '\n' !in DnsPrefix;
  }

  /** The DNS line emitted for an empty list does not match, stripped or not. */
  lemma EmptyDnsRowNoMatch()
    ensures MatchDns(DnsRow([])) == None
    ensures MatchDns(RStrip(DnsRow([]))) == None
    ensures '\n' !in DnsRow([])
  {
    assert DnsRow([]) == DnsPrefix;
    assert RStrip(DnsPrefix) == "DNS =";
  }

  /** The same for the DNS line of parsed fields. */
  lemma ParsedDnsRow(c: Config)
    requires FieldsFromRows(c)
    ensures MatchDns(DnsRow(c.dns)) == LastHit(c.rows, MatchDns)
    ensures MatchDns(RStrip(DnsRow(c.dns))) == LastHit(c.rows, MatchDns)
    ensures '\n' !in DnsRow(c.dns)
  {
    var l := LastHit(c.rows, MatchDns);
    if l.Some? {
      var j :| 0 <= j < |c.rows| && MatchDns(c.rows[j]) == l;
      DnsRowOfMatch(c.rows[j]);
    } else {
      EmptyDnsRowNoMatch();
    }
  }

  /** `m` hits in `rows` only with `l`, and hits somewhere when `l` is a hit: the last hit is `l`. */
  lemma LastHitAllSame<T>(rows: seq<string>, m: string -> Option<T>, l: Option<T>)
    requires forall i :: 0 <= i < |rows| && m(rows[i]).Some? ==> m(rows[i]) == l
    requires l.Some? ==> exists i :: 0 <= i < |rows| && m(rows[i]).Some?
    ensures LastHit(rows, m) == l
  {
    if l.Some? {
      var i :| 0 <= i < |rows| && m(rows[i]).Some?;
      LastHitSome(rows, m, i);
    }
  }

  /** The rows of the canonical text: the emitted lines up to the last with content, that one stripped. */
  function CanonicalRows(c: Config, a: seq<string>): seq<string>
  {
    var r := Rendered(c, a, c.rows);
    var k := LastContent(r);
    if k < 0 then [] else r[..k] + [RStrip(r[k])]
  }

  /** Row `i` of the canonical text: its emitted line, stripped when it is the last row. */
  lemma CanonicalRowAt(c: Config, a: seq<string>, i: int)
    requires 0 <= i < |CanonicalRows(c, a)|
    ensures var line := RenderRow(c, a, c.rows[i]);
      && i < |c.rows|
      && (i < |CanonicalRows(c, a)| - 1 ==> CanonicalRows(c, a)[i] == line)
      && (i == |CanonicalRows(c, a)| - 1 ==> CanonicalRows(c, a)[i] == RStrip(line))
      && KindOf(CanonicalRows(c, a)[i]) == KindOf(c.rows[i])
  {
    RenderedAt(c, a, c.rows, i);
    RenderKeepsKind(c, a, c.rows[i]);
  }

  /** A row matched by the Address or DNS pattern is rewritten to content, so it is kept. */
  lemma MatchedRowKept(c: Config, a: seq<string>, j: int)
    requires 0 <= j < |c.rows|
    requires KindOf(c.rows[j]) == AddressKind || KindOf(c.rows[j]) == DnsKind
    ensures j < |CanonicalRows(c, a)|
  {
    RenderedAt(c, a, c.rows, j);
    RewrittenHasContent(c, a, c.rows[j]);
  }

  lemma RewrittenHasContent(c: Config, a: seq<string>, line: string)
    requires KindOf(line) == AddressKind || KindOf(line) == DnsKind
    ensures !AllSpace(RenderRow(c, a, line))
  {
    var r := RenderRow(c, a, line);
    assert r[0] == 'A' || r[0] == 'D';
  }

  /** An Address match in the canonical rows gives the last Address match of the original rows. */
  lemma CanonicalAddressValue(c: Config, a: seq<string>, i: int)
    requires FieldsFromRows(c)
    requires 0 <= i < |CanonicalRows(c, a)| && MatchAddress(CanonicalRows(c, a)[i]).Some?
    ensures MatchAddress(CanonicalRows(c, a)[i]) == LastHit(c.rows, MatchAddress)
  {
    var row := CanonicalRows(c, a)[i];
    CanonicalRowAt(c, a, i);
    MatchAddressKind(row);
    ParsedAddressRow(c);
    RStripNoTrail(AddressRow(c.clientIpV4, c.clientIpV6));
  }

  /** A row of the original that matches the Address pattern is kept and matches again. */
  lemma CanonicalAddressKept(c: Config, a: seq<string>, i: int)
    requires FieldsFromRows(c)
    requires 0 <= i < |c.rows| && MatchAddress(c.rows[i]).Some?
    ensures i < |CanonicalRows(c, a)| && MatchAddress(CanonicalRows(c, a)[i]).Some?
  {
    MatchAddressKind(c.rows[i]);
    MatchedRowKept(c, a, i);
    CanonicalRowAt(c, a, i);
    ParsedAddressRow(c);
    LastHitSome(c.rows, MatchAddress, i);
    RStripNoTrail(AddressRow(c.clientIpV4, c.clientIpV6));
  }

  /** A DNS match in the canonical rows gives the last DNS match of the original rows. */
  lemma CanonicalDnsValue(c: Config, a: seq<string>, i: int)
    requires FieldsFromRows(c)
    requires 0 <= i < |CanonicalRows(c, a)| && MatchDns(CanonicalRows(c, a)[i]).Some?
    ensures MatchDns(CanonicalRows(c, a)[i]) == LastHit(c.rows, MatchDns)
  {
    var row := CanonicalRows(c, a)[i];
    CanonicalRowAt(c, a, i);
    MatchDnsKind(row);
    ParsedDnsRow(c);
  }

  /** A row of the original that matches the DNS pattern is kept and matches again. */
  lemma CanonicalDnsKept(c: Config, a: seq<string>, i: int)
    requires FieldsFromRows(c)
    requires 0 <= i < |c.rows| && MatchDns(c.rows[i]).Some?
    ensures i < |CanonicalRows(c, a)| && MatchDns(CanonicalRows(c, a)[i]).Some?
  {
    MatchDnsKind(c.rows[i]);
    MatchedRowKept(c, a, i);
    CanonicalRowAt(c, a, i);
    ParsedDnsRow(c);
    LastHitSome(c.rows, MatchDns, i);
  }

  /** Re-parsing the canonical rows sets the same addresses. */
  lemma ReparseSameAddress(c: Config, a: seq<string>, c': Config)
    requires FieldsFromRows(c) && FieldsFromRows(c')
    requires c'.rows == CanonicalRows(c, a)
    ensures c'.clientIpV4 == c.clientIpV4 && c'.clientIpV6 == c.clientIpV6
  {
    var rows' := c'.rows;
    var l := LastHit(c.rows, MatchAddress);
    forall i | 0 <= i < |rows'| && MatchAddress(rows'[i]).Some?
      ensures MatchAddress(rows'[i]) == l
    {
      CanonicalAddressValue(c, a, i);
    }
    if l.Some? {
      var j :| 0 <= j < |c.rows| && MatchAddress(c.rows[j]) == l;
      CanonicalAddressKept(c, a, j);
    }
    LastHitAllSame(rows', MatchAddress, l);
  }

  /** Re-parsing the canonical rows sets the same DNS list. */
  lemma ReparseSameDns(c: Config, a: seq<string>, c': Config)
    requires FieldsFromRows(c) && FieldsFromRows(c')
    requires c'.rows == CanonicalRows(c, a)
    ensures c'.dns == c.dns
  {
    var rows' := c'.rows;
    var l := LastHit(c.rows, MatchDns);
    forall i | 0 <= i < |rows'| && MatchDns(rows'[i]).Some?
      ensures MatchDns(rows'[i]) == l
    {
      CanonicalDnsValue(c, a, i);
    }
    if l.Some? {
      var j :| 0 <= j < |c.rows| && MatchDns(c.rows[j]) == l;
      CanonicalDnsKept(c, a, j);
    }
    LastHitAllSame(rows', MatchDns, l);
  }

  /** For a record whose first row starts with content, the canonical text is the canonical rows joined. */
  lemma CanonicalIsRows(c: Config, a: seq<string>)
    requires |c.rows| >= 1 && |c.rows[0]| >= 1 && !IsSpace(c.rows[0][0])
    ensures |CanonicalRows(c, a)| >= 1
    ensures Canonical(c, a) == Join(CanonicalRows(c, a), "\n")
  {
    var r := Rendered(c, a, c.rows);
    AccumulatedLines(c, a, c.rows);
    RenderedAt(c, a, c.rows, 0);
    assert |r[0]| >= 1 && !IsSpace(r[0][0]);
    var k := LastContent(r);
    assert k >= 0;
    StripLines(r, k);
  }

  /** An emitted line holds no newline when its row, the parsed fields and the allowed networks hold none. */
  lemma RenderRowNoNewline(c: Config, a: seq<string>, line: string)
    requires FieldsFromRows(c)
    requires '\n' !in line
    requires forall i :: 0 <= i < |a| ==> '\n' !in a[i]
    ensures '\n' !in RenderRow(c, a, line)
  {
    match KindOf(line)
    case AddressKind => ParsedAddressRow(c);
    case DnsKind => ParsedDnsRow(c);
    case AllowedKind =>
      JoinNoChar(a, ", ", '\n');
      assert '\n' !in "AllowedIPs = ";
    case Verbatim =>
  }

  /** A prefix of text without a newline has none either. */
  lemma PrefixNoNewline(s: string, n: int)
    requires 0 <= n <= |s| && '\n' !in s
    ensures '\n' !in s[..n]
  {
    assert forall x :: 0 <= x < n ==> s[..n][x] == s[x];
  }

  /** The rows of the canonical text hold no newline when no row and no allowed network does. */
  lemma CanonicalRowsNoNewline(c: Config, a: seq<string>)
    requires FieldsFromRows(c)
    requires forall i :: 0 <= i < |c.rows| ==> '\n' !in c.rows[i]
    requires forall i :: 0 <= i < |a| ==> '\n' !in a[i]
    ensures forall i :: 0 <= i < |CanonicalRows(c, a)| ==> '\n' !in CanonicalRows(c, a)[i]
  {
    var rows' := CanonicalRows(c, a);
    forall i | 0 <= i < |rows'|
      ensures '\n' !in rows'[i]
    {
      CanonicalRowAt(c, a, i);
      var line := RenderRow(c, a, c.rows[i]);
      RenderRowNoNewline(c, a, c.rows[i]);
      PrefixNoNewline(line, |rows'[i]|);
    }
  }

  /** Re-emitting the canonical rows with the same fields gives the same lines, the last one up to trailing whitespace. */
  lemma ReemitRows(c: Config, a: seq<string>, c': Config)
    requires c'.clientIpV4 == c.clientIpV4 && c'.clientIpV6 == c.clientIpV6 && c'.dns == c.dns
    requires c'.rows == CanonicalRows(c, a) && |c'.rows| >= 1
    ensures var r := Rendered(c, a, c.rows); var r' := Rendered(c', a, c'.rows); var k := |c'.rows| - 1;
      && k < |r| && r'[..k] == r[..k] && RStrip(r'[k]) == RStrip(r[k])
      && k == LastContent(r)
  {
    var r := Rendered(c, a, c.rows);
    var r' := Rendered(c', a, c'.rows);
    var k := |c'.rows| - 1;
    forall i | 0 <= i <= k
      ensures r'[i] == r[i] || (i == k && r'[i] == RStrip(r[i]))
    {
      CanonicalRowAt(c, a, i);
      RenderedAt(c, a, c.rows, i);
      RenderedAt(c', a, c'.rows, i);
    }
    RStripIdempotent(r[k]);
  }

  /**
   * Re-parsing and re-emitting the canonical rows gives the same text, when
   * the first row starts with content.
   */
  lemma CanonicalFixpoint(c: Config, a: seq<string>, c': Config)
    requires FieldsFromRows(c) && FieldsFromRows(c')
    requires |c.rows| >= 1 && |c.rows[0]| >= 1 && !IsSpace(c.rows[0][0])
    requires c'.rows == CanonicalRows(c, a)
    ensures Canonical(c', a) == Canonical(c, a)
  {
    CanonicalIsRows(c, a);
    ReparseSameAddress(c, a, c');
    ReparseSameDns(c, a, c');
    ReemitRows(c, a, c');
    var r := Rendered(c, a, c.rows);
    var r' := Rendered(c', a, c'.rows);
    var k := |c'.rows| - 1;
    assert !AllSpace(r'[k]);
    assert r'[0][0] == r[0][0];
    AccumulatedLines(c', a, c'.rows);
    StripLines(r', k);
  }

  /**
   * Re-canonicalising canonical text changes nothing, provided the text does
   * not start with whitespace (the final strip would otherwise remove it
   * from a verbatim first row) and no allowed network holds a newline.
   */
  lemma CanonicalIdempotent(t: string, n: string, a: seq<string>)
    requires t == [] || !IsSpace(t[0])
    requires forall i :: 0 <= i < |a| ==> '\n' !in a[i]
    ensures var once := Canonical(Parse(t, n), a);
      Canonical(Parse(once, n), a) == once
  {
    var c := Parse(t, n);
    ParseFieldsFromRows(t, n);
    var once := Canonical(c, a);
    if t == [] {
      assert c.rows == [""];
      assert Accumulated(c, a, c.rows) == "\n";
      assert RStrip("\n") == "";
      assert once == t;
    } else {
      assert c.rows[0][0] == t[0];
      CanonicalIsRows(c, a);
      CanonicalRowsNoNewline(c, a);
      var rows' := CanonicalRows(c, a);
      SplitJoin(rows', '\n');
      var c' := Parse(once, n);
      ParseFieldsFromRows(once, n);
      CanonicalFixpoint(c, a, c');
    }
  }

  // ------------------------------------------------------------------ classes

  /** The list of allowed networks that every builder shares. */
  class AllowedIps {
    var ips: seq<string>

    constructor ()
      ensures ips == DefaultAllowedIps
    {
      ips := DefaultAllowedIps;
    }
  }

  /** A builder over one parsed configuration, emitting it with the shared allowed networks. */
  class ConfigBuilder {
    const config: Config
    const allowed: AllowedIps

    constructor (text: string, name: string, allowed: AllowedIps)
      ensures config == Parse(text, name) && ConfigText(config) == text
      ensures this.allowed == allowed
    {
      var c := ParseConfig(text, name);
      config := c;
      this.allowed := allowed;
    }

    /** The canonical text, accumulated row by row and then stripped. */
    method CreateConfig() returns (s: string)
      ensures s == Canonical(config, allowed.ips)
    {
      var acc := "";
      var i := 0;
      while i < |config.rows|
        invariant 0 <= i <= |config.rows|
        invariant acc == Accumulated(config, allowed.ips, config.rows[..i])
      {
        var line := config.rows[i];
        if StartsWith(line, "Address") {
          acc := acc + AddressRow(config.clientIpV4, config.clientIpV6) + "\n";
        } else if StartsWith(line, "DNS") {
          acc := acc + DnsRow(config.dns) + "\n";
        } else if StartsWith(line, "AllowedIPs") {
          acc := acc + AllowedRow(allowed.ips) + "\n";
        } else {
          acc := acc + line + "\n";
        }
        assert config.rows[..i + 1][..i] == config.rows[..i];
        i := i + 1;
      }
      assert config.rows[..i] == config.rows;
      s := Strip(acc);
    }

    /** Appends to the shared list in place: every builder sharing it emits the longer list. */
    method AddAllowedIps(xs: seq<string>)
      modifies allowed
      ensures allowed.ips == old(allowed.ips) + xs
    {
      allowed.ips := allowed.ips + xs;
    }
  }

  /** After an addition, the AllowedIPs line lists the earlier networks first, then the added ones. */
  lemma AllowedRowAfterAdd(ips: seq<string>, xs: seq<string>)
    requires |ips| >= 1 && |xs| >= 1
    ensures AllowedRow(ips + xs) == AllowedRow(ips) + ", " + Join(xs, ", ")
  {
    JoinConcat(ips, xs, ", ");
  }
}
