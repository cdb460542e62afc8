/**
  Service addresses in SRV targets: an address that is not the node's own is handed
  out as a name "<hex>.addr.<datacenter>.<domain>", and a query for that name is
  answered by decoding the first label.
 */
module DnsAddr {
  import opened Basics
  import opened DnsExtra

  // ---- hexadecimal ----

  function HexDigit(n: nat): char
    requires n < 16
  {
    "0123456789abcdef"[n]
  }

  function HexValue(c: char): (r: Option<nat>)
    ensures r.Some? ==> r.value < 16
  {
    if '0' <= c <= '9' then Some((c - '0') as nat)
    else if 'a' <= c <= 'f' then Some((c - 'a') as nat + 10)
    else if 'A' <= c <= 'F' then Some((c - 'A') as nat + 10)
    else None
  }

  function HexEncode(bs: seq<byte>): (s: string)
    ensures |s| == 2 * |bs|
  {
    if bs == [] then "" else [HexDigit(bs[0] / 16), HexDigit(bs[0] % 16)] + HexEncode(bs[1..])
  }

  function HexPair(hi: char, lo: char): Option<byte> {
    match (HexValue(hi), HexValue(lo))
    case (Some(h), Some(l)) => Some(16 * h + l)
    case _ => None
  }

  function HexDecode(s: string): Option<seq<byte>> {
    if s == "" then Some([])
    else if |s| == 1 then None
    else
      match (HexPair(s[0], s[1]), HexDecode(s[2..]))
      case (Some(b), Some(rest)) => Some([b] + rest)
      case _ => None
  }

  lemma DigitRoundTrip(n: nat)
    requires n < 16
    ensures HexValue(HexDigit(n)) == Some(n)
    ensures PlainChar(HexDigit(n))
  {
  }

  lemma PairRoundTrip(b: byte)
    ensures HexPair(HexDigit(b / 16), HexDigit(b % 16)) == Some(b)
  {
    DigitRoundTrip(b / 16);
    DigitRoundTrip(b % 16);
  }

  lemma {:induction false} HexRoundTrip(bs: seq<byte>)
    ensures HexDecode(HexEncode(bs)) == Some(bs)
    decreases |bs|
  {
    if bs != [] {
      var s := HexEncode(bs);
      assert s[0] == HexDigit(bs[0] / 16) && s[1] == HexDigit(bs[0] % 16) && s[2..] == HexEncode(bs[1..]);
      PairRoundTrip(bs[0]);
      HexRoundTrip(bs[1..]);
      assert [bs[0]] + bs[1..] == bs;
    }
  }

  lemma {:induction false} HexAppend(a: seq<byte>, b: seq<byte>)
    ensures HexEncode(a + b) == HexEncode(a) + HexEncode(b)
    decreases |a|
  {
    if a == [] {
      assert a + b == b;
    } else {
      assert (a + b)[0] == a[0] && (a + b)[1..] == a[1..] + b;
      HexAppend(a[1..], b);
    }
  }

  lemma {:induction false} HexIsPlain(bs: seq<byte>)
    ensures Plain(HexEncode(bs))
    decreases |bs|
  {
    if bs != [] {
      DigitRoundTrip(bs[0] / 16);
      DigitRoundTrip(bs[0] % 16);
      HexIsPlain(bs[1..]);
    }
  }

  // ---- names ----

  /** The characters of a datacenter name. */
  predicate PlainChar(c: char) {
    'a' <= c <= 'z' || '0' <= c <= '9' || c == '-' || c == '_'
  }

  predicate Plain(s: string) {
    forall i :: 0 <= i < |s| ==> PlainChar(s[i])
  }

  /** The number of backslashes right before position `i`. */
  function Escapes(s: string, i: nat): nat
    requires i <= |s|
  {
    if i > 0 && s[i - 1] == '\\' then 1 + Escapes(s, i - 1) else 0
  }

  predicate IsFqdn(s: string) {
    s != "" && s[|s| - 1] == '.' && Escapes(s, |s| - 1) % 2 == 0
  }

  function Fqdn(s: string): string {
    if IsFqdn(s) then s else s + "."
  }

  /** A dot that separates two labels: not escaped and not the last character. */
  predicate Separates(s: string, i: nat)
    requires i < |s|
  {
    s[i] == '.' && i < |s| - 1 && Escapes(s, i) % 2 == 0
  }

  function LabelsFrom(s: string, begin: nat, i: nat): seq<string>
    requires s != "" && begin <= i && begin < |s|
    decreases |s| - i
  {
    if i >= |s| - 1 then [if IsFqdn(s) then s[begin..|s| - 1] else s[begin..]]
    else if Separates(s, i) then [s[begin..i]] + LabelsFrom(s, i + 1, i + 1)
    else LabelsFrom(s, begin, i + 1)
  }

  function SplitDomainName(s: string): seq<string> {
    if s == "" || s == "." then [] else LabelsFrom(s, 0, 0)
  }

  predicate HasSuffix(s: string, suffix: string) {
    |suffix| <= |s| && s[|s| - |suffix|..] == suffix
  }

  function TrimSuffix(s: string, suffix: string): string {
    if HasSuffix(s, suffix) then s[..|s| - |suffix|] else s
  }

  /** Both domains are lower case and end with a dot; the alternate one is "." if not set. */
  datatype Server = Server(domain: string, altDomain: string, datacenter: string)

  function TrimDomain(d: Server, query: string): string {
    var (longer, shorter) := if |d.altDomain| > |d.domain| then (d.altDomain, d.domain) else (d.domain, d.altDomain);
    if HasSuffix(query, longer) then TrimSuffix(query, longer) else TrimSuffix(query, shorter)
  }

  // ---- dispatch ----

  /** What a query is answered with; lookups go on to the catalog. */
  datatype Outcome =
    | Invalid
    | Nothing
    | A(name: string, ip: seq<byte>)
    | AAAA(name: string, ip: seq<byte>)
    | ServiceLookup(datacenter: string, service: string, tag: string, connect: bool)
    | NodeLookup(datacenter: string, node: string)
    | QueryLookup(datacenter: string, query: string)

  function Join(labels: seq<string>): string {
    if labels == [] then "" else if |labels| == 1 then labels[0] else labels[0] + "." + Join(labels[1..])
  }

  function AddressAnswer(hex: string, owner: string): Outcome {
    if |hex| / 2 == 4 then
      match HexDecode(hex) case None => Invalid case Some(ip) => A(owner, ip)
    else if |hex| / 2 == 16 then
      match HexDecode(hex) case None => Invalid case Some(ip) => AAAA(owner, ip)
    else Nothing
  }

  predicate Underscored(s: string) {
    s != "" && s[0] == '_'
  }

  function ServiceQuery(labels: seq<string>, dc: string): Outcome
    requires |labels| >= 2
  {
    var n := |labels|;
    if n == 3 && Underscored(labels[1]) && Underscored(labels[0]) then
      ServiceLookup(dc, labels[0][1..], if labels[1][1..] == "tcp" then "" else labels[1][1..], false)
    else ServiceLookup(dc, labels[n - 2], if n >= 3 then Join(labels[..n - 2]) else "", false)
  }

  const KEYWORDS := {"service", "connect", "node", "query", "addr"}

  /** The answer of a name whose last label is a query type. */
  function Answered(labels: seq<string>, dc: string, owner: string): Outcome
    requires labels != []
  {
    var n := |labels|;
    var kind := labels[n - 1];
    if kind == "addr" then if n != 2 then Invalid else AddressAnswer(labels[0], owner)
    else if n == 1 then Invalid
    else if kind == "service" then ServiceQuery(labels, dc)
    else if kind == "connect" then ServiceLookup(dc, labels[n - 2], "", true)
    else if kind == "node" then NodeLookup(dc, Join(labels[..n - 1]))
    else QueryLookup(dc, Join(labels[..n - 1]))
  }

  /** The labels read from the end: an optional datacenter, then the query type. */
  function Parsed(labels: seq<string>, dc: string, dcParsed: bool, srv: bool, owner: string): Outcome
    decreases |labels|, if dcParsed then 0 else 1
  {
    if labels == [] then Invalid
    else if srv && Underscored(labels[|labels| - 1]) then Answered(labels + ["service"], dc, owner)
    else if labels[|labels| - 1] in KEYWORDS then Answered(labels, dc, owner)
    else if dcParsed then Invalid
    else Parsed(labels[..|labels| - 1], labels[|labels| - 1], true, srv, owner)
  }

  function Dispatch(d: Server, question: string, srv: bool): Outcome {
    var qName := TrimDomain(d, Lower(Fqdn(question)));
    Parsed(SplitDomainName(qName), d.datacenter, false, srv, qName + d.domain)
  }

  method DoDispatch(d: Server, question: string, srv: bool) returns (r: Outcome)
    ensures r == Dispatch(d, question, srv)
  {
    var datacenter := d.datacenter;
    var qName := TrimDomain(d, Lower(Fqdn(question)));
    var labels := SplitDomainName(qName);
    var dcParsed := false;
    while true
      invariant Parsed(labels, datacenter, dcParsed, srv, qName + d.domain) == Dispatch(d, question, srv)
      decreases |labels|
    {
      if labels == [] {
        return Invalid;
      }
      if srv && Underscored(labels[|labels| - 1]) {
        labels := labels + ["service"];
        return Answered(labels, datacenter, qName + d.domain);
      }
      if labels[|labels| - 1] in KEYWORDS {
        return Answered(labels, datacenter, qName + d.domain);
      }
      if dcParsed {
        return Invalid;
      }
      dcParsed := true;
      datacenter := labels[|labels| - 1];
      labels := labels[..|labels| - 1];
    }
  }

  // ---- the targets handed out ----

  function AddrName(hex: string, dc: string, domain: string): string {
    hex + ".addr." + dc + "." + domain
  }

  /** An IPv4 address may be stored in 16 bytes; only the last 8 hex digits are used. */
  function TargetV4(a: seq<byte>, dc: string, domain: string): string
    requires |a| >= 4
  {
    var hex := HexEncode(a);
    AddrName(hex[|hex| - 8..], dc, domain)
  }

  function TargetV6(aaaa: seq<byte>, dc: string, domain: string): string {
    AddrName(HexEncode(aaaa), dc, domain)
  }
}
