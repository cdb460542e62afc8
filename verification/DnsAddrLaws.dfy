/** A query for a generated address name is answered with exactly that address. */
module DnsAddrLaws {
  import opened Basics
  import opened DnsExtra
  import opened DnsAddr

  predicate Dotless(s: string) {
    forall i :: 0 <= i < |s| ==> s[i] != '.' && s[i] != '\\'
  }

  // ---- splitting ----

  lemma {:induction false} SkipsPlain(s: string, begin: nat, i: nat, k: nat)
    requires s != "" && begin <= i <= k <= |s| - 1
    requires forall j :: i <= j < k ==> s[j] != '.'
    ensures LabelsFrom(s, begin, i) == LabelsFrom(s, begin, k)
    decreases k - i
  {
    if i < k {
      SkipsPlain(s, begin, i + 1, k);
    }
  }

  /** The characters between two positions form a label. */
  predicate LabelAt(s: string, begin: int, k: int) {
    0 <= begin < k < |s| && s[k] == '.' && forall j :: begin <= j < k ==> s[j] != '.' && s[j] != '\\'
  }

  /** One label and its dot are split off the front. */
  lemma OneLabel(s: string, begin: nat, k: nat)
    requires LabelAt(s, begin, k) && k < |s| - 1
    ensures LabelsFrom(s, begin, begin) == [s[begin..k]] + LabelsFrom(s, k + 1, k + 1)
  {
    SkipsPlain(s, begin, begin, k);
  }

  lemma LastLabel(s: string, begin: nat)
    requires LabelAt(s, begin, |s| - 1)
    ensures LabelsFrom(s, begin, begin) == [s[begin..|s| - 1]]
  {
    SkipsPlain(s, begin, begin, |s| - 1);
  }

  lemma SplitAtDots(s: string, p: nat, q: nat)
    requires LabelAt(s, 0, p) && LabelAt(s, p + 1, q) && LabelAt(s, q + 1, |s| - 1)
    ensures SplitDomainName(s) == [s[0..p], s[p + 1..q], s[q + 1..|s| - 1]]
  {
    OneLabel(s, 0, p);
    OneLabel(s, p + 1, q);
    LastLabel(s, q + 1);
  }

  lemma LabelInside(front: string, x: string, rest: string)
    requires x != "" && Dotless(x)
    ensures var s := front + x + "." + rest;
            var k := |front| + |x|;
            LabelAt(s, |front|, k) && s[|front|..k] == x
  {
    var s := front + x + "." + rest;
    assert forall j :: |front| <= j < |front| + |x| ==> s[j] == x[j - |front|];
  }

  lemma ThreeLabels(a: string, b: string, c: string)
    requires a != "" && b != "" && c != "" && Dotless(a) && Dotless(b) && Dotless(c)
    ensures SplitDomainName(a + "." + b + "." + c + ".") == [a, b, c]
  {
    var s := a + "." + b + "." + c + ".";
    var p, q := |a|, |a| + 1 + |b|;
    assert LabelAt(s, 0, p) && s[0..p] == a by {
      LabelInside("", a, b + "." + c + ".");
      assert "" + a + "." + (b + "." + c + ".") == s;
    }
    assert LabelAt(s, p + 1, q) && s[p + 1..q] == b by {
      LabelInside(a + ".", b, c + ".");
      assert (a + ".") + b + "." + (c + ".") == s;
    }
    assert LabelAt(s, q + 1, |s| - 1) && s[q + 1..|s| - 1] == c by {
      LabelInside(a + "." + b + ".", c, "");
      assert (a + "." + b + ".") + c + "." + "" == s;
    }
    SplitAtDots(s, p, q);
  }

  // ---- trimming the domain ----

  /** The alternate domain is longer than the domain and is a suffix of the name. */
  predicate AltShadows(d: Server, name: string) {
    |d.altDomain| > |d.domain| && HasSuffix(name, d.altDomain)
  }

  lemma TrimmedName(d: Server, front: string)
    ensures !AltShadows(d, front + d.domain) ==> TrimDomain(d, front + d.domain) == front
    ensures AltShadows(d, front + d.domain) ==> |TrimDomain(d, front + d.domain)| < |front|
  {
  }

  // ---- dispatch ----

  lemma {:induction false} OwnerOfAnswer(labels: seq<string>, dc: string, dcParsed: bool, srv: bool, owner: string)
    ensures var r := Parsed(labels, dc, dcParsed, srv, owner); r.A? || r.AAAA? ==> r.name == owner
    decreases |labels|
  {
  }

  /** The datacenter label can be told from a query type. */
  predicate DcReadable(dc: string, srv: bool) {
    dc !in KEYWORDS && !(srv && Underscored(dc))
  }

  lemma AddrLabels(hex: string, dc: string, dc0: string, srv: bool, owner: string)
    requires hex != "" && !Underscored(hex)
    ensures DcReadable(dc, srv) ==> Parsed([hex, "addr", dc], dc0, false, srv, owner) == AddressAnswer(hex, owner)
    ensures !DcReadable(dc, srv) ==> var r := Parsed([hex, "addr", dc], dc0, false, srv, owner); !r.A? && !r.AAAA?
  {
  }

  lemma PlainIsDotless(s: string)
    requires Plain(s)
    ensures Dotless(s)
  {
  }

  /** Where the trimmed name is the three labels, they are parsed as such. */
  lemma ParsedLabels(d: Server, hex: string, dc: string, srv: bool, owner: string)
    requires hex != "" && Plain(hex) && !Underscored(hex) && dc != "" && Plain(dc)
    ensures var r := Parsed(SplitDomainName(hex + "." + "addr" + "." + dc + "."), d.datacenter, false, srv, owner);
            if DcReadable(dc, srv) then r == AddressAnswer(hex, owner) else !r.A? && !r.AAAA?
  {
    PlainIsDotless(hex);
    PlainIsDotless(dc);
    ThreeLabels(hex, "addr", dc);
    AddrLabels(hex, dc, d.datacenter, srv, owner);
  }

  /** Where more was trimmed, an answer would be for a shorter name. */
  lemma ShadowedAnswer(d: Server, front: string, srv: bool)
    requires AltShadows(d, front + d.domain)
    ensures var qName := TrimDomain(d, front + d.domain);
            var r := Parsed(SplitDomainName(qName), d.datacenter, false, srv, qName + d.domain);
            !((r.A? || r.AAAA?) && r.name == front + d.domain)
  {
    var qName := TrimDomain(d, front + d.domain);
    TrimmedName(d, front);
    OwnerOfAnswer(SplitDomainName(qName), d.datacenter, false, srv, qName + d.domain);
    assert |qName + d.domain| < |front + d.domain|;
  }

  lemma DispatchAddr(d: Server, hex: string, dc: string, question: string, srv: bool)
    requires hex != "" && Plain(hex) && !Underscored(hex) && dc != "" && Plain(dc)
    requires Lower(Fqdn(question)) == AddrName(hex, dc, d.domain)
    ensures var name := AddrName(hex, dc, d.domain);
            var r := Dispatch(d, question, srv);
            if DcReadable(dc, srv) && !AltShadows(d, name) then r == AddressAnswer(hex, name)
            else !((r.A? || r.AAAA?) && r.name == name)
  {
    var name := AddrName(hex, dc, d.domain);
    var front := hex + "." + "addr" + "." + dc + ".";
    assert name == front + d.domain;
    if AltShadows(d, name) {
      ShadowedAnswer(d, front, srv);
    } else {
      TrimmedName(d, front);
      ParsedLabels(d, hex, dc, srv, name);
    }
  }

  /** Two digits make a byte of their values only. */
  lemma PairOfValues(hi: char, lo: char, h: nat, l: nat)
    requires h < 16 && l < 16
    ensures HexPair(hi, lo) == Some(16 * h + l) <==> HexValue(hi) == Some(h) && HexValue(lo) == Some(l)
  {
  }

  /** A pair of digits, in either case, is a byte exactly if it is that byte's encoding. */
  lemma PairIsExact(hi: char, lo: char, b: byte)
    ensures HexPair(hi, lo) == Some(b)
            <==> LowerChar(hi) == HexDigit(b / 16) && LowerChar(lo) == HexDigit(b % 16)
  {
    var h: nat, l: nat := b / 16, b % 16;
    assert b == 16 * h + l;
    PairOfValues(hi, lo, h, l);
    DigitIsExact(hi, h);
    DigitIsExact(lo, l);
  }

  lemma DigitIsExact(c: char, n: nat)
    requires n < 16
    ensures HexValue(c) == Some(n) <==> LowerChar(c) == HexDigit(n)
  {
  }

  /** A text decodes to some bytes exactly if it is their encoding in either case. */
  lemma {:induction false} HexIsExact(s: string, bs: seq<byte>)
    ensures HexDecode(s) == Some(bs) <==> Lower(s) == HexEncode(bs)
    decreases |s|
  {
    if |s| >= 2 && bs != [] {
      var e, l := HexEncode(bs), Lower(s);
      PairIsExact(s[0], s[1], bs[0]);
      HexIsExact(s[2..], bs[1..]);
      assert e == [HexDigit(bs[0] / 16), HexDigit(bs[0] % 16)] + HexEncode(bs[1..]);
      assert l == [LowerChar(s[0]), LowerChar(s[1])] + Lower(s[2..]);
      assert e[2..] == HexEncode(bs[1..]) && l[2..] == Lower(s[2..]);
      assert l == e <==> l[0] == e[0] && l[1] == e[1] && l[2..] == e[2..];
      assert [bs[0]] + bs[1..] == bs;
    }
  }

  /** An address label is answered exactly with the 4 or 16 bytes it encodes; others of that length are invalid. */
  lemma AddressIsExact(hex: string, owner: string, ip: seq<byte>)
    ensures AddressAnswer(hex, owner) == A(owner, ip) <==> |ip| == 4 && Lower(hex) == HexEncode(ip)
    ensures AddressAnswer(hex, owner) == AAAA(owner, ip) <==> |ip| == 16 && Lower(hex) == HexEncode(ip)
    ensures AddressAnswer(hex, owner) == Nothing <==> |hex| !in {8, 9, 32, 33}
  {
    HexIsExact(hex, ip);
  }

  lemma HexNotUnderscored(bs: seq<byte>)
    requires bs != []
    ensures HexEncode(bs) != "" && !Underscored(HexEncode(bs))
  {
  }

  /**
    Every IPv4 service address, stored in 4 or 16 bytes, comes back from the name
    made of it, if and only if the datacenter label is neither a query type nor, in
    an SRV query, starts with an underscore, and the alternate domain is not a
    longer suffix of the name.
   */
  lemma V4RoundTrip(d: Server, a: seq<byte>, dc: string, question: string, srv: bool)
    requires |a| == 4 || |a| == 16
    requires dc != "" && Plain(dc) && Lower(Fqdn(question)) == TargetV4(a, dc, d.domain)
    ensures var name := TargetV4(a, dc, d.domain);
            Dispatch(d, question, srv) == A(name, a[|a| - 4..]) <==> DcReadable(dc, srv) && !AltShadows(d, name)
  {
    var last := a[|a| - 4..];
    assert a == a[..|a| - 4] + last;
    HexAppend(a[..|a| - 4], last);
    var hex := HexEncode(last);
    assert HexEncode(a)[|HexEncode(a)| - 8..] == hex;
    HexIsPlain(last);
    HexNotUnderscored(last);
    HexRoundTrip(last);
    DispatchAddr(d, hex, dc, question, srv);
  }

  /** The same for every IPv6 service address. */
  lemma V6RoundTrip(d: Server, aaaa: seq<byte>, dc: string, question: string, srv: bool)
    requires |aaaa| == 16
    requires dc != "" && Plain(dc) && Lower(Fqdn(question)) == TargetV6(aaaa, dc, d.domain)
    ensures var name := TargetV6(aaaa, dc, d.domain);
            Dispatch(d, question, srv) == AAAA(name, aaaa) <==> DcReadable(dc, srv) && !AltShadows(d, name)
  {
    HexIsPlain(aaaa);
    HexNotUnderscored(aaaa);
    HexRoundTrip(aaaa);
    DispatchAddr(d, HexEncode(aaaa), dc, question, srv);
  }

  // ---- the name itself is such a question ----

  lemma {:induction false} EscapesOfTail(front: string, s: string, i: nat)
    requires i <= |s| && (front == "" || front[|front| - 1] != '\\')
    ensures Escapes(front + s, |front| + i) == Escapes(s, i)
  {
    if i > 0 {
      EscapesOfTail(front, s, i - 1);
    }
  }

  /** For a lower-case domain with its final dot, the generated name is a fixed point of the query normalisation. */
  lemma NameIsNormal(hex: string, dc: string, domain: string)
    requires Plain(hex) && Plain(dc) && Lower(domain) == domain && IsFqdn(domain)
    ensures Lower(Fqdn(AddrName(hex, dc, domain))) == AddrName(hex, dc, domain)
  {
    var front := hex + ".addr." + dc + ".";
    var name := front + domain;
    assert name == AddrName(hex, dc, domain);
    EscapesOfTail(front, domain, |domain| - 1);
    assert IsFqdn(name);
    forall i | 0 <= i < |name| ensures LowerChar(name[i]) == name[i] {
      if i >= |front| {
        assert name[i] == domain[i - |front|] && Lower(domain)[i - |front|] == LowerChar(domain[i - |front|]);
      } else if i < |hex| {
        assert name[i] == hex[i];
      } else if i < |hex| + 6 {
        assert name[i] == ".addr."[i - |hex|];
      } else if i < |front| - 1 {
        assert name[i] == dc[i - |hex| - 6];
      }
    }
    assert Lower(name) == name;
  }
}
