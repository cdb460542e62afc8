/**
  How a name is read: its last label but an optional datacenter tells what to look up, and
  the labels before say which.
 */
module DnsLookups {
  import opened Basics
  import opened DnsExtra
  import opened DnsAddr
  import opened DnsAddrLaws

  predicate IsLabel(s: string) {
    s != "" && Dotless(s)
  }

  predicate Labels(labels: seq<string>) {
    forall i :: 0 <= i < |labels| ==> IsLabel(labels[i])
  }

  // ---- splitting a name gives back its labels ----

  lemma FirstLabel(front: string, x: string, rest: string)
    requires IsLabel(x) && rest != ""
    ensures var s := front + x + "." + rest;
            LabelsFrom(s, |front|, |front|) == [x] + LabelsFrom(s, |front| + |x| + 1, |front| + |x| + 1)
  {
    LabelInside(front, x, rest);
    OneLabel(front + x + "." + rest, |front|, |front| + |x|);
  }

  lemma OnlyLabel(front: string, x: string)
    requires IsLabel(x)
    ensures LabelsFrom(front + x + ".", |front|, |front|) == [x]
  {
    var s := front + x + ".";
    LabelInside(front, x, "");
    assert s == front + x + "." + "";
    LastLabel(s, |front|);
  }

  lemma {:induction false} SplitFrom(front: string, labels: seq<string>)
    requires labels != [] && Labels(labels)
    ensures LabelsFrom(front + Join(labels) + ".", |front|, |front|) == labels
    decreases |labels|
  {
    var x := labels[0];
    if |labels| == 1 {
      OnlyLabel(front, x);
    } else {
      var rest := Join(labels[1..]) + ".";
      FirstLabel(front, x, rest);
      SplitFrom(front + x + ".", labels[1..]);
      assert front + Join(labels) + "." == front + x + "." + rest == (front + x + ".") + Join(labels[1..]) + ".";
      assert labels == [x] + labels[1..];
    }
  }

  lemma SplitJoined(labels: seq<string>)
    requires labels != [] && Labels(labels)
    ensures SplitDomainName(Join(labels) + ".") == labels
  {
    SplitFrom("", labels);
    var s := Join(labels) + ".";
    assert "" + Join(labels) + "." == s;
    assert |s| > 1 by {
      JoinNotEmpty(labels);
    }
  }

  lemma JoinNotEmpty(labels: seq<string>)
    requires labels != [] && Labels(labels)
    ensures Join(labels) != ""
  {
    assert IsLabel(labels[0]);
  }

  /** A question is completed by at most a dot, and then ends in one that separates, unless a backslash ends it. */
  lemma QuestionIsCompleted(s: string)
    ensures s <= Fqdn(s) && |Fqdn(s)| <= |s| + 1 && (IsFqdn(s) ==> Fqdn(s) == s)
    ensures IsFqdn(Fqdn(s)) <==> Escapes(s, |s|) % 2 == 0
  {
    EscapesOfPrefix(s, ".", |s|);
  }

  lemma {:induction false} EscapesOfPrefix(s: string, rest: string, i: nat)
    requires i <= |s|
    ensures Escapes(s + rest, i) == Escapes(s, i)
  {
    if i > 0 {
      EscapesOfPrefix(s, rest, i - 1);
    }
  }

  // ---- both domains ----

  /** The server cuts this domain off the name, and not a longer one. */
  predicate Under(d: Server, domain: string, name: string) {
    || (domain == d.domain && !AltShadows(d, name))
    || (domain == d.altDomain && !(|d.domain| >= |d.altDomain| && HasSuffix(name, d.domain)))
  }

  lemma CutOff(d: Server, front: string, domain: string)
    requires Under(d, domain, front + domain)
    ensures TrimDomain(d, front + domain) == front
  {
  }

  /** A name under neither domain is read as it is. */
  lemma NothingCutOff(d: Server, name: string)
    requires !HasSuffix(name, d.domain) && !HasSuffix(name, d.altDomain)
    ensures TrimDomain(d, name) == name
  {
  }

  // ---- the labels ----

  /** Where to look: the datacenter of the name, or the server's own. */
  function Where(d: Server, dc: Option<string>): string {
    if dc.Some? then dc.value else d.datacenter
  }

  function NameLabels(body: seq<string>, kind: string, dc: Option<string>): seq<string> {
    body + [kind] + if dc.Some? then [dc.value] else []
  }

  lemma ParsedKind(body: seq<string>, kind: string, dc: string, dcParsed: bool, srv: bool, owner: string)
    requires kind in KEYWORDS
    ensures Parsed(body + [kind], dc, dcParsed, srv, owner) == Answered(body + [kind], dc, owner)
  {
  }

  lemma ParsedName(d: Server, body: seq<string>, kind: string, dc: Option<string>, srv: bool, owner: string)
    requires kind in KEYWORDS && (dc.Some? ==> DcReadable(dc.value, srv))
    ensures Parsed(NameLabels(body, kind, dc), d.datacenter, false, srv, owner)
         == Answered(body + [kind], Where(d, dc), owner)
  {
    if dc.Some? {
      var labels := body + [kind] + [dc.value];
      assert labels[..|labels| - 1] == body + [kind];
      ParsedKind(body, kind, dc.value, true, srv, owner);
    } else {
      assert body + [kind] + [] == body + [kind];
      ParsedKind(body, kind, d.datacenter, false, srv, owner);
    }
  }

  lemma LastIsKind(body: seq<string>, kind: string)
    ensures var labels := body + [kind]; labels[|labels| - 1] == kind && labels[..|labels| - 1] == body
  {
  }

  /** What each kind of name with the given labels before it stands for. */
  lemma AnsweredNode(body: seq<string>, dc: string, owner: string)
    requires body != []
    ensures Answered(body + ["node"], dc, owner) == NodeLookup(dc, Join(body))
  {
    LastIsKind(body, "node");
  }

  lemma AnsweredQuery(body: seq<string>, dc: string, owner: string)
    requires body != []
    ensures Answered(body + ["query"], dc, owner) == QueryLookup(dc, Join(body))
  {
    LastIsKind(body, "query");
  }

  lemma AnsweredConnect(body: seq<string>, dc: string, owner: string)
    requires body != []
    ensures Answered(body + ["connect"], dc, owner) == ServiceLookup(dc, body[|body| - 1], "", true)
  {
  }

  /** The syntax of RFC 2782: both labels start with an underscore. */
  predicate Rfc2782(body: seq<string>) {
    |body| == 2 && Underscored(body[0]) && Underscored(body[1])
  }

  lemma AnsweredService(body: seq<string>, dc: string, owner: string)
    requires body != []
    ensures Answered(body + ["service"], dc, owner)
         == if Rfc2782(body)
            then ServiceLookup(dc, body[0][1..], if body[1] == "_tcp" then "" else body[1][1..], false)
            else ServiceLookup(dc, body[|body| - 1], Join(body[..|body| - 1]), false)
  {
    var labels := body + ["service"];
    assert labels[..|labels| - 2] == body[..|body| - 1];
    if Rfc2782(body) {
      assert body[1] == "_" + body[1][1..];
      assert body[1] == "_tcp" <==> body[1][1..] == "tcp" by {
        assert "_" + "tcp" == "_tcp";
        assert "_tcp"[1..] == "tcp";
      }
    }
  }

  // ---- whole questions ----

  /** The question, in any spelling, is the name of these labels under one of the domains. */
  ghost predicate Asks(d: Server, question: string, labels: seq<string>, domain: string) {
    && labels != [] && Labels(labels)
    && Lower(Fqdn(question)) == Join(labels) + "." + domain
    && Under(d, domain, Join(labels) + "." + domain)
  }

  lemma AskedLabels(d: Server, question: string, labels: seq<string>, domain: string, srv: bool)
    requires Asks(d, question, labels, domain)
    ensures Dispatch(d, question, srv)
         == Parsed(labels, d.datacenter, false, srv, Join(labels) + "." + d.domain)
  {
    CutOff(d, Join(labels) + ".", domain);
    SplitJoined(labels);
  }

  /**
    Node, query and connect names, with or without a datacenter: the lookup goes to that
    datacenter or the server's own, for the labels before the kind.
   */
  lemma NamesAreLookedUp(d: Server, question: string, body: seq<string>, kind: string, dc: Option<string>,
                         domain: string, srv: bool)
    requires body != [] && (dc.Some? ==> DcReadable(dc.value, srv))
    requires Asks(d, question, NameLabels(body, kind, dc), domain)
    ensures kind == "node" ==> Dispatch(d, question, srv) == NodeLookup(Where(d, dc), Join(body))
    ensures kind == "query" ==> Dispatch(d, question, srv) == QueryLookup(Where(d, dc), Join(body))
    ensures kind == "connect" ==>
              Dispatch(d, question, srv) == ServiceLookup(Where(d, dc), body[|body| - 1], "", true)
  {
    AskedLabels(d, question, NameLabels(body, kind, dc), domain, srv);
    var owner := Join(NameLabels(body, kind, dc)) + "." + d.domain;
    if kind in KEYWORDS {
      ParsedName(d, body, kind, dc, srv, owner);
    }
    AnsweredNode(body, Where(d, dc), owner);
    AnsweredQuery(body, Where(d, dc), owner);
    AnsweredConnect(body, Where(d, dc), owner);
  }

  /** A service name: the service is the last label, and the others its tag, dots included. */
  lemma ServicesAreLookedUp(d: Server, question: string, tags: seq<string>, service: string, dc: Option<string>,
                            domain: string, srv: bool)
    requires !Rfc2782(tags + [service]) && (dc.Some? ==> DcReadable(dc.value, srv))
    requires Asks(d, question, NameLabels(tags + [service], "service", dc), domain)
    ensures Dispatch(d, question, srv) == ServiceLookup(Where(d, dc), service, Join(tags), false)
  {
    var body := tags + [service];
    AskedLabels(d, question, NameLabels(body, "service", dc), domain, srv);
    ParsedName(d, body, "service", dc, srv, Join(NameLabels(body, "service", dc)) + "." + d.domain);
    AnsweredService(body, Where(d, dc), Join(NameLabels(body, "service", dc)) + "." + d.domain);
    assert body[..|body| - 1] == tags;
  }

  /** The syntax of RFC 2782 names the service first; a protocol other than TCP is a tag. */
  lemma Rfc2782IsLookedUp(d: Server, question: string, service: string, proto: string, dc: Option<string>,
                          domain: string, srv: bool)
    requires dc.Some? ==> DcReadable(dc.value, srv)
    requires Asks(d, question, NameLabels(["_" + service, "_" + proto], "service", dc), domain)
    ensures Dispatch(d, question, srv)
         == ServiceLookup(Where(d, dc), service, if proto == "tcp" then "" else proto, false)
  {
    var body := ["_" + service, "_" + proto];
    AskedLabels(d, question, NameLabels(body, "service", dc), domain, srv);
    ParsedName(d, body, "service", dc, srv, Join(NameLabels(body, "service", dc)) + "." + d.domain);
    AnsweredService(body, Where(d, dc), Join(NameLabels(body, "service", dc)) + "." + d.domain);
    assert body[0][1..] == service && body[1][1..] == proto;
    assert "_tcp"[1..] == "tcp";
  }

  /** In an SRV query that syntax may leave out the kind. */
  lemma SrvMayOmitKind(d: Server, question: string, service: string, proto: string, domain: string)
    requires Asks(d, question, ["_" + service, "_" + proto], domain)
    ensures Dispatch(d, question, true)
         == ServiceLookup(d.datacenter, service, if proto == "tcp" then "" else proto, false)
  {
    var body := ["_" + service, "_" + proto];
    AskedLabels(d, question, body, domain, true);
    AnsweredService(body, d.datacenter, Join(body) + "." + d.domain);
    assert body[0][1..] == service && body[1][1..] == proto;
    assert "_tcp"[1..] == "tcp";
  }

  /** A kind alone, or two labels that could both be a datacenter, name nothing. */
  lemma NothingIsNamed(d: Server, question: string, labels: seq<string>, domain: string, srv: bool)
    requires Asks(d, question, labels, domain)
    requires var n := |labels|;
             || (n == 1 && labels[0] in KEYWORDS)
             || (n == 1 && DcReadable(labels[0], srv))
             || (n == 2 && labels[0] in KEYWORDS && DcReadable(labels[1], srv))
             || (n >= 2 && DcReadable(labels[n - 1], srv) && DcReadable(labels[n - 2], srv))
    ensures Dispatch(d, question, srv) == Invalid
  {
    AskedLabels(d, question, labels, domain, srv);
    var n := |labels|;
    if n >= 2 && DcReadable(labels[n - 1], srv) {
      assert labels[..n - 1][n - 2] == labels[n - 2];
    }
  }
}
