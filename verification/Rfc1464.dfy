/**
  Node metadata as TXT records: "name=value" with the grave accent as quoting
  character, and the decoder that section 2 of RFC 1464 describes.
 */
module Rfc1464 {
  import opened Basics

  // ---- the encoder ----

  function Replace(s: string, c: char, w: string): string {
    if s == "" then "" else (if s[0] == c then w else [s[0]]) + Replace(s[1..], c, w)
  }

  function Repeat(w: string, n: nat): string {
    if n == 0 then "" else w + Repeat(w, n - 1)
  }

  function LeadingSpaces(s: string): (n: nat)
    ensures n <= |s|
  {
    if s != "" && s[0] == ' ' then 1 + LeadingSpaces(s[1..]) else 0
  }

  function TrailingSpaces(s: string): (n: nat)
    ensures n <= |s|
  {
    if s != "" && s[|s| - 1] == ' ' then 1 + TrailingSpaces(s[..|s| - 1]) else 0
  }

  /** Grave accents and equals signs first, then leading spaces, then trailing ones. */
  function EncodeKey(key: string): string {
    QuoteTrailing(QuoteLeading(Replace(Replace(key, '`', "``"), '=', "`=")))
  }

  function QuoteLeading(s: string): string {
    Repeat("` ", LeadingSpaces(s)) + s[LeadingSpaces(s)..]
  }

  function QuoteTrailing(s: string): string {
    s[..|s| - TrailingSpaces(s)] + Repeat("` ", TrailingSpaces(s))
  }

  function Encode(key: string, value: string): string {
    EncodeKey(key) + "=" + Replace(value, '`', "``")
  }

  // ---- the decoder ----

  /** A character and whether a grave accent quoted it. */
  datatype Token = Token(c: char, quoted: bool)

  function Tokens(s: string): seq<Token> {
    if s == "" then []
    else if s[0] == '`' && |s| >= 2 then [Token(s[1], true)] + Tokens(s[2..])
    else [Token(s[0], false)] + Tokens(s[1..])
  }

  datatype Split = NoDelimiter | Split(name: seq<Token>, value: string)

  /** The first unquoted equals sign ends the name. */
  function SplitName(s: string): Split {
    if s == "" then NoDelimiter
    else if s[0] == '`' && |s| >= 2 then
      match SplitName(s[2..])
      case NoDelimiter => NoDelimiter
      case Split(name, value) => Split([Token(s[1], true)] + name, value)
    else if s[0] == '=' then Split([], s[1..])
    else
      match SplitName(s[1..])
      case NoDelimiter => NoDelimiter
      case Split(name, value) => Split([Token(s[0], false)] + name, value)
  }

  predicate Blank(t: Token) {
    !t.quoted && (t.c == ' ' || t.c == '\t')
  }

  function StripLeft(ts: seq<Token>): (r: seq<Token>)
    ensures |r| <= |ts|
  {
    if ts != [] && Blank(ts[0]) then StripLeft(ts[1..]) else ts
  }

  function StripRight(ts: seq<Token>): (r: seq<Token>)
    ensures |r| <= |ts|
  {
    if ts != [] && Blank(ts[|ts| - 1]) then StripRight(ts[..|ts| - 1]) else ts
  }

  function Chars(ts: seq<Token>): (s: string)
    ensures |s| == |ts|
  {
    seq(|ts|, i requires 0 <= i < |ts| => ts[i].c)
  }

  datatype Decoded = Malformed | Decoded(key: string, value: string)

  function Decode(txt: string): Decoded {
    match SplitName(txt)
    case NoDelimiter => Malformed
    case Split(name, value) => Decoded(Chars(StripRight(StripLeft(name))), Chars(Tokens(value)))
  }

  // ---- writing tokens back ----

  function Render(ts: seq<Token>): string {
    if ts == [] then "" else (if ts[0].quoted then ['`', ts[0].c] else [ts[0].c]) + Render(ts[1..])
  }

  lemma {:induction false} RenderAppend(a: seq<Token>, b: seq<Token>)
    ensures Render(a + b) == Render(a) + Render(b)
    decreases |a|
  {
    if a == [] {
      assert a + b == b;
    } else {
      assert (a + b)[0] == a[0] && (a + b)[1..] == a[1..] + b;
      RenderAppend(a[1..], b);
    }
  }

  /** A name whose special characters are all quoted is read back as it was written. */
  lemma {:induction false} SplitRendered(ts: seq<Token>, value: string)
    requires forall i :: 0 <= i < |ts| && !ts[i].quoted ==> ts[i].c != '`' && ts[i].c != '='
    ensures SplitName(Render(ts) + "=" + value) == Split(ts, value)
    decreases |ts|
  {
    var s := Render(ts) + "=" + value;
    if ts == [] {
      assert s[0] == '=' && s[1..] == value;
    } else {
      SplitRendered(ts[1..], value);
      var rest := Render(ts[1..]) + "=" + value;
      assert s == (if ts[0].quoted then ['`', ts[0].c] else [ts[0].c]) + rest;
      assert [ts[0]] + ts[1..] == ts;
      if ts[0].quoted {
        assert s[2..] == rest;
      } else {
        assert s[1..] == rest;
      }
    }
  }

  lemma {:induction false} TokensRendered(ts: seq<Token>)
    requires forall i :: 0 <= i < |ts| && !ts[i].quoted ==> ts[i].c != '`'
    ensures Tokens(Render(ts)) == ts
    decreases |ts|
  {
    if ts != [] {
      TokensRendered(ts[1..]);
      var s, rest := Render(ts), Render(ts[1..]);
      assert [ts[0]] + ts[1..] == ts;
      if ts[0].quoted {
        assert s[2..] == rest;
      } else {
        assert s[1..] == rest;
      }
    }
  }

  // ---- what the encoder writes ----

  /** Quote the special characters, here the grave accent and perhaps the equals sign. */
  function Basic(s: string, equals: bool): (ts: seq<Token>)
    ensures |ts| == |s|
  {
    seq(|s|, i requires 0 <= i < |s| => Token(s[i], s[i] == '`' || (equals && s[i] == '=')))
  }

  lemma BasicTail(s: string, equals: bool)
    requires s != ""
    ensures Basic(s, equals)[0] == Token(s[0], s[0] == '`' || (equals && s[0] == '='))
    ensures Basic(s, equals)[1..] == Basic(s[1..], equals)
  {
  }

  lemma {:induction false} ReplaceAppend(a: string, b: string, c: char, w: string)
    ensures Replace(a + b, c, w) == Replace(a, c, w) + Replace(b, c, w)
    decreases |a|
  {
    if a == "" {
      assert a + b == b;
    } else {
      assert (a + b)[0] == a[0] && (a + b)[1..] == a[1..] + b;
      ReplaceAppend(a[1..], b, c, w);
    }
  }

  lemma {:induction false} ValueRenders(s: string)
    ensures Replace(s, '`', "``") == Render(Basic(s, false))
    decreases |s|
  {
    if s != "" {
      BasicTail(s, false);
      ValueRenders(s[1..]);
    }
  }

  lemma {:induction false} KeyRenders(s: string)
    ensures Replace(Replace(s, '`', "``"), '=', "`=") == Render(Basic(s, true))
    decreases |s|
  {
    if s != "" {
      BasicTail(s, true);
      KeyRenders(s[1..]);
      var first := if s[0] == '`' then "``" else [s[0]];
      ReplaceAppend(first, Replace(s[1..], '`', "``"), '=', "`=");
      ReplaceOne(s[0]);
    }
  }

  lemma ReplaceOne(c: char)
    ensures Replace(if c == '`' then "``" else [c], '=', "`=") == if c == '`' || c == '=' then ['`', c] else [c]
  {
    assert "``"[1..] == "`" && "`"[1..] == "";
    assert [c][1..] == "";
    assert Replace("`", '=', "`=") == "`" + Replace("", '=', "`=");
    assert Replace("``", '=', "`=") == "`" + Replace("`", '=', "`=");
  }

  // ---- spaces at the ends ----

  function Spaces(n: nat): (s: string)
    ensures |s| == n
  {
    seq(n, _ => ' ')
  }

  function Quoted(n: nat): (ts: seq<Token>)
    ensures |ts| == n
  {
    seq(n, _ => Token(' ', true))
  }

  lemma {:induction false} RepeatRenders(n: nat)
    ensures Repeat("` ", n) == Render(Quoted(n))
  {
    if n > 0 {
      RepeatRenders(n - 1);
      assert Quoted(n)[1..] == Quoted(n - 1);
    }
  }

  lemma {:induction false} LeadingOf(n: nat, m: string)
    requires m == "" || m[0] != ' '
    ensures LeadingSpaces(Spaces(n) + m) == n
  {
    if n > 0 {
      LeadingOf(n - 1, m);
      assert (Spaces(n) + m)[1..] == Spaces(n - 1) + m;
    } else {
      assert Spaces(0) + m == m;
    }
  }

  lemma {:induction false} TrailingOf(m: string, n: nat)
    requires m == "" || m[|m| - 1] != ' '
    ensures TrailingSpaces(m + Spaces(n)) == n
  {
    if n > 0 {
      TrailingOf(m, n - 1);
      assert (m + Spaces(n))[..|m| + n - 1] == m + Spaces(n - 1);
    } else {
      assert m + Spaces(0) == m;
    }
  }

  lemma {:induction false} LeadingShape(s: string)
    ensures var n := LeadingSpaces(s); (forall i :: 0 <= i < n ==> s[i] == ' ') && (n < |s| ==> s[n] != ' ')
    decreases |s|
  {
    if s != "" && s[0] == ' ' {
      LeadingShape(s[1..]);
      var n := LeadingSpaces(s);
      forall i | 0 < i < n ensures s[i] == ' ' {
        assert s[i] == s[1..][i - 1];
      }
    }
  }

  lemma {:induction false} TrailingShape(s: string)
    ensures var n := TrailingSpaces(s);
            (forall i :: |s| - n <= i < |s| ==> s[i] == ' ') && (n < |s| ==> s[|s| - n - 1] != ' ')
    decreases |s|
  {
    if s != "" && s[|s| - 1] == ' ' {
      var init := s[..|s| - 1];
      TrailingShape(init);
      forall i | |s| - TrailingSpaces(s) <= i < |s| - 1 ensures s[i] == ' ' {
        assert s[i] == init[i];
      }
    }
  }

  lemma {:induction false} RenderEnds(m: string)
    requires m != "" && m[0] != ' ' && m[|m| - 1] != ' '
    ensures var r := Render(Basic(m, true)); r != "" && r[0] != ' ' && r[|r| - 1] != ' '
  {
    BasicTail(m, true);
    var init, last := Basic(m, true)[..|m| - 1], [Basic(m, true)[|m| - 1]];
    assert Basic(m, true) == init + last;
    RenderAppend(init, last);
    assert Render(last) == if last[0].quoted then ['`', m[|m| - 1]] else [m[|m| - 1]];
  }

  lemma PlainSpaces(a: nat, m: string, b: nat)
    ensures Render(Basic(Spaces(a) + m + Spaces(b), true)) == Spaces(a) + Render(Basic(m, true)) + Spaces(b)
  {
    assert Basic(Spaces(a) + m + Spaces(b), true) == Basic(Spaces(a), true) + Basic(m, true) + Basic(Spaces(b), true);
    RenderAppend(Basic(Spaces(a), true) + Basic(m, true), Basic(Spaces(b), true));
    RenderAppend(Basic(Spaces(a), true), Basic(m, true));
    RenderSpaces(a);
    RenderSpaces(b);
  }

  lemma {:induction false} RenderSpaces(n: nat)
    ensures Render(Basic(Spaces(n), true)) == Spaces(n)
  {
    if n > 0 {
      RenderSpaces(n - 1);
      BasicTail(Spaces(n), true);
      assert Spaces(n)[1..] == Spaces(n - 1);
      assert [' '] + Spaces(n - 1) == Spaces(n);
    }
  }

  lemma LeadingQuoted(n: nat, m: string)
    requires m == "" || m[0] != ' '
    ensures QuoteLeading(Spaces(n) + m) == Repeat("` ", n) + m
  {
    LeadingOf(n, m);
    assert (Spaces(n) + m)[n..] == m;
  }

  lemma TrailingQuoted(m: string, n: nat)
    requires m == "" || m[|m| - 1] != ' '
    ensures QuoteTrailing(m + Spaces(n)) == m + Repeat("` ", n)
  {
    TrailingOf(m, n);
    assert (m + Spaces(n))[..|m|] == m;
  }

  /** The text with both runs of outer spaces quoted. */
  lemma EndsQuoted(a: nat, r: string, b: nat)
    requires r != "" && r[0] != ' ' && r[|r| - 1] != ' '
    ensures QuoteTrailing(QuoteLeading(Spaces(a) + r + Spaces(b))) == Repeat("` ", a) + r + Repeat("` ", b)
  {
    var q := Repeat("` ", a);
    assert QuoteLeading(Spaces(a) + r + Spaces(b)) == (q + r) + Spaces(b) by {
      AppendAssociates(Spaces(a), r, Spaces(b));
      LeadingQuoted(a, r + Spaces(b));
      AppendAssociates(q, r, Spaces(b));
    }
    assert (q + r)[|q + r| - 1] == r[|r| - 1];
    TrailingQuoted(q + r, b);
  }

  /** A key with a character that is not a space: both runs of outer spaces end up quoted. */
  lemma EncodedKeyRenders(a: nat, m: string, b: nat)
    requires m != "" && m[0] != ' ' && m[|m| - 1] != ' '
    ensures EncodeKey(Spaces(a) + m + Spaces(b)) == Render(Quoted(a) + Basic(m, true) + Quoted(b))
  {
    KeyRenders(Spaces(a) + m + Spaces(b));
    PlainSpaces(a, m, b);
    RenderEnds(m);
    EndsQuoted(a, Render(Basic(m, true)), b);
    RepeatRenders(a);
    RepeatRenders(b);
    RenderAppend(Quoted(a), Basic(m, true));
    RenderAppend(Quoted(a) + Basic(m, true), Quoted(b));
  }

  lemma QuotedSplit(n: nat)
    requires n > 0
    ensures Render(Quoted(n)) == (Render(Quoted(n - 1)) + "`") + Spaces(1)
  {
    assert Quoted(n) == Quoted(n - 1) + [Token(' ', true)];
    RenderAppend(Quoted(n - 1), [Token(' ', true)]);
    assert Render([Token(' ', true)]) == "` ";
    assert "` " == "`" + Spaces(1);
    AppendAssociates(Render(Quoted(n - 1)), "`", Spaces(1));
  }

  lemma OnlySpacesQuoted(n: nat)
    requires n > 0
    ensures QuoteTrailing(QuoteLeading(Spaces(n))) == (Render(Quoted(n - 1)) + "`") + "` "
  {
    assert QuoteLeading(Spaces(n)) == Render(Quoted(n)) by {
      assert Spaces(n) + "" == Spaces(n);
      LeadingQuoted(n, "");
      RepeatRenders(n);
      assert Repeat("` ", n) + "" == Repeat("` ", n);
    }
    QuotedSplit(n);
    TrailingQuoted(Render(Quoted(n - 1)) + "`", 1);
    assert Repeat("` ", 1) == "` ";
  }

  /** A key of spaces only: the second pass quotes the last space's own grave accent. */
  lemma AllSpacesRenders(n: nat)
    requires n > 0
    ensures EncodeKey(Spaces(n)) == Render(Quoted(n - 1) + [Token('`', true), Token(' ', false)])
  {
    KeyRenders(Spaces(n));
    RenderSpaces(n);
    OnlySpacesQuoted(n);
    RenderAppend(Quoted(n - 1), [Token('`', true), Token(' ', false)]);
    RenderLastTwo();
    AppendAssociates(Render(Quoted(n - 1)), "`", "` ");
    assert "`" + "` " == "`` ";
  }

  lemma RenderLastTwo()
    ensures Render([Token('`', true), Token(' ', false)]) == "`` "
  {
  }

  // ---- the round trip ----

  /** The key is empty, or has a character that is not a space and no tab at either end. */
  predicate Survives(key: string) {
    key == "" || (key[0] != '\t' && key[|key| - 1] != '\t' && exists i :: 0 <= i < |key| && key[i] != ' ')
  }

  lemma DecodeRendered(ts: seq<Token>, value: string)
    requires forall i :: 0 <= i < |ts| && !ts[i].quoted ==> ts[i].c != '`' && ts[i].c != '='
    ensures Decode(Render(ts) + "=" + Replace(value, '`', "``")) == Decoded(Chars(StripRight(StripLeft(ts))), value)
  {
    SplitRendered(ts, Replace(value, '`', "``"));
    ValueRenders(value);
    TokensRendered(Basic(value, false));
    assert Chars(Basic(value, false)) == value;
  }

  /** A text with spaces at both ends and others between. */
  lemma SpacesAround(key: string, a: nat, b: nat)
    requires a + b <= |key|
    requires forall i :: 0 <= i < a ==> key[i] == ' '
    requires forall i :: |key| - b <= i < |key| ==> key[i] == ' '
    ensures key == Spaces(a) + key[a..|key| - b] + Spaces(b)
  {
    assert key[..a] == Spaces(a) && key[|key| - b..] == Spaces(b);
  }

  lemma Decompose(key: string, i: nat) returns (a: nat, m: string, b: nat)
    requires i < |key| && key[i] != ' '
    ensures key == Spaces(a) + m + Spaces(b)
    ensures m != "" && m[0] != ' ' && m[|m| - 1] != ' '
  {
    a, b := LeadingSpaces(key), TrailingSpaces(key);
    LeadingShape(key);
    TrailingShape(key);
    assert a <= i < |key| - b;
    m := key[a..|key| - b];
    SpacesAround(key, a, b);
  }

  lemma MixedTokens(a: nat, m: string, b: nat)
    requires m != "" && m[0] != ' ' && m[|m| - 1] != ' '
    ensures var key := Spaces(a) + m + Spaces(b);
            var ts := Quoted(a) + Basic(m, true) + Quoted(b);
            && Chars(ts) == key
            && (forall i :: 0 <= i < |ts| && !ts[i].quoted ==> ts[i].c != '`' && ts[i].c != '=')
            && (Blank(ts[0]) <==> key[0] == '\t') && (Blank(ts[|ts| - 1]) <==> key[|key| - 1] == '\t')
  {
  }

  lemma MixedDecodes(a: nat, m: string, b: nat, value: string)
    requires m != "" && m[0] != ' ' && m[|m| - 1] != ' '
    ensures var key := Spaces(a) + m + Spaces(b);
            Decode(Encode(key, value)) == Decoded(key, value) <==> key[0] != '\t' && key[|key| - 1] != '\t'
  {
    var ts := Quoted(a) + Basic(m, true) + Quoted(b);
    EncodedKeyRenders(a, m, b);
    MixedTokens(a, m, b);
    DecodeRendered(ts, value);
    StripKeepsAll(ts);
  }

  lemma StripKeepsAll(ts: seq<Token>)
    requires ts != []
    ensures if Blank(ts[0]) || Blank(ts[|ts| - 1])
            then |StripRight(StripLeft(ts))| < |ts| else StripRight(StripLeft(ts)) == ts
  {
  }

  lemma MixedKey(key: string, value: string, i: nat)
    requires i < |key| && key[i] != ' '
    ensures Decode(Encode(key, value)) == Decoded(key, value) <==> key[0] != '\t' && key[|key| - 1] != '\t'
  {
    var a, m, b := Decompose(key, i);
    MixedDecodes(a, m, b, value);
  }

  lemma BlankKey(n: nat, value: string)
    requires n > 0
    ensures Decode(Encode(Spaces(n), value)) != Decoded(Spaces(n), value)
  {
    AllSpacesRenders(n);
    var ts := Quoted(n - 1) + [Token('`', true), Token(' ', false)];
    DecodeRendered(ts, value);
    assert StripLeft(ts) == ts by { assert !Blank(ts[0]); }
    var kept := Quoted(n - 1) + [Token('`', true)];
    assert ts[..|ts| - 1] == kept;
    assert StripRight(ts) == kept by { assert !Blank(kept[|kept| - 1]); }
    assert Chars(kept)[n - 1] == '`' && Spaces(n)[n - 1] == ' ';
  }

  /** Decoding recovers key and value for every value, and for exactly the keys that survive. */
  lemma RoundTrip(key: string, value: string)
    ensures Decode(Encode(key, value)) == Decoded(key, value) <==> Survives(key)
  {
    if key == "" {
      assert EncodeKey("") == Render([]);
      DecodeRendered([], value);
    } else if i :| 0 <= i < |key| && key[i] != ' ' {
      MixedKey(key, value, i);
    } else {
      assert key == Spaces(|key|);
      BlankKey(|key|, value);
    }
  }
}
