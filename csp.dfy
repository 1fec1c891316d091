/** The Content-Security-Policy middleware: a fresh nonce per request, handed to
    the page handlers and named in the header it sets after them. The header is
    read back with the parser of section 2.2.1 of W3C Content Security Policy
    Level 3 ("parse a serialized CSP"). */
module Csp {

  import opened Results

  const CspHeaderName: string := "Content-Security-Policy"
  const NonceVariable: string := "nonce"

  /** The `csp` list of the middleware, in its order. */
  function CspDirectives(nonce: string): seq<(string, string)>
  {
    [ ("default-src", "'self'"),
      ("style-src", "'nonce-" + nonce + "' cdn.jsdelivr.net"),
      ("script-src", "'nonce-" + nonce + "'"),
      ("object-src", "'none'"),
      ("base-uri", "'none'"),
      ("frame-ancestors", "'none'") ]
  }

  /** `${key} ${value}`. */
  function DirectiveText(d: (string, string)): string
  {
    d.0 + " " + d.1
  }

  /** The directives' texts joined with `"; "`. */
  function Serialize(ds: seq<(string, string)>): string
  {
    if |ds| == 0 then ""
    else if |ds| == 1 then DirectiveText(ds[0])
    else DirectiveText(ds[0]) + "; " + Serialize(ds[1..])
  }

  function CspHeader(nonce: string): string
  {
    Serialize(CspDirectives(nonce))
  }

  // ----- the browser's side: parsing a serialized policy -----

  /** Tab, line feed, form feed, carriage return and space. */
  predicate IsAsciiWhitespace(c: char)
  {
    c == '\t' || c == '\n' || c as int == 12 || c == '\r' || c == ' '
  }

  predicate NoWhitespace(s: string)
  {
    forall i | 0 <= i < |s| :: !IsAsciiWhitespace(s[i])
  }

  predicate NoSemicolon(s: string)
  {
    forall i | 0 <= i < |s| :: s[i] != ';'
  }

  /** Every code point below U+0080. */
  predicate IsAscii(s: string)
  {
    forall i | 0 <= i < |s| :: s[i] as int < 128
  }

  /** "Strictly split a string" on `sep`: empty pieces are kept. */
  function StrictSplit(s: string, sep: char): (r: seq<string>)
    ensures |r| >= 1
  {
    if s == [] then [""]
    else
      var rest := StrictSplit(s[1..], sep);
      if s[0] == sep then [""] + rest else [[s[0]] + rest[0]] + rest[1..]
  }

  /** The pieces between runs of ASCII whitespace, empty pieces kept. */
  function SplitWhitespace(s: string): (r: seq<string>)
    ensures |r| >= 1
  {
    if s == [] then [""]
    else
      var rest := SplitWhitespace(s[1..]);
      if IsAsciiWhitespace(s[0]) then [""] + rest else [[s[0]] + rest[0]] + rest[1..]
  }

  function NonEmpty(pieces: seq<string>): seq<string>
  {
    if pieces == [] then []
    else (if pieces[0] == "" then [] else [pieces[0]]) + NonEmpty(pieces[1..])
  }

  /** "Split a string on ASCII whitespace": the non-empty pieces. */
  function Words(s: string): seq<string>
  {
    NonEmpty(SplitWhitespace(s))
  }

  function TrimStart(s: string): (r: string)
    ensures |r| <= |s|
  {
    if s != [] && IsAsciiWhitespace(s[0]) then TrimStart(s[1..]) else s
  }

  function TrimEnd(s: string): (r: string)
    ensures |r| <= |s|
  {
    if s != [] && IsAsciiWhitespace(s[|s| - 1]) then TrimEnd(s[..|s| - 1]) else s
  }

  /** "Strip leading and trailing ASCII whitespace". */
  function Trim(s: string): string
  {
    TrimEnd(TrimStart(s))
  }

  /** The length of the leading run of non-whitespace: the directive name. */
  function NameLength(s: string): (n: nat)
    ensures n <= |s|
  {
    if s == [] || IsAsciiWhitespace(s[0]) then 0 else 1 + NameLength(s[1..])
  }

  function AsciiLower(s: string): (r: string)
    ensures |r| == |s|
  {
    seq(|s|, i requires 0 <= i < |s| => if 'A' <= s[i] <= 'Z' then ToLower(s[i]) else s[i])
  }

  function ToLower(c: char): char
    requires 'A' <= c <= 'Z'
  {
    (c as int + 32) as char
  }

  datatype Directive = Directive(name: string, value: seq<string>)

  predicate Named(policy: seq<Directive>, name: string)
  {
    exists i | 0 <= i < |policy| :: policy[i].name == name
  }

  /** The directive one token spells, if the token is not blank and is an
      ASCII string; any other token is skipped. */
  function TokenDirective(rawToken: string): Option<Directive>
  {
    var token := Trim(rawToken);
    if token == [] || !IsAscii(token) then None
    else
      var n := NameLength(token);
      Some(Directive(AsciiLower(token[..n]), Words(token[n..])))
  }

  /** The policy after one token: a blank token or a repeated name is skipped. */
  function ParseToken(rawToken: string, policy: seq<Directive>): seq<Directive>
  {
    match TokenDirective(rawToken)
    case None => policy
    case Some(d) => if Named(policy, d.name) then policy else policy + [d]
  }

  function ParseTokens(tokens: seq<string>, policy: seq<Directive>): seq<Directive>
    decreases |tokens|
  {
    if tokens == [] then policy else ParseTokens(tokens[1..], ParseToken(tokens[0], policy))
  }

  function ParsePolicy(s: string): seq<Directive>
  {
    ParseTokens(StrictSplit(s, ';'), [])
  }

  // ----- the round trip -----

  /** A directive the serialization keeps apart from its neighbours and the
      parser keeps: ASCII throughout, a lower-case name free of whitespace and
      `;`, and a value free of `;` that ends in a non-whitespace character. */
  predicate WellFormed(d: (string, string))
  {
    && IsAscii(d.0) && IsAscii(d.1)
    && |d.0| > 0 && NoWhitespace(d.0) && NoSemicolon(d.0)
    && (forall i | 0 <= i < |d.0| :: !('A' <= d.0[i] <= 'Z'))
    && |d.1| > 0 && NoSemicolon(d.1) && !IsAsciiWhitespace(d.1[|d.1| - 1])
  }

  predicate DistinctNames(ds: seq<(string, string)>)
  {
    forall i, j | 0 <= i < j < |ds| :: ds[i].0 != ds[j].0
  }

  /** What the parser should find: the names, and each value split into words. */
  function Expected(ds: seq<(string, string)>): (p: seq<Directive>)
    ensures |p| == |ds|
  {
    if ds == [] then [] else [Directive(ds[0].0, Words(ds[0].1))] + Expected(ds[1..])
  }

  lemma {:induction false} ExpectedAt(ds: seq<(string, string)>, i: nat)
    requires i < |ds|
    ensures Expected(ds)[i] == Directive(ds[i].0, Words(ds[i].1))
  {
    if i > 0 {
      ExpectedAt(ds[1..], i - 1);
    }
  }

  lemma {:induction false} StrictSplitNoSep(s: string, sep: char)
    requires forall i | 0 <= i < |s| :: s[i] != sep
    ensures StrictSplit(s, sep) == [s]
  {
    if s != [] {
      StrictSplitNoSep(s[1..], sep);
      assert [s[0]] + s[1..] == s;
    }
  }

  lemma {:induction false} StrictSplitAt(a: string, sep: char, b: string)
    requires forall i | 0 <= i < |a| :: a[i] != sep
    ensures StrictSplit(a + [sep] + b, sep) == [a] + StrictSplit(b, sep)
  {
    if a == [] {
      assert a + [sep] + b == [sep] + b;
      assert ([sep] + b)[1..] == b;
    } else {
      assert (a + [sep] + b)[1..] == a[1..] + [sep] + b;
      StrictSplitAt(a[1..], sep, b);
      assert [a[0]] + a[1..] == a;
    }
  }

  lemma StrictSplitSpace(b: string, sep: char)
    requires sep != ' '
    ensures var r := StrictSplit(b, sep);
            StrictSplit(" " + b, sep) == [" " + r[0]] + r[1..]
  {
    assert (" " + b)[1..] == b;
  }

  /** Splitting the header on `;` gives the first directive's text, then the
      others' texts each after the space of the separator. */
  lemma {:induction false} SplitSerialized(ds: seq<(string, string)>)
    requires |ds| > 0
    requires forall i | 0 <= i < |ds| :: WellFormed(ds[i])
    ensures var r := StrictSplit(Serialize(ds), ';');
            && |r| == |ds| && r[0] == DirectiveText(ds[0])
            && forall i | 1 <= i < |ds| :: r[i] == " " + DirectiveText(ds[i])
  {
    NoSemicolonText(ds[0]);
    if |ds| == 1 {
      StrictSplitNoSep(DirectiveText(ds[0]), ';');
    } else {
      var rest := Serialize(ds[1..]);
      assert Serialize(ds) == DirectiveText(ds[0]) + [';'] + (" " + rest);
      StrictSplitAt(DirectiveText(ds[0]), ';', " " + rest);
      StrictSplitSpace(rest, ';');
      SplitSerialized(ds[1..]);
      var r := StrictSplit(Serialize(ds), ';');
      var r' := StrictSplit(rest, ';');
      assert r == [DirectiveText(ds[0])] + ([" " + r'[0]] + r'[1..]);
      assert forall i | 1 <= i < |ds| :: r[i] == " " + DirectiveText(ds[i]) by {
        forall i | 1 <= i < |ds| ensures r[i] == " " + DirectiveText(ds[i]) {
          if i > 1 {
            assert r[i] == r'[i - 1] == " " + DirectiveText(ds[1..][i - 1]);
          }
        }
      }
    }
  }

  lemma NoSemicolonText(d: (string, string))
    requires WellFormed(d)
    ensures forall i | 0 <= i < |DirectiveText(d)| :: DirectiveText(d)[i] != ';'
  {
    var t := DirectiveText(d);
    forall i | 0 <= i < |t| ensures t[i] != ';' {
      if i < |d.0| { assert t[i] == d.0[i]; }
      else if i > |d.0| { assert t[i] == d.1[i - |d.0| - 1]; }
    }
  }

  lemma AsciiText(d: (string, string))
    requires WellFormed(d)
    ensures IsAscii(DirectiveText(d))
  {
    var t := DirectiveText(d);
    forall i | 0 <= i < |t| ensures t[i] as int < 128 {
      if i < |d.0| { assert t[i] == d.0[i]; }
      else if i > |d.0| { assert t[i] == d.1[i - |d.0| - 1]; }
    }
  }

  /** The text of a well-formed directive, with or without the separator's
      space in front, trims to itself. */
  lemma TrimText(d: (string, string))
    requires WellFormed(d)
    ensures Trim(DirectiveText(d)) == DirectiveText(d)
    ensures Trim(" " + DirectiveText(d)) == DirectiveText(d)
  {
    var t := DirectiveText(d);
    assert t[0] == d.0[0];
    assert t[|t| - 1] == d.1[|d.1| - 1];
    assert (" " + t)[1..] == t;
  }

  /** The name is the leading run of non-whitespace; the rest is the space and the value. */
  lemma {:induction false} NameOfText(name: string, value: string)
    requires NoWhitespace(name)
    ensures NameLength(name + " " + value) == |name|
  {
    if name != [] {
      assert (name + " " + value)[1..] == name[1..] + " " + value;
      NameOfText(name[1..], value);
    }
  }

  lemma LowerFixesLower(s: string)
    requires forall i | 0 <= i < |s| :: !('A' <= s[i] <= 'Z')
    ensures AsciiLower(s) == s
  {
  }

  lemma {:induction false} NonEmptyAppend(a: seq<string>, b: seq<string>)
    ensures NonEmpty(a + b) == NonEmpty(a) + NonEmpty(b)
  {
    if a != [] {
      assert (a + b)[0] == a[0];
      assert (a + b)[1..] == a[1..] + b;
      NonEmptyAppend(a[1..], b);
      var h := if a[0] == "" then [] else [a[0]];
      assert NonEmpty(a + b) == h + NonEmpty(a[1..] + b);
      assert NonEmpty(a) == h + NonEmpty(a[1..]);
    } else {
      assert a + b == b;
    }
  }

  lemma {:induction false} SplitWhitespaceNone(s: string)
    requires NoWhitespace(s)
    ensures SplitWhitespace(s) == [s]
  {
    if s != [] {
      SplitWhitespaceNone(s[1..]);
      assert [s[0]] + s[1..] == s;
    }
  }

  lemma {:induction false} SplitWhitespaceAt(a: string, c: char, b: string)
    requires NoWhitespace(a) && IsAsciiWhitespace(c)
    ensures SplitWhitespace(a + [c] + b) == [a] + SplitWhitespace(b)
  {
    if a == [] {
      assert a + [c] + b == [c] + b;
      assert ([c] + b)[1..] == b;
    } else {
      assert (a + [c] + b)[1..] == a[1..] + [c] + b;
      SplitWhitespaceAt(a[1..], c, b);
      assert [a[0]] + a[1..] == a;
    }
  }

  lemma WordsAfterSpace(v: string)
    ensures Words(" " + v) == Words(v)
  {
    SplitWhitespaceAt("", ' ', v);
    assert "" + [' '] + v == " " + v;
    NonEmptyAppend([""], SplitWhitespace(v));
  }

  lemma WordsOfWord(w: string)
    requires |w| > 0 && NoWhitespace(w)
    ensures Words(w) == [w]
  {
    SplitWhitespaceNone(w);
    assert [w][1..] == [];
    assert NonEmpty([w]) == [w] + NonEmpty([]);
  }

  lemma WordsOfTwo(a: string, b: string)
    requires |a| > 0 && NoWhitespace(a) && |b| > 0 && NoWhitespace(b)
    ensures Words(a + " " + b) == [a, b]
  {
    SplitWhitespaceAt(a, ' ', b);
    assert a + [' '] + b == a + " " + b;
    SplitWhitespaceNone(b);
    NonEmptyAppend([a], [b]);
  }

  /** One well-formed directive token, as the parser reads it. */
  lemma ParseText(token: string, d: (string, string))
    requires WellFormed(d) && Trim(token) == DirectiveText(d)
    ensures TokenDirective(token) == Some(Directive(d.0, Words(d.1)))
  {
    var t := Trim(token);
    AsciiText(d);
    NameOfText(d.0, d.1);
    assert t[..|d.0|] == d.0;
    assert t[|d.0|..] == " " + d.1;
    LowerFixesLower(d.0);
    WordsAfterSpace(d.1);
  }

  predicate DistinctDirectives(policy: seq<Directive>)
  {
    forall i, j | 0 <= i < j < |policy| :: policy[i].name != policy[j].name
  }

  /** The names already in the policy and the names still to come are apart. */
  predicate Apart(policy: seq<Directive>, rest: seq<Directive>)
  {
    forall i, j | 0 <= i < |policy| && 0 <= j < |rest| :: policy[i].name != rest[j].name
  }

  lemma ApartAfterStep(policy: seq<Directive>, rest: seq<Directive>)
    requires |rest| > 0 && DistinctDirectives(rest) && Apart(policy, rest)
    ensures Apart(policy + [rest[0]], rest[1..])
    ensures DistinctDirectives(rest[1..])
    ensures !Named(policy, rest[0].name)
  {
    var next := policy + [rest[0]];
    forall i, j | 0 <= i < |next| && 0 <= j < |rest| - 1 ensures next[i].name != rest[1..][j].name {
      if i == |policy| { assert rest[0].name != rest[j + 1].name; } else { assert next[i] == policy[i]; }
    }
  }

  /** Tokens that each spell a directive with a name of its own are all kept, in order. */
  lemma {:induction false} ParseTokensAll(tokens: seq<string>, rest: seq<Directive>, policy: seq<Directive>)
    requires |tokens| == |rest|
    requires forall i | 0 <= i < |rest| :: TokenDirective(tokens[i]) == Some(rest[i])
    requires DistinctDirectives(rest) && Apart(policy, rest)
    ensures ParseTokens(tokens, policy) == policy + rest
    decreases |tokens|
  {
    if tokens != [] {
      ApartAfterStep(policy, rest);
      var next := policy + [rest[0]];
      assert ParseToken(tokens[0], policy) == next;
      var tokens', rest' := tokens[1..], rest[1..];
      forall i | 0 <= i < |rest'| ensures TokenDirective(tokens'[i]) == Some(rest'[i]) {
        assert rest'[i] == rest[i + 1] && tokens'[i] == tokens[i + 1];
      }
      ParseTokensAll(tokens', rest', next);
      AppendFirst(policy, rest);
    }
  }

  lemma AppendFirst<T>(a: seq<T>, b: seq<T>)
    requires |b| > 0
    ensures a + b == (a + [b[0]]) + b[1..]
  {
    assert b == [b[0]] + b[1..];
  }

  /** A policy of well-formed directives with distinct names parses back into
      those directives, each value split into its words. */
  lemma TokensSpell(ds: seq<(string, string)>)
    requires |ds| > 0
    requires forall i | 0 <= i < |ds| :: WellFormed(ds[i])
    ensures var tokens := StrictSplit(Serialize(ds), ';');
            && |tokens| == |ds|
            && forall i | 0 <= i < |ds| :: TokenDirective(tokens[i]) == Some(Expected(ds)[i])
  {
    SplitSerialized(ds);
    var tokens := StrictSplit(Serialize(ds), ';');
    forall i | 0 <= i < |ds| ensures TokenDirective(tokens[i]) == Some(Expected(ds)[i]) {
      TrimText(ds[i]);
      ParseText(tokens[i], ds[i]);
      ExpectedAt(ds, i);
    }
  }

  lemma ExpectedDistinct(ds: seq<(string, string)>)
    requires DistinctNames(ds)
    ensures DistinctDirectives(Expected(ds))
  {
    var e := Expected(ds);
    forall i, j | 0 <= i < j < |e| ensures e[i].name != e[j].name {
      ExpectedAt(ds, i);
      ExpectedAt(ds, j);
    }
  }

  /** A policy of well-formed directives with distinct names parses back into
      those directives, each value split into its words. */
  lemma ParseSerialize(ds: seq<(string, string)>)
    requires |ds| > 0
    requires forall i | 0 <= i < |ds| :: WellFormed(ds[i])
    requires DistinctNames(ds)
    ensures ParsePolicy(Serialize(ds)) == Expected(ds)
  {
    TokensSpell(ds);
    ExpectedDistinct(ds);
    ParseTokensAll(StrictSplit(Serialize(ds), ';'), Expected(ds), []);
  }

  // ----- the middleware's own header -----

  /** `crypto.randomUUID()`: 36 characters, hexadecimal digits and hyphens. */
  predicate IsUuid(s: string)
  {
    |s| == 36 && forall i | 0 <= i < |s| :: '0' <= s[i] <= '9' || 'a' <= s[i] <= 'f' || s[i] == '-'
  }

  /** A nonce that can stand inside a source expression. */
  predicate IsToken(nonce: string)
  {
    IsAscii(nonce) && NoWhitespace(nonce) && NoSemicolon(nonce)
  }

  lemma UuidIsToken(s: string)
    requires IsUuid(s)
    ensures IsToken(s)
  {
  }

  lemma NonceSourceIsWord(nonce: string)
    requires IsToken(nonce)
    ensures var w := "'nonce-" + nonce + "'";
            |w| > 0 && IsAscii(w) && NoWhitespace(w) && NoSemicolon(w) && w[|w| - 1] == '\''
  {
    var w := "'nonce-" + nonce + "'";
    forall i | 0 <= i < |w| ensures w[i] as int < 128 && !IsAsciiWhitespace(w[i]) && w[i] != ';' {
      if 7 <= i < 7 + |nonce| { assert w[i] == nonce[i - 7]; }
    }
  }

  /** Lower-case letters, `-` and `'`: the characters of the fixed directives. */
  predicate Plain(s: string)
  {
    forall i | 0 <= i < |s| :: 'a' <= s[i] <= 'z' || s[i] == '-' || s[i] == '\''
  }

  lemma PlainWellFormed(name: string, value: string)
    requires |name| > 0 && |value| > 0 && Plain(name) && Plain(value)
    ensures WellFormed((name, value))
  {
  }

  lemma SelfWellFormed()
    ensures WellFormed(("default-src", "'self'"))
  {
    PlainWellFormed("default-src", "'self'");
  }

  lemma ObjectWellFormed()
    ensures WellFormed(("object-src", "'none'"))
  {
    PlainWellFormed("object-src", "'none'");
  }

  lemma BaseWellFormed()
    ensures WellFormed(("base-uri", "'none'"))
  {
    PlainWellFormed("base-uri", "'none'");
  }

  lemma FrameWellFormed()
    ensures WellFormed(("frame-ancestors", "'none'"))
  {
    PlainWellFormed("frame-ancestors", "'none'");
  }

  lemma NonceDirectivesWellFormed(nonce: string)
    requires IsToken(nonce)
    ensures WellFormed(("style-src", "'nonce-" + nonce + "' cdn.jsdelivr.net"))
    ensures WellFormed(("script-src", "'nonce-" + nonce + "'"))
  {
    var src := "'nonce-" + nonce + "'";
    NonceSourceIsWord(nonce);
    var style := src + " cdn.jsdelivr.net";
    assert "'nonce-" + nonce + "' cdn.jsdelivr.net" == style;
    forall i | 0 <= i < |style| ensures style[i] != ';' && style[i] as int < 128 {
      if i < |src| { assert style[i] == src[i]; }
    }
  }

  lemma SixWellFormed(ds: seq<(string, string)>)
    requires |ds| == 6
    requires WellFormed(ds[0]) && WellFormed(ds[1]) && WellFormed(ds[2])
    requires WellFormed(ds[3]) && WellFormed(ds[4]) && WellFormed(ds[5])
    ensures forall i | 0 <= i < |ds| :: WellFormed(ds[i])
  {
  }

  lemma DirectivesWellFormed(nonce: string)
    requires IsToken(nonce)
    ensures forall i | 0 <= i < |CspDirectives(nonce)| :: WellFormed(CspDirectives(nonce)[i])
    ensures DistinctNames(CspDirectives(nonce))
  {
    SelfWellFormed();
    ObjectWellFormed();
    BaseWellFormed();
    FrameWellFormed();
    NonceDirectivesWellFormed(nonce);
    SixWellFormed(CspDirectives(nonce));
  }

  lemma ExpectedOfSix(ds: seq<(string, string)>)
    requires |ds| == 6
    ensures Expected(ds) ==
      [ Directive(ds[0].0, Words(ds[0].1)), Directive(ds[1].0, Words(ds[1].1)),
        Directive(ds[2].0, Words(ds[2].1)), Directive(ds[3].0, Words(ds[3].1)),
        Directive(ds[4].0, Words(ds[4].1)), Directive(ds[5].0, Words(ds[5].1)) ]
  {
    ExpectedAt(ds, 0);
    ExpectedAt(ds, 1);
    ExpectedAt(ds, 2);
    ExpectedAt(ds, 3);
    ExpectedAt(ds, 4);
    ExpectedAt(ds, 5);
  }

  /** The policy as a browser reads it from the middleware's header. */
  function ReadPolicy(nonce: string): seq<Directive>
  {
    [ Directive("default-src", ["'self'"]),
      Directive("style-src", ["'nonce-" + nonce + "'", "cdn.jsdelivr.net"]),
      Directive("script-src", ["'nonce-" + nonce + "'"]),
      Directive("object-src", ["'none'"]),
      Directive("base-uri", ["'none'"]),
      Directive("frame-ancestors", ["'none'"]) ]
  }

  lemma WordsOfKeywords()
    ensures Words("'self'") == ["'self'"]
    ensures Words("'none'") == ["'none'"]
  {
    WordsOfWord("'self'");
    WordsOfWord("'none'");
  }

  lemma WordsOfStyle(nonce: string)
    requires IsToken(nonce)
    ensures Words("'nonce-" + nonce + "' cdn.jsdelivr.net") == ["'nonce-" + nonce + "'", "cdn.jsdelivr.net"]
  {
    var src := "'nonce-" + nonce + "'";
    NonceSourceIsWord(nonce);
    var host := "cdn.jsdelivr.net";
    assert NoWhitespace(host);
    WordsOfTwo(src, host);
    assert "'nonce-" + nonce + "' cdn.jsdelivr.net" == src + " " + host;
  }

  lemma WordsOfScript(nonce: string)
    requires IsToken(nonce)
    ensures Words("'nonce-" + nonce + "'") == ["'nonce-" + nonce + "'"]
  {
    NonceSourceIsWord(nonce);
    WordsOfWord("'nonce-" + nonce + "'");
  }

  lemma WordsOfValues(nonce: string)
    requires IsToken(nonce)
    ensures var ds := CspDirectives(nonce);
            && Words(ds[0].1) == ["'self'"]
            && Words(ds[1].1) == ["'nonce-" + nonce + "'", "cdn.jsdelivr.net"]
            && Words(ds[2].1) == ["'nonce-" + nonce + "'"]
            && Words(ds[3].1) == Words(ds[4].1) == Words(ds[5].1) == ["'none'"]
  {
    WordsOfKeywords();
    WordsOfStyle(nonce);
    WordsOfScript(nonce);
  }

  lemma ExpectedHeader(nonce: string)
    requires IsToken(nonce)
    ensures Expected(CspDirectives(nonce)) == ReadPolicy(nonce)
  {
    WordsOfValues(nonce);
    ExpectedOfSix(CspDirectives(nonce));
  }

  /** The header the middleware sets, as a browser reads it: the six directives
      in order, with both nonce sources naming the request's nonce. */
  lemma HeaderParses(nonce: string)
    requires IsToken(nonce)
    ensures ParsePolicy(CspHeader(nonce)) == ReadPolicy(nonce)
  {
    DirectivesWellFormed(nonce);
    ParseSerialize(CspDirectives(nonce));
    ExpectedHeader(nonce);
  }

  // ----- the middleware around a handler -----

  datatype Effect = SetVariable(name: string, value: string) | SetHeader(name: string, value: string) | Other(what: string)

  /** The middleware around `next`: it sets the nonce, lets the handler run with
      it, then sets the header. */
  function CspMiddleware(nonce: string, next: string -> seq<Effect>): seq<Effect>
  {
    [SetVariable(NonceVariable, nonce)] + next(nonce) + [SetHeader(CspHeaderName, CspHeader(nonce))]
  }

  /** The value a header ends up with: the last one set. */
  function HeaderValue(effects: seq<Effect>, name: string): Option<string>
    decreases |effects|
  {
    if effects == [] then None
    else
      var last := effects[|effects| - 1];
      if last.SetHeader? && last.name == name then Some(last.value)
      else HeaderValue(effects[..|effects| - 1], name)
  }

  /** Whatever the handler does, the response carries the middleware's policy,
      with the nonce the handler was given. */
  lemma PolicyWins(nonce: string, next: string -> seq<Effect>)
    ensures var effects := CspMiddleware(nonce, next);
            && effects[0] == SetVariable(NonceVariable, nonce)
            && HeaderValue(effects, CspHeaderName) == Some(CspHeader(nonce))
  {
  }
}
