/**
 * The path-pattern compiler: `matchPatternToRegex` and the start-anchored test `extract` runs
 * with the regular expression it builds. Only the shape of expression the compiler produces is
 * given a meaning here: literal characters, the escaped dot `\.`, an unescaped `.` (any one
 * character except a line terminator) and `.*` (any run of such characters).
 */
module PathPattern {
  import opened JsCore

  /** The search `s.replace(/c/, …)` performs for a one-character pattern: the first index holding `c`, or -1. */
  function IndexOf(s: string, c: char): (r: int)
    ensures -1 <= r < |s|
    ensures r == -1 <==> c !in s
    ensures r >= 0 ==> s[r] == c && c !in s[..r]
  {
    if s == [] then -1
    else if s[0] == c then 0
    else
      var r := IndexOf(s[1..], c);
      if r == -1 then
        assert s == [s[0]] + s[1..];
        -1
      else
        assert s[..r + 1] == [s[0]] + s[1..][..r];
        r + 1
  }

  /** The first occurrence is the one with no occurrence before it. */
  lemma IndexOfIsFirst(s: string, c: char, i: int)
    requires 0 <= i < |s| && s[i] == c && c !in s[..i]
    ensures IndexOf(s, c) == i
  {
  }

  /** `s.replace(/c/, rep)` with a one-character pattern and no flags: only the first `c` is replaced. */
  function ReplaceFirst(s: string, c: char, rep: string): (r: string)
    ensures c !in s ==> r == s
    ensures c in s ==> exists i :: 0 <= i < |s| && s[i] == c && c !in s[..i] && r == s[..i] + rep + s[i + 1..]
  {
    var i := IndexOf(s, c);
    if i < 0 then s else s[..i] + rep + s[i + 1..]
  }

  /** `matchPatternToRegex(mp)`: the first `.` escaped, then the first `*` widened to `.*`, anchored at the start. */
  function MatchPatternToRegex(mp: string): (re: string)
    ensures |re| > 0 && re[0] == '^'
    ensures '.' !in mp && '*' !in mp ==> re == "^" + mp
  {
    "^" + ReplaceFirst(ReplaceFirst(mp, '.', "\\."), '*', ".*")
  }

  /** The characters the compiled source may hold as plain literals: no regular-expression metacharacter. */
  predicate IsPlain(c: char) {
    c != '\\' && c != '^' && c != '$' && c != '.' && c != '*' && c != '+' && c != '?' &&
    c != '(' && c != ')' && c != '[' && c != ']' && c != '{' && c != '}' && c != '|'
  }

  predicate AllPlain(s: string) {
    forall k :: 0 <= k < |s| ==> IsPlain(s[k])
  }

  /** One unit of the compiled expression. */
  datatype Token = Lit(c: char) | AnyChar | AnyRun

  function Prepend(t: Token, rest: Option<seq<Token>>): Option<seq<Token>> {
    match rest
    case Some(ts) => Some([t] + ts)
    case None => None
  }

  /** Reads the body of an expression of the compiler's shape; None for anything else. */
  function ParseBody(b: string): Option<seq<Token>> {
    if b == [] then Some([])
    else if b[0] == '\\' then
      if |b| >= 2 && b[1] == '.' then Prepend(Lit('.'), ParseBody(b[2..])) else None
    else if b[0] == '.' then
      if |b| >= 2 && b[1] == '*' then Prepend(AnyRun, ParseBody(b[2..]))
      else Prepend(AnyChar, ParseBody(b[1..]))
    else if IsPlain(b[0]) then Prepend(Lit(b[0]), ParseBody(b[1..]))
    else None
  }

  /** Reads a start-anchored expression `^body`. */
  function ParseRegex(re: string): Option<seq<Token>> {
    if |re| >= 1 && re[0] == '^' then ParseBody(re[1..]) else None
  }

  /** `new RegExp(matchPatternToRegex(mp))`, when the expression has the modelled shape. */
  function Compile(mp: string): Option<seq<Token>> {
    ParseRegex(MatchPatternToRegex(mp))
  }

  /** The characters JavaScript's `.` does not match. */
  predicate IsLineTerminator(c: char) {
    c == '\n' || c == '\r' || c == '\U{2028}' || c == '\U{2029}'
  }

  /** `re.test(s)` for `re` anchored at the start: some prefix of `s` is matched by the tokens. */
  predicate Matches(ts: seq<Token>, s: string)
    decreases |s|, |ts|
  {
    if ts == [] then true
    else match ts[0]
      case Lit(c) => |s| > 0 && s[0] == c && Matches(ts[1..], s[1..])
      case AnyChar => |s| > 0 && !IsLineTerminator(s[0]) && Matches(ts[1..], s[1..])
      case AnyRun => Matches(ts[1..], s) || (|s| > 0 && !IsLineTerminator(s[0]) && Matches(ts, s[1..]))
  }

  /** The tokens matching the characters of `p` literally. */
  function Lits(p: string): (ts: seq<Token>)
    ensures |ts| == |p|
    ensures forall k :: 0 <= k < |p| ==> ts[k] == Lit(p[k])
  {
    seq(|p|, k requires 0 <= k < |p| => Lit(p[k]))
  }

  /**
   * The path shape the compiler handles as a literal prefix: no `*`, at most one `.`, and no
   * other metacharacter.
   */
  predicate SimplePath(mp: string) {
    var i := IndexOf(mp, '.');
    if i < 0 then AllPlain(mp) else AllPlain(mp[..i]) && AllPlain(mp[i + 1..])
  }

  /** The compiled source: the first `.` gets a backslash, the first `*` a leading dot, nothing else changes. */
  lemma RegexLength(mp: string)
    ensures |MatchPatternToRegex(mp)| ==
      1 + |mp| + (if '.' in mp then 1 else 0) + (if '*' in mp then 1 else 0)
  {
    var once := ReplaceFirst(mp, '.', "\\.");
    if '.' in mp {
      var i := IndexOf(mp, '.');
      assert once == mp[..i] + "\\." + mp[i + 1..];
      assert mp == mp[..i] + [mp[i]] + mp[i + 1..];
      assert '*' in once <==> '*' in mp;
      assert |once| == |mp| + 1;
    }
  }

  /** A star-free path compiles to `^` followed by the path with only its first dot escaped. */
  lemma {:induction false} RegexOfStarFreePath(mp: string)
    requires '*' !in mp
    ensures '.' !in mp ==> MatchPatternToRegex(mp) == "^" + mp
    ensures '.' in mp ==>
      var i := IndexOf(mp, '.');
      MatchPatternToRegex(mp) == "^" + mp[..i] + "\\." + mp[i + 1..]
  {
    if '.' in mp {
      var i := IndexOf(mp, '.');
      var once := mp[..i] + "\\." + mp[i + 1..];
      assert mp == mp[..i] + [mp[i]] + mp[i + 1..];
      assert '*' !in once;
      assert "^" + once == "^" + mp[..i] + "\\." + mp[i + 1..];
    }
  }

  /** Plain characters parse one literal each, in order, ahead of whatever follows them. */
  lemma {:induction false} ParsePlainPrefix(p: string, rest: string)
    requires AllPlain(p)
    ensures ParseBody(p + rest) ==
      match ParseBody(rest)
      case Some(ts) => Some(Lits(p) + ts)
      case None => None
  {
    if p == [] {
      assert p + rest == rest;
      match ParseBody(rest)
      case Some(ts) => assert Lits(p) + ts == ts;
      case None =>
    } else {
      assert (p + rest)[0] == p[0] && IsPlain(p[0]);
      assert (p + rest)[1..] == p[1..] + rest;
      ParsePlainPrefix(p[1..], rest);
      match ParseBody(rest)
      case Some(ts) => assert [Lit(p[0])] + (Lits(p[1..]) + ts) == Lits(p) + ts;
      case None =>
    }
  }

  lemma SimplePathHasNoStar(mp: string)
    requires SimplePath(mp)
    ensures '*' !in mp
  {
    var i := IndexOf(mp, '.');
    forall k | 0 <= k < |mp|
      ensures mp[k] != '*'
    {
      if i >= 0 && k < i { assert mp[k] == mp[..i][k]; }
      else if i >= 0 && k > i { assert mp[k] == mp[i + 1..][k - i - 1]; }
    }
  }

  lemma CompileDotFreePath(mp: string)
    requires AllPlain(mp)
    ensures Compile(mp) == Some(Lits(mp))
  {
    assert '.' !in mp && '*' !in mp by {
      forall k | 0 <= k < |mp| ensures mp[k] != '.' && mp[k] != '*' { assert IsPlain(mp[k]); }
    }
    RegexOfStarFreePath(mp);
    var none: string := [];
    var noTokens: seq<Token> := [];
    assert MatchPatternToRegex(mp)[1..] == mp + none;
    ParsePlainPrefix(mp, none);
    assert Lits(mp) + noTokens == Lits(mp);
  }

  /** Plain text holds neither of the characters the compiler rewrites. */
  lemma PlainHasNoPatternChars(a: string)
    requires AllPlain(a)
    ensures '*' !in a && '.' !in a
  {
    forall k | 0 <= k < |a| ensures a[k] != '*' && a[k] != '.' { assert IsPlain(a[k]); }
  }

  /** Replacing the first occurrence, found at `i`. */
  lemma ReplaceFirstAt(s: string, c: char, rep: string, i: int)
    requires 0 <= i < |s| && s[i] == c && c !in s[..i]
    ensures ReplaceFirst(s, c, rep) == s[..i] + rep + s[i + 1..]
  {
    IndexOfIsFirst(s, c, i);
  }

  /** Replacing a character that does not occur changes nothing. */
  lemma ReplaceFirstAbsent(s: string, c: char, rep: string)
    requires c !in s
    ensures ReplaceFirst(s, c, rep) == s
  {
  }

  /** The source compiled from `a.b`: the dot escaped, nothing else changed. */
  lemma OneDotRegexBody(mp: string, a: string, b: string)
    requires AllPlain(a) && AllPlain(b) && mp == a + "." + b
    ensures MatchPatternToRegex(mp) == "^" + (a + ("\\." + b))
  {
    PlainHasNoPatternChars(a);
    PlainHasNoPatternChars(b);
    var i := |a|;
    assert mp[..i] == a && mp[i] == '.' && mp[i + 1..] == b;
    ReplaceFirstAt(mp, '.', "\\.", i);
    var once := a + "\\." + b;
    assert '*' !in once;
    ReplaceFirstAbsent(once, '*', ".*");
    assert once == a + ("\\." + b);
  }

  lemma ParseEscapedDot(b: string)
    requires AllPlain(b)
    ensures ParseBody("\\." + b) == Some([Lit('.')] + Lits(b))
  {
    var none: string := [];
    var noTokens: seq<Token> := [];
    ParsePlainPrefix(b, none);
    assert b + none == b;
    assert Lits(b) + noTokens == Lits(b);
    assert ("\\." + b)[2..] == b;
  }

  lemma ParseOneDotBody(a: string, b: string, body: string)
    requires AllPlain(a) && AllPlain(b) && body == a + ("\\." + b)
    ensures ParseBody(body) == Some(Lits(a + "." + b))
  {
    ParseEscapedDot(b);
    ParsePlainPrefix(a, "\\." + b);
    assert Lits(a) + ([Lit('.')] + Lits(b)) == Lits(a + "." + b);
  }

  /** Compiling reads back the body of the anchored source. */
  lemma CompileReadsBody(mp: string, body: string)
    requires MatchPatternToRegex(mp) == "^" + body
    ensures Compile(mp) == ParseBody(body)
  {
    assert ("^" + body)[1..] == body;
  }

  lemma CompileOneDotPath(mp: string, a: string, b: string)
    requires AllPlain(a) && AllPlain(b) && mp == a + "." + b
    ensures Compile(mp) == Some(Lits(mp))
  {
    OneDotRegexBody(mp, a, b);
    CompileReadsBody(mp, a + ("\\." + b));
    ParseOneDotBody(a, b, a + ("\\." + b));
  }

  /** A path with no metacharacter at all has the simple shape. */
  lemma PlainPathIsSimple(mp: string)
    requires AllPlain(mp)
    ensures SimplePath(mp)
  {
    assert '.' !in mp by {
      forall k | 0 <= k < |mp| ensures mp[k] != '.' { assert IsPlain(mp[k]); }
    }
  }

  /** A path with one dot between two plain parts has the simple shape. */
  lemma OneDotPathIsSimple(mp: string, a: string, b: string)
    requires AllPlain(a) && AllPlain(b) && mp == a + "." + b
    ensures SimplePath(mp)
  {
    assert mp[..|a|] == a;
    assert '.' !in a by {
      forall k | 0 <= k < |a| ensures a[k] != '.' { assert IsPlain(a[k]); }
    }
    IndexOfIsFirst(mp, '.', |a|);
    assert mp[|a| + 1..] == b;
  }

  /** Every path of the simple shape compiles, to the literal tokens of the path itself. */
  lemma CompileSimplePath(mp: string)
    requires SimplePath(mp)
    ensures Compile(mp) == Some(Lits(mp))
  {
    var i := IndexOf(mp, '.');
    if i < 0 {
      CompileDotFreePath(mp);
    } else {
      assert mp == mp[..i] + "." + mp[i + 1..];
      CompileOneDotPath(mp, mp[..i], mp[i + 1..]);
    }
  }

  /** Literal tokens match a prefix exactly when the literal text starts the string and the rest matches what is left. */
  lemma {:induction false} MatchesLits(p: string, ts: seq<Token>, s: string)
    ensures Matches(Lits(p) + ts, s) <==> p <= s && Matches(ts, s[|p|..])
  {
    if p == [] {
      assert Lits(p) + ts == ts;
      assert s[0..] == s;
    } else {
      var all := Lits(p) + ts;
      assert all[0] == Lit(p[0]);
      assert all[1..] == Lits(p[1..]) + ts;
      if |s| > 0 {
        MatchesLits(p[1..], ts, s[1..]);
        if |p| <= |s| { assert s[1..][|p| - 1..] == s[|p|..]; }
        assert p <= s <==> p[0] == s[0] && p[1..] <= s[1..];
      }
    }
  }

  /** The compiled test of a simple path is the prefix test: the path accepts exactly the pathnames it starts. */
  lemma CompiledSimplePathIsPrefixTest(mp: string, pathname: string)
    requires SimplePath(mp)
    ensures Compile(mp).Some?
    ensures Matches(Compile(mp).value, pathname) <==> mp <= pathname
  {
    CompileSimplePath(mp);
    MatchesLits(mp, [], pathname);
    assert Lits(mp) + [] == Lits(mp);
  }

  /** A match pattern `p*` with a plain literal part compiles to the prefix test for `p`. */
  lemma TrailingStarIsPrefixTest(p: string, pathname: string)
    requires AllPlain(p)
    ensures Compile(p + "*") == Some(Lits(p) + [AnyRun])
    ensures Matches(Lits(p) + [AnyRun], pathname) <==> p <= pathname
  {
    var mp := p + "*";
    assert '.' !in mp by {
      forall k | 0 <= k < |mp| ensures mp[k] != '.' {
        if k < |p| { assert IsPlain(p[k]); }
      }
    }
    assert mp[..|p|] == p;
    IndexOfIsFirst(mp, '*', |p|);
    assert MatchPatternToRegex(mp)[1..] == p + ".*";
    var none: string := [];
    var noTokens: seq<Token> := [];
    assert ".*"[2..] == none;
    assert [AnyRun] + noTokens == [AnyRun];
    assert ParseBody(".*") == Some([AnyRun]);
    ParsePlainPrefix(p, ".*");
    MatchesLits(p, [AnyRun], pathname);
  }

  /**
   * Only the first dot is escaped: in `/a.b.c` the second dot is left for the regular
   * expression, where it stands for any one character.
   */
  lemma SecondDotCompilesToAnyCharacter()
    ensures Compile("/a.b.c") == Some([Lit('/'), Lit('a'), Lit('.'), Lit('b'), AnyChar, Lit('c')])
  {
    SecondDotSource();
    CompileReadsBody("/a.b.c", "/a\\.b.c");
    SecondDotBody();
  }

  lemma SecondDotSource()
    ensures MatchPatternToRegex("/a.b.c") == "^" + "/a\\.b.c"
  {
    var mp := "/a.b.c";
    assert mp[..2] == "/a";
    IndexOfIsFirst(mp, '.', 2);
    assert ReplaceFirst(mp, '.', "\\.") == "/a\\.b.c";
    assert '*' !in "/a\\.b.c";
  }

  lemma SecondDotTail()
    ensures ParseBody("b.c") == Some([Lit('b'), AnyChar, Lit('c')])
  {
    var none: string := [];
    var noTokens: seq<Token> := [];
    assert ParseBody(none) == Some(noTokens);
    ParsePlainPrefix("c", none);
    assert "c" + none == "c";
    assert Lits("c") + noTokens == [Lit('c')];
    assert ParseBody("c") == Some([Lit('c')]);
    assert ".c"[1..] == "c";
    assert [AnyChar] + [Lit('c')] == [AnyChar, Lit('c')];
    assert ParseBody(".c") == Some([AnyChar, Lit('c')]);
    ParsePlainPrefix("b", ".c");
    assert "b" + ".c" == "b.c";
    assert Lits("b") + [AnyChar, Lit('c')] == [Lit('b'), AnyChar, Lit('c')];
  }

  lemma SecondDotBody()
    ensures ParseBody("/a\\.b.c") == Some([Lit('/'), Lit('a'), Lit('.'), Lit('b'), AnyChar, Lit('c')])
  {
    SecondDotTail();
    assert "\\.b.c"[2..] == "b.c";
    assert [Lit('.')] + [Lit('b'), AnyChar, Lit('c')] == [Lit('.'), Lit('b'), AnyChar, Lit('c')];
    assert ParseBody("\\.b.c") == Some([Lit('.'), Lit('b'), AnyChar, Lit('c')]);
    ParsePlainPrefix("/a", "\\.b.c");
    assert "/a" + "\\.b.c" == "/a\\.b.c";
    assert Lits("/a") + [Lit('.'), Lit('b'), AnyChar, Lit('c')] == [Lit('/'), Lit('a'), Lit('.'), Lit('b'), AnyChar, Lit('c')];
  }

  /** Hence the compiled test of `/a.b.c` accepts `/a.bXc`, which the pattern does not start. */
  lemma SecondDotAcceptsNonPrefix()
    ensures Matches([Lit('/'), Lit('a'), Lit('.'), Lit('b'), AnyChar, Lit('c')], "/a.bXc")
    ensures !("/a.b.c" <= "/a.bXc")
  {
    assert "/a.b.c"[4] != "/a.bXc"[4];
  }
}
