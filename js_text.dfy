/** The two pieces of ECMAScript string behaviour that the contact-form
    validators on both sides rely on: `String.prototype.trim` and the regular
    expression `^[^\s@]+@[^\s@]+\.[^\s@]+$`. Both `trim` and the class `\s`
    use the same characters: ECMAScript's WhiteSpace and LineTerminator. */
module JsText {

  /** ECMAScript WhiteSpace and LineTerminator code points: what `trim` removes
      and what `\s` matches. */
  predicate IsWs(c: char) {
    || c == '\t' || c == '\n' || c == '\U{000B}' || c == '\U{000C}' || c == '\r'
    || c == ' ' || c == '\U{00A0}' || c == '\U{1680}'
    || ('\U{2000}' <= c <= '\U{200A}')
    || c == '\U{2028}' || c == '\U{2029}' || c == '\U{202F}' || c == '\U{205F}'
    || c == '\U{3000}' || c == '\U{FEFF}'
  }

  /** Every character of `s` is whitespace (true of the empty string). */
  predicate AllWs(s: string) {
    forall i :: 0 <= i < |s| ==> IsWs(s[i])
  }

  /** No character of `s` is whitespace. */
  predicate NoWs(s: string) {
    forall i :: 0 <= i < |s| ==> !IsWs(s[i])
  }

  /** `s` with its leading whitespace removed. */
  function TrimStart(s: string): string {
    if |s| > 0 && IsWs(s[0]) then TrimStart(s[1..]) else s
  }

  /** `s` with its trailing whitespace removed. */
  function TrimEnd(s: string): string {
    if |s| > 0 && IsWs(s[|s| - 1]) then TrimEnd(s[..|s| - 1]) else s
  }

  /** TrimStart keeps a suffix that does not start with whitespace, and all it
      cuts off is whitespace. */
  lemma {:induction false} TrimStartSpec(s: string)
    ensures var r := TrimStart(s);
      && |r| <= |s| && r == s[|s| - |r|..]
      && (r == [] || !IsWs(r[0]))
      && AllWs(s[..|s| - |r|])
  {
    if |s| > 0 && IsWs(s[0]) {
      TrimStartSpec(s[1..]);
      var r := TrimStart(s[1..]);
      assert s[..|s| - |r|] == [s[0]] + s[1..][..|s[1..]| - |r|];
    }
  }

  /** TrimEnd keeps a prefix that does not end with whitespace, and all it
      cuts off is whitespace. */
  lemma {:induction false} TrimEndSpec(s: string)
    ensures var r := TrimEnd(s);
      && |r| <= |s| && r == s[..|r|]
      && (r == [] || !IsWs(r[|r| - 1]))
      && AllWs(s[|r|..])
  {
    if |s| > 0 && IsWs(s[|s| - 1]) {
      TrimEndSpec(s[..|s| - 1]);
      var r := TrimEnd(s[..|s| - 1]);
      assert s[|r|..] == s[..|s| - 1][|r|..] + [s[|s| - 1]];
    }
  }

  /** `String.prototype.trim`: it yields the empty string exactly when `s` is
      all whitespace. */
  function Trim(s: string): (r: string)
    ensures r == [] <==> AllWs(s)
  {
    var t := TrimStart(s);
    TrimStartSpec(s);
    TrimEndSpec(t);
    var r := TrimEnd(t);
    if r == [] then
      assert t == [];
      assert s[..|s| - |t|] == s;
      r
    else
      assert r[0] == t[0];
      r
  }

  /** What `trim` leaves is no longer than its input and neither starts nor
      ends with whitespace. */
  lemma TrimBorders(s: string)
    ensures var r := Trim(s);
      && |r| <= |s|
      && (r != [] ==> !IsWs(r[0]) && !IsWs(r[|r| - 1]))
  {
    var t := TrimStart(s);
    TrimStartSpec(s);
    TrimEndSpec(t);
    var r := TrimEnd(t);
    if r != [] {
      assert r[0] == t[0];
    }
  }

  /** A string without whitespace is its own trim. */
  lemma TrimOfNoWs(s: string)
    requires NoWs(s)
    ensures Trim(s) == s
  {
    if s != [] {
      TrimFramed([], s, []);
      assert [] + s + [] == s;
    }
  }

  /** Trimming removes exactly a whitespace frame around a string whose first
      and last characters are not whitespace. */
  lemma {:induction false} TrimFramed(pre: string, body: string, post: string)
    requires AllWs(pre) && AllWs(post)
    requires body != [] && !IsWs(body[0]) && !IsWs(body[|body| - 1])
    ensures Trim(pre + body + post) == body
  {
    var s := pre + body + post;
    TrimStartFramed(pre, body + post);
    assert pre + (body + post) == s;
    TrimEndFramed(body, post);
  }

  lemma {:induction false} TrimStartFramed(pre: string, rest: string)
    requires AllWs(pre)
    requires rest != [] && !IsWs(rest[0])
    ensures TrimStart(pre + rest) == rest
  {
    if pre != [] {
      assert (pre + rest)[1..] == pre[1..] + rest;
      TrimStartFramed(pre[1..], rest);
    }
  }

  lemma {:induction false} TrimEndFramed(rest: string, post: string)
    requires AllWs(post)
    requires rest != [] && !IsWs(rest[|rest| - 1])
    ensures TrimEnd(rest + post) == rest
  {
    if post != [] {
      assert (rest + post)[..|rest + post| - 1] == rest + post[..|post| - 1];
      TrimEndFramed(rest, post[..|post| - 1]);
    } else {
      assert rest + post == rest;
    }
  }

  /** Trimming twice is trimming once. */
  lemma TrimIdempotent(s: string)
    ensures Trim(Trim(s)) == Trim(s)
  {
    var r := Trim(s);
    TrimBorders(s);
    if r != [] {
      TrimFramed([], r, []);
      assert [] + r + [] == r;
    }
  }

  /** One run of the regular-expression class `[^\s@]+`: non-empty, with no
      whitespace and no `@`. */
  predicate IsAtom(s: string) {
    |s| > 0 && forall i :: 0 <= i < |s| ==> !IsWs(s[i]) && s[i] != '@'
  }

  /** The regular expression as written: a match chooses the position `a` of
      the literal `@` and the position `d` of the literal `.`, and the three
      pieces around them must each be one run of `[^\s@]+`. */
  ghost predicate RegexMatches(s: string) {
    exists a, d :: 0 < a < |s| && a + 1 < d < |s| - 1 && s[a] == '@' && s[d] == '.'
      && IsAtom(s[..a]) && IsAtom(s[a + 1..d]) && IsAtom(s[d + 1..])
  }

  /** The position of the first `@` in `s`, or `|s|` when there is none. */
  function IndexOfAt(s: string): (a: nat)
    ensures a <= |s|
    ensures a < |s| ==> s[a] == '@'
    ensures forall j :: 0 <= j < a ==> s[j] != '@'
  {
    if s == [] || s[0] == '@' then 0 else 1 + IndexOfAt(s[1..])
  }

  /** `d` holds a `.` that is neither its first nor its last character. */
  predicate HasInnerDot(d: string) {
    exists k :: 0 < k < |d| - 1 && d[k] == '.'
  }

  /** `/^[^\s@]+@[^\s@]+\.[^\s@]+$/.test(s)`, decided directly: the first
      run cannot hold an `@`, so the literal `@` is the first one; what follows
      it is made of `[^\s@]` characters (which include `.`) and needs a `.`
      with at least one character on each side. */
  predicate MatchesEmailPattern(s: string) {
    var a := IndexOfAt(s);
    0 < a < |s| && IsAtom(s[..a]) && IsAtom(s[a + 1..]) && HasInnerDot(s[a + 1..])
  }

  /** The direct decision agrees with the regular expression on every string. */
  lemma MatchesEmailPatternIsRegex(s: string)
    ensures MatchesEmailPattern(s) <==> RegexMatches(s)
  {
    if MatchesEmailPattern(s) {
      PatternGivesRegexMatch(s);
    }
    if RegexMatches(s) {
      RegexMatchGivesPattern(s);
    }
  }

  lemma PatternGivesRegexMatch(s: string)
    requires MatchesEmailPattern(s)
    ensures RegexMatches(s)
  {
    var a := IndexOfAt(s);
    var dom := s[a + 1..];
    var k :| 0 < k < |dom| - 1 && dom[k] == '.';
    var d := a + 1 + k;
    assert s[a + 1..d] == dom[..k];
    assert s[d + 1..] == dom[k + 1..];
    assert IsAtom(s[a + 1..d]);
    assert IsAtom(s[d + 1..]);
  }

  lemma RegexMatchGivesPattern(s: string)
    requires RegexMatches(s)
    ensures MatchesEmailPattern(s)
  {
    var a, d :| 0 < a < |s| && a + 1 < d < |s| - 1 && s[a] == '@' && s[d] == '.'
      && IsAtom(s[..a]) && IsAtom(s[a + 1..d]) && IsAtom(s[d + 1..]);
    forall j | 0 <= j < a ensures s[j] != '@' {
      assert s[j] == s[..a][j];
    }
    var first := IndexOfAt(s);
    assert first == a;
    var dom := s[a + 1..];
    forall i | 0 <= i < |dom| ensures !IsWs(dom[i]) && dom[i] != '@' {
      if a + 1 + i < d {
        assert dom[i] == s[a + 1..d][i];
      } else if a + 1 + i > d {
        assert dom[i] == s[d + 1..][a + i - d];
      }
    }
    assert dom[d - a - 1] == '.';
  }

  /** The same language, described field by field: no whitespace anywhere,
      exactly one `@`, a non-empty local part before it, and a domain after it
      holding a `.` that is neither the domain's first nor its last character. */
  predicate IsEmailShaped(s: string) {
    && NoWs(s)
    && exists a :: 0 < a < |s| && s[a] == '@'
         && (forall j :: 0 <= j < |s| && j != a ==> s[j] != '@')
         && (exists d :: a + 1 < d < |s| - 1 && s[d] == '.')
  }

  /** The pattern accepts exactly the email-shaped strings. */
  lemma EmailPatternIff(s: string)
    ensures MatchesEmailPattern(s) <==> IsEmailShaped(s)
  {
    var a := IndexOfAt(s);
    if MatchesEmailPattern(s) {
      var dom := s[a + 1..];
      forall i | 0 <= i < |s| ensures !IsWs(s[i]) && (i != a ==> s[i] != '@') {
        if i < a {
          assert s[i] == s[..a][i];
        } else if a < i {
          assert s[i] == dom[i - a - 1];
        }
      }
      var k :| 0 < k < |dom| - 1 && dom[k] == '.';
      assert s[a + 1 + k] == '.';
    }
    if IsEmailShaped(s) {
      var a' :| 0 < a' < |s| && s[a'] == '@'
         && (forall j :: 0 <= j < |s| && j != a' ==> s[j] != '@')
         && (exists d :: a' + 1 < d < |s| - 1 && s[d] == '.');
      assert a' == a;
      var d :| a + 1 < d < |s| - 1 && s[d] == '.';
      var dom := s[a + 1..];
      assert dom[d - a - 1] == '.';
      assert IsAtom(s[..a]);
      assert IsAtom(dom);
    }
  }

  /** A string the pattern accepts contains no whitespace, so in particular it
      is not changed by trimming. */
  lemma PatternExcludesWs(s: string)
    requires MatchesEmailPattern(s)
    ensures NoWs(s) && Trim(s) == s
  {
    EmailPatternIff(s);
    TrimOfNoWs(s);
  }
}
