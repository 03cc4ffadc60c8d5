/** Granted scopes with bracket expressions, and which patterns bound them. */
module GlobBrackets {
  import opened Glob

  /** A text without any special character. */
  predicate Plain(s: string) {
    NoBracket(s) && '*' !in s && '?' !in s
  }

  /** Something stands between two stars. */
  predicate Gap(pat: string, i: int, j: int, k: int) {
    0 <= i < j < k < |pat| && pat[i] == '*' && pat[j] != '*' && pat[k] == '*'
  }

  /** A ']' stands behind a star. */
  predicate ClosesBehindStar(pat: string, i: int, j: int) {
    0 <= i < j < |pat| && pat[i] == '*' && pat[j] == ']'
  }

  /** At most one group of stars, and no ']' after it. */
  ghost predicate Anchored(pat: string) {
    (forall i, j, k :: !Gap(pat, i, j, k)) && forall i, j :: !ClosesBehindStar(pat, i, j)
  }

  /** The tokens of plain text. */
  function Lits(s: string): (r: seq<Token>)
    ensures |r| == |s| && forall i :: 0 <= i < |s| ==> r[i] == Lit(s[i])
  {
    seq(|s|, i requires 0 <= i < |s| => Lit(s[i]))
  }

  lemma {:induction false} LitsCons(s: string)
    requires s != ""
    ensures Lits(s) == [Lit(s[0])] + Lits(s[1..])
  {
  }

  lemma {:induction false} PlainTail(s: string)
    requires Plain(s) && s != ""
    ensures Plain(s[1..])
  {
  }

  /** Plain text at the front of a pattern is read literally. */
  lemma {:induction false} ParsePlainFront(a: string, w: string)
    requires Plain(a)
    ensures Parse(a + w) == Lits(a) + Parse(w)
    decreases |a|
  {
    if a == "" {
      assert a + w == w && Lits(a) + Parse(w) == Parse(w);
    } else {
      PlainTail(a);
      ParsePlainFront(a[1..], w);
      assert (a + w)[1..] == a[1..] + w && (a + w)[0] == a[0];
      LitsCons(a);
      AppendTokens([Lit(a[0])], Lits(a[1..]), Parse(w));
    }
  }

  lemma {:induction false} ParsePlain(a: string)
    requires Plain(a)
    ensures Parse(a) == Lits(a)
  {
    ParsePlainFront(a, "");
    assert a + "" == a && Lits(a) + [] == Lits(a);
  }

  lemma {:induction false} AppendTokens(a: seq<Token>, b: seq<Token>, c: seq<Token>)
    ensures (a + b) + c == a + (b + c)
  {
  }

  lemma {:induction false} ClosingAt(pat: string, i: nat)
    requires i <= |pat| && Closing(pat, i) < |pat|
    ensures pat[Closing(pat, i)] == ']'
  {
  }

  /** Plain text without ']' at the end of a pattern is read literally, whatever stands before it. */
  lemma {:induction false} ParsePlainBack(u: string, b: string) returns (t: seq<Token>)
    requires Plain(b) && ']' !in b
    ensures Parse(u + b) == t + Lits(b)
    decreases |u|
  {
    var s := u + b;
    if u == "" {
      assert s == b;
      ParsePlain(b);
      t := [];
      assert t + Lits(b) == Lits(b);
    } else if s[0] == '[' && Closing(s, 1) < |s| {
      var j := Closing(s, 1);
      ClosingAt(s, 1);
      forall k | |u| <= k < |s| ensures s[k] != ']' {
        assert s[k] == b[k - |u|];
      }
      assert s[j + 1..] == u[j + 1..] + b;
      var rest := ParsePlainBack(u[j + 1..], b);
      t := [Class(s[1..j])] + rest;
      AppendTokens([Class(s[1..j])], rest, Lits(b));
    } else {
      assert s[1..] == u[1..] + b;
      var rest := ParsePlainBack(u[1..], b);
      t := [TokenOf(s[0])] + rest;
      AppendTokens([TokenOf(s[0])], rest, Lits(b));
    }
  }

  /** What begins with literals matches exactly what begins with their text. */
  lemma {:induction false} MatchFront(cls: ClassOf, a: string, t: seq<Token>, x: string)
    ensures Matches(cls, Lits(a) + t, x) <==> |a| <= |x| && x[..|a|] == a && Matches(cls, t, x[|a|..])
    decreases |a|
  {
    var p := Lits(a) + t;
    if a == "" {
      assert p == t && x[0..] == x;
    } else {
      assert p[0] == Lit(a[0]);
      assert p[1..] == Lits(a[1..]) + t;
      if x != "" {
        MatchFront(cls, a[1..], t, x[1..]);
        if |a| <= |x| {
          assert x[1..][|a| - 1..] == x[|a|..];
          assert x[..|a|] == [x[0]] + x[1..][..|a| - 1];
          assert a == [a[0]] + a[1..];
        }
      }
    }
  }

  /** What ends with literals matches only what ends with their text. */
  lemma {:induction false} MatchBack(cls: ClassOf, t: seq<Token>, b: string, x: string)
    requires Matches(cls, t + Lits(b), x)
    ensures |b| <= |x| && x[|x| - |b|..] == b
    decreases |t| + |x|
  {
    var p := t + Lits(b);
    if t == [] {
      assert p == Lits(b) + [];
      MatchFront(cls, b, [], x);
      assert x[|b|..] == "" && x == x[..|b|] + x[|b|..];
    } else {
      assert p[1..] == t[1..] + Lits(b);
      if p[0] == Star && !Matches(cls, p[1..], x) {
        MatchBack(cls, t, b, x[1..]);
      } else if p[0] == Star {
        MatchBack(cls, t[1..], b, x);
      } else {
        MatchBack(cls, t[1..], b, x[1..]);
      }
    }
  }

  function Stars(n: nat): (r: seq<Token>)
    ensures |r| == n && forall i :: 0 <= i < n ==> r[i] == Star
  {
    seq(n, i => Star)
  }

  lemma {:induction false} MatchConcat(cls: ClassOf, p: seq<Token>, q: seq<Token>, y: string, z: string)
    requires Matches(cls, p, y) && Matches(cls, q, z)
    ensures Matches(cls, p + q, y + z)
    decreases |p| + |y|
  {
    var r := p + q;
    if p == [] {
      assert r == q && y + z == z;
    } else {
      assert r[0] == p[0] && r[1..] == p[1..] + q;
      if p[0] == Star && Matches(cls, p[1..], y) {
        MatchConcat(cls, p[1..], q, y, z);
      } else if p[0] == Star {
        MatchConcat(cls, p, q, y[1..], z);
        assert (y + z)[1..] == y[1..] + z;
      } else {
        MatchConcat(cls, p[1..], q, y[1..], z);
        assert (y + z)[1..] == y[1..] + z;
      }
    }
  }

  lemma {:induction false} StarsMatchAll(cls: ClassOf, n: nat, x: string)
    requires 0 < n
    ensures Matches(cls, Stars(n), x)
    decreases n, |x|
  {
    assert Stars(n)[1..] == Stars(n - 1);
    if x != "" {
      StarsMatchAll(cls, n, x[1..]);
    } else if n > 1 {
      StarsMatchAll(cls, n - 1, x);
    }
  }

  /** Stars in front of literals match everything that ends with their text. */
  lemma {:induction false} StarsMatch(cls: ClassOf, n: nat, b: string, x: string)
    requires 0 < n && |b| <= |x| && x[|x| - |b|..] == b
    ensures Matches(cls, Stars(n) + Lits(b), x)
  {
    var y := x[..|x| - |b|];
    StarsMatchAll(cls, n, y);
    LitsMatch(cls, b);
    MatchConcat(cls, Stars(n), Lits(b), y, b);
    assert x == y + b;
  }

  lemma {:induction false} LitsMatch(cls: ClassOf, b: string)
    ensures Matches(cls, Lits(b), b)
  {
    assert Lits(b) == Lits(b) + [] && b[|b|..] == "" && b[..|b|] == b;
    MatchFront(cls, b, [], b);
  }

  predicate AllStars(s: string) {
    forall i :: 0 <= i < |s| ==> s[i] == '*'
  }

  /** An anchored pattern is plain text, or a plain front, some stars and a plain back without ']'. */
  lemma {:induction false} AnchoredShape(pat: string) returns (a: string, stars: string, b: string)
    requires NoBracket(pat) && '?' !in pat && Anchored(pat)
    ensures pat == a + stars + b && Plain(a) && Plain(b) && AllStars(stars)
    ensures stars == "" ==> b == ""
    ensures stars != "" ==> ']' !in b
  {
    var i := IndexOf(pat, '*', 0);
    IndexOfFirst(pat, '*', 0);
    a := pat[..i];
    var j := i;
    while j < |pat| && pat[j] == '*'
      invariant i <= j <= |pat| && forall k :: i <= k < j ==> pat[k] == '*'
    {
      j := j + 1;
    }
    stars, b := pat[i..j], pat[j..];
    forall k | 0 <= k < |b| ensures b[k] != '*' && (i < j ==> b[k] != ']') {
      assert b[k] == pat[j + k];
      assert !Gap(pat, i, j, j + k) && !ClosesBehindStar(pat, i, j + k);
    }
  }

  lemma {:induction false} IndexOfFirst(pat: string, c: char, from: nat)
    requires from <= |pat|
    ensures forall k :: from <= k < IndexOf(pat, c, from) ==> pat[k] != c
    decreases |pat| - from
  {
    if from < |pat| && pat[from] != c {
      IndexOfFirst(pat, c, from + 1);
    }
  }

  lemma {:induction false} ParseStars(stars: string, b: string)
    requires AllStars(stars) && Plain(b)
    ensures Parse(stars + b) == Stars(|stars|) + Lits(b)
    decreases |stars|
  {
    if stars == "" {
      assert stars + b == b;
      ParsePlain(b);
      assert Stars(0) + Lits(b) == Lits(b);
    } else {
      assert (stars + b)[1..] == stars[1..] + b && (stars + b)[0] == '*';
      ParseStars(stars[1..], b);
      assert Stars(|stars|) == [Star] + Stars(|stars| - 1);
      AppendTokens([Star], Stars(|stars| - 1), Lits(b));
    }
  }

  lemma {:induction false} ParseAnchored(a: string, stars: string, b: string)
    requires Plain(a) && Plain(b) && AllStars(stars)
    ensures Parse(a + stars + b) == Lits(a) + (Stars(|stars|) + Lits(b))
  {
    assert a + stars + b == a + (stars + b);
    ParsePlainFront(a, stars + b);
    ParseStars(stars, b);
  }

  /** Everything granted under an anchored pattern stays within it, with or without brackets. */
  lemma {:induction false} AnchoredBounds(cls: ClassOf, pat: string, s: string, x: string)
    requires NoBracket(pat) && '?' !in pat && Anchored(pat)
    requires FnMatch(cls, s, pat) && FnMatch(cls, x, s)
    ensures FnMatch(cls, x, pat)
  {
    var a, stars, b := AnchoredShape(pat);
    ParseAnchored(a, stars, b);
    var back := Stars(|stars|) + Lits(b);
    MatchFront(cls, a, back, s);
    var w := s[|a|..];
    assert s == a + w;
    ParsePlainFront(a, w);
    MatchFront(cls, a, Parse(w), x);
    BackBounds(cls, |stars|, b, w, x[|a|..]);
    MatchFront(cls, a, back, x);
  }

  lemma {:induction false} BackBounds(cls: ClassOf, n: nat, b: string, w: string, x: string)
    requires Plain(b) && (if n == 0 then b == "" else ']' !in b)
    requires Matches(cls, Stars(n) + Lits(b), w) && FnMatch(cls, x, w)
    ensures Matches(cls, Stars(n) + Lits(b), x)
  {
    if n == 0 {
      assert Stars(n) + Lits(b) == [] && w == "";
    } else {
      MatchBack(cls, Stars(n), b, w);
      var u := w[..|w| - |b|];
      assert w == u + b;
      var t := ParsePlainBack(u, b);
      MatchBack(cls, t, b, x);
      StarsMatch(cls, n, b, x);
    }
  }

  /** A plain scope admits itself only. */
  lemma {:induction false} PlainMatchesItselfOnly(cls: ClassOf, s: string, x: string)
    requires Plain(s) && FnMatch(cls, x, s)
    ensures x == s
  {
    ParsePlain(s);
    assert Lits(s) == Lits(s) + [];
    MatchFront(cls, s, [], x);
    assert x == x[..|s|] + x[|s|..];
  }

  // What is not anchored lets something escape.

  lemma {:induction false} ParseConcat(u: string, v: string)
    requires NoBracket(u)
    ensures Parse(u + v) == Parse(u) + Parse(v)
    decreases |u|
  {
    if u == "" {
      assert u + v == v && Parse(u) + Parse(v) == Parse(v);
    } else {
      assert (u + v)[1..] == u[1..] + v && (u + v)[0] == u[0];
      ParseCons(u);
      ParseConcat(u[1..], v);
      AppendTokens([TokenOf(u[0])], Parse(u[1..]), Parse(v));
    }
  }

  lemma {:induction false} SkeletonConcat(u: string, v: string)
    ensures Skeleton(u + v) == Skeleton(u) + Skeleton(v)
    decreases |u|
  {
    if u == "" {
      assert u + v == v;
    } else {
      assert (u + v)[1..] == u[1..] + v && (u + v)[0] == u[0];
      SkeletonConcat(u[1..], v);
    }
  }

  lemma {:induction false} SkeletonOfPlain(s: string)
    requires Plain(s)
    ensures Skeleton(s) == s
    decreases |s|
  {
    if s != "" {
      PlainTail(s);
      SkeletonOfPlain(s[1..]);
    }
  }

  lemma {:induction false} SkeletonIsPlain(s: string)
    requires NoBracket(s)
    ensures Plain(Skeleton(s))
    ensures ']' in Skeleton(s) <==> ']' in s
    decreases |s|
  {
    if s != "" {
      ParseCons(s);
      SkeletonIsPlain(s[1..]);
      assert s == [s[0]] + s[1..];
    }
  }

  /** The shortest text that a pattern without question marks matches is its skeleton. */
  lemma {:induction false} SkeletonIsShortest(cls: ClassOf, pat: string, x: string)
    requires NoBracket(pat) && '?' !in pat
    ensures FnMatch(cls, Skeleton(pat), pat)
    ensures FnMatch(cls, x, pat) && |x| <= |Skeleton(pat)| ==> x == Skeleton(pat)
    decreases |pat| + |x|
  {
    if pat != "" {
      ParseCons(pat);
      var y := if x == "" then "" else x[1..];
      SkeletonIsShortest(cls, pat[1..], y);
      if pat[0] == '*' {
        SkeletonIsShortest(cls, pat[1..], x);
        assert Skeleton(pat) == Skeleton(pat[1..]);
        assert Matches(cls, Parse(pat)[1..], Skeleton(pat[1..]));
        if x != "" {
          SkeletonIsShortest(cls, pat, y);
        }
      } else {
        assert Skeleton(pat)[1..] == Skeleton(pat[1..]);
      }
    }
  }

  /** A bracket expression whose body does not begin with a special character. */
  lemma {:induction false} ParseBracket(body: string, rest: string)
    requires body != "" && body[0] != '!' && ']' !in body && Plain(rest)
    ensures Parse("[" + body + "]" + rest) == [Class(body)] + Lits(rest)
  {
    var w := "[" + body + "]" + rest;
    var j := |body| + 1;
    forall k | 1 <= k < j ensures w[k] != ']' {
      assert w[k] == body[k - 1];
    }
    assert w[j] == ']' && w[1] == body[0];
    IndexOfIs(w, ']', 1, j);
    assert Closing(w, 1) == j;
    assert w[1..j] == body && w[j + 1..] == rest;
    ParsePlain(rest);
  }

  lemma {:induction false} IndexOfIs(pat: string, c: char, from: nat, j: nat)
    requires from <= j < |pat| && pat[j] == c && forall k :: from <= k < j ==> pat[k] != c
    ensures IndexOf(pat, c, from) == j
    decreases j - from
  {
    if from < j {
      IndexOfIs(pat, c, from + 1, j);
    }
  }

  /** A reading under which an expression that begins with two lower-case letters admits the first of
      them, whatever follows: they are no negation and no range.  `fnmatch` reads expressions so. */
  ghost predicate ReadsLetters(cls: ClassOf) {
    forall body: string :: AdmitsFirst(cls, body)
  }

  predicate AdmitsFirst(cls: ClassOf, body: string) {
    |body| >= 2 && IsLetter(body[0]) && IsLetter(body[1]) && ']' !in body ==> cls(body, body[0])
  }

  predicate IsLetter(c: char) {
    'a' <= c <= 'z'
  }

  /** A granted scope with a bracket that admits something shorter than the skeleton of the pattern,
      or of equal length but different, is not bounded by the pattern. */
  lemma {:induction false} BracketEscapes(
    cls: ClassOf, pat: string, a: string, body: string, rest: string, c: char)
    requires NoBracket(pat) && '?' !in pat && Plain(a) && Plain(rest)
    requires body != "" && body[0] != '!' && ']' !in body && cls(body, c)
    requires FnMatch(cls, a + ("[" + body + "]" + rest), pat)
    requires var x := a + ([c] + rest); |x| <= |Skeleton(pat)| && x != Skeleton(pat)
    ensures !BoundsAll(cls, pat)
  {
    var w, x := "[" + body + "]" + rest, a + ([c] + rest);
    ParseBracket(body, rest);
    ParsePlainFront(a, w);
    assert Matches(cls, [Class(body)] + Lits(rest), [c] + rest) by {
      LitsMatch(cls, rest);
      assert ([Class(body)] + Lits(rest))[1..] == Lits(rest) && ([c] + rest)[1..] == rest;
    }
    MatchFront(cls, a, Parse(w), x);
    assert x[..|a|] == a && x[|a|..] == [c] + rest;
    SkeletonIsShortest(cls, pat, x);
    assert FnMatch(cls, a + w, pat) && FnMatch(cls, x, a + w) && !FnMatch(cls, x, pat);
  }

  /** Whatever is granted under `pat`, with or without brackets, everything it admits is admitted by `pat`. */
  ghost predicate BoundsAll(cls: ClassOf, pat: string) {
    forall s, x {:trigger FnMatch(cls, s, pat), FnMatch(cls, x, s)} ::
      FnMatch(cls, s, pat) && FnMatch(cls, x, s) ==> FnMatch(cls, x, pat)
  }

  /** A letter other than `c`. */
  function Other(c: char): char {
    if c == 'x' then 'y' else 'x'
  }

  lemma {:induction false} StarAbsorbs(cls: ClassOf, p: seq<Token>, y: string, z: string)
    requires p != [] && p[0] == Star && Matches(cls, p, z)
    ensures Matches(cls, p, y + z)
    decreases |y|
  {
    if y == "" {
      assert y + z == z;
    } else {
      StarAbsorbs(cls, p, y[1..], z);
      assert (y + z)[1..] == y[1..] + z;
    }
  }

  /** A ']' behind the first star can close a bracket. */
  lemma {:induction false} ClosingBracketEscapes(cls: ClassOf, pat: string, a: string, r: string)
    requires ReadsLetters(cls)
    requires NoBracket(pat) && '?' !in pat && pat == a + r && Plain(a)
    requires r != "" && r[0] == '*' && ']' in r
    ensures !BoundsAll(cls, pat)
  {
    var t := Skeleton(r);
    SkeletonIsPlain(r);
    var q := IndexOf(t, ']', 0);
    IndexOfFirst(t, ']', 0);
    assert q < |t| by {
      var k :| 0 <= k < |t| && t[k] == ']';
    }
    var rest, c := t[q + 1..], Other(t[0]);
    var body := [c, 'z'] + t[..q];
    SplitAtBracket(t, q, c);
    FrontStarMatches(cls, pat, a, r, ['[', c, 'z'], t);
    assert Skeleton(pat) == a + t by {
      SkeletonConcat(a, r);
      SkeletonOfPlain(a);
    }
    OtherText(a, c, rest, t);
    assert AdmitsFirst(cls, body);
    BracketEscapes(cls, pat, a, body, rest, c);
  }

  lemma {:induction false} SplitAtBracket(t: string, q: nat, c: char)
    requires q < |t| && t[q] == ']'
    ensures ['[', c, 'z'] + t == "[" + ([c, 'z'] + t[..q]) + "]" + t[q + 1..]
  {
    assert t == t[..q] + ([t[q]] + t[q + 1..]);
  }

  lemma {:induction false} OtherText(a: string, c: char, rest: string, t: string)
    requires t != "" && c != t[0]
    ensures a + ([c] + rest) != a + t
  {
    assert (a + ([c] + rest))[|a|] == c && (a + t)[|a|] == t[0];
  }

  lemma {:induction false} FrontStarMatches(
    cls: ClassOf, pat: string, a: string, r: string, y: string, z: string)
    requires NoBracket(pat) && '?' !in pat && pat == a + r && Plain(a) && r != "" && r[0] == '*'
    requires FnMatch(cls, z, r) || z == Skeleton(r)
    ensures FnMatch(cls, a + (y + z), pat)
  {
    SkeletonIsShortest(cls, r, z);
    ParseCons(r);
    StarAbsorbs(cls, Parse(r), y, z);
    ParsePlainFront(a, r);
    MatchFront(cls, a, Parse(r), a + (y + z));
    assert (a + (y + z))[|a|..] == y + z;
  }

  /** Text that a pattern "m*b" matches with a ']' in its last star. */
  lemma {:induction false} LastStarMatches(cls: ClassOf, m: string, b: string)
    requires NoBracket(m) && '?' !in m && Plain(b)
    ensures FnMatch(cls, Skeleton(m) + "]" + b, m + "*" + b)
  {
    SkeletonIsShortest(cls, m, "");
    assert Matches(cls, [Star], "]") by {
      assert "]"[1..] == "" && [Star][1..] == [];
    }
    MatchConcat(cls, Parse(m), [Star], Skeleton(m), "]");
    MatchesItself(cls, b);
    MatchConcat(cls, Parse(m) + [Star], Parse(b), Skeleton(m) + "]", b);
    ParseConcat(m, "*" + b);
    ParseConcat("*", b);
    assert m + "*" + b == m + ("*" + b);
    ParseCons("*");
    assert Parse("*") == [Star];
    AppendTokens(Parse(m), [Star], Parse(b));
  }

  lemma {:induction false} BetweenStarsSkeleton(a: string, m: string, b: string)
    requires Plain(a) && Plain(b)
    ensures Skeleton(a + (m + "*" + b)) == a + (Skeleton(m) + b)
  {
    SkeletonConcat(a, m + "*" + b);
    SkeletonConcat(m + "*", b);
    SkeletonConcat(m, "*");
    SkeletonOfPlain(a);
    SkeletonOfPlain(b);
    assert Skeleton("*") == "" && Skeleton(m) + "" == Skeleton(m);
  }

  lemma {:induction false} CloseBody(c: char, mid: string, b: string)
    ensures ['[', c, 'z'] + (mid + "]" + b) == "[" + ([c, 'z'] + mid) + "]" + b
  {
  }

  lemma {:induction false} MiddleIsPlain(a: string, m: string, w: string)
    requires NoBracket(a + (m + w)) && '?' !in a + (m + w)
    ensures NoBracket(m) && '?' !in m && NoBracket(m + w) && '?' !in m + w
  {
    forall k | 0 <= k < |m + w| ensures (m + w)[k] != '[' && (m + w)[k] != '?' {
      assert (a + (m + w))[|a| + k] == (m + w)[k];
    }
    forall k | 0 <= k < |m| ensures m[k] != '[' && m[k] != '?' {
      assert (m + w)[k] == m[k];
    }
  }

  /** Literals between two stars can stand in the body of a bracket. */
  lemma {:induction false} BetweenStarsEscapes(cls: ClassOf, pat: string, a: string, m: string, b: string)
    requires ReadsLetters(cls)
    requires NoBracket(pat) && '?' !in pat && pat == a + (m + "*" + b) && Plain(a) && Plain(b)
    requires m != "" && m[0] == '*' && Skeleton(m) != "" && ']' !in m
    ensures !BoundsAll(cls, pat)
  {
    var mid, c := Skeleton(m), Other(Skeleton(m)[0]);
    assert m + "*" + b == m + ("*" + b);
    MiddleIsPlain(a, m, "*" + b);
    SkeletonIsPlain(m);
    LastStarMatches(cls, m, b);
    FrontStarMatches(cls, pat, a, m + "*" + b, ['[', c, 'z'], mid + "]" + b);
    BetweenStarsSkeleton(a, m, b);
    BracketBodyEscapes(cls, pat, a, mid, b, c);
  }

  lemma {:induction false} BracketBodyEscapes(cls: ClassOf, pat: string, a: string, mid: string, b: string, c: char)
    requires ReadsLetters(cls) && NoBracket(pat) && '?' !in pat && Plain(a) && Plain(b)
    requires mid != "" && ']' !in mid && c == Other(mid[0])
    requires FnMatch(cls, a + (['[', c, 'z'] + (mid + "]" + b)), pat)
    requires Skeleton(pat) == a + (mid + b)
    ensures !BoundsAll(cls, pat)
  {
    var body := [c, 'z'] + mid;
    CloseBody(c, mid, b);
    OtherText(a, c, b, mid + b);
    assert AdmitsFirst(cls, body);
    BracketEscapes(cls, pat, a, body, b, c);
  }

  /** A bracket-free pattern bounds everything granted under it, with or without brackets, exactly when
      it has no question mark, at most one group of stars, and no ']' after a star. */
  lemma {:induction false} BoundsAllIff(cls: ClassOf, pat: string)
    requires NoBracket(pat) && ReadsLetters(cls)
    ensures BoundsAll(cls, pat) <==> '?' !in pat && Anchored(pat)
  {
    if '?' in pat {
      AttenuatesIffNoQuestionMark(cls, pat);
    } else if Anchored(pat) {
      forall s, x | FnMatch(cls, s, pat) && FnMatch(cls, x, s) ensures FnMatch(cls, x, pat) {
        AnchoredBounds(cls, pat, s, x);
      }
    } else {
      NotAnchoredEscapes(cls, pat);
    }
  }

  /** Under every reading of brackets, ... */
  ghost predicate BoundsUnderAllReadings(pat: string) {
    forall cls: ClassOf :: BoundsAll(cls, pat)
  }

  ghost function AdmitEverything(): ClassOf {
    (body, c) => true
  }

  /** ... the condition is the same. */
  lemma {:induction false} BoundsUnderAllReadingsIff(pat: string)
    requires NoBracket(pat)
    ensures BoundsUnderAllReadings(pat) <==> '?' !in pat && Anchored(pat)
  {
    BoundsAllIff(AdmitEverything(), pat);
    if '?' !in pat && Anchored(pat) {
      forall cls: ClassOf ensures BoundsAll(cls, pat) {
        forall s, x | FnMatch(cls, s, pat) && FnMatch(cls, x, s) ensures FnMatch(cls, x, pat) {
          AnchoredBounds(cls, pat, s, x);
        }
      }
    }
  }

  lemma {:induction false} NotAnchoredEscapes(cls: ClassOf, pat: string)
    requires ReadsLetters(cls) && NoBracket(pat) && '?' !in pat && !Anchored(pat)
    ensures !BoundsAll(cls, pat)
  {
    var f := IndexOf(pat, '*', 0);
    IndexOfFirst(pat, '*', 0);
    var a, r := pat[..f], pat[f..];
    if ']' in r {
      ClosingBracketEscapes(cls, pat, a, r);
    } else {
      NoneClosesBehindStar(pat, f);
      var i, j, k :| Gap(pat, i, j, k);
      MiddleEscapes(cls, pat, f, j, LastStar(pat, k));
    }
  }

  lemma {:induction false} NoneClosesBehindStar(pat: string, f: nat)
    requires f <= |pat| && '*' !in pat[..f] && ']' !in pat[f..]
    ensures forall i, j :: !ClosesBehindStar(pat, i, j)
    ensures forall j :: f <= j < |pat| ==> pat[j] != ']'
  {
    forall j | f <= j < |pat| ensures pat[j] != ']' {
      assert pat[j] == pat[f..][j - f];
    }
    forall i | 0 <= i < f ensures pat[i] != '*' {
      assert pat[i] == pat[..f][i];
    }
  }

  lemma {:induction false} MiddleEscapes(cls: ClassOf, pat: string, f: nat, j: nat, l: nat)
    requires ReadsLetters(cls)
    requires NoBracket(pat) && '?' !in pat && f < j < l < |pat| && pat[f] == '*' && pat[j] != '*' && pat[l] == '*'
    requires forall i :: 0 <= i < f || l < i < |pat| ==> pat[i] != '*'
    requires forall i :: f <= i < |pat| ==> pat[i] != ']'
    ensures !BoundsAll(cls, pat)
  {
    var a, m, b := pat[..f], pat[f..l], pat[l + 1..];
    assert pat == a + (m + "*" + b);
    assert m[j - f] == pat[j];
    SkeletonKeeps(m, j - f);
    BetweenStarsEscapes(cls, pat, a, m, b);
  }

  ghost function LastStar(pat: string, k: nat): (l: nat)
    requires k < |pat| && pat[k] == '*'
    ensures k <= l < |pat| && pat[l] == '*' && forall i :: l < i < |pat| ==> pat[i] != '*'
    decreases |pat| - k
  {
    if i :| k < i < |pat| && pat[i] == '*' then LastStar(pat, i) else k
  }

  lemma {:induction false} SkeletonKeeps(m: string, j: nat)
    requires j < |m| && m[j] != '*' && m[j] != '?'
    ensures Skeleton(m) != ""
    decreases |m|
  {
    if j > 0 {
      SkeletonKeeps(m[1..], j - 1);
    }
  }

  /** Brackets in a granted scope escape even a star pattern: "*b]" matches the text "[ab]", which
      as a pattern admits "a". */
  lemma {:induction false} BracketScopesEscape(cls: ClassOf)
    requires cls("ab", 'a')
    ensures FnMatch(cls, "[ab]", "*b]") && FnMatch(cls, "a", "[ab]") && !FnMatch(cls, "a", "*b]")
  {
    var p := "*b]";
    ParseCons(p);
    ParseCons(p[1..]);
    ParseCons(p[1..][1..]);
    assert p[1..] == "b]" && p[1..][1..] == "]";
    assert Parse("]") == [Lit(']')] && Parse("b]") == [Lit('b'), Lit(']')];
    var t := [Star, Lit('b'), Lit(']')];
    assert Parse(p) == t;
    assert t[1..] == [Lit('b'), Lit(']')] && t[1..][1..] == [Lit(']')];
    assert Matches(cls, [Lit(']')], "]");
    assert "b]"[1..] == "]";
    assert Matches(cls, t[1..], "b]");
    assert "ab]"[1..] == "b]" && "[ab]"[1..] == "ab]";
    assert Matches(cls, t, "b]");
    assert Matches(cls, t, "ab]");
    assert IndexOf("[ab]", ']', 3) == 3 && IndexOf("[ab]", ']', 2) == 3 && Closing("[ab]", 1) == 3;
    assert "[ab]"[1..3] == "ab" && "[ab]"[4..] == "";
    assert Parse("[ab]") == [Class("ab")];
    assert !Matches(cls, t[1..], "a") && !Matches(cls, t[1..], "");
    assert "a"[1..] == "";
  }
}
