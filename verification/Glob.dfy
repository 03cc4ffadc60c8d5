/** Shell-style patterns as `fnmatch.fnmatchcase` reads them, and when one pattern bounds another. */
module Glob {

  datatype Token = Star | AnyChar | Lit(c: char) | Class(body: string)

  /** Which characters a bracket expression admits: given from outside. */
  type ClassOf = (string, char) -> bool

  function IndexOf(pat: string, c: char, from: nat): (j: nat)
    requires from <= |pat|
    ensures from <= j <= |pat|
    ensures j < |pat| ==> pat[j] == c
    decreases |pat| - from
  {
    if from == |pat| || pat[from] == c then from else IndexOf(pat, c, from + 1)
  }

  /** The closing bracket of an expression whose body starts at `i`, or the length of `pat`.  A '!'
      and then a ']' at the start of the body belong to the body. */
  function Closing(pat: string, i: nat): (j: nat)
    requires i <= |pat|
    ensures i <= j <= |pat|
  {
    var j := if i < |pat| && pat[i] == '!' then i + 1 else i;
    var k := if j < |pat| && pat[j] == ']' then j + 1 else j;
    IndexOf(pat, ']', k)
  }

  function Parse(pat: string): seq<Token>
    decreases |pat|
  {
    if pat == "" then []
    else if pat[0] == '[' && Closing(pat, 1) < |pat| then
      [Class(pat[1..Closing(pat, 1)])] + Parse(pat[Closing(pat, 1) + 1..])
    else [TokenOf(pat[0])] + Parse(pat[1..])
  }

  function TokenOf(c: char): Token {
    if c == '*' then Star else if c == '?' then AnyChar else Lit(c)
  }

  predicate Matches(cls: ClassOf, p: seq<Token>, s: string)
    decreases |p| + |s|
  {
    if p == [] then s == ""
    else if p[0] == Star then Matches(cls, p[1..], s) || (s != "" && Matches(cls, p, s[1..]))
    else s != "" && MatchesChar(cls, p[0], s[0]) && Matches(cls, p[1..], s[1..])
  }

  predicate MatchesChar(cls: ClassOf, t: Token, c: char) {
    match t
    case Star => false
    case AnyChar => true
    case Lit(d) => c == d
    case Class(body) => cls(body, c)
  }

  /** `fnmatch.fnmatchcase(name, pat)`. */
  predicate FnMatch(cls: ClassOf, name: string, pat: string) {
    Matches(cls, Parse(pat), name)
  }

  /** `any(fnmatch.fnmatchcase(name, pat) for pat in pats)`. */
  predicate MatchesAny(cls: ClassOf, name: string, pats: seq<string>) {
    exists pat :: pat in pats && FnMatch(cls, name, pat)
  }

  predicate NoBracket(pat: string) {
    '[' !in pat
  }

  // ---------------------------------------------------------------------
  // One pattern matched by another
  // ---------------------------------------------------------------------

  /** Patterns built from stars and ordinary characters only. */
  ghost predicate StarsOnly(p: seq<Token>) {
    forall t :: t in p ==> t == Star || (t.Lit? && TokenOf(t.c) == t)
  }

  lemma {:induction false} ParseCons(pat: string)
    requires pat != "" && NoBracket(pat)
    ensures Parse(pat) == [TokenOf(pat[0])] + Parse(pat[1..])
    ensures NoBracket(pat[1..])
  {
  }

  lemma {:induction false} StarsOnlyParse(pat: string)
    requires NoBracket(pat) && '?' !in pat
    ensures StarsOnly(Parse(pat))
    decreases |pat|
  {
    if pat != "" {
      ParseCons(pat);
      StarsOnlyParse(pat[1..]);
    }
  }

  /** If a star pattern matches the text of the pattern `s`, then it matches everything that `s`
      matches. */
  lemma {:induction false} MatchComposes(cls: ClassOf, p: seq<Token>, s: string, x: string)
    requires StarsOnly(p) && NoBracket(s)
    requires Matches(cls, p, s) && Matches(cls, Parse(s), x)
    ensures Matches(cls, p, x)
    decreases |p| + |s| + |x|
  {
    if p == [] {
    } else if p[0] == Star {
      if Matches(cls, p[1..], s) {
        MatchComposes(cls, p[1..], s, x);
      } else {
        ParseCons(s);
        var t := Parse(s);
        if t[0] == Star && Matches(cls, t[1..], x) {
          MatchComposes(cls, p, s[1..], x);
        } else if t[0] == Star {
          MatchComposes(cls, p, s, x[1..]);
        } else {
          MatchComposes(cls, p, s[1..], x[1..]);
        }
      }
    } else {
      ParseCons(s);
      assert p[0] in p;
      assert Parse(s)[0] == p[0];
      MatchComposes(cls, p[1..], s[1..], x[1..]);
    }
  }

  // ---------------------------------------------------------------------
  // Why question marks in a role pattern break this
  // ---------------------------------------------------------------------

  /** The pattern with every question mark widened to a star. */
  function Widened(pat: string): string {
    if pat == "" then "" else [if pat[0] == '?' then '*' else pat[0]] + Widened(pat[1..])
  }

  /** The ordinary characters of the pattern. */
  function Skeleton(pat: string): string {
    if pat == "" then ""
    else if pat[0] == '?' || pat[0] == '*' then Skeleton(pat[1..])
    else [pat[0]] + Skeleton(pat[1..])
  }

  function MinLength(p: seq<Token>): nat {
    if p == [] then 0 else (if p[0] == Star then 0 else 1) + MinLength(p[1..])
  }

  lemma {:induction false} MatchNeedsLength(cls: ClassOf, p: seq<Token>, x: string)
    requires Matches(cls, p, x)
    ensures |x| >= MinLength(p)
    decreases |p| + |x|
  {
    if p != [] {
      if p[0] == Star && !Matches(cls, p[1..], x) {
        MatchNeedsLength(cls, p, x[1..]);
      } else if p[0] == Star {
        MatchNeedsLength(cls, p[1..], x);
      } else {
        MatchNeedsLength(cls, p[1..], x[1..]);
      }
    }
  }

  lemma {:induction false} WidenedEscapes(cls: ClassOf, pat: string)
    requires NoBracket(pat)
    ensures NoBracket(Widened(pat))
    ensures FnMatch(cls, Widened(pat), pat)
    ensures FnMatch(cls, Skeleton(pat), Widened(pat))
    ensures |Skeleton(pat)| <= MinLength(Parse(pat))
    ensures '?' in pat ==> |Skeleton(pat)| < MinLength(Parse(pat))
    decreases |pat|
  {
    if pat != "" {
      WidenedEscapes(cls, pat[1..]);
      ParseCons(pat);
      var w := Widened(pat);
      assert w[1..] == Widened(pat[1..]);
      ParseCons(w);
      if pat[0] == '*' {
        assert Matches(cls, Parse(pat)[1..], w[1..]);
        assert Matches(cls, Parse(pat), w[1..]);
      }
      if pat[0] == '*' || pat[0] == '?' {
        assert Skeleton(pat) == Skeleton(pat[1..]);
      } else {
        assert Skeleton(pat)[1..] == Skeleton(pat[1..]);
      }
    }
  }

  /** Whatever bracket-free pattern `s` is granted under `pat`, everything it admits is admitted by `pat`. */
  ghost predicate Attenuates(cls: ClassOf, pat: string) {
    forall s, x {:trigger FnMatch(cls, s, pat), FnMatch(cls, x, s)} ::
      NoBracket(s) && FnMatch(cls, s, pat) && FnMatch(cls, x, s) ==> FnMatch(cls, x, pat)
  }

  /** A bracket-free role pattern bounds everything granted under it exactly when it has no '?'. */
  lemma {:induction false} AttenuatesIffNoQuestionMark(cls: ClassOf, pat: string)
    requires NoBracket(pat)
    ensures Attenuates(cls, pat) <==> '?' !in pat
  {
    if '?' in pat {
      WidenedEscapes(cls, pat);
      var s, x := Widened(pat), Skeleton(pat);
      if FnMatch(cls, x, pat) {
        MatchNeedsLength(cls, Parse(pat), x);
        assert false;
      }
      assert FnMatch(cls, s, pat) && FnMatch(cls, x, s);
    } else {
      StarsOnlyParse(pat);
      forall s, x | NoBracket(s) && FnMatch(cls, s, pat) && FnMatch(cls, x, s) ensures FnMatch(cls, x, pat) {
        MatchComposes(cls, Parse(pat), s, x);
      }
    }
  }

  /** Every bracket-free pattern matches its own text. */
  lemma {:induction false} MatchesItself(cls: ClassOf, s: string)
    requires NoBracket(s)
    ensures FnMatch(cls, s, s)
    decreases |s|
  {
    if s != "" {
      ParseCons(s);
      MatchesItself(cls, s[1..]);
      assert Matches(cls, Parse(s)[1..], s[1..]);
      if s[0] == '*' {
        assert Matches(cls, Parse(s), s[1..]);
      }
    }
  }

  // ---------------------------------------------------------------------
  // Several patterns together
  // ---------------------------------------------------------------------

  lemma {:induction false} WidenedStarsOnly(pat: string)
    requires NoBracket(pat)
    ensures NoBracket(Widened(pat)) && '?' !in Widened(pat)
    decreases |pat|
  {
    if pat != "" {
      WidenedStarsOnly(pat[1..]);
    }
  }

  /** Widening keeps what a pattern matches. */
  lemma {:induction false} WidenedKeeps(cls: ClassOf, pat: string, x: string)
    requires NoBracket(pat) && FnMatch(cls, x, pat)
    ensures FnMatch(cls, x, Widened(pat))
    decreases |pat| + |x|
  {
    if pat != "" {
      var w := Widened(pat);
      WidenedStarsOnly(pat);
      ParseCons(pat);
      ParseCons(w);
      assert w[1..] == Widened(pat[1..]);
      if pat[0] == '*' && !Matches(cls, Parse(pat)[1..], x) {
        WidenedKeeps(cls, pat, x[1..]);
      } else if pat[0] == '*' {
        WidenedKeeps(cls, pat[1..], x);
      } else {
        WidenedKeeps(cls, pat[1..], x[1..]);
        if pat[0] == '?' {
          assert Matches(cls, Parse(w), x[1..]);
        }
      }
    }
  }

  /** Whatever bracket-free pattern is granted under one of `pats`, they admit together what it admits. */
  ghost predicate AttenuateTogether(cls: ClassOf, pats: seq<string>) {
    forall s, x :: NoBracket(s) && MatchesAny(cls, s, pats) && FnMatch(cls, x, s) ==> MatchesAny(cls, x, pats)
  }

  /** Together `pats` admit whatever one of them admits with its question marks widened to stars. */
  ghost predicate AdmitWidened(cls: ClassOf, pats: seq<string>) {
    forall p, x :: p in pats && FnMatch(cls, x, Widened(p)) ==> MatchesAny(cls, x, pats)
  }

  /** Bracket-free patterns bound together all bracket-free patterns granted under them exactly when they
      admit what they admit widened: of all grants under a pattern, its widening admits most. */
  lemma {:induction false} AttenuateTogetherIff(cls: ClassOf, pats: seq<string>)
    requires forall p :: p in pats ==> NoBracket(p)
    ensures AttenuateTogether(cls, pats) <==> AdmitWidened(cls, pats)
  {
    if AttenuateTogether(cls, pats) {
      forall p, x | p in pats && FnMatch(cls, x, Widened(p)) ensures MatchesAny(cls, x, pats) {
        WidenedEscapes(cls, p);
        assert MatchesAny(cls, Widened(p), pats);
      }
    }
    if AdmitWidened(cls, pats) {
      forall s, x | NoBracket(s) && MatchesAny(cls, s, pats) && FnMatch(cls, x, s) ensures MatchesAny(cls, x, pats) {
        var p :| p in pats && FnMatch(cls, s, p);
        WidenedKeeps(cls, p, s);
        WidenedStarsOnly(p);
        StarsOnlyParse(Widened(p));
        MatchComposes(cls, Parse(Widened(p)), s, x);
      }
    }
  }

  /** For instance: a question mark does no harm beside a star. */
  lemma {:induction false} StarCoversQuestionMark(cls: ClassOf)
    ensures AttenuateTogether(cls, ["a?", "*"]) && !Attenuates(cls, "a?")
  {
    AttenuatesIffNoQuestionMark(cls, "a?");
    assert '?' == "a?"[1];
    forall x ensures FnMatch(cls, x, "*") {
      StarMatchesAll(cls, x);
    }
    assert "*" in ["a?", "*"];
  }

  lemma {:induction false} StarMatchesAll(cls: ClassOf, x: string)
    ensures FnMatch(cls, x, "*")
    decreases |x|
  {
    ParseCons("*");
    if x != "" {
      StarMatchesAll(cls, x[1..]);
    }
  }
}
