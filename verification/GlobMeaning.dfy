/** What a glob means: a text matches if it can be cut into one piece for every token of the pattern. */
module GlobMeanings {
  import opened Glob

  // ---------------------------------------------------------------------
  // Tokens
  // ---------------------------------------------------------------------

  /** A bracket that opens at the start of `pat` can be closed at `j`: the body is not empty, and neither a
      '!' alone. */
  predicate CanClose(pat: string, j: int) {
    2 <= j < |pat| && pat[j] == ']' && !(j == 2 && pat[1] == '!')
  }

  predicate Closes(pat: string, j: int) {
    CanClose(pat, j) && forall i :: 2 <= i < j ==> !CanClose(pat, i)
  }

  lemma {:induction false} IndexIsFirst(pat: string, c: char, from: nat, i: nat)
    requires from <= |pat| && from <= i < IndexOf(pat, c, from)
    ensures pat[i] != c
    decreases |pat| - from
  {
    if i > from {
      IndexIsFirst(pat, c, from + 1, i);
    }
  }

  lemma {:induction false} ClosingCloses(pat: string)
    requires pat != ""
    ensures Closing(pat, 1) < |pat| ==> Closes(pat, Closing(pat, 1))
    ensures Closing(pat, 1) == |pat| ==> forall j :: !CanClose(pat, j)
  {
    var first := if 1 < |pat| && pat[1] == '!' then 2 else 1;
    var from := if first < |pat| && pat[first] == ']' then first + 1 else first;
    var end := IndexOf(pat, ']', from);
    assert Closing(pat, 1) == end;
    forall i | 2 <= i < end ensures !CanClose(pat, i) {
      if from <= i {
        IndexIsFirst(pat, ']', from, i);
      }
    }
  }

  lemma {:induction false} ClosesOnce(pat: string, i: int, j: int)
    requires Closes(pat, i) && Closes(pat, j)
    ensures i == j
  {
    assert CanClose(pat, i) && CanClose(pat, j);
  }

  lemma {:induction false} ReadUpTo(pat: string, end: nat)
    requires pat != "" && pat[0] == '[' && end == Closing(pat, 1)
    ensures Parse(pat) == if end < |pat| then [Class(pat[1..end])] + Parse(pat[end + 1..])
                          else [Lit('[')] + Parse(pat[1..])
  {
  }

  /** A bracket that is closed makes one expression, whose body is what stands between; an unclosed one is
      an ordinary character. */
  lemma {:induction false} ReadBracket(pat: string, j: int)
    requires pat != "" && pat[0] == '['
    ensures Closes(pat, j) ==> Parse(pat) == [Class(pat[1..j])] + Parse(pat[j + 1..])
    ensures (forall i :: !CanClose(pat, i)) ==> Parse(pat) == [Lit('[')] + Parse(pat[1..])
  {
    var end := Closing(pat, 1);
    ReadUpTo(pat, end);
    ClosingCloses(pat);
    if Closes(pat, j) {
      assert CanClose(pat, j) && end < |pat|;
      ClosesOnce(pat, j, end);
    } else if forall i :: !CanClose(pat, i) {
      assert !CanClose(pat, end);
      assert end == |pat|;
    }
  }

  /** Every other character stands for itself, a star and a question mark for what they mean. */
  lemma {:induction false} ReadCharacter(pat: string)
    requires pat != "" && pat[0] != '['
    ensures Parse(pat)
            == [if pat[0] == '*' then Star else if pat[0] == '?' then AnyChar else Lit(pat[0])] + Parse(pat[1..])
  {
  }

  // ---------------------------------------------------------------------
  // Texts
  // ---------------------------------------------------------------------

  /** A piece of text that one token can stand for. */
  predicate Fits(cls: ClassOf, t: Token, piece: string) {
    match t
    case Star => true
    case AnyChar => |piece| == 1
    case Lit(c) => piece == [c]
    case Class(body) => |piece| == 1 && cls(body, piece[0])
  }

  function Joined(pieces: seq<string>): string {
    if pieces == [] then "" else pieces[0] + Joined(pieces[1..])
  }

  /** `pieces` cuts `s` into one piece for every token. */
  ghost predicate Cut(cls: ClassOf, p: seq<Token>, s: string, pieces: seq<string>) {
    |pieces| == |p| && Joined(pieces) == s && forall i :: 0 <= i < |p| ==> Fits(cls, p[i], pieces[i])
  }

  lemma {:induction false} CutCons(cls: ClassOf, p: seq<Token>, s: string, piece: string, rest: seq<string>)
    requires p != [] && Fits(cls, p[0], piece) && Cut(cls, p[1..], s, rest)
    ensures Cut(cls, p, piece + s, [piece] + rest)
  {
    var pieces := [piece] + rest;
    assert pieces[1..] == rest;
    forall i | 0 <= i < |p| ensures Fits(cls, p[i], pieces[i]) {
      if i > 0 {
        assert p[i] == p[1..][i - 1] && pieces[i] == rest[i - 1];
      }
    }
  }

  lemma {:induction false} CutTail(cls: ClassOf, p: seq<Token>, s: string, pieces: seq<string>)
    requires p != [] && Cut(cls, p, s, pieces)
    ensures Fits(cls, p[0], pieces[0]) && Cut(cls, p[1..], Joined(pieces[1..]), pieces[1..])
    ensures s == pieces[0] + Joined(pieces[1..])
  {
  }

  lemma {:induction false} LongerStar(cls: ClassOf, p: seq<Token>, c: char, s: string, pieces: seq<string>)
    requires p != [] && p[0] == Star && Cut(cls, p, s, pieces)
    ensures Cut(cls, p, [c] + s, [[c] + pieces[0]] + pieces[1..])
  {
    CutTail(cls, p, s, pieces);
    CutCons(cls, p, Joined(pieces[1..]), [c] + pieces[0], pieces[1..]);
    assert ([c] + pieces[0]) + Joined(pieces[1..]) == [c] + s;
  }

  lemma {:induction false} MatchHasCut(cls: ClassOf, p: seq<Token>, s: string) returns (pieces: seq<string>)
    requires Matches(cls, p, s)
    ensures Cut(cls, p, s, pieces)
    decreases |p| + |s|
  {
    if p == [] {
      pieces := [];
    } else if p[0] == Star && Matches(cls, p[1..], s) {
      var rest := MatchHasCut(cls, p[1..], s);
      CutCons(cls, p, s, "", rest);
      assert "" + s == s;
      pieces := [""] + rest;
    } else if p[0] == Star {
      var shorter := MatchHasCut(cls, p, s[1..]);
      LongerStar(cls, p, s[0], s[1..], shorter);
      assert [s[0]] + s[1..] == s;
      pieces := [[s[0]] + shorter[0]] + shorter[1..];
    } else {
      var rest := MatchHasCut(cls, p[1..], s[1..]);
      CutCons(cls, p, s[1..], [s[0]], rest);
      assert [s[0]] + s[1..] == s;
      pieces := [[s[0]]] + rest;
    }
  }

  lemma {:induction false} ShorterStar(cls: ClassOf, p: seq<Token>, s: string, pieces: seq<string>)
    requires p != [] && p[0] == Star && Cut(cls, p, s, pieces) && pieces[0] != ""
    ensures s != "" && Cut(cls, p, s[1..], [pieces[0][1..]] + pieces[1..])
  {
    CutTail(cls, p, s, pieces);
    CutCons(cls, p, Joined(pieces[1..]), pieces[0][1..], pieces[1..]);
    assert s[1..] == pieces[0][1..] + Joined(pieces[1..]);
  }

  lemma {:induction false} CutMatches(cls: ClassOf, p: seq<Token>, s: string, pieces: seq<string>)
    requires Cut(cls, p, s, pieces)
    ensures Matches(cls, p, s)
    decreases |p| + |s|
  {
    if p != [] {
      CutTail(cls, p, s, pieces);
      if p[0] == Star && pieces[0] == "" {
        assert s == Joined(pieces[1..]);
        CutMatches(cls, p[1..], s, pieces[1..]);
      } else if p[0] == Star {
        ShorterStar(cls, p, s, pieces);
        CutMatches(cls, p, s[1..], [pieces[0][1..]] + pieces[1..]);
      } else {
        assert s[1..] == Joined(pieces[1..]);
        CutMatches(cls, p[1..], s[1..], pieces[1..]);
      }
    }
  }

  lemma {:induction false} TokensMatchByCut(cls: ClassOf, p: seq<Token>, s: string)
    ensures Matches(cls, p, s) <==> exists pieces :: Cut(cls, p, s, pieces)
  {
    if Matches(cls, p, s) {
      var pieces := MatchHasCut(cls, p, s);
    } else {
      forall pieces ensures !Cut(cls, p, s, pieces) {
        if Cut(cls, p, s, pieces) {
          CutMatches(cls, p, s, pieces);
        }
      }
    }
  }

  /** The meaning of `fnmatch`: a text matches a pattern if and only if it can be cut into one piece for
      every token, any text for a star, one character for a question mark, the character itself for an
      ordinary one, and an admitted character for a bracket expression. */
  lemma {:induction false} MatchIsCut(cls: ClassOf, name: string, pat: string, p: seq<Token>)
    requires p == Parse(pat)
    ensures FnMatch(cls, name, pat) <==> exists pieces :: Cut(cls, p, name, pieces)
  {
    TokensMatchByCut(cls, p, name);
  }
}
