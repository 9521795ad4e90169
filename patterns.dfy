/**
 * The directive patterns of `regular_expressions.py` and the part of Python's
 * `re` they rely on. Each pattern is a sequence of tokens: a literal, an
 * optional literal `(?:x)?`, a whitespace run `\s*`/`\s+`, or `.*` (any run
 * without a newline). Every quantifier is greedy, so among all the ways a
 * pattern can match at a position, backtracking returns the one whose token
 * end positions are lexicographically greatest; `Fit` computes exactly that.
 */
module Patterns {
  import opened Wrappers
  import opened Text

  datatype Token = Lit(text: string) | Opt(text: string) | Ws(least: nat) | Any

  /** A compiled pattern and the token indices of its capture groups 1, 2, ... */
  datatype Regex = Regex(tokens: seq<Token>, groups: seq<nat>)

  predicate ValidRegex(re: Regex) {
    && |re.tokens| > 0
    && re.tokens[0].Lit? && re.tokens[0].text != ""
    && forall j :: 0 <= j < |re.groups| ==> re.groups[j] < |re.tokens|
  }

  /** Token `t` can match `s[a..e]`. */
  predicate Spans(s: string, a: int, t: Token, e: int)
    requires 0 <= a <= |s|
  {
    match t
    case Lit(l) => e == a + |l| && OccursAt(s, l, a)
    case Opt(l) => (e == a + |l| && OccursAt(s, l, a)) || e == a
    case Ws(m) => a + m <= e <= |s| && forall k :: a <= k < e ==> IsSpace(s[k])
    case Any => a <= e <= |s| && forall k :: a <= k < e ==> s[k] != '\n'
  }

  /** The pattern `pat` matches from `a` with token `k` ending at `ends[k]`. */
  predicate Accepts(s: string, a: int, pat: seq<Token>, ends: seq<int>)
    requires 0 <= a <= |s|
    decreases |pat|
  {
    if pat == [] then ends == []
    else
      && |ends| == |pat|
      && Spans(s, a, pat[0], ends[0])
      && a <= ends[0] <= |s|
      && Accepts(s, ends[0], pat[1..], ends[1..])
  }

  /** Lexicographic order on equally long sequences of positions. */
  predicate LexGE(x: seq<int>, y: seq<int>)
    requires |x| == |y|
  {
    x == [] || x[0] > y[0] || (x[0] == y[0] && LexGE(x[1..], y[1..]))
  }

  /** The greedy (backtracking) choice of token ends from position `a`. */
  function Fit(s: string, a: int, pat: seq<Token>): Option<seq<int>>
    requires 0 <= a <= |s|
    decreases |pat|, 1, 0
  {
    if pat == [] then Some([]) else FitDown(s, a, pat, |s|)
  }

  /** Tries the first token's end positions from `e` downwards. */
  function FitDown(s: string, a: int, pat: seq<Token>, e: int): Option<seq<int>>
    requires 0 <= a <= |s| && pat != [] && e <= |s|
    decreases |pat|, 0, e - a + 1
  {
    if e < a then None
    else if Spans(s, a, pat[0], e) then
      match Fit(s, e, pat[1..])
      case Some(rest) => Some([e] + rest)
      case None => FitDown(s, a, pat, e - 1)
    else FitDown(s, a, pat, e - 1)
  }

  lemma {:induction false} FitSound(s: string, a: int, pat: seq<Token>)
    requires 0 <= a <= |s|
    requires Fit(s, a, pat).Some?
    ensures Accepts(s, a, pat, Fit(s, a, pat).value)
    decreases |pat|, 1, 0
  {
    if pat != [] {
      FitDownSound(s, a, pat, |s|);
    }
  }

  lemma {:induction false} FitDownSound(s: string, a: int, pat: seq<Token>, e: int)
    requires 0 <= a <= |s| && pat != [] && e <= |s|
    requires FitDown(s, a, pat, e).Some?
    ensures Accepts(s, a, pat, FitDown(s, a, pat, e).value)
    decreases |pat|, 0, e - a + 1
  {
    if Spans(s, a, pat[0], e) && Fit(s, e, pat[1..]).Some? {
      FitSound(s, e, pat[1..]);
      var r := FitDown(s, a, pat, e).value;
      assert r[1..] == Fit(s, e, pat[1..]).value;
    } else {
      FitDownSound(s, a, pat, e - 1);
    }
  }

  lemma {:induction false} FitComplete(s: string, a: int, pat: seq<Token>, ends: seq<int>)
    requires 0 <= a <= |s|
    requires Accepts(s, a, pat, ends)
    ensures Fit(s, a, pat).Some? && |Fit(s, a, pat).value| == |ends|
    ensures LexGE(Fit(s, a, pat).value, ends)
    decreases |pat|, 1, 0
  {
    if pat != [] {
      FitDownComplete(s, a, pat, |s|, ends);
    }
  }

  lemma {:induction false} FitDownComplete(s: string, a: int, pat: seq<Token>, e: int, ends: seq<int>)
    requires 0 <= a <= |s| && pat != [] && e <= |s|
    requires Accepts(s, a, pat, ends) && ends[0] <= e
    ensures FitDown(s, a, pat, e).Some? && |FitDown(s, a, pat, e).value| == |ends|
    ensures LexGE(FitDown(s, a, pat, e).value, ends)
    decreases |pat|, 0, e - a + 1
  {
    if Spans(s, a, pat[0], e) && Fit(s, e, pat[1..]).Some? {
      var rest := Fit(s, e, pat[1..]).value;
      var r := [e] + rest;
      assert r[1..] == rest;
      if e == ends[0] {
        FitComplete(s, e, pat[1..], ends[1..]);
      } else {
        FitSound(s, e, pat[1..]);
        AcceptsLength(s, e, pat[1..], rest);
      }
    } else {
      if e == ends[0] {
        FitComplete(s, e, pat[1..], ends[1..]);
        assert false;
      }
      FitDownComplete(s, a, pat, e - 1, ends);
    }
  }

  lemma {:induction false} AcceptsLength(s: string, a: int, pat: seq<Token>, ends: seq<int>)
    requires 0 <= a <= |s|
    requires Accepts(s, a, pat, ends)
    ensures |ends| == |pat|
  {
  }

  /** Accepted ends never go backwards and stay inside the string. */
  lemma {:induction false} AcceptsChain(s: string, a: int, pat: seq<Token>, ends: seq<int>)
    requires 0 <= a <= |s|
    requires Accepts(s, a, pat, ends)
    ensures forall k :: 0 <= k < |ends| ==> a <= ends[k] <= |s|
    ensures forall k :: 0 < k < |ends| ==> ends[k - 1] <= ends[k]
    ensures forall k :: 0 <= k < |ends| ==> ends[0] <= ends[k]
    decreases |pat|
  {
    if pat != [] {
      AcceptsChain(s, ends[0], pat[1..], ends[1..]);
      assert forall k :: 0 < k < |ends| ==> ends[k] == ends[1..][k - 1];
    }
  }

  /** Prepending a token that spans `s[a..e]` to a pattern accepted from `e`. */
  lemma AcceptsCons(s: string, a: int, t: Token, e: int, pat: seq<Token>, ends: seq<int>)
    requires 0 <= a <= e <= |s|
    requires Spans(s, a, t, e) && Accepts(s, e, pat, ends)
    ensures Accepts(s, a, [t] + pat, [e] + ends)
  {
    AcceptsLength(s, e, pat, ends);
    assert ([t] + pat)[1..] == pat;
    assert ([e] + ends)[1..] == ends;
  }

  /** The first token of an accepted split. */
  lemma AcceptsHead(s: string, a: int, t: Token, pat: seq<Token>, ends: seq<int>)
    requires 0 <= a <= |s|
    requires Accepts(s, a, [t] + pat, ends)
    ensures |ends| == |pat| + 1 && Spans(s, a, t, ends[0]) && a <= ends[0] <= |s|
    ensures Accepts(s, ends[0], pat, ends[1..])
  {
    assert ([t] + pat)[1..] == pat;
  }

  /** A match: where it starts and ends, and its groups (group 0 is the whole match). */
  datatype Match = Match(start: int, end: int, groups: seq<string>)

  /** The text of token `t` in a split starting at `a`. */
  function Segment(s: string, a: int, ends: seq<int>, t: nat): string
    requires 0 <= a <= |s| && t < |ends|
    requires forall k :: 0 <= k < |ends| ==> a <= ends[k] <= |s|
    requires forall k :: 0 < k < |ends| ==> ends[k - 1] <= ends[k]
  {
    s[(if t == 0 then a else ends[t - 1])..ends[t]]
  }

  /**
   * `re.match` at position `i`: a match exactly when the pattern can match
   * there, and then the greedy split, which ends after the first token.
   */
  function MatchAt(s: string, i: int, re: Regex): (r: Option<Match>)
    requires ValidRegex(re) && 0 <= i <= |s|
    ensures r.Some? ==> exists ends :: Accepts(s, i, re.tokens, ends)
    ensures r.None? ==> forall ends :: !Accepts(s, i, re.tokens, ends)
    ensures r.Some? ==> r.value.start == i && i < r.value.end <= |s|
    ensures r.Some? ==> |r.value.groups| == |re.groups| + 1 && r.value.groups[0] == s[i..r.value.end]
  {
    match Fit(s, i, re.tokens)
    case None =>
      assert forall ends :: !Accepts(s, i, re.tokens, ends) by {
        forall ends | Accepts(s, i, re.tokens, ends) {
          FitComplete(s, i, re.tokens, ends);
        }
      }
      None
    case Some(ends) =>
      FitSound(s, i, re.tokens);
      AcceptsChain(s, i, re.tokens, ends);
      var end := ends[|ends| - 1];
      assert Accepts(s, i, re.tokens, ends);
      assert Spans(s, i, re.tokens[0], ends[0]);
      assert end >= ends[0] >= i + |re.tokens[0].text|;
      Some(Match(i, end, [s[i..end]] + seq(|re.groups|, j requires 0 <= j < |re.groups| => Segment(s, i, ends, re.groups[j]))))
  }

  /** Among all the ways the pattern matches at `i`, the chosen one is the greatest. */
  lemma GreedyIsGreatest(s: string, i: int, re: Regex, ends: seq<int>)
    requires ValidRegex(re) && 0 <= i <= |s|
    requires Accepts(s, i, re.tokens, ends)
    ensures Fit(s, i, re.tokens).Some?
    ensures Accepts(s, i, re.tokens, Fit(s, i, re.tokens).value)
    ensures |Fit(s, i, re.tokens).value| == |ends| && LexGE(Fit(s, i, re.tokens).value, ends)
  {
    FitComplete(s, i, re.tokens, ends);
    FitSound(s, i, re.tokens);
  }

  /** Position `p` lies inside one of the matches. */
  predicate Covered(ms: seq<Match>, p: int) {
    exists k :: 0 <= k < |ms| && ms[k].start <= p < ms[k].end
  }

  /**
   * `re.finditer(s)` from position `pos`: the leftmost match, then the search
   * resumes where it ended. Every reported match is a match, they are in
   * order and do not overlap, and every position where the pattern matches
   * is inside a reported match.
   */
  function FindIter(s: string, re: Regex, pos: int): (r: seq<Match>)
    requires ValidRegex(re) && 0 <= pos
    ensures forall k :: 0 <= k < |r| ==> pos <= r[k].start <= |s| && MatchAt(s, r[k].start, re) == Some(r[k])
    ensures forall k :: 0 < k < |r| ==> r[k - 1].end <= r[k].start
    ensures forall p :: pos <= p <= |s| && MatchAt(s, p, re).Some? ==> Covered(r, p)
    decreases |s| - pos + 1
  {
    if pos > |s| then []
    else
      match MatchAt(s, pos, re)
      case Some(m) =>
        var rest := FindIter(s, re, m.end);
        CoverStep(s, re, pos, m, rest);
        [m] + rest
      case None =>
        var r := FindIter(s, re, pos + 1);
        r
  }

  /** The covering property after prepending the leftmost match `m`. */
  lemma CoverStep(s: string, re: Regex, pos: int, m: Match, rest: seq<Match>)
    requires ValidRegex(re) && 0 <= pos <= |s|
    requires MatchAt(s, pos, re) == Some(m)
    requires forall p :: m.end <= p <= |s| && MatchAt(s, p, re).Some? ==> Covered(rest, p)
    ensures forall p :: pos <= p <= |s| && MatchAt(s, p, re).Some? ==> Covered([m] + rest, p)
  {
    var r := [m] + rest;
    forall p | pos <= p <= |s| && MatchAt(s, p, re).Some?
      ensures Covered(r, p)
    {
      if p < m.end {
        assert r[0].start <= p < r[0].end;
      } else {
        var k :| 0 <= k < |rest| && rest[k].start <= p < rest[k].end;
        assert r[k + 1] == rest[k];
      }
    }
  }

  /** A pattern without whitespace runs whose literals hold no newline. */
  predicate SingleLine(re: Regex) {
    forall j :: 0 <= j < |re.tokens| ==> !re.tokens[j].Ws? && (re.tokens[j].Lit? || re.tokens[j].Opt? ==> '\n' !in re.tokens[j].text)
  }

  lemma {:induction false} AcceptsNoNewline(s: string, a: int, pat: seq<Token>, ends: seq<int>)
    requires 0 <= a <= |s|
    requires Accepts(s, a, pat, ends) && pat != [] && |ends| == |pat| && ends[|ends| - 1] <= |s|
    requires forall j :: 0 <= j < |pat| ==> !pat[j].Ws? && (pat[j].Lit? || pat[j].Opt? ==> '\n' !in pat[j].text)
    ensures forall k :: a <= k < ends[|ends| - 1] ==> s[k] != '\n'
    decreases |pat|
  {
    assert forall k :: a <= k < ends[0] ==> s[k] != '\n' by {
      if pat[0].Lit? || pat[0].Opt? {
        forall k | a <= k < ends[0] ensures s[k] != '\n' {
          assert s[k] == pat[0].text[k - a];
        }
      }
    }
    if |pat| > 1 {
      AcceptsLength(s, ends[0], pat[1..], ends[1..]);
      assert ends[1..][|ends[1..]| - 1] == ends[|ends| - 1];
      AcceptsNoNewline(s, ends[0], pat[1..], ends[1..]);
      assert ends[1..][|ends[1..]| - 1] == ends[|ends| - 1];
    }
  }

  /** Every match of such a pattern stays within one line. */
  lemma MatchOnOneLine(s: string, i: int, re: Regex)
    requires ValidRegex(re) && SingleLine(re) && 0 <= i <= |s|
    requires MatchAt(s, i, re).Some?
    ensures '\n' !in MatchAt(s, i, re).value.groups[0]
  {
    var ends := Fit(s, i, re.tokens).value;
    FitSound(s, i, re.tokens);
    AcceptsLength(s, i, re.tokens, ends);
    AcceptsChain(s, i, re.tokens, ends);
    AcceptsNoNewline(s, i, re.tokens, ends);
    var g := MatchAt(s, i, re).value.groups[0];
    assert forall k :: 0 <= k < |g| ==> g[k] == s[i + k];
  }

  // The patterns of `DynotecRegularExpressions`.

  /** `{{\s*<\s*` */
  const ShortcodeStart: seq<Token> := [Lit("{{"), Ws(0), Lit("<"), Ws(0)]

  /** `\s*>\s*}}` */
  const ShortcodeEnd: seq<Token> := [Ws(0), Lit(">"), Ws(0), Lit("}}")]

  /** `shortcode_start + "include\s+(.*)" + shortcode_end`; group 1 is the `.*`. */
  const QuartoInclude: Regex := Regex(ShortcodeStart + [Lit("include"), Ws(1), Any] + ShortcodeEnd, [6])

  /** `\!\[.*\]\((.*)\)` */
  const PathInImg: Regex := Regex([Lit("!["), Any, Lit("]("), Any, Lit(")")], [3])

  /** `\]\((.*)\?(.*)\)`, the common tail of both excel patterns. */
  const ExcelTail: seq<Token> := [Any, Lit("]("), Any, Lit("?"), Any, Lit(")")]

  /** `excel(?:-img)?\[(.*)\]\((.*)\?(.*)\)` */
  const ExcelImgSyntax: Regex := Regex([Lit("excel"), Opt("-img"), Lit("[")] + ExcelTail, [3, 5, 7])

  /** `excel-table\[(.*)\]\((.*)\?(.*)\)` */
  const ExcelTableSyntax: Regex := Regex([Lit("excel-table[")] + ExcelTail, [1, 3, 5])

  lemma PatternsValid()
    ensures ValidRegex(QuartoInclude) && ValidRegex(PathInImg)
    ensures ValidRegex(ExcelImgSyntax) && ValidRegex(ExcelTableSyntax)
    ensures SingleLine(PathInImg) && SingleLine(ExcelImgSyntax) && SingleLine(ExcelTableSyntax)
  {
  }

  /** A piece of an occurrence is an occurrence. */
  lemma OccursPiece(s: string, w: string, i: int, j: int, k: int)
    requires OccursAt(s, w, i) && 0 <= j <= k <= |w|
    ensures OccursAt(s, w[j..k], i + j)
  {
    var piece := s[i + j..i + k];
    forall m | 0 <= m < k - j
      ensures piece[m] == w[j..k][m]
    {
      assert piece[m] == s[i + j + m] == s[i..i + |w|][j + m];
    }
  }

  /** Two adjacent occurrences make one occurrence of the joined text. */
  lemma OccursJoin(s: string, u: string, v: string, i: int)
    requires OccursAt(s, u, i) && OccursAt(s, v, i + |u|)
    ensures OccursAt(s, u + v, i)
  {
    assert s[i..i + |u| + |v|] == s[i..i + |u|] + s[i + |u|..i + |u| + |v|];
  }

  /** The first three tokens of an accepted image directive: `excel`, then `-img` or nothing, then `[`. */
  lemma ImgHead(s: string, i: int, ends: seq<int>)
    requires 0 <= i <= |s| && Accepts(s, i, ExcelImgSyntax.tokens, ends)
    ensures OccursAt(s, "excel", i)
    ensures (|ends| > 1 && ends[1] == i + 5) || OccursAt(s, "-img", i + 5)
    ensures |ends| > 1 && OccursAt(s, "[", ends[1])
    ensures |ends| > 1 && ends[1] != i + 5 ==> ends[1] == i + 9
  {
    var afterOpt := [Lit("[")] + ExcelTail;
    assert ExcelImgSyntax.tokens == [Lit("excel")] + ([Opt("-img")] + afterOpt);
    AcceptsHead(s, i, Lit("excel"), [Opt("-img")] + afterOpt, ends);
    AcceptsHead(s, ends[0], Opt("-img"), afterOpt, ends[1..]);
    AcceptsHead(s, ends[1], Lit("["), ExcelTail, ends[2..]);
  }

  /** An excel image directive starts with `excel[` or `excel-img[`. */
  lemma ExcelImgPrefix(s: string, i: int)
    requires 0 <= i <= |s|
    requires MatchAt(s, i, ExcelImgSyntax).Some?
    ensures OccursAt(s, "excel[", i) || OccursAt(s, "excel-img[", i)
  {
    var ends :| Accepts(s, i, ExcelImgSyntax.tokens, ends);
    ImgHead(s, i, ends);
    if ends[1] == i + 5 {
      OccursJoin(s, "excel", "[", i);
      assert "excel" + "[" == "excel[";
    } else {
      OccursJoin(s, "excel", "-img", i);
      OccursJoin(s, "excel" + "-img", "[", i);
      assert "excel" + "-img" + "[" == "excel-img[";
    }
  }

  /** At the start of an `excel-table[` directive the image pattern cannot match. */
  lemma ExcelImgNotAtTable(s: string, i: int)
    requires 0 <= i <= |s|
    requires OccursAt(s, "excel-table[", i)
    ensures MatchAt(s, i, ExcelImgSyntax).None?
  {
    OccursAtChar(s, "excel-table[", i, 5);
    OccursAtChar(s, "excel-table[", i, 6);
    assert !OccursAt(s, "excel[", i) by {
      if OccursAt(s, "excel[", i) {
        OccursAtChar(s, "excel[", i, 5);
      }
    }
    assert !OccursAt(s, "excel-img[", i) by {
      if OccursAt(s, "excel-img[", i) {
        OccursAtChar(s, "excel-img[", i, 6);
      }
    }
    if MatchAt(s, i, ExcelImgSyntax).Some? {
      ExcelImgPrefix(s, i);
    }
  }

  /** The tail `](...?...)` accepted with empty groups from position `a`. */
  lemma EmptyTail(s: string, a: int)
    requires 0 <= a && a + 4 <= |s|
    requires s[a..a + 4] == "](?)"
    ensures Accepts(s, a, ExcelTail, [a, a + 2, a + 2, a + 3, a + 3, a + 4])
  {
    var w := "](?)";
    assert OccursAt(s, w, a);
    OccursPiece(s, w, a, 0, 2);
    OccursPiece(s, w, a, 2, 3);
    OccursPiece(s, w, a, 3, 4);
    assert w[0..2] == "](" && w[2..3] == "?" && w[3..4] == ")";
    AcceptsCons(s, a + 3, Lit(")"), a + 4, [], []);
    AcceptsCons(s, a + 3, Any, a + 3, [Lit(")")], [a + 4]);
    AcceptsCons(s, a + 2, Lit("?"), a + 3, [Any, Lit(")")], [a + 3, a + 4]);
    AcceptsCons(s, a + 2, Any, a + 2, [Lit("?"), Any, Lit(")")], [a + 3, a + 3, a + 4]);
    AcceptsCons(s, a, Lit("]("), a + 2, [Any, Lit("?"), Any, Lit(")")], [a + 2, a + 3, a + 3, a + 4]);
    AcceptsCons(s, a, Any, a, [Lit("]("), Any, Lit("?"), Any, Lit(")")], [a + 2, a + 2, a + 3, a + 3, a + 4]);
  }

  /** The pieces of `excel[](?)` at `i`. */
  lemma SpellingPieces(s: string, i: int)
    requires 0 <= i && OccursAt(s, "excel[](?)", i)
    ensures OccursAt(s, "excel", i) && OccursAt(s, "[", i + 5)
    ensures i + 10 <= |s| && s[i + 6..i + 10] == "](?)"
  {
    var w := "excel[](?)";
    OccursPiece(s, w, i, 0, 5);
    OccursPiece(s, w, i, 5, 6);
    OccursPiece(s, w, i, 6, 10);
    assert w[0..5] == "excel" && w[5..6] == "[" && w[6..10] == "](?)";
  }

  /** `excel[](?)` at `i` is a match: the image pattern accepts this spelling. */
  lemma ExcelSpellingMatches(s: string, i: int)
    requires 0 <= i && OccursAt(s, "excel[](?)", i)
    ensures MatchAt(s, i, ExcelImgSyntax).Some?
  {
    SpellingPieces(s, i);
    EmptyTail(s, i + 6);
    var tail := [i + 6, i + 8, i + 8, i + 9, i + 9, i + 10];
    var afterOpt := [Lit("[")] + ExcelTail;
    AcceptsCons(s, i + 5, Lit("["), i + 6, ExcelTail, tail);
    AcceptsCons(s, i + 5, Opt("-img"), i + 5, afterOpt, [i + 6] + tail);
    AcceptsCons(s, i, Lit("excel"), i + 5, [Opt("-img")] + afterOpt, [i + 5, i + 6] + tail);
    assert [Lit("excel")] + ([Opt("-img")] + afterOpt) == ExcelImgSyntax.tokens;
  }

  /** The pieces of `excel-img[](?)` at `i`. */
  lemma ImgSpellingPieces(s: string, i: int)
    requires 0 <= i && OccursAt(s, "excel-img[](?)", i)
    ensures OccursAt(s, "excel", i) && OccursAt(s, "-img", i + 5) && OccursAt(s, "[", i + 9)
    ensures i + 14 <= |s| && s[i + 10..i + 14] == "](?)"
  {
    var w := "excel-img[](?)";
    OccursPiece(s, w, i, 0, 5);
    OccursPiece(s, w, i, 5, 9);
    OccursPiece(s, w, i, 9, 10);
    OccursPiece(s, w, i, 10, 14);
    assert w[0..5] == "excel" && w[5..9] == "-img" && w[9..10] == "[" && w[10..14] == "](?)";
  }

  /** `excel-img[](?)` at `i` is a match: the image pattern accepts this spelling too. */
  lemma ExcelImgSpellingMatches(s: string, i: int)
    requires 0 <= i && OccursAt(s, "excel-img[](?)", i)
    ensures MatchAt(s, i, ExcelImgSyntax).Some?
  {
    ImgSpellingPieces(s, i);
    EmptyTail(s, i + 10);
    var tail := [i + 10, i + 12, i + 12, i + 13, i + 13, i + 14];
    var afterOpt := [Lit("[")] + ExcelTail;
    AcceptsCons(s, i + 9, Lit("["), i + 10, ExcelTail, tail);
    AcceptsCons(s, i + 5, Opt("-img"), i + 9, afterOpt, [i + 10] + tail);
    AcceptsCons(s, i, Lit("excel"), i + 5, [Opt("-img")] + afterOpt, [i + 9, i + 10] + tail);
    assert [Lit("excel")] + ([Opt("-img")] + afterOpt) == ExcelImgSyntax.tokens;
  }
}
