/**
 * Rewriting a whole text by one global replacement a rule.
 *
 * Every text is a lead followed by *pieces*, each a quote character and the
 * quote-free stretch after it.  A rule's regular expression can only match a piece
 * that is closed by an equal quote.
 */
module FrameworkImportText {
  import opened Collections
  import opened FrameworkImports
  import opened FrameworkImportTables

  // ----- the regular expression ----------------------------------------------------

  /** Length of the quote-free stretch at the start. */
  function QuoteFreeRun(s: string): (r: nat)
    ensures r <= |s| && QuoteFree(s[..r])
    ensures r < |s| ==> IsQuote(s[r])
  {
    if s == "" || IsQuote(s[0]) then 0 else 1 + QuoteFreeRun(s[1..])
  }

  /**
   * Index of the closing quote of a match of `(['"])name((?:/[^'"]*)?)\\1` at the start
   * of the text.  The group is greedy, but what follows a quote-free run is a quote or
   * the end, so a shorter run never helps.
   */
  function MatchEnd(name: string, text: string): (r: Option<nat>)
    ensures r.Some? ==> |name| < r.value < |text| && text[1..1 + |name|] == name
  {
    if |text| <= 1 + |name| || !IsQuote(text[0]) || text[1..1 + |name|] != name then None
    else
      var rest := text[1 + |name|..];
      var k := if rest[0] == '/' then QuoteFreeRun(rest) else 0;
      if k < |rest| && rest[k] == text[0] then Some(1 + |name| + k) else None
  }

  /** `text.replace(regex, ...)` for one rule. */
  function ReplaceAll(rule: Rule, text: string): string {
    if text == "" then ""
    else match MatchEnd(rule.packageName, text)
         case None => [text[0]] + ReplaceAll(rule, text[1..])
         case Some(close) => Replacement(rule, text, close) + ReplaceAll(rule, text[close + 1..])
  }

  /** What takes the place of a match that ends in the quote at `close`. */
  function Replacement(rule: Rule, text: string, close: nat): string
    requires |rule.packageName| < close < |text|
  {
    [text[0]] + Target(rule) + text[1 + |rule.packageName|..close] + [text[0]]
  }

  /** `rewriteFrameworkImportsInText`. */
  function RewriteText(rules: seq<Rule>, text: string): string
    decreases rules
  {
    if rules == [] then text else RewriteText(rules[1..], ReplaceAll(rules[0], text))
  }

  // ----- texts as pieces -------------------------------------------------------------

  datatype Piece = Piece(quote: char, body: string)

  predicate IsPiece(p: Piece) {
    IsQuote(p.quote) && QuoteFree(p.body)
  }

  predicate ArePieces(pieces: seq<Piece>) {
    forall i | 0 <= i < |pieces| :: IsPiece(pieces[i])
  }

  function Render(pieces: seq<Piece>): string {
    if pieces == [] then "" else [pieces[0].quote] + pieces[0].body + Render(pieces[1..])
  }

  function Lead(text: string): string {
    text[..QuoteFreeRun(text)]
  }

  function Pieces(text: string): (r: seq<Piece>)
    ensures ArePieces(r)
    decreases |text|
  {
    var k := QuoteFreeRun(text);
    if k == |text| then []
    else [Piece(text[k], Lead(text[k + 1..]))] + Pieces(text[k + 1..])
  }

  lemma {:induction false} RenderCons(p: Piece, rest: seq<Piece>)
    ensures Render([p] + rest) == [p.quote] + (p.body + Render(rest))
  {
    assert ([p] + rest)[1..] == rest;
  }

  lemma {:induction false} PiecesRender(text: string)
    ensures Lead(text) + Render(Pieces(text)) == text
    decreases |text|
  {
    var k := QuoteFreeRun(text);
    if k < |text| {
      SplitAt(text, k);
      var after := text[k + 1..];
      PiecesRender(after);
      RenderCons(Piece(text[k], Lead(after)), Pieces(after));
    }
  }

  lemma {:induction false} RunOfLead(lead: string, rest: string)
    requires QuoteFree(lead) && (rest == "" || IsQuote(rest[0]))
    ensures QuoteFreeRun(lead + rest) == |lead|
  {
    if lead == "" {
      assert lead + rest == rest;
    } else {
      assert (lead + rest)[1..] == lead[1..] + rest;
      RunOfLead(lead[1..], rest);
    }
  }

  lemma {:induction false} HeadSlices(lead: string, quote: char, rest: string)
    ensures var text := lead + ([quote] + rest);
            text[|lead|] == quote && text[|lead| + 1..] == rest
  {
  }

  lemma {:induction false} LeadOf(lead: string, rest: string)
    requires QuoteFree(lead) && (rest == "" || IsQuote(rest[0]))
    ensures Lead(lead + rest) == lead
  {
    RunOfLead(lead, rest);
  }

  lemma {:induction false} PiecesOf(lead: string, quote: char, rest: string)
    requires QuoteFree(lead) && IsQuote(quote)
    ensures Pieces(lead + ([quote] + rest)) == [Piece(quote, Lead(rest))] + Pieces(rest)
  {
    RunOfLead(lead, [quote] + rest);
    HeadSlices(lead, quote, rest);
  }

  lemma {:induction false} NoPieces(lead: string)
    requires QuoteFree(lead)
    ensures Pieces(lead + "") == []
  {
    RunOfLead(lead, "");
  }

  /** The decomposition is unique. */
  lemma {:induction false} RenderPieces(lead: string, pieces: seq<Piece>)
    requires QuoteFree(lead) && ArePieces(pieces)
    ensures Lead(lead + Render(pieces)) == lead && Pieces(lead + Render(pieces)) == pieces
    decreases |pieces|
  {
    LeadOf(lead, Render(pieces));
    if pieces == [] {
      NoPieces(lead);
    } else {
      var first, rest := pieces[0], pieces[1..];
      RenderPieces(first.body, rest);
      assert pieces == [first] + rest;
      RenderCons(first, rest);
      assert lead + Render(pieces) == lead + ([first.quote] + (first.body + Render(rest)));
      PiecesOf(lead, first.quote, first.body + Render(rest));
    }
  }

  // ----- one pass over the pieces ------------------------------------------------------

  /** The first piece is closed by an equal quote and belongs to the rule's package. */
  predicate HeadFits(rule: Rule, pieces: seq<Piece>) {
    |pieces| >= 2 && pieces[0].quote == pieces[1].quote && Matches(rule.packageName, pieces[0].body)
  }

  function RewrittenPiece(rule: Rule, p: Piece): Piece
    requires Matches(rule.packageName, p.body)
  {
    Piece(p.quote, Rewritten(rule, p.body))
  }

  /** A match uses up the closing quote, so the piece after it cannot open another one. */
  function Pass(rule: Rule, pieces: seq<Piece>): (r: seq<Piece>)
    ensures |r| == |pieces|
  {
    if pieces == [] then []
    else if HeadFits(rule, pieces) then [RewrittenPiece(rule, pieces[0]), pieces[1]] + Pass(rule, pieces[2..])
    else [pieces[0]] + Pass(rule, pieces[1..])
  }

  /** The text after the opening quote starts with the name only if the body does. */
  lemma {:induction false} NameInBody(name: string, quote: char, body: string, rest: string)
    requires QuoteFree(name) && (rest == "" || IsQuote(rest[0]))
    ensures var text := [quote] + body + rest;
            |text| > 1 + |name| && text[1..1 + |name|] == name ==> |name| <= |body| && body[..|name|] == name
  {
    var text, n := [quote] + body + rest, |name|;
    if |body| < n {
      assert !IsQuote(name[|body|]);
      if |text| > 1 + n {
        assert text[1 + |body|] == rest[0];
        assert text[1..1 + n][|body|] == text[1 + |body|];
      }
    } else {
      assert |text| > 1 + n ==> text[1..1 + n] == body[..n];
    }
  }

  lemma {:induction false} MatchAfterName(name: string, quote: char, tail: string, rest: string)
    requires QuoteFree(name) && IsQuote(quote) && QuoteFree(tail) && (rest == "" || IsQuote(rest[0]))
    ensures MatchEnd(name, [quote] + (name + tail) + rest)
            == if (tail == "" || tail[0] == '/') && rest != "" && rest[0] == quote then Some(1 + |name| + |tail|) else None
  {
    var text, n := [quote] + (name + tail) + rest, |name|;
    assert text[0] == quote && text[1..1 + n] == name;
    assert text[1 + n..] == tail + rest;
    RunOfLead(tail, rest);
    AfterTail(tail, rest);
  }

  lemma {:induction false} AfterTail(tail: string, rest: string)
    ensures tail != "" ==> (tail + rest)[0] == tail[0]
    ensures rest != "" ==> (tail + rest)[|tail|] == rest[0]
  {
  }

  lemma {:induction false} MatchesByTail(name: string, body: string)
    requires |name| <= |body| && body[..|name|] == name
    ensures Matches(name, body) <==> body[|name|..] == "" || body[|name|] == '/'
  {
    if |body| > |name| {
      assert body[..|name| + 1] == name + [body[|name|]];
    } else {
      assert body == name;
    }
  }

  /** On a quote, a quote-free body and what follows it, the regular expression is `Matches` and an equal quote. */
  lemma {:induction false} MatchEndOfPiece(name: string, quote: char, body: string, rest: string)
    requires QuoteFree(name) && IsQuote(quote) && QuoteFree(body) && (rest == "" || IsQuote(rest[0]))
    ensures MatchEnd(name, [quote] + body + rest)
            == if Matches(name, body) && rest != "" && rest[0] == quote then Some(1 + |body|) else None
  {
    if |name| <= |body| && body[..|name|] == name {
      var tail := body[|name|..];
      assert body == name + tail;
      MatchesByTail(name, body);
      MatchAfterName(name, quote, tail, rest);
    } else {
      NameInBody(name, quote, body, rest);
    }
  }

  lemma {:induction false} CopiesLead(rule: Rule, lead: string, rest: string)
    requires QuoteFree(lead)
    ensures ReplaceAll(rule, lead + rest) == lead + ReplaceAll(rule, rest)
  {
    if lead == "" {
      assert lead + rest == rest;
    } else {
      assert (lead + rest)[1..] == lead[1..] + rest;
      CopiesLead(rule, lead[1..], rest);
      assert MatchEnd(rule.packageName, lead + rest) == None;
    }
  }

  lemma {:induction false} LiteralSlices(quote: char, body: string, rest: string, n: nat)
    requires n <= |body|
    ensures var text := [quote] + body + ([quote] + rest);
            text[0] == quote && text[1 + n..1 + |body|] == body[n..] && text[1 + |body| + 1..] == rest
  {
  }

  lemma {:induction false} ReplacementOf(rule: Rule, quote: char, body: string, rest: string)
    requires Matches(rule.packageName, body)
    ensures Replacement(rule, [quote] + body + ([quote] + rest), 1 + |body|) == [quote] + Rewritten(rule, body) + [quote]
  {
    LiteralSlices(quote, body, rest, |rule.packageName|);
    ConcatAssoc([quote], Target(rule), body[|rule.packageName|..]);
  }

  lemma {:induction false} ReplaceFound(rule: Rule, text: string, close: nat, replacement: string, rest: string)
    requires MatchEnd(rule.packageName, text) == Some(close)
    requires replacement == Replacement(rule, text, close) && rest == text[close + 1..]
    ensures ReplaceAll(rule, text) == replacement + ReplaceAll(rule, rest)
  {
  }

  lemma {:induction false} ReplaceLiteral(rule: Rule, quote: char, body: string, rest: string)
    requires QuoteFree(rule.packageName) && IsQuote(quote) && QuoteFree(body)
    requires Matches(rule.packageName, body)
    ensures ReplaceAll(rule, [quote] + body + ([quote] + rest))
            == [quote] + Rewritten(rule, body) + ([quote] + ReplaceAll(rule, rest))
  {
    var text := [quote] + body + ([quote] + rest);
    MatchEndOfPiece(rule.packageName, quote, body, [quote] + rest);
    LiteralSlices(quote, body, rest, 0);
    ReplacementOf(rule, quote, body, rest);
    ReplaceFound(rule, text, 1 + |body|, [quote] + Rewritten(rule, body) + [quote], rest);
    ConcatAssoc([quote] + Rewritten(rule, body), [quote], ReplaceAll(rule, rest));
  }

  lemma {:induction false} ReplaceMatch(rule: Rule, first: Piece, second: Piece, rest: seq<Piece>)
    requires QuoteFree(rule.packageName) && IsPiece(first) && IsPiece(second) && ArePieces(rest)
    requires first.quote == second.quote && Matches(rule.packageName, first.body)
    ensures ReplaceAll(rule, Render([first] + ([second] + rest)))
            == Render([RewrittenPiece(rule, first)])
               + ([second.quote] + (second.body + ReplaceAll(rule, Render(rest))))
  {
    RenderCons(second, rest);
    RenderCons(first, [second] + rest);
    var after := second.body + Render(rest);
    assert Render([first] + ([second] + rest)) == [first.quote] + first.body + ([first.quote] + after);
    ReplaceLiteral(rule, first.quote, first.body, after);
    CopiesLead(rule, second.body, Render(rest));
    assert Render([RewrittenPiece(rule, first)]) == [first.quote] + Rewritten(rule, first.body);
  }

  lemma {:induction false} ReplaceMiss(rule: Rule, first: Piece, rest: seq<Piece>)
    requires QuoteFree(rule.packageName) && IsPiece(first) && ArePieces(rest)
    requires !HeadFits(rule, [first] + rest)
    ensures ReplaceAll(rule, Render([first] + rest)) == [first.quote] + (first.body + ReplaceAll(rule, Render(rest)))
  {
    RenderCons(first, rest);
    var text := Render([first] + rest);
    assert text == [first.quote] + first.body + Render(rest);
    MatchEndOfPiece(rule.packageName, first.quote, first.body, Render(rest));
    assert text[1..] == first.body + Render(rest);
    CopiesLead(rule, first.body, Render(rest));
  }

  lemma {:induction false} RenderAppend(a: seq<Piece>, b: seq<Piece>)
    ensures Render(a + b) == Render(a) + Render(b)
  {
    if a == [] {
      assert a + b == b;
    } else {
      assert (a + b)[1..] == a[1..] + b;
      RenderAppend(a[1..], b);
    }
  }

  lemma {:induction false} PassUnfolds(rule: Rule, pieces: seq<Piece>)
    requires HeadFits(rule, pieces)
    ensures Pass(rule, pieces) == [RewrittenPiece(rule, pieces[0])] + ([pieces[1]] + Pass(rule, pieces[2..]))
  {
  }

  lemma {:induction false} RenderTwo(first: Piece, second: Piece, rest: seq<Piece>)
    ensures Render([first] + ([second] + rest)) == Render([first]) + ([second.quote] + (second.body + Render(rest)))
  {
    RenderAppend([first], [second] + rest);
    RenderCons(second, rest);
  }

  lemma {:induction false} PassOfTwo(rule: Rule, first: Piece, second: Piece, rest: seq<Piece>)
    requires QuoteFree(rule.packageName) && IsPiece(first) && IsPiece(second) && ArePieces(rest)
    requires first.quote == second.quote && Matches(rule.packageName, first.body)
    requires ReplaceAll(rule, Render(rest)) == Render(Pass(rule, rest))
    ensures ReplaceAll(rule, Render([first] + ([second] + rest)))
            == Render([RewrittenPiece(rule, first)] + ([second] + Pass(rule, rest)))
  {
    ReplaceMatch(rule, first, second, rest);
    RenderTwo(RewrittenPiece(rule, first), second, Pass(rule, rest));
  }

  lemma {:induction false} PassOfMatch(rule: Rule, pieces: seq<Piece>)
    requires QuoteFree(rule.packageName) && ArePieces(pieces) && HeadFits(rule, pieces)
    requires ReplaceAll(rule, Render(pieces[2..])) == Render(Pass(rule, pieces[2..]))
    ensures ReplaceAll(rule, Render(pieces)) == Render(Pass(rule, pieces))
  {
    var first, second, rest := pieces[0], pieces[1], pieces[2..];
    PassOfTwo(rule, first, second, rest);
    assert pieces == [first] + ([second] + rest);
    PassUnfolds(rule, pieces);
  }

  lemma {:induction false} PassOfMiss(rule: Rule, pieces: seq<Piece>)
    requires QuoteFree(rule.packageName) && ArePieces(pieces) && pieces != [] && !HeadFits(rule, pieces)
    requires ReplaceAll(rule, Render(pieces[1..])) == Render(Pass(rule, pieces[1..]))
    ensures ReplaceAll(rule, Render(pieces)) == Render(Pass(rule, pieces))
  {
    assert pieces == [pieces[0]] + pieces[1..];
    ReplaceMiss(rule, pieces[0], pieces[1..]);
    RenderCons(pieces[0], Pass(rule, pieces[1..]));
  }

  /** The global replacement of one rule, seen on the pieces. */
  lemma {:induction false} ReplaceByPieces(rule: Rule, pieces: seq<Piece>)
    requires QuoteFree(rule.packageName) && ArePieces(pieces)
    ensures ReplaceAll(rule, Render(pieces)) == Render(Pass(rule, pieces))
    decreases |pieces|
  {
    if pieces != [] {
      if HeadFits(rule, pieces) {
        ReplaceByPieces(rule, pieces[2..]);
        PassOfMatch(rule, pieces);
      } else {
        ReplaceByPieces(rule, pieces[1..]);
        PassOfMiss(rule, pieces);
      }
    }
  }
}
