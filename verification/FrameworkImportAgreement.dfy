/**
 * Folding all rules over a text, compared with rewriting each closed piece on its own.
 *
 * The two agree except where two neighbouring pieces of one package share a quote
 * (`'pkg'pkg'`): a match uses up the shared quote and the second piece is skipped.
 */
module FrameworkImportAgreement {
  import opened Collections
  import opened FrameworkImports
  import opened FrameworkImportTables
  import opened FrameworkImportText

  // ----- which pieces a pass rewrites --------------------------------------------------

  predicate Closed(pieces: seq<Piece>, i: nat) {
    i + 1 < |pieces| && pieces[i].quote == pieces[i + 1].quote
  }

  predicate Fits(rule: Rule, pieces: seq<Piece>, i: nat) {
    Closed(pieces, i) && Matches(rule.packageName, pieces[i].body)
  }

  /** Two neighbouring pieces that the rule would both rewrite, but whose matches overlap. */
  ghost predicate Clash(rule: Rule, pieces: seq<Piece>) {
    exists i: nat :: Fits(rule, pieces, i) && Fits(rule, pieces, i + 1)
  }

  function Picks(rule: Rule, pieces: seq<Piece>): (r: seq<bool>)
    ensures |r| == |pieces|
  {
    if pieces == [] then []
    else if HeadFits(rule, pieces) then [true, false] + Picks(rule, pieces[2..])
    else [false] + Picks(rule, pieces[1..])
  }

  lemma {:induction false} PassByPicks(rule: Rule, pieces: seq<Piece>, i: nat)
    requires i < |pieces|
    ensures Picks(rule, pieces)[i] ==> Fits(rule, pieces, i)
    ensures Pass(rule, pieces)[i]
            == if Picks(rule, pieces)[i] then RewrittenPiece(rule, pieces[i]) else pieces[i]
    decreases |pieces|
  {
    if HeadFits(rule, pieces) {
      if i >= 2 {
        PassByPicks(rule, pieces[2..], i - 2);
      }
    } else if i >= 1 {
      PassByPicks(rule, pieces[1..], i - 1);
    }
  }

  /** A piece that fits is picked unless its left neighbour was; two neighbours never are. */
  lemma {:induction false} PicksAreGreedy(rule: Rule, pieces: seq<Piece>, i: nat)
    requires i < |pieces|
    ensures Fits(rule, pieces, i) ==> Picks(rule, pieces)[i] || (i > 0 && Picks(rule, pieces)[i - 1])
    ensures i > 0 ==> !(Picks(rule, pieces)[i - 1] && Picks(rule, pieces)[i])
    decreases |pieces|
  {
    if HeadFits(rule, pieces) {
      if i >= 2 {
        PicksAreGreedy(rule, pieces[2..], i - 2);
        assert Fits(rule, pieces, i) ==> Fits(rule, pieces[2..], i - 2);
      }
    } else if i >= 1 {
      PicksAreGreedy(rule, pieces[1..], i - 1);
      assert Fits(rule, pieces, i) ==> Fits(rule, pieces[1..], i - 1);
    }
  }

  /** Without a clash every fitting piece is picked; with one, some fitting piece is not. */
  lemma {:induction false} ClashDecidesPicks(rule: Rule, pieces: seq<Piece>)
    ensures Clash(rule, pieces) <==> exists i: nat :: Fits(rule, pieces, i) && !Picks(rule, pieces)[i]
  {
    if Clash(rule, pieces) {
      var i: nat :| Fits(rule, pieces, i) && Fits(rule, pieces, i + 1);
      PicksAreGreedy(rule, pieces, i + 1);
    }
    if exists i: nat :: Fits(rule, pieces, i) && !Picks(rule, pieces)[i] {
      var i: nat :| Fits(rule, pieces, i) && !Picks(rule, pieces)[i];
      PicksAreGreedy(rule, pieces, i);
      PassByPicks(rule, pieces, i - 1);
      assert Fits(rule, pieces, i - 1) && Fits(rule, pieces, i - 1 + 1);
    }
  }

  /** The rule cannot tell the two lists apart. */
  ghost predicate Alike(rule: Rule, a: seq<Piece>, b: seq<Piece>) {
    && |a| == |b|
    && (forall i | 0 <= i < |a| ::
          a[i].quote == b[i].quote && (Matches(rule.packageName, a[i].body) <==> Matches(rule.packageName, b[i].body)))
  }

  lemma {:induction false} AlikePicks(rule: Rule, a: seq<Piece>, b: seq<Piece>)
    requires Alike(rule, a, b)
    ensures Picks(rule, a) == Picks(rule, b)
    decreases |a|
  {
    if a != [] {
      if HeadFits(rule, a) {
        AlikePicks(rule, a[2..], b[2..]);
      } else {
        AlikePicks(rule, a[1..], b[1..]);
      }
    }
  }

  /** A pass of one rule is invisible to every other rule of the table. */
  lemma {:induction false} PassIsInvisible(rules: seq<Rule>, rule: Rule, other: Rule, pieces: seq<Piece>)
    requires WellFormed(rules) && rule in rules && other in rules && rule != other
    ensures Alike(other, pieces, Pass(rule, pieces))
  {
    forall i | 0 <= i < |pieces|
      ensures Pass(rule, pieces)[i].quote == pieces[i].quote
      ensures Matches(other.packageName, pieces[i].body) <==> Matches(other.packageName, Pass(rule, pieces)[i].body)
    {
      PassByPicks(rule, pieces, i);
      if Picks(rule, pieces)[i] {
        RewrittenIsFinal(rules, rule, pieces[i].body, other);
        if Matches(other.packageName, pieces[i].body) {
          OwnerIsUnique(rules, rule, other, pieces[i].body);
        }
      }
    }
  }

  // ----- folding all rules ---------------------------------------------------------------

  function Fold(rules: seq<Rule>, pieces: seq<Piece>): (r: seq<Piece>)
    ensures |r| == |pieces|
    decreases rules
  {
    if rules == [] then pieces else Fold(rules[1..], Pass(rules[0], pieces))
  }

  /** What becomes of piece `i`: rewritten by its owner if the owner's pass picks it. */
  function Outcome(rules: seq<Rule>, pieces: seq<Piece>, i: nat): Piece
    requires i < |pieces|
  {
    match FirstMatch(rules, pieces[i].body)
    case None => pieces[i]
    case Some(rule) => if Picks(rule, pieces)[i] then RewrittenPiece(rule, pieces[i]) else pieces[i]
  }

  lemma {:induction false} FoldByOutcome(rules: seq<Rule>, pieces: seq<Piece>, i: nat)
    requires WellFormed(rules) && i < |pieces|
    ensures Fold(rules, pieces)[i] == Outcome(rules, pieces, i)
    decreases rules
  {
    if rules != [] {
      var first, rest, passed := rules[0], rules[1..], Pass(rules[0], pieces);
      TailIsWellFormed(rules);
      FoldByOutcome(rest, passed, i);
      PassByPicks(first, pieces, i);
      if Matches(first.packageName, pieces[i].body) {
        OutcomeOfFirst(rules, pieces, i);
      } else {
        var owner := FirstMatch(rest, pieces[i].body);
        if owner.Some? {
          PassIsInvisible(rules, first, owner.value, pieces);
          AlikePicks(owner.value, pieces, passed);
        }
      }
    }
  }

  /** After its own pass a piece of the first rule's package is left alone by the others. */
  lemma {:induction false} OutcomeOfFirst(rules: seq<Rule>, pieces: seq<Piece>, i: nat)
    requires WellFormed(rules) && rules != [] && i < |pieces|
    requires Matches(rules[0].packageName, pieces[i].body)
    ensures Outcome(rules[1..], Pass(rules[0], pieces), i) == Pass(rules[0], pieces)[i]
  {
    var first, body := rules[0], Pass(rules[0], pieces)[i].body;
    TailIsWellFormed(rules);
    PassByPicks(first, pieces, i);
    var owner := FirstMatch(rules[1..], body);
    if owner.Some? {
      if Picks(first, pieces)[i] {
        RewrittenIsFinal(rules, first, pieces[i].body, owner.value);
      } else {
        OwnerIsUnique(rules, first, owner.value, body);
      }
      assert false;
    }
  }

  // ----- agreement with the single-specifier form -----------------------------------------

  function RewriteBody(rules: seq<Rule>, body: string): string {
    match RewriteSpecifier(rules, body)
    case None => body
    case Some(target) => target
  }

  /** Every closed piece rewritten on its own. */
  function RewriteEach(rules: seq<Rule>, pieces: seq<Piece>): (r: seq<Piece>)
    ensures |r| == |pieces|
    ensures forall i | 0 <= i < |r| ::
              r[i] == if Closed(pieces, i) then Piece(pieces[i].quote, RewriteBody(rules, pieces[i].body)) else pieces[i]
  {
    seq(|pieces|, i requires 0 <= i < |pieces| =>
          if Closed(pieces, i) then Piece(pieces[i].quote, RewriteBody(rules, pieces[i].body)) else pieces[i])
  }

  ghost predicate Clashes(rules: seq<Rule>, pieces: seq<Piece>) {
    exists r :: r in rules && Clash(r, pieces)
  }

  lemma {:induction false} OwnedPiece(rules: seq<Rule>, rule: Rule, pieces: seq<Piece>, i: nat)
    requires WellFormed(rules) && rule in rules && i < |pieces| && Matches(rule.packageName, pieces[i].body)
    ensures FirstMatch(rules, pieces[i].body) == Some(rule)
    ensures Fold(rules, pieces)[i] == if Picks(rule, pieces)[i] then RewrittenPiece(rule, pieces[i]) else pieces[i]
    ensures RewriteEach(rules, pieces)[i] == if Fits(rule, pieces, i) then RewrittenPiece(rule, pieces[i]) else pieces[i]
    ensures RewrittenPiece(rule, pieces[i]) != pieces[i]
  {
    FoldByOutcome(rules, pieces, i);
    OwnerIsUnique(rules, FirstMatch(rules, pieces[i].body).value, rule, pieces[i].body);
    SpecifierOfOwner(rules, rule, pieces[i].body);
    RewrittenIsFinal(rules, rule, pieces[i].body, rule);
  }

  lemma {:induction false} UnownedPiece(rules: seq<Rule>, pieces: seq<Piece>, i: nat)
    requires WellFormed(rules) && i < |pieces| && FirstMatch(rules, pieces[i].body).None?
    ensures Fold(rules, pieces)[i] == pieces[i] == RewriteEach(rules, pieces)[i]
  {
    FoldByOutcome(rules, pieces, i);
    SpecifierUsesLongestMatch(rules, pieces[i].body);
  }

  lemma {:induction false} FoldAgrees(rules: seq<Rule>, pieces: seq<Piece>)
    requires WellFormed(rules)
    ensures Fold(rules, pieces) == RewriteEach(rules, pieces) <==> !Clashes(rules, pieces)
  {
    if Clashes(rules, pieces) {
      var rule :| rule in rules && Clash(rule, pieces);
      ClashDecidesPicks(rule, pieces);
      var i: nat :| Fits(rule, pieces, i) && !Picks(rule, pieces)[i];
      OwnedPiece(rules, rule, pieces, i);
    } else {
      forall i | 0 <= i < |pieces|
        ensures Fold(rules, pieces)[i] == RewriteEach(rules, pieces)[i]
      {
        var owner := FirstMatch(rules, pieces[i].body);
        if owner.Some? {
          OwnedPiece(rules, owner.value, pieces, i);
          ClashDecidesPicks(owner.value, pieces);
          PassByPicks(owner.value, pieces, i);
        } else {
          UnownedPiece(rules, pieces, i);
        }
      }
    }
  }

  /** The result has no piece left to rewrite. */
  ghost predicate Settled(rules: seq<Rule>, pieces: seq<Piece>) {
    forall rule, i: nat | rule in rules && i < |pieces| :: !Fits(rule, pieces, i)
  }

  lemma {:induction false} SettledIsFixed(rules: seq<Rule>, pieces: seq<Piece>)
    requires WellFormed(rules)
    ensures Fold(rules, pieces) == pieces <==> Settled(rules, pieces)
  {
    if Settled(rules, pieces) {
      forall i | 0 <= i < |pieces|
        ensures Fold(rules, pieces)[i] == pieces[i]
      {
        FoldByOutcome(rules, pieces, i);
        var owner := FirstMatch(rules, pieces[i].body);
        if owner.Some? {
          PassByPicks(owner.value, pieces, i);
        }
      }
    } else {
      var rule, i: nat :| rule in rules && i < |pieces| && Fits(rule, pieces, i);
      PicksAreGreedy(rule, pieces, i);
      var k := if Picks(rule, pieces)[i] then i else i - 1;
      PassByPicks(rule, pieces, k);
      OwnedPiece(rules, rule, pieces, k);
    }
  }

  lemma {:induction false} FoldKeepsQuotes(rules: seq<Rule>, pieces: seq<Piece>, i: nat)
    requires WellFormed(rules) && i < |pieces|
    ensures Fold(rules, pieces)[i].quote == pieces[i].quote
  {
    FoldByOutcome(rules, pieces, i);
  }

  lemma {:induction false} FoldSettles(rules: seq<Rule>, pieces: seq<Piece>)
    requires WellFormed(rules)
    ensures Settled(rules, Fold(rules, pieces)) <==> !Clashes(rules, pieces)
  {
    var out := Fold(rules, pieces);
    forall i | 0 <= i < |pieces|
      ensures out[i].quote == pieces[i].quote
    {
      FoldKeepsQuotes(rules, pieces, i);
    }
    if Clashes(rules, pieces) {
      var rule :| rule in rules && Clash(rule, pieces);
      ClashDecidesPicks(rule, pieces);
      var i: nat :| Fits(rule, pieces, i) && !Picks(rule, pieces)[i];
      OwnedPiece(rules, rule, pieces, i);
      assert Fits(rule, out, i);
    } else {
      forall rule, i: nat | rule in rules && i < |out|
        ensures !Fits(rule, out, i)
      {
        NothingLeft(rules, rule, pieces, i);
      }
    }
  }

  lemma {:induction false} NothingLeft(rules: seq<Rule>, rule: Rule, pieces: seq<Piece>, i: nat)
    requires WellFormed(rules) && rule in rules && i < |pieces| && !Clashes(rules, pieces)
    ensures !(Closed(pieces, i) && Matches(rule.packageName, Fold(rules, pieces)[i].body))
  {
    var owner := FirstMatch(rules, pieces[i].body);
    if owner.Some? {
      OwnedPiece(rules, owner.value, pieces, i);
      ClashDecidesPicks(owner.value, pieces);
      if Closed(pieces, i) {
        assert Picks(owner.value, pieces)[i] by {
          assert Fits(owner.value, pieces, i);
        }
        RewrittenIsFinal(rules, owner.value, pieces[i].body, rule);
      }
    } else {
      UnownedPiece(rules, pieces, i);
    }
  }

  lemma {:induction false} FoldIgnoresOrder(rules: seq<Rule>, permuted: seq<Rule>, pieces: seq<Piece>)
    requires WellFormed(rules) && multiset(rules) == multiset(permuted)
    ensures Fold(rules, pieces) == Fold(permuted, pieces)
  {
    PermutationIsWellFormed(rules, permuted);
    SameRules(rules, permuted);
    forall i | 0 <= i < |pieces|
      ensures Fold(rules, pieces)[i] == Fold(permuted, pieces)[i]
    {
      var owner := FirstMatch(rules, pieces[i].body);
      if owner.Some? {
        OwnedPiece(rules, owner.value, pieces, i);
        OwnedPiece(permuted, owner.value, pieces, i);
      } else {
        UnownedPiece(rules, pieces, i);
        UnownedPiece(permuted, pieces, i);
      }
    }
  }

  // ----- whole texts -------------------------------------------------------------------

  lemma {:induction false} RewrittenIsQuoteFree(rule: Rule, body: string)
    requires QuoteFree(Target(rule)) && QuoteFree(body) && Matches(rule.packageName, body)
    ensures QuoteFree(Rewritten(rule, body))
  {
    var n := |rule.packageName|;
    assert forall k | 0 <= k < |body[n..]| :: body[n..][k] == body[n + k];
  }

  lemma {:induction false} PassGivesPieces(rule: Rule, pieces: seq<Piece>)
    requires ArePieces(pieces) && QuoteFree(Target(rule))
    ensures ArePieces(Pass(rule, pieces))
  {
    forall i | 0 <= i < |pieces|
      ensures IsPiece(Pass(rule, pieces)[i])
    {
      PassByPicks(rule, pieces, i);
      assert IsPiece(pieces[i]);
      if Picks(rule, pieces)[i] {
        RewrittenIsQuoteFree(rule, pieces[i].body);
      }
    }
  }

  lemma {:induction false} RewriteTextByPieces(rules: seq<Rule>, lead: string, pieces: seq<Piece>)
    requires WellFormed(rules) && QuoteFree(lead) && ArePieces(pieces)
    ensures RewriteText(rules, lead + Render(pieces)) == lead + Render(Fold(rules, pieces))
    ensures ArePieces(Fold(rules, pieces))
    decreases rules
  {
    if rules != [] {
      TailIsWellFormed(rules);
      CopiesLead(rules[0], lead, Render(pieces));
      ReplaceByPieces(rules[0], pieces);
      PassGivesPieces(rules[0], pieces);
      RewriteTextByPieces(rules[1..], lead, Pass(rules[0], pieces));
    }
  }

  /** The text with every closed piece rewritten by the single-specifier function. */
  function RewriteEachLiteral(rules: seq<Rule>, text: string): string {
    Lead(text) + Render(RewriteEach(rules, Pieces(text)))
  }

  lemma {:induction false} RewriteBodyIsQuoteFree(rules: seq<Rule>, body: string)
    requires WellFormed(rules) && QuoteFree(body)
    ensures QuoteFree(RewriteBody(rules, body))
  {
    SpecifierUsesLongestMatch(rules, body);
    if RewriteSpecifier(rules, body).Some? {
      var r :| r in rules && Matches(r.packageName, body) && RewriteSpecifier(rules, body).value == Rewritten(r, body);
      RewrittenIsQuoteFree(r, body);
    }
  }

  lemma {:induction false} RewriteEachGivesPieces(rules: seq<Rule>, pieces: seq<Piece>)
    requires WellFormed(rules) && ArePieces(pieces)
    ensures ArePieces(RewriteEach(rules, pieces))
  {
    forall i | 0 <= i < |pieces|
      ensures IsPiece(RewriteEach(rules, pieces)[i])
    {
      assert IsPiece(pieces[i]);
      RewriteBodyIsQuoteFree(rules, pieces[i].body);
    }
  }

  lemma {:induction false} RenderIsInjective(lead: string, a: seq<Piece>, b: seq<Piece>)
    requires QuoteFree(lead) && ArePieces(a) && ArePieces(b)
    ensures lead + Render(a) == lead + Render(b) <==> a == b
  {
    RenderPieces(lead, a);
    RenderPieces(lead, b);
  }

  /**
   * Folding all rules over any text gives the text in which each literal is rewritten
   * on its own, if and only if no two neighbouring pieces of one package share a quote.
   */
  lemma {:induction false} RewriteTextAgrees(rules: seq<Rule>, text: string)
    requires WellFormed(rules)
    ensures RewriteText(rules, text) == RewriteEachLiteral(rules, text) <==> !Clashes(rules, Pieces(text))
  {
    var lead, pieces := Lead(text), Pieces(text);
    PiecesRender(text);
    RewriteTextByPieces(rules, lead, pieces);
    RewriteEachGivesPieces(rules, pieces);
    RenderIsInjective(lead, Fold(rules, pieces), RewriteEach(rules, pieces));
    FoldAgrees(rules, pieces);
  }

  /** A second rewrite changes nothing, if and only if the first had no clash to skip. */
  lemma {:induction false} RewriteTextIsIdempotent(rules: seq<Rule>, text: string)
    requires WellFormed(rules)
    ensures RewriteText(rules, RewriteText(rules, text)) == RewriteText(rules, text) <==> !Clashes(rules, Pieces(text))
  {
    var lead, pieces := Lead(text), Pieces(text);
    var out := Fold(rules, pieces);
    PiecesRender(text);
    RewriteTextByPieces(rules, lead, pieces);
    RewriteTextByPieces(rules, lead, out);
    RenderIsInjective(lead, Fold(rules, out), out);
    SettledIsFixed(rules, out);
    FoldSettles(rules, pieces);
  }

  /** The order of the rules never matters, clash or not. */
  lemma {:induction false} RewriteTextIgnoresOrder(rules: seq<Rule>, permuted: seq<Rule>, text: string)
    requires WellFormed(rules) && multiset(rules) == multiset(permuted)
    ensures RewriteText(rules, text) == RewriteText(permuted, text)
  {
    PiecesRender(text);
    PermutationIsWellFormed(rules, permuted);
    RewriteTextByPieces(rules, Lead(text), Pieces(text));
    RewriteTextByPieces(permuted, Lead(text), Pieces(text));
    FoldIgnoresOrder(rules, permuted, Pieces(text));
  }

  lemma {:induction false} RenderThree(quote: char, body: string)
    ensures Render([Piece(quote, body), Piece(quote, body), Piece(quote, "")])
            == [quote] + body + ([quote] + body) + [quote]
  {
    var piece, last := Piece(quote, body), Piece(quote, "");
    RenderLast(piece, quote);
    RenderCons(piece, [piece, last]);
    assert [piece, piece, last] == [piece] + [piece, last];
  }

  lemma {:induction false} RenderLast(piece: Piece, quote: char)
    ensures Render([piece, Piece(quote, "")]) == [piece.quote] + piece.body + [quote]
  {
    var last := Piece(quote, "");
    RenderCons(last, []);
    RenderCons(piece, [last]);
    assert [piece, last] == [piece] + [last] && [last] == [last] + [];
  }

  /** The smallest text on which the two forms part ways. */
  lemma {:induction false} SharedQuoteClashes(rules: seq<Rule>, rule: Rule, quote: char)
    requires WellFormed(rules) && rule in rules && IsQuote(quote)
    ensures var literal := [quote] + rule.packageName;
            var text := literal + literal + [quote];
            RewriteText(rules, text) != RewriteEachLiteral(rules, text)
  {
    var piece := Piece(quote, rule.packageName);
    var pieces := [piece, piece, Piece(quote, "")];
    var text := [quote] + rule.packageName + ([quote] + rule.packageName) + [quote];
    RenderThree(quote, rule.packageName);
    RenderPieces("", pieces);
    assert "" + text == text;
    assert Fits(rule, pieces, 0) && Fits(rule, pieces, 0 + 1);
    assert Clash(rule, pieces);
    RewriteTextAgrees(rules, text);
  }

  // ----- texts made of literals -----------------------------------------------------------

  /** A string literal and the plain text up to the next one. */
  datatype Part = Part(quote: char, body: string, plain: string)

  predicate IsPart(p: Part) {
    IsQuote(p.quote) && QuoteFree(p.body) && QuoteFree(p.plain)
  }

  function PartPieces(parts: seq<Part>): (r: seq<Piece>)
    ensures |r| == 2 * |parts|
    ensures forall i | 0 <= i < |parts| ::
              r[2 * i] == Piece(parts[i].quote, parts[i].body) && r[2 * i + 1] == Piece(parts[i].quote, parts[i].plain)
  {
    if parts == [] then []
    else PartPieces(parts[..|parts| - 1]) +
         [Piece(parts[|parts| - 1].quote, parts[|parts| - 1].body), Piece(parts[|parts| - 1].quote, parts[|parts| - 1].plain)]
  }

  function PartsText(parts: seq<Part>): string {
    if parts == [] then ""
    else
      var last := parts[|parts| - 1];
      PartsText(parts[..|parts| - 1]) + ([last.quote] + last.body + ([last.quote] + last.plain))
  }

  function RewriteParts(rules: seq<Rule>, parts: seq<Part>): (r: seq<Part>)
    ensures |r| == |parts|
    ensures forall i | 0 <= i < |r| :: r[i] == parts[i].(body := RewriteBody(rules, parts[i].body))
  {
    seq(|parts|, i requires 0 <= i < |parts| => parts[i].(body := RewriteBody(rules, parts[i].body)))
  }

  lemma {:induction false} PartsRender(parts: seq<Part>)
    ensures PartsText(parts) == Render(PartPieces(parts))
  {
    if parts != [] {
      var front, last := parts[..|parts| - 1], parts[|parts| - 1];
      PartsRender(front);
      var a, b := Piece(last.quote, last.body), Piece(last.quote, last.plain);
      RenderAppend(PartPieces(front), [a, b]);
      RenderCons(a, [b]);
      RenderCons(b, []);
      assert [a, b] == [a] + [b] && [b] == [b] + [];
    }
  }

  lemma {:induction false} PieceOfPart(parts: seq<Part>, i: nat)
    requires i < 2 * |parts|
    ensures var p := parts[i / 2];
            PartPieces(parts)[i] == Piece(p.quote, if i % 2 == 0 then p.body else p.plain)
  {
    assert i == 2 * (i / 2) + i % 2;
  }

  lemma {:induction false} PartsArePieces(parts: seq<Part>)
    requires forall i | 0 <= i < |parts| :: IsPart(parts[i])
    ensures ArePieces(PartPieces(parts))
  {
    forall i | 0 <= i < 2 * |parts|
      ensures IsPiece(PartPieces(parts)[i])
    {
      PieceOfPart(parts, i);
      assert IsPart(parts[i / 2]);
    }
  }

  /**
   * A plain stretch between equal quotes that `rule` owns could be taken for a literal; it
   * is not, exactly if the literal in front of it is owned as well and uses up the quote.
   */
  ghost predicate IsShielded(rule: Rule, parts: seq<Part>, i: nat)
    requires i < |parts|
  {
    Fits(rule, PartPieces(parts), 2 * i + 1) ==> Matches(rule.packageName, parts[i].body)
  }

  ghost predicate AllShielded(rules: seq<Rule>, parts: seq<Part>) {
    forall r, i: nat | r in rules && i < |parts| :: IsShielded(r, parts, i)
  }

  /** The rule picks exactly the literals it owns, at part `i`. */
  ghost predicate PicksLiteral(rule: Rule, parts: seq<Part>, i: nat)
    requires i < |parts|
  {
    var picks := Picks(rule, PartPieces(parts));
    (picks[2 * i] <==> Matches(rule.packageName, parts[i].body)) && !picks[2 * i + 1]
  }

  lemma {:induction false} LiteralFits(rule: Rule, parts: seq<Part>, i: nat)
    requires i < |parts|
    ensures Fits(rule, PartPieces(parts), 2 * i) <==> Matches(rule.packageName, parts[i].body)
  {
    assert PartPieces(parts)[2 * i] == Piece(parts[i].quote, parts[i].body);
    assert PartPieces(parts)[2 * i + 1] == Piece(parts[i].quote, parts[i].plain);
  }

  lemma {:induction false} ShieldedPicks(rule: Rule, parts: seq<Part>, i: nat)
    requires i < |parts| && forall k: nat | k <= i :: IsShielded(rule, parts, k)
    ensures PicksLiteral(rule, parts, i)
    decreases i
  {
    var pieces := PartPieces(parts);
    LiteralFits(rule, parts, i);
    PicksAreGreedy(rule, pieces, 2 * i);
    PicksAreGreedy(rule, pieces, 2 * i + 1);
    PassByPicks(rule, pieces, 2 * i);
    PassByPicks(rule, pieces, 2 * i + 1);
    if i > 0 {
      ShieldedPicks(rule, parts, i - 1);
      assert 2 * i - 1 == 2 * (i - 1) + 1;
    }
    assert IsShielded(rule, parts, i);
  }

  lemma {:induction false} PicksShield(rule: Rule, parts: seq<Part>, i: nat)
    requires i < |parts| && PicksLiteral(rule, parts, i)
    ensures IsShielded(rule, parts, i)
  {
    PicksAreGreedy(rule, PartPieces(parts), 2 * i + 1);
  }

  /** What the fold makes of the literal of part `i`, by its owner's picks. */
  lemma {:induction false} OwnedBody(rules: seq<Rule>, rule: Rule, parts: seq<Part>, i: nat)
    requires WellFormed(rules) && rule in rules && i < |parts| && Matches(rule.packageName, parts[i].body)
    ensures Fold(rules, PartPieces(parts))[2 * i] == Piece(parts[i].quote, RewriteBody(rules, parts[i].body))
            <==> Picks(rule, PartPieces(parts))[2 * i]
  {
    assert PartPieces(parts)[2 * i] == Piece(parts[i].quote, parts[i].body);
    OwnedPiece(rules, rule, PartPieces(parts), 2 * i);
    SpecifierOfOwner(rules, rule, parts[i].body);
  }

  lemma {:induction false} OwnedPlain(rules: seq<Rule>, rule: Rule, parts: seq<Part>, i: nat)
    requires WellFormed(rules) && rule in rules && i < |parts| && Matches(rule.packageName, parts[i].plain)
    ensures Fold(rules, PartPieces(parts))[2 * i + 1] == Piece(parts[i].quote, parts[i].plain)
            <==> !Picks(rule, PartPieces(parts))[2 * i + 1]
  {
    assert PartPieces(parts)[2 * i + 1] == Piece(parts[i].quote, parts[i].plain);
    OwnedPiece(rules, rule, PartPieces(parts), 2 * i + 1);
  }

  /** Part `i` comes out with its literal rewritten and its plain stretch as it was. */
  ghost predicate PartIsRewritten(rules: seq<Rule>, parts: seq<Part>, i: nat)
    requires i < |parts|
  {
    var out := Fold(rules, PartPieces(parts));
    && out[2 * i] == Piece(parts[i].quote, RewriteBody(rules, parts[i].body))
    && out[2 * i + 1] == Piece(parts[i].quote, parts[i].plain)
  }

  lemma {:induction false} UnownedBody(rules: seq<Rule>, body: string)
    requires forall r | r in rules :: !Matches(r.packageName, body)
    ensures RewriteBody(rules, body) == body
  {
    SpecifierUsesLongestMatch(rules, body);
  }

  lemma {:induction false} UnownedStays(rules: seq<Rule>, pieces: seq<Piece>, i: nat)
    requires WellFormed(rules) && i < |pieces|
    requires forall r | r in rules :: !Matches(r.packageName, pieces[i].body)
    ensures Fold(rules, pieces)[i] == pieces[i] == Piece(pieces[i].quote, RewriteBody(rules, pieces[i].body))
  {
    UnownedPiece(rules, pieces, i);
    UnownedBody(rules, pieces[i].body);
  }

  lemma {:induction false} PickedBody(rules: seq<Rule>, parts: seq<Part>, i: nat)
    requires WellFormed(rules) && i < |parts|
    requires forall r | r in rules :: PicksLiteral(r, parts, i)
    ensures Fold(rules, PartPieces(parts))[2 * i] == Piece(parts[i].quote, RewriteBody(rules, parts[i].body))
  {
    assert PartPieces(parts)[2 * i] == Piece(parts[i].quote, parts[i].body);
    if r :| r in rules && Matches(r.packageName, parts[i].body) {
      OwnedBody(rules, r, parts, i);
    } else {
      UnownedStays(rules, PartPieces(parts), 2 * i);
    }
  }

  lemma {:induction false} PickedPlain(rules: seq<Rule>, parts: seq<Part>, i: nat)
    requires WellFormed(rules) && i < |parts|
    requires forall r | r in rules :: PicksLiteral(r, parts, i)
    ensures Fold(rules, PartPieces(parts))[2 * i + 1] == Piece(parts[i].quote, parts[i].plain)
  {
    assert PartPieces(parts)[2 * i + 1] == Piece(parts[i].quote, parts[i].plain);
    if r :| r in rules && Matches(r.packageName, parts[i].plain) {
      OwnedPlain(rules, r, parts, i);
    } else {
      UnownedStays(rules, PartPieces(parts), 2 * i + 1);
    }
  }

  lemma {:induction false} PickedPart(rules: seq<Rule>, parts: seq<Part>, i: nat)
    requires WellFormed(rules) && i < |parts|
    requires forall r | r in rules :: PicksLiteral(r, parts, i)
    ensures PartIsRewritten(rules, parts, i)
  {
    PickedBody(rules, parts, i);
    PickedPlain(rules, parts, i);
  }

  lemma {:induction false} RewrittenPart(rules: seq<Rule>, rule: Rule, parts: seq<Part>, i: nat)
    requires WellFormed(rules) && rule in rules && i < |parts| && PartIsRewritten(rules, parts, i)
    ensures PicksLiteral(rule, parts, i)
  {
    RewrittenBody(rules, rule, parts, i);
    UntouchedPlain(rules, rule, parts, i);
  }

  lemma {:induction false} RewrittenBody(rules: seq<Rule>, rule: Rule, parts: seq<Part>, i: nat)
    requires WellFormed(rules) && rule in rules && i < |parts|
    requires Fold(rules, PartPieces(parts))[2 * i] == Piece(parts[i].quote, RewriteBody(rules, parts[i].body))
    ensures Picks(rule, PartPieces(parts))[2 * i] <==> Matches(rule.packageName, parts[i].body)
  {
    LiteralFits(rule, parts, i);
    PassByPicks(rule, PartPieces(parts), 2 * i);
    if Matches(rule.packageName, parts[i].body) {
      OwnedBody(rules, rule, parts, i);
    }
  }

  lemma {:induction false} UntouchedPlain(rules: seq<Rule>, rule: Rule, parts: seq<Part>, i: nat)
    requires WellFormed(rules) && rule in rules && i < |parts|
    requires Fold(rules, PartPieces(parts))[2 * i + 1] == Piece(parts[i].quote, parts[i].plain)
    ensures !Picks(rule, PartPieces(parts))[2 * i + 1]
  {
    assert PartPieces(parts)[2 * i + 1] == Piece(parts[i].quote, parts[i].plain);
    PassByPicks(rule, PartPieces(parts), 2 * i + 1);
    if Matches(rule.packageName, parts[i].plain) {
      OwnedPlain(rules, rule, parts, i);
    }
  }

  lemma {:induction false} FoldByParts(rules: seq<Rule>, parts: seq<Part>)
    ensures Fold(rules, PartPieces(parts)) == PartPieces(RewriteParts(rules, parts)) <==>
            forall i: nat | i < |parts| :: PartIsRewritten(rules, parts, i)
  {
    var left, right := Fold(rules, PartPieces(parts)), PartPieces(RewriteParts(rules, parts));
    if forall i: nat | i < |parts| :: PartIsRewritten(rules, parts, i) {
      forall i | 0 <= i < |left|
        ensures left[i] == right[i]
      {
        assert PartIsRewritten(rules, parts, i / 2);
        PieceOfPart(RewriteParts(rules, parts), i);
        assert i == 2 * (i / 2) || i == 2 * (i / 2) + 1;
      }
    }
    if left == right {
      forall i: nat | i < |parts|
        ensures PartIsRewritten(rules, parts, i)
      {
        assert right[2 * i] == Piece(parts[i].quote, RewriteBody(rules, parts[i].body));
        assert right[2 * i + 1] == Piece(parts[i].quote, parts[i].plain);
      }
    }
  }

  lemma {:induction false} PartsByShields(rules: seq<Rule>, parts: seq<Part>)
    requires WellFormed(rules)
    ensures AllShielded(rules, parts) <==> forall i: nat | i < |parts| :: PartIsRewritten(rules, parts, i)
  {
    if AllShielded(rules, parts) {
      forall i: nat | i < |parts|
        ensures PartIsRewritten(rules, parts, i)
      {
        forall r | r in rules
          ensures PicksLiteral(r, parts, i)
        {
          assert forall k: nat | k <= i :: IsShielded(r, parts, k);
          ShieldedPicks(r, parts, i);
        }
        PickedPart(rules, parts, i);
      }
    }
    if forall i: nat | i < |parts| :: PartIsRewritten(rules, parts, i) {
      forall r, i: nat | r in rules && i < |parts|
        ensures IsShielded(r, parts, i)
      {
        RewrittenPart(rules, r, parts, i);
        PicksShield(r, parts, i);
      }
    }
  }

  /**
   * In a text of literals and plain stretches exactly the literals are rewritten, each by
   * the single-specifier form, if and only if every plain stretch that an equal quote
   * closes and some package owns stands behind a literal of that package.
   */
  lemma {:induction false} LiteralsAreRewritten(rules: seq<Rule>, lead: string, parts: seq<Part>)
    requires WellFormed(rules) && QuoteFree(lead)
    requires forall i | 0 <= i < |parts| :: IsPart(parts[i])
    ensures RewriteText(rules, lead + PartsText(parts)) == lead + PartsText(RewriteParts(rules, parts))
            <==> AllShielded(rules, parts)
  {
    var pieces := PartPieces(parts);
    PartsRender(parts);
    PartsRender(RewriteParts(rules, parts));
    PartsArePieces(parts);
    RewrittenPartsAreParts(rules, parts);
    PartsArePieces(RewriteParts(rules, parts));
    RewriteTextByPieces(rules, lead, pieces);
    RenderIsInjective(lead, Fold(rules, pieces), PartPieces(RewriteParts(rules, parts)));
    FoldByParts(rules, parts);
    PartsByShields(rules, parts);
  }

  lemma {:induction false} RewrittenPartsAreParts(rules: seq<Rule>, parts: seq<Part>)
    requires WellFormed(rules) && forall i | 0 <= i < |parts| :: IsPart(parts[i])
    ensures forall i | 0 <= i < |parts| :: IsPart(RewriteParts(rules, parts)[i])
  {
    forall i | 0 <= i < |parts|
      ensures IsPart(RewriteParts(rules, parts)[i])
    {
      RewriteBodyIsQuoteFree(rules, parts[i].body);
    }
  }

  /** In particular when no plain stretch is itself a specifier. */
  lemma {:induction false} PlainTextIsShielded(rules: seq<Rule>, parts: seq<Part>)
    requires forall i | 0 <= i < |parts| :: RewriteSpecifier(rules, parts[i].plain).None?
    ensures AllShielded(rules, parts)
  {
    forall r, i: nat | r in rules && i < |parts|
      ensures IsShielded(r, parts, i)
    {
      SpecifierUsesLongestMatch(rules, parts[i].plain);
      assert PartPieces(parts)[2 * i + 1] == Piece(parts[i].quote, parts[i].plain);
    }
  }
}
